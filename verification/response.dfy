/**
 The `create-rsp` handler (Cli/Program.cs) without its console: six answers,
 each `null` when input has ended, are given defaults, the two yes/no
 answers go through `bool.TryParse`, and a `bundle ...` command line is
 composed from them for the response file.
 */
module Response {
  import opened Wrappers
  import opened Text

  /** What `Console.ReadLine` returned for each prompt; `None` is `null`. */
  datatype Answers = Answers(
    languages: Option<string>,
    output: Option<string>,
    note: Option<string>,
    sort: Option<string>,
    removeEmptyLines: Option<string>,
    author: Option<string>)

  /** The values written into the response file. */
  datatype ReplayOptions = ReplayOptions(
    languages: string,
    output: string,
    note: bool,
    sort: string,
    removeEmptyLines: bool,
    author: string)

  /** `bool.TryParse`: after stripping whitespace and NUL characters from
      both ends, "true" or "false" in any letter case; `null` and anything
      else fail. */
  function TryParseBool(s: Option<string>): (r: Option<bool>)
    ensures r.Some? ==> s.Some?
  {
    match s
    case None => None
    case Some(text) =>
      var t := Trim(text);
      if EqualsIgnoreCase(t, "true") then Some(true)
      else if EqualsIgnoreCase(t, "false") then Some(false)
      else None
  }

  /** `bool.ToString()`, which string interpolation uses. */
  function BoolText(b: bool): string
  {
    if b then "True" else "False"
  }

  /** The defaults of the handler: "all", "bundled_code.txt", "name" and
      "Unknown Author" for missing answers, and `false` for a yes/no answer
      that is missing or does not parse. */
  function Resolve(a: Answers): (o: ReplayOptions)
    ensures a.languages == None ==> o.languages == "all"
    ensures a.output == None ==> o.output == "bundled_code.txt"
    ensures a.sort == None ==> o.sort == "name"
    ensures a.author == None ==> o.author == "Unknown Author"
    ensures a.languages.Some? ==> o.languages == a.languages.value
    ensures a.output.Some? ==> o.output == a.output.value
    ensures a.sort.Some? ==> o.sort == a.sort.value
    ensures a.author.Some? ==> o.author == a.author.value
    ensures o.note <==> TryParseBool(a.note) == Some(true)
    ensures o.removeEmptyLines <==> TryParseBool(a.removeEmptyLines) == Some(true)
  {
    ReplayOptions(
      a.languages.GetOr("all"),
      a.output.GetOr("bundled_code.txt"),
      TryParseBool(a.note).GetOr(false),
      a.sort.GetOr("name"),
      TryParseBool(a.removeEmptyLines).GetOr(false),
      a.author.GetOr("Unknown Author"))
  }

  /** One ` --name value` piece of the command line. */
  function Flag(name: string, value: string): string
  {
    " --" + name + " " + value
  }

  /** The command line the handler writes into the response file. */
  function ReplayLine(o: ReplayOptions): string
  {
    "bundle"
    + (Flag("language", o.languages)
    + (Flag("output", o.output)
    + (Flag("note", BoolText(o.note))
    + (Flag("sort", o.sort)
    + (Flag("remove-empty-lines", BoolText(o.removeEmptyLines))
    + Flag("author", "\"" + o.author + "\""))))))
  }

  /** The whole handler: answers in, response-file text out. */
  function CreateResponse(a: Answers): string
  {
    ReplayLine(Resolve(a))
  }

  // ----- reading a replay line back -----

  function DropPrefix(s: string, prefix: string): Option<string>
  {
    if StartsWith(s, prefix) then Some(s[|prefix|..]) else None
  }

  /** The text up to the first space, and the rest from that space on. */
  function Word(s: string): (string, string)
  {
    if |s| == 0 || s[0] == ' ' then ("", s)
    else
      var (w, rest) := Word(s[1..]);
      ([s[0]] + w, rest)
  }

  /** Reads ` --name value` from the front of `s`, the value running up to
      the next space; returns the value and what follows it. */
  function ReadFlag(s: string, name: string): Option<(string, string)>
  {
    var rest :- DropPrefix(s, " --" + name + " ");
    Some(Word(rest))
  }

  /** Recovers the options from a replay line; the value of each option
      other than the author runs up to the next space. */
  function ParseReplay(line: string): Option<ReplayOptions>
  {
    var r0 :- DropPrefix(line, "bundle");
    var (languages, r1) :- ReadFlag(r0, "language");
    var (output, r2) :- ReadFlag(r1, "output");
    var (note, sort, removeEmptyLines, author) :- ParseSwitches(r2);
    Some(ReplayOptions(languages, output, note, sort, removeEmptyLines, author))
  }

  /** The `--note` and `--sort` options, then the rest. */
  function ParseSwitches(s: string): Option<(bool, string, bool, string)>
  {
    var (noteText, r0) :- ReadFlag(s, "note");
    var note :- TryParseBool(Some(noteText));
    var (sort, r1) :- ReadFlag(r0, "sort");
    var (removeEmptyLines, author) :- ParseLast(r1);
    Some((note, sort, removeEmptyLines, author))
  }

  /** The `--remove-empty-lines` option, then the author. */
  function ParseLast(s: string): Option<(bool, string)>
  {
    var (removeText, r0) :- ReadFlag(s, "remove-empty-lines");
    var removeEmptyLines :- TryParseBool(Some(removeText));
    var author :- ParseAuthor(r0);
    Some((removeEmptyLines, author))
  }

  /** The quoted `--author` value that ends the line. */
  function ParseAuthor(s: string): Option<string>
  {
    var quoted :- DropPrefix(s, " --author ");
    if |quoted| >= 2 && quoted[0] == '"' && quoted[|quoted| - 1] == '"' then
      Some(quoted[1..|quoted| - 1])
    else None
  }

  lemma DropPrefixOf(prefix: string, rest: string)
    ensures DropPrefix(prefix + rest, prefix) == Some(rest)
  {
    assert (prefix + rest)[..|prefix|] == prefix;
    assert (prefix + rest)[|prefix|..] == rest;
  }

  lemma {:induction false} WordOf(w: string, rest: string)
    requires ' ' !in w
    requires |rest| > 0 && rest[0] == ' '
    ensures Word(w + rest) == (w, rest)
  {
    if |w| > 0 {
      assert (w + rest)[1..] == w[1..] + rest;
      WordOf(w[1..], rest);
      assert [w[0]] + w[1..] == w;
    } else {
      assert w + rest == rest;
    }
  }

  lemma ReadFlagOf(name: string, w: string, rest: string)
    requires ' ' !in w
    requires |rest| > 0 && rest[0] == ' '
    ensures ReadFlag(Flag(name, w) + rest, name) == Some((w, rest))
  {
    assert Flag(name, w) + rest == (" --" + name + " ") + (w + rest);
    DropPrefixOf(" --" + name + " ", w + rest);
    WordOf(w, rest);
  }

  lemma {:induction false} TrimStartPadded(pre: string, x: string)
    requires forall i | 0 <= i < |pre| :: IsTrimmable(pre[i])
    requires |x| > 0 && !IsTrimmable(x[0])
    ensures TrimStart(pre + x) == x
  {
    if |pre| > 0 {
      assert (pre + x)[1..] == pre[1..] + x;
      TrimStartPadded(pre[1..], x);
    } else {
      assert pre + x == x;
    }
  }

  lemma {:induction false} TrimEndPadded(x: string, post: string)
    requires forall i | 0 <= i < |post| :: IsTrimmable(post[i])
    requires |x| > 0 && !IsTrimmable(x[|x| - 1])
    ensures TrimEnd(x + post) == x
    decreases |post|
  {
    if |post| > 0 {
      var shorter := post[..|post| - 1];
      assert (x + post)[..|x + post| - 1] == x + shorter;
      TrimEndPadded(x, shorter);
    } else {
      assert x + post == x;
    }
  }

  lemma TrimPadded(pre: string, word: string, post: string)
    requires forall i | 0 <= i < |pre| :: IsTrimmable(pre[i])
    requires forall i | 0 <= i < |post| :: IsTrimmable(post[i])
    requires |word| > 0 && !IsTrimmable(word[0]) && !IsTrimmable(word[|word| - 1])
    ensures Trim(pre + word + post) == word
  {
    assert pre + word + post == pre + (word + post);
    TrimStartPadded(pre, word + post);
    TrimEndPadded(word, post);
  }

  lemma BoolWords()
    ensures ToLower("True") == "true" && ToLower("true") == "true"
    ensures ToLower("False") == "false" && ToLower("false") == "false"
  {
  }

  /** A word equal to "True" or "False" up to letter case starts and ends
      with a letter. */
  lemma BoolWordEnds(word: string, b: bool)
    requires EqualsIgnoreCase(word, BoolText(b))
    ensures |word| > 0 && !IsTrimmable(word[0]) && !IsTrimmable(word[|word| - 1])
  {
    BoolWords();
    assert |word| == |ToLower(word)|;
    assert LowerChar(word[0]) == ToLower(word)[0];
    assert LowerChar(word[|word| - 1]) == ToLower(word)[|word| - 1];
  }

  /** `bool.TryParse` accepts "True"/"False" in any letter case with any
      whitespace or NUL padding, and reads the value they name. */
  lemma TryParseBoolAccepts(pre: string, word: string, post: string, b: bool)
    requires forall i | 0 <= i < |pre| :: IsTrimmable(pre[i])
    requires forall i | 0 <= i < |post| :: IsTrimmable(post[i])
    requires EqualsIgnoreCase(word, BoolText(b))
    ensures TryParseBool(Some(pre + word + post)) == Some(b)
  {
    BoolWordEnds(word, b);
    TrimPadded(pre, word, post);
    BoolWords();
  }

  /** The yes/no values written into the response file read back as what
      they were. */
  lemma BoolTextRoundTrip(b: bool)
    ensures TryParseBool(Some(BoolText(b))) == Some(b)
  {
    BoolWords();
    TryParseBoolAccepts("", BoolText(b), "", b);
    assert "" + BoolText(b) + "" == BoolText(b);
  }

  lemma ParseAuthorOf(author: string)
    ensures ParseAuthor(Flag("author", "\"" + author + "\"")) == Some(author)
  {
    var quoted := "\"" + author + "\"";
    assert Flag("author", quoted) == " --author " + quoted;
    DropPrefixOf(" --author ", quoted);
    assert quoted[1..|quoted| - 1] == author;
  }

  lemma ParseLastOf(removeEmptyLines: bool, author: string)
    ensures ParseLast(Flag("remove-empty-lines", BoolText(removeEmptyLines))
                      + Flag("author", "\"" + author + "\"")) == Some((removeEmptyLines, author))
  {
    ReadFlagOf("remove-empty-lines", BoolText(removeEmptyLines), Flag("author", "\"" + author + "\""));
    BoolTextRoundTrip(removeEmptyLines);
    ParseAuthorOf(author);
  }

  lemma ParseSwitchesOf(o: ReplayOptions)
    requires ' ' !in o.sort
    ensures ParseSwitches(Flag("note", BoolText(o.note))
                          + (Flag("sort", o.sort)
                          + (Flag("remove-empty-lines", BoolText(o.removeEmptyLines))
                          + Flag("author", "\"" + o.author + "\""))))
            == Some((o.note, o.sort, o.removeEmptyLines, o.author))
  {
    var last := Flag("remove-empty-lines", BoolText(o.removeEmptyLines))
                + Flag("author", "\"" + o.author + "\"");
    var t := Flag("sort", o.sort) + last;
    ReadFlagOf("note", BoolText(o.note), t);
    BoolTextRoundTrip(o.note);
    ReadFlagOf("sort", o.sort, last);
    ParseLastOf(o.removeEmptyLines, o.author);
  }

  /** When the languages, output and sort answers hold no space, the replay
      line carries every resolved option and they can be read back from it. */
  lemma ReplayRoundTrip(o: ReplayOptions)
    requires ' ' !in o.languages && ' ' !in o.output && ' ' !in o.sort
    ensures ParseReplay(ReplayLine(o)) == Some(o)
  {
    var t2 := Flag("note", BoolText(o.note))
              + (Flag("sort", o.sort)
              + (Flag("remove-empty-lines", BoolText(o.removeEmptyLines))
              + Flag("author", "\"" + o.author + "\"")));
    var t1 := Flag("output", o.output) + t2;
    var t0 := Flag("language", o.languages) + t1;
    DropPrefixOf("bundle", t0);
    ReadFlagOf("language", o.languages, t1);
    ReadFlagOf("output", o.output, t2);
    ParseSwitchesOf(o);
  }

  /** The response file for answers without spaces (after defaults) reads
      back as exactly the resolved options. */
  lemma CreateResponseRoundTrip(a: Answers)
    requires ' ' !in a.languages.GetOr("all")
    requires ' ' !in a.output.GetOr("bundled_code.txt")
    requires ' ' !in a.sort.GetOr("name")
    ensures ParseReplay(CreateResponse(a)) == Some(Resolve(a))
  {
    ReplayRoundTrip(Resolve(a));
  }
}
