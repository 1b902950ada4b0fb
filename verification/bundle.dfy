/**
 The line-assembly part of the `bundle` handler (Cli/Program.cs): an author
 banner, a start marker and a blank line; then for every file an optional
 `// File: <relative path>` note, the file's lines (blank ones dropped when
 asked) and a blank separator; then an end marker. File contents arrive as a
 map from path to lines; a path missing from the map is a file
 `File.ReadAllLines` could not read, which aborts the loop and leaves in the
 output file whatever was written before it.
 */
module Bundle {
  import opened Seqs
  import opened Text

  const AuthorPrefix := "// Author: "
  const StartMarker := "// Bundled Code Starts Here"
  const EndMarker := "// Bundled Code Ends Here"
  const NotePrefix := "// File: "

  datatype Options = Options(note: bool, removeEmptyLines: bool, author: string)

  /** The lines the output file ends up holding. */
  datatype Outcome =
    | Complete(lines: seq<string>)
    | Aborted(lines: seq<string>, unreadable: string)

  /** Lines written before `o`'s lines. */
  function Prepend(s: seq<string>, o: Outcome): Outcome
  {
    match o
    case Complete(r) => Complete(s + r)
    case Aborted(r, g) => Aborted(s + r, g)
  }

  function Header(author: string): seq<string>
  {
    [AuthorPrefix + author, StartMarker, ""]
  }

  /** A line that `removeEmptyLines` keeps. */
  predicate HasText(l: string)
  {
    !IsBlank(l)
  }

  /** The lines written for a file's content: all of them, or with
      `removeEmptyLines` only those that are not empty or whitespace. */
  function SectionBody(lines: seq<string>, removeEmptyLines: bool): (body: seq<string>)
    ensures |body| <= |lines|
    ensures !removeEmptyLines ==> body == lines
  {
    if removeEmptyLines then Filter(lines, HasText) else lines
  }

  /** With `removeEmptyLines`, the body is the file's lines with the blank
      ones deleted: order kept, every other line kept with all its copies,
      no blank line left. */
  lemma SectionBodyDropsBlank(lines: seq<string>)
    ensures IsSubseq(SectionBody(lines, true), lines)
    ensures forall l :: l in SectionBody(lines, true) <==> l in lines && !IsBlank(l)
    ensures forall l | !IsBlank(l) :: multiset(SectionBody(lines, true))[l] == multiset(lines)[l]
    ensures forall l | IsBlank(l) :: multiset(SectionBody(lines, true))[l] == 0
  {
    FilterMembers(lines, HasText);
    FilterCounts(lines, HasText);
    FilterSubseq(lines, HasText);
  }

  function NoteLines(opts: Options, rel: string): seq<string>
  {
    if opts.note then [NotePrefix + rel] else []
  }

  function Section(opts: Options, rel: string, lines: seq<string>): seq<string>
  {
    NoteLines(opts, rel) + SectionBody(lines, opts.removeEmptyLines) + [""]
  }

  /** The sections of `files` in order, stopping at the first unreadable one
      after its note line. */
  function Sections(files: seq<string>, contents: map<string, seq<string>>,
                    relPath: string -> string, opts: Options): Outcome
  {
    if |files| == 0 then Complete([])
    else if files[0] !in contents then Aborted(NoteLines(opts, relPath(files[0])), files[0])
    else Prepend(Section(opts, relPath(files[0]), contents[files[0]]),
                 Sections(files[1..], contents, relPath, opts))
  }

  /** The whole output file. */
  function BundleOutput(files: seq<string>, contents: map<string, seq<string>>,
                        relPath: string -> string, opts: Options): Outcome
  {
    match Sections(files, contents, relPath, opts)
    case Complete(body) => Complete(Header(opts.author) + body + [EndMarker])
    case Aborted(body, g) => Aborted(Header(opts.author) + body, g)
  }

  lemma PrependPrepend(a: seq<string>, b: seq<string>, o: Outcome)
    ensures Prepend(a, Prepend(b, o)) == Prepend(a + b, o)
  {
  }

  lemma SectionsStep(files: seq<string>, contents: map<string, seq<string>>,
                     relPath: string -> string, opts: Options, i: nat)
    requires i < |files|
    ensures files[i] in contents ==>
      Sections(files[i..], contents, relPath, opts)
      == Prepend(Section(opts, relPath(files[i]), contents[files[i]]),
                 Sections(files[i + 1..], contents, relPath, opts))
    ensures files[i] !in contents ==>
      Sections(files[i..], contents, relPath, opts) == Aborted(NoteLines(opts, relPath(files[i])), files[i])
  {
    assert files[i..][1..] == files[i + 1..];
  }

  lemma SeqAssoc(a: seq<string>, b: seq<string>, c: seq<string>, d: seq<string>)
    ensures (a + b) + c + d == a + (b + c + d)
  {
  }

  /** Writes `lines` one after another after `written`. */
  method WriteLines(written: seq<string>, lines: seq<string>) returns (out: seq<string>)
    ensures out == written + lines
  {
    out := written;
    var j := 0;
    while j < |lines|
      invariant 0 <= j <= |lines|
      invariant out == written + lines[..j]
    {
      assert lines[..j + 1] == lines[..j] + [lines[j]];
      out := out + [lines[j]];
      j := j + 1;
    }
    assert lines[..j] == lines;
  }

  /** The optional `// File:` line. */
  method WriteNote(written: seq<string>, opts: Options, rel: string) returns (out: seq<string>)
    ensures out == written + NoteLines(opts, rel)
  {
    out := written;
    if opts.note {
      out := out + [NotePrefix + rel];
    }
  }

  /** A file's lines, blank ones dropped when asked, and the separator line. */
  method WriteContent(written: seq<string>, lines: seq<string>, opts: Options) returns (out: seq<string>)
    ensures out == written + SectionBody(lines, opts.removeEmptyLines) + [""]
  {
    var fileLines := lines;
    if opts.removeEmptyLines {
      fileLines := Filter(fileLines, HasText);
    }
    out := WriteLines(written, fileLines);
    out := out + [""];
  }

  /** The output once the loop has ended: a complete run gets the end
      marker, an aborted one does not. */
  function Finish(o: Outcome): Outcome
  {
    match o
    case Complete(r) => Complete(r + [EndMarker])
    case Aborted(r, g) => o
  }

  lemma BundleOutputFinish(files: seq<string>, contents: map<string, seq<string>>,
                           relPath: string -> string, opts: Options)
    ensures BundleOutput(files, contents, relPath, opts)
         == Finish(Prepend(Header(opts.author), Sections(files, contents, relPath, opts)))
  {
  }

  /** The handler's loop, statement by statement: it writes the banner, then
      each file's section, then the end marker, and the lines it writes are
      the ones `BundleOutput` describes. */
  method WriteBundle(files: seq<string>, contents: map<string, seq<string>>,
                     relPath: string -> string, opts: Options) returns (out: Outcome)
    ensures out == BundleOutput(files, contents, relPath, opts)
  {
    BundleOutputFinish(files, contents, relPath, opts);
    var written := Header(opts.author);
    var i := 0;
    while i < |files|
      invariant 0 <= i <= |files|
      invariant Prepend(written, Sections(files[i..], contents, relPath, opts))
                == Prepend(Header(opts.author), Sections(files, contents, relPath, opts))
    {
      var file := files[i];
      SectionsStep(files, contents, relPath, opts, i);
      ghost var before := written;
      written := WriteNote(written, opts, relPath(file));
      if file !in contents {
        return Aborted(written, file);
      }
      written := WriteContent(written, contents[file], opts);
      SeqAssoc(before, NoteLines(opts, relPath(file)), SectionBody(contents[file], opts.removeEmptyLines), [""]);
      PrependPrepend(before, Section(opts, relPath(file), contents[file]),
                     Sections(files[i + 1..], contents, relPath, opts));
      i := i + 1;
    }
    assert Sections(files[i..], contents, relPath, opts) == Complete([]);
    out := Complete(written + [EndMarker]);
  }

  /** Σ over the files of (note line ? 1 : 0) + kept lines + 1. */
  function SectionsLength(files: seq<string>, contents: map<string, seq<string>>, opts: Options): nat
    requires forall f | f in files :: f in contents
  {
    if |files| == 0 then 0
    else (if opts.note then 1 else 0) + |SectionBody(contents[files[0]], opts.removeEmptyLines)| + 1
         + SectionsLength(files[1..], contents, opts)
  }

  /** Every file readable: the sections are written in full, and there are
      `SectionsLength` lines of them. */
  lemma {:induction false} SectionsComplete(files: seq<string>, contents: map<string, seq<string>>,
                                            relPath: string -> string, opts: Options)
    requires forall f | f in files :: f in contents
    ensures Sections(files, contents, relPath, opts).Complete?
    ensures |Sections(files, contents, relPath, opts).lines| == SectionsLength(files, contents, opts)
  {
    if |files| > 0 {
      SectionsComplete(files[1..], contents, relPath, opts);
    }
  }

  lemma SectionLength(opts: Options, rel: string, lines: seq<string>)
    ensures |Section(opts, rel, lines)|
            == (if opts.note then 1 else 0) + |SectionBody(lines, opts.removeEmptyLines)| + 1
  {
  }

  lemma SectionsLengthShift(files: seq<string>, contents: map<string, seq<string>>,
                            relPath: string -> string, opts: Options, i: nat)
    requires forall f | f in files :: f in contents
    requires 0 < i <= |files|
    ensures SectionsLength(files[..i], contents, opts)
         == |Section(opts, relPath(files[0]), contents[files[0]])| + SectionsLength(files[1..][..i - 1], contents, opts)
  {
    assert files[..i][1..] == files[1..][..i - 1];
    SectionLength(opts, relPath(files[0]), contents[files[0]]);
  }

  /** A run of lines at `at` in `b` sits at `|a| + at` in `a + b`. */
  lemma SliceShift(a: seq<string>, b: seq<string>, at: nat, s: seq<string>, shifted: nat)
    requires at + |s| <= |b| && b[at..at + |s|] == s
    requires shifted == |a| + at
    ensures shifted + |s| <= |a + b|
    ensures (a + b)[shifted..shifted + |s|] == s
  {
    assert (a + b)[shifted..shifted + |s|] == b[at..at + |s|];
  }

  /** The sections of a non-empty readable list: the first file's section,
      then those of the rest. */
  lemma SectionsCons(files: seq<string>, contents: map<string, seq<string>>,
                     relPath: string -> string, opts: Options)
    requires forall f | f in files :: f in contents
    requires |files| > 0
    ensures Sections(files, contents, relPath, opts).Complete?
    ensures Sections(files, contents, relPath, opts).lines
         == Section(opts, relPath(files[0]), contents[files[0]])
            + Sections(files[1..], contents, relPath, opts).lines
  {
    SectionsComplete(files[1..], contents, relPath, opts);
  }

  /** Every file readable: file `i`'s section sits right after the sections
      of the files before it. */
  lemma {:induction false} SectionAt(files: seq<string>, contents: map<string, seq<string>>,
                                     relPath: string -> string, opts: Options, i: nat)
    requires forall f | f in files :: f in contents
    requires i < |files|
    ensures Sections(files, contents, relPath, opts).Complete?
    ensures var at := SectionsLength(files[..i], contents, opts);
            var s := Section(opts, relPath(files[i]), contents[files[i]]);
            at + |s| <= |Sections(files, contents, relPath, opts).lines| &&
            Sections(files, contents, relPath, opts).lines[at..at + |s|] == s
  {
    if i == 0 {
      SectionAtFirst(files, contents, relPath, opts);
    } else {
      SectionAt(files[1..], contents, relPath, opts, i - 1);
      SectionAtLater(files, contents, relPath, opts, i);
    }
  }

  lemma SectionAtFirst(files: seq<string>, contents: map<string, seq<string>>,
                       relPath: string -> string, opts: Options)
    requires forall f | f in files :: f in contents
    requires 0 < |files|
    ensures Sections(files, contents, relPath, opts).Complete?
    ensures var s := Section(opts, relPath(files[0]), contents[files[0]]);
            SectionsLength(files[..0], contents, opts) == 0 &&
            |s| <= |Sections(files, contents, relPath, opts).lines| &&
            Sections(files, contents, relPath, opts).lines[0..|s|] == s
  {
    SectionsCons(files, contents, relPath, opts);
    assert files[..0] == [];
  }

  /** The step of `SectionAt`: a section's place among the later files'
      sections moves right by the length of the first file's section. */
  lemma SectionAtLater(files: seq<string>, contents: map<string, seq<string>>,
                       relPath: string -> string, opts: Options, i: nat)
    requires forall f | f in files :: f in contents
    requires 0 < i < |files|
    requires Sections(files[1..], contents, relPath, opts).Complete?
    requires var at := SectionsLength(files[1..][..i - 1], contents, opts);
             var s := Section(opts, relPath(files[1..][i - 1]), contents[files[1..][i - 1]]);
             at + |s| <= |Sections(files[1..], contents, relPath, opts).lines| &&
             Sections(files[1..], contents, relPath, opts).lines[at..at + |s|] == s
    ensures Sections(files, contents, relPath, opts).Complete?
    ensures var at := SectionsLength(files[..i], contents, opts);
            var s := Section(opts, relPath(files[i]), contents[files[i]]);
            at + |s| <= |Sections(files, contents, relPath, opts).lines| &&
            Sections(files, contents, relPath, opts).lines[at..at + |s|] == s
  {
    SectionsCons(files, contents, relPath, opts);
    var s0 := Section(opts, relPath(files[0]), contents[files[0]]);
    var tail := Sections(files[1..], contents, relPath, opts).lines;
    SectionsLengthShift(files, contents, relPath, opts, i);
    assert files[i] == files[1..][i - 1];
    SliceShift(s0, tail, SectionsLength(files[1..][..i - 1], contents, opts),
               Section(opts, relPath(files[i]), contents[files[i]]), SectionsLength(files[..i], contents, opts));
  }

  /** With every file readable the output is complete: it opens with the
      banner, the start marker and a blank line (whatever the author), ends
      with the end marker, and is 4 + `SectionsLength` lines long. */
  lemma {:induction false} BundleLayout(files: seq<string>, contents: map<string, seq<string>>,
                     relPath: string -> string, opts: Options)
    requires forall f | f in files :: f in contents
    ensures BundleOutput(files, contents, relPath, opts).Complete?
    ensures var out := BundleOutput(files, contents, relPath, opts).lines;
      && |out| == 4 + SectionsLength(files, contents, opts)
      && out[..3] == ["// Author: " + opts.author, "// Bundled Code Starts Here", ""]
      && out[|out| - 1] == "// Bundled Code Ends Here"
  {
    SectionsComplete(files, contents, relPath, opts);
  }

  /** With every file readable, file `i`'s section (note, kept lines, blank
      separator) follows the banner and the sections of the files before it. */
  lemma BundleSectionAt(files: seq<string>, contents: map<string, seq<string>>,
                        relPath: string -> string, opts: Options, i: nat)
    requires forall f | f in files :: f in contents
    requires i < |files|
    ensures BundleOutput(files, contents, relPath, opts).Complete?
    ensures var out := BundleOutput(files, contents, relPath, opts).lines;
            var at := 3 + SectionsLength(files[..i], contents, opts);
            var s := Section(opts, relPath(files[i]), contents[files[i]]);
            at + |s| <= |out| - 1 && out[at..at + |s|] == s
  {
    SectionAt(files, contents, relPath, opts, i);
    BundleOutputComplete(files, contents, relPath, opts);
    PlaceInOutput(Header(opts.author), Sections(files, contents, relPath, opts).lines,
                  Section(opts, relPath(files[i]), contents[files[i]]), SectionsLength(files[..i], contents, opts));
  }

  /** A run of lines at `at` in the sections sits at `3 + at` in the output. */
  lemma PlaceInOutput(h: seq<string>, body: seq<string>, s: seq<string>, at: nat)
    requires |h| == 3 && at + |s| <= |body| && body[at..at + |s|] == s
    ensures 3 + at + |s| <= |h + body + [EndMarker]| - 1
    ensures (h + body + [EndMarker])[3 + at..3 + at + |s|] == s
  {
    SliceOfMiddle(h, body, [EndMarker], 3, at, at + |s|);
  }

  lemma BundleOutputComplete(files: seq<string>, contents: map<string, seq<string>>,
                             relPath: string -> string, opts: Options)
    requires Sections(files, contents, relPath, opts).Complete?
    ensures BundleOutput(files, contents, relPath, opts)
         == Complete(Header(opts.author) + Sections(files, contents, relPath, opts).lines + [EndMarker])
  {
  }

  lemma SliceOfMiddle(a: seq<string>, b: seq<string>, c: seq<string>, n: nat, lo: nat, hi: nat)
    requires |a| == n && lo <= hi <= |b|
    ensures (a + b + c)[n + lo..n + hi] == b[lo..hi]
  {
    assert (a + b + c)[|a|..|a| + |b|] == b;
  }

  /** A file that cannot be read aborts the bundle. The output then holds
      exactly the banner, the sections of the readable files before it and,
      with notes on, its own note line; there is no end marker. */
  lemma {:induction false} AbortedPrefix(files: seq<string>, contents: map<string, seq<string>>,
                                         relPath: string -> string, opts: Options)
    requires exists f | f in files :: f !in contents
    ensures BundleOutput(files, contents, relPath, opts).Aborted?
    ensures var o := BundleOutput(files, contents, relPath, opts);
      exists i | 0 <= i < |files| ::
        && files[i] == o.unreadable && files[i] !in contents
        && (forall j | 0 <= j < i :: files[j] in contents)
        && Sections(files[..i], contents, relPath, opts).Complete?
        && o.lines == Header(opts.author) + Sections(files[..i], contents, relPath, opts).lines
                      + NoteLines(opts, relPath(files[i]))
  {
    var i :| 0 <= i < |files| && files[i] !in contents && forall j | 0 <= j < i :: files[j] in contents by {
      var k := FirstUnreadable(files, contents);
      assert files[k] !in contents;
    }
    AbortedAt(files, contents, relPath, opts, i);
  }

  function FirstUnreadable(files: seq<string>, contents: map<string, seq<string>>): (k: nat)
    requires exists f | f in files :: f !in contents
    ensures k < |files| && files[k] !in contents
    ensures forall j | 0 <= j < k :: files[j] in contents
  {
    if files[0] !in contents then 0
    else
      assert exists f | f in files[1..] :: f !in contents by {
        var f :| f in files && f !in contents;
        var j :| 0 <= j < |files| && files[j] == f;
        assert files[1..][j - 1] == f;
      }
      1 + FirstUnreadable(files[1..], contents)
  }

  /** The sections stop at the first unreadable file, after its note line. */
  lemma {:induction false} SectionsAbortAt(files: seq<string>, contents: map<string, seq<string>>,
                                           relPath: string -> string, opts: Options, i: nat)
    requires i < |files| && files[i] !in contents
    requires forall j | 0 <= j < i :: files[j] in contents
    ensures Sections(files[..i], contents, relPath, opts).Complete?
    ensures Sections(files, contents, relPath, opts)
         == Aborted(Sections(files[..i], contents, relPath, opts).lines + NoteLines(opts, relPath(files[i])), files[i])
  {
    if i == 0 {
      assert files[..0] == [];
    } else {
      SectionsAbortAt(files[1..], contents, relPath, opts, i - 1);
      assert files[..i][1..] == files[1..][..i - 1];
      assert files[..i][0] == files[0];
      var s0 := Section(opts, relPath(files[0]), contents[files[0]]);
      assert Sections(files, contents, relPath, opts) == Prepend(s0, Sections(files[1..], contents, relPath, opts));
      assert Sections(files[..i], contents, relPath, opts)
          == Prepend(s0, Sections(files[1..][..i - 1], contents, relPath, opts));
    }
  }

  lemma AbortedAt(files: seq<string>, contents: map<string, seq<string>>,
                  relPath: string -> string, opts: Options, i: nat)
    requires i < |files| && files[i] !in contents
    requires forall j | 0 <= j < i :: files[j] in contents
    ensures Sections(files[..i], contents, relPath, opts).Complete?
    ensures BundleOutput(files, contents, relPath, opts)
         == Aborted(Header(opts.author) + Sections(files[..i], contents, relPath, opts).lines
                    + NoteLines(opts, relPath(files[i])), files[i])
  {
    SectionsAbortAt(files, contents, relPath, opts, i);
  }
}
