/**
 `GetFilesToBundle` (Cli/Program.cs): from the recursively enumerated full
 paths under the working directory, drop those that run through an excluded
 directory, then keep either everything (a tag "all") or the files whose
 lower-cased extension one of the language tags names.
 */
module Selection {
  import opened Seqs
  import opened Text
  import opened Paths

  const ExcludedDirectories: seq<string> := ["bin", "obj", ".git", "node_modules"]

  /** The separator-delimited segment the exclusion test searches for. */
  function Segment(p: Platform, dir: string): string
  {
    [p.sep] + dir + [p.sep]
  }

  /** The path contains `sep + d + sep` for an excluded directory `d`. This is
      a substring test on the full path, ancestors of the working directory
      included. */
  predicate IsExcluded(p: Platform, path: string)
  {
    exists d | d in ExcludedDirectories :: Contains(path, Segment(p, d))
  }

  /** The fixed part of the tag-to-extension switch. */
  const KnownTags: map<string, string> := map[
    "csharp" := ".cs",
    "python" := ".py",
    "javascript" := ".js",
    "java" := ".java",
    "cpp" := ".cpp",
    "html" := ".html",
    "txt" := ".txt",
    "word" := ".docs"
  ]

  /** The extension a language tag asks for. The tag is lower-cased first; a
      tag the table does not know asks for "." followed by the tag. */
  function TagExtension(tag: string): (ext: string)
    ensures |ext| >= 2 || ext == "."
    ensures ext[0] == '.'
    ensures IsLower(ext)
    ensures ToLower(tag) in KnownTags ==> ext == KnownTags[ToLower(tag)]
    ensures ToLower(tag) !in KnownTags ==> ext[1..] == ToLower(tag)
  {
    var t := ToLower(tag);
    ToLowerIsLower(tag);
    if t in KnownTags then KnownTags[t] else "." + t
  }

  /** A tag spelled "all" in any letter case selects everything. */
  predicate WantsAll(tags: seq<string>)
  {
    exists t | t in tags :: EqualsIgnoreCase(t, "all")
  }

  function RequestedExtensions(tags: seq<string>): seq<string>
  {
    seq(|tags|, i requires 0 <= i < |tags| => TagExtension(tags[i]))
  }

  /** The file's lower-cased extension is one of `exts`. */
  predicate Wanted(p: Platform, exts: seq<string>, path: string)
  {
    ToLower(GetExtension(p, path)) in exts
  }

  /** `GetFilesToBundle` over an already-enumerated list of full paths. The
      result is a subsequence of `files` (enumeration order kept, nothing
      duplicated) holding every copy of each path that survives the
      exclusion and, unless "all" is asked for, the extension test. */
  function SelectFiles(p: Platform, files: seq<string>, tags: seq<string>): (r: seq<string>)
    ensures IsSubseq(r, files)
    ensures forall f :: f in r <==>
      f in files && !IsExcluded(p, f) && (WantsAll(tags) || Wanted(p, RequestedExtensions(tags), f))
    ensures forall f | f in r :: multiset(r)[f] == multiset(files)[f]
  {
    var notExcluded := f => !IsExcluded(p, f);
    var kept := Filter(files, notExcluded);
    FilterMembers(files, notExcluded);
    FilterCounts(files, notExcluded);
    FilterSubseq(files, notExcluded);
    if WantsAll(tags) then kept
    else
      var exts := RequestedExtensions(tags);
      var wanted := f => Wanted(p, exts, f);
      var r := Filter(kept, wanted);
      FilterMembers(kept, wanted);
      FilterCounts(kept, wanted);
      FilterSubseq(kept, wanted);
      SubseqTransitive(r, kept, files);
      r
  }

  /** With "all" among the tags, the other tags play no part. */
  lemma AllIgnoresOtherTags(p: Platform, files: seq<string>, tags: seq<string>)
    requires WantsAll(tags)
    ensures SelectFiles(p, files, tags) == SelectFiles(p, files, ["all"])
  {
    assert EqualsIgnoreCase("all", "all");
  }

  /** With "all", a tree that holds no excluded path is selected whole, in
      enumeration order (the handler sorts the selection afterwards). */
  lemma AllKeepsEverything(p: Platform, files: seq<string>, tags: seq<string>)
    requires WantsAll(tags)
    requires forall f | f in files :: !IsExcluded(p, f)
    ensures SelectFiles(p, files, tags) == files
  {
    FilterKeepsAll(files, f => !IsExcluded(p, f));
  }

  /** Without "all", a file without an extension is never selected: every
      requested extension starts with '.', so none equals "". */
  lemma NoExtensionNeverSelected(p: Platform, files: seq<string>, tags: seq<string>, f: string)
    requires !WantsAll(tags)
    requires GetExtension(p, f) == ""
    ensures f !in SelectFiles(p, files, tags)
  {
    assert ToLower("") == "";
  }

  lemma WantsAllCaseIrrelevant(tags: seq<string>, tags': seq<string>)
    requires |tags| == |tags'|
    requires forall i | 0 <= i < |tags| :: EqualsIgnoreCase(tags[i], tags'[i])
    ensures WantsAll(tags) ==> WantsAll(tags')
  {
    if WantsAll(tags) {
      var t :| t in tags && EqualsIgnoreCase(t, "all");
      var i :| 0 <= i < |tags| && tags[i] == t;
      assert tags'[i] in tags';
    }
  }

  /** Letter case in the tags does not matter. */
  lemma TagCaseIrrelevant(p: Platform, files: seq<string>, tags: seq<string>, tags': seq<string>)
    requires |tags| == |tags'|
    requires forall i | 0 <= i < |tags| :: EqualsIgnoreCase(tags[i], tags'[i])
    ensures SelectFiles(p, files, tags) == SelectFiles(p, files, tags')
  {
    assert RequestedExtensions(tags) == RequestedExtensions(tags');
    WantsAllCaseIrrelevant(tags, tags');
    WantsAllCaseIrrelevant(tags', tags);
  }

  /** Every enumerated path begins with the working directory `root` and a
      separator. When the working directory itself lies inside a directory
      named like an excluded one, every path contains the excluded segment
      and nothing is selected, whatever the tags. */
  lemma {:induction false} ExcludedRootSelectsNothing(p: Platform, root: string, files: seq<string>, tags: seq<string>)
    requires IsExcluded(p, root + [p.sep])
    requires forall f | f in files :: StartsWith(f, root + [p.sep])
    ensures SelectFiles(p, files, tags) == []
  {
    var prefix := root + [p.sep];
    var d :| d in ExcludedDirectories && Contains(prefix, Segment(p, d));
    forall f | f in files
      ensures IsExcluded(p, f)
    {
      assert f == prefix + f[|prefix|..];
      ContainsExtend(prefix, f[|prefix|..], Segment(p, d));
    }
    FilterKeepsNone(files, f => !IsExcluded(p, f));
  }
}
