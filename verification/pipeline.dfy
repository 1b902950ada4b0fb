/**
 The `bundle` handler end to end: select the files, order them, write the
 output lines.
 */
module Pipeline {
  import opened Paths
  import opened Selection
  import opened Ordering
  import opened Bundle

  /** The output of `bundle` for the enumerated paths `enumerated`, the
      language tags, the sort option, the files' contents and relative
      paths, and the remaining options. */
  function RunBundle(p: Platform, enumerated: seq<string>, languages: seq<string>, sort: string,
                     contents: map<string, seq<string>>, relPath: string -> string,
                     opts: Options): Outcome
  {
    BundleOutput(SortFiles(p, SelectFiles(p, enumerated, languages), sort), contents, relPath, opts)
  }

  /** The files that get a section, in order. */
  function Bundled(p: Platform, enumerated: seq<string>, languages: seq<string>, sort: string): (r: seq<string>)
    ensures forall f :: f in r <==> f in SelectFiles(p, enumerated, languages)
    ensures forall f | f in r :: !IsExcluded(p, f)
  {
    var r := SortFiles(p, SelectFiles(p, enumerated, languages), sort);
    assert forall f :: f in r <==> f in multiset(r);
    r
  }

  /** When every selected file can be read, the bundle is complete: banner,
      one section per selected file in sort order, end marker. */
  lemma RunBundleComplete(p: Platform, enumerated: seq<string>, languages: seq<string>, sort: string,
                          contents: map<string, seq<string>>, relPath: string -> string,
                          opts: Options)
    requires forall f | f in SelectFiles(p, enumerated, languages) :: f in contents
    ensures forall f | f in Bundled(p, enumerated, languages, sort) :: f in contents
    ensures RunBundle(p, enumerated, languages, sort, contents, relPath, opts)
         == BundleOutput(Bundled(p, enumerated, languages, sort), contents, relPath, opts)
    ensures RunBundle(p, enumerated, languages, sort, contents, relPath, opts).Complete?
    ensures |RunBundle(p, enumerated, languages, sort, contents, relPath, opts).lines|
         == 4 + SectionsLength(Bundled(p, enumerated, languages, sort), contents, opts)
  {
    var files := Bundled(p, enumerated, languages, sort);
    assert forall f | f in files :: f in contents;
    BundleLayout(files, contents, relPath, opts);
  }
}
