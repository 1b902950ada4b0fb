/**
 Concrete examples of the model on small inputs: the tag table, sorting by
 type, blank-line removal, and two small bundles.
 */
module Scenarios {
  import opened Seqs
  import opened Text
  import opened Paths
  import opened Selection
  import opened Ordering
  import opened Bundle
  import opened Pipeline

  /** "word" maps to ".docs"; a tag the table does not know asks for its
      own lower-cased name as the extension. */
  lemma TagTableOddOnes()
    ensures TagExtension("HTML") == ".html"
    ensures TagExtension("Word") == ".docs"
    ensures TagExtension("Rust") == ".rust"
  {
    assert ToLower("HTML") == "html";
    assert ToLower("Word") == "word";
    assert ToLower("Rust") == "rust";
    assert "rust" !in KnownTags;
  }

  /** The whole tag table, for every spelling of each tag: lower-casing
      first means "CSHARP", "CSharp" and "csharp" all ask for ".cs". */
  lemma TagTableAnySpelling(t: string)
    ensures ToLower(t) == "csharp" ==> TagExtension(t) == ".cs"
    ensures ToLower(t) == "python" ==> TagExtension(t) == ".py"
    ensures ToLower(t) == "javascript" ==> TagExtension(t) == ".js"
    ensures ToLower(t) == "java" ==> TagExtension(t) == ".java"
    ensures ToLower(t) == "cpp" ==> TagExtension(t) == ".cpp"
    ensures ToLower(t) == "html" ==> TagExtension(t) == ".html"
    ensures ToLower(t) == "txt" ==> TagExtension(t) == ".txt"
    ensures ToLower(t) == "word" ==> TagExtension(t) == ".docs"
  {
  }

  /** The tags "csharp" and "txt" do not ask for everything, and ask for
      ".cs" and ".txt". */
  lemma CSharpAndTextRequest()
    ensures !WantsAll(["csharp", "txt"])
    ensures RequestedExtensions(["csharp", "txt"]) == [".cs", ".txt"]
  {
    var tags := ["csharp", "txt"];
    assert ToLower("all") == "all";
    assert ToLower("csharp") == "csharp" && ToLower("txt") == "txt";
    forall t | t in tags
      ensures !EqualsIgnoreCase(t, "all")
    {
      assert t == "csharp" || t == "txt";
    }
  }

  /** With the tags "csharp" and "txt", only ".cs" and ".txt" files (in any
      letter case) are selected. */
  lemma CSharpAndTextOnly(p: Platform, files: seq<string>, f: string)
    requires f in SelectFiles(p, files, ["csharp", "txt"])
    ensures ToLower(GetExtension(p, f)) in {".cs", ".txt"}
  {
    CSharpAndTextRequest();
  }

  lemma ExampleExtensions()
    ensures GetExtension(Unix, "a.cs") == ".cs"
    ensures GetExtension(Unix, "c.cs") == ".cs"
    ensures GetExtension(Unix, "b.txt") == ".txt"
  {
    assert IsExtensionOf(Unix, ".cs", "a.cs");
    assert IsExtensionOf(Unix, ".cs", "c.cs");
    assert IsExtensionOf(Unix, ".txt", "b.txt");
    GetExtensionFinds(Unix, "a.cs", ".cs");
    GetExtensionFinds(Unix, "c.cs", ".cs");
    GetExtensionFinds(Unix, "b.txt", ".txt");
  }

  lemma ExampleTail()
    ensures SortBy(Unix, ByExtension, ["b.txt", "c.cs"]) == ["c.cs", "b.txt"]
  {
    ExampleExtensions();
    assert !LexLe(".txt", ".cs");
    assert ["b.txt", "c.cs"][1..] == ["c.cs"];
    assert SortBy(Unix, ByExtension, ["c.cs"]) == ["c.cs"];
  }

  lemma ExampleHead()
    ensures Insert(Unix, ByExtension, "a.cs", ["c.cs", "b.txt"]) == ["a.cs", "c.cs", "b.txt"]
  {
    ExampleExtensions();
    LexLeReflexive(".cs");
  }

  lemma TypeOption()
    ensures ParseSortMode("type") == ByExtension
  {
    assert ToLower("type") == "type";
  }

  /** Sorting by type keeps "a.cs" before "c.cs", and both before "b.txt". */
  lemma SortByTypeExample()
    ensures SortFiles(Unix, ["a.cs", "b.txt", "c.cs"], "type") == ["a.cs", "c.cs", "b.txt"]
  {
    TypeOption();
    ExampleTail();
    ExampleHead();
    var s := ["a.cs", "b.txt", "c.cs"];
    assert s[1..] == ["b.txt", "c.cs"];
    assert SortBy(Unix, ByExtension, s) == Insert(Unix, ByExtension, "a.cs", ["c.cs", "b.txt"]);
  }

  lemma ExampleLineKinds()
    ensures HasText("a") && HasText("b")
    ensures !HasText("") && !HasText("  ")
  {
    assert !IsWhiteSpace("a"[0]) && !IsWhiteSpace("b"[0]);
  }

  lemma ExampleFilterTail()
    ensures Filter(["", "  ", "b"], HasText) == ["b"]
  {
    ExampleLineKinds();
    assert ["", "  ", "b"][1..] == ["  ", "b"];
    assert ["  ", "b"][1..] == ["b"];
    assert Filter(["b"], HasText) == ["b"];
  }

  /** Blank and whitespace-only lines are dropped, the others kept in order. */
  lemma RemoveEmptyLinesExample()
    ensures SectionBody(["a", "", "  ", "b"], true) == ["a", "b"]
  {
    ExampleLineKinds();
    ExampleFilterTail();
    assert ["a", "", "  ", "b"][1..] == ["", "  ", "b"];
  }

  /** One readable file, noted, with blank lines removed. */
  lemma OneFileBundle(relPath: string -> string)
    requires relPath("/r/x.cs") == "x.cs"
    ensures BundleOutput(["/r/x.cs"], map["/r/x.cs" := ["int x;", " "]], relPath, Options(true, true, "Ada"))
         == Complete(["// Author: Ada", "// Bundled Code Starts Here", "",
                      "// File: x.cs", "int x;", "",
                      "// Bundled Code Ends Here"])
  {
    assert HasText("int x;") by {
      assert !IsWhiteSpace("int x;"[0]);
    }
    assert !HasText(" ");
    assert [" "][1..] == [];
    assert SectionBody(["int x;", " "], true) == ["int x;"] by {
      assert ["int x;", " "][1..] == [" "];
    }
    assert ["/r/x.cs"][1..] == [];
    var opts := Options(true, true, "Ada");
    var contents := map["/r/x.cs" := ["int x;", " "]];
    assert NotePrefix + "x.cs" == "// File: x.cs";
    assert AuthorPrefix + "Ada" == "// Author: Ada";
    assert NoteLines(opts, "x.cs") == ["// File: x.cs"];
    assert Section(opts, "x.cs", ["int x;", " "]) == ["// File: x.cs", "int x;", ""];
    assert Sections(["/r/x.cs"], contents, relPath, opts) == Complete(["// File: x.cs", "int x;", ""]);
    assert Header("Ada") == ["// Author: Ada", "// Bundled Code Starts Here", ""];
  }

  /** A file that cannot be read stops the bundle after its note line; the
      end marker is never written. */
  lemma UnreadableFileBundle(relPath: string -> string)
    requires relPath("/r/x.cs") == "x.cs"
    ensures BundleOutput(["/r/x.cs", "/r/y.cs"], map["/r/y.cs" := ["y"]], relPath, Options(true, false, "Ada"))
         == Aborted(["// Author: Ada", "// Bundled Code Starts Here", "", "// File: x.cs"], "/r/x.cs")
  {
    assert "/r/x.cs" != "/r/y.cs";
    var opts := Options(true, false, "Ada");
    var contents := map["/r/y.cs" := ["y"]];
    assert NotePrefix + "x.cs" == "// File: x.cs";
    assert AuthorPrefix + "Ada" == "// Author: Ada";
    assert NoteLines(opts, "x.cs") == ["// File: x.cs"];
    assert Sections(["/r/x.cs", "/r/y.cs"], contents, relPath, opts) == Aborted(["// File: x.cs"], "/r/x.cs");
    assert Header("Ada") == ["// Author: Ada", "// Bundled Code Starts Here", ""];
  }
}
