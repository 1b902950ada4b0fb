/**
 `SortFiles` (Cli/Program.cs): LINQ `OrderBy`, a stable sort, keyed either
 by the file's extension (option "type" in any letter case) or by the whole
 path (any other option). Keys are compared ordinally.
 */
module Ordering {
  import opened Text
  import opened Paths

  datatype SortMode = ByName | ByExtension

  /** The option is lower-cased and compared with "type"; every other value,
      "name" included, falls back to sorting by name. */
  function ParseSortMode(option: string): (m: SortMode)
    ensures m == ByExtension <==> EqualsIgnoreCase(option, "type")
  {
    if ToLower(option) == "type" then ByExtension else ByName
  }

  /** The key `OrderBy` sorts on. */
  function Key(p: Platform, mode: SortMode, f: string): string
  {
    match mode
    case ByName => f
    case ByExtension => GetExtension(p, f)
  }

  /** Keys never decrease along `s`. */
  ghost predicate Sorted(p: Platform, mode: SortMode, s: seq<string>)
  {
    forall i, j | 0 <= i < j < |s| :: LexLe(Key(p, mode, s[i]), Key(p, mode, s[j]))
  }

  /** Every element of `s` has a key at least that of `x`. */
  ghost predicate KeyBelowAll(p: Platform, mode: SortMode, x: string, s: seq<string>)
  {
    forall y | y in s :: LexLe(Key(p, mode, x), Key(p, mode, y))
  }

  /** The elements of `s` whose key is `k`, in their order in `s`. */
  function KeyClass(p: Platform, mode: SortMode, s: seq<string>, k: string): seq<string>
  {
    if |s| == 0 then []
    else (if Key(p, mode, s[0]) == k then [s[0]] else []) + KeyClass(p, mode, s[1..], k)
  }

  /** `r` keeps the relative order of the elements of `s` that share a key
      (and holds no others): the meaning of a stable reordering. */
  ghost predicate StableFor(p: Platform, mode: SortMode, r: seq<string>, s: seq<string>)
  {
    forall k :: KeyClass(p, mode, r, k) == KeyClass(p, mode, s, k)
  }

  lemma ConsSorted(p: Platform, mode: SortMode, x: string, s: seq<string>)
    requires Sorted(p, mode, s) && KeyBelowAll(p, mode, x, s)
    ensures Sorted(p, mode, [x] + s)
  {
    var r := [x] + s;
    forall i, j | 0 <= i < j < |r|
      ensures LexLe(Key(p, mode, r[i]), Key(p, mode, r[j]))
    {
      if i > 0 {
        assert r[i] == s[i - 1] && r[j] == s[j - 1];
      } else {
        assert r[j] == s[j - 1] && r[j] in s;
      }
    }
  }

  lemma HeadBelowAll(p: Platform, mode: SortMode, x: string, s: seq<string>)
    requires Sorted(p, mode, s) && |s| > 0
    requires LexLe(Key(p, mode, x), Key(p, mode, s[0]))
    ensures KeyBelowAll(p, mode, x, s)
  {
    forall y | y in s
      ensures LexLe(Key(p, mode, x), Key(p, mode, y))
    {
      var j :| 0 <= j < |s| && s[j] == y;
      if j > 0 {
        LexLeTransitive(Key(p, mode, x), Key(p, mode, s[0]), Key(p, mode, y));
      }
    }
  }

  /** Places `x` in front of the first element whose key is not below its
      own; every element passed over has a strictly smaller key. */
  function Insert(p: Platform, mode: SortMode, x: string, s: seq<string>): (r: seq<string>)
    ensures multiset(r) == multiset(s) + multiset{x}
  {
    if |s| == 0 then [x]
    else if LexLe(Key(p, mode, x), Key(p, mode, s[0])) then [x] + s
    else
      assert s == [s[0]] + s[1..];
      [s[0]] + Insert(p, mode, x, s[1..])
  }

  /** Inserting into a sorted sequence keeps it sorted. */
  lemma {:induction false} InsertSorted(p: Platform, mode: SortMode, x: string, s: seq<string>)
    requires Sorted(p, mode, s)
    ensures Sorted(p, mode, Insert(p, mode, x, s))
  {
    if |s| == 0 {
    } else if LexLe(Key(p, mode, x), Key(p, mode, s[0])) {
      HeadBelowAll(p, mode, x, s);
      ConsSorted(p, mode, x, s);
    } else {
      SortedTail(p, mode, s);
      InsertSorted(p, mode, x, s[1..]);
      InsertSortedPassing(p, mode, x, s);
    }
  }

  /** The step of `InsertSorted` when `x` goes after the head. */
  lemma InsertSortedPassing(p: Platform, mode: SortMode, x: string, s: seq<string>)
    requires Sorted(p, mode, s) && |s| > 0
    requires !LexLe(Key(p, mode, x), Key(p, mode, s[0]))
    requires Sorted(p, mode, Insert(p, mode, x, s[1..]))
    ensures Sorted(p, mode, Insert(p, mode, x, s))
  {
    var rest := Insert(p, mode, x, s[1..]);
    assert Insert(p, mode, x, s) == [s[0]] + rest;
    PassedOverBelowAll(p, mode, x, s, rest);
    ConsSorted(p, mode, s[0], rest);
  }

  /** The element `Insert` passes over is below everything after it. */
  lemma PassedOverBelowAll(p: Platform, mode: SortMode, x: string, s: seq<string>, rest: seq<string>)
    requires Sorted(p, mode, s) && |s| > 0
    requires !LexLe(Key(p, mode, x), Key(p, mode, s[0]))
    requires multiset(rest) == multiset(s[1..]) + multiset{x}
    ensures KeyBelowAll(p, mode, s[0], rest)
  {
    LexLeTotal(Key(p, mode, x), Key(p, mode, s[0]));
    forall y | y in rest
      ensures LexLe(Key(p, mode, s[0]), Key(p, mode, y))
    {
      assert y in multiset(rest);
      if y != x {
        assert y in multiset(s[1..]);
        var j :| 0 <= j < |s[1..]| && s[1..][j] == y;
        assert y == s[j + 1];
      }
    }
  }

  lemma KeyClassCons(p: Platform, mode: SortMode, y: string, t: seq<string>, k: string)
    ensures KeyClass(p, mode, [y] + t, k) == (if Key(p, mode, y) == k then [y] else []) + KeyClass(p, mode, t, k)
  {
    assert ([y] + t)[1..] == t;
  }

  /** Inserting `x` adds it at the front of its own key class and leaves
      every other class alone. */
  lemma {:induction false} InsertKeyClass(p: Platform, mode: SortMode, x: string, s: seq<string>, k: string)
    ensures KeyClass(p, mode, Insert(p, mode, x, s), k) ==
            (if Key(p, mode, x) == k then [x] else []) + KeyClass(p, mode, s, k)
  {
    if |s| == 0 {
    } else if LexLe(Key(p, mode, x), Key(p, mode, s[0])) {
      KeyClassCons(p, mode, x, s, k);
    } else {
      LexLeReflexive(Key(p, mode, x));
      var rest := Insert(p, mode, x, s[1..]);
      var own := if Key(p, mode, x) == k then [x] else [];
      var head := if Key(p, mode, s[0]) == k then [s[0]] else [];
      var c := KeyClass(p, mode, s[1..], k);
      assert Insert(p, mode, x, s) == [s[0]] + rest;
      InsertKeyClass(p, mode, x, s[1..], k);
      KeyClassCons(p, mode, s[0], rest, k);
      KeyClassCons(p, mode, s[0], s[1..], k);
      assert [s[0]] + s[1..] == s;
      SwapDisjoint(head, own, c);
    }
  }

  lemma SwapDisjoint(a: seq<string>, b: seq<string>, c: seq<string>)
    requires a == [] || b == []
    ensures a + (b + c) == b + (a + c)
  {
  }

  /** Insertion sort, stable because each element goes in front of the
      already-sorted later elements that share its key. */
  function SortBy(p: Platform, mode: SortMode, s: seq<string>): (r: seq<string>)
    ensures Sorted(p, mode, r)
    ensures multiset(r) == multiset(s)
  {
    if |s| == 0 then []
    else
      assert s == [s[0]] + s[1..];
      InsertSorted(p, mode, s[0], SortBy(p, mode, s[1..]));
      Insert(p, mode, s[0], SortBy(p, mode, s[1..]))
  }

  lemma {:induction false} SortByStable(p: Platform, mode: SortMode, s: seq<string>)
    ensures StableFor(p, mode, SortBy(p, mode, s), s)
  {
    if |s| > 0 {
      SortByStable(p, mode, s[1..]);
      forall k
        ensures KeyClass(p, mode, SortBy(p, mode, s), k) == KeyClass(p, mode, s, k)
      {
        InsertKeyClass(p, mode, s[0], SortBy(p, mode, s[1..]), k);
      }
    }
  }

  /** `SortFiles`: a sorted, stable permutation of `files`. */
  function SortFiles(p: Platform, files: seq<string>, option: string): (r: seq<string>)
    ensures multiset(r) == multiset(files)
    ensures Sorted(p, ParseSortMode(option), r)
    ensures StableFor(p, ParseSortMode(option), r, files)
  {
    SortByStable(p, ParseSortMode(option), files);
    SortBy(p, ParseSortMode(option), files)
  }

  lemma KeyClassMembers(p: Platform, mode: SortMode, s: seq<string>, k: string, y: string)
    requires y in KeyClass(p, mode, s, k)
    ensures y in s && Key(p, mode, y) == k
  {
  }

  lemma KeyClassOfHead(p: Platform, mode: SortMode, s: seq<string>)
    requires |s| > 0
    ensures KeyClass(p, mode, s, Key(p, mode, s[0])) != []
  {
  }

  lemma SortedTail(p: Platform, mode: SortMode, s: seq<string>)
    requires Sorted(p, mode, s) && |s| > 0
    ensures Sorted(p, mode, s[1..])
  {
    forall i, j | 0 <= i < j < |s[1..]|
      ensures LexLe(Key(p, mode, s[1..][i]), Key(p, mode, s[1..][j]))
    {
      assert s[1..][i] == s[i + 1] && s[1..][j] == s[j + 1];
    }
  }

  /** The first element of a sorted sequence has the least key of all. */
  lemma HeadKeyLeast(p: Platform, mode: SortMode, s: seq<string>, y: string)
    requires Sorted(p, mode, s) && |s| > 0 && y in s
    ensures LexLe(Key(p, mode, s[0]), Key(p, mode, y))
  {
    var j :| 0 <= j < |s| && s[j] == y;
    if j == 0 {
      LexLeReflexive(Key(p, mode, y));
    }
  }

  /** The class of the head's key starts with the head. */
  lemma HeadOfClass(p: Platform, mode: SortMode, s: seq<string>)
    requires |s| > 0
    ensures |KeyClass(p, mode, s, Key(p, mode, s[0]))| > 0
    ensures KeyClass(p, mode, s, Key(p, mode, s[0]))[0] == s[0]
  {
    KeyClassCons(p, mode, s[0], s[1..], Key(p, mode, s[0]));
    assert [s[0]] + s[1..] == s;
  }

  /** Some element of `b` has the key of `a`'s head, so `b`'s head key is
      at most `a`'s. */
  lemma HeadKeyBelow(p: Platform, mode: SortMode, a: seq<string>, b: seq<string>)
    requires Sorted(p, mode, b) && |a| > 0 && |b| > 0
    requires KeyClass(p, mode, a, Key(p, mode, a[0])) == KeyClass(p, mode, b, Key(p, mode, a[0]))
    ensures LexLe(Key(p, mode, b[0]), Key(p, mode, a[0]))
  {
    var ka := Key(p, mode, a[0]);
    HeadOfClass(p, mode, a);
    var y := KeyClass(p, mode, b, ka)[0];
    KeyClassMembers(p, mode, b, ka, y);
    HeadKeyLeast(p, mode, b, y);
  }

  /** Sorted sequences with the same key classes start with the same
      element: both heads carry the least key, and each is the first of
      that key's class. */
  lemma SameHead(p: Platform, mode: SortMode, a: seq<string>, b: seq<string>)
    requires Sorted(p, mode, a) && Sorted(p, mode, b) && |a| > 0 && |b| > 0
    requires forall k :: KeyClass(p, mode, a, k) == KeyClass(p, mode, b, k)
    ensures a[0] == b[0]
  {
    var ka, kb := Key(p, mode, a[0]), Key(p, mode, b[0]);
    HeadKeyBelow(p, mode, a, b);
    HeadKeyBelow(p, mode, b, a);
    LexLeAntisymmetric(ka, kb);
    HeadOfClass(p, mode, a);
    HeadOfClass(p, mode, b);
    assert KeyClass(p, mode, a, ka) == KeyClass(p, mode, b, ka);
  }

  /** Removing the same head from both keeps the key classes equal. */
  lemma SameTailClasses(p: Platform, mode: SortMode, a: seq<string>, b: seq<string>)
    requires |a| > 0 && |b| > 0 && a[0] == b[0]
    requires forall k :: KeyClass(p, mode, a, k) == KeyClass(p, mode, b, k)
    ensures forall k :: KeyClass(p, mode, a[1..], k) == KeyClass(p, mode, b[1..], k)
  {
    assert [a[0]] + a[1..] == a && [b[0]] + b[1..] == b;
    forall k
      ensures KeyClass(p, mode, a[1..], k) == KeyClass(p, mode, b[1..], k)
    {
      KeyClassCons(p, mode, a[0], a[1..], k);
      KeyClassCons(p, mode, b[0], b[1..], k);
      var h := if Key(p, mode, a[0]) == k then [a[0]] else [];
      assert h + KeyClass(p, mode, a[1..], k) == h + KeyClass(p, mode, b[1..], k);
      assert (h + KeyClass(p, mode, a[1..], k))[|h|..] == KeyClass(p, mode, a[1..], k);
      assert (h + KeyClass(p, mode, b[1..], k))[|h|..] == KeyClass(p, mode, b[1..], k);
    }
  }

  /** Two sorted sequences in which every key class holds the same elements
      in the same order are equal: sortedness and stability fix the result. */
  lemma {:induction false} SortedStableUnique(p: Platform, mode: SortMode, a: seq<string>, b: seq<string>)
    requires Sorted(p, mode, a) && Sorted(p, mode, b)
    requires forall k :: KeyClass(p, mode, a, k) == KeyClass(p, mode, b, k)
    ensures a == b
    decreases |a|
  {
    if |a| == 0 && |b| > 0 {
      KeyClassOfHead(p, mode, b);
    } else if |b| == 0 && |a| > 0 {
      KeyClassOfHead(p, mode, a);
    } else if |a| > 0 {
      SameHead(p, mode, a, b);
      SameTailClasses(p, mode, a, b);
      SortedTail(p, mode, a);
      SortedTail(p, mode, b);
      SortedStableUnique(p, mode, a[1..], b[1..]);
      assert a == [a[0]] + a[1..] && b == [b[0]] + b[1..];
    }
  }

  /** `SortFiles` returns the one sequence that is sorted by the chosen key
      and keeps the input order among files sharing a key. */
  lemma SortFilesCharacterised(p: Platform, files: seq<string>, option: string, r: seq<string>)
    ensures r == SortFiles(p, files, option) <==>
      Sorted(p, ParseSortMode(option), r) && StableFor(p, ParseSortMode(option), r, files)
  {
    var mode := ParseSortMode(option);
    if Sorted(p, mode, r) && StableFor(p, mode, r, files) {
      SortedStableUnique(p, mode, r, SortFiles(p, files, option));
    }
  }

  /** Sorting an already sorted list changes nothing. */
  lemma SortFilesIdempotent(p: Platform, files: seq<string>, option: string)
    ensures SortFiles(p, SortFiles(p, files, option), option) == SortFiles(p, files, option)
  {
    var once := SortFiles(p, files, option);
    SortFilesCharacterised(p, once, option, once);
  }

  function Repeat(x: string, n: nat): (r: seq<string>)
    ensures |r| == n && forall i | 0 <= i < n :: r[i] == x
  {
    if n == 0 then [] else [x] + Repeat(x, n - 1)
  }

  lemma {:induction false} NameClassIsCopies(p: Platform, s: seq<string>, k: string)
    ensures KeyClass(p, ByName, s, k) == Repeat(k, multiset(s)[k])
  {
    if |s| > 0 {
      NameClassIsCopies(p, s[1..], k);
      assert s == [s[0]] + s[1..];
      if s[0] == k {
        assert Repeat(k, multiset(s)[k]) == [k] + Repeat(k, multiset(s[1..])[k]);
      }
    }
  }

  /** Sorting by name: the result is the one ordinally sorted permutation of
      the input. */
  lemma ByNameUnique(p: Platform, files: seq<string>, option: string, r: seq<string>)
    requires ParseSortMode(option) == ByName
    ensures r == SortFiles(p, files, option) <==>
      Sorted(p, ByName, r) && multiset(r) == multiset(files)
  {
    if Sorted(p, ByName, r) && multiset(r) == multiset(files) {
      forall k
        ensures KeyClass(p, ByName, r, k) == KeyClass(p, ByName, files, k)
      {
        NameClassIsCopies(p, r, k);
        NameClassIsCopies(p, files, k);
      }
      SortFilesCharacterised(p, files, option, r);
    }
  }
}
