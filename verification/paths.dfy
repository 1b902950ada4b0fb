/**
 The one piece of `System.IO.Path` the selection and ordering logic depends
 on: `Path.GetExtension`, parameterised by the platform's directory
 separators.
 */
module Paths {

  /** `Path.DirectorySeparatorChar` and `Path.AltDirectorySeparatorChar`. */
  datatype Platform = Platform(sep: char, altSep: char)

  const Unix := Platform('/', '/')

  predicate IsSeparator(p: Platform, c: char)
  {
    c == p.sep || c == p.altSep
  }

  /** `e` is the extension of `path`: a suffix that begins with '.', has at
      least one character after it, and holds no other '.' and no separator. */
  predicate IsExtensionOf(p: Platform, e: string, path: string)
  {
    && 2 <= |e| <= |path|
    && path[|path| - |e|..] == e
    && e[0] == '.'
    && forall i | 1 <= i < |e| :: e[i] != '.' && !IsSeparator(p, e[i])
  }

  /** The path has no extension at all. */
  predicate HasNoExtension(p: Platform, path: string)
  {
    forall k | 0 <= k <= |path| :: !IsExtensionOf(p, path[k..], path)
  }

  /** Scanning `path[..n]` backwards, the position of the first '.' met
      before any separator, or -1. */
  function LastDotBefore(p: Platform, path: string, n: nat): (i: int)
    requires n <= |path|
    ensures -1 <= i < n
    ensures i >= 0 ==> path[i] == '.'
    ensures i >= 0 ==> forall j | i < j < n :: path[j] != '.' && !IsSeparator(p, path[j])
  {
    if n == 0 then -1
    else if path[n - 1] == '.' then n - 1
    else if IsSeparator(p, path[n - 1]) then -1
    else LastDotBefore(p, path, n - 1)
  }

  /** `Path.GetExtension`: the text from the last '.' after the last
      separator, or "" when there is none or the path ends with '.'. */
  function GetExtension(p: Platform, path: string): (ext: string)
    ensures ext == "" || IsExtensionOf(p, ext, path)
  {
    var i := LastDotBefore(p, path, |path|);
    if i < 0 || i == |path| - 1 then "" else path[i..]
  }

  lemma {:induction false} LastDotFound(p: Platform, path: string, n: nat, k: nat)
    requires k < n <= |path|
    requires path[k] == '.'
    requires forall j | k < j < n :: path[j] != '.' && !IsSeparator(p, path[j])
    ensures LastDotBefore(p, path, n) == k
    decreases n
  {
    if n - 1 != k {
      LastDotFound(p, path, n - 1, k);
    }
  }

  /** An extension, when one exists, is what `GetExtension` returns. */
  lemma GetExtensionFinds(p: Platform, path: string, e: string)
    requires IsExtensionOf(p, e, path)
    ensures GetExtension(p, path) == e
  {
    var k := |path| - |e|;
    forall j | k < j < |path|
      ensures path[j] != '.' && !IsSeparator(p, path[j])
    {
      assert path[j] == e[j - k];
    }
    LastDotFound(p, path, |path|, k);
  }

  /** `GetExtension` returns the path's extension when it has one, and ""
      exactly when it has none. */
  lemma GetExtensionCharacterised(p: Platform, path: string, e: string)
    ensures GetExtension(p, path) == e <==>
      IsExtensionOf(p, e, path) || (e == "" && HasNoExtension(p, path))
  {
    if IsExtensionOf(p, e, path) {
      GetExtensionFinds(p, path, e);
    }
    if GetExtension(p, path) == "" && !HasNoExtension(p, path) {
      var k :| 0 <= k <= |path| && IsExtensionOf(p, path[k..], path);
      GetExtensionFinds(p, path, path[k..]);
    }
  }
}
