/** The error locations findings are prefixed with, and the splice that
    writes an element index into a path. */
module Paths {
  import opened Common

  /** The root path of a checker: the type's short name in brackets. */
  function RootPath(name: string): string
  {
    "[" + name + "]"
  }

  /** `TypeChecker.rootMerge(root, val, isUnion, isType)`: `root`, a '.',
      then `val`, bracketed when it names a type and braced inside a union. */
  function RootMerge(root: string, val: string, isUnion: bool, isType: bool): string
  {
    var hardVal := if isType then "[" + val + "]" else val;
    root + "." + (if isUnion then "{" + hardVal + "}" else hardVal)
  }

  /** A merged path extends `root + "."`, and its segment can be read back,
      so distinct values under one root give distinct paths. */
  lemma RootMergeReadBack(root: string, val: string, isUnion: bool, isType: bool)
    ensures root + "." <= RootMerge(root, val, isUnion, isType)
    ensures RootMergeSegment(RootMerge(root, val, isUnion, isType), |root|, isUnion, isType) == val
  {
  }

  lemma RootMergeInjective(root: string, a: string, b: string, isUnion: bool, isType: bool)
    ensures RootMerge(root, a, isUnion, isType) == RootMerge(root, b, isUnion, isType) <==> a == b
  {
    if RootMerge(root, a, isUnion, isType) == RootMerge(root, b, isUnion, isType) {
      RootMergeReadBack(root, a, isUnion, isType);
      RootMergeReadBack(root, b, isUnion, isType);
    }
  }

  /** Reads the segment back out of a path built by `RootMerge`. */
  function RootMergeSegment(path: string, rootLength: nat, isUnion: bool, isType: bool): string
  {
    var seg := if rootLength + 1 <= |path| then path[rootLength + 1..] else "";
    var inner := if isUnion && |seg| >= 2 then seg[1..|seg| - 1] else seg;
    if isType && |inner| >= 2 then inner[1..|inner| - 1] else inner
  }

  /** The first `n` characters of `s`, or all of `s` when it is shorter, as `slice` gives them. */
  function Take(s: string, n: nat): (r: string)
    ensures r <= s
  {
    if n <= |s| then s[..n] else s
  }

  /** What follows the first `n` characters of `s`: empty past the end, as `slice` gives it. */
  function Drop(s: string, n: nat): string
  {
    if n <= |s| then s[n..] else ""
  }

  /** The array checker's rewrite of an element finding: the element index
      is written after the first `|root| + 2` characters. */
  function InsertIndex(finding: string, root: string, index: nat): string
  {
    Take(finding, |root| + 2) + NatToString(index) + Drop(finding, |root| + 2)
  }

  /** The path of element `k` of an array checked at `root`: `root.[k]`. */
  function IndexPath(root: string, k: nat): string
  {
    RootMerge(root, "[" + NatToString(k) + "]", false, false)
  }

  /** A finding reported for path `root.[]` gets the index between the
      brackets: `root.[k]` followed by the rest of the finding. */
  lemma InsertIndexPath(finding: string, root: string, index: nat)
    requires RootMerge(root, "[]", false, false) <= finding
    ensures InsertIndex(finding, root, index)
            == IndexPath(root, index) + finding[|root| + 3..]
    ensures root <= InsertIndex(finding, root, index)
  {
    var p := RootMerge(root, "[]", false, false);
    assert p == root + ".[]";
    assert finding[..|root| + 2] == root + ".[";
    assert finding[|root| + 2..] == "]" + finding[|root| + 3..];
  }
}
