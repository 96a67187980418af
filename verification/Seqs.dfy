/** Sequence operations shared by several modules. */
module Seqs {

  /** `s` without its element in position `i`. */
  function Cut<T>(s: seq<T>, i: nat): (r: seq<T>)
    requires i < |s|
    ensures |r| == |s| - 1
    ensures forall j :: 0 <= j < |r| ==> r[j] == s[if j < i then j else j + 1]
  {
    s[..i] + s[i + 1..]
  }

  /** `s` with its element in position `i` moved to the front. */
  function ToFront<T>(s: seq<T>, i: nat): (r: seq<T>)
    requires i < |s|
    ensures |r| == |s|
    ensures forall j :: 0 <= j < |r| ==> r[j] == s[if j == 0 then i else if j <= i then j - 1 else j]
  {
    [s[i]] + Cut(s, i)
  }

  /** `s` with `x` in position `p`. */
  function Inserted<T>(s: seq<T>, p: nat, x: T): (r: seq<T>)
    requires p <= |s|
    ensures |r| == |s| + 1
    ensures forall i :: 0 <= i < |r| ==> r[i] == if i < p then s[i] else if i == p then x else s[i - 1]
  {
    s[..p] + [x] + s[p..]
  }

  lemma CutFirst<T>(s: seq<T>)
    requires s != []
    ensures s == [s[0]] + Cut(s, 0)
  {
  }

  lemma CutLast<T>(s: seq<T>)
    requires s != []
    ensures Cut(s, |s| - 1) == s[..|s| - 1]
  {
  }

  lemma CutUpdated<T>(s: seq<T>, i: nat, x: T)
    requires i < |s|
    ensures Cut(s[i := x], i) == Cut(s, i)
  {
  }
}
