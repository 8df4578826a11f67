/** Positions and projections shared by the position-based operators. */
module Seqs {

  /** `n` clamped into 0..len: how a count outside the sequence is treated. */
  function Clamp(n: int, len: nat): (r: nat)
    ensures r <= len
    ensures 0 <= n <= len ==> r == n
    ensures n < 0 ==> r == 0
    ensures n > len ==> r == len
  {
    if n < 0 then 0 else if n > len then len else n
  }

  /** The index of the first element satisfying `m`, or |s| when there is none. */
  function FirstIndex<T>(s: seq<T>, m: T -> bool): (k: nat)
    ensures k <= |s|
    ensures forall j :: 0 <= j < k ==> !m(s[j])
    ensures k < |s| ==> m(s[k])
  {
    if s == [] then 0
    else if m(s[0]) then 0
    else 1 + FirstIndex(s[1..], m)
  }

  /** The index of the last element satisfying `m`, or -1 when there is none. */
  function LastIndex<T>(s: seq<T>, m: T -> bool): (k: int)
    ensures -1 <= k < |s|
    ensures forall j :: k < j < |s| ==> !m(s[j])
    ensures k >= 0 ==> m(s[k])
  {
    if s == [] then -1
    else if m(s[|s| - 1]) then |s| - 1
    else LastIndex(s[..|s| - 1], m)
  }

  /** `f` applied to every element, in order. */
  function MapSeq<T, R>(s: seq<T>, f: T -> R): (r: seq<R>)
    ensures |r| == |s|
    ensures forall i :: 0 <= i < |s| ==> r[i] == f(s[i])
  {
    if s == [] then [] else [f(s[0])] + MapSeq(s[1..], f)
  }

  lemma MapSeqConcat<T, R>(a: seq<T>, b: seq<T>, f: T -> R)
    ensures MapSeq(a + b, f) == MapSeq(a, f) + MapSeq(b, f)
  {
  }
}
