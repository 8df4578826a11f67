/** All, Any and Contains: the sequential quantifiers, each a loop that returns early. */
module Quantifiers {
  import opened Options
  import opened Definition
  import opened Seqs

  predicate Every<T>(s: seq<T>, p: T -> bool) {
    forall i :: 0 <= i < |s| ==> p(s[i])
  }

  predicate Exists<T>(s: seq<T>, p: T -> bool) {
    exists i :: 0 <= i < |s| && p(s[i])
  }

  function Not<T>(p: T -> bool): T -> bool {
    x => !p(x)
  }

  /**
   * All(p) returns false at the first value that fails p and true when every
   * value passes. `inspected` is how many values the loop read: it stops right
   * after the first failure.
   */
  method All<T>(s: seq<T>, p: T -> bool) returns (b: bool, ghost inspected: nat)
    ensures b <==> Every(s, p)
    ensures inspected == if FirstIndex(s, Not(p)) < |s| then FirstIndex(s, Not(p)) + 1 else |s|
  {
    ghost var f := FirstIndex(s, Not(p));
    for i := 0 to |s|
      invariant i <= f
    {
      if !p(s[i]) {
        return false, i + 1;
      }
      assert Not(p)(s[i]) == !p(s[i]);
    }
    return true, |s|;
  }

  /** Any(p) returns true at the first value that passes p and false when none does. */
  method Any<T>(s: seq<T>, p: T -> bool) returns (b: bool)
    ensures b <==> Exists(s, p)
  {
    for i := 0 to |s|
      invariant forall j :: 0 <= j < i ==> !p(s[j])
    {
      if p(s[i]) {
        return true;
      }
    }
    return false;
  }

  /** All holds on an empty sequence and Any does not; All(p) is the negation of Any(not p). */
  lemma {:induction false} AllIsNotAnyNot<T>(s: seq<T>, p: T -> bool)
    ensures Every([], p) && !Exists([], p)
    ensures Every(s, p) <==> !Exists(s, Not(p))
  {
    if !Every(s, p) {
      var i :| 0 <= i < |s| && !p(s[i]);
      assert Not(p)(s[i]);
    }
  }

  /** The test Contains applies to each value v: `v == value`, or the first comparer on (v, value). */
  function ContainsMatch<T(==)>(value: T, comparer: seq<Option<(T, T) -> bool>>): T -> bool {
    match Chosen(comparer)
    case None => v => v == value
    case Some(c) => v => c(v, value)
  }

  /** Contains(value, comparer...) is true exactly when some value matches. */
  method Contains<T(==)>(s: seq<T>, value: T, comparer: seq<Option<(T, T) -> bool>>) returns (b: bool)
    ensures b <==> Exists(s, ContainsMatch(value, comparer))
    ensures IsEmptyOrNil(comparer) ==> (b <==> value in s)
  {
    ghost var m := ContainsMatch(value, comparer);
    for i := 0 to |s|
      invariant forall j :: 0 <= j < i ==> !m(s[j])
    {
      var v := s[i];
      if IsEmptyOrNil(comparer) {
        if v == value {
          return true;
        }
      } else {
        if comparer[0].value(v, value) {
          return true;
        }
      }
      assert !m(v);
    }
    return false;
  }
}
