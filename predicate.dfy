/** Predicate[T] and its two combinators. */
module Predicates {

  /** p.And(right) holds exactly where both hold. */
  function And<T(!new)>(p: T -> bool, right: T -> bool): (r: T -> bool)
    ensures forall t :: r(t) == (p(t) && right(t))
  {
    t => p(t) && right(t)
  }

  /** p.Or(right) holds exactly where either holds. */
  function Or<T(!new)>(p: T -> bool, right: T -> bool): (r: T -> bool)
    ensures forall t :: r(t) == (p(t) || right(t))
  {
    t => p(t) || right(t)
  }

  /** (v > 2).And(v < 10) holds at 5 and not at 2; (v > 2).Or(v < 10) holds at both. */
  lemma CombinatorExamples()
    ensures And((v: int) => v > 2, (v: int) => v < 10)(5)
    ensures !And((v: int) => v > 2, (v: int) => v < 10)(2)
    ensures Or((v: int) => v > 2, (v: int) => v < 10)(5)
    ensures Or((v: int) => v > 2, (v: int) => v < 10)(2)
  {
  }
}
