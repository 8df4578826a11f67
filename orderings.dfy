/**
 * Properties of a comparer restricted to the elements of a sequence: the
 * library's comparers are user callbacks, and what an operator promises
 * depends on which of these the callback has on the data it sees.
 */
module Orderings {
  import opened Definition

  ghost predicate IrreflexiveOn<T>(c: (T, T) -> bool, s: seq<T>) {
    forall x | x in s :: !c(x, x)
  }

  ghost predicate AsymmetricOn<T>(c: (T, T) -> bool, s: seq<T>) {
    forall x, y | x in s && y in s :: c(x, y) ==> !c(y, x)
  }

  ghost predicate TransitiveOn<T>(c: (T, T) -> bool, s: seq<T>) {
    forall x, y, z | x in s && y in s && z in s :: c(x, y) && c(y, z) ==> c(x, z)
  }

  /** Elements neither of which is below the other behave alike. */
  ghost predicate NegativelyTransitiveOn<T>(c: (T, T) -> bool, s: seq<T>) {
    forall x, y, z | x in s && y in s && z in s :: !c(x, y) && !c(y, z) ==> !c(x, z)
  }

  /** A strict weak order: what `sort.Sort` and a "less" comparer are meant to be. */
  ghost predicate StrictWeakOrderOn<T>(c: (T, T) -> bool, s: seq<T>) {
    IrreflexiveOn(c, s) && TransitiveOn(c, s) && NegativelyTransitiveOn(c, s)
  }

  lemma StrictWeakOrderIsAsymmetric<T>(c: (T, T) -> bool, s: seq<T>)
    requires StrictWeakOrderOn(c, s)
    ensures AsymmetricOn(c, s)
  {
  }

  /** All elements share one primitive class, as the elements of one Go type do. */
  ghost predicate OneClass(s: seq<Value>) {
    forall x, y | x in s && y in s :: ClassOf(x) == ClassOf(y) && ClassOf(x) != NonPrimitive
  }

  /** On values of one primitive class the default "less" comparer is a strict weak order. */
  lemma DefaultLessIsStrictWeakOrder(s: seq<Value>)
    requires OneClass(s)
    ensures StrictWeakOrderOn(DefaultLessComparer, s)
  {
    forall x, y, z | x in s && y in s && z in s
      ensures !DefaultLessComparer(x, x)
      ensures DefaultLessComparer(x, y) && DefaultLessComparer(y, z) ==> DefaultLessComparer(x, z)
      ensures !DefaultLessComparer(x, y) && !DefaultLessComparer(y, z) ==> !DefaultLessComparer(x, z)
    {
      DefaultLessStrictOrder(x, y, z);
    }
  }

  /** On values of one primitive class the default "more" comparer is a strict weak order too. */
  lemma DefaultMoreIsStrictWeakOrder(s: seq<Value>)
    requires OneClass(s)
    ensures StrictWeakOrderOn(DefaultMoreComparer, s)
  {
    forall x, y, z | x in s && y in s && z in s
      ensures !DefaultMoreComparer(x, x)
      ensures DefaultMoreComparer(x, y) && DefaultMoreComparer(y, z) ==> DefaultMoreComparer(x, z)
      ensures !DefaultMoreComparer(x, y) && !DefaultMoreComparer(y, z) ==> !DefaultMoreComparer(x, z)
    {
      DefaultLessStrictOrder(x, y, z);
      DefaultLessStrictOrder(z, y, x);
      MoreIsSwappedLess(x, x);
      MoreIsSwappedLess(x, y);
      MoreIsSwappedLess(y, z);
      MoreIsSwappedLess(x, z);
    }
  }
}
