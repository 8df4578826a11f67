/** ToSlice, ToMap and SliceTToAny: leaving the Enumerable world. */
module Converters {
  import opened Definition
  import opened Seqs
  import opened Sets

  /** ToSlice appends every value to an empty slice: the values in iteration order, [] for none. */
  method ToSlice<T>(s: seq<T>) returns (res: seq<T>)
    ensures res == s
  {
    res := [];
    for i := 0 to |s|
      invariant res == s[..i]
    {
      res := res + [s[i]];
    }
  }

  /** The map ToMap builds: each value sets keySelector(value) to elementSelector(value), later ones overwriting. */
  function Mapped<T>(s: seq<T>, keySelector: T -> Value, elementSelector: T -> Value): map<Value, Value>
    decreases |s|
  {
    if s == [] then map[]
    else Mapped(s[..|s| - 1], keySelector, elementSelector)[keySelector(s[|s| - 1]) := elementSelector(s[|s| - 1])]
  }

  /** ToMap(keySelector, elementSelector): one assignment per value, in order. */
  method ToMap<T>(s: seq<T>, keySelector: T -> Value, elementSelector: T -> Value) returns (res: map<Value, Value>)
    ensures res == Mapped(s, keySelector, elementSelector)
  {
    res := map[];
    for i := 0 to |s|
      invariant res == Mapped(s[..i], keySelector, elementSelector)
    {
      assert s[..i + 1][..i] == s[..i];
      res := res[keySelector(s[i]) := elementSelector(s[i])];
    }
    assert s[..|s|] == s;
  }

  function KeyIs<T>(keySelector: T -> Value, k: Value): T -> bool {
    x => keySelector(x) == k
  }

  /**
   * The keys of ToMap's result are the selected keys, so its size is their
   * number; each key holds the element of the last value with that key.
   */
  lemma {:induction false} MappedContents<T>(s: seq<T>, keySelector: T -> Value, elementSelector: T -> Value, k: Value)
    ensures Mapped(s, keySelector, elementSelector).Keys == KeySet(s, keySelector)
    ensures |Mapped(s, keySelector, elementSelector)| == |KeySet(s, keySelector)|
    ensures k in Mapped(s, keySelector, elementSelector) ==>
      LastIndex(s, KeyIs(keySelector, k)) >= 0 &&
      Mapped(s, keySelector, elementSelector)[k] == elementSelector(s[LastIndex(s, KeyIs(keySelector, k))])
    decreases |s|
  {
    if s != [] {
      var init := s[..|s| - 1];
      var x := s[|s| - 1];
      MappedContents(init, keySelector, elementSelector, k);
      assert s == init + [x];
      KeySetConcat(init, [x], keySelector);
      assert KeySet([x], keySelector) == {keySelector(x)} by {
        assert [x][1..] == [];
      }
      if keySelector(x) != k {
        assert !KeyIs(keySelector, k)(x);
        assert LastIndex(s, KeyIs(keySelector, k)) == LastIndex(init, KeyIs(keySelector, k));
      }
    }
  }

  /** SliceTToAny: a slice of `any` of the same length, holding each value at its index. */
  method SliceTToAny<T>(source: seq<T>, toAny: T -> Value) returns (ins: array<Value>)
    ensures ins.Length == |source|
    ensures forall i :: 0 <= i < |source| ==> ins[i] == toAny(source[i])
  {
    ins := new Value[|source|];
    for i := 0 to |source|
      invariant forall k :: 0 <= k < i ==> ins[k] == toAny(source[k])
    {
      ins[i] := toAny(source[i]);
    }
  }
}
