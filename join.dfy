/** Join: a nested-loop equi-join of two sequences on selected keys. */
module Joins {
  import opened Options
  import opened Definition
  import opened Seqs
  import opened Filter

  /** Whether two keys match: `==` without a comparer, the first comparer otherwise. */
  function KeysMatch(comparer: seq<Option<(Value, Value) -> bool>>, outerKey: Value, innerKey: Value): bool {
    match Chosen(comparer)
    case None => outerKey == innerKey
    case Some(c) => c(outerKey, innerKey)
  }

  /** The outputs one outer value contributes: resultSelector with each inner value whose key matches, in inner order. */
  function Row<T>(value: T, inner: seq<Value>, outerKeySelector: T -> Value, innerKeySelector: Value -> Value,
                  resultSelector: (T, Value) -> Value, comparer: seq<Option<(Value, Value) -> bool>>): seq<Value>
  {
    if inner == [] then []
    else
      (if KeysMatch(comparer, outerKeySelector(value), innerKeySelector(inner[0]))
       then [resultSelector(value, inner[0])] else [])
      + Row(value, inner[1..], outerKeySelector, innerKeySelector, resultSelector, comparer)
  }

  /** The whole join: the rows of the outer values, in outer order. */
  function Joined<T>(outer: seq<T>, inner: seq<Value>, outerKeySelector: T -> Value, innerKeySelector: Value -> Value,
                     resultSelector: (T, Value) -> Value, comparer: seq<Option<(Value, Value) -> bool>>): seq<Value>
  {
    if outer == [] then []
    else
      Row(outer[0], inner, outerKeySelector, innerKeySelector, resultSelector, comparer)
      + Joined(outer[1..], inner, outerKeySelector, innerKeySelector, resultSelector, comparer)
  }

  /** The inner values whose key matches the key of `value`. */
  function PartnerOf<T>(value: T, outerKeySelector: T -> Value, innerKeySelector: Value -> Value,
                        comparer: seq<Option<(Value, Value) -> bool>>): Value -> bool
  {
    i => KeysMatch(comparer, outerKeySelector(value), innerKeySelector(i))
  }

  /** A row is resultSelector applied to Where(keys match) over the inner values. */
  lemma {:induction false} RowIsSelectOfWhere<T>(value: T, inner: seq<Value>, outerKeySelector: T -> Value,
                                                 innerKeySelector: Value -> Value, resultSelector: (T, Value) -> Value,
                                                 comparer: seq<Option<(Value, Value) -> bool>>)
    ensures Row(value, inner, outerKeySelector, innerKeySelector, resultSelector, comparer)
      == MapSeq(Filtered(inner, PartnerOf(value, outerKeySelector, innerKeySelector, comparer)), i => resultSelector(value, i))
  {
    if inner != [] {
      RowIsSelectOfWhere(value, inner[1..], outerKeySelector, innerKeySelector, resultSelector, comparer);
      var p := PartnerOf(value, outerKeySelector, innerKeySelector, comparer);
      var f := i => resultSelector(value, i);
      var rest := Filtered(inner[1..], p);
      assert p(inner[0]) == KeysMatch(comparer, outerKeySelector(value), innerKeySelector(inner[0]));
      var row := Row(value, inner[1..], outerKeySelector, innerKeySelector, resultSelector, comparer);
      if p(inner[0]) {
        var kept := [inner[0]] + rest;
        assert Filtered(inner, p) == kept;
        assert kept[0] == inner[0] && kept[1..] == rest;
        assert MapSeq(kept, f) == [f(inner[0])] + MapSeq(rest, f);
        assert Row(value, inner, outerKeySelector, innerKeySelector, resultSelector, comparer) == [resultSelector(value, inner[0])] + row;
      } else {
        assert Filtered(inner, p) == rest;
        assert Row(value, inner, outerKeySelector, innerKeySelector, resultSelector, comparer) == row;
      }
    }
  }

  /** The number of (outer, inner) pairs whose keys match. */
  function MatchingPairs<T>(outer: seq<T>, inner: seq<Value>, outerKeySelector: T -> Value, innerKeySelector: Value -> Value,
                            comparer: seq<Option<(Value, Value) -> bool>>): nat
  {
    if outer == [] then 0
    else
      |Filtered(inner, PartnerOf(outer[0], outerKeySelector, innerKeySelector, comparer))|
      + MatchingPairs(outer[1..], inner, outerKeySelector, innerKeySelector, comparer)
  }

  /** The join has one output per matching pair; an outer value with no partner contributes nothing. */
  lemma {:induction false} JoinedLength<T>(outer: seq<T>, inner: seq<Value>, outerKeySelector: T -> Value,
                                           innerKeySelector: Value -> Value, resultSelector: (T, Value) -> Value,
                                           comparer: seq<Option<(Value, Value) -> bool>>)
    ensures |Joined(outer, inner, outerKeySelector, innerKeySelector, resultSelector, comparer)|
      == MatchingPairs(outer, inner, outerKeySelector, innerKeySelector, comparer)
  {
    if outer != [] {
      RowIsSelectOfWhere(outer[0], inner, outerKeySelector, innerKeySelector, resultSelector, comparer);
      JoinedLength(outer[1..], inner, outerKeySelector, innerKeySelector, resultSelector, comparer);
    }
  }

  /** An outer value none of whose keys match contributes an empty row. */
  lemma {:induction false} UnmatchedRowIsEmpty<T>(value: T, inner: seq<Value>, outerKeySelector: T -> Value,
                                                  innerKeySelector: Value -> Value, resultSelector: (T, Value) -> Value,
                                                  comparer: seq<Option<(Value, Value) -> bool>>)
    requires forall j :: 0 <= j < |inner| ==> !KeysMatch(comparer, outerKeySelector(value), innerKeySelector(inner[j]))
    ensures Row(value, inner, outerKeySelector, innerKeySelector, resultSelector, comparer) == []
  {
    if inner != [] {
      UnmatchedRowIsEmpty(value, inner[1..], outerKeySelector, innerKeySelector, resultSelector, comparer);
    }
  }

  /** The join of a suffix is the row of its first outer value followed by the join of the rest. */
  lemma JoinedFrom<T>(outer: seq<T>, k: int, inner: seq<Value>, outerKeySelector: T -> Value,
                      innerKeySelector: Value -> Value, resultSelector: (T, Value) -> Value,
                      comparer: seq<Option<(Value, Value) -> bool>>)
    requires 0 <= k < |outer|
    ensures Joined(outer[k..], inner, outerKeySelector, innerKeySelector, resultSelector, comparer)
      == Row(outer[k], inner, outerKeySelector, innerKeySelector, resultSelector, comparer)
      + Joined(outer[k + 1..], inner, outerKeySelector, innerKeySelector, resultSelector, comparer)
  {
    assert outer[k..][0] == outer[k] && outer[k..][1..] == outer[k + 1..];
  }

  /** The inner loop of Join: one outer value against every inner value, in order. */
  method JoinRow<T>(out: seq<Value>, value: T, innerSlice: seq<Value>, outerKeySelector: T -> Value,
                    innerKeySelector: Value -> Value, resultSelector: (T, Value) -> Value,
                    comparer: seq<Option<(Value, Value) -> bool>>) returns (r: seq<Value>)
    ensures r == out + Row(value, innerSlice, outerKeySelector, innerKeySelector, resultSelector, comparer)
  {
    r := out;
    for k := 0 to |innerSlice|
      invariant r + Row(value, innerSlice[k..], outerKeySelector, innerKeySelector, resultSelector, comparer)
        == out + Row(value, innerSlice, outerKeySelector, innerKeySelector, resultSelector, comparer)
    {
      assert innerSlice[k..][0] == innerSlice[k] && innerSlice[k..][1..] == innerSlice[k + 1..];
      ghost var rest := Row(value, innerSlice[k + 1..], outerKeySelector, innerKeySelector, resultSelector, comparer);
      ghost var before := r;
      var i := innerSlice[k];
      var outerKey := outerKeySelector(value);
      var innerKey := innerKeySelector(i);
      if IsEmptyOrNil(comparer) {
        if outerKey == innerKey {
          r := r + [resultSelector(value, i)];
        }
      } else if comparer[0].value(outerKey, innerKey) {
        r := r + [resultSelector(value, i)];
      }
      assert r + rest == before + Row(value, innerSlice[k..], outerKeySelector, innerKeySelector, resultSelector, comparer);
    }
  }

  /**
   * Join(inner, outerKeySelector, innerKeySelector, resultSelector, comparer...):
   * the inner sequence is read once into a slice; then, for each outer value in
   * order and each inner value in order, a match pushes resultSelector(outer, inner).
   */
  method Join<T>(outer: seq<T>, inner: seq<Value>, outerKeySelector: T -> Value, innerKeySelector: Value -> Value,
                 resultSelector: (T, Value) -> Value, comparer: seq<Option<(Value, Value) -> bool>>)
    returns (out: seq<Value>)
    ensures out == Joined(outer, inner, outerKeySelector, innerKeySelector, resultSelector, comparer)
  {
    var innerSlice := inner;
    out := [];
    for k := 0 to |outer|
      invariant out + Joined(outer[k..], innerSlice, outerKeySelector, innerKeySelector, resultSelector, comparer)
        == Joined(outer, inner, outerKeySelector, innerKeySelector, resultSelector, comparer)
    {
      ghost var row := Row(outer[k], innerSlice, outerKeySelector, innerKeySelector, resultSelector, comparer);
      ghost var rest := Joined(outer[k + 1..], innerSlice, outerKeySelector, innerKeySelector, resultSelector, comparer);
      JoinedFrom(outer, k, innerSlice, outerKeySelector, innerKeySelector, resultSelector, comparer);
      ghost var before := out;
      out := JoinRow(out, outer[k], innerSlice, outerKeySelector, innerKeySelector, resultSelector, comparer);
      assert out + rest == before + (row + rest);
    }
  }
}
