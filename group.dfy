/**
 * GroupBy, and the grouping step it shares with AsLookup: a Go map from each
 * key to the list of elements appended under it, in input order.
 */
module Groups {
  import opened Options
  import opened Definition
  import opened Seqs
  import opened Filter
  import opened Sets

  /** The map the grouping loop builds from `s`: each element is appended under its key. */
  function Grouped<T, V>(s: seq<T>, key: T -> Value, elem: T -> V): map<Value, seq<V>>
    decreases |s|
  {
    if s == [] then map[]
    else
      var m := Grouped(s[..|s| - 1], key, elem);
      var k := key(s[|s| - 1]);
      m[k := (if k in m then m[k] else []) + [elem(s[|s| - 1])]]
  }

  /** The test for the elements that belong under key k. */
  function HasKey<T>(key: T -> Value, k: Value): T -> bool {
    x => key(x) == k
  }

  /** The keys of the grouping are exactly the keys of the elements. */
  lemma {:induction false} GroupedKeys<T, V>(s: seq<T>, key: T -> Value, elem: T -> V)
    ensures Grouped(s, key, elem).Keys == KeySet(s, key)
    decreases |s|
  {
    if s != [] {
      var init := s[..|s| - 1];
      GroupedKeys(init, key, elem);
      assert s == init + [s[|s| - 1]];
      KeySetConcat(init, [s[|s| - 1]], key);
      assert KeySet([s[|s| - 1]], key) == {key(s[|s| - 1])} by {
        assert [s[|s| - 1]][1..] == [];
      }
    }
  }

  /**
   * Each group holds the elements of the values with its key, in input order:
   * it is Select(elem) of Where(key == k). Hence every value lands in exactly
   * the group of its key.
   */
  lemma {:induction false} GroupedValues<T, V>(s: seq<T>, key: T -> Value, elem: T -> V, k: Value)
    ensures k in Grouped(s, key, elem) ==> Grouped(s, key, elem)[k] == MapSeq(Filtered(s, HasKey(key, k)), elem)
    ensures k in Grouped(s, key, elem) ==> Grouped(s, key, elem)[k] != []
    ensures k !in Grouped(s, key, elem) ==> Filtered(s, HasKey(key, k)) == []
    decreases |s|
  {
    if s != [] {
      var init := s[..|s| - 1];
      var x := s[|s| - 1];
      GroupedValues(init, key, elem, k);
      assert s == init + [x];
      FilteredConcat(init, [x], HasKey(key, k));
      assert Filtered([x], HasKey(key, k)) == if key(x) == k then [x] else [] by {
        assert [x][1..] == [];
      }
      MapSeqConcat(Filtered(init, HasKey(key, k)), [x], elem);
    }
  }

  /** The grouping loop of GroupBy and AsLookup: `res[key] = append(res[key], element)` per value. */
  method Collect<T, V>(s: seq<T>, key: T -> Value, elem: T -> V) returns (res: map<Value, seq<V>>)
    ensures res == Grouped(s, key, elem)
  {
    res := map[];
    for i := 0 to |s|
      invariant res == Grouped(s[..i], key, elem)
    {
      assert s[..i + 1][..i] == s[..i];
      var k := key(s[i]);
      var element := elem(s[i]);
      res := res[k := (if k in res then res[k] else []) + [element]];
    }
    assert s[..|s|] == s;
  }

  /** The key GroupBy files a value under: keySelector's result, passed through getHash when it is given. */
  function GroupKey<T>(keySelector: T -> Value, getHash: Option<Value -> Value>): T -> Value {
    match getHash
    case None => keySelector
    case Some(h) => x => h(keySelector(x))
  }

  /** The element GroupBy stores: elementSelector's result, or the value itself as `any`. */
  function GroupElement<T>(elementSelector: Option<T -> Value>, toAny: T -> Value): T -> Value {
    match elementSelector
    case None => toAny
    case Some(f) => f
  }

  /**
   * GroupBy(keySelector, elementSelector, resultSelector, getHash): group the
   * values, then push resultSelector(key, group) once per key. Go's map order
   * is unspecified; `order` is the order this run took, a list of every key
   * once.
   */
  method GroupBy<T>(s: seq<T>, keySelector: T -> Value, elementSelector: Option<T -> Value>,
                    resultSelector: (Value, seq<Value>) -> Value, getHash: Option<Value -> Value>,
                    toAny: T -> Value)
    returns (out: seq<Value>, ghost order: seq<Value>)
    ensures |out| == |KeySet(s, GroupKey(keySelector, getHash))|
    ensures var groups := Grouped(s, GroupKey(keySelector, getHash), GroupElement(elementSelector, toAny));
      forall i :: 0 <= i < |out| ==> exists k :: k in groups && out[i] == resultSelector(k, groups[k])
    ensures var groups := Grouped(s, GroupKey(keySelector, getHash), GroupElement(elementSelector, toAny));
      |out| == |order| == |groups| &&
      (forall i, j :: 0 <= i < j < |order| ==> order[i] != order[j]) &&
      (forall i :: 0 <= i < |order| ==> order[i] in groups && out[i] == resultSelector(order[i], groups[order[i]])) &&
      (forall k :: k in groups ==> k in order)
  {
    var res := Collect(s, GroupKey(keySelector, getHash), GroupElement(elementSelector, toAny));
    GroupedKeys(s, GroupKey(keySelector, getHash), GroupElement(elementSelector, toAny));
    out, order := Emit(res, resultSelector);
  }

  /** The closing loop of GroupBy: `for k, v := range res`, in some order, pushing resultSelector(k, v). */
  method Emit(res: map<Value, seq<Value>>, resultSelector: (Value, seq<Value>) -> Value)
    returns (out: seq<Value>, ghost order: seq<Value>)
    ensures |out| == |res|
    ensures forall i :: 0 <= i < |out| ==> exists k :: k in res && out[i] == resultSelector(k, res[k])
    ensures |out| == |order|
    ensures forall i, j :: 0 <= i < j < |order| ==> order[i] != order[j]
    ensures forall i :: 0 <= i < |order| ==> order[i] in res && out[i] == resultSelector(order[i], res[order[i]])
    ensures forall k :: k in res ==> k in order
  {
    var left := res.Keys;
    out, order := [], [];
    while left != {}
      invariant left <= res.Keys
      invariant forall k :: k in res ==> (k in left <==> k !in order)
      invariant |out| == |order| == |res| - |left|
      invariant forall i, j :: 0 <= i < j < |order| ==> order[i] != order[j]
      invariant forall i :: 0 <= i < |order| ==> order[i] in res && out[i] == resultSelector(order[i], res[order[i]])
      decreases |left|
    {
      var k :| k in left;
      out := out + [resultSelector(k, res[k])];
      order := order + [k];
      left := left - {k};
    }
  }

  /** A getHash that sends every key to one value makes a single group holding every element, in order. */
  lemma OneHashOneGroup<T>(s: seq<T>, keySelector: T -> Value, elementSelector: Option<T -> Value>,
                           toAny: T -> Value, h: Value -> Value, c: Value)
    requires s != [] && forall v :: h(v) == c
    ensures Grouped(s, GroupKey(keySelector, Some(h)), GroupElement(elementSelector, toAny))
      == map[c := MapSeq(s, GroupElement(elementSelector, toAny))]
  {
    var key := GroupKey(keySelector, Some(h));
    var elem := GroupElement(elementSelector, toAny);
    var g := Grouped(s, key, elem);
    GroupedKeys(s, key, elem);
    OneKey(s, key, c);
    GroupedValues(s, key, elem, c);
    FilteredExtremes(s, HasKey(key, c));
  }

  lemma {:induction false} OneKey<T>(s: seq<T>, key: T -> Value, c: Value)
    requires s != [] && forall i :: 0 <= i < |s| ==> key(s[i]) == c
    ensures KeySet(s, key) == {c}
  {
    if |s| > 1 {
      OneKey(s[1..], key, c);
    }
  }
}
