/** AsLookup, Lookup and Grouping: a key-to-values index built by one grouping pass. */
module Lookups {
  import opened Options
  import opened Definition
  import opened Seqs
  import opened Filter
  import opened Sets
  import opened Groups

  /** Grouping: a key, the number of its values, and the values in insertion order. */
  datatype Grouping<V> = Grouping(key: Value, count: int, values: seq<V>)

  /**
   * Lookup: the map from key to values, the number of keys, and the groupings
   * one iteration of the lookup yields (in the map's unspecified order).
   */
  datatype Lookup<V> = Lookup(item: map<Value, seq<V>>, count: int, groupings: seq<Grouping<V>>)

  /** The element AsLookup stores: elementSelector's result, or the value itself as a V. */
  function LookupElement<T, V>(elementSelector: Option<T -> V>, asV: T -> V): T -> V {
    match elementSelector
    case None => asV
    case Some(f) => f
  }

  /** ContainsKey(t): whether t is a key of the map. */
  function ContainsKey<V>(l: Lookup<V>, t: Value): bool {
    t in l.item
  }

  /** GetValue(key): the values under key, or nil (None) when key is absent. */
  function GetValue<V>(l: Lookup<V>, key: Value): Option<seq<V>> {
    if key in l.item then Some(l.item[key]) else None
  }

  /** The keys of a list of groupings, in order. */
  function GroupingKeys<V>(gs: seq<Grouping<V>>): (r: seq<Value>)
    ensures |r| == |gs| && forall i :: 0 <= i < |gs| ==> r[i] == gs[i].key
  {
    if gs == [] then [] else [gs[0].key] + GroupingKeys(gs[1..])
  }

  /** The groupings of `res`: one per key, none twice, each with its values and their number. */
  ghost predicate GroupingsOf<V>(gs: seq<Grouping<V>>, res: map<Value, seq<V>>) {
    |gs| == |res| &&
    (forall i, j :: 0 <= i < j < |gs| ==> gs[i].key != gs[j].key) &&
    (forall i :: 0 <= i < |gs| ==> gs[i].key in res && gs[i].values == res[gs[i].key] && gs[i].count == |gs[i].values|) &&
    (forall k :: k in res ==> exists i :: 0 <= i < |gs| && gs[i].key == k)
  }

  /** The groupings loop of AsLookup: `for k := range res`, in some order, one Grouping per key. */
  method MakeGroupings<V>(res: map<Value, seq<V>>) returns (gs: seq<Grouping<V>>)
    ensures GroupingsOf(gs, res)
  {
    var left := res.Keys;
    gs := [];
    ghost var keys: seq<Value> := [];
    while left != {}
      invariant left <= res.Keys
      invariant |keys| == |gs| && forall i :: 0 <= i < |gs| ==> keys[i] == gs[i].key
      invariant forall k :: k in res ==> (k in left <==> k !in keys)
      invariant |gs| == |res| - |left|
      invariant forall i, j :: 0 <= i < j < |gs| ==> gs[i].key != gs[j].key
      invariant forall i :: 0 <= i < |gs| ==> gs[i].key in res && gs[i].values == res[gs[i].key] && gs[i].count == |gs[i].values|
      decreases |left|
    {
      var k :| k in left;
      var temp := res[k];
      gs := gs + [Grouping(k, |temp|, temp)];
      keys := keys + [k];
      left := left - {k};
    }
  }

  /**
   * AsLookup(keySelector, elementSelector): the grouping pass, Count as the
   * number of keys, and the groupings. Every input value is counted exactly
   * once across the groupings.
   */
  method AsLookup<T, V>(s: seq<T>, keySelector: T -> Value, elementSelector: Option<T -> V>, asV: T -> V)
    returns (l: Lookup<V>)
    ensures l.item == Grouped(s, keySelector, LookupElement(elementSelector, asV))
    ensures l.count == |KeySet(s, keySelector)|
    ensures GroupingsOf(l.groupings, l.item)
    ensures CountSum(l.groupings) == |s|
  {
    var elem := LookupElement(elementSelector, asV);
    var res := Collect(s, keySelector, elem);
    GroupedKeys(s, keySelector, elem);
    var gs := MakeGroupings(res);
    GroupingCountsSum(s, keySelector, elem, gs);
    l := Lookup(res, |res|, gs);
  }

  /** ContainsKey(k) on the lookup of `s` holds exactly when some value of `s` has key k. */
  lemma ContainsKeyOfLookup<T, V>(s: seq<T>, keySelector: T -> Value, elem: T -> V, l: Lookup<V>, k: Value)
    requires l.item == Grouped(s, keySelector, elem)
    ensures ContainsKey(l, k) <==> exists i :: 0 <= i < |s| && keySelector(s[i]) == k
  {
    GroupedKeys(s, keySelector, elem);
    KeySetMembers(s, keySelector, k);
  }

  lemma {:induction false} KeySetMembers<T>(s: seq<T>, key: T -> Value, k: Value)
    ensures k in KeySet(s, key) <==> exists i :: 0 <= i < |s| && key(s[i]) == k
  {
    if s != [] {
      KeySetMembers(s[1..], key, k);
      if k in KeySet(s[1..], key) {
        var i :| 0 <= i < |s[1..]| && key(s[1..][i]) == k;
        assert key(s[i + 1]) == k;
      }
      if exists i :: 0 <= i < |s| && key(s[i]) == k {
        var i :| 0 <= i < |s| && key(s[i]) == k;
        if i > 0 {
          assert key(s[1..][i - 1]) == k;
        }
      }
    }
  }

  /** GetValue(k) on the lookup of `s`: the elements of the values with key k in input order, or nil when there are none. */
  lemma GetValueOfLookup<T, V>(s: seq<T>, keySelector: T -> Value, elem: T -> V, l: Lookup<V>, k: Value)
    requires l.item == Grouped(s, keySelector, elem)
    ensures GetValue(l, k) == if Filtered(s, HasKey(keySelector, k)) == [] then None
      else Some(MapSeq(Filtered(s, HasKey(keySelector, k)), elem))
  {
    GroupedValues(s, keySelector, elem, k);
  }

  // ---------------------------------------------------------------------------
  // Every value is counted once

  /** The sum of the groupings' Counts. */
  function CountSum<V>(gs: seq<Grouping<V>>): int {
    if gs == [] then 0 else gs[0].count + CountSum(gs[1..])
  }

  /** The number of values under k, 0 for an absent key. */
  function Size<V>(m: map<Value, seq<V>>, k: Value): nat {
    if k in m then |m[k]| else 0
  }

  function Sizes<V>(m: map<Value, seq<V>>, order: seq<Value>): nat {
    if order == [] then 0 else Size(m, order[0]) + Sizes(m, order[1..])
  }

  function Occurrences(order: seq<Value>, k: Value): nat {
    if order == [] then 0 else (if order[0] == k then 1 else 0) + Occurrences(order[1..], k)
  }

  lemma {:induction false} SizesEmpty<V>(m: map<Value, seq<V>>, order: seq<Value>)
    requires m == map[]
    ensures Sizes(m, order) == 0
  {
    if order != [] {
      SizesEmpty(m, order[1..]);
    }
  }

  /** Appending one element under kx adds one to the sizes for every occurrence of kx. */
  lemma {:induction false} SizesAppend<V>(m: map<Value, seq<V>>, kx: Value, e: V, order: seq<Value>)
    ensures Sizes(m[kx := (if kx in m then m[kx] else []) + [e]], order) == Sizes(m, order) + Occurrences(order, kx)
  {
    if order != [] {
      SizesAppend(m, kx, e, order[1..]);
    }
  }

  /** In a list without repetitions, a member occurs exactly once. */
  lemma {:induction false} OccursOnce(order: seq<Value>, k: Value)
    requires forall i, j :: 0 <= i < j < |order| ==> order[i] != order[j]
    requires k in order
    ensures Occurrences(order, k) == 1
  {
    if order[0] == k {
      NotOccurring(order[1..], k);
    } else {
      OccursOnce(order[1..], k);
    }
  }

  lemma {:induction false} NotOccurring(order: seq<Value>, k: Value)
    requires k !in order
    ensures Occurrences(order, k) == 0
  {
    if order != [] {
      NotOccurring(order[1..], k);
    }
  }

  /** Over a list that names every key once, the group sizes add up to the number of values. */
  lemma {:induction false} GroupSizesSum<T, V>(s: seq<T>, key: T -> Value, elem: T -> V, order: seq<Value>)
    requires forall i, j :: 0 <= i < j < |order| ==> order[i] != order[j]
    requires forall k :: k in KeySet(s, key) ==> k in order
    ensures Sizes(Grouped(s, key, elem), order) == |s|
    decreases |s|
  {
    if s == [] {
      SizesEmpty(Grouped(s, key, elem), order);
    } else {
      var init := s[..|s| - 1];
      var x := s[|s| - 1];
      assert s == init + [x];
      KeySetConcat(init, [x], key);
      assert key(x) in KeySet([x], key);
      GroupSizesSum(init, key, elem, order);
      SizesAppend(Grouped(init, key, elem), key(x), elem(x), order);
      OccursOnce(order, key(x));
    }
  }

  /** The Counts of the groupings of a map add up to the sizes over their keys. */
  lemma {:induction false} CountSumIsSizes<V>(gs: seq<Grouping<V>>, m: map<Value, seq<V>>)
    requires forall i :: 0 <= i < |gs| ==> gs[i].key in m && gs[i].values == m[gs[i].key] && gs[i].count == |gs[i].values|
    ensures CountSum(gs) == Sizes(m, GroupingKeys(gs))
  {
    if gs != [] {
      CountSumIsSizes(gs[1..], m);
      assert GroupingKeys(gs)[1..] == GroupingKeys(gs[1..]);
    }
  }

  /** The sum of all groupings' Counts equals the number of input values. */
  lemma GroupingCountsSum<T, V>(s: seq<T>, key: T -> Value, elem: T -> V, gs: seq<Grouping<V>>)
    requires GroupingsOf(gs, Grouped(s, key, elem))
    ensures CountSum(gs) == |s|
  {
    var m := Grouped(s, key, elem);
    var order := GroupingKeys(gs);
    CountSumIsSizes(gs, m);
    GroupedKeys(s, key, elem);
    forall k | k in KeySet(s, key)
      ensures k in order
    {
      var i :| 0 <= i < |gs| && gs[i].key == k;
      assert order[i] == k;
    }
    GroupSizesSum(s, key, elem, order);
  }
}
