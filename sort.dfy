/**
 * OrderBy, OrderByDescending and Reverse, and the sorter they hand to the
 * sorting routine: a payload slice and a key slice that are swapped together
 * while the keys are compared.
 */
module Sorting {
  import opened Options
  import opened Definition
  import opened Orderings

  /**
   * defaultSort: the comparer a nil comparer stands for. It switches on the
   * kind of its first operand as the definition package's "less" does, so the
   * two are the same function.
   */
  function DefaultSort(t1: Value, t2: Value): (r: bool)
    ensures r == DefaultLessComparer(t1, t2)
  {
    match t1
    case IntValue(_, x) => t2.IntValue? && x < t2.i
    case UintValue(_, x) => t2.UintValue? && x < t2.u
    case FloatValue(_, x) => t2.FloatValue? && x < t2.f
    case StringValue(x) => t2.StringValue? && LexLess(x, t2.s)
    case BoolValue(x) => t2.BoolValue? && !x && t2.b
    case _ => false
  }

  /** The comparer a sorter uses: the given one, or defaultSort when it is nil. */
  function SorterComparer(comparer: Option<(Value, Value) -> bool>): (Value, Value) -> bool {
    match comparer
    case None => DefaultSort
    case Some(c) => c
  }

  /** The comparer with its answer negated, as OrderByDescending installs it. */
  function Negated(c: (Value, Value) -> bool): (Value, Value) -> bool {
    (a, b) => !c(a, b)
  }

  /**
   * What the sorting routine leaves between two neighbours a, b: either a is
   * below b, or b is not below a. Insertion sort guarantees it for any comparer.
   */
  predicate InOrder(c: (Value, Value) -> bool, a: Value, b: Value) {
    c(a, b) || !c(b, a)
  }

  predicate AdjacentInOrder(c: (Value, Value) -> bool, keys: seq<Value>) {
    forall k :: 0 <= k < |keys| - 1 ==> InOrder(c, keys[k], keys[k + 1])
  }

  /** Payloads paired with their keys, position by position. */
  function Pairs<T>(origin: seq<T>, keys: seq<Value>): (r: seq<(T, Value)>)
    requires |origin| == |keys|
    ensures |r| == |origin|
  {
    if origin == [] then [] else [(origin[0], keys[0])] + Pairs(origin[1..], keys[1..])
  }

  lemma {:induction false} PairsAt<T>(origin: seq<T>, keys: seq<Value>)
    requires |origin| == |keys|
    ensures forall i :: 0 <= i < |origin| ==> Pairs(origin, keys)[i] == (origin[i], keys[i])
  {
    if origin != [] {
      PairsAt(origin[1..], keys[1..]);
    }
  }

  /** Swapping two positions of both slices swaps the same two pairs. */
  lemma PairsSwapped<T>(origin: seq<T>, keys: seq<Value>, i: int, j: int)
    requires |origin| == |keys| && 0 <= i < |origin| && 0 <= j < |origin|
    ensures Pairs(Swapped(origin, i, j), Swapped(keys, i, j)) == Swapped(Pairs(origin, keys), i, j)
  {
    PairsAt(origin, keys);
    PairsAt(Swapped(origin, i, j), Swapped(keys, i, j));
  }

  /** The (payload, key) pairs of o, k are those of o0, k0 in some order. */
  ghost predicate SamePairs<T>(o: seq<T>, k: seq<Value>, o0: seq<T>, k0: seq<Value>) {
    |o| == |k| && |o0| == |k0| && multiset(Pairs(o, k)) == multiset(Pairs(o0, k0))
  }

  /**
   * The state of an insertion pass that has carried the value from position i
   * down to position j: the keys before j, and those after j up to i, are in
   * order; the carried key is below its right neighbour, and the two keys
   * around it are in order with each other.
   */
  ghost predicate Inserting(c: (Value, Value) -> bool, keys: seq<Value>, j: int, i: int) {
    0 <= j <= i < |keys| &&
    AdjacentInOrder(c, keys[..j]) &&
    AdjacentInOrder(c, keys[j + 1..i + 1]) &&
    (j < i ==> c(keys[j], keys[j + 1])) &&
    (0 < j < i ==> InOrder(c, keys[j - 1], keys[j + 1]))
  }

  /** Carrying the value one step left, past a neighbour it is below, keeps the state. */
  lemma InsertingStep(c: (Value, Value) -> bool, keys: seq<Value>, j: int, i: int)
    requires Inserting(c, keys, j, i) && j > 0 && c(keys[j], keys[j - 1])
    ensures Inserting(c, Swapped(keys, j, j - 1), j - 1, i)
  {
    var k' := Swapped(keys, j, j - 1);
    assert k'[..j - 1] == keys[..j - 1];
    assert k'[j..i + 1] == [keys[j - 1]] + keys[j + 1..i + 1];
    if 1 < j {
      assert InOrder(c, keys[j - 2], keys[j - 1]);
    }
  }

  /** Where the carried value stops, the keys up to i are in order. */
  lemma InsertingDone(c: (Value, Value) -> bool, keys: seq<Value>, j: int, i: int)
    requires Inserting(c, keys, j, i) && (j == 0 || !c(keys[j], keys[j - 1]))
    ensures AdjacentInOrder(c, keys[..i + 1])
  {
    forall k | 0 <= k < i
      ensures InOrder(c, keys[k], keys[k + 1])
    {
      if k < j - 1 {
        assert keys[..j][k] == keys[k] && keys[..j][k + 1] == keys[k + 1];
      } else if j <= k {
        if k > j {
          var tail := keys[j + 1..i + 1];
          assert InOrder(c, tail[k - j - 1], tail[k - j]);
          assert tail[k - j - 1] == keys[k] && tail[k - j] == keys[k + 1];
        }
      }
    }
  }

  /** `s` with the elements at i and j exchanged. */
  function Swapped<X>(s: seq<X>, i: int, j: int): (r: seq<X>)
    requires 0 <= i < |s| && 0 <= j < |s|
    ensures |r| == |s| && r[i] == s[j] && r[j] == s[i]
    ensures forall k :: 0 <= k < |s| && k != i && k != j ==> r[k] == s[k]
    ensures multiset(r) == multiset(s)
  {
    s[i := s[j]][j := s[i]]
  }

  /** sorter: the payload slice, the key slice and the comparer on keys. */
  class Sorter<T> {
    const origin: array<T>
    const keys: array<Value>
    var comparer: (Value, Value) -> bool

    /** Both slices have one entry per value and are distinct arrays. */
    ghost predicate Valid()
      reads this
    {
      origin.Length == keys.Length && origin as object != keys as object
    }

    /** NewSorter: a nil comparer is replaced by defaultSort. */
    constructor (origin: array<T>, source: array<Value>, comparer: Option<(Value, Value) -> bool>)
      requires origin.Length == source.Length && origin as object != source as object
      ensures Valid()
      ensures this.origin == origin && this.keys == source
      ensures this.comparer == SorterComparer(comparer)
    {
      this.origin := origin;
      this.keys := source;
      this.comparer := SorterComparer(comparer);
    }

    function Len(): (n: nat)
      reads this
      ensures n == keys.Length
    {
      keys.Length
    }

    /** Less(i, j) compares the keys at i and j. */
    function Less(i: int, j: int): (r: bool)
      requires 0 <= i < keys.Length && 0 <= j < keys.Length
      reads this, keys
      ensures r == comparer(keys[i], keys[j])
    {
      comparer(keys[i], keys[j])
    }

    /** Swap(i, j) exchanges the payloads and the keys at i and j, keeping every payload with its key. */
    method Swap(i: int, j: int)
      requires Valid() && 0 <= i < Len() && 0 <= j < Len()
      modifies origin, keys
      ensures origin[..] == Swapped(old(origin[..]), i, j)
      ensures keys[..] == Swapped(old(keys[..]), i, j)
      ensures SamePairs(origin[..], keys[..], old(origin[..]), old(keys[..]))
    {
      PairsSwapped(origin[..], keys[..], i, j);
      origin[i], origin[j] := origin[j], origin[i];
      keys[i], keys[j] := keys[j], keys[i];
    }

    /**
     * The sorting routine, by insertion through Len, Less and Swap: the value
     * at i moves left past every neighbour it is Less than. Afterwards every
     * pair of neighbouring keys is InOrder, and the (payload, key) pairs are a
     * permutation of the ones before.
     */
    method Sort()
      requires Valid()
      modifies origin, keys
      ensures AdjacentInOrder(comparer, keys[..])
      ensures SamePairs(origin[..], keys[..], old(origin[..]), old(keys[..]))
      ensures multiset(origin[..]) == multiset(old(origin[..]))
    {
      var n := Len();
      var i := 1;
      while i < n
        invariant 1 <= i || n == 0
        invariant AdjacentInOrder(comparer, keys[..if i <= n then i else n])
        invariant SamePairs(origin[..], keys[..], old(origin[..]), old(keys[..]))
        invariant multiset(origin[..]) == multiset(old(origin[..]))
      {
        Insert(i);
        i := i + 1;
      }
    }

    /** One pass of Sort: the keys before i are in order; afterwards those up to i are. */
    method Insert(i: int)
      requires Valid() && 0 < i < Len()
      requires AdjacentInOrder(comparer, keys[..i])
      modifies origin, keys
      ensures AdjacentInOrder(comparer, keys[..i + 1])
      ensures SamePairs(origin[..], keys[..], old(origin[..]), old(keys[..]))
      ensures multiset(origin[..]) == multiset(old(origin[..]))
    {
      ghost var o0, k0 := origin[..], keys[..];
      var j := i;
      while j > 0 && Less(j, j - 1)
        invariant 0 <= j <= i
        invariant Inserting(comparer, keys[..], j, i)
        invariant SamePairs(origin[..], keys[..], o0, k0)
        invariant multiset(origin[..]) == multiset(o0)
      {
        ghost var before := keys[..];
        InsertingStep(comparer, before, j, i);
        Swap(j, j - 1);
        assert keys[..] == Swapped(before, j, j - 1);
        j := j - 1;
      }
      InsertingDone(comparer, keys[..], j, i);
    }
  }

  /** defaultSort holds for no first operand outside the primitive kinds, and on bools only for false, true. */
  lemma DefaultSortKinds(t1: Value, t2: Value)
    ensures ClassOf(t1) == NonPrimitive ==> !DefaultSort(t1, t2)
    ensures t1.BoolValue? && t2.BoolValue? ==> (DefaultSort(t1, t2) <==> !t1.b && t2.b)
  {
  }

  /** On keys of one primitive class defaultSort is a strict weak order. */
  lemma DefaultSortIsStrictWeakOrder(keys: seq<Value>)
    requires OneClass(keys)
    ensures StrictWeakOrderOn(DefaultSort, keys)
  {
    DefaultLessIsStrictWeakOrder(keys);
  }

  /**
   * A sort keeps every payload with its key: when each key was f of its
   * payload before, it still is afterwards.
   */
  lemma KeysFollowPayloads<T>(o: seq<T>, k: seq<Value>, o0: seq<T>, k0: seq<Value>, f: T -> Value)
    requires SamePairs(o, k, o0, k0)
    requires forall i :: 0 <= i < |o0| ==> k0[i] == f(o0[i])
    ensures forall i :: 0 <= i < |o| ==> k[i] == f(o[i])
  {
    PairsAt(o, k);
    PairsAt(o0, k0);
    forall i | 0 <= i < |o|
      ensures k[i] == f(o[i])
    {
      var p := Pairs(o, k)[i];
      assert p in multiset(Pairs(o0, k0));
      var idx :| 0 <= idx < |o0| && Pairs(o0, k0)[idx] == p;
    }
  }

  /** Under a strict weak order, neighbours in order make every later key not below any earlier one. */
  lemma {:induction false} AscendingFrom(c: (Value, Value) -> bool, keys: seq<Value>, i: int, j: int)
    requires StrictWeakOrderOn(c, keys) && AdjacentInOrder(c, keys)
    requires 0 <= i < j < |keys|
    ensures !c(keys[j], keys[i])
    decreases j - i
  {
    assert InOrder(c, keys[j - 1], keys[j]);
    if i < j - 1 {
      AscendingFrom(c, keys, i, j - 1);
    }
  }

  lemma Ascending(c: (Value, Value) -> bool, keys: seq<Value>)
    requires StrictWeakOrderOn(c, keys) && AdjacentInOrder(c, keys)
    ensures forall i, j :: 0 <= i < j < |keys| ==> !c(keys[j], keys[i])
  {
    forall i, j | 0 <= i < j < |keys|
      ensures !c(keys[j], keys[i])
    {
      AscendingFrom(c, keys, i, j);
    }
  }

  /** Under a strict weak order, neighbours in order for the negated comparer make no earlier key below a later one. */
  lemma {:induction false} DescendingFrom(c: (Value, Value) -> bool, keys: seq<Value>, i: int, j: int)
    requires StrictWeakOrderOn(c, keys) && AdjacentInOrder(Negated(c), keys)
    requires 0 <= i < j < |keys|
    ensures !c(keys[i], keys[j])
    decreases j - i
  {
    assert InOrder(Negated(c), keys[j - 1], keys[j]);
    if i < j - 1 {
      DescendingFrom(c, keys, i, j - 1);
    }
  }

  lemma Descending(c: (Value, Value) -> bool, keys: seq<Value>)
    requires StrictWeakOrderOn(c, keys) && AdjacentInOrder(Negated(c), keys)
    ensures forall i, j :: 0 <= i < j < |keys| ==> !c(keys[i], keys[j])
  {
    forall i, j | 0 <= i < j < |keys|
      ensures !c(keys[i], keys[j])
    {
      DescendingFrom(c, keys, i, j);
    }
  }

  /** ToSlice: the values of `s` in a fresh array. */
  method ToArray<X>(s: seq<X>) returns (a: array<X>)
    ensures fresh(a) && a[..] == s
  {
    a := new X[|s|](i requires 0 <= i < |s| => s[i]);
  }

  /** The keys of the payloads in `out`, in order. */
  function KeysOf<T>(out: seq<T>, selector: T -> Value): (r: seq<Value>)
    ensures |r| == |out| && forall i :: 0 <= i < |out| ==> r[i] == selector(out[i])
  {
    if out == [] then [] else [selector(out[0])] + KeysOf(out[1..], selector)
  }

  /**
   * OrderBy(selector, comparer): materialise the values and their keys, sort
   * the two together and push the payloads. The output is a permutation of
   * the input, and neighbouring keys are in order for the comparer used.
   */
  method OrderBy<T>(s: seq<T>, selector: T -> Value, comparer: Option<(Value, Value) -> bool>) returns (out: seq<T>)
    ensures multiset(out) == multiset(s)
    ensures AdjacentInOrder(SorterComparer(comparer), KeysOf(out, selector))
  {
    var origin := ToArray(s);
    var source := ToArray(KeysOf(s, selector));
    var sorter := new Sorter(origin, source, comparer);
    sorter.Sort();
    KeysFollowPayloads(origin[..], source[..], s, KeysOf(s, selector), selector);
    out := sorter.origin[..];
    assert source[..] == KeysOf(out, selector);
  }

  /**
   * OrderByDescending(selector, comparer): nothing for an empty input;
   * otherwise OrderBy with the sorter's comparer negated.
   */
  method OrderByDescending<T>(s: seq<T>, selector: T -> Value, comparer: Option<(Value, Value) -> bool>) returns (out: seq<T>)
    ensures s == [] ==> out == []
    ensures multiset(out) == multiset(s)
    ensures AdjacentInOrder(Negated(SorterComparer(comparer)), KeysOf(out, selector))
  {
    if |s| == 0 {
      return [];
    }
    var origin := ToArray(s);
    var source := ToArray(KeysOf(s, selector));
    var sorter := new Sorter(origin, source, comparer);
    var oldComparer := sorter.comparer;
    sorter.comparer := Negated(oldComparer);
    sorter.Sort();
    KeysFollowPayloads(origin[..], source[..], s, KeysOf(s, selector), selector);
    out := sorter.origin[..];
    assert source[..] == KeysOf(out, selector);
  }

  /** OrderBy with no comparer sorts keys of one primitive class ascending. */
  lemma OrderByDefaultIsAscending<T>(out: seq<T>, selector: T -> Value)
    requires OneClass(KeysOf(out, selector))
    requires AdjacentInOrder(SorterComparer(None), KeysOf(out, selector))
    ensures forall i, j :: 0 <= i < j < |out| ==> !DefaultLessComparer(selector(out[j]), selector(out[i]))
  {
    DefaultSortIsStrictWeakOrder(KeysOf(out, selector));
    Ascending(DefaultSort, KeysOf(out, selector));
  }

  /** Keys in order for the negated default "greater" comparer are ascending, on one primitive class. */
  lemma NegatedGreaterIsAscending(keys: seq<Value>)
    requires OneClass(keys)
    requires AdjacentInOrder(Negated(DefaultMoreComparer), keys)
    ensures forall i, j :: 0 <= i < j < |keys| ==> !DefaultLessComparer(keys[j], keys[i])
  {
    DefaultMoreIsStrictWeakOrder(keys);
    Descending(DefaultMoreComparer, keys);
    forall i, j | 0 <= i < j < |keys|
      ensures !DefaultLessComparer(keys[j], keys[i])
    {
      MoreIsSwappedLess(keys[i], keys[j]);
    }
  }

  /** OrderByDescending with the default "greater" comparer sorts keys of one primitive class ascending. */
  lemma DescendingByGreaterIsAscending<T>(out: seq<T>, selector: T -> Value)
    requires OneClass(KeysOf(out, selector))
    requires AdjacentInOrder(Negated(SorterComparer(Some(DefaultMoreComparer))), KeysOf(out, selector))
    ensures forall i, j :: 0 <= i < j < |out| ==> !DefaultLessComparer(selector(out[j]), selector(out[i]))
  {
    var keys := KeysOf(out, selector);
    assert SorterComparer(Some(DefaultMoreComparer)) == DefaultMoreComparer;
    NegatedGreaterIsAscending(keys);
  }

  /** Reverse materialises the values and pushes them from the last index down to 0. */
  method Reverse<T>(s: seq<T>) returns (out: seq<T>)
    ensures |out| == |s|
    ensures forall i :: 0 <= i < |s| ==> out[i] == s[|s| - 1 - i]
  {
    var slice := ToArray(s);
    out := [];
    var i := slice.Length - 1;
    while i >= 0
      invariant -1 <= i < |s|
      invariant slice[..] == s
      invariant |out| == |s| - 1 - i
      invariant forall k :: 0 <= k < |out| ==> out[k] == s[|s| - 1 - k]
    {
      out := out + [slice[i]];
      i := i - 1;
    }
  }

  /** Reversing twice gives back the input. */
  method ReverseTwice<T>(s: seq<T>) returns (out: seq<T>)
    ensures out == s
  {
    var once := Reverse(s);
    out := Reverse(once);
  }
}
