/** Select, SelectMany and Zip: the sequential projection operators. */
module Projection {
  import opened Options
  import opened Definition
  import opened Seqs
  import opened Filter
  import opened Enumerables

  /** Select(f) pushes f(value) for every upstream value, in order. */
  method Select<T>(s: seq<T>, selector: T -> Value) returns (out: seq<Value>)
    ensures out == MapSeq(s, selector)
  {
    out := [];
    for i := 0 to |s|
      invariant out == MapSeq(s[..i], selector)
    {
      assert s[..i + 1] == s[..i] + [s[i]];
      MapSeqConcat(s[..i], [s[i]], selector);
      out := out + [selector(s[i])];
    }
  }

  /** The elements of a selector result when it is a slice; nothing otherwise. */
  function SliceElems(res: Value): seq<Value> {
    if res.SliceValue? then res.elems else []
  }

  /** The concatenation, in upstream order, of every selector result that is a slice. */
  function Flattened<T>(s: seq<T>, selector: T -> Value): seq<Value> {
    if s == [] then [] else SliceElems(selector(s[0])) + Flattened(s[1..], selector)
  }

  /** When no selector result is a slice, SelectMany pushes nothing. */
  lemma {:induction false} FlattenedWithoutSlices<T>(s: seq<T>, selector: T -> Value)
    requires forall i :: 0 <= i < |s| ==> !selector(s[i]).SliceValue?
    ensures Flattened(s, selector) == []
  {
    if s != [] {
      FlattenedWithoutSlices(s[1..], selector);
    }
  }

  lemma {:induction false} FlattenedConcat<T>(a: seq<T>, b: seq<T>, selector: T -> Value)
    ensures Flattened(a + b, selector) == Flattened(a, selector) + Flattened(b, selector)
  {
    if a == [] {
      assert a + b == b;
    } else {
      assert (a + b)[0] == a[0];
      assert (a + b)[1..] == a[1..] + b;
      FlattenedConcat(a[1..], b, selector);
    }
  }

  /** Whether the selector's result for a value is a slice. */
  function YieldsSlice<T>(selector: T -> Value): T -> bool {
    x => selector(x).SliceValue?
  }

  /** Dropping the values whose selector result is not a slice changes nothing. */
  lemma {:induction false} FlattenedIgnoresNonSlices<T>(s: seq<T>, selector: T -> Value)
    ensures Flattened(s, selector) == Flattened(Filtered(s, YieldsSlice(selector)), selector)
  {
    if s != [] {
      FlattenedIgnoresNonSlices(s[1..], selector);
      var p := YieldsSlice(selector);
      var rest := Filtered(s[1..], p);
      assert p(s[0]) == selector(s[0]).SliceValue?;
      if p(s[0]) {
        var kept := [s[0]] + rest;
        assert Filtered(s, p) == kept;
        assert kept[0] == s[0] && kept[1..] == rest;
      } else {
        assert Filtered(s, p) == rest;
        assert SliceElems(selector(s[0])) == [];
      }
    }
  }

  /** SelectMany(f) pushes the elements of each slice f(value), in order; other results are dropped. */
  method SelectMany<T>(s: seq<T>, selector: T -> Value) returns (out: seq<Value>)
    ensures out == Flattened(s, selector)
  {
    out := [];
    for k := 0 to |s|
      invariant out + Flattened(s[k..], selector) == Flattened(s, selector)
    {
      assert s[k..][0] == s[k] && s[k..][1..] == s[k + 1..];
      var res := selector(s[k]);
      ghost var rest := Flattened(s[k + 1..], selector);
      assert Flattened(s[k..], selector) == SliceElems(res) + rest;
      if res.SliceValue? {
        ghost var before := out;
        out := PushAll(out, res.elems);
        assert out + rest == before + (res.elems + rest);
      }
    }
  }

  /** The inner loop of SelectMany: push a slice's elements by index. */
  method PushAll(out: seq<Value>, elems: seq<Value>) returns (r: seq<Value>)
    ensures r == out + elems
  {
    r := out;
    for i := 0 to |elems|
      invariant r == out + elems[..i]
    {
      r := r + [elems[i]];
    }
    assert elems[..|elems|] == elems;
  }

  /** The value Zip pairs with the i-th receiver element: a receive from `second`, nil once it is closed. */
  function Partner(second: seq<Value>, i: nat): Value {
    if i < |second| then second[i] else Nil
  }

  /** One Zip output: the pair [value, secondValue], or the first resultSelector applied to them. */
  function Zipped<T>(value: T, secondValue: Value, toAny: T -> Value,
                     resultSelector: seq<Option<(T, Value) -> Value>>): Value
  {
    match Chosen(resultSelector)
    case None => SliceValue([toAny(value), secondValue])
    case Some(f) => f(value, secondValue)
  }

  /**
   * Zip pushes one value per receiver element: the receiver drives the loop,
   * `second` is read one receive at a time, and its extra elements are never read.
   */
  method Zip<T>(s: seq<T>, second: seq<Value>, toAny: T -> Value,
                resultSelector: seq<Option<(T, Value) -> Value>>) returns (out: seq<Value>)
    ensures |out| == |s|
    ensures forall i :: 0 <= i < |s| ==> out[i] == Zipped(s[i], Partner(second, i), toAny, resultSelector)
  {
    var secondIter := new Channel(second, Nil);
    out := [];
    for i := 0 to |s|
      invariant |out| == i
      invariant secondIter.zero == Nil
      invariant secondIter.pending == if i <= |second| then second[i..] else []
      invariant forall k :: 0 <= k < i ==> out[k] == Zipped(s[k], Partner(second, k), toAny, resultSelector)
    {
      var secondValue, _ := secondIter.Receive();
      assert secondValue == Partner(second, i);
      if IsEmptyOrNil(resultSelector) {
        out := out + [SliceValue([toAny(s[i]), secondValue])];
      } else {
        out := out + [resultSelector[0].value(s[i], secondValue)];
      }
    }
  }

  /** When `second` is at least as long, Zip pairs elements at equal positions, with no nil partner. */
  lemma ZipPairsPositions<T>(s: seq<T>, second: seq<Value>, toAny: T -> Value, i: nat)
    requires |s| <= |second| && i < |s|
    ensures Zipped(s[i], Partner(second, i), toAny, []) == SliceValue([toAny(s[i]), second[i]])
  {
  }
}
