/**
 * Sources of an Enumerable. An Enumerable[T] is modelled by the sequence one
 * iteration of it yields; each source below is the producer loop that pushes
 * those values, accumulated into `out` in push order.
 */
module Enumerables {
  import opened Definition

  /**
   * A receive-only channel: `pending` holds the values its sender will still
   * send before closing it. A receive from a drained (closed) channel yields
   * the zero value of T and ok == false.
   */
  class Channel<T> {
    var pending: seq<T>
    const zero: T

    constructor (items: seq<T>, zero: T)
      ensures pending == items && this.zero == zero
    {
      pending := items;
      this.zero := zero;
    }

    method Receive() returns (v: T, ok: bool)
      modifies this
      ensures ok == (old(pending) != [])
      ensures ok ==> v == old(pending)[0] && pending == old(pending)[1..]
      ensures !ok ==> v == zero && pending == old(pending)
    {
      if pending == [] {
        v, ok := zero, false;
      } else {
        v, ok := pending[0], true;
        pending := pending[1..];
      }
    }
  }

  /** AsEnumerable(t) yields the elements of `t` in index order. */
  method AsEnumerable<T>(t: seq<T>) returns (out: seq<T>)
    ensures out == t
  {
    out := [];
    for i := 0 to |t|
      invariant out == t[..i]
    {
      out := out + [t[i]];
    }
  }

  /**
   * AsEnumerableFromChannel drains `c` once, eagerly, into `t`; every later
   * iteration of the result replays `t` (AsEnumerable(t)).
   */
  method AsEnumerableFromChannel<T>(c: Channel<T>) returns (t: seq<T>)
    modifies c
    ensures t == old(c.pending) && c.pending == []
  {
    t := [];
    while true
      invariant t + c.pending == old(c.pending)
      decreases |c.pending|
    {
      var value, ok := c.Receive();
      if !ok {
        break;
      }
      t := t + [value];
    }
  }

  /** Each T is converted to `any` (`toAny`); length and order are kept. */
  method AsEnumerableAnyFromT<T>(e: seq<T>, toAny: T -> Value) returns (out: seq<Value>)
    ensures |out| == |e|
    ensures forall i :: 0 <= i < |e| ==> out[i] == toAny(e[i])
  {
    out := [];
    for i := 0 to |e|
      invariant |out| == i
      invariant forall k :: 0 <= k < i ==> out[k] == toAny(e[k])
    {
      out := out + [toAny(e[i])];
    }
  }

  /** The same conversion, reading a slice instead of an upstream Enumerable. */
  method AsEnumerableAnyFromSliceT<T>(a: seq<T>, toAny: T -> Value) returns (out: seq<Value>)
    ensures |out| == |a|
    ensures forall i :: 0 <= i < |a| ==> out[i] == toAny(a[i])
  {
    out := [];
    var i := 0;
    while i < |a|
      invariant 0 <= i <= |a|
      invariant |out| == i
      invariant forall k :: 0 <= k < i ==> out[k] == toAny(a[k])
    {
      out := out + [toAny(a[i])];
      i := i + 1;
    }
  }

  /** Concat yields every element of `e`, then every element of `second`. */
  method Concat<T>(e: seq<T>, second: seq<T>) returns (out: seq<T>)
    ensures out == e + second
  {
    out := [];
    for i := 0 to |e|
      invariant out == e[..i]
    {
      out := out + [e[i]];
    }
    for i := 0 to |second|
      invariant out == e + second[..i]
    {
      out := out + [second[i]];
    }
  }

  /** Empty's producer closes its channel at once. */
  method Empty<T>() returns (out: seq<T>)
    ensures out == []
  {
    out := [];
  }

  /** Empty().Concat(s) yields exactly `s`. */
  method EmptyConcat<T>(s: seq<T>) returns (out: seq<T>)
    ensures out == s
  {
    var e := Empty<T>();
    out := Concat(e, s);
  }

  /**
   * Range(start, end) yields start, start+1, ..., end: end - start + 1 values,
   * none when start > end. The counter is an unbounded integer here; see
   * RangeAsWritten for the 64-bit counter of the source.
   */
  method Range(start: int, end: int) returns (out: seq<int>)
    ensures |out| == if start <= end then end - start + 1 else 0
    ensures forall k :: 0 <= k < |out| ==> out[k] == start + k
  {
    out := [];
    var i := start;
    while i <= end
      invariant start <= i && (i <= end + 1 || i == start)
      invariant |out| == i - start
      invariant forall k :: 0 <= k < |out| ==> out[k] == start + k
      decreases end - i
    {
      out := out + [i];
      i := i + 1;
    }
  }

  const MaxInt64: int := 0x7fff_ffff_ffff_ffff
  const MinInt64: int := -0x8000_0000_0000_0000

  /**
   * The first `fuel` values Range's loop sends when its counter is Go's 64-bit
   * `int`: `i++` wraps from MaxInt64 to MinInt64.
   */
  function RangeAsWritten(i: int, end: int, fuel: nat): seq<int>
    decreases fuel
  {
    if fuel == 0 || !(i <= end) then []
    else [i] + RangeAsWritten(WrapSigned(i + 1, IntModulus(I)), end, fuel - 1)
  }

  /** Go's `i++` on MaxInt64 gives MinInt64. */
  lemma IncrementWrapsAtMaxInt(i: int)
    requires i == MaxInt64
    ensures WrapSigned(i + 1, IntModulus(I)) == MinInt64
  {
  }

  /** With end == MaxInt64 the source sends MinInt64 right after MaxInt64. */
  lemma RangeAsWrittenWrapsAtMaxInt(end: int)
    requires end == MaxInt64
    ensures RangeAsWritten(end, end, 2) == [MaxInt64, MinInt64]
  {
    IncrementWrapsAtMaxInt(end);
    var next := WrapSigned(end + 1, IntModulus(I));
    assert RangeAsWritten(next, end, 1) == [next];
  }

  /** With end == MaxInt64 the source's loop never ends: any number of values is sent. */
  lemma {:induction false} RangeAsWrittenNeverEnds(i: int, fuel: nat)
    requires MinInt64 <= i <= MaxInt64
    ensures |RangeAsWritten(i, MaxInt64, fuel)| == fuel
    decreases fuel
  {
    if fuel > 0 {
      RangeAsWrittenNeverEnds(WrapSigned(i + 1, IntModulus(I)), fuel - 1);
    }
  }

  /** Repeat(x, times) yields `times` copies of x, none when times <= 0. */
  method Repeat<T>(element: T, times: int) returns (out: seq<T>)
    ensures |out| == if times > 0 then times else 0
    ensures forall k :: 0 <= k < |out| ==> out[k] == element
  {
    out := [];
    var i := 0;
    while i < times
      invariant 0 <= i && (i <= times || i == 0)
      invariant |out| == i
      invariant forall k :: 0 <= k < i ==> out[k] == element
      decreases times - i
    {
      out := out + [element];
      i := i + 1;
    }
  }
}
