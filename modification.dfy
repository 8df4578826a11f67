/** Append, Prepend, Insert and the Remove family. */
module Modification {
  import opened Options
  import opened Definition
  import opened Seqs
  import opened Enumerables

  /** Append(t) pushes every upstream value, then t. */
  method Append<T>(s: seq<T>, t: T) returns (out: seq<T>)
    ensures out == s + [t]
  {
    out := [];
    for i := 0 to |s|
      invariant out == s[..i]
    {
      out := out + [s[i]];
    }
    out := out + [t];
  }

  /** AppendRange(second) pushes the upstream values, then those of `second`. */
  method AppendRange<T>(s: seq<T>, second: seq<T>) returns (out: seq<T>)
    ensures out == s + second
  {
    out := [];
    for i := 0 to |s|
      invariant out == s[..i]
    {
      out := out + [s[i]];
    }
    for i := 0 to |second|
      invariant out == s + second[..i]
    {
      out := out + [second[i]];
    }
  }

  /** Prepend(t) pushes t, then every upstream value. */
  method Prepend<T>(s: seq<T>, t: T) returns (out: seq<T>)
    ensures out == [t] + s
  {
    out := [t];
    for i := 0 to |s|
      invariant out == [t] + s[..i]
    {
      out := out + [s[i]];
    }
  }

  /** PrependRange(second) pushes the values of `second`, then the upstream values. */
  method PrependRange<T>(s: seq<T>, second: seq<T>) returns (out: seq<T>)
    ensures out == second + s
  {
    out := [];
    for i := 0 to |second|
      invariant out == second[..i]
    {
      out := out + [second[i]];
    }
    for i := 0 to |s|
      invariant out == second + s[..i]
    {
      out := out + [s[i]];
    }
  }

  /** Clear is Empty, whatever the upstream holds. */
  method Clear<T>(s: seq<T>) returns (out: seq<T>)
    ensures out == []
  {
    out := Empty<T>();
  }

  /** `s` with t placed before position `index` when 0 <= index <= |s|; `s` itself for any other index. */
  function Inserted<T>(s: seq<T>, index: int, t: T): (r: seq<T>)
    ensures 0 <= index <= |s| ==>
      |r| == |s| + 1 && r[index] == t &&
      (forall j :: 0 <= j < index ==> r[j] == s[j]) &&
      (forall j :: index < j < |r| ==> r[j] == s[j - 1])
    ensures !(0 <= index <= |s|) ==> r == s
  {
    if 0 <= index <= |s| then s[..index] + [t] + s[index..] else s
  }

  /** `s` without its element at `index` when 0 <= index < |s|; `s` itself for any other index. */
  function WithoutAt<T>(s: seq<T>, index: int): (r: seq<T>)
    ensures 0 <= index < |s| ==>
      |r| == |s| - 1 &&
      (forall j :: 0 <= j < index ==> r[j] == s[j]) &&
      (forall j :: index <= j < |r| ==> r[j] == s[j + 1])
    ensures !(0 <= index < |s|) ==> r == s
  {
    if 0 <= index < |s| then s[..index] + s[index + 1..] else s
  }

  /** Removing what was inserted gives back the original sequence. */
  lemma WithoutAtInserted<T>(s: seq<T>, index: int, t: T)
    ensures WithoutAt(Inserted(s, index, t), index) == s
  {
    if 0 <= index <= |s| {
      var r := WithoutAt(Inserted(s, index, t), index);
      assert forall j :: 0 <= j < |s| ==> r[j] == s[j];
    }
  }

  /** Inserting the removed element back at its position gives back the original sequence. */
  lemma InsertedWithoutAt<T>(s: seq<T>, index: int)
    requires 0 <= index < |s|
    ensures Inserted(WithoutAt(s, index), index, s[index]) == s
  {
    var r := Inserted(WithoutAt(s, index), index, s[index]);
    assert forall j :: 0 <= j < |s| ==> r[j] == s[j];
  }

  /**
   * Insert(index, t): the counter `i` counts the values pushed so far, and t
   * goes out when it equals `index`, before the value at that position or
   * after the last one.
   */
  method Insert<T>(s: seq<T>, index: int, t: T) returns (out: seq<T>)
    ensures out == Inserted(s, index, t)
  {
    out := [];
    var i := 0;
    for k := 0 to |s|
      invariant i == k
      invariant out == if 0 <= index < k then s[..index] + [t] + s[index..k] else s[..k]
    {
      if i == index {
        out := out + [t];
      }
      out := out + [s[k]];
      i := i + 1;
    }
    if i == index {
      out := out + [t];
    }
    assert s[..|s|] == s;
  }

  /** The element test Remove uses: the first comparer against t, or `==` without one. */
  function RemoveMatch<T(==)>(t: T, comparer: seq<Option<(T, T) -> bool>>): T -> bool {
    match Chosen(comparer)
    case None => value => value == t
    case Some(c) => value => c(value, t)
  }

  /**
   * Remove(t) skips the first value that matches t and pushes every other
   * value, in order; `isFirst` latches once that value has been skipped.
   */
  method Remove<T(==)>(s: seq<T>, t: T, comparer: seq<Option<(T, T) -> bool>>) returns (out: seq<T>)
    ensures out == WithoutAt(s, FirstIndex(s, RemoveMatch(t, comparer)))
  {
    ghost var m := RemoveMatch(t, comparer);
    ghost var first := FirstIndex(s, m);
    out := [];
    var isFirst := true;
    for i := 0 to |s|
      invariant isFirst <==> first >= i
      invariant out == if first >= i then s[..i] else s[..first] + s[first + 1..i]
    {
      var value := s[i];
      var skip := false;
      if isFirst {
        if !IsEmptyOrNil(comparer) && comparer[0].value(value, t) {
          skip := true;
        } else if IsEmptyOrNil(comparer) && value == t {
          skip := true;
        }
      }
      assert isFirst ==> (skip <==> m(value));
      if skip {
        isFirst := false;
      } else {
        out := out + [value];
      }
    }
    assert s[..|s|] == s;
  }

  /** With no matching value, Remove leaves the sequence unchanged; otherwise exactly one value is gone. */
  lemma RemoveDropsAtMostOne<T>(s: seq<T>, t: T, comparer: seq<Option<(T, T) -> bool>>)
    ensures var r := WithoutAt(s, FirstIndex(s, RemoveMatch(t, comparer)));
      (forall i :: 0 <= i < |s| ==> !RemoveMatch(t, comparer)(s[i])) ==> r == s
    ensures var r := WithoutAt(s, FirstIndex(s, RemoveMatch(t, comparer)));
      (exists i :: 0 <= i < |s| && RemoveMatch(t, comparer)(s[i])) ==> |r| == |s| - 1
  {
  }

  /** RemoveAt(index) skips the value at position `index` and pushes the rest. */
  method RemoveAt<T>(s: seq<T>, index: int) returns (out: seq<T>)
    ensures out == WithoutAt(s, index)
  {
    out := [];
    var i := 0;
    for k := 0 to |s|
      invariant i == k
      invariant out == if 0 <= index < k then s[..index] + s[index + 1..k] else s[..k]
    {
      if i == index {
        i := i + 1;
        continue;
      }
      out := out + [s[k]];
      i := i + 1;
    }
    assert s[..|s|] == s;
  }

  /** Where a range removal starts: `index` clamped into the sequence. */
  function RangeStart(len: nat, index: int): (lo: nat)
    ensures lo <= len
  {
    Clamp(index, len)
  }

  /** Where a range removal ends: `count` (when positive) past the start, clamped into the sequence. */
  function RangeEnd(len: nat, index: int, count: int): (hi: nat)
    ensures RangeStart(len, index) <= hi <= len
  {
    Clamp(RangeStart(len, index) + (if count > 0 then count else 0), len)
  }

  /** `s` without the values from RangeStart up to RangeEnd. */
  function RangeRemoved<T>(s: seq<T>, index: int, count: int): seq<T> {
    s[..RangeStart(|s|, index)] + s[RangeEnd(|s|, index, count)..]
  }

  /**
   * The loop of RemoveRange on one iteration, with `count` as it stands when
   * the iteration starts: `i` counts pushed values, and each skipped value
   * decrements `count`. Returns the pushed values and the final `count`.
   */
  method RemoveRangeLoop<T>(s: seq<T>, index: int, count: int) returns (out: seq<T>, countAfter: int)
    ensures out == RangeRemoved(s, index, count)
    ensures countAfter == if count > 0 then count - (RangeEnd(|s|, index, count) - RangeStart(|s|, index)) else count
  {
    ghost var lo := RangeStart(|s|, index);
    ghost var hi := RangeEnd(|s|, index, count);
    out := [];
    countAfter := count;
    var i := 0;
    for k := 0 to |s|
      invariant i == |out|
      invariant out == s[..if k < lo then k else lo] + (if k > hi then s[hi..k] else [])
      invariant countAfter == if count > 0 then count - ((if k < hi then k else hi) - (if k < lo then k else lo)) else count
    {
      if i >= index && countAfter > 0 {
        countAfter := countAfter - 1;
        continue;
      }
      if k < lo {
        assert s[..k + 1] == s[..k] + [s[k]];
      } else {
        assert s[hi..k + 1] == s[hi..k] + [s[k]];
      }
      out := out + [s[k]];
      i := i + 1;
    }
    assert s[hi..|s|] == s[hi..];
  }

  /**
   * RemoveRange(index, count) with the count each iteration starts from kept
   * fixed: every iteration pushes RangeRemoved(s, index, count).
   */
  method RemoveRange<T>(s: seq<T>, index: int, count: int) returns (out: seq<T>)
    ensures out == RangeRemoved(s, index, count)
    ensures |out| == |s| - (RangeEnd(|s|, index, count) - RangeStart(|s|, index))
  {
    var remaining;
    out, remaining := RemoveRangeLoop(s, index, count);
  }

  /** Removing a range of one value is RemoveAt; removing a range of none changes nothing. */
  lemma RangeRemovedSmall<T>(s: seq<T>, index: int)
    ensures 0 <= index < |s| ==> RangeRemoved(s, index, 1) == WithoutAt(s, index)
    ensures RangeRemoved(s, index, 0) == s
  {
    assert s[..RangeStart(|s|, index)] + s[RangeStart(|s|, index)..] == s;
  }

  /**
   * The Enumerable RemoveRange returns, as the source builds it: the closure
   * captures the parameter `count` and decrements it in place, so the count
   * an iteration starts from is whatever the previous iteration left.
   */
  class RangeRemoval<T> {
    const source: seq<T>
    const index: int
    var count: int

    constructor (source: seq<T>, index: int, count: int)
      ensures this.source == source && this.index == index && this.count == count
    {
      this.source := source;
      this.index := index;
      this.count := count;
    }

    /** One iteration: pushes RangeRemoved with the current count, and leaves the decremented count behind. */
    method GetIter() returns (out: seq<T>)
      modifies this
      ensures out == RangeRemoved(source, index, old(count))
      ensures count == if old(count) > 0
        then old(count) - (RangeEnd(|source|, index, old(count)) - RangeStart(|source|, index))
        else old(count)
    {
      out, count := RemoveRangeLoop(source, index, count);
    }
  }

  /** Iterating [1,2,3,4,5].RemoveRange(1, 2) twice: the second iteration removes nothing. */
  method RemoveRangeIteratedTwice() returns (first: seq<int>, second: seq<int>)
    ensures first == [1, 4, 5]
    ensures second == [1, 2, 3, 4, 5]
  {
    var e := new RangeRemoval([1, 2, 3, 4, 5], 1, 2);
    first := e.GetIter();
    second := e.GetIter();
  }
}
