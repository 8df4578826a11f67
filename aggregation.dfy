/** Min, Max, Count and Sum: the reducers over a whole sequence. */
module Aggregation {
  import opened Options
  import opened Definition
  import opened Seqs
  import opened Orderings

  // ---------------------------------------------------------------------------
  // Min and Max

  /** The comparer Min uses: the given one, or the default "less" on the values as `any`. */
  function MinComparer<T>(comparer: Option<(T, T) -> bool>, toAny: T -> Value): (T, T) -> bool {
    match comparer
    case None => (a, b) => DefaultLessComparer(toAny(a), toAny(b))
    case Some(c) => c
  }

  /** The comparer Max uses: the given one, or the default "more" on the values as `any`. */
  function MaxComparer<T>(comparer: Option<(T, T) -> bool>, toAny: T -> Value): (T, T) -> bool {
    match comparer
    case None => (a, b) => DefaultMoreComparer(toAny(a), toAny(b))
    case Some(c) => c
  }

  /**
   * The value the Min/Max loop holds after the values of a non-empty `s`: the
   * first value, replaced by each later value `c` puts below the one held.
   */
  function Best<T>(s: seq<T>, c: (T, T) -> bool): T
    requires s != []
    decreases |s|
  {
    if |s| == 1 then s[0]
    else
      var t := Best(s[..|s| - 1], c);
      if c(s[|s| - 1], t) then s[|s| - 1] else t
  }

  /** What Min and Max return: the zero value of T on an empty sequence, and Best otherwise. */
  function Reduced<T>(s: seq<T>, c: (T, T) -> bool, zero: T): T {
    if s == [] then zero else Best(s, c)
  }

  /** The loop shared by Min and Max: `first` marks that no value has been read yet. */
  method BestLoop<T>(s: seq<T>, c: (T, T) -> bool, zero: T) returns (t: T)
    ensures t == Reduced(s, c, zero)
  {
    t := zero;
    var first := true;
    for i := 0 to |s|
      invariant first <==> i == 0
      invariant t == Reduced(s[..i], c, zero)
    {
      var value := s[i];
      if first {
        t := value;
        first := false;
      }
      if c(value, t) {
        t := value;
      }
      assert s[..i + 1][..i] == s[..i];
    }
    assert s[..|s|] == s;
  }

  /** Min(comparer): the zero value on an empty sequence; otherwise the value Best picks with MinComparer. */
  method Min<T>(s: seq<T>, zero: T, toAny: T -> Value, comparer: Option<(T, T) -> bool>) returns (t: T)
    ensures t == Reduced(s, MinComparer(comparer, toAny), zero)
  {
    t := BestLoop(s, MinComparer(comparer, toAny), zero);
  }

  /** Max(comparer): the zero value on an empty sequence; otherwise the value Best picks with MaxComparer. */
  method Max<T>(s: seq<T>, zero: T, toAny: T -> Value, comparer: Option<(T, T) -> bool>) returns (t: T)
    ensures t == Reduced(s, MaxComparer(comparer, toAny), zero)
  {
    t := BestLoop(s, MaxComparer(comparer, toAny), zero);
  }

  /** Min and Max of an empty sequence are the zero value. */
  lemma ReducedEmpty<T>(c: (T, T) -> bool, zero: T)
    ensures Reduced([], c, zero) == zero
  {
  }

  /** Best is always one of the values, whatever the comparer. */
  lemma {:induction false} BestIsElement<T>(s: seq<T>, c: (T, T) -> bool)
    requires s != []
    ensures Best(s, c) in s
    decreases |s|
  {
    if |s| > 1 {
      BestIsElement(s[..|s| - 1], c);
    }
  }

  /**
   * Under a strict weak order Best is a minimum, and the earliest one: it sits
   * at a position k, no value is below it, and every value before k is strictly
   * above it, so a later tie never replaces it.
   */
  lemma {:induction false} BestIsEarliestMinimum<T>(s: seq<T>, c: (T, T) -> bool) returns (k: nat)
    requires s != [] && StrictWeakOrderOn(c, s)
    ensures k < |s| && Best(s, c) == s[k]
    ensures forall j :: 0 <= j < |s| ==> !c(s[j], s[k])
    ensures forall j :: 0 <= j < k ==> c(s[k], s[j])
    decreases |s|
  {
    if |s| == 1 {
      k := 0;
    } else {
      var init := s[..|s| - 1];
      var x := s[|s| - 1];
      assert forall y | y in init :: y in s;
      k := BestIsEarliestMinimum(init, c);
      var t := s[k];
      assert x in s && t in s;
      if c(x, t) {
        forall j | 0 <= j < |s| - 1
          ensures c(x, s[j]) && !c(s[j], x)
        {
          assert s[j] in s;
          assert init[j] == s[j];
        }
        k := |s| - 1;
      } else {
        forall j | 0 <= j < |s|
          ensures !c(s[j], t)
        {
          if j < |s| - 1 {
            assert init[j] == s[j];
          }
        }
        forall j | 0 <= j < k
          ensures c(t, s[j])
        {
          assert init[j] == s[j];
        }
      }
    }
  }

  /** Count pushes nothing and counts every value: the result is the length. */
  method Count<T>(s: seq<T>) returns (i: int)
    ensures i == |s|
  {
    i := 0;
    for k := 0 to |s|
      invariant i == k
    {
      i := i + 1;
    }
  }

  // ---------------------------------------------------------------------------
  // Sum

  const Modulus64: int := 0x1_0000_0000_0000_0000

  /** The value Sum inspects for an upstream value: the selector's result, or the value itself as `any`. */
  function Inspect<T>(selector: Option<T -> Value>, toAny: T -> Value): T -> Value {
    match selector
    case None => toAny
    case Some(f) => f
  }

  function NotNumber(v: Value): bool {
    !IsNumber(v)
  }

  /** The exact total of the signed-integer values of `t`. */
  function IntTotal(t: seq<Value>): int {
    if t == [] then 0
    else IntTotal(t[..|t| - 1]) + (if t[|t| - 1].IntValue? then t[|t| - 1].i else 0)
  }

  /** The exact total of the unsigned-integer values of `t`. */
  function UintTotal(t: seq<Value>): int {
    if t == [] then 0
    else UintTotal(t[..|t| - 1]) + (if t[|t| - 1].UintValue? then t[|t| - 1].u else 0)
  }

  /** The exact total of the float values of `t`, without rounding. */
  function FloatTotal(t: seq<Value>): real {
    if t == [] then 0.0
    else FloatTotal(t[..|t| - 1]) + (if t[|t| - 1].FloatValue? then t[|t| - 1].f else 0.0)
  }

  /** The last value Sum inspects: the first non-number, else the last value, else nil. */
  function LastInspected(temps: seq<Value>): Value {
    var k := FirstIndex(temps, NotNumber);
    if k < |temps| then temps[k] else if temps != [] then temps[|temps| - 1] else Nil
  }

  /**
   * What Sum returns for the inspected values `temps`: only the values before
   * the first non-number count; the int64 total when the last value inspected
   * is a signed integer, the uint64 total when it is unsigned, and the float64
   * total otherwise, each total truncated to 64 bits once.
   */
  function SumOf(temps: seq<Value>): Value {
    SumResult(LastInspected(temps), temps[..FirstIndex(temps, NotNumber)])
  }

  /** The total of the numbers `counted` of the class of `last`: int64, uint64, else float64. */
  function SumResult(last: Value, counted: seq<Value>): Value {
    if IsInt(last) then IntValue(I64, WrapSigned(IntTotal(counted), Modulus64))
    else if IsUint(last) then UintValue(U64, WrapUnsigned(UintTotal(counted), Modulus64))
    else FloatValue(F64, FloatTotal(counted))
  }

  /** Adding in 64-bit signed arithmetic step by step lands where truncating the exact sum does. */
  lemma WrapSignedAdd(a: int, b: int)
    ensures WrapSigned(WrapSigned(a, Modulus64) + b, Modulus64) == WrapSigned(a + b, Modulus64)
  {
    var m := Modulus64;
    var r1 := WrapSigned(WrapSigned(a, m) + b, m);
    var r2 := WrapSigned(a + b, m);
    WrapSignedKeepsLowBits(WrapSigned(a, m) + b, m);
    WrapSignedKeepsLowBits(a, m);
    WrapSignedKeepsLowBits(a + b, m);
    var k1 :| WrapSigned(a, m) + b - r1 == k1 * m;
    var k0 :| a - WrapSigned(a, m) == k0 * m;
    var k2 :| a + b - r2 == k2 * m;
    assert r1 - r2 == (k2 - k0 - k1) * m;
    SameResidue(r1, r2, k2 - k0 - k1, m);
  }

  /** The same for 64-bit unsigned arithmetic. */
  lemma WrapUnsignedAdd(a: int, b: int)
    ensures WrapUnsigned(WrapUnsigned(a, Modulus64) + b, Modulus64) == WrapUnsigned(a + b, Modulus64)
  {
    var m := Modulus64;
    var r1 := WrapUnsigned(WrapUnsigned(a, m) + b, m);
    var r2 := WrapUnsigned(a + b, m);
    WrapUnsignedKeepsLowBits(WrapUnsigned(a, m) + b, m);
    WrapUnsignedKeepsLowBits(a, m);
    WrapUnsignedKeepsLowBits(a + b, m);
    var k1 :| WrapUnsigned(a, m) + b - r1 == k1 * m;
    var k0 :| a - WrapUnsigned(a, m) == k0 * m;
    var k2 :| a + b - r2 == k2 * m;
    assert r1 - r2 == (k2 - k0 - k1) * m;
    SameResidue(r1, r2, k2 - k0 - k1, m);
  }

  /** Two values less than one modulus apart that differ by a multiple of it are equal. */
  lemma SameResidue(r1: int, r2: int, k: int, m: int)
    requires m > 0 && r1 - r2 == k * m && -m < r1 - r2 < m
    ensures r1 == r2
  {
  }

  /** The three accumulators of the Sum loop. */
  datatype Accumulators = Accumulators(sumInt64: int, sumUint64: int, sumFloat64: real)

  /** The switch of the Sum loop: a number is added, in 64-bit arithmetic, to the accumulator of its class. */
  function AddTo(acc: Accumulators, x: Value): Accumulators {
    if IsInt(x) then acc.(sumInt64 := WrapSigned(acc.sumInt64 + x.i, Modulus64))
    else if IsUint(x) then acc.(sumUint64 := WrapUnsigned(acc.sumUint64 + x.u, Modulus64))
    else if IsFloat(x) then acc.(sumFloat64 := acc.sumFloat64 + x.f)
    else acc
  }

  /** The accumulators after the values of `t`, starting from zero. */
  function Running(t: seq<Value>): Accumulators {
    if t == [] then Accumulators(0, 0, 0.0) else AddTo(Running(t[..|t| - 1]), t[|t| - 1])
  }

  /** One more value inspected: the accumulators after temps[..i + 1] are those after temps[..i], with temps[i] added. */
  lemma RunningStep(temps: seq<Value>, i: int)
    requires 0 <= i < |temps|
    ensures Running(temps[..i + 1]) == AddTo(Running(temps[..i]), temps[i])
  {
    assert temps[..i + 1][..i] == temps[..i];
  }

  /** Adding in 64-bit signed arithmetic step by step lands where truncating the exact total does. */
  lemma {:induction false} IntRunningIsTruncatedTotal(t: seq<Value>)
    ensures Running(t).sumInt64 == WrapSigned(IntTotal(t), Modulus64)
  {
    if t != [] {
      var init := t[..|t| - 1];
      var x := t[|t| - 1];
      IntRunningIsTruncatedTotal(init);
      NumberClasses(x);
      if x.IntValue? {
        WrapSignedAdd(IntTotal(init), x.i);
      }
    }
  }

  /** The same for the uint64 accumulator. */
  lemma {:induction false} UintRunningIsTruncatedTotal(t: seq<Value>)
    ensures Running(t).sumUint64 == WrapUnsigned(UintTotal(t), Modulus64)
  {
    if t != [] {
      var init := t[..|t| - 1];
      var x := t[|t| - 1];
      UintRunningIsTruncatedTotal(init);
      NumberClasses(x);
      if x.UintValue? {
        WrapUnsignedAdd(UintTotal(init), x.u);
      }
    }
  }

  /** The float64 accumulator is the exact total (no rounding is modelled). */
  lemma {:induction false} FloatRunningIsTotal(t: seq<Value>)
    ensures Running(t).sumFloat64 == FloatTotal(t)
  {
    if t != [] {
      FloatRunningIsTotal(t[..|t| - 1]);
      NumberClasses(t[|t| - 1]);
    }
  }

  /**
   * Sum(selector): three 64-bit accumulators, one per numeric class; the loop
   * stops at the first value that is not a number, and `temp`, the last value
   * inspected, picks which accumulator is returned.
   */
  method Sum<T>(s: seq<T>, selector: Option<T -> Value>, toAny: T -> Value) returns (r: Value)
    ensures r == SumOf(MapSeq(s, Inspect(selector, toAny)))
  {
    ghost var temps := MapSeq(s, Inspect(selector, toAny));
    InspectedValues(s, selector, toAny, temps);
    r := SumInspected(s, selector, toAny, temps);
  }

  /** Each inspected value is the selector's result, or the upstream value as `any`. */
  lemma InspectedValues<T>(s: seq<T>, selector: Option<T -> Value>, toAny: T -> Value, temps: seq<Value>)
    requires temps == MapSeq(s, Inspect(selector, toAny))
    ensures |temps| == |s|
    ensures forall j :: 0 <= j < |s| ==> temps[j] == if selector.Some? then selector.value(s[j]) else toAny(s[j])
  {
  }

  /** The loop of Sum, over the upstream values `s` whose inspected values are `temps`. */
  method SumInspected<T>(s: seq<T>, selector: Option<T -> Value>, toAny: T -> Value, ghost temps: seq<Value>)
    returns (r: Value)
    requires |temps| == |s|
    requires forall j :: 0 <= j < |s| ==> temps[j] == if selector.Some? then selector.value(s[j]) else toAny(s[j])
    ensures r == SumOf(temps)
  {
    var sumInt64 := 0;
    var sumUint64 := 0;
    var sumFloat64 := 0.0;
    var temp := Nil;
    var i := 0;
    while i < |s|
      invariant 0 <= i <= |s| && forall j :: 0 <= j < i ==> IsNumber(temps[j])
      invariant temp == if i == 0 then Nil else temps[i - 1]
      invariant Accumulators(sumInt64, sumUint64, sumFloat64) == Running(temps[..i])
    {
      temp := toAny(s[i]);
      if selector.Some? {
        temp := selector.value(s[i]);
      }
      if !IsNumber(temp) {
        break;
      }
      NumbersExtend(temps, i);
      sumInt64, sumUint64, sumFloat64 := SumStep(sumInt64, sumUint64, sumFloat64, temp, temps, i);
      i := i + 1;
    }
    r := SumReturn(sumInt64, sumUint64, sumFloat64, temp, temps, i);
  }

  /** The return of Sum: the accumulator of the class of `temp`, the last value inspected; float64 when it is no integer. */
  method SumReturn(sumInt64: int, sumUint64: int, sumFloat64: real, temp: Value, ghost temps: seq<Value>, ghost i: int)
    returns (r: Value)
    requires 0 <= i <= |temps| && forall j :: 0 <= j < i ==> IsNumber(temps[j])
    requires i == |temps| || !IsNumber(temps[i])
    requires temp == if i < |temps| then temps[i] else if i == 0 then Nil else temps[i - 1]
    requires Accumulators(sumInt64, sumUint64, sumFloat64) == Running(temps[..i])
    ensures r == SumOf(temps)
  {
    SumAt(temps, i);
    SumResultIsRunning(temp, temps[..i]);
    if IsInt(temp) {
      return IntValue(I64, sumInt64);
    }
    if IsUint(temp) {
      return UintValue(U64, sumUint64);
    }
    return FloatValue(F64, sumFloat64);
  }

  /** A number at position i extends a prefix of numbers by one. */
  lemma NumbersExtend(temps: seq<Value>, i: int)
    requires 0 <= i < |temps| && IsNumber(temps[i])
    requires forall j :: 0 <= j < i ==> IsNumber(temps[j])
    ensures forall j :: 0 <= j < i + 1 ==> IsNumber(temps[j])
  {
  }

  /** One pass of the Sum loop over a number: the accumulators after temps[..i] become those after temps[..i + 1]. */
  method SumStep(sumInt64: int, sumUint64: int, sumFloat64: real, temp: Value, ghost temps: seq<Value>, ghost i: int)
    returns (si: int, su: int, sf: real)
    requires 0 <= i < |temps| && temp == temps[i] && IsNumber(temp)
    requires Accumulators(sumInt64, sumUint64, sumFloat64) == Running(temps[..i])
    ensures Accumulators(si, su, sf) == Running(temps[..i + 1])
  {
    RunningStep(temps, i);
    si, su, sf := Accumulate(sumInt64, sumUint64, sumFloat64, temp);
  }

  /** The switch of the Sum loop, on the three accumulator variables. */
  method Accumulate(sumInt64: int, sumUint64: int, sumFloat64: real, temp: Value)
    returns (si: int, su: int, sf: real)
    requires IsNumber(temp)
    ensures Accumulators(si, su, sf) == AddTo(Accumulators(sumInt64, sumUint64, sumFloat64), temp)
  {
    si, su, sf := sumInt64, sumUint64, sumFloat64;
    NumberClasses(temp);
    if IsInt(temp) {
      si := WrapSigned(sumInt64 + temp.i, Modulus64);
    } else if IsUint(temp) {
      su := WrapUnsigned(sumUint64 + temp.u, Modulus64);
    } else if IsFloat(temp) {
      sf := sumFloat64 + temp.f;
    }
  }

  /**
   * Where the Sum loop stops, at position i (every value before it a number,
   * and i the end or a non-number): the values before i count, and `temp` is
   * the last value inspected.
   */
  lemma SumAt(temps: seq<Value>, i: int)
    requires 0 <= i <= |temps| && forall j :: 0 <= j < i ==> IsNumber(temps[j])
    requires i == |temps| || !IsNumber(temps[i])
    ensures SumOf(temps) == SumResult(if i < |temps| then temps[i] else if i == 0 then Nil else temps[i - 1], temps[..i])
  {
    FirstIndexAt(temps, i);
  }

  /** The accumulator the loop returns holds the truncated total SumResult names. */
  lemma SumResultIsRunning(last: Value, counted: seq<Value>)
    ensures var acc := Running(counted);
      SumResult(last, counted) ==
        if IsInt(last) then IntValue(I64, acc.sumInt64)
        else if IsUint(last) then UintValue(U64, acc.sumUint64)
        else FloatValue(F64, acc.sumFloat64)
  {
    IntRunningIsTruncatedTotal(counted);
    UintRunningIsTruncatedTotal(counted);
    FloatRunningIsTotal(counted);
  }

  /** Over signed integers whose total fits in 64 bits, Sum is their exact total, as an int64. */
  lemma SumOfInts(temps: seq<Value>)
    requires temps != [] && forall i :: 0 <= i < |temps| ==> temps[i].IntValue?
    requires -Modulus64 / 2 <= IntTotal(temps) < Modulus64 / 2
    ensures SumOf(temps) == IntValue(I64, IntTotal(temps))
  {
    AllNumbers(temps);
    assert temps[..|temps|] == temps;
    var last := temps[|temps| - 1];
    assert LastInspected(temps) == last;
    assert SumOf(temps) == SumResult(last, temps);
    NumberClasses(last);
    WrapSignedKeepsLowBits(IntTotal(temps), Modulus64);
  }

  /** Over unsigned integers whose total fits in 64 bits, Sum is their exact total, as a uint64. */
  lemma SumOfUints(temps: seq<Value>)
    requires temps != [] && forall i :: 0 <= i < |temps| ==> temps[i].UintValue? && temps[i].u >= 0
    requires UintTotal(temps) < Modulus64
    ensures SumOf(temps) == UintValue(U64, UintTotal(temps))
  {
    AllNumbers(temps);
    assert temps[..|temps|] == temps;
    var last := temps[|temps| - 1];
    assert LastInspected(temps) == last;
    assert SumOf(temps) == SumResult(last, temps);
    NumberClasses(last);
    UintTotalNonNegative(temps);
    WrapUnsignedKeepsLowBits(UintTotal(temps), Modulus64);
  }

  /** With every value a number, Sum inspects them all. */
  lemma {:induction false} AllNumbers(t: seq<Value>)
    requires forall i :: 0 <= i < |t| ==> t[i].IntValue? || t[i].UintValue?
    ensures FirstIndex(t, NotNumber) == |t|
  {
    if t != [] {
      NumberClasses(t[0]);
      AllNumbers(t[1..]);
    }
  }

  lemma {:induction false} UintTotalNonNegative(t: seq<Value>)
    requires forall i :: 0 <= i < |t| ==> t[i].UintValue? && t[i].u >= 0
    ensures UintTotal(t) >= 0
  {
    if t != [] {
      UintTotalNonNegative(t[..|t| - 1]);
    }
  }

  /**
   * Nothing after the first non-number counts, and the non-number decides the
   * result's kind: whatever integers came before, Sum returns the float64 total.
   */
  lemma SumStopsAtNonNumber(a: seq<Value>, x: Value, b: seq<Value>)
    requires forall i :: 0 <= i < |a| ==> IsNumber(a[i])
    requires !IsNumber(x)
    ensures SumOf(a + [x] + b) == FloatValue(F64, FloatTotal(a))
  {
    var t := a + [x] + b;
    FirstIndexAt(t, |a|);
    assert t[..|a|] == a;
  }

  /** When the values before position k are numbers and the one at k is not, the first non-number is at k. */
  lemma {:induction false} FirstIndexAt(t: seq<Value>, k: nat)
    requires k <= |t| && (k == |t| || !IsNumber(t[k])) && forall i :: 0 <= i < k ==> IsNumber(t[i])
    ensures FirstIndex(t, NotNumber) == k
  {
    if k > 0 {
      FirstIndexAt(t[1..], k - 1);
    }
  }

  /** With no value at all, Sum returns the float64 zero. */
  lemma SumOfNothing(temps: seq<Value>)
    requires temps == []
    ensures SumOf(temps) == FloatValue(F64, 0.0)
  {
    assert FirstIndex(temps, NotNumber) == 0;
    assert LastInspected(temps) == Nil;
    assert temps[..0] == [];
    NumberClasses(Nil);
  }
}
