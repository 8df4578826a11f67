/**
 * The `definition` package: the callback shapes, the run-time kind tests on
 * values of Go's `any`, the default comparers and the integer conversions.
 *
 * A Go `any` is modelled by `Value`. Every Go value falls into exactly one
 * constructor: the signed and unsigned integer kinds carry their width, the
 * float kinds an exact real, and every value of a kind the library does not
 * inspect (struct, map, func, reference, ...) is an `Opaque` token.
 */
module Definition {
  import opened Options

  datatype IntWidth = I | I8 | I16 | I32 | I64        // int, int8, ..., int64
  datatype UintWidth = U | U8 | U16 | U32 | U64       // uint, uint8, ..., uint64
  datatype FloatWidth = F32 | F64                     // float32, float64

  datatype Value =
    | IntValue(iw: IntWidth, i: int)
    | UintValue(uw: UintWidth, u: int)
    | FloatValue(fw: FloatWidth, f: real)
    | StringValue(s: string)
    | BoolValue(b: bool)
    | SliceValue(elems: seq<Value>)
    | Nil
    | Opaque(id: int)

  /** The reflect.Kind of a value; a nil interface has kind Invalid. */
  datatype Kind =
    | Invalid | Bool
    | Int | Int8 | Int16 | Int32 | Int64
    | Uint | Uint8 | Uint16 | Uint32 | Uint64
    | Float32 | Float64
    | String | Slice | OtherKind

  function KindOf(v: Value): Kind {
    match v
    case IntValue(w, _) => (match w case I => Int case I8 => Int8 case I16 => Int16 case I32 => Int32 case I64 => Int64)
    case UintValue(w, _) => (match w case U => Uint case U8 => Uint8 case U16 => Uint16 case U32 => Uint32 case U64 => Uint64)
    case FloatValue(w, _) => (match w case F32 => Float32 case F64 => Float64)
    case StringValue(_) => String
    case BoolValue(_) => Bool
    case SliceValue(_) => Slice
    case Nil => Invalid
    case Opaque(_) => OtherKind
  }

  /** 2^w for the width w of a kind; `int` is taken to be 64 bits wide, as on every 64-bit Go platform. */
  function IntModulus(w: IntWidth): int {
    match w
    case I => 0x1_0000_0000_0000_0000 case I8 => 0x100 case I16 => 0x1_0000
    case I32 => 0x1_0000_0000 case I64 => 0x1_0000_0000_0000_0000
  }

  function UintModulus(w: UintWidth): int {
    match w
    case U => 0x1_0000_0000_0000_0000 case U8 => 0x100 case U16 => 0x1_0000
    case U32 => 0x1_0000_0000 case U64 => 0x1_0000_0000_0000_0000
  }

  /** A value a Go program can hold: every integer lies in the range of its width. */
  predicate Fits(v: Value) {
    match v
    case IntValue(w, x) => -IntModulus(w) / 2 <= x < IntModulus(w) / 2
    case UintValue(w, x) => 0 <= x < UintModulus(w)
    case _ => true
  }

  predicate IsInt(v: Value) {
    match KindOf(v)
    case Int | Int8 | Int16 | Int32 | Int64 => true
    case _ => false
  }

  predicate IsUint(v: Value) {
    match KindOf(v)
    case Uint | Uint8 | Uint16 | Uint32 | Uint64 => true
    case _ => false
  }

  predicate IsFloat(v: Value) {
    match KindOf(v)
    case Float32 | Float64 => true
    case _ => false
  }

  predicate IsNumber(v: Value) {
    IsInt(v) || IsUint(v) || IsFloat(v)
  }

  /** The three numeric classes are disjoint, and each is exactly one constructor. */
  lemma NumberClasses(v: Value)
    ensures IsInt(v) <==> v.IntValue?
    ensures IsUint(v) <==> v.UintValue?
    ensures IsFloat(v) <==> v.FloatValue?
    ensures !(IsInt(v) && IsUint(v)) && !(IsInt(v) && IsFloat(v)) && !(IsUint(v) && IsFloat(v))
    ensures IsNumber(v) <==> v.IntValue? || v.UintValue? || v.FloatValue?
  {
  }

  // ---------------------------------------------------------------------------
  // String order. Go compares strings byte by byte; UTF-8 encodes code points so
  // that byte order and code point order agree, so comparing characters is the same.

  predicate LexLess(a: string, b: string)
    decreases |a|
  {
    |b| > 0 && (|a| == 0 || a[0] < b[0] || (a[0] == b[0] && LexLess(a[1..], b[1..])))
  }

  lemma {:induction false} LexLessIrreflexive(a: string)
    ensures !LexLess(a, a)
  {
    if |a| > 0 {
      LexLessIrreflexive(a[1..]);
    }
  }

  lemma {:induction false} LexLessTransitive(a: string, b: string, c: string)
    requires LexLess(a, b) && LexLess(b, c)
    ensures LexLess(a, c)
    decreases |a|
  {
    if |a| > 0 && a[0] == b[0] && b[0] == c[0] {
      LexLessTransitive(a[1..], b[1..], c[1..]);
    }
  }

  lemma {:induction false} LexLessTotal(a: string, b: string)
    ensures a == b || LexLess(a, b) || LexLess(b, a)
    decreases |a|
  {
    if |a| > 0 && |b| > 0 && a[0] == b[0] {
      LexLessTotal(a[1..], b[1..]);
      if a[1..] == b[1..] {
        assert a == [a[0]] + a[1..] && b == [b[0]] + b[1..];
      }
    }
  }

  lemma LexLessAsymmetric(a: string, b: string)
    requires LexLess(a, b)
    ensures !LexLess(b, a)
  {
    if LexLess(b, a) {
      LexLessTransitive(a, b, a);
      LexLessIrreflexive(a);
    }
  }

  // ---------------------------------------------------------------------------
  // Default comparers. Go switches on the kind of the first operand and reads the
  // second through the same accessor. When the second is of another class Go
  // panics for a number or bool first operand, which this model renders as
  // `false`; for a string first operand Go compares against the second's
  // "<T Value>" rendering, which the model, lacking type names, also renders as
  // `false`.

  function DefaultLessComparer(t1: Value, t2: Value): bool {
    match KindOf(t1)
    case Int | Int8 | Int16 | Int32 | Int64 => t2.IntValue? && t1.i < t2.i
    case Uint | Uint8 | Uint16 | Uint32 | Uint64 => t2.UintValue? && t1.u < t2.u
    case Float32 | Float64 => t2.FloatValue? && t1.f < t2.f
    case String => t2.StringValue? && LexLess(t1.s, t2.s)
    case Bool => t2.BoolValue? && !t1.b && t2.b
    case _ => false
  }

  function DefaultMoreComparer(t1: Value, t2: Value): bool {
    match KindOf(t1)
    case Int | Int8 | Int16 | Int32 | Int64 => t2.IntValue? && t1.i > t2.i
    case Uint | Uint8 | Uint16 | Uint32 | Uint64 => t2.UintValue? && t1.u > t2.u
    case Float32 | Float64 => t2.FloatValue? && t1.f > t2.f
    case String => t2.StringValue? && LexLess(t2.s, t1.s)
    case Bool => t2.BoolValue? && t1.b && !t2.b
    case _ => false
  }

  /** The primitive class a default comparer dispatches on. */
  datatype Class = SignedClass | UnsignedClass | FloatClass | StringClass | BoolClass | NonPrimitive

  function ClassOf(v: Value): Class {
    match v
    case IntValue(_, _) => SignedClass
    case UintValue(_, _) => UnsignedClass
    case FloatValue(_, _) => FloatClass
    case StringValue(_) => StringClass
    case BoolValue(_) => BoolClass
    case _ => NonPrimitive
  }

  lemma DefaultLessOnBool(a: bool, b: bool)
    ensures DefaultLessComparer(BoolValue(a), BoolValue(b)) <==> !a && b
    ensures DefaultMoreComparer(BoolValue(a), BoolValue(b)) <==> a && !b
  {
  }

  /** Neither default comparer ever holds when its first operand is not a primitive. */
  lemma DefaultComparersOnNonPrimitive(a: Value, b: Value)
    requires ClassOf(a) == NonPrimitive
    ensures !DefaultLessComparer(a, b) && !DefaultMoreComparer(a, b)
  {
  }

  /** "More" is "less" with the operands swapped, on every pair of values. */
  lemma MoreIsSwappedLess(a: Value, b: Value)
    ensures DefaultMoreComparer(a, b) == DefaultLessComparer(b, a)
  {
  }

  /**
   * On values of one primitive class the default "less" is a strict order:
   * irreflexive, asymmetric and transitive, and two values neither of which is
   * less than the other are interchangeable for it (negative transitivity).
   */
  lemma DefaultLessStrictOrder(a: Value, b: Value, c: Value)
    requires ClassOf(a) == ClassOf(b) == ClassOf(c) != NonPrimitive
    ensures !DefaultLessComparer(a, a)
    ensures DefaultLessComparer(a, b) ==> !DefaultLessComparer(b, a)
    ensures DefaultLessComparer(a, b) && DefaultLessComparer(b, c) ==> DefaultLessComparer(a, c)
    ensures !DefaultLessComparer(a, b) && !DefaultLessComparer(b, c) ==> !DefaultLessComparer(a, c)
  {
    if ClassOf(a) == StringClass {
      LexLessIrreflexive(a.s);
      if LexLess(a.s, b.s) { LexLessAsymmetric(a.s, b.s); }
      if LexLess(a.s, b.s) && LexLess(b.s, c.s) { LexLessTransitive(a.s, b.s, c.s); }
      if !LexLess(a.s, b.s) && !LexLess(b.s, c.s) {
        LexLessTotal(a.s, b.s);
        LexLessTotal(b.s, c.s);
        if LexLess(c.s, b.s) && LexLess(b.s, a.s) {
          LexLessTransitive(c.s, b.s, a.s);
          LexLessAsymmetric(c.s, a.s);
        } else if LexLess(c.s, b.s) {
          LexLessAsymmetric(c.s, b.s);
        } else if LexLess(b.s, a.s) {
          LexLessAsymmetric(b.s, a.s);
        } else {
          LexLessIrreflexive(a.s);
        }
      }
    }
  }

  // ---------------------------------------------------------------------------
  // Integer conversions. Go converts between integer types by sign- or
  // zero-extending to infinite precision and keeping the low-order bits of the
  // target width.

  /** `x` and `r` agree in their low-order bits: they differ by a multiple of the modulus `m` = 2^bits. */
  ghost predicate SameLowBits(x: int, r: int, m: int) {
    exists k: int :: x - r == k * m
  }

  /** Truncation to an unsigned width whose modulus is `m`. */
  function WrapUnsigned(x: int, m: int): (r: int)
    requires m >= 1
    ensures 0 <= r < m
  {
    x % m
  }

  /** Truncation to a signed (two's complement) width whose modulus is `m`. */
  function WrapSigned(x: int, m: int): (r: int)
    requires m >= 2 && m % 2 == 0
    ensures -m / 2 <= r < m / 2
  {
    WrapUnsigned(x + m / 2, m) - m / 2
  }

  /** Unsigned truncation keeps the low-order bits and leaves a value already in range alone. */
  lemma WrapUnsignedKeepsLowBits(x: int, m: int)
    requires m >= 1
    ensures SameLowBits(x, WrapUnsigned(x, m), m)
    ensures 0 <= x < m ==> WrapUnsigned(x, m) == x
    ensures m <= x < 2 * m ==> WrapUnsigned(x, m) == x - m
  {
    DivisionIdentity(x, m);
    ModOneAbove(x, m);
  }

  /** Signed truncation keeps the low-order bits and leaves a value already in range alone. */
  lemma WrapSignedKeepsLowBits(x: int, m: int)
    requires m >= 2 && m % 2 == 0
    ensures SameLowBits(x, WrapSigned(x, m), m)
    ensures -m / 2 <= x < m / 2 ==> WrapSigned(x, m) == x
    ensures m / 2 <= x < m ==> WrapSigned(x, m) == x - m
  {
    var h := m / 2;
    WrapUnsignedKeepsLowBits(x + h, m);
    var u := WrapUnsigned(x + h, m);
    var k :| x + h - u == k * m;
    assert x - (u - h) == k * m;
  }

  lemma DivisionIdentity(x: int, m: int)
    requires m >= 1
    ensures SameLowBits(x, x % m, m)
    ensures 0 <= x < m ==> x % m == x
  {
    assert x - x % m == (x / m) * m;
  }

  /** One modulus above the range, the remainder is one subtraction away. */
  lemma ModOneAbove(x: int, m: int)
    requires 1 <= m
    ensures m <= x < 2 * m ==> x % m == x - m
  {
    if x < m || 2 * m <= x { return; }
    var q := x / m;
    assert x == q * m + x % m;
    assert q == 1;
  }

  /**
   * Converting an integer to the signed kind of `target`: intToActualInt for an
   * int-kinded value and uintToActualInt for a uint-kinded one, which differ only
   * in the accessor they read the value through.
   */
  function ToActualInt(target: IntWidth, x: int): (r: Value)
    ensures r.IntValue? && r.iw == target && Fits(r)
    ensures SameLowBits(x, r.i, IntModulus(target))
    ensures -IntModulus(target) / 2 <= x < IntModulus(target) / 2 ==> r.i == x
  {
    WrapSignedKeepsLowBits(x, IntModulus(target));
    IntValue(target, WrapSigned(x, IntModulus(target)))
  }

  /**
   * Converting an integer to the unsigned kind of `target`: intToActualUint for
   * an int-kinded value and uintToActualUint for a uint-kinded one.
   */
  function ToActualUint(target: UintWidth, x: int): (r: Value)
    ensures r.UintValue? && r.uw == target && Fits(r)
    ensures SameLowBits(x, r.u, UintModulus(target))
    ensures 0 <= x < UintModulus(target) ==> r.u == x
  {
    WrapUnsignedKeepsLowBits(x, UintModulus(target));
    UintValue(target, WrapUnsigned(x, UintModulus(target)))
  }

  /**
   * DefaultConvertToNumber[T](value): `target` is the zero value of T; only its
   * kind is read. A non-numeric T gets its zero value back; a non-numeric
   * `value` leaves the zero value of T.
   */
  function DefaultConvertToNumber(target: Value, value: Value): (r: Value)
    requires !IsFloat(target) && !IsFloat(value)
    ensures !IsNumber(target) ==> r == target
    ensures IsNumber(target) && !IsNumber(value) ==> r == target
    ensures IsInt(target) && IsNumber(value) ==>
      r.IntValue? && r.iw == target.iw && Fits(r) &&
      SameLowBits(if value.IntValue? then value.i else value.u, r.i, IntModulus(target.iw))
    ensures IsUint(target) && IsNumber(value) ==>
      r.UintValue? && r.uw == target.uw && Fits(r) &&
      SameLowBits(if value.IntValue? then value.i else value.u, r.u, UintModulus(target.uw))
    ensures Fits(value) && IsNumber(value) && KindOf(value) == KindOf(target) ==> r == value
  {
    if IsInt(target) then
      if IsUint(value) then ToActualInt(target.iw, value.u)
      else if IsInt(value) then ToActualInt(target.iw, value.i)
      else target
    else if IsUint(target) then
      if IsUint(value) then ToActualUint(target.uw, value.u)
      else if IsInt(value) then ToActualUint(target.uw, value.i)
      else target
    else target
  }

  // ---------------------------------------------------------------------------
  // Optional callbacks. Go passes them as a variadic slice (`comparer ...Comparer[T]`);
  // a nil function in it is `None`. A nil slice and an empty slice are alike here.

  predicate IsEmptyOrNil<X>(t: seq<Option<X>>) {
    |t| == 0 || t[0].None?
  }

  /** The callback an operator uses: the first one, unless IsEmptyOrNil. */
  function Chosen<X>(t: seq<Option<X>>): (r: Option<X>)
    ensures r.Some? <==> !IsEmptyOrNil(t)
    ensures r.Some? ==> r == t[0]
  {
    if IsEmptyOrNil(t) then None else t[0]
  }
}
