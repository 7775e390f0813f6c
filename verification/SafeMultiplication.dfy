/** Checked multiplication of integers of any two types, the product having the type of the first. */
module SafeMultiplication {
  import opened Wrappers
  import opened IntTypes
  import opened SafeCasts

  datatype MultiplicationState =
    | CastInt | CastInt64 | CastUint | CastUint64
    | Uint64Uint | Uint64Uint64 | Uint64Int | Uint64Int64 | UintUint64 | UintInt64
    | Int64Uint | Int64Int64 | Int64Int | IntUint64 | IntInt64 | Int64Uint64 | Error

  function MultiplicationMethod(T: IntType, U: IntType): MultiplicationState {
    if InZone(UintLT32_UintLT32, T, U) then CastUint
    else if InZone(Uint32_UintLT64, T, U) || InZone(UintLT32_Uint32, T, U) then CastUint64
    else if T.IsUint64() && U.IsUint64() then Uint64Uint64
    else if InZone(Uint64_Uint, T, U) then Uint64Uint
    else if InZone(UintLT64_Uint64, T, U) then UintUint64
    else if InZone(UintLT32_IntLT32, T, U) then CastInt
    else if InZone(Uint32_IntLT64, T, U) || InZone(UintLT32_Int32, T, U) then CastInt64
    else if InZone(Uint64_Int, T, U) then Uint64Int
    else if InZone(UintLT64_Int64, T, U) then UintInt64
    else if InZone(Uint64_Int64, T, U) then Uint64Int64
    else if InZone(IntLT32_IntLT32, T, U) then CastInt
    else if InZone(Int32_IntLT64, T, U) || InZone(IntLT32_Int32, T, U) then CastInt64
    else if InZone(Int64_Int64, T, U) then Int64Int64
    else if InZone(Int64_Int, T, U) then Int64Int
    else if InZone(IntLT64_Int64, T, U) then IntInt64
    else if InZone(IntLT32_UintLT32, T, U) then CastInt
    else if InZone(Int32_UintLT32, T, U) || InZone(IntLT64_Uint32, T, U) then CastInt64
    else if InZone(Int64_UintLT64, T, U) then Int64Uint
    else if InZone(Int_Uint64, T, U) then IntUint64
    else if InZone(Int64_Uint64, T, U) then Int64Uint64
    else Error
  }

  /** What the helper for each state is given. */
  predicate Suits(m: MultiplicationState, T: IntType, U: IntType) {
    match m
    case CastInt => T.bits < 32 && U.bits < 32 && (T.isSigned || U.isSigned)
    case CastInt64 => T.bits <= 32 && U.bits <= 32 && (T.isSigned || U.isSigned)
    case CastUint => T.bits < 32 && U.bits < 32 && !T.isSigned && !U.isSigned
    case CastUint64 => T.bits <= 32 && U.bits <= 32 && !T.isSigned && !U.isSigned
    case Uint64Uint => T.IsUint64() && !U.isSigned && U.bits <= 32
    case Uint64Uint64 => T.IsUint64() && U.IsUint64()
    case Uint64Int => T.IsUint64() && U.isSigned && U.bits <= 32
    case Uint64Int64 => T.IsUint64() && U.IsInt64()
    case UintUint64 => !T.isSigned && T.bits <= 32 && U.IsUint64()
    case UintInt64 => !T.isSigned && T.bits <= 32 && U.IsInt64()
    case Int64Uint => T.IsInt64() && !U.isSigned && U.bits <= 32
    case Int64Int64 => T.IsInt64() && U.IsInt64()
    case Int64Int => T.IsInt64() && U.isSigned && U.bits <= 32
    case IntUint64 => T.isSigned && T.bits <= 32 && U.IsUint64()
    case IntInt64 => T.isSigned && T.bits <= 32 && U.IsInt64()
    case Int64Uint64 => T.IsInt64() && U.IsUint64()
    case Error => false
  }

  /** No pair of types is left without a method, and each gets one that suits it. */
  lemma MethodSuits(T: IntType, U: IntType)
    requires T.Ok() && U.Ok()
    ensures Suits(MultiplicationMethod(T, U), T, U)
  {
    if T.isSigned { SignedSuits(T, U); } else { UnsignedSuits(T, U); }
  }

  lemma UnsignedSuits(T: IntType, U: IntType)
    requires T.Ok() && U.Ok() && !T.isSigned
    ensures Suits(MultiplicationMethod(T, U), T, U)
  {
    match ZoneOf(T, U)
    case _ => assert InZone(ZoneOf(T, U), T, U);
  }

  lemma SignedSuits(T: IntType, U: IntType)
    requires T.Ok() && U.Ok() && T.isSigned
    ensures Suits(MultiplicationMethod(T, U), T, U)
  {
    match ZoneOf(T, U)
    case _ => assert InZone(ZoneOf(T, U), T, U);
  }

  const TWO32 := 0x1_0000_0000
  const TWO64 := 0x1_0000_0000_0000_0000

  lemma ProductBound(t: int, u: int, a: int, b: int)
    requires -a <= t <= a && -b <= u <= b
    ensures -(a * b) <= t * u <= a * b
    ensures t >= 0 && u >= 0 ==> 0 <= t * u
  {
    var x, y := if t < 0 then -t else t, if u < 0 then -u else u;
    assert 0 <= x * y <= a * b by { assert x * y <= a * y <= a * b; }
    assert t * u == x * y || t * u == -(x * y);
  }

  /** The magnitude of a negative number, computed by complementing its bits. */
  function Abs(T: IntType, t: int): (r: int)
    requires T.Ok() && T.isSigned && T.Fits(t) && t < 0
    ensures r == -t
  {
    if T.IsLT64Bit() then UINT32.Cast((UINT32.MaxInt() - UINT32.Cast(t)) + 1)
    else UINT64.Cast((UINT64.MaxInt() - UINT64.Cast(t)) + 1)
  }

  /** Negation of an unsigned magnitude as a signed number. */
  function SignedNegation(T: IntType, x: int): (r: int)
    requires T == INT32 || T == INT64
    requires 0 <= x <= T.MaxInt() + 1
    ensures r == -x
  {
    var unsigned := IntType(false, T.bits);
    T.Cast(unsigned.Cast((unsigned.MaxInt() - unsigned.Cast(x)) + 1))
  }

  // ---------- 64-bit products from 32-bit halves ----------

  lemma Halves(a: int)
    requires 0 <= a < TWO64
    ensures 0 <= a / TWO32 < TWO32 && 0 <= a % TWO32 < TWO32 && a == a / TWO32 * TWO32 + a % TWO32
  {
  }

  /** The product when one of the factors has no high half: the cross product must have none either,
      and adding the low product must not wrap around. */
  lemma HalvesProduct(high: nat, low: nat, b: nat)
    requires high < TWO32 && low < TWO32 && b < TWO32
    ensures (high * TWO32 + low) * b == high * b * TWO32 + low * b
    ensures 0 <= low * b < TWO64 && 0 <= high * b < TWO64
    ensures high * b / TWO32 != 0 ==> (high * TWO32 + low) * b >= TWO64
    ensures high * b / TWO32 == 0 ==> (high * b * TWO32) % TWO64 == high * b * TWO32
  {
    ProductBound(low, b, TWO32 - 1, TWO32 - 1);
    ProductBound(high, b, TWO32 - 1, TWO32 - 1);
  }

  lemma HighHalves(aHigh: nat, aLow: nat, bHigh: nat, bLow: nat)
    requires aHigh > 0 && bHigh > 0
    ensures (aHigh * TWO32 + aLow) * (bHigh * TWO32 + bLow) >= TWO64
  {
    var a, b := aHigh * TWO32 + aLow, bHigh * TWO32 + bLow;
    assert a * b >= TWO32 * b by { assert a >= TWO32; }
  }

  /** Adding modulo 2^64 wraps around exactly when the sum gets smaller. */
  lemma AddWraps(x: nat, y: nat)
    requires x < TWO64 && y < TWO64
    ensures (x + y) % TWO64 < y <==> x + y >= TWO64
    ensures x + y < TWO64 ==> (x + y) % TWO64 == x + y
  {
  }

  method RegMultiplyUint64Uint64(a: int, b: int) returns (r: Option<int>)
    requires UINT64.Fits(a) && UINT64.Fits(b)
    ensures r == Checked(UINT64, a * b)
  {
    var aHigh, aLow := a / TWO32, a % TWO32;
    var bHigh, bLow := b / TWO32, b % TWO32;
    Halves(a);
    Halves(b);
    var ret := 0;
    if aHigh == 0 {
      HalvesProduct(bHigh, bLow, aLow);
      if bHigh != 0 {
        ret := aLow * bHigh;
      }
    } else if bHigh == 0 {
      HalvesProduct(aHigh, aLow, bLow);
      ret := aHigh * bLow;
    } else {
      HighHalves(aHigh, aLow, bHigh, bLow);
      return None;
    }
    ghost var high := ret;
    assert a * b == high * TWO32 + aLow * bLow;
    if ret != 0 {
      if ret / TWO32 != 0 {
        return None;
      }
      ret := ret * TWO32 % TWO64;
      var tmp := aLow * bLow;
      AddWraps(ret, tmp);
      ret := (ret + tmp) % TWO64;
      if ret < tmp {
        return None;
      }
      return Some(ret);
    }
    return Some(aLow * bLow);
  }

  method RegMultiplyUint64Uint32(a: int, b: int) returns (r: Option<int>)
    requires UINT64.Fits(a) && UINT32.Fits(b)
    ensures r == Checked(UINT64, a * b)
  {
    var aHigh, aLow := a / TWO32, a % TWO32;
    Halves(a);
    HalvesProduct(aHigh, aLow, b);
    if aHigh != 0 {
      var ret := aHigh * b;
      if ret / TWO32 != 0 {
        return None;
      }
      ret := ret * TWO32 % TWO64;
      var tmp := aLow * b;
      AddWraps(ret, tmp);
      ret := (ret + tmp) % TWO64;
      if ret < tmp {
        return None;
      }
      return Some(ret);
    }
    return Some(aLow * b);
  }

  // ---------- signs ----------

  /** The magnitude, as an unsigned number of the same width. */
  function Magnitude(T: IntType, t: int): (r: int)
    requires T.Ok() && T.bits >= 32 && T.isSigned && T.Fits(t)
    ensures r == if t < 0 then -t else t
  {
    IntType(false, T.bits).Cast(if t < 0 then T.Cast(Abs(T, t)) else t)
  }

  lemma SignedProduct(a: int, b: int)
    ensures var x, y := if a < 0 then -a else a, if b < 0 then -b else b;
      a * b == (if (a < 0) != (b < 0) then -(x * y) else x * y) && x * y >= 0
  {
    var x, y := if a < 0 then -a else a, if b < 0 then -b else b;
    assert (-a) * b == -(a * b) && a * (-b) == -(a * b) && (-a) * (-b) == a * b;
  }

  /** Puts the sign back on a product of magnitudes. */
  function WithSign(T: IntType, negative: bool, tmp: int): (r: Option<int>)
    requires (T == INT32 || T == INT64) && tmp >= 0
    ensures r == Checked(T, if negative then -tmp else tmp)
  {
    if negative then
      if tmp <= IntType(false, T.bits).Cast(T.MinInt()) then Some(SignedNegation(T, tmp)) else None
    else if tmp <= T.MaxInt() then Some(T.Cast(tmp)) else None
  }

  method RegMultiplyUint64Int32(a: int, b: int) returns (r: Option<int>)
    requires UINT64.Fits(a) && INT32.Fits(b)
    ensures r == Checked(UINT64, a * b)
  {
    if b < 0 && a != 0 {
      assert a * b < 0;
      return None;
    }
    r := RegMultiplyUint64Uint32(a, UINT32.Cast(b));
  }

  method RegMultiplyUint64Int64(a: int, b: int) returns (r: Option<int>)
    requires UINT64.Fits(a) && INT64.Fits(b)
    ensures r == Checked(UINT64, a * b)
  {
    if b < 0 && a != 0 {
      assert a * b < 0;
      return None;
    }
    r := RegMultiplyUint64Uint64(a, UINT64.Cast(b));
  }

  /** A 64-bit factor with a high half leaves no room for any other factor but 0. */
  lemma TooLarge(a: int, b: int)
    requires a != 0 && b >= TWO32
    ensures a > 0 ==> a * b >= TWO32
    ensures a < 0 ==> a * b <= -TWO32
  {
    var x := if a > 0 then a else -a;
    assert (x - 1) * b >= 0;
    assert x * b == (x - 1) * b + b && (-x) * b == -(x * b);
  }

  method RegMultiplyInt32Uint64(a: int, b: int) returns (r: Option<int>)
    requires INT32.Fits(a) && UINT64.Fits(b)
    ensures r == Checked(INT32, a * b)
  {
    var bHigh, bLow := b / TWO32, b % TWO32;
    Halves(b);
    if bHigh != 0 && a != 0 {
      TooLarge(a, b);
      return None;
    }
    var fIsNegative := a < 0;
    var a1 := if a < 0 then INT32.Cast(Abs(INT32, a)) else a;
    var tmp := UINT32.Cast(a1) * bLow;
    SignedProduct(a, b);
    ProductBound(UINT32.Cast(a1), bLow, TWO32 - 1, TWO32 - 1);
    assert tmp == if a < 0 then -(a * b) else a * b;
    if !fIsNegative {
      if tmp <= INT32.MaxInt() {
        return Some(INT32.Cast(tmp));
      }
    } else {
      if tmp <= INT32.MaxInt() + 1 {
        return Some(SignedNegation(INT32, tmp));
      }
    }
    return None;
  }

  method RegMultiplyUint32Uint64(a: int, b: int) returns (r: Option<int>)
    requires UINT32.Fits(a) && UINT64.Fits(b)
    ensures r == Checked(UINT32, a * b)
  {
    Halves(b);
    if b / TWO32 != 0 && a != 0 {
      TooLarge(a, b);
      return None;
    }
    assert 0 <= a * b < TWO64 by {
      if a != 0 { ProductBound(a, b, TWO32 - 1, TWO32 - 1); }
    }
    var tmp := UINT64.Cast(b * a);
    if tmp / TWO32 != 0 {
      return None;
    }
    return Some(UINT32.Cast(tmp));
  }

  method RegMultiplyUint32Int64(a: int, b: int) returns (r: Option<int>)
    requires UINT32.Fits(a) && INT64.Fits(b)
    ensures r == Checked(UINT32, a * b)
  {
    if b < 0 && a != 0 {
      assert a * b < 0;
      return None;
    }
    r := RegMultiplyUint32Uint64(a, UINT64.Cast(b));
  }

  method RegMultiplyInt64Int64(a: int, b: int) returns (r: Option<int>)
    requires INT64.Fits(a) && INT64.Fits(b)
    ensures r == Checked(INT64, a * b)
  {
    var tmp := RegMultiplyUint64Uint64(Magnitude(INT64, a), Magnitude(INT64, b));
    SignedProduct(a, b);
    r := if tmp.Some? then WithSign(INT64, (a < 0) != (b < 0), tmp.value) else None;
  }

  method RegMultiplyInt64Uint32(a: int, b: int) returns (r: Option<int>)
    requires INT64.Fits(a) && UINT32.Fits(b)
    ensures r == Checked(INT64, a * b)
  {
    var tmp := RegMultiplyUint64Uint32(Magnitude(INT64, a), b);
    SignedProduct(a, b);
    r := if tmp.Some? then WithSign(INT64, a < 0, tmp.value) else None;
  }

  method RegMultiplyInt64Int32(a: int, b: int) returns (r: Option<int>)
    requires INT64.Fits(a) && INT32.Fits(b)
    ensures r == Checked(INT64, a * b)
  {
    var tmp := RegMultiplyUint64Uint32(Magnitude(INT64, a), UINT32.Cast(Magnitude(INT64, b)));
    SignedProduct(a, b);
    r := if tmp.Some? then WithSign(INT64, (a < 0) != (b < 0), tmp.value) else None;
  }

  method RegMultiplyInt32Int64(a: int, b: int) returns (r: Option<int>)
    requires INT32.Fits(a) && INT64.Fits(b)
    ensures r == Checked(INT32, a * b)
  {
    var tmp := RegMultiplyUint32Uint64(Magnitude(INT32, a), Magnitude(INT64, b));
    SignedProduct(a, b);
    r := if tmp.Some? then WithSign(INT32, (a < 0) != (b < 0), tmp.value) else None;
  }

  method RegMultiplyInt64Uint64(a: int, b: int) returns (r: Option<int>)
    requires INT64.Fits(a) && UINT64.Fits(b)
    ensures r == Checked(INT64, a * b)
  {
    var tmp := RegMultiplyUint64Uint64(Magnitude(INT64, a), b);
    SignedProduct(a, b);
    r := if tmp.Some? then WithSign(INT64, a < 0, tmp.value) else None;
  }

  // ---------- dispatch ----------

  /** A result of 32 bits is cast to the smaller type. */
  function CastResult(T: IntType, from: IntType, tmp: Option<int>): (r: Option<int>)
    requires T.Ok() && from.Ok() && (tmp.Some? ==> from.Fits(tmp.value))
    ensures r == if tmp.None? then None else Checked(T, tmp.value)
  {
    if tmp.None? then None else SafeCast(T, from, tmp.value)
  }

  /** The product is computed in a type that cannot overflow, and then compared with the limits. */
  method MultiplyWide(wide: IntType, T: IntType, t: int, u: int) returns (r: Option<int>)
    requires wide.Ok() && T.Ok() && wide.Fits(t * u)
    ensures r == Checked(T, t * u)
  {
    var tmp := wide.Cast(t * u);
    if tmp > T.MaxInt() || tmp < T.MinInt() {
      return None;
    }
    return Some(T.Cast(tmp));
  }

  lemma CastIntFits(T: IntType, U: IntType, t: int, u: int)
    requires T.Ok() && U.Ok() && T.Fits(t) && U.Fits(u) && Suits(CastInt, T, U)
    ensures INT32.Fits(t * u)
  {
    if T.isSigned {
      assert -0x8000 <= t <= 0x7FFF && -0xFFFF <= u <= 0xFFFF;
      ProductBound(t, u, 0x8000, 0xFFFF);
    } else {
      assert 0 <= t <= 0xFFFF && -0x8000 <= u <= 0x7FFF;
      ProductBound(t, u, 0xFFFF, 0x8000);
    }
  }

  lemma CastUintFits(T: IntType, U: IntType, t: int, u: int)
    requires T.Ok() && U.Ok() && T.Fits(t) && U.Fits(u) && Suits(CastUint, T, U)
    ensures UINT32.Fits(t * u) && UINT32.Cast(INT32.Cast(t * u)) == t * u
  {
    assert 0 <= t <= 0xFFFF && 0 <= u <= 0xFFFF;
    ProductBound(t, u, 0xFFFF, 0xFFFF);
  }

  lemma CastInt64Fits(T: IntType, U: IntType, t: int, u: int)
    requires T.Ok() && U.Ok() && T.Fits(t) && U.Fits(u) && Suits(CastInt64, T, U)
    ensures INT64.Fits(t * u)
  {
    if T.isSigned {
      assert -(TWO32 / 2) <= t <= TWO32 / 2 && -(TWO32 - 1) <= u <= TWO32 - 1;
      ProductBound(t, u, TWO32 / 2, TWO32 - 1);
    } else {
      assert -(TWO32 - 1) <= t <= TWO32 - 1 && -(TWO32 / 2) <= u <= TWO32 / 2;
      ProductBound(t, u, TWO32 - 1, TWO32 / 2);
    }
  }

  lemma CastUint64Fits(T: IntType, U: IntType, t: int, u: int)
    requires T.Ok() && U.Ok() && T.Fits(t) && U.Fits(u) && Suits(CastUint64, T, U)
    ensures UINT64.Fits(t * u)
  {
    assert 0 <= t <= TWO32 - 1 && 0 <= u <= TWO32 - 1;
    ProductBound(t, u, TWO32 - 1, TWO32 - 1);
  }

  /** Types of at most 32 bits. */
  method MultiplyNarrow(m: MultiplicationState, T: IntType, U: IntType, t: int, u: int) returns (r: Option<int>)
    requires T.Ok() && U.Ok() && T.Fits(t) && U.Fits(u) && Suits(m, T, U) && T.IsLT64Bit() && U.IsLT64Bit()
    ensures r == Checked(T, t * u)
  {
    match m
    case CastInt =>
      CastIntFits(T, U, t, u);
      r := MultiplyWide(INT32, T, t, u);
    case CastUint =>
      CastUintFits(T, U, t, u);
      // the operands are promoted to int, which wraps around; the cast to unsigned undoes that
      var tmp := UINT32.Cast(INT32.Cast(t * u));
      return if tmp > T.MaxInt() then None else Some(T.Cast(tmp));
    case CastInt64 =>
      CastInt64Fits(T, U, t, u);
      r := MultiplyWide(INT64, T, t, u);
    case CastUint64 =>
      CastUint64Fits(T, U, t, u);
      r := MultiplyWide(UINT64, T, t, u);
  }

  /** The second type has 64 bits and the first fewer. */
  method MultiplySmallLarge(m: MultiplicationState, T: IntType, U: IntType, t: int, u: int) returns (r: Option<int>)
    requires T.Ok() && U.Ok() && T.Fits(t) && U.Fits(u) && Suits(m, T, U) && T.IsLT64Bit() && U.Is64Bit()
    ensures r == Checked(T, t * u)
  {
    var tmp;
    match m
    case UintUint64 =>
      tmp := RegMultiplyUint32Uint64(t, u);
      r := CastResult(T, UINT32, tmp);
    case UintInt64 =>
      tmp := RegMultiplyUint32Int64(t, u);
      r := CastResult(T, UINT32, tmp);
    case IntUint64 =>
      tmp := RegMultiplyInt32Uint64(t, u);
      r := CastResult(T, INT32, tmp);
    case IntInt64 =>
      tmp := RegMultiplyInt32Int64(t, u);
      r := CastResult(T, INT32, tmp);
  }

  method MultiplyLarge(m: MultiplicationState, T: IntType, U: IntType, t: int, u: int) returns (r: Option<int>)
    requires T.Ok() && U.Ok() && T.Fits(t) && U.Fits(u) && Suits(m, T, U) && T.Is64Bit()
    ensures r == Checked(T, t * u)
  {
    match m
    case Uint64Uint64 => r := RegMultiplyUint64Uint64(t, u);
    case Uint64Uint => r := RegMultiplyUint64Uint32(t, u);
    case Uint64Int => r := RegMultiplyUint64Int32(t, u);
    case Uint64Int64 => r := RegMultiplyUint64Int64(t, u);
    case Int64Uint => r := RegMultiplyInt64Uint32(t, u);
    case Int64Int64 => r := RegMultiplyInt64Int64(t, u);
    case Int64Int => r := RegMultiplyInt64Int32(t, u);
    case Int64Uint64 => r := RegMultiplyInt64Uint64(t, u);
  }

  /** For every pair of types: the exact product if it fits the first type, and failure otherwise. */
  method SafeMultiply(T: IntType, U: IntType, t: int, u: int) returns (r: Option<int>)
    requires T.Ok() && U.Ok() && T.Fits(t) && U.Fits(u)
    ensures r == Checked(T, t * u)
  {
    var m := MultiplicationMethod(T, U);
    MethodSuits(T, U);
    if T.Is64Bit() {
      r := MultiplyLarge(m, T, U, t, u);
    } else if U.Is64Bit() {
      r := MultiplySmallLarge(m, T, U, t, u);
    } else {
      r := MultiplyNarrow(m, T, U, t, u);
    }
  }
}
