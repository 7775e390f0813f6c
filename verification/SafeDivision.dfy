/** Checked division and remainder of integers of any two types; the result has the type of the first. */
module SafeDivision {
  import opened Wrappers
  import opened IntTypes
  import opened SafeCasts
  import opened SafeMultiplication

  // ---------- division of numbers ----------

  function Absolute(x: int): int {
    if x < 0 then -x else x
  }

  /** Division rounds towards zero. */
  function Quotient(t: int, u: int): int
    requires u != 0
  {
    var q := Absolute(t) / Absolute(u);
    if (t < 0) == (u < 0) then q else -q
  }

  /** The remainder has the sign of the dividend. */
  function Remainder(t: int, u: int): int
    requires u != 0
  {
    var r := Absolute(t) % Absolute(u);
    if t < 0 then -r else r
  }

  lemma Euclid(a: int, b: int, q: int, r: int)
    requires a >= 0 && b > 0 && a == q * b + r && 0 <= r < b
    ensures q == a / b && r == a % b
  {
    var d := a / b - q;
    assert d * b == a / b * b - q * b == r - a % b;
    assert d > 0 ==> d * b >= b;
    assert d < 0 ==> d * b <= -b;
  }

  /** Quotient and remainder are the only numbers that give the dividend back, with a remainder that is
      smaller than the divisor and has no other sign than the dividend. */
  lemma QuotientIs(t: int, u: int, q: int, r: int)
    requires u != 0 && t == q * u + r && Absolute(r) < Absolute(u) && (r == 0 || (r < 0) == (t < 0))
    ensures q == Quotient(t, u) && r == Remainder(t, u)
  {
    ProductSize(q, u);
    SizesAdd(t, q * u, r, Absolute(u));
    Euclid(Absolute(t), Absolute(u), Absolute(q), Absolute(r));
  }

  lemma SizesAdd(t: int, p: int, r: int, u: int)
    requires t == p + r && Absolute(r) < u && (p == 0 || Absolute(p) >= u) && (r == 0 || (r < 0) == (t < 0))
    ensures Absolute(t) == Absolute(p) + Absolute(r) && (p != 0 ==> (p < 0) == (t < 0))
  {
  }

  lemma ProductSize(a: int, b: int)
    ensures Absolute(a * b) == Absolute(a) * Absolute(b)
    ensures a != 0 && b != 0 ==> ((a * b < 0) <==> (a < 0) != (b < 0)) && Absolute(a * b) >= Absolute(b)
  {
    assert a != 0 ==> (Absolute(a) - 1) * Absolute(b) >= 0;
    assert (-a) * b == -(a * b) && a * (-b) == -(a * b) && (-a) * (-b) == a * b;
    assert a != 0 && b != 0 ==> Absolute(a) * Absolute(b) > 0;
  }

  lemma QuotientParts(t: int, u: int)
    requires u != 0
    ensures t == Quotient(t, u) * u + Remainder(t, u)
    ensures Absolute(Remainder(t, u)) < Absolute(u) && (Remainder(t, u) == 0 || (Remainder(t, u) < 0) == (t < 0))
  {
    var a, b := Absolute(t), Absolute(u);
    assert a == a / b * b + a % b;
    assert (-(a / b)) * b == -(a / b * b) && (a / b) * (-b) == -(a / b * b) && (-(a / b)) * (-b) == a / b * b;
  }

  lemma QuotientBounds(t: int, u: int)
    requires u != 0
    ensures Absolute(Quotient(t, u)) <= Absolute(t) && ((t < 0) == (u < 0) ==> Quotient(t, u) >= 0)
    ensures Absolute(u) > Absolute(t) ==> Quotient(t, u) == 0
    ensures Absolute(u) <= Absolute(t) && (t < 0) != (u < 0) ==> Quotient(t, u) < 0
    ensures Absolute(u) > 1 && t != 0 ==> Absolute(Quotient(t, u)) < Absolute(t)
  {
    PositiveQuotient(Absolute(t), Absolute(u));
  }

  lemma PositiveQuotient(a: int, b: int)
    requires a >= 0 && b > 0
    ensures 0 <= a / b <= a && (a / b == 0 <==> b > a) && (b > 1 && a > 0 ==> a / b < a)
  {
    if b > a { Euclid(a, b, 0, a); }
    PartsOf(a, b, a / b, a % b);
  }

  lemma PartsOf(a: int, b: int, q: int, r: int)
    requires a >= 0 && b > 0 && q >= 0 && a == q * b + r && 0 <= r < b
    ensures 0 <= q <= a && (b <= a ==> q > 0) && (b > 1 && a > 0 ==> q < a)
  {
    AtLeast(q, b);
    if b > 1 {
      AtLeast(q, b - 1);
      assert q * b == q + q * (b - 1);
    }
  }

  lemma AtLeast(q: int, k: int)
    requires q >= 0 && k >= 1
    ensures q * k >= q
  {
    assert q * (k - 1) >= 0;
  }

  /** So these conditions say exactly what division is. */
  lemma QuotientExactly(t: int, u: int, q: int, r: int)
    requires u != 0
    ensures q == Quotient(t, u) && r == Remainder(t, u) <==>
      t == q * u + r && Absolute(r) < Absolute(u) && (r == 0 || (r < 0) == (t < 0))
  {
    QuotientParts(t, u);
    if t == q * u + r && Absolute(r) < Absolute(u) && (r == 0 || (r < 0) == (t < 0)) { QuotientIs(t, u, q, r); }
  }

  // ---------- division of the machine ----------

  /** The type in which operands of two types are combined. */
  function Common(T: IntType, U: IntType): IntType {
    var t, u := if T.bits < 32 then INT32 else T, if U.bits < 32 then INT32 else U;
    if t.bits > u.bits then t else if u.bits > t.bits then u else IntType(t.isSigned && u.isSigned, t.bits)
  }

  lemma CommonFits(T: IntType, U: IntType, t: int, u: int)
    requires T.Ok() && U.Ok() && T.Fits(t) && U.Fits(u)
    requires T.isSigned == U.isSigned || (t >= 0 && u >= 0)
    ensures Common(T, U).Ok() && Common(T, U).Fits(t) && Common(T, U).Fits(u)
    ensures T.isSigned && U.isSigned ==> Common(T, U).isSigned && Common(T, U).MinInt() <= T.MinInt()
  {
  }

  /** Division is undefined for the divisor 0, and where the quotient does not fit. */
  predicate Defined(C: IntType, t: int, u: int) {
    C.Fits(t) && C.Fits(u) && u != 0 && !(C.isSigned && t == C.MinInt() && u == -1)
  }

  function Divided(C: IntType, t: int, u: int): (r: int)
    requires C.Ok() && Defined(C, t, u)
    ensures C.Fits(r)
  {
    QuotientBounds(t, u);
    Quotient(t, u)
  }

  function Modulo(C: IntType, t: int, u: int): (r: int)
    requires C.Ok() && Defined(C, t, u)
    ensures C.Fits(r) && Absolute(r) <= Absolute(t) && (r == 0 || (r < 0) == (t < 0))
  {
    RemainderBounds(t, u);
    Remainder(t, u)
  }

  lemma RemainderBounds(t: int, u: int)
    requires u != 0
    ensures Absolute(Remainder(t, u)) <= Absolute(t) && (Remainder(t, u) == 0 || (Remainder(t, u) < 0) == (t < 0))
    ensures Remainder(t, -u) == Remainder(t, u) && Remainder(t, 1) == 0 && Remainder(-t, u) == -Remainder(t, u)
  {
    var a, b := Absolute(t), Absolute(u);
    Euclid(a, 1, a, 0);
    if b > a { Euclid(a, b, 0, a); }
  }

  // ---------- checked division ----------

  datatype DivisionState =
    | DivisionOK | UnsignedSigned | SignedUnsigned32 | SignedUnsigned64 | SignedUnsigned | SignedSigned

  function DivisionMethod(T: IntType, U: IntType): DivisionState {
    if !T.isSigned && !U.isSigned then DivisionOK
    else if !T.isSigned && U.isSigned then UnsignedSigned
    else if T.isSigned && U.IsUint32() && T.IsLT64Bit() then SignedUnsigned32
    else if T.isSigned && U.IsUint64() then SignedUnsigned64
    else if T.isSigned && !U.isSigned then SignedUnsigned
    else SignedSigned
  }

  /** The quotient, unless there is none or the type cannot hold it. */
  function CheckedQuotient(T: IntType, t: int, u: int): Option<int> {
    if u == 0 then None else Checked(T, Quotient(t, u))
  }

  /** The smallest number of a type with less than 64 bits, divided by its magnitude or by itself read as unsigned. */
  predicate CornerCase(T: IntType, U: IntType, t: int, u: int) {
    T.isSigned && T.bits < 64 && U.IsUint64() && t == T.MinInt() && (u == -T.MinInt() || u == UINT64.Cast(T.MinInt()))
  }

  /** Such operands exist: the quotient should be -1, and is 0. */
  lemma CornerCaseExists()
    ensures INT32.Fits(-0x8000_0000) && UINT64.Fits(0x8000_0000) && CornerCase(INT32, UINT64, -0x8000_0000, 0x8000_0000)
    ensures CheckedQuotient(INT32, -0x8000_0000, 0x8000_0000) == Some(-1)
  {
    QuotientIs(-0x8000_0000, 0x8000_0000, -1, 0);
  }

  method DivideUnsignedBySigned(T: IntType, U: IntType, t: int, u: int) returns (r: Option<int>)
    requires T.Ok() && U.Ok() && T.Fits(t) && U.Fits(u) && !T.isSigned && U.isSigned && t != 0 && u != 0
    ensures r == CheckedQuotient(T, t, u)
  {
    var C := Common(T, U);
    QuotientBounds(t, u);
    if u > 0 {
      return Some(T.Cast(Divided(C, C.Cast(t), C.Cast(u))));
    }
    return if Abs(U, u) > t then Some(0) else None;
  }

  method DivideSignedByUnsigned(T: IntType, U: IntType, t: int, u: int) returns (r: Option<int>)
    requires T.Ok() && U.Ok() && T.Fits(t) && U.Fits(u) && T.isSigned && !U.isSigned && U.bits < 64 && t != 0 && u != 0
    ensures r == CheckedQuotient(T, t, u)
  {
    var C := Common(T, U);
    QuotientBounds(t, u);
    if DivisionMethod(T, U).SignedUnsigned32? && t <= 0 {
      // the operands would be taken as unsigned
      return Some(T.Cast(Divided(INT64, INT64.Cast(t), INT64.Cast(u))));
    }
    return Some(T.Cast(Divided(C, C.Cast(t), C.Cast(u))));
  }

  /** A signed number divided by an unsigned one of 64 bits. */
  method DivideByUint64(T: IntType, t: int, u: int) returns (r: Option<int>)
    requires T.Ok() && T.Fits(t) && UINT64.Fits(u) && T.isSigned && t != 0 && u != 0
    ensures r == CheckedQuotient(T, t, u) <==> !CornerCase(T, UINT64, t, u)
    ensures CornerCase(T, UINT64, t, u) ==> r == Some(if u == -T.MinInt() then 0 else -1)
  {
    CastWraps(UINT64, T.MinInt());
    if u <= UINT64.Cast(T.MaxInt()) {
      r := DivideWithin(T, t, u);
      return;
    }
    LargeDivisor(T, t, u);
    if t == T.MinInt() && u == UINT64.Cast(T.MinInt()) {
      return Some(-1);
    }
    return Some(0);
  }

  method DivideWithin(T: IntType, t: int, u: int) returns (r: Option<int>)
    requires T.Ok() && T.isSigned && T.Fits(t) && 0 < u <= T.MaxInt()
    ensures r == CheckedQuotient(T, t, u)
  {
    var C := if T.IsLT64Bit() then INT32 else INT64;
    QuotientBounds(t, u);
    var q := Divided(C, C.Cast(t), C.Cast(u));
    return Some(T.Cast(q));
  }

  /** A divisor beyond the type leaves the quotient 0, but for the smallest number divided by its magnitude. */
  lemma LargeDivisor(T: IntType, t: int, u: int)
    requires T.Ok() && T.isSigned && T.Fits(t) && t != 0 && u > T.MaxInt()
    ensures Quotient(t, u) == if t == T.MinInt() && u == -T.MinInt() then -1 else 0
  {
    QuotientBounds(t, u);
    if t == T.MinInt() && u == -T.MinInt() { QuotientIs(t, u, -1, 0); }
  }

  method DivideSigned(T: IntType, U: IntType, t: int, u: int) returns (r: Option<int>)
    requires T.Ok() && U.Ok() && T.Fits(t) && U.Fits(u) && T.isSigned && U.isSigned && t != 0 && u != 0
    ensures r == CheckedQuotient(T, t, u)
  {
    var C := Common(T, U);
    QuotientBounds(t, u);
    CommonFits(T, U, t, u);
    if u == -1 { QuotientIs(t, u, -t, 0); }
    if t == T.MinInt() && u == U.Cast(-1) {
      return None;
    }
    var q := Divided(C, C.Cast(t), C.Cast(u));
    return Some(T.Cast(q));
  }

  /** For every pair of types: the quotient if it fits the first type, and failure otherwise, if and only if the
      operands are not one of the corner cases. */
  method SafeDivide(T: IntType, U: IntType, t: int, u: int) returns (r: Option<int>)
    requires T.Ok() && U.Ok() && T.Fits(t) && U.Fits(u)
    ensures r == CheckedQuotient(T, t, u) <==> !CornerCase(T, U, t, u)
    ensures CornerCase(T, U, t, u) ==> r == Some(if u == -T.MinInt() then 0 else -1)
  {
    if u == 0 {
      return None;
    }
    if t == 0 {
      QuotientBounds(t, u);
      return Some(0);
    }
    var C := Common(T, U);
    match DivisionMethod(T, U)
    case DivisionOK =>
      QuotientBounds(t, u);
      CommonFits(T, U, t, u);
      var q := Divided(C, C.Cast(t), C.Cast(u));
      return Some(T.Cast(q));
    case UnsignedSigned => r := DivideUnsignedBySigned(T, U, t, u);
    case SignedUnsigned32 => r := DivideSignedByUnsigned(T, U, t, u);
    case SignedUnsigned64 => r := DivideByUint64(T, t, u);
    case SignedUnsigned => r := DivideSignedByUnsigned(T, U, t, u);
    case SignedSigned => r := DivideSigned(T, U, t, u);
  }

  // ---------- checked remainder ----------

  function CheckedRemainder(t: int, u: int): Option<int> {
    if u == 0 then None else Some(Remainder(t, u))
  }

  /** For every pair of types: the remainder, and failure only for the divisor 0. */
  method SafeModulus(T: IntType, U: IntType, t: int, u: int) returns (r: Option<int>)
    requires T.Ok() && U.Ok() && T.Fits(t) && U.Fits(u)
    ensures r == CheckedRemainder(t, u) && (u != 0 ==> T.Fits(Remainder(t, u)))
  {
    if u == 0 {
      return None;
    }
    RemainderBounds(t, u);
    match ValidComparison(T, U)
    case ComparisonMethod_Ok =>
      CommonFits(T, U, t, u);
      r := ModulusIn(Common(T, U), T, U, t, u);
    case ComparisonMethod_CastInt => r := ModulusIn(Common(T, U), T, U, t, u);
    case ComparisonMethod_CastInt64 => r := ModulusIn(INT64, T, U, t, u);
    case ComparisonMethod_UnsignedT => r := ModulusOfUint64(U, t, u);
    case ComparisonMethod_UnsignedU => r := ModulusByUint64(T, t, u);
  }

  method ModulusOfUint64(U: IntType, t: int, u: int) returns (r: Option<int>)
    requires U.Ok() && UINT64.Fits(t) && U.Fits(u) && U.isSigned && u != 0
    ensures r == CheckedRemainder(t, u)
  {
    RemainderBounds(t, u);
    if u < 0 {
      return Some(UINT64.Cast(Modulo(UINT64, t, Abs(U, u))));
    }
    return Some(UINT64.Cast(Modulo(UINT64, t, UINT64.Cast(u))));
  }

  method ModulusByUint64(T: IntType, t: int, u: int) returns (r: Option<int>)
    requires T.Ok() && T.Fits(t) && T.isSigned && UINT64.Fits(u) && u != 0
    ensures r == CheckedRemainder(t, u)
  {
    RemainderBounds(t, u);
    if t < 0 {
      var m := Modulo(UINT64, Abs(T, t), u);
      NegatedFits(T, m);
      return Some(T.Cast(UINT64.Cast(UINT64.MaxInt() - m + 1)));
    }
    return Some(T.Cast(Modulo(UINT64, UINT64.Cast(t), u)));
  }

  /** A magnitude complemented as an unsigned number gives the negative number. */
  lemma NegatedFits(T: IntType, m: int)
    requires T.Ok() && T.isSigned && 0 <= m <= -T.MinInt()
    ensures T.Cast(UINT64.Cast(UINT64.MaxInt() - m + 1)) == -m
  {
    CastWraps(UINT64, UINT64.MaxInt() - m + 1);
    if m > 0 { CastIs(T, UINT64.Size() - m, -m, -(UINT64.Size() / T.Size())); }
  }

  method ModulusIn(C: IntType, T: IntType, U: IntType, t: int, u: int) returns (r: Option<int>)
    requires C.Ok() && T.Ok() && U.Ok() && T.Fits(t) && U.Fits(u) && u != 0 && C.Fits(t) && C.Fits(u)
    ensures r == CheckedRemainder(t, u)
  {
    RemainderBounds(t, u);
    RemainderBounds(t, 1);
    if U.isSigned && u == U.Cast(-1) {
      return Some(0);
    }
    return Some(T.Cast(Modulo(C, C.Cast(t), C.Cast(u))));
  }
}
