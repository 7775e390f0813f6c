/** Checked addition and subtraction of integers of any two types; the result has the type of the first. */
module SafeAddition {
  import opened Wrappers
  import opened IntTypes
  import opened SafeCasts
  import opened SafeMultiplication

  datatype AdditionState =
    | CastIntCheckMax | CastUintCheckOverflow | CastUintCheckOverflowMax | CastUint64CheckOverflow | CastUint64CheckOverflowMax
    | CastIntCheckMinMax | CastInt64CheckMinMax | CastInt64CheckMax | CastUint64CheckMinMax | CastUint64CheckMinMax2
    | CastInt64CheckOverflow | CastInt64CheckOverflowMinMax | CastInt64CheckOverflowMax
    | ManualCheckInt64Uint64 | ManualCheck | AdditionError

  function AdditionMethod(T: IntType, U: IntType): AdditionState {
    if InZone(UintLT32_UintLT32, T, U) then CastIntCheckMax
    else if InZone(Uint32_UintLT64, T, U) then CastUintCheckOverflow
    else if InZone(UintLT32_Uint32, T, U) then CastUintCheckOverflowMax
    else if InZone(Uint64_Uint, T, U) then CastUint64CheckOverflow
    else if InZone(UintLT64_Uint64, T, U) then CastUint64CheckOverflowMax
    else if InZone(UintLT32_IntLT32, T, U) then CastIntCheckMinMax
    else if InZone(Uint32_IntLT64, T, U) || InZone(UintLT32_Int32, T, U) then CastInt64CheckMinMax
    else if InZone(Uint64_Int, T, U) || InZone(Uint64_Int64, T, U) then CastUint64CheckMinMax
    else if InZone(UintLT64_Int64, T, U) then CastUint64CheckMinMax2
    else if InZone(IntLT32_IntLT32, T, U) then CastIntCheckMinMax
    else if InZone(Int32_IntLT64, T, U) || InZone(IntLT32_Int32, T, U) then CastInt64CheckMinMax
    else if InZone(Int64_Int, T, U) || InZone(Int64_Int64, T, U) then CastInt64CheckOverflow
    else if InZone(IntLT64_Int64, T, U) then CastInt64CheckOverflowMinMax
    else if InZone(IntLT32_UintLT32, T, U) then CastIntCheckMax
    else if InZone(Int32_UintLT32, T, U) || InZone(IntLT64_Uint32, T, U) then CastInt64CheckMax
    else if InZone(Int64_UintLT64, T, U) then CastInt64CheckOverflowMax
    else if InZone(Int64_Uint64, T, U) then ManualCheckInt64Uint64
    else if InZone(Int_Uint64, T, U) then ManualCheck
    else AdditionError
  }

  /** What the helper for each state is given. */
  predicate SuitsSum(m: AdditionState, T: IntType, U: IntType) {
    match m
    case CastIntCheckMax => T.bits < 32 && U.bits < 32 && !U.isSigned
    case CastUintCheckOverflow => T.IsUint32() && !U.isSigned && U.bits <= 32
    case CastUintCheckOverflowMax => !T.isSigned && T.bits < 32 && U.IsUint32()
    case CastUint64CheckOverflow => T.IsUint64() && !U.isSigned
    case CastUint64CheckOverflowMax => !T.isSigned && T.bits < 64 && U.IsUint64()
    case CastIntCheckMinMax => T.bits < 32 && U.bits < 32
    case CastInt64CheckMinMax => T.bits <= 32 && U.bits <= 32
    case CastInt64CheckMax => T.isSigned && T.bits <= 32 && !U.isSigned && U.bits <= 32
    case CastUint64CheckMinMax => T.IsUint64() && U.isSigned
    case CastUint64CheckMinMax2 => !T.isSigned && T.bits < 64 && U.IsInt64()
    case CastInt64CheckOverflow => T.IsInt64() && U.isSigned
    case CastInt64CheckOverflowMinMax => T.isSigned && T.bits < 64 && U.IsInt64()
    case CastInt64CheckOverflowMax => T.IsInt64() && !U.isSigned && U.bits < 64
    case ManualCheckInt64Uint64 => T.IsInt64() && U.IsUint64()
    case ManualCheck => T.isSigned && T.bits < 64 && U.IsUint64()
    case AdditionError => false
  }

  lemma AdditionMethodSuits(T: IntType, U: IntType)
    requires T.Ok() && U.Ok()
    ensures SuitsSum(AdditionMethod(T, U), T, U)
  {
    if T.isSigned { SignedSuitsSum(T, U); } else { UnsignedSuitsSum(T, U); }
  }

  lemma UnsignedSuitsSum(T: IntType, U: IntType)
    requires T.Ok() && U.Ok() && !T.isSigned
    ensures SuitsSum(AdditionMethod(T, U), T, U)
  {
    match ZoneOf(T, U)
    case _ => assert InZone(ZoneOf(T, U), T, U);
  }

  lemma SignedSuitsSum(T: IntType, U: IntType)
    requires T.Ok() && U.Ok() && T.isSigned
    ensures SuitsSum(AdditionMethod(T, U), T, U)
  {
    match ZoneOf(T, U)
    case _ => assert InZone(ZoneOf(T, U), T, U);
  }

  /** Unsigned sums that wrap around. */
  method AddUint32(m: AdditionState, T: IntType, U: IntType, lhs: int, rhs: int) returns (r: Option<int>)
    requires T.Ok() && U.Ok() && T.Fits(lhs) && U.Fits(rhs) && SuitsSum(m, T, U)
    requires m.CastUintCheckOverflow? || m.CastUintCheckOverflowMax?
    ensures r == Checked(T, lhs + rhs)
  {
    var tmp := UINT32.Cast(lhs + rhs);
    CastWraps(UINT32, lhs + rhs);
    match m
    case CastUintCheckOverflow => return if tmp >= lhs then Some(T.Cast(tmp)) else None;
    case CastUintCheckOverflowMax => return if tmp >= lhs && tmp <= T.MaxInt() then Some(T.Cast(tmp)) else None;
  }

  lemma SumBounds(T: IntType, U: IntType, lhs: int, rhs: int)
    requires T.Ok() && U.Ok() && T.Fits(lhs) && U.Fits(rhs) && T.bits <= 32 && U.bits <= 32
    ensures INT64.Fits(lhs + rhs) && (T.bits < 32 && U.bits < 32 ==> INT32.Fits(lhs + rhs))
  {
  }

  /** Sums computed in a type that cannot overflow, and unsigned sums that wrap around. */
  method AddInWiderType(m: AdditionState, T: IntType, U: IntType, lhs: int, rhs: int) returns (r: Option<int>)
    requires T.Ok() && U.Ok() && T.Fits(lhs) && U.Fits(rhs) && SuitsSum(m, T, U) && T.bits <= 32 && U.bits <= 32
    ensures r == Checked(T, lhs + rhs)
  {
    SumBounds(T, U, lhs, rhs);
    var tmp;
    match m
    case CastIntCheckMax =>
      tmp := INT32.Cast(lhs + rhs);
      return if tmp <= T.MaxInt() then Some(T.Cast(tmp)) else None;
    case CastUintCheckOverflow => r := AddUint32(m, T, U, lhs, rhs);
    case CastUintCheckOverflowMax => r := AddUint32(m, T, U, lhs, rhs);
    case CastIntCheckMinMax =>
      tmp := INT32.Cast(lhs + rhs);
      return if tmp <= T.MaxInt() && tmp >= T.MinInt() then Some(T.Cast(tmp)) else None;
    case CastInt64CheckMinMax =>
      tmp := INT64.Cast(lhs + rhs);
      return if tmp <= T.MaxInt() && tmp >= T.MinInt() then Some(T.Cast(tmp)) else None;
    case CastInt64CheckMax =>
      tmp := INT64.Cast(lhs + rhs);
      return if tmp <= T.MaxInt() then Some(T.Cast(tmp)) else None;
  }

  /** The first type is unsigned, and one of the two has 64 bits. */
  method AddToUnsigned(m: AdditionState, T: IntType, U: IntType, lhs: int, rhs: int) returns (r: Option<int>)
    requires T.Ok() && U.Ok() && T.Fits(lhs) && U.Fits(rhs) && SuitsSum(m, T, U) && !T.isSigned && (T.bits == 64 || U.bits == 64)
    ensures r == Checked(T, lhs + rhs)
  {
    var tmp;
    match m
    case CastUint64CheckOverflow =>
      tmp := UINT64.Cast(lhs + rhs);
      return if tmp >= lhs then Some(T.Cast(tmp)) else None;
    case CastUint64CheckOverflowMax =>
      tmp := UINT64.Cast(lhs + rhs);
      return if tmp >= lhs && tmp <= T.MaxInt() then Some(T.Cast(tmp)) else None;
    case CastUint64CheckMinMax =>
      if rhs < 0 {
        tmp := Abs(U, rhs);
        return if tmp <= lhs then Some(T.Cast(lhs - tmp)) else None;
      }
      tmp := UINT64.Cast(lhs + rhs);
      return if tmp >= lhs then Some(T.Cast(tmp)) else None;
    case CastUint64CheckMinMax2 =>
      if rhs < 0 {
        return if lhs >= Abs(INT64, rhs) then Some(T.Cast(lhs + rhs)) else None;
      }
      tmp := UINT64.Cast(lhs + rhs);
      return if tmp <= T.MaxInt() then Some(T.Cast(tmp)) else None;
  }

  /** A 64-bit signed sum, computed on unsigned numbers, wraps around at most once. */
  lemma SignedSum(lhs: int, rhs: int)
    requires INT64.Fits(lhs) && INT64.Fits(rhs)
    ensures INT64.Cast(UINT64.Cast(lhs) + UINT64.Cast(rhs)) == Wrapped(INT64, lhs + rhs)
  {
    var j := CastMoves(UINT64, lhs);
    var k := CastMoves(UINT64, rhs);
    CastAgain(INT64, UINT64.Cast(lhs) + UINT64.Cast(rhs), lhs + rhs, j + k);
    CastWraps(INT64, lhs + rhs);
  }

  lemma SignedDifference(lhs: int, rhs: int)
    requires INT64.Fits(lhs) && INT64.Fits(rhs)
    ensures INT64.Cast(UINT64.Cast(lhs) - UINT64.Cast(rhs)) == Wrapped(INT64, lhs - rhs)
  {
    var j := CastMoves(UINT64, lhs);
    var k := CastMoves(UINT64, rhs);
    CastAgain(INT64, UINT64.Cast(lhs) - UINT64.Cast(rhs), lhs - rhs, j - k);
    CastWraps(INT64, lhs - rhs);
  }

  /** 64-bit signed addition: the sum wrapped around when its sign is wrong. */
  method AddInt64(lhs: int, rhs: int) returns (r: Option<int>)
    requires INT64.Fits(lhs) && INT64.Fits(rhs)
    ensures r == Checked(INT64, lhs + rhs)
  {
    var tmp := INT64.Cast(UINT64.Cast(lhs) + UINT64.Cast(rhs));
    SignedSum(lhs, rhs);
    if lhs >= 0 {
      if rhs >= 0 && tmp < lhs {
        return None;
      }
    } else {
      if rhs < 0 && tmp > lhs {
        return None;
      }
    }
    return Some(tmp);
  }

  /** A number moved, on unsigned numbers, by less than the number of values wraps around at most once. */
  lemma MixedArithmetic(T: IntType, lhs: int, move: int)
    requires T.Ok() && T.isSigned && T.Fits(lhs) && 0 < T.Size() + move < 2 * T.Size()
    ensures T.Cast(IntType(false, T.bits).Cast(IntType(false, T.bits).Cast(lhs) + move)) == Wrapped(T, lhs + move)
  {
    UnsignedTwice(T, lhs, move);
    CastWraps(T, lhs + move);
  }

  lemma UnsignedTwice(T: IntType, lhs: int, move: int)
    requires T.Ok()
    ensures T.Cast(IntType(false, T.bits).Cast(IntType(false, T.bits).Cast(lhs) + move)) == T.Cast(lhs + move)
  {
    var unsigned := IntType(false, T.bits);
    var x := unsigned.Cast(lhs) + move;
    var j := CastMoves(unsigned, lhs);
    var k := CastMoves(unsigned, x);
    assert j * T.Size() + k * T.Size() == (j + k) * T.Size();
    CastAgain(T, unsigned.Cast(x), lhs + move, j + k);
  }

  /** Adding an unsigned number to a signed one of the same width: the sum wrapped around when it got smaller. */
  method AddUnsignedToSigned(T: IntType, lhs: int, rhs: int) returns (r: Option<int>)
    requires (T == INT32 || T == INT64) && T.Fits(lhs) && 0 <= rhs < T.Size()
    ensures r == Checked(T, lhs + rhs)
  {
    var unsigned := IntType(false, T.bits);
    var tmp := unsigned.Cast(unsigned.Cast(lhs) + rhs);
    MixedArithmetic(T, lhs, rhs);
    var sum := T.Cast(tmp);
    assert sum == Wrapped(T, lhs + rhs);
    return if sum >= lhs then Some(sum) else None;
  }

  /** The first type is signed, and one of the two has 64 bits. */
  method AddToSigned(m: AdditionState, T: IntType, U: IntType, lhs: int, rhs: int) returns (r: Option<int>)
    requires T.Ok() && U.Ok() && T.Fits(lhs) && U.Fits(rhs) && SuitsSum(m, T, U) && T.isSigned && (T.bits == 64 || U.bits == 64)
    ensures r == Checked(T, lhs + rhs)
  {
    var tmp;
    match m
    case CastInt64CheckOverflow => r := AddInt64(lhs, rhs);
    case CastInt64CheckOverflowMinMax =>
      tmp := AddInt64(lhs, rhs);
      return if tmp.Some? && tmp.value <= T.MaxInt() && tmp.value >= T.MinInt() then Some(T.Cast(tmp.value)) else None;
    case CastInt64CheckOverflowMax => r := AddUnsignedToSigned(INT64, lhs, rhs);
    case ManualCheckInt64Uint64 => r := AddUnsignedToSigned(INT64, lhs, rhs);
    case ManualCheck =>
      if rhs / TWO32 != 0 {
        return None;
      }
      tmp := AddUnsignedToSigned(INT32, lhs, rhs);
      r := CastResult(T, INT32, tmp);
  }

  /** For every pair of types: the exact sum if it fits the first type, and failure otherwise. */
  method SafeAdd(T: IntType, U: IntType, lhs: int, rhs: int) returns (r: Option<int>)
    requires T.Ok() && U.Ok() && T.Fits(lhs) && U.Fits(rhs)
    ensures r == Checked(T, lhs + rhs)
  {
    var m := AdditionMethod(T, U);
    AdditionMethodSuits(T, U);
    if T.bits <= 32 && U.bits <= 32 {
      r := AddInWiderType(m, T, U, lhs, rhs);
    } else if T.isSigned {
      r := AddToSigned(m, T, U, lhs, rhs);
    } else {
      r := AddToUnsigned(m, T, U, lhs, rhs);
    }
  }

  // ---------- subtraction ----------

  datatype SubtractionState =
    | SubtractBothUnsigned | SubtractIntCheckMinMax | SubtractIntCheckMin | SubtractInt64CheckMinMax | SubtractInt64CheckMin
    | SubtractUint64Int | SubtractUintInt64 | SubtractInt64Int | SubtractIntInt64
    | SubtractInt64Uint | SubtractIntUint64 | SubtractInt64Uint64 | SubtractionError

  function SubtractionMethod(T: IntType, U: IntType): SubtractionState {
    if InZone(UintLT32_UintLT32, T, U) || InZone(Uint32_UintLT64, T, U) || InZone(UintLT32_Uint32, T, U) ||
       InZone(Uint64_Uint, T, U) || InZone(UintLT64_Uint64, T, U) then SubtractBothUnsigned
    else if InZone(UintLT32_IntLT32, T, U) then SubtractIntCheckMinMax
    else if InZone(Uint32_IntLT64, T, U) || InZone(UintLT32_Int32, T, U) then SubtractInt64CheckMinMax
    else if InZone(Uint64_Int, T, U) || InZone(Uint64_Int64, T, U) then SubtractUint64Int
    else if InZone(UintLT64_Int64, T, U) then SubtractUintInt64
    else if InZone(IntLT32_IntLT32, T, U) then SubtractIntCheckMinMax
    else if InZone(Int32_IntLT64, T, U) || InZone(IntLT32_Int32, T, U) then SubtractInt64CheckMinMax
    else if InZone(Int64_Int, T, U) || InZone(Int64_Int64, T, U) then SubtractInt64Int
    else if InZone(IntLT64_Int64, T, U) then SubtractIntInt64
    else if InZone(IntLT32_UintLT32, T, U) then SubtractIntCheckMin
    else if InZone(Int32_UintLT32, T, U) || InZone(IntLT64_Uint32, T, U) then SubtractInt64CheckMin
    else if InZone(Int64_UintLT64, T, U) then SubtractInt64Uint
    else if InZone(Int_Uint64, T, U) then SubtractIntUint64
    else if InZone(Int64_Uint64, T, U) then SubtractInt64Uint64
    else SubtractionError
  }

  predicate SuitsDifference(m: SubtractionState, T: IntType, U: IntType) {
    match m
    case SubtractBothUnsigned => !T.isSigned && !U.isSigned
    case SubtractIntCheckMinMax => T.bits < 32 && U.bits < 32
    case SubtractIntCheckMin => T.isSigned && T.bits < 32 && !U.isSigned && U.bits < 32
    case SubtractInt64CheckMinMax => T.bits <= 32 && U.bits <= 32
    case SubtractInt64CheckMin => T.isSigned && T.bits <= 32 && !U.isSigned && U.bits <= 32
    case SubtractUint64Int => T.IsUint64() && U.isSigned
    case SubtractUintInt64 => !T.isSigned && T.bits < 64 && U.IsInt64()
    case SubtractInt64Int => T.IsInt64() && U.isSigned
    case SubtractIntInt64 => T.isSigned && T.bits < 64 && U.IsInt64()
    case SubtractInt64Uint => T.IsInt64() && !U.isSigned && U.bits < 64
    case SubtractIntUint64 => T.isSigned && T.bits < 64 && U.IsUint64()
    case SubtractInt64Uint64 => T.IsInt64() && U.IsUint64()
    case SubtractionError => false
  }

  lemma SubtractionMethodSuits(T: IntType, U: IntType)
    requires T.Ok() && U.Ok()
    ensures SuitsDifference(SubtractionMethod(T, U), T, U)
  {
    if T.isSigned { SignedSuitsDifference(T, U); } else { UnsignedSuitsDifference(T, U); }
  }

  lemma UnsignedSuitsDifference(T: IntType, U: IntType)
    requires T.Ok() && U.Ok() && !T.isSigned
    ensures SuitsDifference(SubtractionMethod(T, U), T, U)
  {
    match ZoneOf(T, U)
    case _ => assert InZone(ZoneOf(T, U), T, U);
  }

  lemma SignedSuitsDifference(T: IntType, U: IntType)
    requires T.Ok() && U.Ok() && T.isSigned
    ensures SuitsDifference(SubtractionMethod(T, U), T, U)
  {
    match ZoneOf(T, U)
    case _ => assert InZone(ZoneOf(T, U), T, U);
  }

  method SubtractInWiderType(m: SubtractionState, T: IntType, U: IntType, lhs: int, rhs: int) returns (r: Option<int>)
    requires T.Ok() && U.Ok() && T.Fits(lhs) && U.Fits(rhs) && SuitsDifference(m, T, U) && T.bits <= 32 && U.bits <= 32
    ensures r == Checked(T, lhs - rhs)
  {
    var tmp;
    match m
    case SubtractBothUnsigned => return if rhs <= lhs then Some(T.Cast(lhs - rhs)) else None;
    case SubtractIntCheckMinMax => return SafeCast(T, INT32, INT32.Cast(lhs - rhs));
    case SubtractIntCheckMin =>
      tmp := INT32.Cast(lhs - rhs);
      return if tmp >= T.MinInt() then Some(T.Cast(tmp)) else None;
    case SubtractInt64CheckMinMax => return SafeCast(T, INT64, INT64.Cast(lhs - rhs));
    case SubtractInt64CheckMin =>
      tmp := INT64.Cast(lhs - rhs);
      return if tmp >= T.MinInt() then Some(T.Cast(tmp)) else None;
  }

  method SubtractFromUnsigned(m: SubtractionState, T: IntType, U: IntType, lhs: int, rhs: int) returns (r: Option<int>)
    requires T.Ok() && U.Ok() && T.Fits(lhs) && U.Fits(rhs) && SuitsDifference(m, T, U) && !T.isSigned && (T.bits == 64 || U.bits == 64)
    ensures r == Checked(T, lhs - rhs)
  {
    var tmp;
    match m
    case SubtractBothUnsigned => return if rhs <= lhs then Some(T.Cast(lhs - rhs)) else None;
    case SubtractUint64Int =>
      if rhs >= 0 {
        return if UINT64.Cast(rhs) <= lhs then Some(T.Cast(lhs - UINT64.Cast(rhs))) else None;
      }
      tmp := UINT64.Cast(lhs + Abs(U, rhs));
      return if tmp >= lhs then Some(tmp) else None;
    case SubtractUintInt64 =>
      if rhs >= 0 {
        return if UINT64.Cast(rhs) <= lhs then Some(T.Cast(lhs - T.Cast(rhs))) else None;
      }
      tmp := UINT64.Cast(lhs + Abs(INT64, rhs));
      return if tmp <= T.MaxInt() then Some(T.Cast(tmp)) else None;
  }

  method SubtractFromSigned(m: SubtractionState, T: IntType, U: IntType, lhs: int, rhs: int) returns (r: Option<int>)
    requires T.Ok() && U.Ok() && T.Fits(lhs) && U.Fits(rhs) && SuitsDifference(m, T, U) && T.isSigned && (T.bits == 64 || U.bits == 64)
    ensures r == Checked(T, lhs - rhs)
  {
    match m
    case SubtractInt64Int =>
      var tmp := INT64.Cast(UINT64.Cast(lhs) - UINT64.Cast(rhs));
      SignedDifference(lhs, rhs);
      return if (lhs >= 0 && rhs < 0 && tmp < lhs) || (rhs >= 0 && tmp > lhs) then None else Some(T.Cast(tmp));
    case SubtractIntInt64 => r := SubtractInt64FromInt(T, lhs, rhs);
    case SubtractInt64Uint => r := SubtractUnsigned(lhs, rhs);
    case SubtractInt64Uint64 => r := SubtractUnsigned(lhs, rhs);
    case SubtractIntUint64 =>
      var absMinInt := T.MaxInt() + 1;
      if lhs < 0 {
        return if rhs <= absMinInt - Abs(T, lhs) then Some(T.Cast(lhs - rhs)) else None;
      }
      return if rhs <= absMinInt + lhs then Some(T.Cast(lhs - rhs)) else None;
  }

  method SubtractUnsigned(lhs: int, rhs: int) returns (r: Option<int>)
    requires INT64.Fits(lhs) && UINT64.Fits(rhs)
    ensures r == Checked(INT64, lhs - rhs)
  {
    var tmp := UINT64.Cast(UINT64.Cast(lhs) - rhs);
    MixedArithmetic(INT64, lhs, -rhs);
    return if INT64.Cast(tmp) <= lhs then Some(INT64.Cast(tmp)) else None;
  }

  /** A 64-bit number is taken from a smaller one; the four combinations of signs need different checks. */
  method SubtractInt64FromInt(T: IntType, lhs: int, rhs: int) returns (r: Option<int>)
    requires T.Ok() && T.isSigned && T.bits < 64 && T.Fits(lhs) && INT64.Fits(rhs)
    ensures r == Checked(T, lhs - rhs)
  {
    var tmp := INT64.Cast(UINT64.Cast(lhs) - UINT64.Cast(rhs));
    SignedDifference(lhs, rhs);
    if lhs >= 0 {
      if rhs >= 0 {
        return if tmp >= T.MinInt() then Some(T.Cast(tmp)) else None;
      }
      return if tmp >= lhs && tmp <= T.MaxInt() then Some(T.Cast(tmp)) else None;
    }
    if rhs >= 0 {
      return if tmp <= lhs && tmp >= T.MinInt() then Some(T.Cast(tmp)) else None;
    }
    return if tmp <= T.MaxInt() then Some(T.Cast(tmp)) else None;
  }

  /** For every pair of types: the exact difference if it fits the first type, and failure otherwise. */
  method SafeSubtract(T: IntType, U: IntType, lhs: int, rhs: int) returns (r: Option<int>)
    requires T.Ok() && U.Ok() && T.Fits(lhs) && U.Fits(rhs)
    ensures r == Checked(T, lhs - rhs)
  {
    var m := SubtractionMethod(T, U);
    SubtractionMethodSuits(T, U);
    if T.bits <= 32 && U.bits <= 32 {
      r := SubtractInWiderType(m, T, U, lhs, rhs);
    } else if T.isSigned {
      r := SubtractFromSigned(m, T, U, lhs, rhs);
    } else {
      r := SubtractFromUnsigned(m, T, U, lhs, rhs);
    }
  }
}
