/** Checked conversion between integer types, and comparison of values of different types. */
module SafeCasts {
  import opened Wrappers
  import opened IntTypes

  datatype CastMethod = CastOK | CastCheckLTZero | CastCheckGTMax | CastCheckMinMaxUnsigned | CastCheckMinMaxSigned

  predicate IsLikeSigned(T: IntType, U: IntType) {
    T.isSigned == U.isSigned
  }

  predicate IsCastOK(T: IntType, U: IntType) {
    (IsLikeSigned(T, U) && T.bits >= U.bits) || (T.isSigned && T.bits > U.bits)
  }

  function GetCastMethod(to: IntType, from: IntType): CastMethod {
    if IsCastOK(to, from) then CastOK
    else if (to.isSigned && !from.isSigned && from.bits >= to.bits) || (!to.isSigned && !from.isSigned && from.bits > to.bits)
    then CastCheckGTMax
    else if !to.isSigned && from.isSigned && to.bits >= from.bits then CastCheckLTZero
    else if !to.isSigned then CastCheckMinMaxUnsigned else CastCheckMinMaxSigned
  }

  /** The value in the other type if it fits there, and failure otherwise. */
  function SafeCast(T: IntType, U: IntType, u: int): (r: Option<int>)
    requires T.Ok() && U.Ok() && U.Fits(u)
    ensures r == Checked(T, u)
  {
    match GetCastMethod(T, U)
    case CastOK => Some(T.Cast(u))
    case CastCheckLTZero => if u < 0 then None else Some(T.Cast(u))
    case CastCheckGTMax => if u > U.Cast(T.MaxInt()) then None else Some(T.Cast(u))
    case CastCheckMinMaxUnsigned => if u > T.MaxInt() || u < 0 then None else Some(T.Cast(u))
    case CastCheckMinMaxSigned => if u > T.MaxInt() || u < T.MinInt() then None else Some(T.Cast(u))
  }

  datatype ComparisonMethod =
    | ComparisonMethod_Ok | ComparisonMethod_CastInt | ComparisonMethod_CastInt64
    | ComparisonMethod_UnsignedT | ComparisonMethod_UnsignedU

  function ValidComparison(T: IntType, U: IntType): ComparisonMethod {
    if IsLikeSigned(T, U) then ComparisonMethod_Ok
    else if (T.isSigned && T.bits < 64 && U.bits < 32) || (U.isSigned && T.bits < 32 && U.bits < 64) then ComparisonMethod_CastInt
    else if (T.isSigned && U.bits < 64) || (U.isSigned && T.bits < 64) then ComparisonMethod_CastInt64
    else if !T.isSigned then ComparisonMethod_UnsignedT
    else ComparisonMethod_UnsignedU
  }

  /** Equality of the two numbers, whatever their types. */
  predicate IsEquals(T: IntType, U: IntType, t: int, u: int)
    requires T.Ok() && U.Ok() && T.Fits(t) && U.Fits(u)
    ensures IsEquals(T, U, t, u) <==> t == u
  {
    match ValidComparison(T, U)
    case ComparisonMethod_Ok => t == u
    case ComparisonMethod_CastInt => INT32.Cast(t) == INT32.Cast(u)
    case ComparisonMethod_CastInt64 => INT64.Cast(t) == INT64.Cast(u)
    case ComparisonMethod_UnsignedT => u >= 0 && t == T.Cast(u)
    case ComparisonMethod_UnsignedU => t >= 0 && U.Cast(t) == u
  }

  /** The order of the two numbers, whatever their types. */
  predicate GreaterThan(T: IntType, U: IntType, t: int, u: int)
    requires T.Ok() && U.Ok() && T.Fits(t) && U.Fits(u)
    ensures GreaterThan(T, U, t, u) <==> t > u
  {
    match ValidComparison(T, U)
    case ComparisonMethod_Ok => t > u
    case ComparisonMethod_CastInt => INT32.Cast(t) > INT32.Cast(u)
    case ComparisonMethod_CastInt64 => INT64.Cast(t) > INT64.Cast(u)
    case ComparisonMethod_UnsignedT => u < 0 || t > T.Cast(u)
    case ComparisonMethod_UnsignedU => t >= 0 && U.Cast(t) > u
  }
}
