/** Fixed-width integers, and the zones into which pairs of them fall (safeint3.hpp). */
module IntTypes {
  import opened Wrappers

  /** A signed or unsigned integer type of 8, 16, 32 or 64 bits. */
  datatype IntType = IntType(isSigned: bool, bits: nat)
  {
    predicate Ok() {
      bits == 8 || bits == 16 || bits == 32 || bits == 64
    }

    /** Number of different values. */
    function Size(): nat {
      if bits == 8 then 0x100 else if bits == 16 then 0x1_0000 else if bits == 32 then 0x1_0000_0000 else 0x1_0000_0000_0000_0000
    }

    function MaxInt(): int {
      if isSigned then Size() / 2 - 1 else Size() - 1
    }

    function MinInt(): int {
      if isSigned then -(Size() / 2) else 0
    }

    predicate Fits(x: int) {
      MinInt() <= x <= MaxInt()
    }

    function LowBits(x: int): int {
      if bits == 8 then x % 0x100 else if bits == 16 then x % 0x1_0000 else if bits == 32 then x % 0x1_0000_0000
      else x % 0x1_0000_0000_0000_0000
    }

    lemma LowBitsMove(x: int)
      ensures 0 <= LowBits(x) < Size()
      ensures LowBits(x) <= x - Size() || LowBits(x) == x || LowBits(x) == x + Size() || LowBits(x) >= x + 2 * Size()
    {
    }

    /** Conversion to this type keeps the low bits. */
    function Cast(x: int): (r: int)
      ensures Fits(r)
      ensures Fits(x) ==> r == x
      ensures r == x || r <= x - Size() || r >= x + Size()
    {
      LowBitsMove(x);
      var low := LowBits(x);
      if isSigned && low >= Size() / 2 then low - Size() else low
    }

    predicate IsLT32Bit() { bits < 32 }
    predicate Is32Bit() { bits == 32 }
    predicate IsLT64Bit() { bits < 64 }
    predicate Is64Bit() { bits == 64 }
    predicate IsInt32() { bits == 32 && isSigned }
    predicate IsUint32() { bits == 32 && !isSigned }
    predicate IsInt64() { bits == 64 && isSigned }
    predicate IsUint64() { bits == 64 && !isSigned }
  }

  /** A type has two values for every bit, and half of them are negative when it is signed. */
  lemma SizeIsPower(T: IntType)
    requires T.Ok()
    ensures T.Size() == TwoToThe(T.bits) == T.MaxInt() - T.MinInt() + 1
    ensures T.MinInt() + (if T.isSigned then TwoToThe(T.bits - 1) else 0) == 0
  {
    assert TwoToThe(4) == 16;
    TwoToTheSum(4, 4);
    TwoToTheSum(8, 8);
    TwoToTheSum(16, 16);
    TwoToTheSum(32, 32);
  }

  /** How far a cast is from the number. */
  lemma CastMoves(T: IntType, x: int) returns (k: int)
    requires T.Ok()
    ensures T.Cast(x) == x + k * T.Size()
  {
    var low := T.LowBits(x);
    k := -(x / T.Size()) - if T.isSigned && low >= T.Size() / 2 then 1 else 0;
  }

  /** The cast is the only number of the type that differs by a multiple of the number of values. */
  lemma CastIs(T: IntType, x: int, r: int, k: int)
    requires T.Ok() && T.Fits(r) && r == x + k * T.Size()
    ensures T.Cast(x) == r
  {
    var j := CastMoves(T, x);
    var n := T.Size();
    assert r - T.Cast(x) == (k - j) * n;
    assert k > j ==> (k - j) * n >= n;
    assert k < j ==> (j - k) * n >= n;
  }

  /** A number just outside the type is moved into it. */
  function Wrapped(T: IntType, x: int): int {
    if x > T.MaxInt() then x - T.Size() else if x < T.MinInt() then x + T.Size() else x
  }

  lemma CastWraps(T: IntType, x: int)
    requires T.Ok() && T.MinInt() - T.Size() <= x <= T.MaxInt() + T.Size()
    ensures T.Cast(x) == Wrapped(T, x)
  {
    CastIs(T, x, Wrapped(T, x), if x > T.MaxInt() then -1 else if x < T.MinInt() then 1 else 0);
  }

  /** Numbers that differ by a multiple of the number of values have the same cast. */
  lemma CastAgain(T: IntType, x: int, y: int, k: int)
    requires T.Ok() && x == y + k * T.Size()
    ensures T.Cast(x) == T.Cast(y)
  {
    var j := CastMoves(T, y);
    assert (j - k) * T.Size() == j * T.Size() - k * T.Size();
    CastIs(T, x, T.Cast(y), j - k);
  }

  const INT32 := IntType(true, 32)
  const UINT32 := IntType(false, 32)
  const INT64 := IntType(true, 64)
  const UINT64 := IntType(false, 64)

  /** The exact result, unless the type cannot hold it. */
  function Checked(t: IntType, x: int): Option<int> {
    if t.Fits(x) then Some(x) else None
  }

  datatype Zone =
    | UintLT32_UintLT32 | Uint32_UintLT64 | UintLT32_Uint32 | Uint64_Uint | UintLT64_Uint64
    | UintLT32_IntLT32 | Uint32_IntLT64 | UintLT32_Int32 | Uint64_Int | UintLT64_Int64 | Uint64_Int64
    | IntLT32_IntLT32 | Int32_IntLT64 | IntLT32_Int32 | Int64_Int64 | Int64_Int | IntLT64_Int64
    | IntLT32_UintLT32 | Int32_UintLT32 | IntLT64_Uint32 | Int64_UintLT64 | Int_Uint64 | Int64_Uint64

  /** The flags of the region of a pair of types. */
  predicate InZone(z: Zone, T: IntType, U: IntType) {
    var bothUnsigned, bothSigned := !T.isSigned && !U.isSigned, T.isSigned && U.isSigned;
    var bothLT32Bit := T.IsLT32Bit() && U.IsLT32Bit();
    match z
    case UintLT32_UintLT32 => bothUnsigned && bothLT32Bit
    case Uint32_UintLT64 => bothUnsigned && T.Is32Bit() && U.IsLT64Bit()
    case UintLT32_Uint32 => bothUnsigned && T.IsLT32Bit() && U.Is32Bit()
    case Uint64_Uint => bothUnsigned && T.Is64Bit()
    case UintLT64_Uint64 => bothUnsigned && T.IsLT64Bit() && U.Is64Bit()
    case UintLT32_IntLT32 => !T.isSigned && U.isSigned && bothLT32Bit
    case Uint32_IntLT64 => T.IsUint32() && U.isSigned && U.IsLT64Bit()
    case UintLT32_Int32 => !T.isSigned && T.IsLT32Bit() && U.IsInt32()
    case Uint64_Int => T.IsUint64() && U.isSigned && U.IsLT64Bit()
    case UintLT64_Int64 => !T.isSigned && T.IsLT64Bit() && U.IsInt64()
    case Uint64_Int64 => T.IsUint64() && U.IsInt64()
    case IntLT32_IntLT32 => bothSigned && bothLT32Bit
    case Int32_IntLT64 => bothSigned && T.Is32Bit() && U.IsLT64Bit()
    case IntLT32_Int32 => bothSigned && T.IsLT32Bit() && U.Is32Bit()
    case Int64_Int64 => bothSigned && T.IsInt64() && U.IsInt64()
    case Int64_Int => bothSigned && T.Is64Bit() && U.IsLT64Bit()
    case IntLT64_Int64 => bothSigned && T.IsLT64Bit() && U.Is64Bit()
    case IntLT32_UintLT32 => T.isSigned && !U.isSigned && bothLT32Bit
    case Int32_UintLT32 => T.IsInt32() && !U.isSigned && U.IsLT32Bit()
    case IntLT64_Uint32 => T.isSigned && T.IsLT64Bit() && U.IsUint32()
    case Int64_UintLT64 => T.IsInt64() && !U.isSigned && U.IsLT64Bit()
    case Int_Uint64 => T.isSigned && U.IsUint64() && T.IsLT64Bit()
    case Int64_Uint64 => T.IsInt64() && U.IsUint64()
  }

  /** The zone of a pair of types. */
  function ZoneOf(T: IntType, U: IntType): Zone {
    if !T.isSigned && !U.isSigned then
      if T.Is64Bit() then Uint64_Uint
      else if U.Is64Bit() then UintLT64_Uint64
      else if T.Is32Bit() then Uint32_UintLT64
      else if U.Is32Bit() then UintLT32_Uint32 else UintLT32_UintLT32
    else if !T.isSigned then
      if T.Is64Bit() then if U.Is64Bit() then Uint64_Int64 else Uint64_Int
      else if U.Is64Bit() then UintLT64_Int64
      else if T.Is32Bit() then Uint32_IntLT64
      else if U.Is32Bit() then UintLT32_Int32 else UintLT32_IntLT32
    else if U.isSigned then
      if T.Is64Bit() then if U.Is64Bit() then Int64_Int64 else Int64_Int
      else if U.Is64Bit() then IntLT64_Int64
      else if T.Is32Bit() then Int32_IntLT64
      else if U.Is32Bit() then IntLT32_Int32 else IntLT32_IntLT32
    else
      if T.Is64Bit() then if U.Is64Bit() then Int64_Uint64 else Int64_UintLT64
      else if U.Is64Bit() then Int_Uint64
      else if U.Is32Bit() then IntLT64_Uint32
      else if T.Is32Bit() then Int32_UintLT32 else IntLT32_UintLT32
  }

  /** Every pair of types lies in exactly one zone. */
  lemma ExactlyOneZone(T: IntType, U: IntType, z: Zone)
    requires T.Ok() && U.Ok()
    ensures InZone(z, T, U) <==> z == ZoneOf(T, U)
  {
  }
}
