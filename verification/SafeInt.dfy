/** Integers of a fixed width whose operators raise an error instead of overflowing. */
module SafeInt {
  import opened Wrappers
  import opened IntTypes
  import opened SafeCasts
  import opened SafeMultiplication
  import opened SafeAddition

  // ---------- expressions ----------

  datatype Operator = Times | Plus | Minus
  {
    function Apply(x: int, y: int): int {
      match this
      case Times => x * y
      case Plus => x + y
      case Minus => x - y
    }
  }

  /** Constants of any type, conversions, and operators whose result has the type of the left operand. */
  datatype Expression =
    | Constant(t: IntType, value: int)
    | Convert(t: IntType, arg: Expression)
    | Operate(op: Operator, left: Expression, right: Expression)
  {
    predicate Ok() {
      match this
      case Constant(t, x) => t.Ok() && t.Fits(x)
      case Convert(t, e) => t.Ok() && e.Ok()
      case Operate(_, l, r) => l.Ok() && r.Ok()
    }

    function Type(): IntType {
      match this
      case Constant(t, _) => t
      case Convert(t, _) => t
      case Operate(_, l, _) => l.Type()
    }

    /** The value over the unbounded integers. */
    function Exact(): int {
      match this
      case Constant(_, x) => x
      case Convert(_, e) => e.Exact()
      case Operate(op, l, r) => op.Apply(l.Exact(), r.Exact())
    }

    /** Every intermediate result has a value of its type. */
    predicate InRange() {
      && Type().Fits(Exact())
      && match this
         case Constant(_, _) => true
         case Convert(_, e) => e.InRange()
         case Operate(_, l, r) => l.InRange() && r.InRange()
    }

    lemma TypeOk()
      requires Ok()
      ensures Type().Ok()
    {
    }
  }

  /** Evaluation of an expression of any size: its exact value, unless some intermediate result is out of range. */
  method Evaluate(e: Expression) returns (r: Option<int>)
    requires e.Ok()
    ensures r == if e.InRange() then Some(e.Exact()) else None
    decreases e
  {
    e.TypeOk();
    match e
    case Constant(_, x) => return Some(x);
    case Convert(t, arg) =>
      arg.TypeOk();
      r := Evaluate(arg);
      if r.Some? {
        r := SafeCast(t, arg.Type(), r.value);
      }
    case Operate(op, left, right) =>
      left.TypeOk();
      right.TypeOk();
      var x := Evaluate(left);
      if x == None {
        return None;
      }
      var y := Evaluate(right);
      if y == None {
        return None;
      }
      match op
      case Times => r := SafeMultiply(left.Type(), right.Type(), x.value, y.value);
      case Plus => r := SafeAdd(left.Type(), right.Type(), x.value, y.value);
      case Minus => r := SafeSubtract(left.Type(), right.Type(), x.value, y.value);
  }

  // ---------- parsing ----------

  predicate IsDigit(c: char) {
    '0' <= c <= '9'
  }

  function Digit(c: char): nat
    requires IsDigit(c)
  {
    c as int - '0' as int
  }

  /** The longest prefix of digits. */
  function DigitPrefix(s: string): (r: string)
    ensures |r| <= |s| && r == s[..|r|] && forall i :: 0 <= i < |r| ==> IsDigit(r[i])
    ensures |r| < |s| ==> !IsDigit(s[|r|])
  {
    if s == "" || !IsDigit(s[0]) then "" else [s[0]] + DigitPrefix(s[1..])
  }

  function DecimalValue(s: string): (r: int)
    requires forall i :: 0 <= i < |s| ==> IsDigit(s[i])
    ensures r >= 0
  {
    if s == "" then 0 else DecimalValue(s[..|s| - 1]) * 10 + Digit(s[|s| - 1])
  }

  lemma {:induction false} DecimalValueGrows(s: string, n: nat)
    requires n <= |s| && forall i :: 0 <= i < |s| ==> IsDigit(s[i])
    ensures DecimalValue(s[..n]) <= DecimalValue(s)
    decreases |s|
  {
    if n < |s| {
      assert s[..|s| - 1][..n] == s[..n];
      DecimalValueGrows(s[..|s| - 1], n);
    } else {
      assert s[..n] == s;
    }
  }

  /** A sign may precede the digits. */
  function Unsigned(s: string): string {
    if s != "" && (s[0] == '-' || s[0] == '+') then s[1..] else s
  }

  function Signed(negative: bool, x: int): int {
    if negative then -x else x
  }

  lemma NextDigit(s: string, n: nat)
    requires n < |s| && forall i :: 0 <= i < |s| ==> IsDigit(s[i])
    ensures DecimalValue(s[..n + 1]) == DecimalValue(s[..n]) * 10 + Digit(s[n])
  {
    assert s[..n + 1][..n] == s[..n];
  }

  function ParsedValue(s: string): int {
    Signed(s != "" && s[0] == '-', DecimalValue(DigitPrefix(Unsigned(s))))
  }

  const DIGITS := "0123456789"

  /** The decimal numeral of a number, without leading zeros. */
  function Numeral(n: nat): (r: string)
    ensures r != ""
  {
    if n < 10 then [DIGITS[n]] else Numeral(n / 10) + [DIGITS[n % 10]]
  }

  function Decimal(x: int): string {
    if x < 0 then "-" + Numeral(-x) else Numeral(x)
  }

  lemma {:induction false} NumeralValue(n: nat)
    ensures forall i :: 0 <= i < |Numeral(n)| ==> IsDigit(Numeral(n)[i])
    ensures DecimalValue(Numeral(n)) == n
    decreases n
  {
    if n >= 10 {
      var s := Numeral(n / 10);
      NumeralValue(n / 10);
      assert (s + [DIGITS[n % 10]])[..|s|] == s;
    }
  }

  /** What follows the digits is not looked at. */
  lemma {:induction false} DigitsFirst(s: string, rest: string)
    requires forall i :: 0 <= i < |s| ==> IsDigit(s[i])
    requires rest != "" ==> !IsDigit(rest[0])
    ensures DigitPrefix(s + rest) == s
    decreases s
  {
    if s == "" {
      assert s + rest == rest;
    } else {
      DigitsFirst(s[1..], rest);
      assert (s + rest)[1..] == s[1..] + rest;
    }
  }

  lemma DigitsAreDigits(c: char)
    ensures c in DIGITS <==> IsDigit(c)
  {
    if IsDigit(c) { assert c == DIGITS[c as int - '0' as int]; }
  }

  lemma NumeralRead(n: nat, rest: string)
    requires rest != "" ==> rest[0] !in DIGITS
    ensures IsDigit((Numeral(n) + rest)[0]) && DecimalValue(DigitPrefix(Numeral(n) + rest)) == n
  {
    NumeralValue(n);
    if rest != "" { DigitsAreDigits(rest[0]); }
    DigitsFirst(Numeral(n), rest);
  }

  lemma SignRead(s: string, v: int)
    requires s != "" && IsDigit(s[0]) && DecimalValue(DigitPrefix(s)) == v
    ensures ParsedValue(s) == v && ParsedValue("+" + s) == v && ParsedValue("-" + s) == -v
  {
    assert Unsigned(s) == s;
    assert ("+" + s)[1..] == s && ("+" + s)[0] == '+';
    assert ("-" + s)[1..] == s && ("-" + s)[0] == '-';
  }

  /** Parsing the decimal numeral of a number gives back the number, whatever follows it and also with a plus sign:
      with the method below, the number itself for every type that holds it, and an error for every other. */
  lemma NumeralParsed(x: int, rest: string)
    requires rest != "" ==> rest[0] !in DIGITS
    ensures Decimal(x) != "" && ParsedValue(Decimal(x) + rest) == x
    ensures x >= 0 ==> ParsedValue("+" + (Decimal(x) + rest)) == x
  {
    hide Numeral, DecimalValue, DigitPrefix, ParsedValue, IsDigit;
    var n := if x < 0 then -x else x;
    var s := Numeral(n) + rest;
    NumeralRead(n, rest);
    SignRead(s, n);
    if x < 0 { assert Decimal(x) + rest == "-" + s; }
  }

  class SafeInt {
    const T: IntType
    var m_int: int

    ghost predicate Valid()
      reads this
    {
      T.Ok() && T.Fits(m_int)
    }

    constructor (t: IntType)
      requires t.Ok()
      ensures T == t && m_int == 0 && Valid()
    {
      T := t;
      m_int := 0;
    }

    method MultiplyBy(x: int) returns (ok: bool)
      requires Valid() && T.Fits(x)
      modifies this
      ensures Valid() && ok == T.Fits(old(m_int) * x) && m_int == if ok then old(m_int) * x else old(m_int)
    {
      var r := SafeMultiply(T, T, m_int, x);
      ok := r.Some?;
      m_int := if ok then r.value else m_int;
    }

    method Add(x: int) returns (ok: bool)
      requires Valid() && T.Fits(x)
      modifies this
      ensures Valid() && ok == T.Fits(old(m_int) + x) && m_int == if ok then old(m_int) + x else old(m_int)
    {
      var r := SafeAdd(T, T, m_int, x);
      ok := r.Some?;
      m_int := if ok then r.value else m_int;
    }

    method Subtract(x: int) returns (ok: bool)
      requires Valid() && T.Fits(x)
      modifies this
      ensures Valid() && ok == T.Fits(old(m_int) - x) && m_int == if ok then old(m_int) - x else old(m_int)
    {
      var r := SafeSubtract(T, T, m_int, x);
      ok := r.Some?;
      m_int := if ok then r.value else m_int;
    }

    /** One more digit. */
    method AppendDigit(negative: bool, d: int) returns (ok: bool)
      requires Valid() && 0 <= d < 10 && (negative ==> m_int <= 0) && (!negative ==> m_int >= 0)
      modifies this
      ensures Valid()
      ensures var x := old(m_int) * 10 + if negative then -d else d; ok == T.Fits(x) && (ok ==> m_int == x)
    {
      ok := true;
      if m_int != 0 {
        ok := MultiplyBy(10);
        if !ok {
          return;
        }
      }
      if !negative {
        ok := Add(d);
      } else {
        ok := Subtract(d);
      }
    }

    /** Rounds up to a multiple of a power of two. */
    method Align(bits: nat) returns (ok: bool)
      requires Valid() && 1 <= bits <= 8 && m_int >= 0
      requires if T.isSigned then bits < T.bits - 1 else bits < T.bits
      modifies this
      ensures Valid()
      ensures ok <==> T.Fits(RoundedUp(old(m_int), PowerOfTwo(bits)))
      ensures ok ==> m_int == RoundedUp(old(m_int), PowerOfTwo(bits))
    {
      PowerOfTwoDivides(T, bits);
      ok := AlignTo(PowerOfTwo(bits), T.Size() / PowerOfTwo(bits));
    }

    method AlignTo(p: int, ghost k: int) returns (ok: bool)
      requires Valid() && m_int >= 0 && Divides(T, p, k)
      modifies this
      ensures Valid() && ok == T.Fits(RoundedUp(old(m_int), p))
      ensures ok ==> m_int == RoundedUp(old(m_int), p)
    {
      RoundedUpIsLeast(m_int, p, 0);
      if m_int == 0 {
        return true;
      }
      AlignedFits(T, m_int, p, k);
      m_int := Aligned(T, m_int, p);
      ok := m_int > 0;
    }
  }

  function PowerOfTwo(bits: nat): (r: nat)
    requires 1 <= bits <= 8
  {
    if bits == 1 then 2 else if bits == 2 then 4 else if bits == 3 then 8 else if bits == 4 then 16
    else if bits == 5 then 32 else if bits == 6 then 64 else if bits == 7 then 128 else 256
  }

  /** One more bit doubles the power. */
  lemma PowerOfTwoDoubles(bits: nat)
    requires 1 <= bits <= 8
    ensures PowerOfTwo(bits) == TwoToThe(bits)
  {
    assert TwoToThe(1) == 2 * TwoToThe(0);
    assert bits > 4 ==> TwoToThe(4) == 16;
  }

  /** The least multiple of p that is not below x. */
  function RoundedUp(x: int, p: int): int
    requires p > 0
  {
    (x + (p - 1)) / p * p
  }

  lemma DivisionRest(x: int, p: int)
    requires p > 0
    ensures x == x / p * p + x % p && 0 <= x % p < p
  {
  }

  lemma MultiplesApart(a: int, b: int, p: int)
    requires p > 0
    ensures a < b ==> a * p + p <= b * p
    ensures a * p < b * p + p ==> a <= b
  {
    assert (b - a) * p == b * p - a * p;
    assert b - a >= 1 ==> (b - a) * p >= p;
    assert a - b >= 1 ==> (a - b) * p >= p;
  }

  lemma RoundedUpIsLeast(x: int, p: int, k: int)
    requires p > 0
    ensures x <= RoundedUp(x, p) < x + p
    ensures k * p >= x ==> RoundedUp(x, p) <= k * p
  {
    DivisionRest(x + (p - 1), p);
    var a := (x + (p - 1)) / p;
    MultiplesApart(a, k, p);
    MultiplesApart(k, a, p);
  }

  /** Moving by a multiple of p moves the rounding along. */
  lemma RoundedUpShifted(s: int, x: int, p: int, k: int)
    requires p > 0 && s == x + (p - 1) - k * p
    ensures s - s % p == RoundedUp(x, p) - k * p
  {
    var a, b := s / p, (x + (p - 1)) / p;
    DivisionRest(s, p);
    DivisionRest(x + (p - 1), p);
    assert (b - k) * p == b * p - k * p;
    MultiplesApart(a, b - k, p);
    MultiplesApart(b - k, a, p);
  }

  /** The type has a whole number k of blocks of p values, and so has its positive half. */
  predicate Divides(T: IntType, p: int, k: int) {
    0 < p <= 256 && k * p == T.Size() && (T.isSigned ==> k % 2 == 0 && k / 2 * p == T.Size() / 2)
  }

  lemma PowerOfTwoDivides(T: IntType, bits: nat)
    requires T.Ok() && 1 <= bits <= 8 && if T.isSigned then bits < T.bits - 1 else bits < T.bits
    ensures Divides(T, PowerOfTwo(bits), T.Size() / PowerOfTwo(bits))
  {
  }

  /** Clearing the low bits of the sum; small operands are promoted to int before they are added. */
  function Aligned(T: IntType, x: int, p: int): int
    requires p > 0
  {
    var sum := (if T.IsLT32Bit() then INT32 else T).Cast(x + (p - 1));
    T.Cast(sum - sum % p)
  }

  /** This rounds up, or leaves no positive number. */
  lemma AlignedFits(T: IntType, x: int, p: int, k: int)
    requires T.Ok() && T.Fits(x) && x > 0 && Divides(T, p, k)
    ensures if T.Fits(RoundedUp(x, p)) then Aligned(T, x, p) == RoundedUp(x, p) else Aligned(T, x, p) <= 0
  {
    RoundedUpIsLeast(x, p, if T.isSigned then k / 2 else k);
    if T.IsLT32Bit() || T.Fits(x + (p - 1)) {
      SumExact(T, x, p);
    } else {
      SumWrapped(T, x, p, k);
    }
  }

  /** The sum itself does not overflow. */
  lemma SumFits(T: IntType, x: int, p: int)
    requires T.Ok() && T.Fits(x) && x > 0 && 0 < p <= 256 && (T.IsLT32Bit() || T.Fits(x + (p - 1)))
    ensures (if T.IsLT32Bit() then INT32 else T).Cast(x + (p - 1)) == x + (p - 1)
  {
  }

  lemma SumExact(T: IntType, x: int, p: int)
    requires T.Ok() && T.Fits(x) && x > 0 && 0 < p <= 256 && (T.IsLT32Bit() || T.Fits(x + (p - 1)))
    ensures Aligned(T, x, p) == T.Cast(RoundedUp(x, p))
    ensures T.MaxInt() < RoundedUp(x, p) <= T.MaxInt() + 1 ==> Aligned(T, x, p) <= 0
  {
    hide RoundedUp;
    SumFits(T, x, p);
    RoundedUpShifted(x + (p - 1), x, p, 0);
    if RoundedUp(x, p) == T.MaxInt() + 1 { JustTooLarge(T, RoundedUp(x, p)); }
  }

  lemma JustTooLarge(T: IntType, y: int)
    requires T.Ok() && y == T.MaxInt() + 1
    ensures T.Cast(y) <= 0
  {
    CastIs(T, y, y - T.Size(), -1);
  }

  lemma SumWrapped(T: IntType, x: int, p: int, k: int)
    requires T.Ok() && T.Fits(x) && x > 0 && Divides(T, p, k) && !T.IsLT32Bit() && !T.Fits(x + (p - 1))
    requires RoundedUp(x, p) <= T.MaxInt() + 1
    ensures Aligned(T, x, p) == T.Cast(RoundedUp(x, p) - T.Size())
    ensures if T.Fits(RoundedUp(x, p)) then Aligned(T, x, p) == RoundedUp(x, p) else Aligned(T, x, p) <= 0
  {
    CastIs(T, x + (p - 1), x + (p - 1) - T.Size(), -1);
    RoundedUpShifted(x + (p - 1) - T.Size(), x, p, k);
    RoundedUpIsLeast(x, p, k);
    if T.Fits(RoundedUp(x, p)) {
      CastIs(T, RoundedUp(x, p) - T.Size(), RoundedUp(x, p), 1);
    } else {
      CastIs(T, RoundedUp(x, p) - T.Size(), RoundedUp(x, p) - T.Size(), 0);
    }
  }

  /** The value of the digits after an optional sign; an error exactly when there is no input at all,
      or the value does not fit. */
  method SafeTtoI(t: IntType, input: Option<string>) returns (r: Option<int>)
    requires t.Ok()
    ensures r == if input.None? || input.value == "" then None else Checked(t, ParsedValue(input.value))
  {
    if input == None || input.value == "" {
      return None;
    }
    var negative := input.value[0] == '-';
    var tmp := if input.value[0] == '-' || input.value[0] == '+' then input.value[1..] else input.value;
    ghost var digits := DigitPrefix(tmp);
    var s := new SafeInt(t);
    var n := 0;
    while n < |tmp|
      invariant n <= |digits| && s.Valid() && s.T == t && fresh(s)
      invariant s.m_int == Signed(negative, DecimalValue(digits[..n]))
    {
      if !IsDigit(tmp[n]) {
        break;
      }
      NextDigit(digits, n);
      var ok := s.AppendDigit(negative, Digit(tmp[n]));
      if !ok {
        DecimalValueGrows(digits, n + 1);
        return None;
      }
      n := n + 1;
    }
    assert digits[..n] == digits;
    return Some(s.m_int);
  }
}
