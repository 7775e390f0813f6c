/** Arithmetic terms, and the rewriting of sums and products into a normal form. */
module Arithmetic {
  import opened Wrappers

  /** A term stored by the manager: minus signs have been rewritten.  Constants are exact;
      a variable or De Bruijn index is an unknown. */
  datatype ArithTerm =
    | Unknown(id: nat)
    | Number(value: real)
    | Plus(left: ArithTerm, right: ArithTerm)
    | Times(left: ArithTerm, right: ArithTerm)
    | Call(name: string, args: seq<ArithTerm>)
  {
    predicate IsFuncTerm() {
      Plus? || Times? || Call?
    }

    function Value(e: Env): real {
      match this
      case Unknown(x) => e.unknown(x)
      case Number(c) => c
      case Plus(l, r) => l.Value(e) + r.Value(e)
      case Times(l, r) => l.Value(e) * r.Value(e)
      case Call(f, args) => e.call(f, seq(|args|, n requires 0 <= n < |args| => args[n].Value(e)))
    }

    /** Does the term occur in this one? */
    predicate Contains(t: ArithTerm) {
      this == t ||
      match this
      case Unknown(_) => false
      case Number(_) => false
      case Plus(l, r) => l.Contains(t) || r.Contains(t)
      case Times(l, r) => l.Contains(t) || r.Contains(t)
      case Call(_, args) => exists n :: 0 <= n < |args| && args[n].Contains(t)
    }

    /** No product has the constant 0 as a factor. */
    predicate NoZeroFactor() {
      match this
      case Plus(l, r) => l.NoZeroFactor() && r.NoZeroFactor()
      case Times(l, r) => l != Number(0.0) && r != Number(0.0) && l.NoZeroFactor() && r.NoZeroFactor()
      case Call(_, args) => forall n :: 0 <= n < |args| ==> args[n].NoZeroFactor()
      case _ => true
    }
  }

  datatype Env = Env(unknown: nat -> real, call: (string, seq<real>) -> real)

  /** What the manager is asked to make a term of. */
  datatype Request =
    | Negation(arg: ArithTerm)
    | Difference(left: ArithTerm, right: ArithTerm)
    | Sum(left: ArithTerm, right: ArithTerm)
    | Product(left: ArithTerm, right: ArithTerm)
    | Other(name: string, args: seq<ArithTerm>)
  {
    function Value(e: Env): real {
      match this
      case Negation(a) => -a.Value(e)
      case Difference(a, b) => a.Value(e) - b.Value(e)
      case Sum(a, b) => a.Value(e) + b.Value(e)
      case Product(a, b) => a.Value(e) * b.Value(e)
      case Other(f, args) => Call(f, args).Value(e)
    }

    predicate Ok() {
      match this
      case Negation(a) => a.NoZeroFactor()
      case Other(_, args) => forall n :: 0 <= n < |args| ==> args[n].NoZeroFactor()
      case Difference(a, b) => a.NoZeroFactor() && b.NoZeroFactor()
      case Sum(a, b) => a.NoZeroFactor() && b.NoZeroFactor()
      case Product(a, b) => a.NoZeroFactor() && b.NoZeroFactor()
    }

    /** Is the unknown mentioned? */
    predicate Mentions(x: nat) {
      match this
      case Negation(a) => a.Contains(Unknown(x))
      case Other(_, args) => exists n :: 0 <= n < |args| && args[n].Contains(Unknown(x))
      case Difference(a, b) => a.Contains(Unknown(x)) || b.Contains(Unknown(x))
      case Sum(a, b) => a.Contains(Unknown(x)) || b.Contains(Unknown(x))
      case Product(a, b) => a.Contains(Unknown(x)) || b.Contains(Unknown(x))
    }
  }

  /** The term has the value that was asked for, in every environment, and mentions nothing new. */
  ghost predicate Meets(t: ArithTerm, request: Request) {
    && t.NoZeroFactor()
    && (forall e: Env :: t.Value(e) == request.Value(e))
    && (forall x: nat :: t.Contains(Unknown(x)) ==> request.Mentions(x))
  }

  // ---------- orderings ----------

  /** The order of creation of terms; nothing depends on its being an order. */
  type IdOrder = (ArithTerm, ArithTerm) -> bool

  /** Constants come first. */
  predicate MultiplicationBefore(before: IdOrder, a: ArithTerm, b: ArithTerm) {
    if a.Number? then if b.Number? then before(a, b) else true
    else if b.Number? then false
    else before(a, b)
  }

  /** The factors of a product from left to right, the first of them a constant. */
  function Factors(t: ArithTerm): (r: seq<ArithTerm>)
    ensures |r| > 0 && r[0].Number?
  {
    match t
    case Times(l, r) => Factors(l) + [r]
    case Number(_) => [t]
    case _ => [Number(1.0), t]
  }

  /** The terms of a sum from left to right, the first of them a constant. */
  function Summands(t: ArithTerm): (r: seq<ArithTerm>)
    ensures |r| > 0 && r[0].Number?
  {
    match t
    case Plus(l, r) => Summands(l) + [r]
    case Number(_) => [t]
    case _ => [Number(0.0), t]
  }

  function ProductOf(ts: seq<ArithTerm>, e: Env): real {
    if ts == [] then 1.0 else ProductOf(ts[..|ts| - 1], e) * ts[|ts| - 1].Value(e)
  }

  function SumOf(ts: seq<ArithTerm>, e: Env): real {
    if ts == [] then 0.0 else SumOf(ts[..|ts| - 1], e) + ts[|ts| - 1].Value(e)
  }

  lemma ProductOfAppend(ts: seq<ArithTerm>, t: ArithTerm, e: Env)
    ensures ProductOf(ts + [t], e) == ProductOf(ts, e) * t.Value(e)
  {
    assert (ts + [t])[..|ts|] == ts;
  }

  lemma SumOfAppend(ts: seq<ArithTerm>, t: ArithTerm, e: Env)
    ensures SumOf(ts + [t], e) == SumOf(ts, e) + t.Value(e)
  {
    assert (ts + [t])[..|ts|] == ts;
  }

  lemma ProductOfOne(t: ArithTerm, e: Env)
    ensures ProductOf([t], e) == t.Value(e)
  {
    ProductOfAppend([], t, e);
    assert [] + [t] == [t];
  }

  lemma SingleFactor(t: ArithTerm, e: Env)
    requires !t.Times?
    ensures ProductOf(Factors(t), e) == t.Value(e)
  {
    ProductOfOne(t, e);
    if !t.Number? {
      ProductOfOne(Number(1.0), e);
      ProductOfAppend([Number(1.0)], t, e);
      assert Factors(t) == [Number(1.0)] + [t];
    }
  }

  lemma {:induction false} FactorsValue(t: ArithTerm, e: Env)
    ensures ProductOf(Factors(t), e) == t.Value(e)
    decreases t
  {
    if t.Times? {
      FactorsValue(t.left, e);
      ProductOfAppend(Factors(t.left), t.right, e);
    } else {
      SingleFactor(t, e);
    }
  }

  lemma {:induction false} SummandsValue(t: ArithTerm, e: Env)
    ensures SumOf(Summands(t), e) == t.Value(e)
    decreases t
  {
    match t
    case Plus(l, r) =>
      SummandsValue(l, e);
      SumOfAppend(Summands(l), r, e);
    case Number(_) => SumOfAppend([], t, e);
    case _ =>
      SumOfAppend([], Number(0.0), e);
      SumOfAppend([Number(0.0)], t, e);
  }

  /** The first factor can be taken out. */
  lemma {:induction false} ProductOfFirst(ts: seq<ArithTerm>, c: real, p: real, e: Env)
    requires ts != [] && c == ts[0].Value(e) && p == ProductOf(ts[1..], e)
    ensures ProductOf(ts, e) == c * p
    decreases |ts|
  {
    var init, last := ts[..|ts| - 1], ts[|ts| - 1];
    if init == [] {
      assert ts[1..] == [];
    } else {
      var q := ProductOf(init[1..], e);
      ProductOfFirst(init, c, q, e);
      assert ts[1..][..|ts| - 2] == init[1..];
      Associative(c, q, last.Value(e));
    }
  }

  lemma Associative(a: real, b: real, c: real)
    ensures a * b * c == a * (b * c)
  {
  }

  /** Parts of a term are as good as the term, and mention nothing else. */
  lemma {:induction false} FactorsParts(t: ArithTerm)
    requires t.NoZeroFactor()
    ensures forall n :: 0 <= n < |Factors(t)| ==> Factors(t)[n].NoZeroFactor()
    ensures forall n, x: nat :: 0 <= n < |Factors(t)| && Factors(t)[n].Contains(Unknown(x)) ==> t.Contains(Unknown(x))
    decreases t
  {
    if t.Times? { FactorsParts(t.left); }
  }

  lemma {:induction false} SummandsParts(t: ArithTerm)
    requires t.NoZeroFactor()
    ensures forall n :: 0 <= n < |Summands(t)| ==> Summands(t)[n].NoZeroFactor()
    ensures forall n, x: nat :: 0 <= n < |Summands(t)| && Summands(t)[n].Contains(Unknown(x)) ==> t.Contains(Unknown(x))
    decreases t
  {
    if t.Plus? { SummandsParts(t.left); }
  }

  /** Products with fewer factors come first; otherwise the first place after the constant at which the
      factors are ordered decides. */
  predicate TermOrderBefore(before: IdOrder, a: ArithTerm, b: ArithTerm) {
    var x, y := Factors(a), Factors(b);
    |x| < |y| || (|x| == |y| && exists n :: 1 <= n < |x| && MultiplicationBefore(before, x[n], y[n]) && NotAfter(before, x, y, n))
  }

  /** None of the first n factors of y comes before that of x. */
  predicate NotAfter(before: IdOrder, x: seq<ArithTerm>, y: seq<ArithTerm>, n: nat)
    requires |x| == |y| && n <= |x|
  {
    forall m :: 1 <= m < n ==> !MultiplicationBefore(before, y[m], x[m])
  }

  method TermBefore(before: IdOrder, a: ArithTerm, b: ArithTerm) returns (r: bool)
    ensures r == TermOrderBefore(before, a, b)
  {
    var flat1, flat2 := Factors(a), Factors(b);
    if |flat1| < |flat2| {
      return true;
    } else if |flat1| > |flat2| {
      return false;
    }
    for n := 1 to |flat1|
      invariant NotAfter(before, flat1, flat2, n)
      invariant forall m :: 1 <= m < n ==> !MultiplicationBefore(before, flat1[m], flat2[m])
    {
      if MultiplicationBefore(before, flat1[n], flat2[n]) {
        return true;
      } else if MultiplicationBefore(before, flat2[n], flat1[n]) {
        return false;
      }
    }
    return false;
  }
}
