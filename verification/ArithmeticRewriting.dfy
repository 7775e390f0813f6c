/** How the manager makes arithmetic terms and comparisons.  Recursion is bounded by fuel: running out
    of it gives no term, and every term given is right. */
module ArithmeticRewriting {
  import opened Wrappers
  import opened Arithmetic

  /** A request with the same value that mentions no more may be met instead. */
  lemma MeetsInstead(t: ArithTerm, inner: Request, outer: Request)
    requires Meets(t, inner)
    requires forall e: Env :: inner.Value(e) == outer.Value(e)
    requires forall x: nat :: inner.Mentions(x) ==> outer.Mentions(x)
    ensures Meets(t, outer)
  {
  }

  lemma DistributesLeft(a: ArithTerm, b: ArithTerm, l: ArithTerm, r: ArithTerm, t: ArithTerm)
    requires a.Plus? && Meets(l, Product(a.left, b)) && Meets(r, Product(a.right, b)) && Meets(t, Sum(l, r))
    ensures Meets(t, Product(a, b))
  {
    forall e: Env ensures Sum(l, r).Value(e) == Product(a, b).Value(e) {
      assert l.Value(e) == Product(a.left, b).Value(e) && r.Value(e) == Product(a.right, b).Value(e);
    }
    MeetsInstead(t, Sum(l, r), Product(a, b));
  }

  lemma DistributesRight(a: ArithTerm, b: ArithTerm, l: ArithTerm, r: ArithTerm, t: ArithTerm)
    requires b.Plus? && Meets(l, Product(a, b.left)) && Meets(r, Product(a, b.right)) && Meets(t, Sum(l, r))
    ensures Meets(t, Product(a, b))
  {
    forall e: Env ensures Sum(l, r).Value(e) == Product(a, b).Value(e) {
      assert l.Value(e) == Product(a, b.left).Value(e) && r.Value(e) == Product(a, b.right).Value(e);
    }
    MeetsInstead(t, Sum(l, r), Product(a, b));
  }

  /** (a * x) * y, for b = y * x. */
  lemma ReassociatesProduct(a: ArithTerm, b: ArithTerm, l: ArithTerm, t: ArithTerm)
    requires b.Times? && Meets(l, Product(a, b.right)) && Meets(t, Product(l, b.left))
    ensures Meets(t, Product(a, b))
  {
    forall e: Env ensures Product(l, b.left).Value(e) == Product(a, b).Value(e) {
      assert l.Value(e) == Product(a, b.right).Value(e);
    }
    MeetsInstead(t, Product(l, b.left), Product(a, b));
  }

  /** (x * b) * y, for a = x * y. */
  lemma ReordersProduct(a: ArithTerm, b: ArithTerm, l: ArithTerm, t: ArithTerm)
    requires a.Times? && Meets(l, Product(a.left, b)) && Meets(t, Product(l, a.right))
    ensures Meets(t, Product(a, b))
  {
    forall e: Env ensures Product(l, a.right).Value(e) == Product(a, b).Value(e) {
      assert l.Value(e) == Product(a.left, b).Value(e);
    }
    MeetsInstead(t, Product(l, a.right), Product(a, b));
  }

  lemma ReassociatesSum(a: ArithTerm, b: ArithTerm, l: ArithTerm, t: ArithTerm)
    requires b.Plus? && Meets(l, Sum(a, b.right)) && Meets(t, Sum(l, b.left))
    ensures Meets(t, Sum(a, b))
  {
    forall e: Env ensures Sum(l, b.left).Value(e) == Sum(a, b).Value(e) {
      assert l.Value(e) == Sum(a, b.right).Value(e);
    }
    MeetsInstead(t, Sum(l, b.left), Sum(a, b));
  }

  lemma ReordersSum(a: ArithTerm, b: ArithTerm, l: ArithTerm, t: ArithTerm)
    requires a.Plus? && Meets(l, Sum(a.left, b)) && Meets(t, Sum(l, a.right))
    ensures Meets(t, Sum(a, b))
  {
    forall e: Env ensures Sum(l, a.right).Value(e) == Sum(a, b).Value(e) {
      assert l.Value(e) == Sum(a.left, b).Value(e);
    }
    MeetsInstead(t, Sum(l, a.right), Sum(a, b));
  }

  // ---------- what is answered with how much fuel ----------

  function ConstantProduct(x: real, y: real): ArithTerm {
    Number(x * y)
  }

  /** The term for a product, when the recursion goes no deeper than the fuel. */
  function ProductTerm(fuel: nat, before: IdOrder, a: ArithTerm, b: ArithTerm): Option<ArithTerm>
    decreases fuel, 0
  {
    if fuel == 0 then None
    else if a == Number(0.0) then Some(a)
    else if a == Number(1.0) then Some(b)
    else if a.Number? && b.Number? then Some(ConstantProduct(a.value, b.value))
    else if b == Number(0.0) then Some(b)
    else if b == Number(1.0) then Some(a)
    else if a.Plus? then SumOfProducts(fuel, before, a.left, b, a.right, b)
    else if b.Plus? then SumOfProducts(fuel, before, a, b.left, a, b.right)
    else OrderedProduct(fuel, before, a, b)
  }

  function SumOfProducts(fuel: nat, before: IdOrder, a: ArithTerm, b: ArithTerm, c: ArithTerm, d: ArithTerm): Option<ArithTerm>
    requires fuel > 0
    decreases fuel - 1, 1
  {
    var left, right := ProductTerm(fuel - 1, before, a, b), ProductTerm(fuel - 1, before, c, d);
    if left == None || right == None then None else SumTerm(fuel - 1, before, left.value, right.value)
  }

  function ProductTwice(fuel: nat, before: IdOrder, a: ArithTerm, b: ArithTerm, c: ArithTerm): Option<ArithTerm>
    requires fuel > 0
    decreases fuel - 1, 1
  {
    var newleft := ProductTerm(fuel - 1, before, a, b);
    if newleft == None then None else ProductTerm(fuel - 1, before, newleft.value, c)
  }

  function OrderedProduct(fuel: nat, before: IdOrder, a: ArithTerm, b: ArithTerm): Option<ArithTerm>
    requires fuel > 0
    decreases fuel - 1, 2
  {
    if a.Times? && b.Times? then ProductTwice(fuel, before, a, b.right, b.left)
    else if a.Times? && MultiplicationBefore(before, b, a.right) then ProductTwice(fuel, before, a.left, b, a.right)
    else if !a.IsFuncTerm() && (b.Times? || MultiplicationBefore(before, b, a)) then ProductTerm(fuel - 1, before, b, a)
    else Some(Times(a, b))
  }

  /** Likewise for a sum. */
  function SumTerm(fuel: nat, before: IdOrder, a: ArithTerm, b: ArithTerm): Option<ArithTerm>
    decreases fuel, 0
  {
    if fuel == 0 then None
    else if a == Number(0.0) then Some(b)
    else if a.Number? && b.Number? then Some(Number(a.value + b.value))
    else if a.Plus? && b.Plus? then SumTwice(fuel, before, a, b.right, b.left)
    else if a.Plus? && TermOrderBefore(before, b, a.right) then SumTwice(fuel, before, a.left, b, a.right)
    else if !a.IsFuncTerm() && (b.Plus? || TermOrderBefore(before, b, a)) then SumTerm(fuel - 1, before, b, a)
    else MergedTerm(fuel, before, a, b)
  }

  function SumTwice(fuel: nat, before: IdOrder, a: ArithTerm, b: ArithTerm, c: ArithTerm): Option<ArithTerm>
    requires fuel > 0
    decreases fuel - 1, 1
  {
    var newleft := SumTerm(fuel - 1, before, a, b);
    if newleft == None then None else SumTerm(fuel - 1, before, newleft.value, c)
  }

  function MergedTerm(fuel: nat, before: IdOrder, a: ArithTerm, b: ArithTerm): Option<ArithTerm>
    requires fuel > 0
    decreases fuel - 1, 3
  {
    var right := if a.Plus? then a.right else a;
    if Factors(right)[1..] != Factors(b)[1..] then Some(Plus(a, b))
    else
      var merged := ConstantsAdded(fuel - 1, before, Factors(right), Factors(b)[0], |Factors(right)|);
      if merged == None || !a.Plus? then merged else SumTerm(fuel - 1, before, a.left, merged.value)
  }

  /** The sum of the constants times the first n of the other factors. */
  function ConstantsAdded(fuel: nat, before: IdOrder, factors: seq<ArithTerm>, c: ArithTerm, n: nat): Option<ArithTerm>
    requires 1 <= n <= |factors|
    decreases fuel, 1, n
  {
    if n == 1 then SumTerm(fuel, before, factors[0], c)
    else
      var t := ConstantsAdded(fuel, before, factors, c, n - 1);
      if t == None then None else ProductTerm(fuel, before, t.value, factors[n - 1])
  }

  /** An answer, once there is fuel enough for it, stays the same with more. */
  lemma {:induction false} OneMoreFuel(fuel: nat, before: IdOrder)
    ensures forall a, b :: ProductTerm(fuel, before, a, b).Some? ==> ProductTerm(fuel + 1, before, a, b) == ProductTerm(fuel, before, a, b)
    ensures forall a, b :: SumTerm(fuel, before, a, b).Some? ==> SumTerm(fuel + 1, before, a, b) == SumTerm(fuel, before, a, b)
    decreases fuel
  {
    if fuel > 0 {
      OneMoreFuel(fuel - 1, before);
      forall a, b | ProductTerm(fuel, before, a, b).Some? ensures ProductTerm(fuel + 1, before, a, b) == ProductTerm(fuel, before, a, b) {
        ProductStays(fuel, before, a, b);
      }
      forall a, b | SumTerm(fuel, before, a, b).Some? ensures SumTerm(fuel + 1, before, a, b) == SumTerm(fuel, before, a, b) {
        SumStays(fuel, before, a, b);
      }
    }
  }

  /** One level of the recursion has the same answers with one more unit of fuel. */
  ghost predicate Stays(fuel: nat, before: IdOrder) {
    && (forall a, b :: ProductTerm(fuel, before, a, b).Some? ==> ProductTerm(fuel + 1, before, a, b) == ProductTerm(fuel, before, a, b))
    && (forall a, b :: SumTerm(fuel, before, a, b).Some? ==> SumTerm(fuel + 1, before, a, b) == SumTerm(fuel, before, a, b))
  }

  lemma {:induction false} ProductStays(fuel: nat, before: IdOrder, a: ArithTerm, b: ArithTerm)
    requires fuel > 0 && Stays(fuel - 1, before) && ProductTerm(fuel, before, a, b).Some?
    ensures ProductTerm(fuel + 1, before, a, b) == ProductTerm(fuel, before, a, b)
  {
    if a == Number(0.0) || a == Number(1.0) {
    } else if a.Number? && b.Number? {
    } else if b == Number(0.0) || b == Number(1.0) {
    } else if a.Plus? {
      SumOfProductsStays(fuel, before, a.left, b, a.right, b);
    } else if b.Plus? {
      SumOfProductsStays(fuel, before, a, b.left, a, b.right);
    } else {
      OrderedStays(fuel, before, a, b);
    }
  }

  lemma {:induction false} SumOfProductsStays(fuel: nat, before: IdOrder, a: ArithTerm, b: ArithTerm, c: ArithTerm, d: ArithTerm)
    requires fuel > 0 && Stays(fuel - 1, before) && SumOfProducts(fuel, before, a, b, c, d).Some?
    ensures SumOfProducts(fuel + 1, before, a, b, c, d) == SumOfProducts(fuel, before, a, b, c, d)
  {
  }

  lemma {:induction false} TwiceStays(fuel: nat, before: IdOrder, a: ArithTerm, b: ArithTerm, c: ArithTerm)
    requires fuel > 0 && Stays(fuel - 1, before)
    ensures ProductTwice(fuel, before, a, b, c).Some? ==> ProductTwice(fuel + 1, before, a, b, c) == ProductTwice(fuel, before, a, b, c)
    ensures SumTwice(fuel, before, a, b, c).Some? ==> SumTwice(fuel + 1, before, a, b, c) == SumTwice(fuel, before, a, b, c)
  {
  }

  lemma {:induction false} OrderedStays(fuel: nat, before: IdOrder, a: ArithTerm, b: ArithTerm)
    requires fuel > 0 && Stays(fuel - 1, before) && OrderedProduct(fuel, before, a, b).Some?
    ensures OrderedProduct(fuel + 1, before, a, b) == OrderedProduct(fuel, before, a, b)
  {
    if a.Times? && b.Times? {
      TwiceStays(fuel, before, a, b.right, b.left);
    } else if a.Times? {
      TwiceStays(fuel, before, a.left, b, a.right);
    }
  }

  lemma {:induction false} SumStays(fuel: nat, before: IdOrder, a: ArithTerm, b: ArithTerm)
    requires fuel > 0 && Stays(fuel - 1, before) && SumTerm(fuel, before, a, b).Some?
    ensures SumTerm(fuel + 1, before, a, b) == SumTerm(fuel, before, a, b)
  {
    if a.Number? && (a.value == 0.0 || b.Number?) {
    } else if a.Plus? && b.Plus? {
      TwiceStays(fuel, before, a, b.right, b.left);
    } else if a.Plus? && TermOrderBefore(before, b, a.right) {
      TwiceStays(fuel, before, a.left, b, a.right);
    } else if !a.IsFuncTerm() && (b.Plus? || TermOrderBefore(before, b, a)) {
    } else {
      MergedStays(fuel, before, a, b);
    }
  }

  lemma {:induction false} MergedStays(fuel: nat, before: IdOrder, a: ArithTerm, b: ArithTerm)
    requires fuel > 0 && Stays(fuel - 1, before) && MergedTerm(fuel, before, a, b).Some?
    ensures MergedTerm(fuel + 1, before, a, b) == MergedTerm(fuel, before, a, b)
  {
    var right := if a.Plus? then a.right else a;
    ConstantsStay(fuel - 1, before, Factors(right), Factors(b)[0], |Factors(right)|);
  }

  lemma {:induction false} ConstantsStay(fuel: nat, before: IdOrder, factors: seq<ArithTerm>, c: ArithTerm, n: nat)
    requires Stays(fuel, before) && 1 <= n <= |factors|
    ensures ConstantsAdded(fuel, before, factors, c, n).Some? ==>
      ConstantsAdded(fuel + 1, before, factors, c, n) == ConstantsAdded(fuel, before, factors, c, n)
    decreases n
  {
    if n > 1 { ConstantsStay(fuel, before, factors, c, n - 1); }
  }

  lemma {:induction false} MoreFuel(fuel: nat, more: nat, before: IdOrder, a: ArithTerm, b: ArithTerm)
    requires fuel <= more
    ensures ProductTerm(fuel, before, a, b).Some? ==> ProductTerm(more, before, a, b) == ProductTerm(fuel, before, a, b)
    ensures SumTerm(fuel, before, a, b).Some? ==> SumTerm(more, before, a, b) == SumTerm(fuel, before, a, b)
    decreases more
  {
    if fuel < more {
      MoreFuel(fuel, more - 1, before, a, b);
      OneMoreFuel(more - 1, before);
    }
  }

  /** Whatever the fuel with which a request is answered, the answer is the same. */
  lemma AnswersAgree(fuel: nat, more: nat, before: IdOrder, a: ArithTerm, b: ArithTerm)
    ensures ProductTerm(fuel, before, a, b).Some? && ProductTerm(more, before, a, b).Some? ==>
      ProductTerm(fuel, before, a, b) == ProductTerm(more, before, a, b)
    ensures SumTerm(fuel, before, a, b).Some? && SumTerm(more, before, a, b).Some? ==>
      SumTerm(fuel, before, a, b) == SumTerm(more, before, a, b)
  {
    if fuel <= more { MoreFuel(fuel, more, before, a, b); } else { MoreFuel(more, fuel, before, a, b); }
  }

  // ---------- terms ----------

  method Invert(fuel: nat, before: IdOrder, arg: ArithTerm) returns (r: Option<ArithTerm>)
    requires arg.NoZeroFactor()
    ensures r.Some? ==> Meets(r.value, Negation(arg))
    ensures r == ProductTerm(fuel, before, Number(-1.0), arg)
    ensures arg.Number? && fuel > 0 ==> r == Some(Number(-arg.value))
    ensures fuel == 0 ==> r == None
    decreases fuel, 1
  {
    r := GetProduct(fuel, before, Number(-1.0), arg);
    if r.Some? {
      MeetsInstead(r.value, Product(Number(-1.0), arg), Negation(arg));
    }
  }

  /** What each request comes down to. */
  function RequestedTerm(fuel: nat, before: IdOrder, request: Request): Option<ArithTerm> {
    match request
    case Negation(a) => ProductTerm(fuel, before, Number(-1.0), a)
    case Difference(a, b) =>
      var invright := ProductTerm(fuel, before, Number(-1.0), b);
      if invright == None then None else SumTerm(fuel, before, a, invright.value)
    case Sum(a, b) => SumTerm(fuel, before, a, b)
    case Product(a, b) => ProductTerm(fuel, before, a, b)
    case Other(f, args) => Some(Call(f, args))
  }

  /** More fuel never changes the answer to a request. */
  lemma RequestAnsweredOnce(fuel: nat, more: nat, before: IdOrder, request: Request)
    requires fuel <= more && RequestedTerm(fuel, before, request).Some?
    ensures RequestedTerm(more, before, request) == RequestedTerm(fuel, before, request)
  {
    match request
    case Negation(a) => MoreFuel(fuel, more, before, Number(-1.0), a);
    case Difference(a, b) =>
      MoreFuel(fuel, more, before, Number(-1.0), b);
      MoreFuel(fuel, more, before, a, ProductTerm(fuel, before, Number(-1.0), b).value);
    case Sum(a, b) => MoreFuel(fuel, more, before, a, b);
    case Product(a, b) => MoreFuel(fuel, more, before, a, b);
    case Other(_, _) =>
  }

  /** The term for a request: the same value in every environment. */
  method GetFuncTerm(fuel: nat, before: IdOrder, request: Request) returns (r: Option<ArithTerm>)
    requires request.Ok()
    ensures r.Some? ==> Meets(r.value, request)
    ensures r == RequestedTerm(fuel, before, request)
  {
    match request
    case Negation(a) => r := Invert(fuel, before, a);
    case Difference(a, b) =>
      var invright := Invert(fuel, before, b);
      if invright == None {
        return None;
      }
      r := GetSum(fuel, before, a, invright.value);
      if r.Some? {
        forall e: Env ensures Sum(a, invright.value).Value(e) == request.Value(e) {
          assert invright.value.Value(e) == Negation(b).Value(e);
        }
        MeetsInstead(r.value, Sum(a, invright.value), request);
      }
    case Product(a, b) => r := GetProduct(fuel, before, a, b);
    case Sum(a, b) => r := GetSum(fuel, before, a, b);
    case Other(f, args) => return Some(Call(f, args));
  }

  method GetProduct(fuel: nat, before: IdOrder, a: ArithTerm, b: ArithTerm) returns (r: Option<ArithTerm>)
    requires a.NoZeroFactor() && b.NoZeroFactor()
    ensures r.Some? ==> Meets(r.value, Product(a, b))
    ensures r == ProductTerm(fuel, before, a, b)
    ensures a.Number? && b.Number? && fuel > 0 ==> r == Some(ConstantProduct(a.value, b.value))
    ensures fuel == 0 ==> r == None
    decreases fuel, 0
  {
    if fuel == 0 {
      return None;
    }
    // constants are multiplied out
    if a.Number? {
      if a.value == 0.0 {
        return Some(a);
      } else if a.value == 1.0 {
        return Some(b);
      }
      if b.Number? {
        return Some(ConstantProduct(a.value, b.value));
      }
    } else if b.Number? {
      if b.value == 0.0 {
        return Some(b);
      } else if b.value == 1.0 {
        return Some(a);
      }
    }
    if a.Plus? || b.Plus? {
      r := Distribute(fuel, before, a, b);
    } else {
      r := OrderProduct(fuel, before, a, b);
    }
  }

  /** Distributivity of products over sums. */
  method Distribute(fuel: nat, before: IdOrder, a: ArithTerm, b: ArithTerm) returns (r: Option<ArithTerm>)
    requires fuel > 0 && a.NoZeroFactor() && b.NoZeroFactor() && (a.Plus? || b.Plus?)
    ensures r.Some? ==> Meets(r.value, Product(a, b))
    ensures r == if a.Plus? then SumOfProducts(fuel, before, a.left, b, a.right, b) else SumOfProducts(fuel, before, a, b.left, a, b.right)
    decreases fuel - 1, 1
  {
    var left, right;
    if a.Plus? {
      left := GetProduct(fuel - 1, before, a.left, b);
      right := GetProduct(fuel - 1, before, a.right, b);
    } else {
      left := GetProduct(fuel - 1, before, a, b.left);
      right := GetProduct(fuel - 1, before, a, b.right);
    }
    if left == None || right == None {
      return None;
    }
    r := GetSum(fuel - 1, before, left.value, right.value);
    if r.Some? {
      if a.Plus? {
        DistributesLeft(a, b, left.value, right.value, r.value);
      } else {
        DistributesRight(a, b, left.value, right.value, r.value);
      }
    }
  }

  /** Products are kept sorted, of the form ((t1 * t2) * t3) * t4. */
  method OrderProduct(fuel: nat, before: IdOrder, a: ArithTerm, b: ArithTerm) returns (r: Option<ArithTerm>)
    requires fuel > 0 && a.NoZeroFactor() && b.NoZeroFactor() && a != Number(0.0) && b != Number(0.0)
    ensures r.Some? ==> Meets(r.value, Product(a, b))
    ensures r == OrderedProduct(fuel, before, a, b)
    decreases fuel - 1, 1
  {
    if a.IsFuncTerm() {
      if a.Times? {
        if b.Times? {
          var newleft := GetProduct(fuel - 1, before, a, b.right);
          if newleft == None {
            return None;
          }
          r := GetProduct(fuel - 1, before, newleft.value, b.left);
          if r.Some? { ReassociatesProduct(a, b, newleft.value, r.value); }
          return;
        }
        if MultiplicationBefore(before, b, a.right) {
          var newleft := GetProduct(fuel - 1, before, a.left, b);
          if newleft == None {
            return None;
          }
          r := GetProduct(fuel - 1, before, newleft.value, a.right);
          if r.Some? { ReordersProduct(a, b, newleft.value, r.value); }
          return;
        }
      }
    } else if b.Times? || MultiplicationBefore(before, b, a) {
      r := GetProduct(fuel - 1, before, b, a);
      if r.Some? { MeetsInstead(r.value, Product(b, a), Product(a, b)); }
      return;
    }
    return Some(Times(a, b));
  }

  method GetSum(fuel: nat, before: IdOrder, a: ArithTerm, b: ArithTerm) returns (r: Option<ArithTerm>)
    requires a.NoZeroFactor() && b.NoZeroFactor()
    ensures r.Some? ==> Meets(r.value, Sum(a, b))
    ensures r == SumTerm(fuel, before, a, b)
    ensures a.Number? && b.Number? && fuel > 0 ==> r == Some(Number(a.value + b.value))
    decreases fuel, 0
  {
    if fuel == 0 {
      return None;
    }
    if a.Number? {
      if a.value == 0.0 {
        return Some(b);
      }
      if b.Number? {
        return Some(Number(a.value + b.value));
      }
    }
    // sums are kept sorted, of the form ((t1 + t2) + t3) + t4
    if a.IsFuncTerm() {
      if a.Plus? {
        if b.Plus? {
          var newleft := GetSum(fuel - 1, before, a, b.right);
          if newleft == None {
            return None;
          }
          r := GetSum(fuel - 1, before, newleft.value, b.left);
          if r.Some? { ReassociatesSum(a, b, newleft.value, r.value); }
          return;
        }
        var first := TermBefore(before, b, a.right);
        if first {
          var newleft := GetSum(fuel - 1, before, a.left, b);
          if newleft == None {
            return None;
          }
          r := GetSum(fuel - 1, before, newleft.value, a.right);
          if r.Some? { ReordersSum(a, b, newleft.value, r.value); }
          return;
        }
      }
    } else {
      var first := TermBefore(before, b, a);
      if b.Plus? || first {
        r := GetSum(fuel - 1, before, b, a);
        if r.Some? { MeetsInstead(r.value, Sum(b, a), Sum(a, b)); }
        return;
      }
    }
    r := MergeLikeTerms(fuel, before, a, b);
  }

  /** Terms with the same factors after the constant are added up. */
  method MergeLikeTerms(fuel: nat, before: IdOrder, a: ArithTerm, b: ArithTerm) returns (r: Option<ArithTerm>)
    requires fuel > 0 && a.NoZeroFactor() && b.NoZeroFactor()
    ensures r.Some? ==> Meets(r.value, Sum(a, b))
    ensures r == MergedTerm(fuel, before, a, b)
    decreases fuel - 1, 3
  {
    var left := if a.Plus? then Some(a.left) else None;
    var right := if a.Plus? then a.right else a;
    var leftflat, rightflat := Factors(right), Factors(b);
    if |leftflat| == |rightflat| {
      var n := 1;
      while n < |leftflat| && leftflat[n] == rightflat[n]
        invariant 1 <= n <= |leftflat| && forall m :: 1 <= m < n ==> leftflat[m] == rightflat[m]
      {
        n := n + 1;
      }
      if n == |leftflat| {
        assert leftflat[1..] == rightflat[1..];
        var currterm := AddConstants(fuel - 1, before, right, b);
        if currterm == None {
          return None;
        }
        if left == None {
          return currterm;
        }
        r := GetSum(fuel - 1, before, left.value, currterm.value);
        if r.Some? { LikeTermsMerged(a, b, currterm.value, r.value); }
        return;
      }
    }
    return Some(Plus(a, b));
  }

  lemma LikeTermsMerged(a: ArithTerm, b: ArithTerm, merged: ArithTerm, t: ArithTerm)
    requires a.Plus? && Meets(merged, Sum(a.right, b)) && Meets(t, Sum(a.left, merged))
    ensures Meets(t, Sum(a, b))
  {
    forall e: Env ensures Sum(a.left, merged).Value(e) == Sum(a, b).Value(e) {
      assert merged.Value(e) == Sum(a.right, b).Value(e);
    }
    MeetsInstead(t, Sum(a.left, merged), Sum(a, b));
  }

  /** The common factors times the sum of the constants. */
  method AddConstants(fuel: nat, before: IdOrder, a: ArithTerm, b: ArithTerm) returns (r: Option<ArithTerm>)
    requires a.NoZeroFactor() && b.NoZeroFactor() && Factors(a)[1..] == Factors(b)[1..]
    ensures r.Some? ==> Meets(r.value, Sum(a, b))
    ensures r == ConstantsAdded(fuel, before, Factors(a), Factors(b)[0], |Factors(a)|)
    decreases fuel, 2
  {
    var leftflat, rightflat := Factors(a), Factors(b);
    FactorsParts(a);
    var currterm := GetSum(fuel, before, leftflat[0], rightflat[0]);
    if currterm == None {
      NoConstants(fuel, before, leftflat, rightflat[0], 1, |leftflat|);
      return None;
    }
    for m := 1 to |leftflat|
      invariant currterm.Some? && Multiplied(currterm.value, leftflat[0], rightflat[0], leftflat[1..m])
      invariant forall x: nat :: currterm.value.Contains(Unknown(x)) ==> a.Contains(Unknown(x))
      invariant currterm == ConstantsAdded(fuel, before, leftflat, rightflat[0], m)
    {
      currterm := TimesFactor(fuel, before, a, leftflat, rightflat[0], m, currterm.value);
      if currterm == None {
        NoConstants(fuel, before, leftflat, rightflat[0], m + 1, |leftflat|);
        return None;
      }
    }
    assert leftflat[1..|leftflat|] == leftflat[1..];
    MultipliedIsSum(a, b, currterm.value);
    return currterm;
  }

  method TimesFactor(fuel: nat, before: IdOrder, ghost a: ArithTerm, leftflat: seq<ArithTerm>, ghost c: ArithTerm, m: nat, t: ArithTerm)
    returns (r: Option<ArithTerm>)
    requires leftflat == Factors(a) && a.NoZeroFactor() && 1 <= m < |leftflat|
    requires Multiplied(t, leftflat[0], c, leftflat[1..m])
    requires forall x: nat :: t.Contains(Unknown(x)) ==> a.Contains(Unknown(x))
    requires ConstantsAdded(fuel, before, leftflat, c, m) == Some(t)
    ensures r.Some? ==> Multiplied(r.value, leftflat[0], c, leftflat[1..m + 1])
    ensures r.Some? ==> forall x: nat :: r.value.Contains(Unknown(x)) ==> a.Contains(Unknown(x))
    ensures r == ConstantsAdded(fuel, before, leftflat, c, m + 1)
    decreases fuel, 1
  {
    FactorsParts(a);
    r := GetProduct(fuel, before, t, leftflat[m]);
    if r.Some? {
      MultipliedOnce(t, r.value, leftflat[0], c, leftflat[1..m], leftflat[m]);
      assert leftflat[1..m + 1] == leftflat[1..m] + [leftflat[m]];
    }
  }

  lemma {:induction false} NoConstants(fuel: nat, before: IdOrder, factors: seq<ArithTerm>, c: ArithTerm, m: nat, n: nat)
    requires 1 <= m <= n <= |factors| && ConstantsAdded(fuel, before, factors, c, m) == None
    ensures ConstantsAdded(fuel, before, factors, c, n) == None
    decreases n
  {
    if m < n { NoConstants(fuel, before, factors, c, m, n - 1); }
  }

  /** The term is the sum of two constants times the given factors. */
  ghost predicate Multiplied(t: ArithTerm, c: ArithTerm, d: ArithTerm, ts: seq<ArithTerm>) {
    t.NoZeroFactor() && forall e: Env :: IsMultiple(t.Value(e), c.Value(e), d.Value(e), ProductOf(ts, e))
  }

  predicate IsMultiple(t: real, c: real, d: real, p: real) {
    t == (c + d) * p
  }

  lemma MultipliedOnce(t: ArithTerm, t': ArithTerm, c: ArithTerm, d: ArithTerm, ts: seq<ArithTerm>, f: ArithTerm)
    requires Multiplied(t, c, d, ts) && Meets(t', Product(t, f))
    ensures Multiplied(t', c, d, ts + [f])
  {
    forall e: Env ensures IsMultiple(t'.Value(e), c.Value(e), d.Value(e), ProductOf(ts + [f], e)) {
      assert (ts + [f])[..|ts|] == ts;
      assert t'.Value(e) == Product(t, f).Value(e);
      MultipleOnce(t.Value(e), c.Value(e), d.Value(e), ProductOf(ts, e), f.Value(e));
    }
  }

  lemma MultipleOnce(t: real, c: real, d: real, p: real, x: real)
    requires IsMultiple(t, c, d, p)
    ensures IsMultiple(t * x, c, d, p * x)
  {
    assert (c + d) * p * x == (c + d) * (p * x);
  }

  lemma MultipliedIsSum(a: ArithTerm, b: ArithTerm, t: ArithTerm)
    requires Factors(a)[1..] == Factors(b)[1..] && Multiplied(t, Factors(a)[0], Factors(b)[0], Factors(a)[1..])
    requires forall x: nat :: t.Contains(Unknown(x)) ==> a.Contains(Unknown(x))
    ensures Meets(t, Sum(a, b))
  {
    forall e: Env ensures t.Value(e) == Sum(a, b).Value(e) {
      var c, d, p := AsMultiples(a, b, t, e);
      SumOfMultiples(t.Value(e), a.Value(e), b.Value(e), c, d, p);
    }
  }

  lemma AsMultiples(a: ArithTerm, b: ArithTerm, t: ArithTerm, e: Env) returns (c: real, d: real, p: real)
    requires Factors(a)[1..] == Factors(b)[1..] && Multiplied(t, Factors(a)[0], Factors(b)[0], Factors(a)[1..])
    ensures IsMultiple(t.Value(e), c, d, p) && a.Value(e) == c * p && b.Value(e) == d * p
  {
    c, d, p := Factors(a)[0].Value(e), Factors(b)[0].Value(e), ProductOf(Factors(a)[1..], e);
    FirstFactor(a, Factors(a)[1..], c, p, e);
    FirstFactor(b, Factors(a)[1..], d, p, e);
  }

  lemma FirstFactor(t: ArithTerm, tail: seq<ArithTerm>, c: real, p: real, e: Env)
    requires tail == Factors(t)[1..] && c == Factors(t)[0].Value(e) && p == ProductOf(tail, e)
    ensures t.Value(e) == c * p
  {
    FactorsValue(t, e);
    ProductOfFirst(Factors(t), c, p, e);
  }

  lemma SumOfMultiples(t: real, a: real, b: real, c: real, d: real, p: real)
    requires IsMultiple(t, c, d, p) && a == c * p && b == d * p
    ensures t == a + b
  {
  }
}
