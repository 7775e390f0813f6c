/** Comparisons of arithmetic terms, and solving them for an unknown. */
module Comparisons {
  import opened Wrappers
  import opened Arithmetic
  import opened ArithmeticRewriting

  datatype Comparator = EQ | LT | GT
  {
    predicate Holds(x: real, y: real) {
      match this
      case EQ => x == y
      case LT => x < y
      case GT => x > y
    }

    function Flip(): Comparator {
      match this
      case EQ => EQ
      case LT => GT
      case GT => LT
    }
  }

  datatype Comparison = AlwaysTrue | Compare(op: Comparator, left: ArithTerm, right: ArithTerm)
  {
    predicate Holds(e: Env) {
      AlwaysTrue? || op.Holds(left.Value(e), right.Value(e))
    }
  }

  /** The comparison means what was asked for, and compares with zero. */
  ghost predicate Says(c: Comparison, op: Comparator, left: ArithTerm, right: ArithTerm) {
    && (forall e: Env :: c.Holds(e) == op.Holds(left.Value(e), right.Value(e)))
    && (c.Compare? ==> c.right == Number(0.0) && c.left.NoZeroFactor())
  }

  /** A constant other than zero is compared with zero by flipping and moving it for ever, exactly when
      it and its opposite both come before zero; otherwise a little fuel suffices. */
  ghost predicate ConstantOutcome(fuel: nat, before: IdOrder, c: real, r: Option<Comparison>) {
    && (before(Number(c), Number(0.0)) && before(Number(-c), Number(0.0)) ==> r == None)
    && (fuel >= 1 && !before(Number(c), Number(0.0)) ==> r.Some?)
    && (fuel >= 3 && !before(Number(-c), Number(0.0)) ==> r.Some?)
  }

  /** What a comparison is rewritten to, when the recursion goes no deeper than the fuel. */
  function ComparisonTerm(fuel: nat, before: IdOrder, op: Comparator, left: ArithTerm, right: ArithTerm): Option<Comparison>
    decreases fuel
  {
    if op.EQ? && left == right then Some(AlwaysTrue)
    else if fuel == 0 then None
    else if right != Number(0.0) then
      var minusright := ProductTerm(fuel - 1, before, Number(-1.0), right);
      if minusright == None then None
      else
        var plusterm := SumTerm(fuel - 1, before, left, minusright.value);
        if plusterm == None then None else ComparisonTerm(fuel - 1, before, op, plusterm.value, Number(0.0))
    else if MultiplicationBefore(before, left, right) then ComparisonTerm(fuel - 1, before, op.Flip(), right, left)
    else Some(Compare(op, left, right))
  }

  /** More fuel never changes the answer. */
  lemma {:induction false} ComparedOnce(fuel: nat, more: nat, before: IdOrder, op: Comparator, left: ArithTerm, right: ArithTerm)
    requires fuel <= more && ComparisonTerm(fuel, before, op, left, right).Some?
    ensures ComparisonTerm(more, before, op, left, right) == ComparisonTerm(fuel, before, op, left, right)
    decreases fuel
  {
    if op.EQ? && left == right {
    } else if right != Number(0.0) {
      MoreFuel(fuel - 1, more - 1, before, Number(-1.0), right);
      var minusright := ProductTerm(fuel - 1, before, Number(-1.0), right).value;
      MoreFuel(fuel - 1, more - 1, before, left, minusright);
      ComparedOnce(fuel - 1, more - 1, before, op, SumTerm(fuel - 1, before, left, minusright).value, Number(0.0));
    } else if MultiplicationBefore(before, left, right) {
      ComparedOnce(fuel - 1, more - 1, before, op.Flip(), right, left);
    }
  }

  /** Everything is moved to the left; whatever the order of terms, each flip and move keeps the truth. */
  method GetComparison(fuel: nat, before: IdOrder, op: Comparator, left: ArithTerm, right: ArithTerm) returns (r: Option<Comparison>)
    requires left.NoZeroFactor() && right.NoZeroFactor()
    ensures r.Some? ==> Says(r.value, op, left, right)
    ensures r == ComparisonTerm(fuel, before, op, left, right)
    ensures fuel == 0 && left != right ==> r == None
    ensures left.Number? && left.value != 0.0 && right == Number(0.0) ==> ConstantOutcome(fuel, before, left.value, r)
    ensures left == Number(0.0) && right.Number? && right.value != 0.0 && fuel > 0 ==>
              ConstantOutcome(fuel - 1, before, -right.value, r)
    decreases fuel
  {
    if op.EQ? && left == right {
      return Some(AlwaysTrue);
    }
    if fuel == 0 {
      return None;
    }
    if right != Number(0.0) {
      r := MoveLeft(fuel, before, op, left, right);
      return;
    }
    if MultiplicationBefore(before, left, right) {
      r := GetComparison(fuel - 1, before, op.Flip(), right, left);
      assert left.Number? ==> -(-left.value) == left.value;
      return;
    }
    return Some(Compare(op, left, right));
  }

  method MoveLeft(fuel: nat, before: IdOrder, op: Comparator, left: ArithTerm, right: ArithTerm) returns (r: Option<Comparison>)
    requires left.NoZeroFactor() && right.NoZeroFactor() && fuel > 0 && right != Number(0.0)
    ensures r.Some? ==> Says(r.value, op, left, right)
    ensures !(op.EQ? && left == right) ==> r == ComparisonTerm(fuel, before, op, left, right)
    ensures left == Number(0.0) && right.Number? && right.value != 0.0 ==> ConstantOutcome(fuel - 1, before, -right.value, r)
    decreases fuel, 0
  {
    var minusright := Invert(fuel - 1, before, right);
    if minusright == None {
      return None;
    }
    var plusterm := GetSum(fuel - 1, before, left, minusright.value);
    if plusterm == None {
      return None;
    }
    assert left == Number(0.0) && right.Number? ==> plusterm.value == Number(-right.value);
    r := GetComparison(fuel - 1, before, op, plusterm.value, Number(0.0));
    if r.Some? { MovedLeft(op, left, right, minusright.value, plusterm.value, r.value); }
  }

  lemma MovedLeft(op: Comparator, left: ArithTerm, right: ArithTerm, minus: ArithTerm, plus: ArithTerm, c: Comparison)
    requires Meets(minus, Negation(right)) && Meets(plus, Sum(left, minus)) && Says(c, op, plus, Number(0.0))
    ensures Says(c, op, left, right)
  {
    forall e: Env ensures c.Holds(e) == op.Holds(left.Value(e), right.Value(e)) {
      assert minus.Value(e) == Negation(right).Value(e) && plus.Value(e) == Sum(left, minus).Value(e);
      assert c.Holds(e) == op.Holds(plus.Value(e), 0.0);
    }
  }

  // ---------- solving ----------

  /** The comparison says the same as "t op x", and t does not mention x. */
  ghost predicate SolvedFor(c: Comparison, x: ArithTerm, t: ArithTerm) {
    c.Compare? && !t.Contains(x) && forall e: Env :: c.Holds(e) <==> c.op.Holds(t.Value(e), x.Value(e))
  }

  function Scaled(c: real, x: real): real {
    c * x
  }

  /** A product of a constant and an unknown. */
  lemma LinearTerm(t: ArithTerm, x: ArithTerm, e: Env)
    requires t.NoZeroFactor() && x.Unknown? && |Factors(t)| == 2 && Factors(t)[1] == x
    ensures t.Value(e) == Scaled(Factors(t)[0].value, x.Value(e))
  {
    NonZeroFactor(t, x);
  }

  lemma NonZeroFactor(t: ArithTerm, x: ArithTerm)
    requires t.NoZeroFactor() && x.Unknown? && |Factors(t)| == 2 && Factors(t)[1] == x
    ensures Factors(t)[0].value != 0.0
    ensures t == Times(Factors(t)[0], x) || (t == x && Factors(t)[0] == Number(1.0))
  {
    if t.Times? {
      assert |Factors(t.left)| == 1;
      assert t.left.Number?;
      assert Factors(t)[0] == Factors(t.left)[0] == t.left;
    }
  }

  /** How many of the first n terms contain t, and which does last. */
  function OccurrenceOf(terms: seq<ArithTerm>, t: ArithTerm, n: nat): (nat, nat)
    requires n <= |terms|
  {
    if n == 0 then (0, 0)
    else
      var o := OccurrenceOf(terms, t, n - 1);
      if terms[n - 1].Contains(t) then (o.0 + 1, n - 1) else o
  }

  /** Where an unknown occurs among terms: how often, and at which place last. */
  method Occurrences(terms: seq<ArithTerm>, t: ArithTerm) returns (count: nat, place: nat)
    ensures count > 0 ==> place < |terms| && terms[place].Contains(t)
    ensures count <= 1 ==> forall n :: 0 <= n < |terms| && terms[n].Contains(t) ==> count == 1 && n == place
    ensures (count, place) == OccurrenceOf(terms, t, |terms|)
  {
    count, place := 0, 0;
    for n := 0 to |terms|
      invariant count > 0 ==> place < n && terms[place].Contains(t)
      invariant (count, place) == OccurrenceOf(terms, t, n)
      invariant count <= 1 ==> forall m :: 0 <= m < n && terms[m].Contains(t) ==> count == 1 && m == place
    {
      if terms[n].Contains(t) {
        count, place := count + 1, n;
      }
    }
  }

  function RestValue(rest: Option<ArithTerm>, e: Env): real {
    if rest.Some? then rest.value.Value(e) else 0.0
  }

  /** The sum of all terms but one. */
  ghost predicate IsRest(terms: seq<ArithTerm>, place: nat, rest: Option<ArithTerm>, n: nat)
    requires n <= |terms| && place < |terms|
  {
    && (rest.Some? ==> rest.value.NoZeroFactor())
    && (forall x: nat :: rest.Some? && rest.value.Contains(Unknown(x)) ==> exists m :: 0 <= m < n && m != place && terms[m].Contains(Unknown(x)))
    && forall e: Env :: SumOf(terms[..n], e) == RestValue(rest, e) + if place < n then terms[place].Value(e) else 0.0
  }

  lemma RestGrows(terms: seq<ArithTerm>, place: nat, rest: Option<ArithTerm>, rest': Option<ArithTerm>, n: nat)
    requires n < |terms| && place < |terms| && terms[n].NoZeroFactor() && IsRest(terms, place, rest, n)
    requires if n == place then rest' == rest
             else rest'.Some? && if rest == None then rest'.value == terms[n] else Meets(rest'.value, Sum(rest.value, terms[n]))
    ensures IsRest(terms, place, rest', n + 1)
  {
    forall e: Env ensures SumOf(terms[..n + 1], e) == RestValue(rest', e) + if place < n + 1 then terms[place].Value(e) else 0.0 {
      assert terms[..n + 1][..n] == terms[..n];
      assert n != place && rest.Some? ==> rest'.value.Value(e) == Sum(rest.value, terms[n]).Value(e);
    }
    forall x: nat | rest'.Some? && rest'.value.Contains(Unknown(x)) ensures exists m :: 0 <= m < n + 1 && m != place && terms[m].Contains(Unknown(x)) {
      if rest.Some? && rest.value.Contains(Unknown(x)) {
        var m :| 0 <= m < n && m != place && terms[m].Contains(Unknown(x));
      } else {
        assert terms[n].Contains(Unknown(x)) && n != place;
      }
    }
  }

  /** The sum of the first n terms but one: nothing when the fuel runs out. */
  function RestTerm(fuel: nat, before: IdOrder, terms: seq<ArithTerm>, place: nat, n: nat): (bool, Option<ArithTerm>)
    requires n <= |terms|
  {
    if n == 0 then (true, None)
    else
      var rest := RestTerm(fuel, before, terms, place, n - 1);
      if !rest.0 || n - 1 == place then rest
      else if rest.1 == None then (true, Some(terms[n - 1]))
      else
        var t := SumTerm(fuel, before, rest.1.value, terms[n - 1]);
        (t.Some?, t)
  }

  lemma {:induction false} RestSummedOnce(fuel: nat, more: nat, before: IdOrder, terms: seq<ArithTerm>, place: nat, n: nat)
    requires fuel <= more && n <= |terms| && RestTerm(fuel, before, terms, place, n).0
    ensures RestTerm(more, before, terms, place, n) == RestTerm(fuel, before, terms, place, n)
    decreases n
  {
    if n > 0 {
      RestSummedOnce(fuel, more, before, terms, place, n - 1);
      var rest := RestTerm(fuel, before, terms, place, n - 1).1;
      if rest.Some? { MoreFuel(fuel, more, before, rest.value, terms[n - 1]); }
    }
  }

  lemma {:induction false} NoRest(fuel: nat, before: IdOrder, terms: seq<ArithTerm>, place: nat, m: nat, n: nat)
    requires m <= n <= |terms| && RestTerm(fuel, before, terms, place, m) == (false, None)
    ensures RestTerm(fuel, before, terms, place, n) == (false, None)
    decreases n
  {
    if m < n { NoRest(fuel, before, terms, place, m, n - 1); }
  }

  method SumRest(fuel: nat, before: IdOrder, terms: seq<ArithTerm>, place: nat) returns (ok: bool, rest: Option<ArithTerm>)
    requires place < |terms| && forall n :: 0 <= n < |terms| ==> terms[n].NoZeroFactor()
    ensures ok ==> IsRest(terms, place, rest, |terms|)
    ensures (ok, rest) == RestTerm(fuel, before, terms, place, |terms|)
  {
    ok, rest := true, None;
    for n := 0 to |terms|
      invariant ok && IsRest(terms, place, rest, n) && (ok, rest) == RestTerm(fuel, before, terms, place, n)
    {
      ghost var before' := rest;
      if n != place {
        if rest == None {
          rest := Some(terms[n]);
        } else {
          rest := GetSum(fuel, before, rest.value, terms[n]);
          if rest == None {
            NoRest(fuel, before, terms, place, n + 1, |terms|);
            return false, None;
          }
        }
      }
      RestGrows(terms, place, before', rest, n);
    }
  }

  /** Solving c * x + rest op 0 for x: division by a negative constant turns the comparison around. */
  lemma SolvedValue(op: Comparator, c: real, x: real, rest: real, d: real)
    requires c != 0.0 && d * c == -1.0 && (op.EQ? || c < 0.0)
    ensures op.Holds(rest + c * x, 0.0) <==> op.Holds(rest * d, x)
  {
    var y := rest * d;
    assert rest == -(c * y) by { assert c * (rest * d) == rest * (d * c); }
    assert rest + c * x == c * (x - y);
    if op.EQ? {
      assert x != y ==> c * (x - y) != 0.0;
    } else {
      if x > y { assert c * (x - y) < 0.0; }
      if x < y { assert c * (x - y) > 0.0; }
    }
  }

  /** What solving for the argument gives. */
  function Solution(fuel: nat, before: IdOrder, atom: Comparison, argument: ArithTerm, isInt: ArithTerm -> bool): Option<ArithTerm> {
    if atom.AlwaysTrue? then None
    else if atom.left == argument && !atom.right.Contains(argument) then if atom.op.EQ? then Some(atom.right) else None
    else if atom.right == argument && !atom.left.Contains(argument) then Some(atom.left)
    else
      var terms := Summands(atom.left);
      var inverted := ProductTerm(fuel, before, Number(-1.0), argument);
      if inverted == None then None
      else
        var (occcounter, occterm) := OccurrenceOf(terms, argument, |terms|);
        var (invertedcounter, invertedterm) := OccurrenceOf(terms, inverted.value, |terms|);
        if occcounter != 1 || invertedcounter > 1 || occterm >= |terms| then None
        else
          var factors := Factors(terms[occterm]);
          if |factors| != 2 || factors[1] != argument then None
          else LinearSolution(fuel, before, atom, terms, occterm, factors[0].value, isInt)
  }

  function LinearSolution(fuel: nat, before: IdOrder, atom: Comparison, terms: seq<ArithTerm>, occterm: nat, c: real, isInt: ArithTerm -> bool): Option<ArithTerm>
    requires atom.Compare?
  {
    var (ok, rest) := RestTerm(fuel, before, terms, occterm, |terms|);
    if !ok then None
    else if rest == None then if c < 0.0 || atom.op.EQ? then Some(atom.right) else None
    else if c == -1.0 then rest
    else if c == 1.0 then if atom.op.EQ? then ProductTerm(fuel, before, Number(-1.0), rest.value) else None
    else if c == 0.0 || isInt(rest.value) || (c > 0.0 && !atom.op.EQ?) then None
    else ProductTerm(fuel, before, rest.value, Number(-1.0 / c))
  }

  /** More fuel never changes a solution. */
  lemma SolvedOnce(fuel: nat, more: nat, before: IdOrder, atom: Comparison, argument: ArithTerm, isInt: ArithTerm -> bool)
    requires fuel <= more && Solution(fuel, before, atom, argument, isInt).Some?
    ensures Solution(more, before, atom, argument, isInt) == Solution(fuel, before, atom, argument, isInt)
  {
    if atom.Compare? && !(atom.left == argument && !atom.right.Contains(argument)) && !(atom.right == argument && !atom.left.Contains(argument)) {
      MoreFuel(fuel, more, before, Number(-1.0), argument);
      var terms := Summands(atom.left);
      var occterm := OccurrenceOf(terms, argument, |terms|).1;
      var c := Factors(terms[occterm])[0].value;
      RestSummedOnce(fuel, more, before, terms, occterm, |terms|);
      var rest := RestTerm(fuel, before, terms, occterm, |terms|).1;
      if rest.Some? {
        MoreFuel(fuel, more, before, Number(-1.0), rest.value);
        if c != 0.0 { MoreFuel(fuel, more, before, rest.value, Number(-1.0 / c)); }
      }
    }
  }

  /** The term for which the comparison reads "term op argument". */
  method Solve(fuel: nat, before: IdOrder, atom: Comparison, argument: ArithTerm, isInt: ArithTerm -> bool) returns (r: Option<ArithTerm>)
    requires argument.Unknown?
    requires atom.Compare? ==> atom.left.NoZeroFactor()
    requires atom.Compare? ==> (atom.left == argument && !atom.right.Contains(argument))
                               || (atom.right == argument && !atom.left.Contains(argument)) || atom.right == Number(0.0)
    ensures r.Some? ==> SolvedFor(atom, argument, r.value)
    ensures r == Solution(fuel, before, atom, argument, isInt)
  {
    if atom.AlwaysTrue? {
      return None;
    }
    if atom.left == argument && !atom.right.Contains(argument) {
      return if atom.op.EQ? then Some(atom.right) else None;
    }
    if atom.right == argument && !atom.left.Contains(argument) {
      return Some(atom.left);
    }
    var terms := Summands(atom.left);
    SummandsParts(atom.left);
    var occcounter, occterm := Occurrences(terms, argument);
    var inverted := Invert(fuel, before, argument);
    if inverted == None {
      return None;
    }
    var invertedcounter, invertedterm := Occurrences(terms, inverted.value);
    if occcounter > 1 || invertedcounter > 1 {
      return None;
    }
    var factors := [];
    if occcounter == 1 {
      factors := Factors(terms[occterm]);
    } else if invertedcounter == 1 {
      factors := Factors(terms[invertedterm]);
      if |factors| < 2 || factors[1] != inverted.value {
        return None;
      }
    }
    InverseDiffers(argument, inverted.value);
    if |factors| != 2 || factors[1] != argument {
      return None;
    }
    // the argument occurs once; a term with its inverse contains the argument as well
    r := SolveLinear(fuel, before, atom, argument, terms, occterm, factors[0].value, isInt);
  }

  lemma InverseDiffers(x: ArithTerm, t: ArithTerm)
    requires x.Unknown? && Meets(t, Negation(x))
    ensures t != x
  {
    var e := Env((n: nat) => 1.0, (f: string, args: seq<real>) => 0.0);
    assert t.Value(e) == Negation(x).Value(e);
  }

  /** The left side is the sum of the given terms, one of which is constval times the argument. */
  method SolveLinear(fuel: nat, before: IdOrder, atom: Comparison, argument: ArithTerm, terms: seq<ArithTerm>, occterm: nat,
                     constval: real, isInt: ArithTerm -> bool)
    returns (r: Option<ArithTerm>)
    requires argument.Unknown? && atom.Compare? && atom.right == Number(0.0) && terms == Summands(atom.left)
    requires occterm < |terms| && forall n :: 0 <= n < |terms| ==> terms[n].NoZeroFactor()
    requires forall n :: 0 <= n < |terms| && terms[n].Contains(argument) ==> n == occterm
    requires |Factors(terms[occterm])| == 2 && Factors(terms[occterm])[1] == argument && Factors(terms[occterm])[0].value == constval
    ensures r.Some? ==> SolvedFor(atom, argument, r.value)
    ensures r == LinearSolution(fuel, before, atom, terms, occterm, constval, isInt)
  {
    var ok, restterm := SumRest(fuel, before, terms, occterm);
    if !ok {
      return None;
    }
    LinearAtom(atom, argument, terms, occterm, constval, restterm);
    if restterm == None {
      if constval < 0.0 || atom.op.EQ? {
        SolvedByZero(atom, argument, constval);
        return Some(atom.right);
      }
      return None;
    }
    if constval == -1.0 {
      SolvedByRest(atom, argument, restterm.value);
      return restterm;
    }
    if constval == 1.0 {
      if !atom.op.EQ? {
        return None;
      }
      r := Invert(fuel, before, restterm.value);
      if r.Some? { SolvedByInverse(atom, argument, restterm.value, r.value); }
      return;
    }
    if isInt(restterm.value) || (constval > 0.0 && !atom.op.EQ?) {
      return None;
    }
    r := GetProduct(fuel, before, restterm.value, Number(-1.0 / constval));
    if r.Some? { SolvedByDivision(atom, argument, constval, restterm.value, r.value); }
  }

  /** The comparison reads constval * argument + rest op 0. */
  ghost predicate Linear(atom: Comparison, x: ArithTerm, c: real, rest: Option<ArithTerm>) {
    && atom.Compare? && c != 0.0 && (rest.Some? ==> rest.value.NoZeroFactor() && !rest.value.Contains(x))
    && forall e: Env :: LinearAt(atom, x, c, rest, e)
  }

  predicate LinearAt(atom: Comparison, x: ArithTerm, c: real, rest: Option<ArithTerm>, e: Env)
    requires atom.Compare?
  {
    atom.Holds(e) <==> atom.op.Holds(RestValue(rest, e) + Scaled(c, x.Value(e)), 0.0)
  }

  lemma LinearAtom(atom: Comparison, x: ArithTerm, terms: seq<ArithTerm>, place: nat, c: real, rest: Option<ArithTerm>)
    requires x.Unknown? && atom.Compare? && atom.right == Number(0.0) && terms == Summands(atom.left)
    requires place < |terms| && forall n :: 0 <= n < |terms| ==> terms[n].NoZeroFactor()
    requires forall n :: 0 <= n < |terms| && terms[n].Contains(x) ==> n == place
    requires |Factors(terms[place])| == 2 && Factors(terms[place])[1] == x && Factors(terms[place])[0].value == c
    requires IsRest(terms, place, rest, |terms|)
    ensures Linear(atom, x, c, rest)
  {
    NonZeroFactor(terms[place], x);
    forall e: Env ensures LinearAt(atom, x, c, rest, e) {
      LinearValue(atom.left, x, place, c, rest, e);
      assert atom.right.Value(e) == 0.0;
    }
    assert x == Unknown(x.id);
  }

  lemma LinearValue(t: ArithTerm, x: ArithTerm, place: nat, c: real, rest: Option<ArithTerm>, e: Env)
    requires x.Unknown? && place < |Summands(t)| && Summands(t)[place].NoZeroFactor()
    requires |Factors(Summands(t)[place])| == 2 && Factors(Summands(t)[place])[1] == x && Factors(Summands(t)[place])[0].value == c
    requires IsRest(Summands(t), place, rest, |Summands(t)|)
    ensures t.Value(e) == RestValue(rest, e) + Scaled(c, x.Value(e))
  {
    SumAsRest(t, place, rest, e);
    LinearTerm(Summands(t)[place], x, e);
  }

  lemma SumAsRest(t: ArithTerm, place: nat, rest: Option<ArithTerm>, e: Env)
    requires place < |Summands(t)| && IsRest(Summands(t), place, rest, |Summands(t)|)
    ensures t.Value(e) == RestValue(rest, e) + Summands(t)[place].Value(e)
  {
    SummandsValue(t, e);
    var v := RestOfAll(Summands(t), place, rest, e);
  }

  lemma RestOfAll(terms: seq<ArithTerm>, place: nat, rest: Option<ArithTerm>, e: Env) returns (v: real)
    requires place < |terms| && IsRest(terms, place, rest, |terms|)
    ensures v == SumOf(terms, e) && v == RestValue(rest, e) + terms[place].Value(e)
  {
    assert terms[..|terms|] == terms;
    v := SumOf(terms, e);
  }

  lemma SolvedByZero(atom: Comparison, x: ArithTerm, c: real)
    requires x.Unknown? && Linear(atom, x, c, None) && (atom.op.EQ? || c < 0.0) && atom.right == Number(0.0)
    ensures SolvedFor(atom, x, atom.right)
  {
    forall e: Env ensures atom.Holds(e) <==> atom.op.Holds(atom.right.Value(e), x.Value(e)) {
      assert LinearAt(atom, x, c, None, e);
      SolvedValue(atom.op, c, x.Value(e), 0.0, -1.0 / c);
    }
  }

  lemma SolvedByRest(atom: Comparison, x: ArithTerm, rest: ArithTerm)
    requires x.Unknown? && Linear(atom, x, -1.0, Some(rest))
    ensures SolvedFor(atom, x, rest)
  {
    forall e: Env ensures atom.Holds(e) <==> atom.op.Holds(rest.Value(e), x.Value(e)) {
      assert LinearAt(atom, x, -1.0, Some(rest), e);
    }
  }

  lemma SolvedByInverse(atom: Comparison, x: ArithTerm, rest: ArithTerm, t: ArithTerm)
    requires x.Unknown? && Linear(atom, x, 1.0, Some(rest)) && atom.op.EQ? && Meets(t, Negation(rest))
    ensures SolvedFor(atom, x, t)
  {
    forall e: Env ensures atom.Holds(e) <==> atom.op.Holds(t.Value(e), x.Value(e)) {
      assert t.Value(e) == Negation(rest).Value(e) && LinearAt(atom, x, 1.0, Some(rest), e);
    }
    assert !Negation(rest).Mentions(x.id);
  }

  lemma SolvedByDivision(atom: Comparison, x: ArithTerm, c: real, rest: ArithTerm, t: ArithTerm)
    requires x.Unknown? && Linear(atom, x, c, Some(rest)) && (atom.op.EQ? || c < 0.0)
    requires Meets(t, Product(rest, Number(-1.0 / c)))
    ensures SolvedFor(atom, x, t)
  {
    var q := -1.0 / c;
    assert !Product(rest, Number(q)).Mentions(x.id);
    forall e: Env ensures atom.Holds(e) <==> atom.op.Holds(t.Value(e), x.Value(e)) {
      assert t.Value(e) == Product(rest, Number(q)).Value(e) == rest.Value(e) * q;
      assert LinearAt(atom, x, c, Some(rest), e);
      SolvedValue(atom.op, c, x.Value(e), rest.Value(e), q);
    }
  }

  // ---------- when nothing is answered ----------

  /** A positive multiple of the unknown on the smaller side: no term stands on the left of such a comparison with the unknown. */
  lemma NotSolvable(atom: Comparison, x: ArithTerm, c: real, rest: Option<ArithTerm>, t: ArithTerm)
    requires x.Unknown? && Linear(atom, x, c, rest) && c > 0.0 && !atom.op.EQ?
    ensures !SolvedFor(atom, x, t)
  {
    if !t.Contains(x) { var e := LargeUnknown(atom, x, c, rest, t); }
  }

  /** With a large value of the unknown the two comparisons differ. */
  lemma LargeUnknown(atom: Comparison, x: ArithTerm, c: real, rest: Option<ArithTerm>, t: ArithTerm) returns (e: Env)
    requires x.Unknown? && Linear(atom, x, c, rest) && c > 0.0 && !atom.op.EQ? && !t.Contains(x)
    ensures atom.Holds(e) != atom.op.Holds(t.Value(e), x.Value(e))
  {
    var e0 := Env((n: nat) => 0.0, (f: string, args: seq<real>) => 0.0);
    var v, r := t.Value(e0), RestValue(rest, e0);
    var y := if v + 1.0 >= 1.0 - r / c then v + 1.0 else 1.0 - r / c;
    e := e0.(unknown := Assigned(e0.unknown, x.id, y));
    NotMentioned(t, x.id, e0, e);
    if rest.Some? { NotMentioned(rest.value, x.id, e0, e); }
    LargeEnough(c, r, y);
    assert LinearAt(atom, x, c, rest, e);
  }

  lemma LargeEnough(c: real, r: real, y: real)
    requires c > 0.0 && y >= 1.0 - r / c
    ensures r + Scaled(c, y) > 0.0
  {
    assert c * (y + r / c) == c * y + r;
    assert c * (y + r / c) >= c;
  }

  /** When a linear comparison is not solved although there is fuel, its rest is of an integer sort or no term solves it. */
  lemma UnsolvedOnlyIf(fuel: nat, before: IdOrder, atom: Comparison, x: ArithTerm, terms: seq<ArithTerm>, occterm: nat, c: real,
                       isInt: ArithTerm -> bool, rest: ArithTerm)
    requires x.Unknown? && Linear(atom, x, c, Some(rest)) && RestTerm(fuel, before, terms, occterm, |terms|) == (true, Some(rest))
    requires ProductTerm(fuel, before, Number(-1.0), rest).Some? && ProductTerm(fuel, before, rest, Number(-1.0 / c)).Some?
    requires LinearSolution(fuel, before, atom, terms, occterm, c, isInt) == None
    ensures (isInt(rest) && c != 1.0 && c != -1.0) || forall t :: !SolvedFor(atom, x, t)
  {
    if c > 0.0 && !atom.op.EQ? {
      forall t ensures !SolvedFor(atom, x, t) { NotSolvable(atom, x, c, Some(rest), t); }
    }
  }

  // ---------- quantified equations ----------

  /** An equation that can be solved for a quantified index, by a term whose value is in the range of
      the quantifier, has a solution: the quantified kernel is rightly replaced by true. */
  lemma SolvableEquationHolds(atom: Comparison, x: ArithTerm, t: ArithTerm, range: iset<real>, e: Env)
    requires x.Unknown? && SolvedFor(atom, x, t) && atom.op.EQ? && t.Value(e) in range
    ensures exists y :: y in range && atom.Holds(e.(unknown := Assigned(e.unknown, x.id, y)))
  {
    var y := t.Value(e);
    var e' := e.(unknown := Assigned(e.unknown, x.id, y));
    NotMentioned(t, x.id, e, e');
    assert atom.Holds(e') <==> atom.op.Holds(t.Value(e'), x.Value(e'));
  }

  function Assigned(f: nat -> real, x: nat, y: real): nat -> real {
    (n: nat) => if n == x then y else f(n)
  }

  /** The environments differ at most in the value of unknown x. */
  ghost predicate SameElsewhere(e: Env, e': Env, x: nat) {
    e'.call == e.call && forall n: nat :: n != x ==> e'.unknown(n) == e.unknown(n)
  }

  lemma {:induction false} NotMentioned(t: ArithTerm, x: nat, e: Env, e': Env)
    requires !t.Contains(Unknown(x)) && SameElsewhere(e, e', x)
    ensures t.Value(e') == t.Value(e)
    decreases t
  {
    match t
    case Plus(l, r) =>
      NotMentioned(l, x, e, e');
      NotMentioned(r, x, e, e');
    case Times(l, r) =>
      NotMentioned(l, x, e, e');
      NotMentioned(r, x, e, e');
    case Call(_, args) =>
      forall n | 0 <= n < |args| ensures args[n].Value(e') == args[n].Value(e) { NotMentioned(args[n], x, e, e'); }
      assert seq(|args|, n requires 0 <= n < |args| => args[n].Value(e')) == seq(|args|, n requires 0 <= n < |args| => args[n].Value(e));
    case _ =>
  }
}
