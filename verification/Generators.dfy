/** Generators that enumerate the answers of a diagram: what they yield, and why that is right. */
module Generators {
  import Syntax

  type Var = Syntax.Variable
  type Element = Syntax.DomainElement
  type Table = seq<Element>
  type Assignment = map<Var, Element>

  ghost predicate NoDuplicates<X(!new)>(xs: seq<X>) {
    forall i, j :: 0 <= i < j < |xs| ==> xs[i] != xs[j]
  }

  // ---------- diagrams over variables ----------

  /** A diagram in which bound indices have been replaced by variables of their own. */
  datatype Diagram =
    | Leaf(value: bool)
    | Branch(kernel: GKernel, truebranch: Diagram, falsebranch: Diagram)

  datatype GKernel =
    | Atom(id: nat, vars: set<Var>)
    | Exists(bound: Var, table: Table, body: Diagram)

  function KernelVars(k: GKernel): set<Var> {
    match k
    case Atom(_, vars) => vars
    case Exists(v, _, body) => DiagramVars(body) - {v}
  }

  function DiagramVars(d: Diagram): set<Var> {
    match d
    case Leaf(_) => {}
    case Branch(k, t, f) => KernelVars(k) + DiagramVars(t) + DiagramVars(f)
  }

  /** Bound variables, which are new ones in the generator of their kernel. */
  function BoundVars(d: Diagram): set<Var> {
    match d
    case Leaf(_) => {}
    case Branch(k, t, f) => KernelBound(k) + BoundVars(t) + BoundVars(f)
  }

  function KernelBound(k: GKernel): set<Var> {
    match k
    case Atom(_, _) => {}
    case Exists(v, _, body) => {v} + BoundVars(body)
  }

  /** Tables list each element once; nested kernels do not bind a variable that is in scope. */
  ghost predicate Ok(d: Diagram) {
    match d
    case Leaf(_) => true
    case Branch(k, t, f) => KernelOk(k) && Ok(t) && Ok(f)
  }

  ghost predicate KernelOk(k: GKernel) {
    match k
    case Atom(_, _) => true
    case Exists(v, table, body) => NoDuplicates(table) && v !in BoundVars(body) && Ok(body)
  }

  function Restrict(a: Assignment, vars: set<Var>): Assignment {
    map v | v in a && v in vars :: a[v]
  }

  /** Truth of the atoms, and the enumerations that their own generators give. */
  datatype Interp = Interp(
    holds: (nat, Assignment) -> bool,
    listing: (GKernel, bool, map<Var, Table>, Assignment) -> seq<Assignment>)
  {
    ghost predicate KernelHolds(k: GKernel, a: Assignment) {
      match k
      case Atom(id, vars) => holds(id, Restrict(a, vars))
      case Exists(v, table, body) => exists x :: x in table && DiagramHolds(body, a[v := x])
    }

    ghost predicate DiagramHolds(d: Diagram, a: Assignment) {
      match d
      case Leaf(b) => b
      case Branch(k, t, f) => if KernelHolds(k, a) then DiagramHolds(t, a) else DiagramHolds(f, a)
    }

    /** The generators for atoms are correct. */
    ghost predicate Ok() {
      forall k: GKernel, branch: bool, outs: map<Var, Table>, a: Assignment {:trigger listing(k, branch, outs, a)} ::
        k.Atom? && TablesOk(outs) ==> Lists(listing(k, branch, outs, a), a, outs, (x: Assignment) => KernelHolds(k, x) == branch)
    }

    lemma {:induction false} KernelDepends(k: GKernel, a: Assignment, b: Assignment)
      requires Agree(a, b, KernelVars(k))
      ensures KernelHolds(k, a) == KernelHolds(k, b)
      decreases k
    {
      match k
      case Atom(_, vars) => assert Restrict(a, vars) == Restrict(b, vars);
      case Exists(v, table, body) =>
        forall x | x in table ensures DiagramHolds(body, a[v := x]) == DiagramHolds(body, b[v := x]) {
          DiagramDepends(body, a[v := x], b[v := x]);
        }
    }

    lemma {:induction false} DiagramDepends(d: Diagram, a: Assignment, b: Assignment)
      requires Agree(a, b, DiagramVars(d))
      ensures DiagramHolds(d, a) == DiagramHolds(d, b)
      decreases d
    {
      match d
      case Leaf(_) =>
      case Branch(k, t, f) =>
        KernelDepends(k, a, b);
        DiagramDepends(t, a, b);
        DiagramDepends(f, a, b);
    }
  }

  ghost predicate Agree(a: Assignment, b: Assignment, vars: set<Var>) {
    forall v :: v in vars ==> (v in a <==> v in b) && (v in a ==> a[v] == b[v])
  }

  // ---------- what is to be enumerated ----------

  ghost predicate TablesOk(outs: map<Var, Table>) {
    forall v :: v in outs ==> NoDuplicates(outs[v])
  }

  /** The assignment x is a with values from their tables for the output variables. */
  ghost predicate Extends(a: Assignment, outs: map<Var, Table>, x: Assignment) {
    && x.Keys == a.Keys + outs.Keys
    && (forall v :: v in outs ==> x[v] in outs[v])
    && (forall v :: v in a && v !in outs ==> x[v] == a[v])
  }

  /** The sequence has every answer exactly once and nothing else. */
  ghost predicate Lists(xs: seq<Assignment>, a: Assignment, outs: map<Var, Table>, phi: Assignment -> bool) {
    NoDuplicates(xs) && forall x :: x in xs <==> Extends(a, outs, x) && phi(x)
  }

  // ---------- generators ----------

  datatype Generator =
    | EmptyGenerator
    | FullGenerator
    | UniverseGenerator(vars: seq<Var>, tables: seq<Table>)
    | AtomGenerator(kernel: GKernel, branch: bool, outs: map<Var, Table>)
    | OneChildGenerator(generator: Generator, child: Generator)
    | TwoChildGenerator(checker: Generator, generator: Generator, falsecheckbranch: Generator, truecheckbranch: Generator)
    | UnionGenerator(first: Generator, firstchecker: Generator, second: Generator, secondchecker: Generator)
    | TrueQuantKernelGenerator(subBddTrueGenerator: Generator, bound: Var)

  ghost function FlatMap(xs: seq<Assignment>, f: Assignment -> seq<Assignment>): seq<Assignment> {
    if xs == [] then [] else f(xs[0]) + FlatMap(xs[1..], f)
  }

  ghost function Filter(xs: seq<Assignment>, p: Assignment -> bool): seq<Assignment> {
    if xs == [] then [] else (if p(xs[0]) then [xs[0]] else []) + Filter(xs[1..], p)
  }

  /** All combinations of values, the last variable varying fastest. */
  ghost function Combinations(vars: seq<Var>, tables: seq<Table>, a: Assignment): seq<Assignment>
    requires |vars| == |tables|
    decreases |vars|, 0, 0
  {
    if vars == [] then [a]
    else Choices(vars[0], tables[0], vars[1..], tables[1..], a)
  }

  ghost function Choices(v: Var, table: Table, vars: seq<Var>, tables: seq<Table>, a: Assignment): seq<Assignment>
    requires |vars| == |tables|
    decreases |vars|, 1, |table|
  {
    if table == [] then [] else Combinations(vars, tables, a[v := table[0]]) + Choices(v, table[1..], vars, tables, a)
  }

  /** Forgets the value of a bound variable. */
  function Project(a: Assignment, v: Var, x: Assignment): Assignment {
    if v in a then x[v := a[v]] else x - {v}
  }

  /** The projections of a sequence, each when it is first met. */
  ghost function FirstProjections(a: Assignment, v: Var, xs: seq<Assignment>): seq<Assignment> {
    if xs == [] then []
    else
      var init := FirstProjections(a, v, xs[..|xs| - 1]);
      var p := Project(a, v, xs[|xs| - 1]);
      if p in init then init else init + [p]
  }

  ghost predicate WellFormed(g: Generator) {
    match g
    case UniverseGenerator(vars, tables) => |vars| == |tables|
    case OneChildGenerator(g, c) => WellFormed(g) && WellFormed(c)
    case TwoChildGenerator(c, g, f, t) => WellFormed(c) && WellFormed(g) && WellFormed(f) && WellFormed(t)
    case UnionGenerator(g, c, h, d) => WellFormed(g) && WellFormed(c) && WellFormed(h) && WellFormed(d)
    case TrueQuantKernelGenerator(g, _) => WellFormed(g)
    case _ => true
  }

  /** What a generator yields, in order, when it starts with the given values. */
  ghost function Enumerate(I: Interp, g: Generator, a: Assignment): seq<Assignment>
    requires WellFormed(g)
    decreases g
  {
    match g
    case EmptyGenerator => []
    case FullGenerator => [a]
    case UniverseGenerator(vars, tables) => Combinations(vars, tables, a)
    case AtomGenerator(k, branch, outs) => I.listing(k, branch, outs, a)
    case OneChildGenerator(gen, child) => FlatMap(Enumerate(I, gen, a), (x: Assignment) => Enumerate(I, child, x))
    case TwoChildGenerator(c, gen, f, t) =>
      FlatMap(Enumerate(I, gen, a), (x: Assignment) => if Enumerate(I, c, x) != [] then Enumerate(I, t, x) else Enumerate(I, f, x))
    case UnionGenerator(gen, c, h, _) =>
      Enumerate(I, gen, a) + Filter(Enumerate(I, h, a), (x: Assignment) => Enumerate(I, c, x) == [])
    case TrueQuantKernelGenerator(sub, v) => FirstProjections(a, v, Enumerate(I, sub, a))
  }

  /** The generator yields exactly the answers, whatever values it starts with. */
  ghost predicate Right(I: Interp, g: Generator, outs: map<Var, Table>, phi: Assignment -> bool) {
    WellFormed(g) && forall a: Assignment :: Lists(Enumerate(I, g, a), a, outs, phi)
  }

  // ---------- sequences ----------

  lemma {:induction false} FlatMapElements(xs: seq<Assignment>, f: Assignment -> seq<Assignment>, y: Assignment)
    ensures y in FlatMap(xs, f) <==> exists x :: x in xs && y in f(x)
    decreases |xs|
  {
    if xs != [] {
      FlatMapElements(xs[1..], f, y);
      assert forall x :: x in xs <==> x == xs[0] || x in xs[1..];
    }
  }

  lemma NoDuplicatesConcat<X(!new)>(xs: seq<X>, ys: seq<X>)
    requires NoDuplicates(xs) && NoDuplicates(ys) && forall x :: x in xs ==> x !in ys
    ensures NoDuplicates(xs + ys)
  {
    forall i, j | 0 <= i < j < |xs + ys| ensures (xs + ys)[i] != (xs + ys)[j] {
      if i < |xs| <= j { assert xs[i] in xs && ys[j - |xs|] in ys; }
    }
  }

  lemma NoDuplicatesRest<X(!new)>(xs: seq<X>)
    requires xs != [] && NoDuplicates(xs)
    ensures NoDuplicates(xs[1..]) && xs[0] !in xs[1..]
  {
  }

  lemma {:induction false} FlatMapNoDuplicates(xs: seq<Assignment>, f: Assignment -> seq<Assignment>)
    requires NoDuplicates(xs) && forall x :: x in xs ==> NoDuplicates(f(x))
    requires forall x, y, z :: x in xs && y in xs && z in f(x) && z in f(y) ==> x == y
    ensures NoDuplicates(FlatMap(xs, f))
    decreases |xs|
  {
    if xs != [] {
      NoDuplicatesRest(xs);
      FlatMapNoDuplicates(xs[1..], f);
      forall z | z in f(xs[0]) ensures z !in FlatMap(xs[1..], f) {
        FlatMapElements(xs[1..], f, z);
      }
      NoDuplicatesConcat(f(xs[0]), FlatMap(xs[1..], f));
    }
  }

  lemma {:induction false} FilterElements(xs: seq<Assignment>, p: Assignment -> bool)
    ensures forall x :: x in Filter(xs, p) <==> x in xs && p(x)
    ensures NoDuplicates(xs) ==> NoDuplicates(Filter(xs, p))
    decreases |xs|
  {
    if xs != [] {
      FilterElements(xs[1..], p);
      assert forall x :: x in xs <==> x == xs[0] || x in xs[1..];
      if NoDuplicates(xs) {
        NoDuplicatesRest(xs);
        NoDuplicatesConcat(if p(xs[0]) then [xs[0]] else [], Filter(xs[1..], p));
      }
    }
  }

  // ---------- the kinds of generator ----------

  /** A condition that does not depend on the given outputs. */
  ghost predicate Independent(phi: Assignment -> bool, outs: map<Var, Table>) {
    forall x: Assignment, y: Assignment :: Extends(x, outs, y) ==> phi(y) == phi(x)
  }

  /** Choosing some outputs first and the others after them chooses all outputs. */
  lemma ExtendsTwice(a: Assignment, o1: map<Var, Table>, o2: map<Var, Table>, z: Assignment)
    requires o1.Keys !! o2.Keys
    ensures Extends(a, o1 + o2, z) <==> exists x :: Extends(a, o1, x) && Extends(x, o2, z)
  {
    if Extends(a, o1 + o2, z) {
      var x := map v | v in a.Keys + o1.Keys :: if v in o1 then z[v] else a[v];
      assert x.Keys == a.Keys + o1.Keys;
      assert Extends(a, o1, x) && Extends(x, o2, z);
    }
  }

  lemma ExtendsUnique(a: Assignment, o1: map<Var, Table>, o2: map<Var, Table>, x: Assignment, y: Assignment, z: Assignment)
    requires o1.Keys !! o2.Keys && Extends(a, o1, x) && Extends(a, o1, y) && Extends(x, o2, z) && Extends(y, o2, z)
    ensures x == y
  {
    forall v | v in x ensures x[v] == y[v] {
      if v in o2 { assert x[v] == a[v] == y[v]; } else { assert x[v] == z[v] == y[v]; }
    }
  }

  /** Enumerating, for every choice of some outputs, all choices of the others. */
  lemma FlatMapLists(a: Assignment, xs: seq<Assignment>, o1: map<Var, Table>, p1: Assignment -> bool,
                     f: Assignment -> seq<Assignment>, o2: map<Var, Table>, p2: Assignment -> bool)
    requires o1.Keys !! o2.Keys && Lists(xs, a, o1, p1) && Independent(p1, o2)
    requires forall x :: x in xs ==> Lists(f(x), x, o2, p2)
    ensures Lists(FlatMap(xs, f), a, o1 + o2, (z: Assignment) => p1(z) && p2(z))
  {
    forall x, y, z | x in xs && y in xs && z in f(x) && z in f(y) ensures x == y { ExtendsUnique(a, o1, o2, x, y, z); }
    FlatMapNoDuplicates(xs, f);
    forall z ensures z in FlatMap(xs, f) <==> Extends(a, o1 + o2, z) && p1(z) && p2(z) {
      FlatMapElements(xs, f, z);
      ExtendsTwice(a, o1, o2, z);
      if Extends(a, o1 + o2, z) && p1(z) && p2(z) {
        var x :| Extends(a, o1, x) && Extends(x, o2, z);
        assert p1(x) && x in xs && z in f(x);
      }
    }
  }

  lemma OneChildRight(I: Interp, g: Generator, o1: map<Var, Table>, p1: Assignment -> bool,
                      child: Generator, o2: map<Var, Table>, p2: Assignment -> bool)
    requires o1.Keys !! o2.Keys && Right(I, g, o1, p1) && Right(I, child, o2, p2) && Independent(p1, o2)
    ensures Right(I, OneChildGenerator(g, child), o1 + o2, (z: Assignment) => p1(z) && p2(z))
  {
    forall a: Assignment ensures Lists(Enumerate(I, OneChildGenerator(g, child), a), a, o1 + o2, (z: Assignment) => p1(z) && p2(z)) {
      FlatMapLists(a, Enumerate(I, g, a), o1, p1, (x: Assignment) => Enumerate(I, child, x), o2, p2);
    }
  }

  /** A generator without outputs checks a condition. */
  lemma Checks(I: Interp, c: Generator, p: Assignment -> bool, x: Assignment)
    requires Right(I, c, map[], p)
    ensures Enumerate(I, c, x) != [] <==> p(x)
  {
    var xs := Enumerate(I, c, x);
    assert Lists(xs, x, map[], p);
    assert Extends(x, map[], x);
    if xs != [] {
      assert xs[0] in xs;
      assert xs[0] == x;
    }
  }

  lemma TwoChildRight(I: Interp, c: Generator, p: Assignment -> bool, g: Generator, o1: map<Var, Table>,
                      f: Generator, pf: Assignment -> bool, t: Generator, pt: Assignment -> bool, o2: map<Var, Table>)
    requires o1.Keys !! o2.Keys && Right(I, c, map[], p) && Right(I, g, o1, (x: Assignment) => true) && Independent(p, o2)
    requires Right(I, f, o2, pf) && Right(I, t, o2, pt)
    ensures Right(I, TwoChildGenerator(c, g, f, t), o1 + o2, (z: Assignment) => if p(z) then pt(z) else pf(z))
  {
    var phi := (z: Assignment) => if p(z) then pt(z) else pf(z);
    var step := (x: Assignment) => if Enumerate(I, c, x) != [] then Enumerate(I, t, x) else Enumerate(I, f, x);
    forall a: Assignment ensures Lists(Enumerate(I, TwoChildGenerator(c, g, f, t), a), a, o1 + o2, phi) {
      var xs := Enumerate(I, g, a);
      assert Lists(xs, a, o1, (x: Assignment) => true);
      forall x | x in xs ensures Lists(step(x), x, o2, phi) {
        Checks(I, c, p, x);
        assert Lists(Enumerate(I, t, x), x, o2, pt) && Lists(Enumerate(I, f, x), x, o2, pf);
      }
      FlatMapLists(a, xs, o1, (x: Assignment) => true, step, o2, phi);
    }
  }

  /** The second part of a union skips what the first has yielded, though it is not restricted itself. */
  lemma UnionRight(I: Interp, g: Generator, c: Generator, p: Assignment -> bool, h: Generator, d: Generator, q: Assignment -> bool,
                   outs: map<Var, Table>)
    requires Right(I, g, outs, p) && Right(I, c, map[], p) && Right(I, h, outs, q) && WellFormed(d)
    ensures Right(I, UnionGenerator(g, c, h, d), outs, (z: Assignment) => p(z) || q(z))
  {
    var phi := (z: Assignment) => p(z) || q(z);
    forall a: Assignment ensures Lists(Enumerate(I, UnionGenerator(g, c, h, d), a), a, outs, phi) {
      var xs, ys := Enumerate(I, g, a), Enumerate(I, h, a);
      var unseen := (x: Assignment) => Enumerate(I, c, x) == [];
      assert Lists(xs, a, outs, p) && Lists(ys, a, outs, q);
      forall x ensures unseen(x) <==> !p(x) { Checks(I, c, p, x); }
      FilterElements(ys, unseen);
      NoDuplicatesConcat(xs, Filter(ys, unseen));
    }
  }

  lemma {:induction false} FirstProjectionsElements(a: Assignment, v: Var, xs: seq<Assignment>)
    ensures NoDuplicates(FirstProjections(a, v, xs))
    ensures forall y :: y in FirstProjections(a, v, xs) <==> exists x :: x in xs && Project(a, v, x) == y
    decreases |xs|
  {
    if xs != [] {
      var init, last := xs[..|xs| - 1], xs[|xs| - 1];
      FirstProjectionsElements(a, v, init);
      assert forall x :: x in xs <==> x in init || x == last;
      assert FirstProjections(a, v, xs) == FirstProjections(a, v, init) ||
             FirstProjections(a, v, xs) == FirstProjections(a, v, init) + [Project(a, v, last)];
    }
  }

  /** Enumerating the body with the bound variable as one more output, and forgetting its value. */
  lemma QuantRight(I: Interp, sub: Generator, k: GKernel, outs: map<Var, Table>)
    requires k.Exists? && k.bound !in outs && Right(I, sub, outs[k.bound := k.table], (x: Assignment) => I.DiagramHolds(k.body, x))
    ensures Right(I, TrueQuantKernelGenerator(sub, k.bound), outs, (x: Assignment) => I.KernelHolds(k, x))
  {
    var v, table := k.bound, k.table;
    forall a: Assignment
      ensures Lists(Enumerate(I, TrueQuantKernelGenerator(sub, v), a), a, outs, (x: Assignment) => I.KernelHolds(k, x))
    {
      var xs := Enumerate(I, sub, a);
      assert Lists(xs, a, outs[v := table], (x: Assignment) => I.DiagramHolds(k.body, x));
      FirstProjectionsElements(a, v, xs);
      forall y ensures y in FirstProjections(a, v, xs) <==> Extends(a, outs, y) && I.KernelHolds(k, y) {
        Projected(I, k, outs, a, xs, y);
      }
    }
  }

  lemma Projected(I: Interp, k: GKernel, outs: map<Var, Table>, a: Assignment, xs: seq<Assignment>, y: Assignment)
    requires k.Exists? && k.bound !in outs && Lists(xs, a, outs[k.bound := k.table], (x: Assignment) => I.DiagramHolds(k.body, x))
    ensures (exists x :: x in xs && Project(a, k.bound, x) == y) <==> Extends(a, outs, y) && I.KernelHolds(k, y)
  {
    var v := k.bound;
    if x :| x in xs && Project(a, v, x) == y {
      assert Extends(a, outs[v := k.table], x) && I.DiagramHolds(k.body, x);
      ProjectExtends(a, outs, v, k.table, x);
    }
    if Extends(a, outs, y) && I.KernelHolds(k, y) {
      var e :| e in k.table && I.DiagramHolds(k.body, y[v := e]);
      ExtendsProject(a, outs, v, k.table, y, e);
    }
  }

  lemma ProjectExtends(a: Assignment, outs: map<Var, Table>, v: Var, table: Table, x: Assignment)
    requires v !in outs && Extends(a, outs[v := table], x)
    ensures Extends(a, outs, Project(a, v, x)) && v in x && x[v] in table && Project(a, v, x)[v := x[v]] == x
  {
    assert v in outs[v := table];
  }

  lemma ExtendsProject(a: Assignment, outs: map<Var, Table>, v: Var, table: Table, y: Assignment, e: Element)
    requires v !in outs && Extends(a, outs, y) && e in table
    ensures Extends(a, outs[v := table], y[v := e]) && Project(a, v, y[v := e]) == y
  {
    assert v in a ==> y[v] == a[v];
  }

  // ---------- all combinations ----------

  /** The outputs of parallel lists of variables and tables. */
  ghost function Outputs(vars: seq<Var>, tables: seq<Table>): (r: map<Var, Table>)
    requires |vars| == |tables|
    ensures r.Keys == set v | v in vars
  {
    if vars == [] then map[] else Outputs(vars[1..], tables[1..])[vars[0] := tables[0]]
  }

  lemma {:induction false} CombinationsList(vars: seq<Var>, tables: seq<Table>, a: Assignment)
    requires |vars| == |tables| && NoDuplicates(vars) && forall t :: t in tables ==> NoDuplicates(t)
    ensures Lists(Combinations(vars, tables, a), a, Outputs(vars, tables), (x: Assignment) => true)
    decreases |vars|, 0
  {
    if vars == [] {
      forall x ensures Extends(a, map[], x) <==> x == a {}
    } else {
      NoDuplicatesRest(vars);
      assert tables[0] in tables;
      ChoicesList(vars[0], tables[0], vars[1..], tables[1..], a);
    }
  }

  lemma {:induction false} ChoicesList(v: Var, table: Table, vars: seq<Var>, tables: seq<Table>, a: Assignment)
    requires |vars| == |tables| && NoDuplicates(vars) && v !in vars && NoDuplicates(table) && forall t :: t in tables ==> NoDuplicates(t)
    ensures Lists(Choices(v, table, vars, tables, a), a, Outputs(vars, tables)[v := table], (x: Assignment) => true)
    decreases |vars|, 1, |table|
  {
    if table == [] {
      var none := Outputs(vars, tables)[v := table];
      forall x ensures !Extends(a, none, x) { assert v in none; }
    } else {
      var outs, rest := Outputs(vars, tables), table[1..];
      var e := table[0];
      NoDuplicatesRest(table);
      CombinationsList(vars, tables, a[v := e]);
      ChoicesList(v, rest, vars, tables, a);
      var xs, ys := Combinations(vars, tables, a[v := e]), Choices(v, rest, vars, tables, a);
      assert Choices(v, table, vars, tables, a) == xs + ys;
      forall x: Assignment ensures x in xs + ys <==> Extends(a, outs[v := table], x) {
        FirstChoice(a, outs, v, table, x);
      }
      NoDuplicatesConcat(xs, ys);
    }
  }

  /** What an answer with a value for v, not among the outputs, has to do with the other variables. */
  ghost predicate ExtendsRest(a: Assignment, outs: map<Var, Table>, v: Var, x: Assignment) {
    && x.Keys == a.Keys + outs.Keys + {v}
    && (forall u :: u in outs ==> x[u] in outs[u])
    && (forall u :: u in a && u !in outs && u != v ==> x[u] == a[u])
  }

  lemma ExtendsWith(a: Assignment, outs: map<Var, Table>, v: Var, table: Table, x: Assignment)
    requires v !in outs
    ensures Extends(a, outs[v := table], x) <==> ExtendsRest(a, outs, v, x) && x[v] in table
  {
    assert a.Keys + outs[v := table].Keys == a.Keys + outs.Keys + {v};
    if Extends(a, outs[v := table], x) {
      forall u | u in outs ensures x[u] in outs[u] { assert u in outs[v := table]; }
    }
  }

  lemma ExtendsValue(a: Assignment, outs: map<Var, Table>, v: Var, e: Element, x: Assignment)
    requires v !in outs
    ensures Extends(a[v := e], outs, x) <==> ExtendsRest(a, outs, v, x) && x[v] == e
  {
    assert a[v := e].Keys + outs.Keys == a.Keys + outs.Keys + {v};
    if Extends(a[v := e], outs, x) {
      assert v in a[v := e];
      forall u | u in a && u !in outs && u != v ensures x[u] == a[u] { assert u in a[v := e]; }
    }
  }

  /** A value is the first of its table or one of the rest. */
  lemma FirstChoice(a: Assignment, outs: map<Var, Table>, v: Var, table: Table, x: Assignment)
    requires v !in outs && table != [] && NoDuplicates(table)
    ensures Extends(a, outs[v := table], x) <==> Extends(a[v := table[0]], outs, x) || Extends(a, outs[v := table[1..]], x)
    ensures !(Extends(a[v := table[0]], outs, x) && Extends(a, outs[v := table[1..]], x))
  {
    NoDuplicatesRest(table);
    assert table == [table[0]] + table[1..];
    ExtendsValue(a, outs, v, table[0], x);
    ExtendsWith(a, outs, v, table, x);
    ExtendsWith(a, outs, v, table[1..], x);
  }

  lemma UniverseRight(I: Interp, vars: seq<Var>, tables: seq<Table>)
    requires |vars| == |tables| && NoDuplicates(vars) && forall t :: t in tables ==> NoDuplicates(t)
    ensures Right(I, UniverseGenerator(vars, tables), Outputs(vars, tables), (x: Assignment) => true)
  {
    forall a: Assignment { CombinationsList(vars, tables, a); }
  }

  lemma RightSame(I: Interp, g: Generator, outs: map<Var, Table>, phi: Assignment -> bool, psi: Assignment -> bool)
    requires Right(I, g, outs, phi) && forall z: Assignment :: phi(z) == psi(z)
    ensures Right(I, g, outs, psi)
  {
    forall a: Assignment ensures Lists(Enumerate(I, g, a), a, outs, psi) {
      assert Lists(Enumerate(I, g, a), a, outs, phi);
    }
  }

  lemma EmptyRight(I: Interp, outs: map<Var, Table>)
    ensures Right(I, EmptyGenerator, outs, (x: Assignment) => false)
  {
  }

  lemma FullRight(I: Interp)
    ensures Right(I, FullGenerator, map[], (x: Assignment) => true)
  {
    forall a: Assignment, x: Assignment ensures Extends(a, map[], x) <==> x == a {}
  }

  lemma KernelIndependent(I: Interp, k: GKernel, b: bool, outs: map<Var, Table>)
    requires KernelVars(k) !! outs.Keys
    ensures Independent((x: Assignment) => I.KernelHolds(k, x), outs)
    ensures Independent((x: Assignment) => I.KernelHolds(k, x) == b, outs)
  {
    forall x: Assignment, y: Assignment | Extends(x, outs, y) ensures I.KernelHolds(k, y) == I.KernelHolds(k, x) {
      I.KernelDepends(k, x, y);
    }
  }
}
