/** Sets of an aggregate: several variables are bound at once, as De Bruijn indices counted from the last. */
module SetExpressions {
  import opened Diagrams
  import opened Syntax
  import opened Semantics
  import opened Store
  import opened ManagerState
  import opened Operations
  import opened Quantification
  import opened Visitors
  import opened Renaming
  import opened Rebuilding
  import opened Formulas
  import opened Binding

  /** The values of a term for all tuples, from the given sorts, that make a diagram true. */
  datatype QuantSetExpr = QuantSetExpr(quantvarsorts: seq<Sort>, subformula: NodeId, subterm: Term)
  {
    predicate ContainsIndex(w: World, i: nat)
      requires subformula < |w.trees|
    {
      var j := i + |quantvarsorts|;
      w.TreeContains(|w.kernels|, w.trees[subformula], j) || subterm.ContainsIndex(j)
    }

    /** Which value is given for which tuple; equal values for different tuples all count. */
    ghost function Elements(w: World, S: Structure, e: Env): imap<seq<DomainElement>, DomainElement>
      requires subformula < |w.trees|
    {
      imap xs: seq<DomainElement> | InSorts(S, quantvarsorts, xs) && w.Holds(w.trees[subformula], S, PushAll(e, xs))
        :: TermValue(subterm, S, PushAll(e, xs))
    }
  }

  ghost predicate InSorts(S: Structure, sorts: seq<Sort>, xs: seq<DomainElement>) {
    |xs| == |sorts| && forall n :: 0 <= n < |xs| ==> xs[n] in S.universe(sorts[n])
  }

  function PushAll(e: Env, xs: seq<DomainElement>): Env {
    if xs == [] then e else PushAll(e, xs[..|xs| - 1]).Push(xs[|xs| - 1])
  }

  // ---------- indices in sets ----------

  lemma {:induction false} PushAllIndex(e: Env, xs: seq<DomainElement>, i: nat)
    ensures PushAll(e, xs).vars == e.vars
    ensures PushAll(e, xs).Index(i) == if i < |xs| then xs[|xs| - 1 - i] else e.Index(i - |xs|)
    decreases |xs|
  {
    if xs != [] {
      PushAllIndex(e, xs[..|xs| - 1], if i > 0 then i - 1 else 0);
    }
  }

  /** A set does not depend on an index that does not occur in it, under all its binders. */
  lemma SetIndependent(w: World, q: QuantSetExpr, S: Structure, e: Env, e': Env)
    requires w.Nested() && q.subformula < |w.trees| && Within(w.trees[q.subformula], |w.kernels|)
    requires e.vars == e'.vars && forall i: nat :: q.ContainsIndex(w, i) ==> e.Index(i) == e'.Index(i)
    ensures q.Elements(w, S, e) == q.Elements(w, S, e')
  {
    forall xs | InSorts(S, q.quantvarsorts, xs)
      ensures w.Holds(w.trees[q.subformula], S, PushAll(e, xs)) == w.Holds(w.trees[q.subformula], S, PushAll(e', xs))
      ensures TermValue(q.subterm, S, PushAll(e, xs)) == TermValue(q.subterm, S, PushAll(e', xs))
    {
      forall j: nat | w.TreeContains(|w.kernels|, w.trees[q.subformula], j) || q.subterm.ContainsIndex(j)
        ensures PushAll(e, xs).Index(j) == PushAll(e', xs).Index(j)
      {
        PushAllIndex(e, xs, j);
        PushAllIndex(e', xs, j);
        assert j >= |xs| ==> q.ContainsIndex(w, j - |xs|);
      }
      PushAllIndex(e, xs, 0);
      PushAllIndex(e', xs, 0);
      TreeIndependent(w, w.trees[q.subformula], S, PushAll(e, xs), PushAll(e', xs));
      TermIndependent(q.subterm, S, PushAll(e, xs), PushAll(e', xs));
    }
  }

  datatype AggFunction = CARD | SUM | PROD | MIN | MAX
  datatype CompType = EQ | NEQ | LT | GT | LEQ | GEQ

  /** An aggregate over a list of sets, compared with a term. */
  datatype AggKernel = AggKernel(left: Term, comp: CompType, aggfunction: AggFunction, subsets: seq<QuantSetExpr>)
  {
    predicate InWorld(w: World) {
      forall n :: 0 <= n < |subsets| ==> subsets[n].subformula < |w.trees|
    }

    predicate ContainsIndex(w: World, i: nat)
      requires InWorld(w)
    {
      left.ContainsIndex(i) || exists n :: 0 <= n < |subsets| && subsets[n].ContainsIndex(w, i)
    }

    ghost function AllElements(w: World, S: Structure, e: Env): (r: seq<imap<seq<DomainElement>, DomainElement>>)
      requires InWorld(w)
      ensures |r| == |subsets| && forall n :: 0 <= n < |subsets| ==> r[n] == subsets[n].Elements(w, S, e)
    {
      seq(|subsets|, n requires 0 <= n < |subsets| => subsets[n].Elements(w, S, e))
    }

    ghost predicate Holds(A: Aggregates, w: World, S: Structure, e: Env)
      requires InWorld(w)
    {
      A.compare(comp, TermValue(left, S, e), A.value(aggfunction, AllElements(w, S, e)))
    }
  }

  /** What aggregates and comparisons are. */
  datatype Aggregates = Aggregates(
    value: (AggFunction, seq<imap<seq<DomainElement>, DomainElement>>) -> DomainElement,
    compare: (CompType, DomainElement, DomainElement) -> bool)

  /** Whatever the aggregates are, a comparison does not depend on an index that does not occur in it. */
  lemma AggKernelIndependent(A: Aggregates, w: World, k: AggKernel, S: Structure, e: Env, e': Env)
    requires w.Nested() && k.InWorld(w)
    requires forall n :: 0 <= n < |k.subsets| ==> Within(w.trees[k.subsets[n].subformula], |w.kernels|)
    requires e.vars == e'.vars && forall i: nat :: k.ContainsIndex(w, i) ==> e.Index(i) == e'.Index(i)
    ensures k.Holds(A, w, S, e) == k.Holds(A, w, S, e')
  {
    TermIndependent(k.left, S, e, e');
    forall n | 0 <= n < |k.subsets| ensures k.subsets[n].Elements(w, S, e) == k.subsets[n].Elements(w, S, e') {
      forall i: nat | k.subsets[n].ContainsIndex(w, i) ensures e.Index(i) == e'.Index(i) { assert k.ContainsIndex(w, i); }
      SetIndependent(w, k.subsets[n], S, e, e');
    }
    assert k.AllElements(w, S, e) == k.AllElements(w, S, e');
  }

  // ---------- binding ----------

  /** Values for the variables; the first variables bind last. */
  function BindSeq(a: map<Variable, DomainElement>, vars: seq<Variable>, xs: seq<DomainElement>): map<Variable, DomainElement>
    requires |vars| == |xs|
    decreases |vars|
  {
    var n := |vars|;
    if n == 0 then a else BindSeq(a[vars[n - 1] := xs[n - 1]], vars[..n - 1], xs[..n - 1])
  }

  /** For different variables these are simply their values. */
  lemma {:induction false} BindSeqValue(a: map<Variable, DomainElement>, vars: seq<Variable>, xs: seq<DomainElement>, v: Variable)
    requires |vars| == |xs|
    ensures v in vars ==> v in BindSeq(a, vars, xs)
    ensures forall n :: 0 <= n < |vars| && vars[n] == v && v !in vars[..n] ==> v in BindSeq(a, vars, xs) && BindSeq(a, vars, xs)[v] == xs[n]
    ensures v !in vars ==> (v in BindSeq(a, vars, xs) <==> v in a) && (v in a ==> BindSeq(a, vars, xs)[v] == a[v])
    decreases |vars|
  {
    var n := |vars|;
    if n > 0 {
      assert vars == vars[..n - 1] + [vars[n - 1]];
      BindSeqValue(a[vars[n - 1] := xs[n - 1]], vars[..n - 1], xs[..n - 1], v);
      forall i | 0 <= i < n && vars[i] == v && v !in vars[..i] ensures v in BindSeq(a, vars, xs) && BindSeq(a, vars, xs)[v] == xs[i] {
        if i < n - 1 { assert vars[..n - 1][..i] == vars[..i]; }
      }
    }
  }

  /** In which environments a diagram is true. */
  ghost function Truth(w: World, d: Tree, S: Structure): Env -> bool {
    (e: Env) => w.Holds(d, S, e)
  }

  /** Truth p' and term t' under binders are p and t with the variables. */
  ghost predicate BoundAt(vars: seq<Variable>, p: Env -> bool, t: Term, p': Env -> bool, t': Term, S: Structure, e: Env, xs: seq<DomainElement>)
    requires |vars| == |xs|
  {
    var inner, outer := PushAll(e, xs), Env(BindSeq(e.vars, vars, xs), e.indices);
    p'(inner) == p(outer) && TermValue(t', S, inner) == TermValue(t, S, outer)
  }

  ghost predicate SetBinds(s: State, vars: seq<Variable>, d: Tree, t: Term, b: NodeId, t': Term) {
    && s.graph.Unfolds() && b < |s.graph.trees|
    && forall S: Structure, e: Env, xs: seq<DomainElement> :: |xs| == |vars| ==>
         BoundAt(vars, Truth(s.World(), d, S), t, Truth(s.World(), s.graph.trees[b], S), t', S, e, xs)
  }

  lemma SetBindsNone(s: State, b: NodeId, t: Term)
    requires s.Ok() && b < |s.graph.trees|
    ensures SetBinds(s, [], s.graph.trees[b], t, b, t)
  {
  }

  lemma {:induction false} SetBindsLater(s: State, s1: State, vars: seq<Variable>, d: Tree, t: Term, b: NodeId, u: Term)
    requires s.Ok() && Grows(s, s1) && Within(d, |s.table.kernels|) && SetBinds(s, vars, d, t, b, u)
    ensures SetBinds(s1, vars, d, t, b, u)
  {
    var w, w1 := s.World(), s1.World();
    GrowsKeeps(s, s1);
    TreeWithin(s, b);
    DiagramKept(w, w1, s.graph.trees[b]);
    DiagramKept(w, w1, d);
    forall S: Structure, e: Env, xs: seq<DomainElement> | |xs| == |vars|
      ensures BoundAt(vars, Truth(w1, d, S), t, Truth(w1, w1.trees[b], S), u, S, e, xs)
    {
      assert BoundAt(vars, Truth(w, d, S), t, Truth(w, w.trees[b], S), u, S, e, xs);
    }
  }

  /** Binding one more variable: it becomes index 0, and those bound before move up. */
  lemma {:induction false} SetBindsMore(s: State, s1: State, vars: seq<Variable>, v: Variable, bound: nat, d: Tree, t: Term,
                                        b: NodeId, u: Term, b': NodeId)
    requires s.Ok() && Within(d, |s.table.kernels|) && SetBinds(s, vars, d, t, b, u)
    requires Changed(s, s1, BumpIndices(v, 0), bound, b, b') && bound <= |s.table.kernels| && Within(s.graph.trees[b], bound)
    ensures SetBinds(s1, vars + [v], d, t, b', BumpIndices(v, 0).ChangeTerm(u))
  {
    SetBindsLater(s, s1, vars, d, t, b, u);
    Bumped(s, s1, v, bound, b, b');
    var w := s1.World();
    forall S: Structure, e: Env, xs: seq<DomainElement> | |xs| == |vars| + 1
      ensures BoundAt(vars + [v], Truth(w, d, S), t, Truth(w, w.trees[b'], S), BumpIndices(v, 0).ChangeTerm(u), S, e, xs)
    {
      BoundMoreAt(s1, vars, v, d, t, b, u, b', S, e, xs);
    }
  }

  lemma {:induction false} BoundMoreAt(s: State, vars: seq<Variable>, v: Variable, d: Tree, t: Term, b: NodeId, u: Term, b': NodeId,
                                       S: Structure, e: Env, xs: seq<DomainElement>)
    requires SetBinds(s, vars, d, t, b, u) && b' < |s.graph.trees| && |xs| == |vars| + 1
    requires MeansChanged(s.World(), BumpIndices(v, 0), s.graph.trees[b], s.graph.trees[b'], S)
    ensures BoundAt(vars + [v], Truth(s.World(), d, S), t, Truth(s.World(), s.graph.trees[b'], S), BumpIndices(v, 0).ChangeTerm(u), S, e, xs)
  {
    var w, ys, x := s.World(), xs[..|vars|], xs[|vars|];
    BumpedHolds(s, v, w.trees[b], w.trees[b'], S, PushAll(e, ys), x);
    assert BoundAt(vars, Truth(w, d, S), t, Truth(w, w.trees[b], S), u, S, Env(e.vars[v := x], e.indices), ys);
    BoundMore(vars, v, Truth(w, d, S), t, Truth(w, w.trees[b], S), u, Truth(w, w.trees[b'], S), S, e, xs);
  }

  lemma BumpedHolds(s: State, v: Variable, d: Tree, d': Tree, S: Structure, e: Env, x: DomainElement)
    requires MeansChanged(s.World(), BumpIndices(v, 0), d, d', S)
    ensures s.World().Holds(d', S, e.Push(x)) == s.World().Holds(d, S, e.Bind(map[v := x]))
  {
    BumpedTarget(v, S, e, x);
  }

  lemma {:induction false} BoundMore(vars: seq<Variable>, v: Variable, p: Env -> bool, t: Term, q: Env -> bool, u: Term, q': Env -> bool,
                  S: Structure, e: Env, xs: seq<DomainElement>)
    requires |xs| == |vars| + 1
    requires var inner := PushAll(e, xs[..|vars|]); var x := xs[|vars|];
      q'(inner.Push(x)) == q(inner.Bind(map[v := x]))
    requires BoundAt(vars, p, t, q, u, S, Env(e.vars[v := xs[|vars|]], e.indices), xs[..|vars|])
    ensures BoundAt(vars + [v], p, t, q', BumpIndices(v, 0).ChangeTerm(u), S, e, xs)
  {
    var ys, x := xs[..|vars|], xs[|vars|];
    PushAllBind(e, ys, v, x);
    BumpedTerm(v, u, S, PushAll(e, ys), x);
    LastOfAll(e, vars, v, xs);
  }

  lemma {:induction false} BumpedTerm(v: Variable, u: Term, S: Structure, e: Env, x: DomainElement)
    ensures TermValue(BumpIndices(v, 0).ChangeTerm(u), S, e.Push(x)) == TermValue(u, S, e.Bind(map[v := x]))
  {
    BumpedTarget(v, S, e, x);
    BumpIndices(v, 0).TermChanged(u, S, e.Push(x));
  }

  lemma {:induction false} LastOfAll(e: Env, vars: seq<Variable>, v: Variable, xs: seq<DomainElement>)
    requires |xs| == |vars| + 1
    ensures PushAll(e, xs) == PushAll(e, xs[..|vars|]).Push(xs[|vars|])
    ensures BindSeq(e.vars, vars + [v], xs) == BindSeq(e.vars[v := xs[|vars|]], vars, xs[..|vars|])
  {
    assert (vars + [v])[..|vars|] == vars;
  }

  lemma {:induction false} PushAllBind(e: Env, xs: seq<DomainElement>, v: Variable, x: DomainElement)
    ensures PushAll(e, xs).Bind(map[v := x]) == PushAll(Env(e.vars[v := x], e.indices), xs)
    decreases |xs|
  {
    if xs == [] {
      assert e.vars + map[v := x] == e.vars[v := x];
    } else {
      PushAllBind(e, xs[..|xs| - 1], v, x);
    }
  }

  /** The elements of a set in which variables have been bound. */
  lemma {:induction false} BoundElements(s: State, vars: seq<Variable>, d: Tree, t: Term, q: QuantSetExpr, S: Structure, e: Env)
    requires SetBinds(s, vars, d, t, q.subformula, q.subterm) && q.quantvarsorts == SortsOf(vars)
    ensures q.Elements(s.World(), S, e) ==
      imap xs: seq<DomainElement> | InSorts(S, SortsOf(vars), xs) && s.World().Holds(d, S, Env(BindSeq(e.vars, vars, xs), e.indices))
        :: TermValue(t, S, Env(BindSeq(e.vars, vars, xs), e.indices))
  {
    forall xs | InSorts(S, SortsOf(vars), xs) 
      ensures BoundAt(vars, Truth(s.World(), d, S), t, Truth(s.World(), s.graph.trees[q.subformula], S), q.subterm, S, e, xs)
    {
    }
  }

  function SortsOf(vars: seq<Variable>): (r: seq<Sort>)
    ensures |r| == |vars| && forall n :: 0 <= n < |vars| ==> r[n] == vars[n].sort
  {
    seq(|vars|, n requires 0 <= n < |vars| => vars[n].sort)
  }

  // ---------- rebuilding ----------

  /** The visitor under n binders. */
  function Below(v: Visitor, n: nat): Visitor {
    match v
    case BumpIndices(x, m) => BumpIndices(x, m + n)
    case SubstituteTerms(_) => v
    case SubstituteIndex(sort, m, x) => SubstituteIndex(sort, m + n, x)
  }

  lemma {:induction false} BelowBinders(v: Visitor, S: Structure, e: Env, xs: seq<DomainElement>)
    requires v.Ok() && v.Fits(e)
    ensures Below(v, |xs|).Ok() && Below(v, |xs|).Fits(PushAll(e, xs))
    ensures Below(v, |xs|).Target(S, PushAll(e, xs)) == PushAll(v.Target(S, e), xs)
    decreases |xs|
  {
    if xs != [] {
      var ys := xs[..|xs| - 1];
      BelowBinders(v, S, e, ys);
      Below(v, |ys|).UnderBinder(S, PushAll(e, ys), xs[|xs| - 1]);
      assert Below(v, |xs|) == Below(v, |ys|).Under();
    }
  }

  /** The visitor, below the binders, suits the diagram and the term of a set. */
  ghost predicate SetSuits(w: World, v: Visitor, q: QuantSetExpr) {
    var below := Below(v, |q.quantvarsorts|);
    q.subformula < |w.trees| && SuitsAll(w, below, |w.kernels|, Kernels(w.trees[q.subformula])) && below.Suits(q.subterm)
  }

  /** Set q', read in an environment, has the elements of q in the changed environment. */
  ghost predicate SetChanged(w: World, v: Visitor, q: QuantSetExpr, q': QuantSetExpr, S: Structure) {
    && q.subformula < |w.trees| && q'.subformula < |w.trees|
    && forall e: Env :: v.Fits(e) ==> q'.Elements(w, S, e) == q.Elements(w, S, v.Target(S, e))
  }

  /** The change, below the binders, does no harm to the diagram of a set. */
  ghost predicate SetHarmless(w: World, v: Visitor, bound: nat, q: QuantSetExpr, S: Structure) {
    q.subformula < |w.trees| && Harmless(w, Below(v, |q.quantvarsorts|), bound, Kernels(w.trees[q.subformula]), S)
  }

  ghost predicate SetKeptApart(w: World, v: Visitor, q: QuantSetExpr) {
    q.subformula < |w.trees| && KeepsApart(w, Below(v, |q.quantvarsorts|), |w.kernels|, Kernels(w.trees[q.subformula]))
  }

  /** A set whose diagram and term have been changed under its binders has the elements of the old one elsewhere. */
  lemma SetRebuilt(w: World, v: Visitor, q: QuantSetExpr, q': QuantSetExpr, S: Structure)
    requires v.Ok() && q'.quantvarsorts == q.quantvarsorts && q.subformula < |w.trees| && q'.subformula < |w.trees|
    requires MeansChanged(w, Below(v, |q.quantvarsorts|), w.trees[q.subformula], w.trees[q'.subformula], S)
    requires q'.subterm == Below(v, |q.quantvarsorts|).ChangeTerm(q.subterm) && Below(v, |q.quantvarsorts|).Suits(q.subterm)
    ensures SetChanged(w, v, q, q', S)
  {
    forall e: Env | v.Fits(e) ensures q'.Elements(w, S, e) == q.Elements(w, S, v.Target(S, e)) {
      forall xs | InSorts(S, q.quantvarsorts, xs)
        ensures w.Holds(w.trees[q'.subformula], S, PushAll(e, xs)) == w.Holds(w.trees[q.subformula], S, PushAll(v.Target(S, e), xs))
        ensures TermValue(q'.subterm, S, PushAll(e, xs)) == TermValue(q.subterm, S, PushAll(v.Target(S, e), xs))
      {
        BelowBinders(v, S, e, xs);
        Below(v, |q.quantvarsorts|).TermChanged(q.subterm, S, PushAll(e, xs));
      }
    }
  }

  lemma SetIsChanged(s: State, s1: State, v: Visitor, q: QuantSetExpr, q': QuantSetExpr)
    requires s.Ok() && v.Ok() && q'.quantvarsorts == q.quantvarsorts && SetSuits(s.World(), v, q)
    requires Changed(s, s1, Below(v, |q.quantvarsorts|), |s.table.kernels|, q.subformula, q'.subformula)
    requires q'.subterm == Below(v, |q.quantvarsorts|).ChangeTerm(q.subterm)
    ensures forall S: Structure :: SetHarmless(s.World(), v, |s.table.kernels|, q, S) ==> SetChanged(s1.World(), v, q, q', S)
    ensures SetKeptApart(s.World(), v, q) ==> forall S: Structure :: SetChanged(s1.World(), v, q, q', S)
  {
    var w, below := s1.World(), Below(v, |q.quantvarsorts|);
    assert w.trees[q.subformula] == s.graph.trees[q.subformula];
    TreeWithin(s, q.subformula);
    BelowOk(v, |q.quantvarsorts|);
    SubstitutionMeans(s, s1, below, q.subformula, q'.subformula);
    forall S: Structure | SetHarmless(s.World(), v, |s.table.kernels|, q, S) || SetKeptApart(s.World(), v, q) ensures SetChanged(w, v, q, q', S) {
      SetRebuilt(w, v, q, q', S);
    }
  }

  lemma BelowOk(v: Visitor, n: nat)
    requires v.Ok()
    ensures Below(v, n).Ok()
  {
  }

  // ---------- sets in formulas ----------

  /** The values of a term for all values of the variables that satisfy a formula. */
  datatype SetExpr = SetExpr(quantVars: seq<Variable>, condition: Formula, term: Term)
  {
    ghost predicate Proper() {
      condition.Proper() && forall i: nat :: !term.ContainsIndex(i)
    }

    ghost function Elements(S: Structure, a: map<Variable, DomainElement>): imap<seq<DomainElement>, DomainElement> {
      imap xs: seq<DomainElement> | InSorts(S, SortsOf(quantVars), xs) && FormulaHolds(condition, S, BindSeq(a, quantVars, xs))
        :: TermValue(term, S, Env(BindSeq(a, quantVars, xs), []))
    }
  }

  /** The compiled set has the elements of the set in the formula. */
  ghost predicate SetCompiled(s: State, q: QuantSetExpr, se: SetExpr) {
    && s.Ok() && q.subformula < |s.graph.trees|
    && forall S: Structure, e: Env :: RespectsSorts(S, se.condition) ==>
         q.Elements(s.World(), S, e) == se.Elements(S, e.vars)
  }

  lemma {:induction false} BoundSetCompiled(s: State, s1: State, se: SetExpr, b: NodeId, q: QuantSetExpr)
    requires se.Proper() && Compiled(s, b, se.condition) && Grows(s, s1)
    requires SetBinds(s1, se.quantVars, s.graph.trees[b], se.term, q.subformula, q.subterm) && q.quantvarsorts == SortsOf(se.quantVars)
    ensures SetCompiled(s1, q, se)
  {
    CompiledLater(s, s1, b, se.condition);
    forall S: Structure, e: Env | RespectsSorts(S, se.condition)
      ensures q.Elements(s1.World(), S, e) == se.Elements(S, e.vars)
    {
      BoundElements(s1, se.quantVars, s.graph.trees[b], se.term, q, S, e);
      forall xs | InSorts(S, SortsOf(se.quantVars), xs)
        ensures TermValue(se.term, S, Env(BindSeq(e.vars, se.quantVars, xs), e.indices))
             == TermValue(se.term, S, Env(BindSeq(e.vars, se.quantVars, xs), []))
        ensures s1.World().Holds(s.graph.trees[b], S, Env(BindSeq(e.vars, se.quantVars, xs), e.indices))
            <==> FormulaHolds(se.condition, S, BindSeq(e.vars, se.quantVars, xs))
      {
        TermIndependent(se.term, S, Env(BindSeq(e.vars, se.quantVars, xs), e.indices), Env(BindSeq(e.vars, se.quantVars, xs), []));
      }
    }
  }

  lemma SetCompiledLater(s: State, s1: State, q: QuantSetExpr, se: SetExpr)
    requires SetCompiled(s, q, se) && Grows(s, s1)
    ensures SetCompiled(s1, q, se)
  {
    GrowsKeeps(s, s1);
    TreeWithin(s, q.subformula);
    DiagramKept(s.World(), s1.World(), s.graph.trees[q.subformula]);
    forall S: Structure, e: Env | RespectsSorts(S, se.condition)
      ensures q.Elements(s1.World(), S, e) == se.Elements(S, e.vars)
    {
      assert q.Elements(s1.World(), S, e) == q.Elements(s.World(), S, e);
    }
  }

  ghost predicate SetsCompiled(s: State, qs: seq<QuantSetExpr>, sets: seq<SetExpr>) {
    |qs| == |sets| && forall n :: 0 <= n < |sets| ==> SetCompiled(s, qs[n], sets[n])
  }

  lemma SetsCompiledLater(s: State, s1: State, qs: seq<QuantSetExpr>, sets: seq<SetExpr>)
    requires SetsCompiled(s, qs, sets) && Grows(s, s1)
    ensures SetsCompiled(s1, qs, sets)
  {
    forall n | 0 <= n < |sets| ensures SetCompiled(s1, qs[n], sets[n]) { SetCompiledLater(s, s1, qs[n], sets[n]); }
  }

  lemma SetsCompiledMore(s: State, qs: seq<QuantSetExpr>, sets: seq<SetExpr>, q: QuantSetExpr, se: SetExpr)
    requires SetsCompiled(s, qs, sets) && SetCompiled(s, q, se)
    ensures SetsCompiled(s, qs + [q], sets + [se])
  {
  }
}
