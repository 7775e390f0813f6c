/** First-order formulas, what they mean, and when a node of the manager stands for one. */
module Formulas {
  import opened Diagrams
  import opened Syntax
  import opened Semantics
  import opened Store
  import opened ManagerState
  import opened Operations
  import opened Quantification
  import opened WellSorted

  /** Whether a predicate is its parent itself, or the parent's certainly/possibly true/false part. */
  datatype PredicateType = ST_NONE | ST_CT | ST_CF | ST_PT | ST_PF

  datatype Formula =
    | PredForm(negated: bool, symbol: PFSymbol, bound: PredicateType, args: seq<Term>)
    | BoolForm(negated: bool, conj: bool, subformulas: seq<Formula>)
    | EquivForm(negated: bool, left: Formula, right: Formula)
    | QuantForm(negated: bool, univ: bool, quantVars: set<Variable>, subformula: Formula)
  {
    function Flip(): Formula {
      match this
      case PredForm(n, s, b, args) => PredForm(!n, s, b, args)
      case BoolForm(n, c, subs) => BoolForm(!n, c, subs)
      case EquivForm(n, l, r) => EquivForm(!n, l, r)
      case QuantForm(n, u, vars, sub) => QuantForm(!n, u, vars, sub)
    }

    /** Terms have variables only, equality is not bounded, and nothing ranges over an empty built-in sort. */
    ghost predicate Proper() {
      match this
      case PredForm(_, symbol, bound, args) =>
        (symbol.EqualityPredicate? ==> bound.ST_NONE? && |args| == 2) && forall i: nat :: !ArgsContainIndex(args, i)
      case BoolForm(_, _, subs) => forall n :: 0 <= n < |subs| ==> subs[n].Proper()
      case EquivForm(_, l, r) => l.Proper() && r.Proper()
      case QuantForm(_, _, vars, sub) => (forall v :: v in vars ==> !EmptyBuiltin(v.sort)) && sub.Proper()
    }

    /** The sorts quantified over. */
    ghost predicate Ranges(sort: Sort) {
      match this
      case PredForm(_, _, _, _) => false
      case BoolForm(_, _, subs) => exists n :: 0 <= n < |subs| && subs[n].Ranges(sort)
      case EquivForm(_, l, r) => l.Ranges(sort) || r.Ranges(sort)
      case QuantForm(_, _, vars, sub) => (exists v :: v in vars && v.sort == sort) || sub.Ranges(sort)
    }
  }

  /** Values for the quantified variables, each from its sort. */
  ghost predicate IsAssignment(S: Structure, vars: set<Variable>, a: map<Variable, DomainElement>) {
    a.Keys == vars && forall v :: v in vars ==> a[v] in S.universe(v.sort)
  }

  ghost predicate AtomHolds(S: Structure, symbol: PFSymbol, bound: PredicateType, vals: seq<DomainElement>) {
    match bound
    case ST_NONE => S.Holds(symbol, AKT_TWOVALUED, vals)
    case ST_CT => S.Holds(symbol, AKT_CT, vals)
    case ST_CF => S.Holds(symbol, AKT_CF, vals)
    case ST_PT => !S.Holds(symbol, AKT_CF, vals)   // possibly true: not certainly false
    case ST_PF => !S.Holds(symbol, AKT_CT, vals)   // possibly false: not certainly true
  }

  ghost predicate FormulaHolds(f: Formula, S: Structure, vars: map<Variable, DomainElement>)
    decreases f
  {
    match f
    case PredForm(n, symbol, bound, args) => n != AtomHolds(S, symbol, bound, ArgValues(args, S, Env(vars, [])))
    case BoolForm(n, true, subs) => n != (forall i :: 0 <= i < |subs| ==> FormulaHolds(subs[i], S, vars))
    case BoolForm(n, false, subs) => n != (exists i :: 0 <= i < |subs| && FormulaHolds(subs[i], S, vars))
    case EquivForm(n, l, r) => n != (FormulaHolds(l, S, vars) == FormulaHolds(r, S, vars))
    case QuantForm(n, true, qs, sub) => n != (forall a | IsAssignment(S, qs, a) :: FormulaHolds(sub, S, vars + a))
    case QuantForm(n, false, qs, sub) => n != (exists a | IsAssignment(S, qs, a) :: FormulaHolds(sub, S, vars + a))
  }

  ghost predicate RespectsSorts(S: Structure, f: Formula) {
    forall sort :: f.Ranges(sort) ==> S.RespectsBuiltin(sort)
  }

  /** Node r stands for formula f, for every assignment to the free variables. */
  ghost predicate Compiled(s: State, r: NodeId, f: Formula) {
    && s.Ok() && r < |s.graph.trees| && NoIndex(s.World(), s.graph.trees[r]) && DiagramSorted(s.World(), s.graph.trees[r])
    && forall S: Structure, e: Env :: RespectsSorts(S, f) ==>
         (s.World().Holds(s.graph.trees[r], S, e) <==> FormulaHolds(f, S, e.vars))
  }

  lemma CompiledLater(s: State, s': State, r: NodeId, f: Formula)
    requires Compiled(s, r, f) && Grows(s, s')
    ensures Compiled(s', r, f)
  {
    GrowsKeeps(s, s');
    TreeWithin(s, r);
    DiagramKept(s.World(), s'.World(), s.graph.trees[r]);
    SortedKept(s.World(), s'.World(), s.graph.trees[r]);
    forall S: Structure, e: Env | RespectsSorts(S, f)
      ensures s'.World().Holds(s'.graph.trees[r], S, e) <==> FormulaHolds(f, S, e.vars)
    {
      assert s.World().Holds(s.graph.trees[r], S, e) <==> FormulaHolds(f, S, e.vars);
    }
  }

  // ---------- atoms ----------

  /** Bounded predicates are read off the table of their parent, inverted for the possible parts. */
  function CheckIfBoundedPredicate(bound: PredicateType, invert: bool): (AtomKernelType, bool) {
    match bound
    case ST_CF => (AKT_CF, invert)
    case ST_CT => (AKT_CT, invert)
    case ST_PF => (AKT_CT, !invert)
    case ST_PT => (AKT_CF, !invert)
    case ST_NONE => (AKT_TWOVALUED, invert)
  }

  lemma AtomCompiled(s: State, f: Formula, k: KernelId, invert: bool, r: NodeId)
    requires s.Ok() && f.PredForm? && f.Proper() && k < |s.table.kernels| && r < |s.graph.trees|
    requires invert == CheckIfBoundedPredicate(f.bound, f.negated).1
    requires if f.symbol.EqualityPredicate? && f.args[0] == f.args[1] then k == TRUEKERNEL
             else s.table.kernels[k] == AtomKernel(f.symbol, CheckIfBoundedPredicate(f.bound, f.negated).0, f.args)
    requires IsIfThenElse(s.graph.trees[r], k, Leaf(!invert), Leaf(invert))
    ensures Compiled(s, r, f)
  {
    var w := s.World();
    forall i: nat ensures !w.KernelContains(k, i) {}
    KernelsWithoutIndex(w, s.graph.trees[r], {k});
    forall S: Structure, e: Env ensures w.Holds(s.graph.trees[r], S, e) <==> FormulaHolds(f, S, e.vars) {
      ArgsIndependentOfIndices(f.args, S, e);
      assert KernelValue(k, w.Value(S, e)) == w.KernelHolds(k, S, e);
      assert f.symbol.EqualityPredicate? && f.args[0] == f.args[1] ==> ArgValues(f.args, S, e)[0] == ArgValues(f.args, S, e)[1];
    }
  }

  lemma ArgsIndependentOfIndices(args: seq<Term>, S: Structure, e: Env)
    requires forall i: nat :: !ArgsContainIndex(args, i)
    ensures ArgValues(args, S, e) == ArgValues(args, S, Env(e.vars, []))
  {
    ArgsIndependent(args, S, e, Env(e.vars, []));
  }

  // ---------- signs and connectives ----------

  lemma NegationCompiled(s: State, a: NodeId, r: NodeId, f: Formula)
    requires Compiled(s, a, f) && r < |s.graph.trees| && IsNegation(s.graph.trees[r], s.graph.trees[a])
    ensures Compiled(s, r, f.Flip())
  {
    var w := s.World();
    NoIndexKernels(w, s.graph.trees[a]);
    KernelsWithoutIndex(w, s.graph.trees[r], Kernels(s.graph.trees[a]));
    forall S: Structure, e: Env | RespectsSorts(S, f.Flip())
      ensures w.Holds(s.graph.trees[r], S, e) <==> FormulaHolds(f.Flip(), S, e.vars)
    {
      forall sort ensures f.Ranges(sort) <==> f.Flip().Ranges(sort) {}
      assert w.Holds(s.graph.trees[a], S, e) <==> FormulaHolds(f, S, e.vars);
      assert Eval(s.graph.trees[r], w.Value(S, e)) == !Eval(s.graph.trees[a], w.Value(S, e));
      FlipHolds(f, S, e.vars);
    }
  }

  lemma FlipHolds(f: Formula, S: Structure, vars: map<Variable, DomainElement>)
    ensures FormulaHolds(f.Flip(), S, vars) == !FormulaHolds(f, S, vars)
  {
  }

  lemma EmptyBoolFormCompiled(s: State, conj: bool)
    requires s.Ok()
    ensures Compiled(s, if conj then TRUEBDD else FALSEBDD, BoolForm(false, conj, []))
  {
    forall S: Structure, e: Env { s.World().HoldsBranch(0, Leaf(true), Leaf(true), S, e); }
  }

  /** One more subformula of a conjunction or disjunction. */
  lemma BoolFormCompiled(s: State, conj: bool, done: seq<Formula>, f: Formula, a: NodeId, b: NodeId, r: NodeId)
    requires Compiled(s, a, BoolForm(false, conj, done)) && Compiled(s, b, f) && r < |s.graph.trees|
    requires IsConnective(if conj then CONJUNCTION else DISJUNCTION, s.graph.trees[r], s.graph.trees[a], s.graph.trees[b])
    ensures Compiled(s, r, BoolForm(false, conj, done + [f]))
  {
    var w := s.World();
    var before, after := BoolForm(false, conj, done), BoolForm(false, conj, done + [f]);
    ConnectiveNoIndex(w, if conj then CONJUNCTION else DISJUNCTION, s.graph.trees[r], s.graph.trees[a], s.graph.trees[b]);
    forall S: Structure, e: Env | RespectsSorts(S, after)
      ensures w.Holds(s.graph.trees[r], S, e) <==> FormulaHolds(after, S, e.vars)
    {
      forall sort | before.Ranges(sort) || f.Ranges(sort) ensures after.Ranges(sort) {
        if f.Ranges(sort) { assert (done + [f])[|done|].Ranges(sort); }
        else {
          var n :| 0 <= n < |done| && done[n].Ranges(sort);
          assert (done + [f])[n].Ranges(sort);
        }
      }
      assert w.Holds(s.graph.trees[a], S, e) <==> FormulaHolds(before, S, e.vars);
      assert w.Holds(s.graph.trees[b], S, e) <==> FormulaHolds(f, S, e.vars);
      BoolFormHolds(conj, done, f, S, e.vars);
    }
  }

  lemma BoolFormHolds(conj: bool, done: seq<Formula>, f: Formula, S: Structure, vars: map<Variable, DomainElement>)
    ensures FormulaHolds(BoolForm(false, conj, done + [f]), S, vars) ==
            (if conj then CONJUNCTION else DISJUNCTION).Apply(FormulaHolds(BoolForm(false, conj, done), S, vars), FormulaHolds(f, S, vars))
  {
    var after := done + [f];
    assert forall i :: 0 <= i < |done| ==> after[i] == done[i];
    assert after[|done|] == f;
  }

  lemma ConnectiveNoIndex(w: World, op: Connective, r: Tree, a: Tree, b: Tree)
    requires NoIndex(w, a) && NoIndex(w, b) && IsConnective(op, r, a, b)
    ensures NoIndex(w, r)
  {
    NoIndexKernels(w, a);
    NoIndexKernels(w, b);
    KernelsWithoutIndex(w, r, Kernels(a) + Kernels(b));
  }

  /** Both sides true or both false. */
  lemma EquivCompiled(s: State, l: Formula, f: Formula, a: NodeId, b: NodeId, na: NodeId, nb: NodeId, both: NodeId, none: NodeId, r: NodeId)
    requires Compiled(s, a, l) && Compiled(s, b, f) && r < |s.graph.trees|
    requires na < |s.graph.trees| && nb < |s.graph.trees| && both < |s.graph.trees| && none < |s.graph.trees|
    requires IsNegation(s.graph.trees[na], s.graph.trees[a]) && IsNegation(s.graph.trees[nb], s.graph.trees[b])
    requires IsConnective(CONJUNCTION, s.graph.trees[both], s.graph.trees[a], s.graph.trees[b])
    requires IsConnective(CONJUNCTION, s.graph.trees[none], s.graph.trees[na], s.graph.trees[nb])
    requires IsConnective(DISJUNCTION, s.graph.trees[r], s.graph.trees[both], s.graph.trees[none])
    ensures Compiled(s, r, EquivForm(false, l, f))
  {
    var w, trees := s.World(), s.graph.trees;
    NoIndexKernels(w, trees[a]);
    NoIndexKernels(w, trees[b]);
    KernelsWithoutIndex(w, trees[r], Kernels(trees[a]) + Kernels(trees[b]));
    var g := EquivForm(false, l, f);
    forall S: Structure, e: Env | RespectsSorts(S, g) ensures w.Holds(trees[r], S, e) <==> FormulaHolds(g, S, e.vars) {
      forall sort | l.Ranges(sort) || f.Ranges(sort) ensures g.Ranges(sort) {}
      var v := w.Value(S, e);
      assert w.Holds(trees[a], S, e) <==> FormulaHolds(l, S, e.vars);
      assert w.Holds(trees[b], S, e) <==> FormulaHolds(f, S, e.vars);
      assert Eval(trees[na], v) == !Eval(trees[a], v) && Eval(trees[nb], v) == !Eval(trees[b], v);
      assert Eval(trees[both], v) == (Eval(trees[a], v) && Eval(trees[b], v));
      assert Eval(trees[none], v) == (Eval(trees[na], v) && Eval(trees[nb], v));
    }
  }
}
