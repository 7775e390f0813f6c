/** Weakening or strengthening a diagram: removing kernels, or parts that cost too much. */
module Approximations {
  import opened KernelOrders
  import opened Diagrams
  import opened Syntax
  import opened Semantics
  import opened Store
  import opened ManagerState
  import opened Operations

  // ---------- the symbols of a kernel ----------

  function TermSymbols(t: Term): (r: set<PFSymbol>) {
    match t
    case FuncTerm(g, args) => {g} + ArgsSymbols(args)
    case _ => {}
  }

  function ArgsSymbols(args: seq<Term>): (r: set<PFSymbol>) {
    set n, g | 0 <= n < |args| && g in TermSymbols(args[n]) :: g
  }

  /** Does the symbol occur in the kernel, or in a kernel nested in it? */
  ghost predicate KernelUses(w: World, k: KernelId, symbol: PFSymbol)
    decreases k
  {
    k < |w.kernels| &&
    match w.kernels[k]
    case AtomKernel(g, _, args) => g == symbol || symbol in ArgsSymbols(args)
    case QuantKernel(_, b) => b < |w.trees| && exists j :: j in Kernels(w.trees[b]) && j < k && KernelUses(w, j, symbol)
    case _ => false
  }

  ghost predicate TreeUses(w: World, bound: nat, d: Tree, symbol: PFSymbol) {
    exists j :: j in Kernels(d) && j < bound && KernelUses(w, j, symbol)
  }

  /** The kernel mentions one of the symbols. */
  ghost predicate Dirty(w: World, symbols: set<PFSymbol>, k: KernelId) {
    exists g :: g in symbols && KernelUses(w, k, g)
  }

  // ---------- what does not use a symbol does not depend on it ----------

  /** The structures differ at most in the functions and predicates named. */
  ghost predicate DifferOnlyIn(symbols: set<PFSymbol>, S: Structure, S': Structure) {
    && S.universe == S'.universe
    && (forall g, vals :: g !in symbols ==> S.apply(g, vals) == S'.apply(g, vals))
    && (forall g, akt, vals :: g !in symbols ==> S.relation(g, akt, vals) == S'.relation(g, akt, vals))
  }

  lemma {:induction false} TermIgnores(t: Term, symbols: set<PFSymbol>, S: Structure, S': Structure, e: Env)
    requires DifferOnlyIn(symbols, S, S') && TermSymbols(t) !! symbols
    ensures TermValue(t, S, e) == TermValue(t, S', e)
    decreases t
  {
    if t.FuncTerm? { ArgsIgnore(t.args, symbols, S, S', e); }
  }

  lemma {:induction false} ArgsIgnore(args: seq<Term>, symbols: set<PFSymbol>, S: Structure, S': Structure, e: Env)
    requires DifferOnlyIn(symbols, S, S') && ArgsSymbols(args) !! symbols
    ensures ArgValues(args, S, e) == ArgValues(args, S', e)
    decreases args
  {
    forall n | 0 <= n < |args| ensures TermValue(args[n], S, e) == TermValue(args[n], S', e) {
      assert forall g :: g in TermSymbols(args[n]) ==> g in ArgsSymbols(args);
      TermIgnores(args[n], symbols, S, S', e);
    }
  }

  lemma {:induction false} KernelIgnores(w: World, k: KernelId, symbols: set<PFSymbol>, S: Structure, S': Structure, e: Env)
    requires w.Nested() && DifferOnlyIn(symbols, S, S') && !Dirty(w, symbols, k)
    ensures w.KernelHolds(k, S, e) == w.KernelHolds(k, S', e)
    decreases k
  {
    if k < |w.kernels| {
      match w.kernels[k]
      case AtomKernel(g, _, args) =>
        forall h | h in symbols ensures h != g && h !in ArgsSymbols(args) { assert !KernelUses(w, k, h); }
        ArgsIgnore(args, symbols, S, S', e);
      case QuantKernel(_, b) =>
        assert w.NestedAt(k);
        forall x ensures w.Holds(w.trees[b], S, e.Push(x)) == w.Holds(w.trees[b], S', e.Push(x)) {
          forall j | j in Kernels(w.trees[b]) ensures w.KernelHolds(j, S, e.Push(x)) == w.KernelHolds(j, S', e.Push(x)) {
            forall h | h in symbols ensures !KernelUses(w, j, h) { assert !KernelUses(w, k, h); }
            KernelIgnores(w, j, symbols, S, S', e.Push(x));
          }
          EvalDependsOnKernels(w.trees[b], w.Value(S, e.Push(x)), w.Value(S', e.Push(x)));
        }
        w.QuantKernelHolds(k, S, e);
        w.QuantKernelHolds(k, S', e);
      case _ =>
    }
  }

  /** A diagram without the symbols has the same value in structures that differ in nothing else, through all nesting. */
  lemma CleanIgnores(w: World, symbols: set<PFSymbol>, d: Tree, S: Structure, S': Structure, e: Env)
    requires w.Nested() && Clean(w, symbols, d) && DifferOnlyIn(symbols, S, S')
    ensures w.Holds(d, S, e) == w.Holds(d, S', e)
  {
    forall j | j in Kernels(d) ensures w.KernelHolds(j, S, e) == w.KernelHolds(j, S', e) { KernelIgnores(w, j, symbols, S, S', e); }
    EvalDependsOnKernels(d, w.Value(S, e), w.Value(S', e));
  }

  // ---------- what uses a symbol depends on it ----------

  function Constants(t: Term): set<DomainElement> {
    match t
    case DomainTerm(_, c) => {c}
    case FuncTerm(_, args) => set n, c | 0 <= n < |args| && c in Constants(args[n]) :: c
    case _ => {}
  }

  lemma {:induction false} FreshElement(cs: set<DomainElement>) returns (n: nat)
    ensures n > 0 && forall m :: m >= n ==> IntElement(m) !in cs
    decreases cs
  {
    n := 1;
    if c :| c in cs {
      n := FreshElement(cs - {c});
      if c.IntElement? && c.i >= n { n := c.i + 1; }
      forall m | m >= n ensures IntElement(m) !in cs { assert IntElement(m) !in cs - {c}; }
    }
  }

  /** Functions pass on element x, and g makes it when it is marked. */
  ghost function Marking(x: DomainElement, g: PFSymbol, marked: bool): Structure {
    Structure(sort => iset{},
              (h: PFSymbol, vals: seq<DomainElement>) => if x in vals || (marked && h == g) then x else SOME_ELEMENT,
              (h: PFSymbol, akt: AtomKernelType, vals: seq<DomainElement>) => x in vals || (marked && h == g))
  }

  lemma {:induction false} MarkedValue(t: Term, x: DomainElement, g: PFSymbol, marked: bool)
    requires x != SOME_ELEMENT && x !in Constants(t)
    ensures TermValue(t, Marking(x, g, marked), Env(map[], [])) == x <==> marked && g in TermSymbols(t)
    decreases t
  {
    if t.FuncTerm? { MarkedArgs(t.args, x, g, marked); }
  }

  lemma {:induction false} MarkedArgs(args: seq<Term>, x: DomainElement, g: PFSymbol, marked: bool)
    requires x != SOME_ELEMENT && forall n :: 0 <= n < |args| ==> x !in Constants(args[n])
    ensures x in ArgValues(args, Marking(x, g, marked), Env(map[], [])) <==> marked && g in ArgsSymbols(args)
    decreases args
  {
    var vals := ArgValues(args, Marking(x, g, marked), Env(map[], []));
    forall n | 0 <= n < |args| ensures vals[n] == x <==> marked && g in TermSymbols(args[n]) {
      MarkedValue(args[n], x, g, marked);
    }
  }

  /** The truth value tells two structures apart that differ in nothing but g. */
  ghost predicate Tells(g: PFSymbol, value: (Structure, Env) -> bool) {
    exists S: Structure, S': Structure, e: Env :: DifferOnlyIn({g}, S, S') && value(S, e) != value(S', e)
  }

  /** An atom of a predicate uses exactly the symbols on which its truth depends. */
  lemma AtomUsesExactly(w: World, k: KernelId, g: PFSymbol)
    requires w.Nested() && k < |w.kernels| && w.kernels[k].AtomKernel?
    requires !w.kernels[k].symbol.EqualityPredicate? && !w.kernels[k].symbol.SortPredicate?
    ensures KernelUses(w, k, g) <==> Tells(g, (S, e) => w.KernelHolds(k, S, e))
  {
    var args, value := w.kernels[k].args, (S, e) => w.KernelHolds(k, S, e);
    if KernelUses(w, k, g) {
      var n := FreshElement(Constants(FuncTerm(g, args)));
      var x := IntElement(n);
      MarkedArgs(args, x, g, true);
      MarkedArgs(args, x, g, false);
      var S, S', e := Marking(x, g, true), Marking(x, g, false), Env(map[], []);
      assert DifferOnlyIn({g}, S, S') && value(S, e) != value(S', e);
    }
    if Tells(g, value) {
      var S: Structure, S': Structure, e: Env :| DifferOnlyIn({g}, S, S') && value(S, e) != value(S', e);
      if !KernelUses(w, k, g) {
        assert !Dirty(w, {g}, k);
        KernelIgnores(w, k, {g}, S, S', e);
      }
    }
  }

  // ---------- abstracting from kernels ----------

  /** The valuations differ on dirty kernels at most. */
  ghost predicate SameClean(w: World, symbols: set<PFSymbol>, u: Valuation, v: Valuation) {
    forall k: KernelId :: !Dirty(w, symbols, k) ==> u(k) == v(k)
  }

  ghost predicate Attains(w: World, symbols: set<PFSymbol>, goal: bool, d: Tree, v: Valuation) {
    exists u: Valuation :: SameClean(w, symbols, u, v) && Eval(d, u) == goal
  }

  /** None of the symbols occurs. */
  ghost predicate Clean(w: World, symbols: set<PFSymbol>, d: Tree) {
    forall k :: k in Kernels(d) ==> !Dirty(w, symbols, k)
  }

  /** Diagram r has the goal value exactly where some values of the dirty kernels give d that value. */
  ghost predicate Abstracts(w: World, symbols: set<PFSymbol>, goal: bool, d: Tree, r: Tree) {
    && Kernels(r) <= Kernels(d) && Clean(w, symbols, r)
    && forall v: Valuation :: Eval(r, v) == goal <==> Attains(w, symbols, goal, d, v)
  }

  /** What also holds of a diagram that is out of order: the result is without the symbols,
      and has the goal value wherever the diagram has it. */
  ghost predicate Relaxes(w: World, symbols: set<PFSymbol>, goal: bool, d: Tree, r: Tree) {
    && Kernels(r) <= Kernels(d) && Clean(w, symbols, r)
    && forall v: Valuation :: Eval(d, v) == goal ==> Eval(r, v) == goal
  }

  /** The symbols are removed; nothing changes where there are none, and an ordered diagram
      gives the tightest diagram without them. */
  ghost predicate Removes(w: World, order: Orders, symbols: set<PFSymbol>, goal: bool, d: Tree, r: Tree) {
    && Relaxes(w, symbols, goal, d, r)
    && (Clean(w, symbols, d) ==> r == d)
    && (Ordered(order, d) ==> Ordered(order, r) && Abstracts(w, symbols, goal, d, r))
  }

  lemma AbstractsLeaf(w: World, symbols: set<PFSymbol>, goal: bool, b: bool)
    ensures Abstracts(w, symbols, goal, Leaf(b), Leaf(b))
  {
    forall v: Valuation ensures Eval(Leaf(b), v) == goal <==> Attains(w, symbols, goal, Leaf(b), v) {
      assert SameClean(w, symbols, v, v);
    }
  }

  /** A dirty root: its branches are merged, which loses exactly its value. */
  lemma AbstractsMerged(w: World, symbols: set<PFSymbol>, goal: bool, k: KernelId, t: Tree, f: Tree, m: Tree, r: Tree)
    requires Dirty(w, symbols, k) && k !in Kernels(t) && k !in Kernels(f)
    requires IsConnective(if goal then DISJUNCTION else CONJUNCTION, m, t, f) && Abstracts(w, symbols, goal, m, r)
    ensures Abstracts(w, symbols, goal, Branch(k, t, f), r)
  {
    var d := Branch(k, t, f);
    forall v: Valuation ensures Eval(r, v) == goal <==> Attains(w, symbols, goal, d, v) {
      forall u: Valuation ensures Eval(m, u) == goal <==> Eval(t, u) == goal || Eval(f, u) == goal {}
      if Attains(w, symbols, goal, m, v) {
        var u: Valuation :| SameClean(w, symbols, u, v) && Eval(m, u) == goal;
        SetDirty(w, symbols, goal, k, t, f, u, v);
      }
      if Attains(w, symbols, goal, d, v) {
        var u: Valuation :| SameClean(w, symbols, u, v) && Eval(d, u) == goal;
        assert Eval(m, u) == goal;
      }
    }
  }

  /** A dirty root may be set to choose either branch. */
  lemma SetDirty(w: World, symbols: set<PFSymbol>, goal: bool, k: KernelId, t: Tree, f: Tree, u: Valuation, v: Valuation)
    requires Dirty(w, symbols, k) && k !in Kernels(t) && k !in Kernels(f)
    requires SameClean(w, symbols, u, v) && (Eval(t, u) == goal || Eval(f, u) == goal)
    ensures Attains(w, symbols, goal, Branch(k, t, f), v)
  {
    var side := Eval(t, u) == goal;
    AssignElsewhere(if side then t else f, u, k, side);
    assert SameClean(w, symbols, Assign(u, k, side), v) && Eval(Branch(k, t, f), Assign(u, k, side)) == goal;
  }

  /** A clean root stays. */
  lemma AbstractsBranch(w: World, symbols: set<PFSymbol>, goal: bool, k: KernelId, t: Tree, f: Tree, nt: Tree, nf: Tree)
    requires k >= 2 && !Dirty(w, symbols, k) && Abstracts(w, symbols, goal, t, nt) && Abstracts(w, symbols, goal, f, nf)
    ensures Abstracts(w, symbols, goal, Branch(k, t, f), Make(k, nt, nf))
  {
    var d, r := Branch(k, t, f), Make(k, nt, nf);
    forall v: Valuation ensures Eval(r, v) == goal <==> Attains(w, symbols, goal, d, v) {
      var b, nb := if v(k) then t else f, if v(k) then nt else nf;
      assert Eval(r, v) == Eval(nb, v);
      assert forall u: Valuation :: SameClean(w, symbols, u, v) ==> u(k) == v(k);
      assert forall u: Valuation :: SameClean(w, symbols, u, v) ==> Eval(d, u) == Eval(b, u);
      assert Eval(nb, v) == goal <==> Attains(w, symbols, goal, b, v);
    }
  }

  lemma AbstractsLater(w: World, w': World, symbols: set<PFSymbol>, goal: bool, d: Tree, r: Tree)
    requires w.kernels == w'.kernels && w.trees <= w'.trees && w.Nested() && w'.Nested() && Within(d, |w.kernels|)
    requires Abstracts(w, symbols, goal, d, r)
    ensures Abstracts(w', symbols, goal, d, r)
  {
    PrefixKeeps(w, w');
    forall k ensures Dirty(w', symbols, k) <==> Dirty(w, symbols, k) {
      forall g ensures KernelUses(w', k, g) <==> KernelUses(w, k, g) { KernelUsesKept(w, w', k, g); }
    }
    forall v: Valuation ensures Attains(w', symbols, goal, d, v) <==> Attains(w, symbols, goal, d, v) {
      forall u: Valuation ensures SameClean(w', symbols, u, v) <==> SameClean(w, symbols, u, v) {}
    }
  }

  lemma {:induction false} KernelUsesKept(w: World, w': World, k: KernelId, g: PFSymbol)
    requires w.kernels == w'.kernels && Keeps(w, w') && w.Nested() && w'.Nested()
    ensures KernelUses(w', k, g) <==> KernelUses(w, k, g)
    decreases k
  {
    if k < |w.kernels| && w.kernels[k].QuantKernel? {
      assert w.NestedAt(k);
      forall j: KernelId | j < k ensures KernelUses(w', j, g) <==> KernelUses(w, j, g) { KernelUsesKept(w, w', j, g); }
    }
  }

  /** An abstraction is implied by the diagram when the goal is true, and implies it when the goal is false. */
  lemma AbstractionIsSound(w: World, symbols: set<PFSymbol>, goal: bool, d: Tree, r: Tree, v: Valuation)
    requires Abstracts(w, symbols, goal, d, r)
    ensures Eval(d, v) == goal ==> Eval(r, v) == goal
    ensures forall g :: g in symbols ==> !TreeUses(w, |w.kernels|, r, g)
  {
    assert SameClean(w, symbols, v, v);
    forall g | g in symbols ensures !TreeUses(w, |w.kernels|, r, g) {
      forall k | k in Kernels(r) ensures !KernelUses(w, k, g) { assert !Dirty(w, symbols, k); }
    }
  }

  /** No diagram without the symbols lies between. */
  lemma AbstractionIsTightest(w: World, symbols: set<PFSymbol>, goal: bool, d: Tree, r: Tree, other: Tree, v: Valuation)
    requires Abstracts(w, symbols, goal, d, r)
    requires Clean(w, symbols, other)
    requires forall u: Valuation :: Eval(d, u) == goal ==> Eval(other, u) == goal
    ensures Eval(r, v) == goal ==> Eval(other, v) == goal
  {
    if Eval(r, v) == goal {
      var u: Valuation :| SameClean(w, symbols, u, v) && Eval(d, u) == goal;
      EvalDependsOnKernels(other, u, v);
    }
  }

  // ---------- leaving out what costs too much ----------

  /** Diagram r is d with more valuations of the goal value, and unless it is d itself it is smaller. */
  ghost predicate Weakens(goal: bool, d: Tree, r: Tree) {
    && Kernels(r) <= Kernels(d)
    && (r == d || Size(r) < Size(d))
    && forall v: Valuation :: Eval(d, v) == goal ==> Eval(r, v) == goal
  }

  lemma WeakensTransitive(goal: bool, d: Tree, d1: Tree, d2: Tree)
    requires Weakens(goal, d, d1) && Weakens(goal, d1, d2)
    ensures Weakens(goal, d, d2)
  {
  }

  /** The other branch never has the goal value. */
  lemma BranchWeakens(goal: bool, k: KernelId, t: Tree, f: Tree)
    ensures f == Leaf(!goal) ==> Weakens(goal, Branch(k, t, f), t)
    ensures t == Leaf(!goal) ==> Weakens(goal, Branch(k, t, f), f)
  {
  }

  lemma BranchesWeaken(goal: bool, k: KernelId, t: Tree, f: Tree, nt: Tree, nf: Tree)
    requires k >= 2 && t != f && Weakens(goal, t, nt) && Weakens(goal, f, nf)
    ensures Weakens(goal, Branch(k, t, f), Make(k, nt, nf))
    ensures nt != t || nf != f ==> Size(Make(k, nt, nf)) < Size(Branch(k, t, f))
  {
    forall v: Valuation | Eval(Branch(k, t, f), v) == goal ensures Eval(Make(k, nt, nf), v) == goal {
      assert Eval(if v(k) then t else f, v) == goal;
    }
  }

  /** What costs are reckoned by; the scope is the variables and indices still to be filled in. */
  datatype CostModel<!Scope> = CostModel(
    totalCost: (seq<FOBDD>, KernelTable, NodeId, Scope, real) -> real,
    branchScope: (seq<FOBDD>, KernelTable, KernelId, Scope) -> Scope,
    trueWeight: (seq<FOBDD>, KernelTable, KernelId, real) -> real,
    falseWeight: (seq<FOBDD>, KernelTable, KernelId, real) -> real)

  /** A step can be made at the root: one branch never has the goal value, and the other costs strictly less. */
  ghost predicate StepAvailable<Scope>(s: State, goal: bool, model: CostModel<Scope>, b: NodeId, scope: Scope, weight: real)
    requires 2 <= b < |s.graph.nodes|
  {
    var nogoal := if goal then FALSEBDD else TRUEBDD;
    var x, nodes, table := s.graph.nodes[b], s.graph.nodes, s.table;
    || (x.falsebranch == nogoal && model.totalCost(nodes, table, x.truebranch, scope, weight) < model.totalCost(nodes, table, b, scope, weight))
    || (x.truebranch == nogoal && model.totalCost(nodes, table, x.falsebranch, scope, weight) < model.totalCost(nodes, table, b, scope, weight))
  }

  /** No step can be made anywhere in the diagram, with the scopes and weights that the model hands down. */
  ghost predicate Settled<Scope>(s: State, goal: bool, model: CostModel<Scope>, b: NodeId, scope: Scope, weight: real)
    requires s.graph.Unfolds() && b < |s.graph.nodes|
    decreases s.graph.trees[b]
  {
    b < 2 || (
      assert s.graph.UnfoldsAt(b);
      var x, nodes, table := s.graph.nodes[b], s.graph.nodes, s.table;
      var branchscope := model.branchScope(nodes, table, x.kernel, scope);
      && !StepAvailable(s, goal, model, b, scope, weight)
      && Settled(s, goal, model, x.truebranch, branchscope, model.trueWeight(nodes, table, x.kernel, weight))
      && Settled(s, goal, model, x.falsebranch, branchscope, model.falseWeight(nodes, table, x.kernel, weight)))
  }

  /** Costs as they depend on diagrams. */
  datatype TreeCosts<!Scope> = TreeCosts(
    totalCost: (Tree, Scope, real) -> real,
    branchScope: (KernelId, Scope) -> Scope,
    trueWeight: (KernelId, real) -> real,
    falseWeight: (KernelId, real) -> real)

  ghost predicate ReckonsAt<Scope(!new)>(s: State, model: CostModel<Scope>, costs: TreeCosts<Scope>)
    requires s.Ok()
  {
    var nodes, table := s.graph.nodes, s.table;
    && (forall n, scope, weight :: 0 <= n < |s.graph.trees| ==>
          model.totalCost(nodes, table, n, scope, weight) == costs.totalCost(s.graph.trees[n], scope, weight))
    && (forall k, scope :: model.branchScope(nodes, table, k, scope) == costs.branchScope(k, scope))
    && (forall k, weight :: model.trueWeight(nodes, table, k, weight) == costs.trueWeight(k, weight))
    && (forall k, weight :: model.falseWeight(nodes, table, k, weight) == costs.falseWeight(k, weight))
  }

  /** However many nodes are added, the model sees nothing but the diagrams. */
  ghost predicate Reckons<Scope(!new)>(s: State, model: CostModel<Scope>, costs: TreeCosts<Scope>) {
    forall s': State :: Extends(s, s') ==> ReckonsAt(s', model, costs)
  }

  lemma ReckonsLater<Scope(!new)>(s: State, s': State, model: CostModel<Scope>, costs: TreeCosts<Scope>)
    requires Reckons(s, model, costs) && Extends(s, s')
    ensures Reckons(s', model, costs)
  {
    forall s'': State | Extends(s', s'') ensures ReckonsAt(s'', model, costs) { ExtendsTransitive(s, s', s''); }
  }

  /** On the way from d to r each root that is left out had a branch that never has the goal value, and was left for
      its other branch, which costs strictly less. */
  ghost predicate GivesUp<Scope>(costs: TreeCosts<Scope>, goal: bool, d: Tree, r: Tree, scope: Scope, weight: real)
    decreases Size(d)
  {
    || r == d
    || (d.Branch? && d.falsebranch == Leaf(!goal) && costs.totalCost(d.truebranch, scope, weight) < costs.totalCost(d, scope, weight)
        && GivesUp(costs, goal, d.truebranch, r, scope, weight))
    || (d.Branch? && d.truebranch == Leaf(!goal) && costs.totalCost(d.falsebranch, scope, weight) < costs.totalCost(d, scope, weight)
        && GivesUp(costs, goal, d.falsebranch, r, scope, weight))
    || (d.Branch? && exists t, f ::
          && GivesUp(costs, goal, d.truebranch, t, costs.branchScope(d.kernel, scope), costs.trueWeight(d.kernel, weight))
          && GivesUp(costs, goal, d.falsebranch, f, costs.branchScope(d.kernel, scope), costs.falseWeight(d.kernel, weight))
          && Size(Make(d.kernel, t, f)) < Size(d) && GivesUp(costs, goal, Make(d.kernel, t, f), r, scope, weight))
  }

  // ---------- steps of the manager ----------

  /** What is put below a kernel in place of its branches lies below it. */
  lemma BranchesPrecede(s: State, b: NodeId, nt: NodeId, nf: NodeId)
    requires s.Ok() && 2 <= b < |s.graph.nodes| && nt < |s.graph.nodes| && nf < |s.graph.nodes|
    requires s.graph.nodes[b].truebranch < |s.graph.nodes| && s.graph.nodes[b].falsebranch < |s.graph.nodes|
    requires Kernels(s.graph.trees[nt]) <= Kernels(s.graph.trees[s.graph.nodes[b].truebranch])
    requires Kernels(s.graph.trees[nf]) <= Kernels(s.graph.trees[s.graph.nodes[b].falsebranch])
    ensures s.Sorted() || Ordered(s.table.orders, s.graph.trees[b]) ==> s.Precedes(s.graph.nodes[b].kernel, nt, nf)
  {
    InnerNode(s, b);
    var x := s.graph.nodes[b];
    if s.Sorted() { TreesOrdered(s.graph, s.table.orders, b); }
    if Ordered(s.table.orders, s.graph.trees[b]) {
      KernelsBelow(s.table.orders, x.kernel, s.graph.trees[x.truebranch]);
      KernelsBelow(s.table.orders, x.kernel, s.graph.trees[x.falsebranch]);
      AboveTree(s.table.orders, x.kernel, s.graph.trees[nt], Kernels(s.graph.trees[x.truebranch]));
      AboveTree(s.table.orders, x.kernel, s.graph.trees[nf], Kernels(s.graph.trees[x.falsebranch]));
    }
  }

  /** How many of the first n kernels come after kernel k. */
  ghost function CountAfter(order: Orders, k: KernelId, n: nat): (r: nat)
    requires k < |order| && n <= |order|
    ensures r <= n
  {
    if n == 0 then 0
    else CountAfter(order, k, n - 1) + if order[k].Before(order[n - 1]) then 1 else 0
  }

  lemma {:induction false} LaterKernel(order: Orders, k: KernelId, j: KernelId, n: nat)
    requires k < |order| && j < |order| && n <= |order| && order[k].Before(order[j])
    ensures CountAfter(order, j, n) <= CountAfter(order, k, n)
    ensures j < n ==> CountAfter(order, j, n) < CountAfter(order, k, n)
  {
    if n > 0 {
      LaterKernel(order, k, j, n - 1);
      BeforeIsStrictTotalOrder(order[k], order[j], order[n - 1]);
    }
  }

  /** An ordered diagram with enough fuel: more than there are kernels after the root. */
  ghost predicate Enough(order: Orders, d: Tree, fuel: nat) {
    Ordered(order, d) && (d.Branch? ==> d.kernel < |order| && CountAfter(order, d.kernel, |order|) < fuel)
  }

  lemma NeedsLess(order: Orders, d: Tree, r: Tree, fuel: nat)
    requires Enough(order, d, fuel) && Ordered(order, r) && fuel > 0
    requires d.Branch? && (r.Branch? ==> r.kernel < |order| && order[d.kernel].Before(order[r.kernel]))
    ensures Enough(order, r, fuel - 1)
  {
    if r.Branch? { LaterKernel(order, d.kernel, r.kernel, |order|); }
  }

  /** Whatever is ordered and mentions only kernels from below the root of b needs less fuel. */
  lemma LessFuel(s: State, b: NodeId, m: NodeId, fuel: nat)
    requires s.Ok() && 2 <= b < |s.graph.nodes| && m < |s.graph.nodes| && fuel > 0
    requires s.graph.nodes[b].truebranch < |s.graph.nodes| && s.graph.nodes[b].falsebranch < |s.graph.nodes|
    requires Kernels(s.graph.trees[m]) <= Kernels(s.graph.trees[s.graph.nodes[b].truebranch]) + Kernels(s.graph.trees[s.graph.nodes[b].falsebranch])
    requires Enough(s.table.orders, s.graph.trees[b], fuel) && Ordered(s.table.orders, s.graph.trees[m])
    ensures Enough(s.table.orders, s.graph.trees[m], fuel - 1)
  {
    InnerNode(s, b);
    RootCofactors(s, b);
    if m >= 2 {
      InnerNode(s, m);
      assert s.graph.nodes[m].kernel in Kernels(s.graph.trees[m]);
      NeedsLess(s.table.orders, s.graph.trees[b], s.graph.trees[m], fuel);
    }
  }

  lemma BranchesLessFuel(s: State, b: NodeId, fuel: nat)
    requires s.Ok() && 2 <= b < |s.graph.nodes| && fuel > 0
    requires s.graph.nodes[b].truebranch < |s.graph.nodes| && s.graph.nodes[b].falsebranch < |s.graph.nodes|
    requires Enough(s.table.orders, s.graph.trees[b], fuel)
    ensures Enough(s.table.orders, s.graph.trees[s.graph.nodes[b].truebranch], fuel - 1)
    ensures Enough(s.table.orders, s.graph.trees[s.graph.nodes[b].falsebranch], fuel - 1)
  {
    InnerNode(s, b);
    LessFuel(s, b, s.graph.nodes[b].truebranch, fuel);
    LessFuel(s, b, s.graph.nodes[b].falsebranch, fuel);
  }

  lemma AbstractsGrows(s: State, s': State, symbols: set<PFSymbol>, goal: bool, b: NodeId, r: NodeId)
    requires s.Ok() && Extends(s, s') && b < |s.graph.trees| && r < |s.graph.trees|
    requires Abstracts(s.World(), symbols, goal, s.graph.trees[b], s.graph.trees[r])
    ensures Abstracts(s'.World(), symbols, goal, s.graph.trees[b], s.graph.trees[r])
  {
    TreeWithin(s, b);
    AbstractsLater(s.World(), s'.World(), symbols, goal, s.graph.trees[b], s.graph.trees[r]);
  }

  lemma DirtyLater(s: State, s': State, symbols: set<PFSymbol>, k: KernelId)
    requires s.Ok() && Extends(s, s')
    ensures Dirty(s'.World(), symbols, k) <==> Dirty(s.World(), symbols, k)
  {
    PrefixKeeps(s.World(), s'.World());
    forall g ensures KernelUses(s'.World(), k, g) <==> KernelUses(s.World(), k, g) { KernelUsesKept(s.World(), s'.World(), k, g); }
  }

  lemma MergedRemoves(s: State, s1: State, s2: State, symbols: set<PFSymbol>, goal: bool, b: NodeId, m: NodeId, r: NodeId)
    requires s.Ok() && 2 <= b < |s.graph.nodes| && Extends(s, s1) && Extends(s1, s2)
    requires Dirty(s.World(), symbols, s.graph.nodes[b].kernel)
    requires s.graph.nodes[b].truebranch < |s.graph.trees| && s.graph.nodes[b].falsebranch < |s.graph.trees|
    requires m < |s1.graph.trees| && r < |s2.graph.trees|
    requires IsConnective(if goal then DISJUNCTION else CONJUNCTION, s1.graph.trees[m],
                          s.graph.trees[s.graph.nodes[b].truebranch], s.graph.trees[s.graph.nodes[b].falsebranch])
    requires Ordered(s.table.orders, s.graph.trees[b]) ==> Ordered(s.table.orders, s1.graph.trees[m])
    requires Removes(s2.World(), s.table.orders, symbols, goal, s1.graph.trees[m], s2.graph.trees[r])
    ensures Extends(s, s2) && Removes(s2.World(), s.table.orders, symbols, goal, s.graph.trees[b], s2.graph.trees[r])
  {
    ExtendsTransitive(s, s1, s2);
    InnerNode(s, b);
    var x := s.graph.nodes[b];
    var t, f, m := s.graph.trees[x.truebranch], s.graph.trees[x.falsebranch], s1.graph.trees[m];
    DirtyLater(s, s2, symbols, x.kernel);
    RelaxesMerged(s2.World(), symbols, goal, x.kernel, t, f, m, s2.graph.trees[r]);
    if Ordered(s.table.orders, s.graph.trees[b]) {
      KernelsBelow(s.table.orders, x.kernel, t);
      KernelsBelow(s.table.orders, x.kernel, f);
      AbstractsMerged(s2.World(), symbols, goal, x.kernel, t, f, m, s2.graph.trees[r]);
    }
  }

  lemma RelaxesMerged(w: World, symbols: set<PFSymbol>, goal: bool, k: KernelId, t: Tree, f: Tree, m: Tree, r: Tree)
    requires IsConnective(if goal then DISJUNCTION else CONJUNCTION, m, t, f) && Relaxes(w, symbols, goal, m, r)
    ensures Relaxes(w, symbols, goal, Branch(k, t, f), r)
  {
    forall v: Valuation | Eval(Branch(k, t, f), v) == goal ensures Eval(r, v) == goal { assert Eval(m, v) == goal; }
  }

  lemma BranchesRemove(s: State, s1: State, s2: State, s3: State, symbols: set<PFSymbol>, goal: bool,
                       b: NodeId, nt: NodeId, nf: NodeId, r: NodeId)
    requires s.Ok() && 2 <= b < |s.graph.nodes| && Extends(s, s1) && Extends(s1, s2) && Extends(s2, s3)
    requires !Dirty(s.World(), symbols, s.graph.nodes[b].kernel)
    requires s.graph.nodes[b].truebranch < |s.graph.trees| && s.graph.nodes[b].falsebranch < |s.graph.trees|
    requires nt < |s1.graph.trees| && nf < |s2.graph.trees| && r < |s3.graph.trees|
    requires Removes(s1.World(), s.table.orders, symbols, goal, s.graph.trees[s.graph.nodes[b].truebranch], s1.graph.trees[nt])
    requires Removes(s2.World(), s.table.orders, symbols, goal, s.graph.trees[s.graph.nodes[b].falsebranch], s2.graph.trees[nf])
    requires s3.graph.trees[r] == Make(s.graph.nodes[b].kernel, s2.graph.trees[nt], s2.graph.trees[nf])
    ensures Extends(s, s3) && Removes(s3.World(), s.table.orders, symbols, goal, s.graph.trees[b], s3.graph.trees[r])
  {
    ExtendsTransitive(s, s1, s2);
    ExtendsTransitive(s1, s2, s3);
    ExtendsTransitive(s, s2, s3);
    InnerNode(s, b);
    var x := s.graph.nodes[b];
    var t, f, nt1, nf1 := s.graph.trees[x.truebranch], s.graph.trees[x.falsebranch], s3.graph.trees[nt], s3.graph.trees[nf];
    DirtyLater(s, s3, symbols, x.kernel);
    RelaxesGrows(s1, s3, symbols, goal, t, nt1);
    RelaxesGrows(s2, s3, symbols, goal, f, nf1);
    RelaxesBranch(s3.World(), symbols, goal, x.kernel, t, f, nt1, nf1);
    if Clean(s3.World(), symbols, s.graph.trees[b]) {
      CleanGrows(s1, s3, symbols, t);
      CleanGrows(s2, s3, symbols, f);
      assert s.graph.UnfoldsAt(b);
      TreesInjective(s.graph, s.unique, x.truebranch, x.falsebranch);
    }
    if Ordered(s.table.orders, s.graph.trees[b]) {
      AbstractsGrows(s1, s3, symbols, goal, x.truebranch, nt);
      AbstractsGrows(s2, s3, symbols, goal, x.falsebranch, nf);
      AbstractsBranch(s3.World(), symbols, goal, x.kernel, t, f, nt1, nf1);
      BranchesPrecede(s3, b, nt, nf);
    }
  }

  lemma RelaxesBranch(w: World, symbols: set<PFSymbol>, goal: bool, k: KernelId, t: Tree, f: Tree, nt: Tree, nf: Tree)
    requires k >= 2 && !Dirty(w, symbols, k) && Relaxes(w, symbols, goal, t, nt) && Relaxes(w, symbols, goal, f, nf)
    ensures Relaxes(w, symbols, goal, Branch(k, t, f), Make(k, nt, nf))
  {
  }

  lemma RelaxesGrows(s: State, s': State, symbols: set<PFSymbol>, goal: bool, d: Tree, r: Tree)
    requires s.Ok() && Extends(s, s') && Relaxes(s.World(), symbols, goal, d, r)
    ensures Relaxes(s'.World(), symbols, goal, d, r)
  {
    CleanGrows(s, s', symbols, r);
  }

  lemma CleanGrows(s: State, s': State, symbols: set<PFSymbol>, d: Tree)
    requires s.Ok() && Extends(s, s')
    ensures Clean(s'.World(), symbols, d) <==> Clean(s.World(), symbols, d)
  {
    forall k ensures Dirty(s'.World(), symbols, k) <==> Dirty(s.World(), symbols, k) { DirtyLater(s, s', symbols, k); }
  }

  /** Removing symbols that do not occur changes nothing: the result is the same node. */
  lemma CleanStays(s: State, symbols: set<PFSymbol>, goal: bool, b: NodeId, r: NodeId)
    requires s.Ok() && b < |s.graph.trees| && r < |s.graph.trees|
    requires Removes(s.World(), s.table.orders, symbols, goal, s.graph.trees[b], s.graph.trees[r])
    requires forall g :: g in symbols ==> !TreeUses(s.World(), |s.table.kernels|, s.graph.trees[b], g)
    ensures r == b
  {
    TreeWithin(s, b);
    TreesInjective(s.graph, s.unique, b, r);
  }

  lemma ReducedWeakens(s: State, goal: bool, b: NodeId, nt: NodeId, nf: NodeId, r: NodeId)
    requires s.Ok() && 2 <= b < |s.graph.nodes| && nt < |s.graph.nodes| && nf < |s.graph.nodes| && r < |s.graph.nodes|
    requires s.graph.nodes[b].truebranch < |s.graph.nodes| && s.graph.nodes[b].falsebranch < |s.graph.nodes|
    requires nt != s.graph.nodes[b].truebranch || nf != s.graph.nodes[b].falsebranch
    requires Weakens(goal, s.graph.trees[s.graph.nodes[b].truebranch], s.graph.trees[nt])
    requires Weakens(goal, s.graph.trees[s.graph.nodes[b].falsebranch], s.graph.trees[nf])
    requires s.graph.trees[r] == Make(s.graph.nodes[b].kernel, s.graph.trees[nt], s.graph.trees[nf])
    ensures Weakens(goal, s.graph.trees[b], s.graph.trees[r]) && Size(s.graph.trees[r]) < Size(s.graph.trees[b])
  {
    InnerNode(s, b);
    var x := s.graph.nodes[b];
    assert s.graph.UnfoldsAt(b);
    TreesInjective(s.graph, s.unique, x.truebranch, x.falsebranch);
    TreesInjective(s.graph, s.unique, x.truebranch, nt);
    TreesInjective(s.graph, s.unique, x.falsebranch, nf);
    BranchesWeaken(goal, x.kernel, s.graph.trees[x.truebranch], s.graph.trees[x.falsebranch], s.graph.trees[nt], s.graph.trees[nf]);
  }

  lemma NothingGivenUp<Scope(!new)>(goal: bool, d: Tree, scope: Scope, weight: real)
    ensures Weakens(goal, d, d) && forall costs: TreeCosts<Scope> :: GivesUp(costs, goal, d, d, scope, weight)
  {
  }

  /** The root is left for the cheaper branch, and then more. */
  lemma RootGivenUp<Scope(!new)>(s: State, goal: bool, model: CostModel<Scope>, costs: TreeCosts<Scope>, b: NodeId, branch: NodeId, r: Tree,
                                 scope: Scope, weight: real)
    requires s.Ok() && 2 <= b < |s.graph.nodes| && branch < |s.graph.nodes| && Reckons(s, model, costs)
    requires branch == s.graph.nodes[b].truebranch || branch == s.graph.nodes[b].falsebranch
    requires (if branch == s.graph.nodes[b].truebranch then s.graph.nodes[b].falsebranch else s.graph.nodes[b].truebranch) ==
      if goal then FALSEBDD else TRUEBDD
    requires model.totalCost(s.graph.nodes, s.table, branch, scope, weight) < model.totalCost(s.graph.nodes, s.table, b, scope, weight)
    requires GivesUp(costs, goal, s.graph.trees[branch], r, scope, weight)
    ensures GivesUp(costs, goal, s.graph.trees[b], r, scope, weight)
  {
    InnerNode(s, b);
    assert Extends(s, s) && ReckonsAt(s, model, costs);
  }

  /** A branch that weakens the root is smaller, and so is what weakens it. */
  lemma BelowWeakens(s: State, goal: bool, b: NodeId, branch: NodeId, r: Tree)
    requires s.Ok() && 2 <= b < |s.graph.nodes| && branch < |s.graph.nodes|
    requires branch == s.graph.nodes[b].truebranch || branch == s.graph.nodes[b].falsebranch
    requires (if branch == s.graph.nodes[b].truebranch then s.graph.nodes[b].falsebranch else s.graph.nodes[b].truebranch) ==
      if goal then FALSEBDD else TRUEBDD
    requires Weakens(goal, s.graph.trees[branch], r)
    ensures Weakens(goal, s.graph.trees[b], r) && Size(r) < Size(s.graph.trees[b]) && Size(s.graph.trees[branch]) < Size(s.graph.trees[b])
    ensures Ordered(s.table.orders, s.graph.trees[b]) ==> Ordered(s.table.orders, s.graph.trees[branch])
  {
    InnerNode(s, b);
    BranchWeakens(goal, s.graph.nodes[b].kernel, s.graph.trees[s.graph.nodes[b].truebranch], s.graph.trees[s.graph.nodes[b].falsebranch]);
  }

  /** The root over branches for which something was given up, in states s1 and s2, and then more in state s3. */
  lemma GivenUp<Scope(!new)>(s: State, s1: State, s2: State, s3: State, goal: bool, model: CostModel<Scope>, costs: TreeCosts<Scope>,
                             b: NodeId, nt: NodeId, nf: NodeId, r: NodeId, scope: Scope, weight: real)
    requires s.Ok() && 2 <= b < |s.graph.nodes| && Extends(s, s1) && Extends(s1, s2) && Extends(s2, s3)
    requires s.graph.nodes[b].truebranch < |s.graph.trees| && s.graph.nodes[b].falsebranch < |s.graph.trees|
    requires nt < |s1.graph.trees| && nf < |s2.graph.trees| && r < |s3.graph.trees| && Reckons(s, model, costs)
    requires var x, nodes, table := s.graph.nodes[b], s.graph.nodes, s.table;
      && (Reckons(s, model, costs) ==>
          GivesUp(costs, goal, s.graph.trees[x.truebranch], s1.graph.trees[nt], model.branchScope(nodes, table, x.kernel, scope), model.trueWeight(nodes, table, x.kernel, weight)))
      && (Reckons(s1, model, costs) ==>
          GivesUp(costs, goal, s.graph.trees[x.falsebranch], s2.graph.trees[nf], model.branchScope(nodes, table, x.kernel, scope),
                  model.falseWeight(s1.graph.nodes, table, x.kernel, weight)))
      && (Reckons(s2, model, costs) ==>
          GivesUp(costs, goal, Make(x.kernel, s2.graph.trees[nt], s2.graph.trees[nf]), s3.graph.trees[r], scope, weight))
      && Size(Make(x.kernel, s2.graph.trees[nt], s2.graph.trees[nf])) < Size(s.graph.trees[b])
    ensures GivesUp(costs, goal, s.graph.trees[b], s3.graph.trees[r], scope, weight)
  {
    ExtendsTransitive(s, s1, s2);
    ReckonsLater(s, s1, model, costs);
    ReckonsLater(s, s2, model, costs);
    assert Extends(s, s) && ReckonsAt(s, model, costs) && ReckonsAt(s1, model, costs);
    InnerNode(s, b);
  }
}
