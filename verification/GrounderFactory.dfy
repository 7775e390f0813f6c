/** From a formula to a generator of its answers: compile, leave out what costs too much, generate. */
module GrounderFactory {
  import opened Diagrams
  import opened Syntax
  import opened Semantics
  import opened Store
  import opened ManagerState
  import opened Operations
  import opened Quantification
  import opened WellSorted
  import opened Formulas
  import opened Sifting
  import opened Approximations
  import opened Copying
  import opened Wrappers
  import opened FoBddManager
  import opened FoBddFactory
  import opened NodeGenerators
  import G = Generators
  import Factory = BDDBasedGeneratorFactory

  const COST_PER_ANSWER := 1.0

  lemma RelaxesWeakens(w: World, symbols: set<PFSymbol>, goal: bool, d: Tree, t: Tree, r: Tree)
    requires Relaxes(w, symbols, goal, d, t) && Weakens(goal, t, r)
    ensures Relaxes(w, symbols, goal, d, r)
  {
  }

  /** Removes the symbols, and then what costs more than the weight allows. */
  method Simplify<Scope(!new)>(manager: FOBDDManager, goal: bool, bdd: NodeId, symbols: set<PFSymbol>, fuel: nat,
                         scope: Scope, weight: real, model: CostModel<Scope>) returns (r: Option<NodeId>)
    requires manager.Valid() && bdd < |manager.nodes|
    modifies manager`nodes, manager`bddtable, manager`trees, manager`memo
    ensures manager.Valid() && Extends(old(manager.Snap()), manager.Snap())
    ensures manager.Snap().Sorted() <==> old(manager.Snap()).Sorted()
    ensures r.Some? ==> r.value < |manager.nodes| && Relaxes(manager.Snap().World(), symbols, goal, manager.trees[bdd], manager.trees[r.value])
    ensures Ordered(manager.table.orders, manager.trees[bdd]) && fuel > |manager.table.kernels| ==>
      r.Some? && Ordered(manager.table.orders, manager.trees[r.value])
    ensures r.Some? ==> Settled(manager.Snap(), goal, model, r.value, scope, weight)
  {
    ghost var s := manager.Snap();
    var without := manager.MakeMoreWithin(goal, bdd, symbols, fuel);
    if Ordered(s.table.orders, s.graph.trees[bdd]) && fuel > |s.table.kernels| { KernelsEnough(s, bdd, fuel); }
    if without == None {
      return None;
    }
    ghost var s1 := manager.Snap();
    var result := manager.MakeMore(goal, without.value, scope, weight, model);
    ExtendsTransitive(s, s1, manager.Snap());
    RelaxesGrows(s1, manager.Snap(), symbols, goal, s.graph.trees[bdd], s1.graph.trees[without.value]);
    RelaxesWeakens(manager.Snap().World(), symbols, goal, s.graph.trees[bdd], manager.trees[without.value], manager.trees[result]);
    r := Some(result);
  }

  lemma KernelsEnough(s: State, b: NodeId, fuel: nat)
    requires s.Ok() && b < |s.graph.trees| && Ordered(s.table.orders, s.graph.trees[b]) && fuel > |s.table.kernels|
    ensures Enough(s.table.orders, s.graph.trees[b], fuel)
  {
    TreeWithin(s, b);
    assert s.graph.trees[b].Branch? ==> s.graph.trees[b].kernel in Kernels(s.graph.trees[b]);
  }

  /** Diagram r of world w' is without the symbols, and has the goal value wherever diagram d of world w has it. */
  ghost predicate Improves(w: World, w': World, symbols: set<PFSymbol>, goal: bool, d: Tree, r: Tree) {
    && Clean(w', symbols, r) && (DiagramSorted(w, d) ==> DiagramSorted(w', r))
    && forall S: Structure, e: Env :: w.Holds(d, S, e) == goal ==> w'.Holds(r, S, e) == goal
  }

  lemma RelaxesImproves(w: World, symbols: set<PFSymbol>, goal: bool, d: Tree, r: Tree)
    requires Relaxes(w, symbols, goal, d, r)
    ensures Improves(w, w, symbols, goal, d, r)
  {
  }

  lemma ImprovesTransitive(w: World, w1: World, w2: World, symbols: set<PFSymbol>, goal: bool, d: Tree, t: Tree, r: Tree)
    requires Improves(w, w1, symbols, goal, d, t) && Improves(w1, w2, symbols, goal, t, r)
    ensures Improves(w, w2, symbols, goal, d, r)
  {
  }

  lemma CopyImproves(o: State, s: State, s': State, symbols: set<PFSymbol>, goal: bool, bound: nat, b: NodeId, r: NodeId)
    requires o.Ok() && Copied(o, s, s', bound, b, r) && Clean(o.World(), symbols, o.graph.trees[b])
    ensures Improves(o.World(), s'.World(), symbols, goal, o.graph.trees[b], s'.graph.trees[r])
  {
    NodeCopied(o, s, s', bound, b, r);
  }

  /** Another order of the kernels changes nothing of what a diagram means and mentions. */
  lemma OrderImproves(s: State, s': State, symbols: set<PFSymbol>, goal: bool, b: NodeId)
    requires s.Ok() && s'.Ok() && s.Sorted() && s'.Sorted() && SameMeaning(s, s') && b < |s.graph.trees|
    requires Clean(s.World(), symbols, s.graph.trees[b])
    ensures Improves(s.World(), s'.World(), symbols, goal, s.graph.trees[b], s'.graph.trees[b])
  {
    var w, w', d := s.World(), s'.World(), s.graph.trees[b];
    OrderKeepsMeaning(s, s', b);
    forall k, g | k in Kernels(d) && g in symbols ensures !KernelUses(w', k, g) {
      KernelUsesKept(w, w', k, g);
      assert !Dirty(w, symbols, k);
    }
  }

  /** Copies a diagram to a manager of its own, finds a better order of the kernels there, and simplifies again. */
  method Optimize<Scope(!new)>(manager: FOBDDManager, goal: bool, bdd: NodeId, symbols: set<PFSymbol>,
                         scope: Scope, model: CostModel<Scope>, estimate: CostEstimate, ghost cost: Cost)
    returns (optimizemanager: FOBDDManager, r: NodeId)
    requires manager.Valid() && bdd < |manager.nodes| && Estimates(estimate, cost)
    requires Clean(manager.Snap().World(), symbols, manager.trees[bdd])
    ensures fresh(optimizemanager) && optimizemanager.Valid() && r < |optimizemanager.nodes|
    ensures Improves(manager.Snap().World(), optimizemanager.Snap().World(), symbols, goal, manager.trees[bdd], optimizemanager.trees[r])
    ensures Settled(optimizemanager.Snap(), goal, model, r, scope, COST_PER_ANSWER)
  {
    ghost var s := manager.Snap();
    optimizemanager := new FOBDDManager();
    ghost var o := optimizemanager.Snap();
    var copybdd := optimizemanager.CopyFrom(manager, bdd);
    ghost var o1 := optimizemanager.Snap();
    CopyImproves(s, o, o1, symbols, goal, |s.table.kernels|, bdd, copybdd);
    ghost var states, rounds := optimizemanager.OptimizeQuery(copybdd, estimate, cost);
    ghost var o2 := optimizemanager.Snap();
    OrderImproves(o1, o2, symbols, goal, copybdd);
    ImprovesTransitive(s.World(), o1.World(), o2.World(), symbols, goal, s.graph.trees[bdd], o1.graph.trees[copybdd], o2.graph.trees[copybdd]);
    r := Prune(optimizemanager, s.World(), s.graph.trees[bdd], goal, copybdd, symbols, scope, model);
  }

  method Prune<Scope(!new)>(manager: FOBDDManager, ghost w: World, ghost d: Tree, goal: bool, bdd: NodeId, symbols: set<PFSymbol>,
                      scope: Scope, model: CostModel<Scope>) returns (r: NodeId)
    requires manager.Valid() && manager.Snap().Sorted() && bdd < |manager.nodes|
    requires Improves(w, manager.Snap().World(), symbols, goal, d, manager.trees[bdd])
    modifies manager
    ensures manager.Valid() && manager.Snap().Sorted() && r < |manager.nodes|
    ensures Improves(w, manager.Snap().World(), symbols, goal, d, manager.trees[r])
    ensures Settled(manager.Snap(), goal, model, r, scope, COST_PER_ANSWER)
  {
    ghost var s := manager.Snap();
    TreesOrdered(s.graph, s.table.orders, bdd);
    var pruned := Simplify(manager, goal, bdd, symbols, |manager.table.kernels| + 1, scope, COST_PER_ANSWER, model);
    r := pruned.value;
    ghost var w' := manager.Snap().World();
    PrefixKeeps(s.World(), w');
    TreeWithin(s, bdd);
    ExtendedImproves(s, manager.Snap(), w, symbols, goal, d, bdd);
    RelaxesImproves(w', symbols, goal, manager.trees[bdd], manager.trees[r]);
    ImprovesTransitive(w, w', w', symbols, goal, d, manager.trees[bdd], manager.trees[r]);
  }

  /** More nodes change nothing. */
  lemma ExtendedImproves(s: State, s': State, w: World, symbols: set<PFSymbol>, goal: bool, d: Tree, b: NodeId)
    requires s.Ok() && Extends(s, s') && b < |s.graph.trees| && Improves(w, s.World(), symbols, goal, d, s.graph.trees[b])
    ensures Improves(w, s'.World(), symbols, goal, d, s.graph.trees[b])
  {
    PrefixKeeps(s.World(), s'.World());
    TreeWithin(s, b);
    SortedKept(s.World(), s'.World(), s.graph.trees[b]);
    CleanGrows(s, s', symbols, s.graph.trees[b]);
    forall S: Structure, e: Env { TreeKept(s.World(), s'.World(), s.graph.trees[b], S, e); }
  }

  /** Simplifies, looks for a better order of the kernels in a manager of its own, simplifies again there, and
      brings the result back. */
  method Improve<Scope(!new)>(manager: FOBDDManager, goal: bool, bdd: NodeId, symbols: set<PFSymbol>, fuel: nat,
                        scope: Scope, model: CostModel<Scope>, estimate: CostEstimate, ghost cost: Cost) returns (r: Option<NodeId>)
    requires manager.Valid() && bdd < |manager.nodes| && Estimates(estimate, cost)
    modifies manager
    ensures manager.Valid() && Grows(old(manager.Snap()), manager.Snap())
    ensures r.Some? ==> r.value < |manager.nodes| && Ordered(manager.table.orders, manager.trees[r.value])
    ensures r.Some? ==> Improves(old(manager.Snap()).World(), manager.Snap().World(), symbols, goal, old(manager.trees[bdd]), manager.trees[r.value])
    ensures Ordered(old(manager.table.orders), old(manager.trees[bdd])) && fuel > |old(manager.table.kernels)| ==> r.Some?
  {
    ghost var s := manager.Snap();
    var simplified := Simplify(manager, goal, bdd, symbols, fuel, scope, COST_PER_ANSWER / 10.0, model);
    if simplified == None {
      return None;
    }
    ghost var s1 := manager.Snap();
    var optimizemanager, pruned := Optimize(manager, goal, simplified.value, symbols, scope, model, estimate, cost);
    ghost var o := optimizemanager.Snap();
    var result := manager.CopyFrom(optimizemanager, pruned);
    r := Some(result);
    Improved(s, s1, o, manager.Snap(), symbols, goal, bdd, simplified.value, pruned, result);
  }

  lemma Improved(s: State, s1: State, o: State, s2: State, symbols: set<PFSymbol>, goal: bool, b: NodeId, t: NodeId, p: NodeId, r: NodeId)
    requires s.Ok() && Extends(s, s1) && b < |s.graph.trees| && t < |s1.graph.trees| && o.Ok()
    requires Relaxes(s1.World(), symbols, goal, s.graph.trees[b], s1.graph.trees[t])
    requires p < |o.graph.trees| && Improves(s1.World(), o.World(), symbols, goal, s1.graph.trees[t], o.graph.trees[p])
    requires Copied(o, s1, s2, |o.table.kernels|, p, r)
    ensures Grows(s, s2) && Improves(s.World(), s2.World(), symbols, goal, s.graph.trees[b], s2.graph.trees[r])
  {
    GrowsTransitive(s, s1, s2);
    PrefixKeeps(s.World(), s1.World());
    TreeWithin(s, b);
    SortedKept(s.World(), s1.World(), s.graph.trees[b]);
    forall S: Structure, e: Env { TreeKept(s.World(), s1.World(), s.graph.trees[b], S, e); }
    ImprovesTransitive(s.World(), s1.World(), o.World(), symbols, goal, s.graph.trees[b], s1.graph.trees[t], o.graph.trees[p]);
    CopyImproves(o, s1, s2, symbols, goal, |o.table.kernels|, p, r);
    ImprovesTransitive(s.World(), o.World(), s2.World(), symbols, goal, s.graph.trees[b], o.graph.trees[p], s2.graph.trees[r]);
  }

  // ---------- from a formula to a generator ----------

  /** Truth values of formula f in S are the values of phi, or values on one side of them when they need not be exact. */
  ghost predicate Approximates(f: Formula, S: Structure, goal: bool, forceexact: bool, phi: G.Assignment -> bool) {
    forall x: G.Assignment ::
      if forceexact then phi(x) == FormulaHolds(f, S, x) else FormulaHolds(f, S, x) == goal ==> phi(x) == goal
  }

  ghost function TruthIn(w: World, t: Tree, S: Structure): G.Assignment -> bool {
    (x: G.Assignment) => w.Holds(t, S, Env(x, []))
  }

  ghost predicate Represents(s: State, n: NodeId, f: Formula, goal: bool, forceexact: bool) {
    && s.Ok() && n < |s.graph.trees| && DiagramSorted(s.World(), s.graph.trees[n])
    && forall S: Structure :: RespectsSorts(S, f) ==> Approximates(f, S, goal, forceexact, TruthIn(s.World(), s.graph.trees[n], S))
  }

  lemma CompiledRepresents(s: State, n: NodeId, f: Formula, goal: bool)
    requires Compiled(s, n, f)
    ensures Represents(s, n, f, goal, true)
  {
    forall S: Structure | RespectsSorts(S, f) ensures Approximates(f, S, goal, true, TruthIn(s.World(), s.graph.trees[n], S)) {
      forall x: G.Assignment ensures s.World().Holds(s.graph.trees[n], S, Env(x, [])) == FormulaHolds(f, S, x) {}
    }
  }

  lemma ImprovedRepresents(s: State, s': State, symbols: set<PFSymbol>, n: NodeId, r: NodeId, f: Formula, goal: bool)
    requires Compiled(s, n, f) && s'.Ok() && r < |s'.graph.trees|
    requires Improves(s.World(), s'.World(), symbols, goal, s.graph.trees[n], s'.graph.trees[r])
    ensures Represents(s', r, f, goal, false)
  {
    forall S: Structure | RespectsSorts(S, f) ensures Approximates(f, S, goal, false, TruthIn(s'.World(), s'.graph.trees[r], S)) {
      forall x: G.Assignment ensures s.World().Holds(s.graph.trees[n], S, Env(x, [])) == FormulaHolds(f, S, x) {}
    }
  }

  /** Compiles a formula, and improves the diagram unless it has to be exact. */
  method CreateTable<Scope(!new)>(factory: FOBDDFactory, f: Formula, approxastrue: bool, forceexact: bool, definedsymbols: set<PFSymbol>,
                            fuel: nat, scope: Scope, model: CostModel<Scope>, estimate: CostEstimate, ghost cost: Cost)
    returns (r: Option<NodeId>)
    requires factory.manager.Valid() && f.Proper() && Estimates(estimate, cost)
    modifies factory, factory.manager
    ensures factory.manager.Valid() && Grows(old(factory.manager.Snap()), factory.manager.Snap())
    ensures forceexact ==> r.Some?
    ensures r.Some? ==> Represents(factory.manager.Snap(), r.value, f, approxastrue, forceexact)
    ensures r.Some? && !forceexact ==> Clean(factory.manager.Snap().World(), definedsymbols, factory.manager.trees[r.value])
  {
    ghost var s := factory.manager.Snap();
    factory.Visit(f);
    ghost var s1, bdd := factory.manager.Snap(), factory.bdd;
    if forceexact {
      CompiledRepresents(s1, bdd, f, approxastrue);
      return Some(factory.bdd);
    }
    r := Improve(factory.manager, approxastrue, factory.bdd, definedsymbols, fuel, scope, model, estimate, cost);
    GrowsTransitive(s, s1, factory.manager.Snap());
    if r.Some? { ImprovedRepresents(s1, factory.manager.Snap(), definedsymbols, bdd, r.value, f, approxastrue); }
  }

  /** The generator yields, each once, the tuples over the tables that make the formula true; unless it has to be
      exact, at least these when it approximates as true and at most these otherwise. */
  ghost predicate Generates(w: World, S: Structure, listing: Listing, g: G.Generator, outs: map<Variable, G.Table>,
                            f: Formula, goal: bool, forceexact: bool) {
    exists phi: G.Assignment -> bool :: Approximates(f, S, goal, forceexact, phi) && G.Right(InterpOf(w, S, listing), g, outs, phi)
  }

  /** From a formula to a generator of its answers. */
  method CreateGenerator<Scope(!new)>(factory: FOBDDFactory, f: Formula, approxastrue: bool, forceexact: bool, definedsymbols: set<PFSymbol>,
                                fuel: nat, scope: Scope, model: CostModel<Scope>, estimate: CostEstimate, ghost cost: Cost,
                                tables: SortTables, pattern: seq<Factory.Pattern>, vars: seq<Variable>, vartables: seq<G.Table>,
                                ghost S: Structure, ghost listing: World -> Listing)
    returns (g: Option<G.Generator>, manager: FOBDDManager)
    requires factory.manager.Valid() && f.Proper() && RespectsSorts(S, f) && Estimates(estimate, cost)
    requires NoRepeats(tables) && Listed(S, tables) && Factory.DataOk(pattern, vars, vartables)
    requires forall w: World :: InterpOf(w, S, listing(w)).Ok()
    modifies factory, factory.manager
    ensures factory.manager.Valid() && Grows(old(factory.manager.Snap()), factory.manager.Snap())
    ensures forceexact ==> g.Some?
    ensures var w := manager.Snap().World();
      g.Some? ==> Generates(w, S, listing(w), g.value, Factory.OutputMap(pattern, vars, vartables), f, approxastrue, forceexact)
  {
    var bdd := CreateTable(factory, f, approxastrue, forceexact, definedsymbols, fuel, scope, model, estimate, cost);
    if bdd == None {
      return None, factory.manager;
    }
    ghost var s := factory.manager.Snap();
    var gen;
    manager, gen := CreateOptimized(factory.manager, bdd.value, tables, pattern, vars, vartables, estimate, cost, S, listing);
    ghost var w := manager.Snap().World();
    NodeGenerates(s, w, bdd.value, f, approxastrue, forceexact, S, listing(w), gen, Factory.OutputMap(pattern, vars, vartables));
    g := Some(gen);
  }

  lemma NodeGenerates(s: State, w: World, n: NodeId, f: Formula, goal: bool, forceexact: bool,
                      S: Structure, listing: Listing, g: G.Generator, outs: map<Variable, G.Table>)
    requires Represents(s, n, f, goal, forceexact) && RespectsSorts(S, f)
    requires G.Right(InterpOf(w, S, listing), g, outs, (x: G.Assignment) => s.World().Holds(s.graph.trees[n], S, Env(x, [])))
    ensures Generates(w, S, listing, g, outs, f, goal, forceexact)
  {
    var phi := (x: G.Assignment) => s.World().Holds(s.graph.trees[n], S, Env(x, []));
    var truth := TruthIn(s.World(), s.graph.trees[n], S);
    assert Approximates(f, S, goal, forceexact, truth);
    forall x: G.Assignment ensures phi(x) == truth(x) {}
    assert Approximates(f, S, goal, forceexact, phi);
  }
}
