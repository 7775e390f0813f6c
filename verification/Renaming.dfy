/** Changing the kernels of a diagram, and when different kernels stay different. */
module Renaming {
  import opened Diagrams
  import opened Syntax
  import opened Semantics
  import opened Store
  import opened ManagerState
  import opened Operations
  import opened Visitors

  // ---------- any change of kernels ----------

  /** Valuation a' gives the images of the kernels the values that a gives the kernels. */
  ghost predicate Agree(R: (KernelId, KernelId) -> bool, ks: set<KernelId>, a: Valuation, a': Valuation) {
    forall k: KernelId, k': KernelId :: k in ks && R(k, k') ==> a(k) == KernelValue(k', a')
  }

  ghost predicate HasSource(R: (KernelId, KernelId) -> bool, ks: set<KernelId>, k': KernelId) {
    exists k: KernelId :: k in ks && R(k, k')
  }

  ghost predicate HasImage(R: (KernelId, KernelId) -> bool, k: KernelId) {
    exists k': KernelId :: R(k, k')
  }

  /** All kernels of d have images; diagram d' tests these only, and is the truth function of d on them. */
  ghost predicate MapsTo(R: (KernelId, KernelId) -> bool, d: Tree, d': Tree) {
    && (forall k :: k in Kernels(d) ==> HasImage(R, k))
    && (forall k' :: k' in Kernels(d') ==> HasSource(R, Kernels(d), k'))
    && (forall a: Valuation, a': Valuation :: Agree(R, Kernels(d), a, a') ==> Eval(d, a) == Eval(d', a'))
  }

  lemma TerminalMapped(R: (KernelId, KernelId) -> bool, b: bool)
    ensures MapsTo(R, Leaf(b), Leaf(b))
  {
  }

  /** An image of the root decides between images of the branches. */
  lemma NodeMapped(R: (KernelId, KernelId) -> bool, k: KernelId, t: Tree, f: Tree, k': KernelId, t': Tree, f': Tree, r: Tree)
    requires R(k, k') && MapsTo(R, t, t') && MapsTo(R, f, f') && IsIfThenElse(r, k', t', f')
    ensures MapsTo(R, Branch(k, t, f), r)
  {
    var d := Branch(k, t, f);
    forall a: Valuation, a': Valuation | Agree(R, Kernels(d), a, a') ensures Eval(d, a) == Eval(r, a') {
      assert a(k) == KernelValue(k', a');
      assert Agree(R, Kernels(t), a, a') && Agree(R, Kernels(f), a, a');
    }
    forall j' | j' in Kernels(r) ensures HasSource(R, Kernels(d), j') {
      if j' in Kernels(t') {
        assert HasSource(R, Kernels(t), j');
      } else if j' in Kernels(f') {
        assert HasSource(R, Kernels(f), j');
      } else {
        assert j' == k' && R(k, k');
      }
    }
  }

  lemma MapsLater(R: (KernelId, KernelId) -> bool, R': (KernelId, KernelId) -> bool, d: Tree, d': Tree)
    requires MapsTo(R, d, d') && forall k, k' :: k in Kernels(d) && R(k, k') ==> R'(k, k')
    ensures MapsTo(R', d, d')
  {
    forall k | k in Kernels(d) ensures HasImage(R', k) { assert HasImage(R, k); }
    forall k' | k' in Kernels(d') ensures HasSource(R', Kernels(d), k') { assert HasSource(R, Kernels(d), k'); }
    forall a: Valuation, a': Valuation | Agree(R', Kernels(d), a, a') ensures Eval(d, a) == Eval(d', a') {
      assert Agree(R, Kernels(d), a, a');
    }
  }

  /** Whatever the change is: when the images have in one world and environment the values that the kernels
      have in another, then so have the diagrams. */
  lemma MappedHolds(w: World, w': World, R: (KernelId, KernelId) -> bool, d: Tree, d': Tree, S: Structure, e: Env, e': Env)
    requires 2 <= |w'.kernels| && w'.kernels[TRUEKERNEL] == TrueKernel && w'.kernels[FALSEKERNEL] == FalseKernel
    requires MapsTo(R, d, d')
    requires forall k, k' :: k in Kernels(d) && R(k, k') ==> w'.KernelHolds(k', S, e') == w.KernelHolds(k, S, e)
    ensures w'.Holds(d', S, e') == w.Holds(d, S, e)
  {
    var a, a' := w.Value(S, e), w'.Value(S, e');
    forall k, k' | k in Kernels(d) && R(k, k') ensures a(k) == KernelValue(k', a') {
      assert KernelValue(k', a') == w'.KernelHolds(k', S, e');
    }
    assert Agree(R, Kernels(d), a, a');
  }

  /** No two of the kernels become the same, and none becomes a terminal kernel. */
  ghost predicate InjectiveOn(R: (KernelId, KernelId) -> bool, ks: set<KernelId>) {
    forall i: KernelId, j: KernelId, k': KernelId :: i in ks && j in ks && R(i, k') && R(j, k') ==> i == j && k' >= 2
  }

  /** The valuation of the images that goes with a. */
  ghost function Image(R: (KernelId, KernelId) -> bool, ks: set<KernelId>, a: Valuation): Valuation {
    (k': KernelId) => exists k: KernelId :: k in ks && R(k, k') && a(k)
  }

  lemma ImageAgrees(R: (KernelId, KernelId) -> bool, ks: set<KernelId>, js: set<KernelId>, a: Valuation)
    requires InjectiveOn(R, ks) && js <= ks
    ensures Agree(R, js, a, Image(R, ks, a))
  {
  }

  /** Diagrams with the same image are equivalent when no kernels become the same. */
  lemma SameImage(R: (KernelId, KernelId) -> bool, ks: set<KernelId>, d: Tree, c: Tree, d': Tree)
    requires InjectiveOn(R, ks) && Kernels(d) <= ks && Kernels(c) <= ks && MapsTo(R, d, d') && MapsTo(R, c, d')
    ensures Equivalent(d, c)
  {
    forall a: Valuation ensures Eval(d, a) == Eval(c, a) {
      ImageAgrees(R, ks, Kernels(d), a);
      ImageAgrees(R, ks, Kernels(c), a);
    }
  }

  /** Kernels that come back to themselves bring the truth function back. */
  lemma MappedBack(R1: (KernelId, KernelId) -> bool, R2: (KernelId, KernelId) -> bool, d: Tree, d1: Tree, d2: Tree)
    requires InjectiveOn(R1, Kernels(d)) && MapsTo(R1, d, d1) && MapsTo(R2, d1, d2)
    requires forall k, k1, k2 :: k in Kernels(d) && R1(k, k1) && R2(k1, k2) ==> k2 == k >= 2
    ensures Equivalent(d, d2)
  {
    forall a: Valuation ensures Eval(d, a) == Eval(d2, a) {
      var a1 := Image(R1, Kernels(d), a);
      ImageAgrees(R1, Kernels(d), Kernels(d), a);
      forall k1, k2 | k1 in Kernels(d1) && R2(k1, k2) ensures a1(k1) == KernelValue(k2, a) {
        assert HasSource(R1, Kernels(d), k1);
        var k :| k in Kernels(d) && R1(k, k1);
        assert a1(k1) == a(k);
      }
      assert Agree(R2, Kernels(d1), a1, a);
    }
  }

  ghost function ImageOf(image: map<KernelId, KernelId>): (KernelId, KernelId) -> bool {
    (k: KernelId, k': KernelId) => k in image && image[k] == k'
  }

  // ---------- the change a visitor makes ----------

  /** Kernel k' is kernel k with its terms changed: an equation of a term with itself is true, and a
      quantified terminal is the terminal kernel. */
  ghost predicate Renames(w: World, v: Visitor, k: KernelId, k': KernelId)
    decreases k, 2
  {
    2 <= k < |w.kernels| && k' < |w.kernels| &&
    match w.kernels[k]
    case AtomKernel(symbol, akt, args) =>
      if SelfEquation(symbol, v.ChangeArgs(args)) then k' == TRUEKERNEL
      else w.kernels[k'] == AtomKernel(symbol, akt, v.ChangeArgs(args))
    case QuantKernel(sort, b) =>
      && b < |w.trees|
      && if k' < 2 then TreeRenames(w, v.Under(), k, w.trees[b], Leaf(k' == TRUEKERNEL))
         else w.kernels[k'].QuantKernel? && w.kernels[k'].sort == sort && w.kernels[k'].bdd < |w.trees|
              && TreeRenames(w, v.Under(), k, w.trees[b], w.trees[w.kernels[k'].bdd])
    case _ => false
  }

  ghost function RenamesBelow(w: World, v: Visitor, bound: nat): (KernelId, KernelId) -> bool
    decreases bound, 0
  {
    (k: KernelId, k': KernelId) => k < bound && Renames(w, v, k, k')
  }

  /** Diagram d' is diagram d with its terms changed. */
  ghost predicate TreeRenames(w: World, v: Visitor, bound: nat, d: Tree, d': Tree)
    decreases bound, 1
  {
    MapsTo(RenamesBelow(w, v, bound), d, d')
  }

  lemma {:induction false} RenamesLater(w: World, w': World, v: Visitor, k: KernelId, k': KernelId)
    requires w.kernels <= w'.kernels && w.trees <= w'.trees && Renames(w, v, k, k')
    ensures Renames(w', v, k, k')
    decreases k, 1
  {
    if w.kernels[k].QuantKernel? {
      var d' := if k' < 2 then Leaf(k' == TRUEKERNEL) else w.trees[w.kernels[k'].bdd];
      TreeRenamesLater(w, w', v.Under(), k, w.trees[w.kernels[k].bdd], d');
    }
  }

  lemma {:induction false} TreeRenamesLater(w: World, w': World, v: Visitor, bound: nat, d: Tree, d': Tree)
    requires w.kernels <= w'.kernels && w.trees <= w'.trees && TreeRenames(w, v, bound, d, d')
    ensures TreeRenames(w', v, bound, d, d')
    decreases bound, 0
  {
    forall k, k' | k in Kernels(d) && RenamesBelow(w, v, bound)(k, k') ensures RenamesBelow(w', v, bound)(k, k') {
      RenamesLater(w, w', v, k, k');
    }
    MapsLater(RenamesBelow(w, v, bound), RenamesBelow(w', v, bound), d, d');
  }

  // ---------- different kernels stay different ----------

  /** The kernels of the diagrams nested in the given ones. */
  ghost function NestedKernels(w: World, ks: set<KernelId>): set<KernelId> {
    set k, j | k in ks && k < |w.kernels| && w.kernels[k].QuantKernel? && w.kernels[k].bdd < |w.trees|
               && j in Kernels(w.trees[w.kernels[k].bdd]) :: j
  }

  /** The arguments of the atoms among the kernels. */
  ghost function ArgsOf(w: World, ks: set<KernelId>): set<Term> {
    set k, n | k in ks && k < |w.kernels| && w.kernels[k].AtomKernel? && 0 <= n < |w.kernels[k].args| :: w.kernels[k].args[n]
  }

  ghost predicate Distinguishes(v: Visitor, ts: set<Term>) {
    forall t, u :: t in ts && u in ts && v.ChangeTerm(t) == v.ChangeTerm(u) ==> t == u
  }

  /** Different terms at the same depth stay different. */
  ghost predicate KeepsApart(w: World, v: Visitor, bound: nat, ks: set<KernelId>)
    decreases bound
  {
    bound > 0 ==> Distinguishes(v, ArgsOf(w, ks)) && KeepsApart(w, v.Under(), bound - 1, NestedKernels(w, ks))
  }

  /** Binding a variable always keeps terms apart. */
  lemma {:induction false} BindingKeepsApart(w: World, v: Visitor, bound: nat, ks: set<KernelId>)
    requires v.BumpIndices?
    ensures KeepsApart(w, v, bound, ks)
    decreases bound
  {
    if bound > 0 {
      forall t, u | t in ArgsOf(w, ks) && u in ArgsOf(w, ks) && v.ChangeTerm(t) == v.ChangeTerm(u) ensures t == u { v.TermsApart(t, u); }
      BindingKeepsApart(w, v.Under(), bound - 1, NestedKernels(w, ks));
    }
  }

  lemma {:induction false} FewerKeptApart(w: World, v: Visitor, bound: nat, ks: set<KernelId>, bound': nat, js: set<KernelId>)
    requires KeepsApart(w, v, bound, ks) && bound' <= bound && js <= ks
    ensures KeepsApart(w, v, bound', js)
    decreases bound
  {
    if bound' > 0 {
      assert ArgsOf(w, js) <= ArgsOf(w, ks) && NestedKernels(w, js) <= NestedKernels(w, ks);
      FewerKeptApart(w, v.Under(), bound - 1, NestedKernels(w, ks), bound' - 1, NestedKernels(w, js));
    }
  }

  ghost predicate Injective(w: World, v: Visitor, ks: set<KernelId>) {
    forall i: KernelId, j: KernelId, k': KernelId ::
      i in ks && j in ks && Renames(w, v, i, k') && Renames(w, v, j, k') ==> i == j && k' >= 2
  }

  /** No equation becomes one of a term with itself. */
  lemma NoSelfEquation(s: State, v: Visitor, ks: set<KernelId>, i: KernelId)
    requires s.Ok() && Distinguishes(v, ArgsOf(s.World(), ks)) && i in ks && 2 <= i < |s.table.kernels| && s.table.kernels[i].AtomKernel?
    ensures !SelfEquation(s.table.kernels[i].symbol, v.ChangeArgs(s.table.kernels[i].args))
  {
    assert s.table.Placed(i);
    var x := s.table.kernels[i].args;
    assert forall n :: 0 <= n < |x| ==> x[n] in ArgsOf(s.World(), ks) && v.ChangeArgs(x)[n] == v.ChangeTerm(x[n]);
  }

  lemma NestedBelow(w: World, bound: nat, ks: set<KernelId>)
    requires w.Nested() && forall k :: k in ks ==> k < bound
    ensures forall m :: m in NestedKernels(w, ks) ==> m < bound - 1
  {
    forall m | m in NestedKernels(w, ks) ensures m < bound - 1 {
      var k :| k in ks && k < |w.kernels| && w.kernels[k].QuantKernel? && w.kernels[k].bdd < |w.trees| && m in Kernels(w.trees[w.kernels[k].bdd]);
      assert w.NestedAt(k);
    }
  }

  /** The valuation of the kernels that goes with one of their images. */
  ghost function Pulled(w: World, v: Visitor, a': Valuation): Valuation {
    (k: KernelId) => exists k': KernelId :: Renames(w, v, k, k') && KernelValue(k', a')
  }

  /** A visitor makes one kernel of a kernel. */
  lemma {:induction false} RenamesOnce(s: State, v: Visitor, bound: nat, k: KernelId, k': KernelId, k'': KernelId)
    requires s.Ok() && k < bound && Renames(s.World(), v, k, k') && Renames(s.World(), v, k, k'')
    ensures k' == k''
    decreases bound, 0
  {
    var w := s.World();
    if w.kernels[k].AtomKernel? {
      AtomsOnce(s, v, k, k', k'');
    } else {
      assert w.NestedAt(k);
      var d := w.trees[w.kernels[k].bdd];
      TreeRenamesOnce(s, v.Under(), k, k, d, NestedTree(w, k'), NestedTree(w, k''));
      NestedOnce(s, k', k'');
    }
  }

  lemma AtomsOnce(s: State, v: Visitor, k: KernelId, k': KernelId, k'': KernelId)
    requires s.Ok() && Renames(s.World(), v, k, k') && Renames(s.World(), v, k, k'') && s.table.kernels[k].AtomKernel?
    ensures k' == k''
  {
    assert k' >= 2 ==> s.table.Placed(k');
    assert k'' >= 2 ==> s.table.Placed(k'');
  }

  /** What is nested in a kernel that came of a quantified one. */
  ghost function NestedTree(w: World, k: KernelId): Tree
    requires k < |w.kernels| && (k >= 2 ==> w.kernels[k].QuantKernel? && w.kernels[k].bdd < |w.trees|)
  {
    if k < 2 then Leaf(k == TRUEKERNEL) else w.trees[w.kernels[k].bdd]
  }

  lemma NestedOnce(s: State, i: KernelId, j: KernelId)
    requires s.Ok() && i < |s.table.kernels| && j < |s.table.kernels|
    requires i >= 2 ==> s.table.kernels[i].QuantKernel? && s.table.kernels[i].bdd < |s.graph.trees|
    requires j >= 2 ==> s.table.kernels[j].QuantKernel? && s.table.kernels[j].bdd < |s.graph.trees|
    requires i >= 2 && j >= 2 ==> s.table.kernels[i].sort == s.table.kernels[j].sort
    requires Equivalent(NestedTree(s.World(), i), NestedTree(s.World(), j))
    ensures i == j
  {
    var b, c := if i < 2 then i else s.table.kernels[i].bdd, if j < 2 then j else s.table.kernels[j].bdd;
    assert i >= 2 ==> s.table.Placed(i) && s.NestedOrderedAt(i);
    assert j >= 2 ==> s.table.Placed(j) && s.NestedOrderedAt(j);
    SameOrdered(s, b, c);
  }

  lemma {:induction false} TreeRenamesOnce(s: State, v: Visitor, bound: nat, m: nat, d: Tree, d': Tree, d'': Tree)
    requires s.Ok() && Within(d, bound) && TreeRenames(s.World(), v, m, d, d') && TreeRenames(s.World(), v, m, d, d'')
    ensures Equivalent(d', d'')
    decreases bound, 1
  {
    var w, R := s.World(), RenamesBelow(s.World(), v, m);
    forall a': Valuation ensures Eval(d', a') == Eval(d'', a') {
      var a := Pulled(w, v, a');
      forall k, k' | k in Kernels(d) && R(k, k') ensures a(k) == KernelValue(k', a') {
        if a(k) {
          var k'' :| Renames(w, v, k, k'') && KernelValue(k'', a');
          RenamesOnce(s, v, bound, k, k', k'');
        }
      }
      assert Agree(R, Kernels(d), a, a');
    }
  }

  // ---------- which kernels become the same ----------

  /** Before any change is made: the kernel will become the terminal kernel of the value b. */
  ghost predicate BecomesTerminal(w: World, v: Visitor, k: KernelId, b: bool)
    decreases k, 1
  {
    k < |w.kernels| &&
    match w.kernels[k]
    case AtomKernel(symbol, _, args) => b && SelfEquation(symbol, v.ChangeArgs(args))
    case QuantKernel(_, n) =>
      n < |w.trees| && forall a: Valuation :: Respects(w, v.Under(), k, Kernels(w.trees[n]), a) ==> Eval(w.trees[n], a) == b
    case _ => false
  }

  /** Before any change is made: the kernels will have the same contents. */
  ghost predicate BecomeSame(w: World, v: Visitor, i: KernelId, j: KernelId)
    decreases if i < j then j else i, 1
  {
    i < |w.kernels| && j < |w.kernels| &&
    match (w.kernels[i], w.kernels[j])
    case (AtomKernel(symbol, akt, args), AtomKernel(symbol', akt', args')) =>
      symbol == symbol' && akt == akt' && v.ChangeArgs(args) == v.ChangeArgs(args')
    case (QuantKernel(sort, n), QuantKernel(sort', n')) =>
      && sort == sort' && n < |w.trees| && n' < |w.trees|
      && forall a: Valuation :: Respects(w, v.Under(), if i < j then j else i, Kernels(w.trees[n]) + Kernels(w.trees[n']), a) ==>
           Eval(w.trees[n], a) == Eval(w.trees[n'], a)
    case _ => false
  }

  /** The valuation gives kernels that become the same the same value, and those that become terminals theirs. */
  ghost predicate Respects(w: World, v: Visitor, bound: nat, ks: set<KernelId>, a: Valuation)
    decreases bound, 0
  {
    && (forall i, j :: i in ks && j in ks && i < bound && j < bound && BecomeSame(w, v, i, j) ==> a(i) == a(j))
    && (forall i, b :: i in ks && i < bound && BecomesTerminal(w, v, i, b) ==> a(i) == b)
  }

  ghost predicate Terminals(w: World) {
    2 <= |w.kernels| && w.kernels[TRUEKERNEL] == TrueKernel && w.kernels[FALSEKERNEL] == FalseKernel
  }

  /** Kernels with the same image become the same. */
  lemma {:induction false} SameImageBecome(w: World, v: Visitor, bound: nat, i: KernelId, j: KernelId, k': KernelId)
    requires Terminals(w) && w.Nested() && i < bound && j < bound && k' >= 2 && Renames(w, v, i, k') && Renames(w, v, j, k')
    ensures BecomeSame(w, v, i, j)
    decreases bound, 0
  {
    if w.kernels[i].QuantKernel? {
      assert w.NestedAt(i) && w.NestedAt(j);
      var m, d, c, d' := if i < j then j else i, w.trees[w.kernels[i].bdd], w.trees[w.kernels[j].bdd], w.trees[w.kernels[k'].bdd];
      var ks := Kernels(d) + Kernels(c);
      forall a: Valuation | Respects(w, v.Under(), m, ks, a) ensures Eval(d, a) == Eval(c, a) {
        RespectedAgrees(w, v.Under(), m, ks, a);
        assert Agree(RenamesBelow(w, v.Under(), i), Kernels(d), a, Image(RenamesBelow(w, v.Under(), m), ks, a));
        assert Agree(RenamesBelow(w, v.Under(), j), Kernels(c), a, Image(RenamesBelow(w, v.Under(), m), ks, a));
      }
    }
  }

  lemma {:induction false} TerminalImageBecomes(w: World, v: Visitor, bound: nat, k: KernelId, k': KernelId)
    requires Terminals(w) && w.Nested() && k < bound && k' < 2 && Renames(w, v, k, k')
    ensures BecomesTerminal(w, v, k, k' == TRUEKERNEL)
    decreases bound, 0
  {
    if w.kernels[k].QuantKernel? {
      assert w.NestedAt(k);
      var d := w.trees[w.kernels[k].bdd];
      forall a: Valuation | Respects(w, v.Under(), k, Kernels(d), a) ensures Eval(d, a) == (k' == TRUEKERNEL) {
        RespectedAgrees(w, v.Under(), k, Kernels(d), a);
      }
    }
  }

  /** A valuation that respects what becomes the same goes with one of the images. */
  lemma {:induction false} RespectedAgrees(w: World, v: Visitor, bound: nat, ks: set<KernelId>, a: Valuation)
    requires Terminals(w) && w.Nested() && Respects(w, v, bound, ks, a) && forall k :: k in ks ==> k < bound
    ensures Agree(RenamesBelow(w, v, bound), ks, a, Image(RenamesBelow(w, v, bound), ks, a))
    decreases bound, 1
  {
    var R := RenamesBelow(w, v, bound);
    forall i: KernelId, k': KernelId | i in ks && R(i, k') ensures a(i) == KernelValue(k', Image(R, ks, a)) {
      if k' < 2 {
        TerminalImageBecomes(w, v, bound, i, k');
      } else if j: KernelId :| j in ks && R(j, k') && a(j) {
        SameImageBecome(w, v, bound, i, j, k');
      }
    }
  }

  lemma AtomsSameImage(s: State, v: Visitor, i: KernelId, j: KernelId, i': KernelId, j': KernelId)
    requires s.Ok() && Renames(s.World(), v, i, i') && Renames(s.World(), v, j, j')
    requires BecomeSame(s.World(), v, i, j) && s.table.kernels[i].AtomKernel?
    ensures i' == j'
  {
    assert i' >= 2 ==> s.table.Placed(i');
    assert j' >= 2 ==> s.table.Placed(j');
  }

  /** The other way round: kernels that become the same have the same image. */
  lemma {:induction false} BecomeSameImage(s: State, v: Visitor, bound: nat, i: KernelId, j: KernelId, i': KernelId, j': KernelId)
    requires s.Ok() && i < bound && j < bound && BecomeSame(s.World(), v, i, j) && Renames(s.World(), v, i, i') && Renames(s.World(), v, j, j')
    ensures i' == j'
    decreases bound, 0
  {
    if s.table.kernels[i].AtomKernel? {
      AtomsSameImage(s, v, i, j, i', j');
    } else {
      QuantsSameImage(s, v, bound, i, j, i', j');
      NestedOnce(s, i', j');
    }
  }

  lemma {:induction false} QuantsSameImage(s: State, v: Visitor, bound: nat, i: KernelId, j: KernelId, i': KernelId, j': KernelId)
    requires s.Ok() && i < bound && j < bound && BecomeSame(s.World(), v, i, j) && Renames(s.World(), v, i, i') && Renames(s.World(), v, j, j')
    requires s.table.kernels[i].QuantKernel?
    ensures Equivalent(NestedTree(s.World(), i'), NestedTree(s.World(), j'))
    decreases bound - 1, 2
  {
    var w := s.World();
    assert w.NestedAt(i) && w.NestedAt(j);
    var m, d, c := if i < j then j else i, w.trees[w.kernels[i].bdd], w.trees[w.kernels[j].bdd];
    var R := RenamesBelow(w, v.Under(), m);
    MapsLater(RenamesBelow(w, v.Under(), i), R, d, NestedTree(w, i'));
    MapsLater(RenamesBelow(w, v.Under(), j), R, c, NestedTree(w, j'));
    forall a': Valuation ensures Eval(NestedTree(w, i'), a') == Eval(NestedTree(w, j'), a') {
      PulledRespects(s, v.Under(), m, m, Kernels(d) + Kernels(c), a');
      PulledAgrees(R, d, c, NestedTree(w, i'), NestedTree(w, j'), Pulled(w, v.Under(), a'), a');
    }
  }

  lemma PulledAgrees(R: (KernelId, KernelId) -> bool, d: Tree, c: Tree, d': Tree, c': Tree, a: Valuation, a': Valuation)
    requires MapsTo(R, d, d') && MapsTo(R, c, c') && Agree(R, Kernels(d) + Kernels(c), a, a')
    ensures Eval(d', a') == Eval(d, a) && Eval(c', a') == Eval(c, a)
  {
    assert Agree(R, Kernels(d), a, a') && Agree(R, Kernels(c), a, a');
  }

  lemma {:induction false} BecomesTerminalImage(s: State, v: Visitor, bound: nat, k: KernelId, b: bool, k': KernelId)
    requires s.Ok() && k < bound && BecomesTerminal(s.World(), v, k, b) && Renames(s.World(), v, k, k')
    ensures k' == if b then TRUEKERNEL else FALSEKERNEL
    decreases bound, 0
  {
    var w := s.World();
    if w.kernels[k].QuantKernel? {
      assert w.NestedAt(k);
      var d := w.trees[w.kernels[k].bdd];
      forall a': Valuation ensures Eval(NestedTree(w, k'), a') == b {
        PulledRespects(s, v.Under(), k, k, Kernels(d), a');
      }
      NestedOnce(s, k', if b then TRUEKERNEL else FALSEKERNEL);
    }
  }

  /** The valuation that goes with one of the images respects what becomes the same. */
  lemma {:induction false} PulledRespects(s: State, v: Visitor, bound: nat, m: nat, ks: set<KernelId>, a': Valuation)
    requires s.Ok() && bound <= m && forall k :: k in ks ==> k < bound && HasImage(RenamesBelow(s.World(), v, m), k)
    ensures Respects(s.World(), v, bound, ks, Pulled(s.World(), v, a'))
    ensures Agree(RenamesBelow(s.World(), v, m), ks, Pulled(s.World(), v, a'), a')
    decreases bound, 1
  {
    var w, R, a := s.World(), RenamesBelow(s.World(), v, m), Pulled(s.World(), v, a');
    forall k: KernelId, k': KernelId | k in ks && R(k, k') ensures a(k) == KernelValue(k', a') {
      if k'': KernelId :| Renames(w, v, k, k'') && KernelValue(k'', a') { RenamesOnce(s, v, m, k, k', k''); }
    }
    forall i: KernelId, j: KernelId | i in ks && j in ks && BecomeSame(w, v, i, j) ensures a(i) == a(j) {
      var i', j' :| R(i, i') && R(j, j');
      BecomeSameImage(s, v, bound, i, j, i', j');
    }
    forall i: KernelId, b | i in ks && BecomesTerminal(w, v, i, b) ensures a(i) == b {
      var i' :| R(i, i');
      BecomesTerminalImage(s, v, bound, i, b, i');
    }
  }

  /** Nested diagrams are ordered, so equivalent ones are the same node. */
  lemma SameNested(s: State, i: KernelId, j: KernelId)
    requires s.Ok() && 2 <= i < |s.table.kernels| && 2 <= j < |s.table.kernels|
    requires s.table.kernels[i].QuantKernel? && s.table.kernels[j].QuantKernel? && s.table.kernels[i].sort == s.table.kernels[j].sort
    requires s.table.kernels[i].bdd < |s.graph.trees| && s.table.kernels[j].bdd < |s.graph.trees|
    requires Equivalent(s.graph.trees[s.table.kernels[i].bdd], s.graph.trees[s.table.kernels[j].bdd])
    ensures i == j
  {
    assert s.table.Placed(i) && s.table.Placed(j) && s.NestedOrderedAt(i) && s.NestedOrderedAt(j);
    SameOrdered(s, s.table.kernels[i].bdd, s.table.kernels[j].bdd);
  }

  lemma SameOrdered(s: State, b: NodeId, c: NodeId)
    requires s.Ok() && b < |s.graph.trees| && c < |s.graph.trees|
    requires Ordered(s.table.orders, s.graph.trees[b]) && Ordered(s.table.orders, s.graph.trees[c])
    ensures Equivalent(s.graph.trees[b], s.graph.trees[c]) <==> b == c
  {
    s.table.Distinct();
    TreesReduced(s.graph, s.unique, b);
    TreesReduced(s.graph, s.unique, c);
    Canonical(s.table.orders, s.graph.trees[b], s.graph.trees[c]);
    TreesInjective(s.graph, s.unique, b, c);
  }

  // ---------- different terms make different kernels ----------

  /** When terms are kept apart no two kernels become the same, and none becomes a terminal kernel. */
  lemma {:induction false} ApartBecome(s: State, v: Visitor, bound: nat, ks: set<KernelId>)
    requires s.Ok() && KeepsApart(s.World(), v, bound, ks) && forall k :: k in ks ==> k < bound
    ensures forall i, j :: i in ks && j in ks && BecomeSame(s.World(), v, i, j) ==> i == j
    ensures forall i, b :: i in ks ==> !BecomesTerminal(s.World(), v, i, b)
    decreases bound
  {
    var w, nested := s.World(), NestedKernels(s.World(), ks);
    if bound > 0 {
      NestedBelow(w, bound, ks);
      ApartBecome(s, v.Under(), bound - 1, nested);
      forall i, j | i in ks && j in ks && BecomeSame(w, v, i, j) ensures i == j {
        if w.kernels[i].AtomKernel? { AtomsApart(s, v, ks, i, j); } else { QuantsApart(s, v, ks, i, j); }
      }
      forall i, b | i in ks ensures !BecomesTerminal(w, v, i, b) {
        if i < |w.kernels| && i >= 2 {
          assert s.table.Placed(i);
          if w.kernels[i].AtomKernel? { NoSelfEquation(s, v, ks, i); } else { QuantNotTerminal(s, v, ks, i, b); }
        }
      }
    }
  }

  lemma AtomsApart(s: State, v: Visitor, ks: set<KernelId>, i: KernelId, j: KernelId)
    requires s.Ok() && Distinguishes(v, ArgsOf(s.World(), ks)) && i in ks && j in ks
    requires BecomeSame(s.World(), v, i, j) && s.table.kernels[i].AtomKernel?
    ensures i == j
  {
    var w := s.World();
    assert s.table.Placed(i) && s.table.Placed(j);
    var x, y := w.kernels[i].args, w.kernels[j].args;
    assert forall n :: 0 <= n < |x| ==> x[n] in ArgsOf(w, ks) && v.ChangeArgs(x)[n] == v.ChangeTerm(x[n]);
    assert forall n :: 0 <= n < |y| ==> y[n] in ArgsOf(w, ks) && v.ChangeArgs(y)[n] == v.ChangeTerm(y[n]);
    assert |x| == |y| && forall n :: 0 <= n < |x| ==> v.ChangeTerm(x[n]) == v.ChangeTerm(y[n]);
    assert x == y;
  }

  lemma AllRespect(w: World, v: Visitor, bound: nat, ks: set<KernelId>, a: Valuation)
    requires forall i, j :: i in ks && j in ks && BecomeSame(w, v, i, j) ==> i == j
    requires forall i, b :: i in ks ==> !BecomesTerminal(w, v, i, b)
    ensures Respects(w, v, bound, ks, a)
  {
  }

  lemma QuantsApart(s: State, v: Visitor, ks: set<KernelId>, i: KernelId, j: KernelId)
    requires s.Ok() && i in ks && j in ks && BecomeSame(s.World(), v, i, j) && s.table.kernels[i].QuantKernel?
    requires var nested := NestedKernels(s.World(), ks);
      && (forall x, y :: x in nested && y in nested && BecomeSame(s.World(), v.Under(), x, y) ==> x == y)
      && forall x, b :: x in nested ==> !BecomesTerminal(s.World(), v.Under(), x, b)
    ensures i == j
  {
    var w := s.World();
    assert w.NestedAt(i) && w.NestedAt(j);
    var d, c := w.trees[w.kernels[i].bdd], w.trees[w.kernels[j].bdd];
    assert forall k :: k in Kernels(d) + Kernels(c) ==> k in NestedKernels(w, ks);
    forall a: Valuation ensures Eval(d, a) == Eval(c, a) {
      AllRespect(w, v.Under(), if i < j then j else i, Kernels(d) + Kernels(c), a);
    }
    SameNested(s, i, j);
  }

  lemma QuantNotTerminal(s: State, v: Visitor, ks: set<KernelId>, k: KernelId, b: bool)
    requires s.Ok() && k in ks && 2 <= k < |s.table.kernels| && s.table.kernels[k].QuantKernel?
    requires var nested := NestedKernels(s.World(), ks);
      && (forall x, y :: x in nested && y in nested && BecomeSame(s.World(), v.Under(), x, y) ==> x == y)
      && forall x, b :: x in nested ==> !BecomesTerminal(s.World(), v.Under(), x, b)
    ensures !BecomesTerminal(s.World(), v, k, b)
  {
    var w, n := s.World(), s.table.kernels[k].bdd;
    assert s.table.Placed(k) && w.NestedAt(k) && s.NestedOrderedAt(k);
    if BecomesTerminal(w, v, k, b) {
      assert forall j :: j in Kernels(w.trees[n]) ==> j in NestedKernels(w, ks);
      forall a: Valuation ensures Eval(w.trees[n], a) == b { AllRespect(w, v.Under(), k, Kernels(w.trees[n]), a); }
      SameOrdered(s, n, if b then TRUEBDD else FALSEBDD);
    }
  }

  /** Then different kernels have different images, which are no terminal kernels. */
  lemma {:induction false} RenamesApart(s: State, v: Visitor, bound: nat, ks: set<KernelId>)
    requires s.Ok() && KeepsApart(s.World(), v, bound, ks) && forall k :: k in ks ==> k < bound
    ensures Injective(s.World(), v, ks)
  {
    var w := s.World();
    ApartBecome(s, v, bound, ks);
    forall i: KernelId, j: KernelId, k': KernelId | i in ks && j in ks && Renames(w, v, i, k') && Renames(w, v, j, k')
      ensures i == j && k' >= 2
    {
      if k' < 2 { TerminalImageBecomes(w, v, bound, i, k'); } else { SameImageBecome(w, v, bound, i, j, k'); }
    }
  }
}
