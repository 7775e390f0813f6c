/** The manager of first-order decision diagrams. */
module FoBddManager {
  import opened KernelOrders
  import opened Diagrams
  import opened Syntax
  import opened Semantics
  import opened Store
  import opened ManagerState
  import opened Operations
  import opened SwapTrees
  import opened Moves
  import opened Wrappers
  import opened Sifting
  import opened Quantification
  import opened Visitors
  import opened Renaming
  import opened Rebuilding
  import opened Binding
  import opened SetExpressions
  import opened Opening
  import opened Approximations
  import opened Copying
  import opened Paths

  class FOBDDManager {
    // kernels, their places in the order, and the numbers handed out so far
    var table: KernelTable
    // nodes and the unique table
    var nodes: seq<FOBDD>
    var bddtable: map<BddKey, NodeId>
    ghost var trees: seq<Tree>
    // dynamic programming tables
    var memo: Memo

    ghost function Snap(): State
      reads this
    {
      State(table, Graph(nodes, trees), bddtable, memo)
    }

    ghost predicate Valid()
      reads this
    {
      Snap().Ok()
    }

    /** A new manager has the two terminals only. */
    constructor ()
      ensures Valid() && Snap().Sorted() && |nodes| == 2 && |table.kernels| == 2 && table.atoms == map[] && memo == NOTHING_REMEMBERED
    {
      table := KernelTable(
        [TrueKernel, FalseKernel], [KernelOrder(TRUEFALSECATEGORY, 0), KernelOrder(TRUEFALSECATEGORY, 1)], map[],
        map[TRUEFALSECATEGORY := 2, STANDARDCATEGORY := 0, DEBRUIJNCATEGORY := 0], map[], map[]);
      nodes := [FOBDD(TRUEKERNEL, TRUEBDD, TRUEBDD), FOBDD(FALSEKERNEL, FALSEBDD, FALSEBDD)];
      trees := [Leaf(true), Leaf(false)];
      bddtable := map[];
      memo := NOTHING_REMEMBERED;
    }

    method AddBDD(kernel: KernelId, truebranch: NodeId, falsebranch: NodeId) returns (r: NodeId)
      requires (kernel, falsebranch, truebranch) !in bddtable
      modifies this`nodes, this`bddtable
      ensures nodes == old(nodes) + [FOBDD(kernel, truebranch, falsebranch)] && r == |old(nodes)|
      ensures bddtable == old(bddtable)[(kernel, falsebranch, truebranch) := r]
    {
      r := |nodes|;
      nodes := nodes + [FOBDD(kernel, truebranch, falsebranch)];
      bddtable := bddtable[(kernel, falsebranch, truebranch) := r];
    }

    /** The constructor as such; a move uses it while the state is not consistent. */
    method MakeNode(kernel: KernelId, truebranch: NodeId, falsebranch: NodeId) returns (r: NodeId)
      modifies this`nodes, this`bddtable
      ensures (nodes, bddtable, r) == GetNode(old(nodes), old(bddtable), kernel, truebranch, falsebranch)
    {
      if kernel == TRUEKERNEL {
        return truebranch;
      }
      if kernel == FALSEKERNEL {
        return falsebranch;
      }
      if falsebranch == truebranch {
        return falsebranch;
      }
      if (kernel, falsebranch, truebranch) in bddtable {
        return bddtable[(kernel, falsebranch, truebranch)];
      }
      r := AddBDD(kernel, truebranch, falsebranch);
    }

    /** In a consistent state the constructor gives the reduced diagram; the state stays sorted
        exactly when the kernel precedes both branches, or no node was needed. */
    method GetBDD(kernel: KernelId, truebranch: NodeId, falsebranch: NodeId) returns (r: NodeId)
      requires Valid() && kernel < |table.kernels| && truebranch < |nodes| && falsebranch < |nodes|
      modifies this`nodes, this`bddtable, this`trees
      ensures Valid() && Extends(old(Snap()), Snap()) && r < |nodes|
      ensures trees[r] == Make(kernel, trees[truebranch], trees[falsebranch])
      ensures Snap().Sorted() <==> (old(Snap()).Sorted() &&
                (kernel < 2 || truebranch == falsebranch || old(Snap()).Precedes(kernel, truebranch, falsebranch)))
    {
      ghost var s := Snap();
      TreesInjective(s.graph, s.unique, truebranch, falsebranch);
      var known := (kernel, falsebranch, truebranch) in bddtable;
      r := MakeNode(kernel, truebranch, falsebranch);
      if kernel >= 2 && truebranch != falsebranch {
        if known {
          InnerNode(s, r);
        } else {
          StateWithNode(s, kernel, truebranch, falsebranch);
          SortedWithNode(s, kernel, truebranch, falsebranch);
          trees := trees + [Branch(kernel, trees[truebranch], trees[falsebranch])];
        }
      }
    }

    method Negation(bdd: NodeId) returns (r: NodeId)
      requires Valid() && bdd < |nodes|
      modifies this`nodes, this`bddtable, this`trees, this`memo
      ensures Valid() && Extends(old(Snap()), Snap()) && r < |nodes|
      ensures IsNegation(trees[r], trees[bdd])
      ensures Snap().Sorted() <==> old(Snap()).Sorted()
      ensures Ordered(table.orders, trees[bdd]) ==> Ordered(table.orders, trees[r])
      decreases trees[bdd], 2
    {
      if bdd == TRUEBDD {
        return FALSEBDD;
      }
      if bdd == FALSEBDD {
        return TRUEBDD;
      }
      if bdd in memo.negation {
        assert memo.NegationOk(trees, table.orders, bdd);
        return memo.negation[bdd];
      }
      r := NegationOfInner(bdd);
    }

    /** Pushes the negation down to the terminals. */
    method NegationOfInner(bdd: NodeId) returns (r: NodeId)
      requires Valid() && 2 <= bdd < |nodes|
      modifies this`nodes, this`bddtable, this`trees, this`memo
      ensures Valid() && Extends(old(Snap()), Snap()) && r < |nodes|
      ensures IsNegation(trees[r], trees[bdd])
      ensures Snap().Sorted() <==> old(Snap()).Sorted()
      ensures Ordered(table.orders, trees[bdd]) ==> Ordered(table.orders, trees[r])
      decreases trees[bdd], 1
    {
      r := NegationOfBranches(bdd);
      NegationRemembered(Snap(), bdd, r);
      memo := memo.(negation := memo.negation[bdd := r]);
    }

    method NegationOfBranches(bdd: NodeId) returns (r: NodeId)
      requires Valid() && 2 <= bdd < |nodes|
      modifies this`nodes, this`bddtable, this`trees, this`memo
      ensures Valid() && Extends(old(Snap()), Snap()) && r < |nodes|
      ensures IsNegation(trees[r], trees[bdd])
      ensures Snap().Sorted() <==> old(Snap()).Sorted()
      ensures Ordered(table.orders, trees[bdd]) ==> Ordered(table.orders, trees[r])
      decreases trees[bdd], 0
    {
      ghost var s := Snap();
      InnerNode(s, bdd);
      var kernel := nodes[bdd].kernel;
      var falsebranch := Negation(nodes[bdd].falsebranch);
      ghost var s1 := Snap();
      var truebranch := Negation(nodes[bdd].truebranch);
      ghost var s2 := Snap();
      ExtendsTransitive(s, s1, s2);
      NegatedBranches(s2, bdd, truebranch, falsebranch);
      r := GetBDD(kernel, truebranch, falsebranch);
      ExtendsTransitive(s, s2, Snap());
    }

    method Conjunction(bdd1: NodeId, bdd2: NodeId) returns (r: NodeId)
      requires Valid() && bdd1 < |nodes| && bdd2 < |nodes|
      modifies this`nodes, this`bddtable, this`trees, this`memo
      ensures Valid() && Extends(old(Snap()), Snap()) && r < |nodes|
      ensures IsConnective(CONJUNCTION, trees[r], trees[bdd1], trees[bdd2])
      ensures Snap().Sorted() <==> old(Snap()).Sorted()
      ensures Ordered(table.orders, trees[bdd1]) && Ordered(table.orders, trees[bdd2]) ==> Ordered(table.orders, trees[r])
    {
      r := Combine(CONJUNCTION, bdd1, bdd2);
    }

    method Disjunction(bdd1: NodeId, bdd2: NodeId) returns (r: NodeId)
      requires Valid() && bdd1 < |nodes| && bdd2 < |nodes|
      modifies this`nodes, this`bddtable, this`trees, this`memo
      ensures Valid() && Extends(old(Snap()), Snap()) && r < |nodes|
      ensures IsConnective(DISJUNCTION, trees[r], trees[bdd1], trees[bdd2])
      ensures Snap().Sorted() <==> old(Snap()).Sorted()
      ensures Ordered(table.orders, trees[bdd1]) && Ordered(table.orders, trees[bdd2]) ==> Ordered(table.orders, trees[r])
    {
      r := Combine(DISJUNCTION, bdd1, bdd2);
    }

    /** The common part of conjunction and disjunction, which differ in their terminals only. */
    method Combine(op: Connective, bdd1: NodeId, bdd2: NodeId) returns (r: NodeId)
      requires Valid() && bdd1 < |nodes| && bdd2 < |nodes|
      modifies this`nodes, this`bddtable, this`trees, this`memo
      ensures Valid() && Extends(old(Snap()), Snap()) && r < |nodes|
      ensures IsConnective(op, trees[r], trees[bdd1], trees[bdd2])
      ensures Snap().Sorted() <==> old(Snap()).Sorted()
      ensures Ordered(table.orders, trees[bdd1]) && Ordered(table.orders, trees[bdd2]) ==> Ordered(table.orders, trees[r])
      decreases Size(trees[bdd1]) + Size(trees[bdd2]), 2
    {
      var absorbing := if op.CONJUNCTION? then FALSEBDD else TRUEBDD;
      var neutral := if op.CONJUNCTION? then TRUEBDD else FALSEBDD;
      if bdd1 == absorbing || bdd2 == absorbing {
        return absorbing;
      }
      if bdd1 == neutral {
        return bdd2;
      }
      if bdd2 == neutral {
        return bdd1;
      }
      if bdd1 == bdd2 {
        return bdd1;
      }
      // one of the two orders is used throughout, so that the table has each pair once
      var a, b := bdd1, bdd2;
      if bdd2 < bdd1 {
        a, b := bdd2, bdd1;
      }
      if (op, a, b) in memo.connective {
        assert memo.ConnectiveOk(trees, table.orders, (op, a, b));
        return memo.connective[(op, a, b)];
      }
      r := CombineInner(op, a, b);
    }

    method CombineInner(op: Connective, bdd1: NodeId, bdd2: NodeId) returns (r: NodeId)
      requires Valid() && 2 <= bdd1 < |nodes| && 2 <= bdd2 < |nodes|
      modifies this`nodes, this`bddtable, this`trees, this`memo
      ensures Valid() && Extends(old(Snap()), Snap()) && r < |nodes|
      ensures IsConnective(op, trees[r], trees[bdd1], trees[bdd2])
      ensures Snap().Sorted() <==> old(Snap()).Sorted()
      ensures Ordered(table.orders, trees[bdd1]) && Ordered(table.orders, trees[bdd2]) ==> Ordered(table.orders, trees[r])
      decreases Size(trees[bdd1]) + Size(trees[bdd2]), 1
    {
      r := CombineBranches(op, bdd1, bdd2);
      ConnectiveRemembered(Snap(), op, bdd1, bdd2, r);
      memo := memo.(connective := memo.connective[(op, bdd1, bdd2) := r]);
    }

    method CombineBranches(op: Connective, bdd1: NodeId, bdd2: NodeId) returns (r: NodeId)
      requires Valid() && 2 <= bdd1 < |nodes| && 2 <= bdd2 < |nodes|
      modifies this`nodes, this`bddtable, this`trees, this`memo
      ensures Valid() && Extends(old(Snap()), Snap()) && r < |nodes|
      ensures IsConnective(op, trees[r], trees[bdd1], trees[bdd2])
      ensures Snap().Sorted() <==> old(Snap()).Sorted()
      ensures Ordered(table.orders, trees[bdd1]) && Ordered(table.orders, trees[bdd2]) ==> Ordered(table.orders, trees[r])
      decreases Size(trees[bdd1]) + Size(trees[bdd2]), 0
    {
      ghost var s := Snap();
      var kernel, true1, false1, true2, false2 := SplitPair(bdd1, bdd2);
      var falsebranch := Combine(op, false1, false2);
      ghost var s1 := Snap();
      var truebranch := Combine(op, true1, true2);
      ghost var s2 := Snap();
      ExtendsTransitive(s, s1, s2);
      r := CombineOver(op, kernel, bdd1, true1, false1, bdd2, true2, false2, truebranch, falsebranch);
      ExtendsTransitive(s, s2, Snap());
    }

    /** Puts the kernel over the combined branches. */
    method CombineOver(ghost op: Connective, kernel: KernelId, ghost a: NodeId, ghost a1: NodeId, ghost a0: NodeId,
                       ghost b: NodeId, ghost b1: NodeId, ghost b0: NodeId, truebranch: NodeId, falsebranch: NodeId)
      returns (r: NodeId)
      requires Valid() && 2 <= kernel < |table.kernels| && truebranch < |nodes| && falsebranch < |nodes|
      requires Cofactors(Snap(), a, kernel, a1, a0) && Cofactors(Snap(), b, kernel, b1, b0)
      requires kernel in Kernels(trees[a]) || kernel in Kernels(trees[b])
      requires IsConnective(op, trees[truebranch], trees[a1], trees[b1])
      requires IsConnective(op, trees[falsebranch], trees[a0], trees[b0])
      requires Ordered(table.orders, trees[a1]) && Ordered(table.orders, trees[b1]) ==> Ordered(table.orders, trees[truebranch])
      requires Ordered(table.orders, trees[a0]) && Ordered(table.orders, trees[b0]) ==> Ordered(table.orders, trees[falsebranch])
      modifies this`nodes, this`bddtable, this`trees
      ensures Valid() && Extends(old(Snap()), Snap()) && r < |nodes|
      ensures IsConnective(op, trees[r], trees[a], trees[b])
      ensures Snap().Sorted() <==> old(Snap()).Sorted()
      ensures Ordered(table.orders, trees[a]) && Ordered(table.orders, trees[b]) ==> Ordered(table.orders, trees[r])
    {
      ConnectiveOfCofactors(Snap(), op, kernel, a, a1, a0, b, b1, b0, truebranch, falsebranch);
      r := GetBDD(kernel, truebranch, falsebranch);
    }

    /** The kernel nearest the root of two nodes, and the branches of both for it. */
    method SplitPair(bdd1: NodeId, bdd2: NodeId)
      returns (kernel: KernelId, true1: NodeId, false1: NodeId, true2: NodeId, false2: NodeId)
      requires Valid() && 2 <= bdd1 < |nodes| && 2 <= bdd2 < |nodes|
      ensures 2 <= kernel < |table.kernels|
      ensures Cofactors(Snap(), bdd1, kernel, true1, false1) && Cofactors(Snap(), bdd2, kernel, true2, false2)
      ensures kernel in Kernels(trees[bdd1]) || kernel in Kernels(trees[bdd2])
      ensures Size(trees[true1]) + Size(trees[true2]) < Size(trees[bdd1]) + Size(trees[bdd2])
      ensures Size(trees[false1]) + Size(trees[false2]) < Size(trees[bdd1]) + Size(trees[bdd2])
    {
      InnerNode(Snap(), bdd1);
      InnerNode(Snap(), bdd2);
      var k1, k2 := nodes[bdd1].kernel, nodes[bdd2].kernel;
      if table.orders[k1].Before(table.orders[k2]) {
        RootCofactors(Snap(), bdd1);
        LowerCofactors(Snap(), k1, bdd2);
        return k1, nodes[bdd1].truebranch, nodes[bdd1].falsebranch, bdd2, bdd2;
      } else if table.orders[k2].Before(table.orders[k1]) {
        RootCofactors(Snap(), bdd2);
        LowerCofactors(Snap(), k2, bdd1);
        return k2, bdd1, bdd1, nodes[bdd2].truebranch, nodes[bdd2].falsebranch;
      } else {
        SameOrderSameKernel(Snap(), k1, k2);
        RootCofactors(Snap(), bdd1);
        RootCofactors(Snap(), bdd2);
        return k1, nodes[bdd1].truebranch, nodes[bdd1].falsebranch, nodes[bdd2].truebranch, nodes[bdd2].falsebranch;
      }
    }
  
    /** Unlike GetBDD this puts the kernel at its place in the order. */
    method IfThenElse(kernel: KernelId, truebranch: NodeId, falsebranch: NodeId) returns (r: NodeId)
      requires Valid() && kernel < |table.kernels| && truebranch < |nodes| && falsebranch < |nodes|
      modifies this`nodes, this`bddtable, this`trees, this`memo
      ensures Valid() && Extends(old(Snap()), Snap()) && r < |nodes|
      ensures IsIfThenElse(trees[r], kernel, trees[truebranch], trees[falsebranch])
      ensures Snap().Sorted() <==> old(Snap()).Sorted()
      ensures Ordered(table.orders, trees[truebranch]) && Ordered(table.orders, trees[falsebranch]) ==> Ordered(table.orders, trees[r])
      decreases Size(trees[truebranch]) + Size(trees[falsebranch]), 2
    {
      if (kernel, truebranch, falsebranch) in memo.ifthenelse {
        assert memo.IfThenElseOk(trees, table.orders, (kernel, truebranch, falsebranch));
        return memo.ifthenelse[(kernel, truebranch, falsebranch)];
      }
      if kernel == TRUEKERNEL {
        return truebranch;
      }
      if kernel == FALSEKERNEL {
        return falsebranch;
      }
      if truebranch == falsebranch {
        return truebranch;
      }
      r := IfThenElseInner(kernel, truebranch, falsebranch);
    }

    method IfThenElseInner(kernel: KernelId, truebranch: NodeId, falsebranch: NodeId) returns (r: NodeId)
      requires Valid() && 2 <= kernel < |table.kernels| && truebranch < |nodes| && falsebranch < |nodes|
      modifies this`nodes, this`bddtable, this`trees, this`memo
      ensures Valid() && Extends(old(Snap()), Snap()) && r < |nodes|
      ensures IsIfThenElse(trees[r], kernel, trees[truebranch], trees[falsebranch])
      ensures Snap().Sorted() <==> old(Snap()).Sorted()
      ensures Ordered(table.orders, trees[truebranch]) && Ordered(table.orders, trees[falsebranch]) ==> Ordered(table.orders, trees[r])
      decreases Size(trees[truebranch]) + Size(trees[falsebranch]), 1
    {
      var root, t1, t0, f1, f0 := SplitBranches(kernel, truebranch, falsebranch);
      if root == kernel {
        IfThenElseAtRoot(Snap(), kernel, truebranch, t1, t0, falsebranch, f1, f0);
        r := GetBDD(kernel, t1, f0);
      } else {
        r := IfThenElseBelow(root, kernel, truebranch, t1, t0, falsebranch, f1, f0);
      }
      IfThenElseRemembered(Snap(), kernel, truebranch, falsebranch, r);
      memo := memo.(ifthenelse := memo.ifthenelse[(kernel, truebranch, falsebranch) := r]);
    }

    /** The kernel belongs below the given root, so it is put there in both branches of that root. */
    method IfThenElseBelow(root: KernelId, kernel: KernelId, ghost t: NodeId, t1: NodeId, t0: NodeId,
                           ghost f: NodeId, f1: NodeId, f0: NodeId)
      returns (r: NodeId)
      requires Valid() && 2 <= root < |table.kernels| && 2 <= kernel < |table.kernels|
      requires table.orders[root].Before(table.orders[kernel])
      requires Cofactors(Snap(), t, root, t1, t0) && Cofactors(Snap(), f, root, f1, f0)
      requires root in Kernels(trees[t]) || root in Kernels(trees[f])
      requires Size(trees[t1]) + Size(trees[f1]) < Size(trees[t]) + Size(trees[f])
      requires Size(trees[t0]) + Size(trees[f0]) < Size(trees[t]) + Size(trees[f])
      modifies this`nodes, this`bddtable, this`trees, this`memo
      ensures Valid() && Extends(old(Snap()), Snap()) && r < |nodes|
      ensures IsIfThenElse(trees[r], kernel, trees[t], trees[f])
      ensures Snap().Sorted() <==> old(Snap()).Sorted()
      ensures Ordered(table.orders, trees[t]) && Ordered(table.orders, trees[f]) ==> Ordered(table.orders, trees[r])
      decreases Size(trees[t]) + Size(trees[f]), 0
    {
      ghost var s := Snap();
      var newtrue := IfThenElse(kernel, t1, f1);
      ghost var s1 := Snap();
      var newfalse := IfThenElse(kernel, t0, f0);
      ghost var s2 := Snap();
      ExtendsTransitive(s, s1, s2);
      IfThenElseOfCofactors(s2, root, kernel, t, t1, t0, f, f1, f0, newtrue, newfalse);
      r := GetBDD(root, newtrue, newfalse);
      ExtendsTransitive(s, s2, Snap());
    }

    /** The kernel nearest the root among the given one and the roots of both branches,
        with the branches for it when it is true and when it is false. */
    method SplitBranches(kernel: KernelId, t: NodeId, f: NodeId)
      returns (root: KernelId, t1: NodeId, t0: NodeId, f1: NodeId, f0: NodeId)
      requires Valid() && 2 <= kernel < |table.kernels| && t < |nodes| && f < |nodes|
      ensures 2 <= root < |table.kernels|
      ensures root == kernel || table.orders[root].Before(table.orders[kernel])
      ensures Cofactors(Snap(), t, root, t1, t0) && Cofactors(Snap(), f, root, f1, f0)
      ensures root == kernel || root in Kernels(trees[t]) || root in Kernels(trees[f])
      ensures root != kernel ==> Size(trees[t1]) + Size(trees[f1]) < Size(trees[t]) + Size(trees[f])
      ensures root != kernel ==> Size(trees[t0]) + Size(trees[f0]) < Size(trees[t]) + Size(trees[f])
    {
      RootKernel(Snap(), t);
      RootKernel(Snap(), f);
      InnerKernelOrder(Snap(), kernel);
      var truekernel, falsekernel := nodes[t].kernel, nodes[f].kernel;
      SameOrderSameKernel(Snap(), kernel, truekernel);
      SameOrderSameKernel(Snap(), kernel, falsekernel);
      SameOrderSameKernel(Snap(), truekernel, falsekernel);
      var order := (k: KernelId) requires k < |table.orders| reads this => table.orders[k];
      if order(kernel).Before(order(truekernel)) {
        if order(kernel).Before(order(falsekernel)) {
          t1, t0 := NoSplit(kernel, t);
          f1, f0 := NoSplit(kernel, f);
          root := kernel;
        } else if kernel == falsekernel {
          t1, t0 := NoSplit(kernel, t);
          f1, f0 := Split(f);
          root := kernel;
        } else {
          t1, t0 := NoSplit(falsekernel, t);
          f1, f0 := Split(f);
          root := falsekernel;
        }
      } else if kernel == truekernel {
        if order(kernel).Before(order(falsekernel)) {
          t1, t0 := Split(t);
          f1, f0 := NoSplit(kernel, f);
          root := kernel;
        } else if kernel == falsekernel {
          t1, t0 := Split(t);
          f1, f0 := Split(f);
          root := kernel;
        } else {
          t1, t0 := NoSplit(falsekernel, t);
          f1, f0 := Split(f);
          root := falsekernel;
        }
      } else {
        root, t1, t0, f1, f0 := SplitBelowTrue(kernel, t, f);
      }
    }

    /** The branches when the root of the true branch comes before the kernel. */
    method SplitBelowTrue(kernel: KernelId, t: NodeId, f: NodeId)
      returns (root: KernelId, t1: NodeId, t0: NodeId, f1: NodeId, f0: NodeId)
      requires Valid() && 2 <= kernel < |table.kernels| && 2 <= t < |nodes| && f < |nodes|
      requires nodes[t].kernel < |table.orders| && table.orders[nodes[t].kernel].Before(table.orders[kernel])
      ensures 2 <= root < |table.kernels|
      ensures root == kernel || table.orders[root].Before(table.orders[kernel])
      ensures Cofactors(Snap(), t, root, t1, t0) && Cofactors(Snap(), f, root, f1, f0)
      ensures root == kernel || root in Kernels(trees[t]) || root in Kernels(trees[f])
      ensures root != kernel ==> Size(trees[t1]) + Size(trees[f1]) < Size(trees[t]) + Size(trees[f])
      ensures root != kernel ==> Size(trees[t0]) + Size(trees[f0]) < Size(trees[t]) + Size(trees[f])
    {
      RootKernel(Snap(), t);
      RootKernel(Snap(), f);
      InnerKernelOrder(Snap(), kernel);
      var truekernel, falsekernel := nodes[t].kernel, nodes[f].kernel;
      SameOrderSameKernel(Snap(), kernel, falsekernel);
      SameOrderSameKernel(Snap(), truekernel, falsekernel);
      var order := (k: KernelId) requires k < |table.orders| reads this => table.orders[k];
      if order(kernel).Before(order(falsekernel)) || kernel == falsekernel || order(truekernel).Before(order(falsekernel)) {
        t1, t0 := Split(t);
        f1, f0 := NoSplit(truekernel, f);
        root := truekernel;
      } else if truekernel == falsekernel {
        t1, t0 := Split(t);
        f1, f0 := Split(f);
        root := truekernel;
      } else {
        t1, t0 := NoSplit(falsekernel, t);
        f1, f0 := Split(f);
        root := falsekernel;
      }
    }

    /** The branches of a node for its own kernel. */
    method Split(n: NodeId) returns (n1: NodeId, n0: NodeId)
      requires Valid() && 2 <= n < |nodes|
      ensures Cofactors(Snap(), n, nodes[n].kernel, n1, n0) && nodes[n].kernel in Kernels(trees[n])
      ensures Size(trees[n1]) < Size(trees[n]) && Size(trees[n0]) < Size(trees[n])
    {
      InnerNode(Snap(), n);
      RootCofactors(Snap(), n);
      return nodes[n].truebranch, nodes[n].falsebranch;
    }

    /** A node that lies below the kernel stays as it is. */
    method NoSplit(kernel: KernelId, n: NodeId) returns (n1: NodeId, n0: NodeId)
      requires Valid() && 2 <= kernel < |table.kernels| && n < |nodes|
      requires n >= 2 ==> nodes[n].kernel < |table.orders| && table.orders[kernel].Before(table.orders[nodes[n].kernel])
      ensures Cofactors(Snap(), n, kernel, n1, n0) && n1 == n0 == n
    {
      LowerCofactors(Snap(), kernel, n);
      return n, n;
    }
  
    // ---------- moving kernels ----------

    method ClearDynamicTables()
      requires Valid() && Snap().Sorted()
      modifies this`memo
      ensures Valid() && Snap().Sorted() && memo == NOTHING_REMEMBERED
    {
      ForgottenOk(Snap());
      memo := NOTHING_REMEMBERED;
    }

    /** The kernel of the same category directly above the given one. */
    method KernelAbove(kernel: KernelId) returns (above: Option<KernelId>)
      requires Valid() && kernel < |table.kernels|
      ensures above == AboveOf(table, kernel)
    {
      if table.orders[kernel].category.TRUEFALSECATEGORY? {
        return None;
      }
      var o := AboveOrder(table.orders[kernel]);
      return if o in table.place then Some(table.place[o]) else None;
    }

    /** The kernel of the same category directly below the given one. */
    method KernelBelow(kernel: KernelId) returns (below: Option<KernelId>)
      requires Valid() && kernel < |table.kernels|
      ensures below == BelowOf(table, kernel)
    {
      if table.orders[kernel].category.TRUEFALSECATEGORY? {
        return None;
      }
      if table.orders[kernel].number == 0 {
        return None;
      }
      var o := BelowOrder(table.orders[kernel]);
      return if o in table.place then Some(table.place[o]) else None;
    }

    method MoveUp(kernel: KernelId)
      requires Valid() && Snap().Sorted() && kernel < |table.kernels|
      modifies this
      ensures MovedState(old(Snap()), Snap(), AboveOf(old(table), kernel), Some(kernel))
    {
      ClearDynamicTables();
      var kernelabove := KernelAbove(kernel);
      if kernelabove == None {
        return;
      }
      AboveBelow(table, kernel);
      ghost var s := Snap();
      MoveDown(kernelabove.value);
      MovedAnyway(old(Snap()), s, Snap(), kernelabove, Some(kernel));
    }

    method MoveDown(kernel: KernelId)
      requires Valid() && Snap().Sorted() && kernel < |table.kernels|
      modifies this
      ensures MovedState(old(Snap()), Snap(), Some(kernel), BelowOf(old(table), kernel))
    {
      ClearDynamicTables();
      var below := KernelBelow(kernel);
      if below == None {
        return;
      }
      var nextkernel := below.value;
      AboveBelow(table, kernel);
      Exchange(kernel, below.value);
    }

    /** Exchanges two neighbours: turns nodes, erases their old entries, swaps the numbers. */
    method Exchange(kernel: KernelId, nextkernel: KernelId)
      requires Valid() && Snap().Sorted() && kernel < |table.kernels| && nextkernel < |table.kernels|
      requires Neighbours(table.orders, kernel, nextkernel) && memo == NOTHING_REMEMBERED
      modifies this
      ensures ExchangedState(old(Snap()), Snap(), kernel, nextkernel)
    {
      ghost var m := Move(Snap(), kernel, nextkernel);
      ghost var done;
      var entries;
      done, entries := TurnAll(m, kernel, nextkernel);
      ghost var unique := bddtable;
      Erase(entries);
      m.MoveFinished(done, nodes, unique);
      trees := m.TreesAfter(done, nodes, unique);
      var o := table.orders;
      table := table.(orders := o[kernel := o[nextkernel]][nextkernel := o[kernel]],
                      place := table.place[o[kernel] := nextkernel][o[nextkernel] := kernel]);
    }

    method TurnAll(ghost m: Move, kernel: KernelId, nextkernel: KernelId) returns (ghost done: set<NodeId>, erase: seq<BddKey>)
      requires m.Ok() && m.upper == kernel && m.lower == nextkernel && nodes == m.before.graph.nodes && bddtable == m.before.unique
      modifies this`nodes, this`bddtable
      ensures m.Finished(done, nodes, bddtable) && Elements(erase) == m.StaleKeys(done)
    {
      m.Start();
      done, erase := {}, [];
      // entries made by the loop itself put the kernel over lower nodes, so they need no visit
      var todo := set key | key in bddtable && key.0 == kernel;
      while todo != {}
        invariant m.Inv(done, nodes, bddtable) && m.Visits(done, todo)
        invariant Elements(erase) == m.StaleKeys(done)
        decreases todo
      {
        var key :| key in todo;
        ghost var bdd := m.before.unique[key];
        var turned := VisitEntry(m, done, kernel, nextkernel, todo, key);
        todo := todo - {key};
        if turned {
          ElementsGrow(erase, key);
          erase := erase + [key];
          m.StaleKeysGrow(done, bdd);
          done := done + {bdd};
        }
      }
    }

    method VisitEntry(ghost m: Move, ghost done: set<NodeId>, kernel: KernelId, nextkernel: KernelId,
                      ghost todo: set<BddKey>, key: BddKey) returns (turned: bool)
      requires m.Ok() && m.upper == kernel && m.lower == nextkernel
      requires m.Inv(done, nodes, bddtable) && m.Visits(done, todo) && key in todo
      modifies this`nodes, this`bddtable
      ensures key in m.before.unique && m.Old(m.before.unique[key])
      ensures KeyOf(m.before.graph.nodes[m.before.unique[key]]) == key
      ensures var done' := if turned then done + {m.before.unique[key]} else done;
        m.Inv(done', nodes, bddtable) && m.Visits(done', todo - {key})
    {
      m.Visit(done, nodes, bddtable, todo, key);
      var bdd, falsebranch, truebranch := bddtable[key], key.1, key.2;
      turned := nextkernel == nodes[falsebranch].kernel || nextkernel == nodes[truebranch].kernel;
      if turned {
        TurnNode(m, done, kernel, nextkernel, bdd, falsebranch, truebranch);
      }
    }

    method Erase(entries: seq<BddKey>)
      modifies this`bddtable
      ensures bddtable == old(bddtable) - Elements(entries)
    {
      for n := 0 to |entries|
        invariant bddtable == old(bddtable) - Elements(entries[..n])
      {
        bddtable := bddtable - {entries[n]};
        assert entries[..n + 1] == entries[..n] + [entries[n]];
      }
      assert entries[..|entries|] == entries;
    }

    /** Turns one node around: afterwards it tests the lower kernel first. */
    method TurnNode(ghost m: Move, ghost done: set<NodeId>, kernel: KernelId, nextkernel: KernelId,
                    bdd: NodeId, falsebranch: NodeId, truebranch: NodeId)
      requires m.Ok() && m.upper == kernel && m.lower == nextkernel
      requires m.Inv(done, nodes, bddtable) && m.Turns(bdd) && bdd !in done
      requires m.before.graph.nodes[bdd] == FOBDD(kernel, truebranch, falsebranch)
      requires m.Old(falsebranch) && m.Old(truebranch)
      requires nodes[falsebranch] == m.before.graph.nodes[falsebranch] && nodes[truebranch] == m.before.graph.nodes[truebranch]
      modifies this`nodes, this`bddtable
      ensures m.Inv(done + {bdd}, nodes, bddtable)
    {
      m.UpperBranch(bdd, truebranch);
      m.UpperBranch(bdd, falsebranch);
      var swapfalse := nextkernel == nodes[falsebranch].kernel;
      var swaptrue := nextkernel == nodes[truebranch].kernel;
      ghost var t1, t0 := m.Part(truebranch, true), m.Part(truebranch, false);
      ghost var f1, f0 := m.Part(falsebranch, true), m.Part(falsebranch, false);
      var newfalse, newtrue;
      m.GetNodeKeepsInv(done, nodes, bddtable, t0, f0);
      if swapfalse && swaptrue {
        newfalse := MakeNode(kernel, nodes[truebranch].falsebranch, nodes[falsebranch].falsebranch);
        m.GetNodeKeepsInv(done, nodes, bddtable, t1, f1);
        newtrue := MakeNode(kernel, nodes[truebranch].truebranch, nodes[falsebranch].truebranch);
      } else if swapfalse {
        newfalse := MakeNode(kernel, truebranch, nodes[falsebranch].falsebranch);
        m.GetNodeKeepsInv(done, nodes, bddtable, t1, f1);
        newtrue := MakeNode(kernel, truebranch, nodes[falsebranch].truebranch);
      } else {
        newfalse := MakeNode(kernel, nodes[truebranch].falsebranch, falsebranch);
        m.GetNodeKeepsInv(done, nodes, bddtable, t1, f1);
        newtrue := MakeNode(kernel, nodes[truebranch].truebranch, falsebranch);
      }
      m.TurnKeepsInv(done, nodes, bddtable, bdd, newtrue, newfalse);
      nodes := nodes[bdd := FOBDD(nextkernel, newtrue, newfalse)];
      bddtable := bddtable[(nextkernel, newfalse, newtrue) := bdd];
    }

    // ---------- optimising the order for a query ----------

    method ToTop(ghost s: State, kernel: KernelId)
      requires s.Ok() && Sifted(s, Snap(), kernel) && 2 <= kernel < |table.kernels|
      modifies this
      ensures Sifted(s, Snap(), kernel) && kernel < |table.kernels|
      ensures table.orders[kernel].category in table.next
      ensures table.orders[kernel].number + 1 == table.next[table.orders[kernel].category]
    {
      EndsOfCategory(table, kernel);
      var above := KernelAbove(kernel);
      while above != None
        invariant Sifted(s, Snap(), kernel) && 2 <= kernel < |table.kernels| && above == AboveOf(table, kernel)
        invariant table.orders[kernel].category in table.next
        decreases table.next[table.orders[kernel].category] - table.orders[kernel].number
      {
        ghost var before := Snap();
        AboveBelow(table, kernel);
        EndsOfCategory(table, kernel);
        MoveUp(kernel);
        SiftStep(s, before, Snap(), kernel, above.value, kernel);
        above := KernelAbove(kernel);
      }
      EndsOfCategory(table, kernel);
    }

    /** One step down, and the score it gives. */
    method StepDown(ghost s: State, query: NodeId, kernel: KernelId, below: KernelId, estimate: CostEstimate,
                    ghost cost: Cost, ghost costs: nat -> real)
      returns (score: real)
      requires s.Ok() && Sifted(s, Snap(), kernel) && kernel < |table.kernels| && query < |s.graph.trees|
      requires Estimates(estimate, cost) && CostsOf(costs, s, cost, query, kernel) && BelowOf(table, kernel) == Some(below)
      modifies this
      ensures Sifted(s, Snap(), kernel) && table.orders[kernel].number == old(table.orders[kernel].number) - 1
      ensures score == costs(table.orders[kernel].number)
    {
      ghost var before := Snap();
      AboveBelow(table, kernel);
      MoveDown(kernel);
      SiftStep(s, before, Snap(), kernel, kernel, below);
      EstimateIsCostAt(s, Snap(), estimate, cost, query, kernel);
      score := estimate(nodes, table, query);
    }

    /** One step down, after which the best place is the first of the cheapest ones seen. */
    method ScoreBelow(ghost s: State, query: NodeId, kernel: KernelId, below: KernelId, estimate: CostEstimate, ghost cost: Cost,
                      ghost costs: nat -> real, score: real, position: int, ghost place: nat, ghost top: nat)
      returns (bestscore: real, bestposition: int, ghost best: nat)
      requires s.Ok() && Sifted(s, Snap(), kernel) && 2 <= kernel < |table.kernels| && query < |s.graph.trees|
      requires Estimates(estimate, cost) && CostsOf(costs, s, cost, query, kernel) && BelowOf(table, kernel) == Some(below)
      requires FirstCheapest(costs, place, table.orders[kernel].number, top) && score == costs(place)
      requires place == table.orders[kernel].number - position && position <= 0
      modifies this
      ensures Sifted(s, Snap(), kernel) && table.orders[kernel].number == old(table.orders[kernel].number) - 1
      ensures FirstCheapest(costs, best, table.orders[kernel].number, top) && bestscore == costs(best)
      ensures best == table.orders[kernel].number - bestposition && bestposition <= 0
    {
      EndsOfCategory(table, kernel);
      FirstCheapestStep(costs, place, table.orders[kernel].number, top);
      var currscore := StepDown(s, query, kernel, below, estimate, cost, costs);
      if currscore < score {
        bestscore, bestposition, best := currscore, 0, table.orders[kernel].number;
      } else {
        bestscore, bestposition, best := score, position - 1, place;
      }
    }

    /** From the top to the bottom; the result says how many steps up the best place lies. */
    method Descend(ghost s: State, query: NodeId, kernel: KernelId, estimate: CostEstimate,
                   ghost cost: Cost, ghost costs: nat -> real)
      returns (bestposition: int, ghost best: nat)
      requires s.Ok() && Sifted(s, Snap(), kernel) && 2 <= kernel < |table.kernels| && query < |s.graph.trees|
      requires Estimates(estimate, cost) && CostsOf(costs, s, cost, query, kernel)
      modifies this
      ensures Sifted(s, Snap(), kernel) && best == -bestposition && table.orders[kernel].number == 0
      ensures table.next == old(table.next) && table.orders[kernel].category == old(table.orders[kernel].category)
      ensures best <= old(table.orders[kernel].number) && FirstCheapest(costs, best, 0, old(table.orders[kernel].number))
    {
      ghost var start := Snap();
      EstimateIsCostAt(s, Snap(), estimate, cost, query, kernel);
      var bestscore := estimate(nodes, table, query);
      bestposition := 0;
      ghost var number, top := table.orders[kernel].number, table.orders[kernel].number;
      best := number;
      var below := KernelBelow(kernel);
      while below != None
        invariant Sifted(s, Snap(), kernel) && kernel < |table.kernels| && below == BelowOf(table, kernel)
        invariant number == table.orders[kernel].number && best == number - bestposition && bestposition <= 0
        invariant FirstCheapest(costs, best, number, top) && bestscore == costs(best)
        decreases number
      {
        EndsOfCategory(table, kernel);
        bestscore, bestposition, best :=
          ScoreBelow(s, query, kernel, below.value, estimate, cost, costs, bestscore, bestposition, best, top);
        number := number - 1;
        below := KernelBelow(kernel);
      }
      EndsOfCategory(table, kernel);
      SameCategory(s, start, Snap(), kernel);
    }

    /** One round: the kernel goes to the top, then down through its category, then up to the best place seen. */
    method SiftKernel(query: NodeId, kernel: KernelId, estimate: CostEstimate, ghost cost: Cost, ghost costs: nat -> real)
      requires Valid() && Snap().Sorted() && 2 <= kernel < |table.kernels| && query < |nodes|
      requires Estimates(estimate, cost) && CostsOf(costs, Snap(), cost, query, kernel)
      modifies this
      ensures Sifted(old(Snap()), Snap(), kernel)
      ensures table.orders[kernel].category in table.next && table.next[table.orders[kernel].category] > 0
      ensures FirstCheapest(costs, table.orders[kernel].number, 0, table.next[table.orders[kernel].category] - 1)
    {
      ghost var s := Snap();
      SiftStart(s, kernel);
      ToTop(s, kernel);
      ghost var best := FromTop(s, query, kernel, estimate, cost, costs);
    }

    /** Down from the top and up again to the best place seen. */
    method FromTop(ghost s: State, query: NodeId, kernel: KernelId, estimate: CostEstimate, ghost cost: Cost, ghost costs: nat -> real)
      returns (ghost best: nat)
      requires s.Ok() && Sifted(s, Snap(), kernel) && 2 <= kernel < |table.kernels| && query < |s.graph.trees|
      requires Estimates(estimate, cost) && CostsOf(costs, s, cost, query, kernel)
      requires table.orders[kernel].category in table.next
      requires table.orders[kernel].number < table.next[table.orders[kernel].category]
      modifies this
      ensures Sifted(s, Snap(), kernel)
      ensures table.next == old(table.next) && table.orders[kernel].category == old(table.orders[kernel].category)
      ensures best == table.orders[kernel].number && FirstCheapest(costs, best, 0, old(table.orders[kernel].number))
    {
      var bestposition;
      bestposition, best := Descend(s, query, kernel, estimate, cost, costs);
      Raise(s, kernel, -bestposition);
    }

    method Raise(ghost s: State, kernel: KernelId, steps: nat)
      requires s.Ok() && Sifted(s, Snap(), kernel) && 2 <= kernel < |table.kernels|
      requires table.orders[kernel].category in table.next
      requires table.orders[kernel].number + steps < table.next[table.orders[kernel].category]
      modifies this
      ensures Sifted(s, Snap(), kernel) && table.orders[kernel].number == old(table.orders[kernel].number) + steps
      ensures table.next == old(table.next) && table.orders[kernel].category == old(table.orders[kernel].category)
    {
      for n := 0 to steps
        invariant Sifted(s, Snap(), kernel) && 2 <= kernel < |table.kernels|
        invariant table.orders[kernel].number == old(table.orders[kernel].number) + n
        invariant table.next == old(table.next) && table.orders[kernel].category == old(table.orders[kernel].category)
      {
        ghost var before := Snap();
        EndsOfCategory(table, kernel);
        AboveBelow(table, kernel);
        ghost var above := AboveOf(table, kernel);
        MoveUp(kernel);
        SiftStep(s, before, Snap(), kernel, above.value, kernel);
      }
    }

    /** All kernels of a node, those nested under quantifiers included. */
    function AllKernels(ghost bound: nat, n: NodeId): (r: set<KernelId>)
      requires Valid() && n < |nodes| && bound <= |table.kernels| && Within(trees[n], bound)
      reads this
      ensures forall j :: j in r <==> Mentions(Snap().World(), bound, trees[n], j)
      decreases bound, trees[n]
    {
      if n < 2 then {}
      else
        InnerNode(Snap(), n);
        var k := nodes[n].kernel;
        assert k in Kernels(trees[n]);
        assert table.kernels[k].QuantKernel? ==> Snap().World().NestedAt(k);
        AllKernels(bound, nodes[n].falsebranch) + AllKernels(bound, nodes[n].truebranch) + {k} +
        if table.kernels[k].QuantKernel? then AllKernels(k, table.kernels[k].bdd) else {}
    }

    /** A round for every kernel of the query. */
    method OptimizeQuery(query: NodeId, estimate: CostEstimate, ghost cost: Cost)
      returns (ghost states: seq<State>, ghost rounds: seq<KernelId>)
      requires Valid() && Snap().Sorted() && query < |nodes| && Estimates(estimate, cost)
      modifies this
      ensures Valid() && Snap().Sorted() && SameMeaning(old(Snap()), Snap())
      ensures estimate(nodes, table, query) <= estimate(old(nodes), old(table), query)
      ensures Rounds(old(Snap()), Snap(), cost, query, states, rounds)
      ensures forall i, j :: 0 <= i < j < |rounds| ==> rounds[i] != rounds[j]
      ensures forall k :: k in rounds <==> Mentions(old(Snap()).World(), |old(table.kernels)|, old(trees[query]), k)
    {
      states, rounds := [Snap()], [];
      if query == TRUEBDD || query == FALSEBDD {
        return;
      }
      ghost var s := Snap();
      TreeWithin(s, query);
      var kernels := AllKernels(|table.kernels|, query);
      var todo := kernels;
      while todo != {}
        invariant Valid() && Snap().Sorted() && SameMeaning(s, Snap())
        invariant estimate(nodes, table, query) <= estimate(s.graph.nodes, s.table, query)
        invariant Rounds(s, Snap(), cost, query, states, rounds)
        invariant Lists(rounds, kernels - todo) && todo <= kernels
        decreases todo
      {
        var kernel :| kernel in todo;
        MentionedKernels(s, |s.table.kernels|, query, kernel);
        ghost var before := Snap();
        OptimizeKernel(s, query, kernel, estimate, cost);
        RoundsStep(s, before, Snap(), cost, query, states, rounds, kernel);
        ListsGrow(rounds, kernels, todo, kernel);
        states, rounds := states + [Snap()], rounds + [kernel];
        todo := todo - {kernel};
      }
    }

    method OptimizeKernel(ghost s: State, query: NodeId, kernel: KernelId, estimate: CostEstimate, ghost cost: Cost)
      requires Valid() && Snap().Sorted() && 2 <= kernel < |table.kernels| && query < |nodes| && Estimates(estimate, cost)
      requires SameMeaning(s, Snap())
      modifies this
      ensures Valid() && Snap().Sorted() && Round(old(Snap()), Snap(), cost, query, kernel) && SameMeaning(s, Snap())
      ensures estimate(nodes, table, query) <= estimate(old(nodes), old(table), query)
    {
      ghost var before := Snap();
      SiftKernel(query, kernel, estimate, cost, (n: nat) => CostAt(before, cost, query, kernel, n));
      RoundNotDearer(before, Snap(), estimate, cost, query, kernel);
      SameMeaningTransitive(s, before, Snap());
    }

    // ---------- kernels ----------

    /** Does the node contain De Bruijn index i?  Nested diagrams mention kernels below the bound only. */
    function NodeContains(ghost bound: nat, n: NodeId, i: nat): (r: bool)
      requires Valid() && n < |nodes| && bound <= |table.kernels| && Within(trees[n], bound)
      reads this
      ensures r == Snap().World().TreeContains(bound, trees[n], i)
      decreases bound, 0, trees[n]
    {
      if n < 2 then false
      else
        InnerNode(Snap(), n);
        assert nodes[n].kernel in Kernels(trees[n]);
        if KernelContainsIndex(nodes[n].kernel, i) then true
        else if NodeContains(bound, nodes[n].falsebranch, i) then true
        else NodeContains(bound, nodes[n].truebranch, i)
    }

    function KernelContainsIndex(k: KernelId, i: nat): (r: bool)
      requires Valid() && k < |table.kernels|
      reads this
      ensures r == Snap().World().KernelContains(k, i)
      decreases k, 1
    {
      match table.kernels[k]
      case AtomKernel(_, _, args) => ArgsContainIndex(args, i)
      case QuantKernel(_, b) =>
        assert Snap().World().NestedAt(k);
        NodeContains(k, b, i + 1)
      case _ => false
    }

    method AddKernel(kernel: Kernel, category: KernelOrderCategory) returns (k: KernelId)
      requires category in table.next
      modifies this`table
      ensures table == TableWithKernel(old(table), kernel, category) && k == |old(table.kernels)|
    {
      k := |table.kernels|;
      table := TableWithKernel(table, kernel, category);
    }

    /** The kernel of an atom; an equation of a term with itself is true. */
    method GetAtomKernel(symbol: PFSymbol, akt: AtomKernelType, args: seq<Term>) returns (k: KernelId)
      requires Valid() && ProperAtom(symbol, akt, args)
      modifies this`table
      ensures Valid() && Grows(old(Snap()), Snap()) && k < |table.kernels|
      ensures Snap().Sorted() <==> old(Snap()).Sorted()
      ensures if symbol.EqualityPredicate? && args[0] == args[1] then k == TRUEKERNEL
              else table.kernels[k] == AtomKernel(symbol, akt, args)
      ensures if SelfEquation(symbol, args) || (symbol, akt, args) in old(table.atoms) then table == old(table)
              else k == |old(table.kernels)| && table.atoms == old(table.atoms)[(symbol, akt, args) := k]
      ensures PushedIn(old(Snap()), Snap())
    {
      if symbol.EqualityPredicate? && args[0] == args[1] {
        return TRUEKERNEL;
      }
      if (symbol, akt, args) in table.atoms {
        return table.atoms[(symbol, akt, args)];
      }
      var category := if ArgsContainIndex(args, 0) then DEBRUIJNCATEGORY else STANDARDCATEGORY;
      StateWithKernel(Snap(), AtomKernel(symbol, akt, args), category);
      k := AddKernel(AtomKernel(symbol, akt, args), category);
    }

    /** The kernel of a quantified diagram. */
    method GetQuantKernel(sort: Sort, bdd: NodeId) returns (k: KernelId)
      requires Valid() && bdd < |nodes| && Ordered(table.orders, trees[bdd])
      modifies this`table
      ensures Valid() && Grows(old(Snap()), Snap()) && k < |table.kernels|
      ensures Snap().Sorted() <==> old(Snap()).Sorted()
      ensures if bdd == TRUEBDD then k == TRUEKERNEL else if bdd == FALSEBDD then k == FALSEKERNEL
              else table.kernels[k] == QuantKernel(sort, bdd)
      ensures table.atoms == old(table.atoms)
      ensures |old(table.kernels)| < |table.kernels| ==> k == |old(table.kernels)| && |table.kernels| == k + 1
    {
      if bdd == TRUEBDD {
        return TRUEKERNEL;
      }
      if bdd == FALSEBDD {
        return FALSEKERNEL;
      }
      if (sort, bdd) in table.quants {
        return table.quants[(sort, bdd)];
      }
      TreeWithin(Snap(), bdd);
      // index 0 of the diagram is bound by the quantifier, so index 1 decides
      var category := if NodeContains(|table.kernels|, bdd, 1) then DEBRUIJNCATEGORY else STANDARDCATEGORY;
      StateWithKernel(Snap(), QuantKernel(sort, bdd), category);
      k := AddKernel(QuantKernel(sort, bdd), category);
    }

    // ---------- quantification ----------

    /** Binds index 0 of a diagram. */
    method Quantify(sort: Sort, bdd: NodeId) returns (r: NodeId)
      requires Valid() && bdd < |nodes| && Ordered(table.orders, trees[bdd])
      modifies this
      ensures Valid() && Quantified(old(Snap()), Snap(), sort, bdd, r) && PushedIn(old(Snap()), Snap())
      decreases trees[bdd], 3
    {
      hide PushedIn;
      if bdd == FALSEBDD {
        QuantifiedSame(Snap(), sort, bdd);
        PushedInSame(Snap(), Snap());
        return bdd;
      }
      TreeWithin(Snap(), bdd);
      if bdd == TRUEBDD || !NodeContains(|table.kernels|, bdd, 0) {
        r := QuantifyVacuous(sort, bdd);
        return;
      }
      if (sort, bdd) in memo.quant {
        QuantLookedUp(Snap(), sort, bdd);
        PushedInSame(Snap(), Snap());
        return memo.quant[(sort, bdd)];
      }
      r := QuantifyInner(sort, bdd);
    }

    /** Nothing is bound, but an empty sort has no element at all. */
    method QuantifyVacuous(sort: Sort, bdd: NodeId) returns (r: NodeId)
      requires Valid() && bdd < |nodes| && bdd != FALSEBDD && !Snap().World().TreeContains(|table.kernels|, trees[bdd], 0)
      modifies this
      ensures Valid() && Quantified(old(Snap()), Snap(), sort, bdd, r) && PushedIn(old(Snap()), Snap())
      ensures sort.builtin ==> (Snap().Sorted() <==> old(Snap()).Sorted())
      ensures !sort.builtin ==> SortKernel(Snap(), sort).Some?
      ensures !sort.builtin ==> (Snap().Sorted() <==>
                old(Snap()).Sorted() && Above(table.orders, SortKernel(Snap(), sort).value, trees[bdd]))
      ensures EmptyBuiltin(sort) ==> IsNegation(trees[r], trees[bdd])
    {
      hide PushedIn;
      ghost var s := Snap();
      if sort.builtin {
        if sort.empty {
          r := Negation(bdd);
          PushedInSame(s, Snap());
          return;
        }
        QuantifiedSame(s, sort, bdd);
        PushedInSame(s, s);
        return bdd;
      }
      var sortNotEmpty := SortNotEmpty(sort);
      ghost var s1 := Snap();
      r := GetBDD(sortNotEmpty, bdd, FALSEBDD);
      SortKernelStays(s1, Snap(), sort);
      PushedInExtends(s, s1, Snap());
      QuantifiedUser(s, s1, Snap(), sort, bdd, sortNotEmpty, r);
    }

    /** The diagram that is true when the kernel is. */
    method KernelBDD(kernel: KernelId) returns (r: NodeId)
      requires Valid() && 2 <= kernel < |table.kernels|
      modifies this`nodes, this`bddtable, this`trees
      ensures Valid() && Extends(old(Snap()), Snap()) && 2 <= r < |nodes|
      ensures trees[r] == Branch(kernel, Leaf(true), Leaf(false)) && Ordered(table.orders, trees[r])
      ensures Snap().Sorted() <==> old(Snap()).Sorted()
    {
      r := GetBDD(kernel, TRUEBDD, FALSEBDD);
    }

    /** The diagram "index 0 is in the sort". */
    method InSort(sort: Sort) returns (inSort: NodeId, ghost atom: KernelId)
      requires Valid()
      modifies this
      ensures Valid() && Grows(old(Snap()), Snap()) && 2 <= atom < |table.kernels| && 2 <= inSort < |nodes|
      ensures table.kernels[atom] == AtomKernel(SortPredicate(sort), AKT_TWOVALUED, [IndexTerm(sort, 0)])
      ensures trees[inSort] == Branch(atom, Leaf(true), Leaf(false)) && Ordered(table.orders, trees[inSort])
      ensures Snap().Sorted() <==> old(Snap()).Sorted()
      ensures table.atoms.Keys <= old(table.atoms.Keys) + {SortAtom(sort)}
      ensures PushedIn(old(Snap()), Snap())
    {
      hide PushedIn;
      ghost var s := Snap();
      var kernel := GetAtomKernel(SortPredicate(sort), AKT_TWOVALUED, [IndexTerm(sort, 0)]);
      ghost var s1 := Snap();
      inSort := KernelBDD(kernel);
      GrowsTransitive(s, s1, Snap());
      PushedInExtends(s, s1, Snap());
      atom := kernel;
    }

    /** The kernel "some element is in the sort". */
    method SortNotEmpty(sort: Sort) returns (q: KernelId)
      requires Valid()
      modifies this
      ensures Valid() && Grows(old(Snap()), Snap()) && SortKernel(Snap(), sort) == Some(q) && 2 <= q < |table.kernels|
      ensures Snap().Sorted() <==> old(Snap()).Sorted()
      ensures table.atoms.Keys <= old(table.atoms.Keys) + {SortAtom(sort)}
      ensures PushedIn(old(Snap()), Snap())
    {
      hide PushedIn, SortKernel;
      ghost var s := Snap();
      var inSort;
      ghost var atom;
      inSort, atom := InSort(sort);
      ghost var s1 := Snap();
      q := GetQuantKernel(sort, inSort);
      GrowsTransitive(s, s1, Snap());
      SortAtomContains(s1, atom, sort);
      PushedInOne(s1, Snap(), inSort, q);
      PushedInTransitive(s, s1, Snap());
      SortKernelIs(Snap(), sort, atom, inSort, q);
    }

    method QuantifyInner(sort: Sort, bdd: NodeId) returns (r: NodeId)
      requires Valid() && 2 <= bdd < |nodes| && Ordered(table.orders, trees[bdd])
      modifies this
      ensures Valid() && Quantified(old(Snap()), Snap(), sort, bdd, r) && PushedIn(old(Snap()), Snap())
      decreases trees[bdd], 2
    {
      hide PushedIn;
      ghost var s := Snap();
      r := QuantifyRoot(sort, bdd);
      ghost var s1 := Snap();
      QuantRemembered(s, s1, sort, bdd, r);
      memo := memo.(quant := memo.quant[(sort, bdd) := r]);
      PushedInRemembered(s, s1, Snap());
    }

    method QuantifyRoot(sort: Sort, bdd: NodeId) returns (r: NodeId)
      requires Valid() && 2 <= bdd < |nodes| && Ordered(table.orders, trees[bdd])
      modifies this
      ensures Valid() && Quantified(old(Snap()), Snap(), sort, bdd, r) && PushedIn(old(Snap()), Snap())
      decreases trees[bdd], 1
    {
      hide PushedIn;
      ghost var s := Snap();
      InnerNode(s, bdd);
      if table.orders[nodes[bdd].kernel].category.STANDARDCATEGORY? {
        r := QuantifyBranches(sort, bdd);
      } else {
        NotStandard(s, bdd);
        var quantkernel := GetQuantKernel(sort, bdd);
        ghost var s1 := Snap();
        PushedInOne(s, s1, bdd, quantkernel);
        r := KernelBDD(quantkernel);
        PushedInExtends(s, s1, Snap());
        QuantifiedUnder(s, s1, Snap(), sort, bdd, quantkernel, r);
      }
    }

    /** The kernel does not contain index 0, so it is pulled out of the quantifier. */
    method QuantifyBranches(sort: Sort, bdd: NodeId) returns (r: NodeId)
      requires Valid() && 2 <= bdd < |nodes| && nodes[bdd].kernel < |table.orders| && Ordered(table.orders, trees[bdd])
      requires table.orders[nodes[bdd].kernel].category.STANDARDCATEGORY?
      modifies this
      ensures Valid() && Quantified(old(Snap()), Snap(), sort, bdd, r) && PushedIn(old(Snap()), Snap())
      decreases trees[bdd], 0
    {
      hide PushedIn, IsQuantification, SortKernelFirst, IsIfThenElse;
      ghost var s := Snap();
      InnerNode(s, bdd);
      var kernel := nodes[bdd].kernel;
      var newfalse := Quantify(sort, nodes[bdd].falsebranch);
      ghost var s1 := Snap();
      NodeOrderedLater(s, s1.table.orders, nodes[bdd].truebranch);
      var newtrue := Quantify(sort, nodes[bdd].truebranch);
      ghost var s2 := Snap();
      r := IfThenElse(kernel, newtrue, newfalse);
      QuantifiedPulled(s, s1, s2, Snap(), sort, bdd, newfalse, newtrue, r);
      PushedInTransitive(s, s1, s2);
      PushedInExtends(s, s2, Snap());
    }

    // ---------- rebuilding a diagram ----------

    /** Rebuilds a diagram with changed terms; if-then-else puts every changed kernel in its place. */
    method Change(v: Visitor, bdd: NodeId, ghost bound: nat) returns (r: NodeId)
      requires Valid() && bdd < |nodes| && bound <= |table.kernels| && Within(trees[bdd], bound)
      modifies this
      ensures Valid() && Changed(old(Snap()), Snap(), v, bound, bdd, r)
      ensures Snap().Sorted() <==> old(Snap()).Sorted()
      decreases bound, 0, trees[bdd]
    {
      ghost var s := Snap();
      if bdd == TRUEBDD || bdd == FALSEBDD {
        ChangedTerminal(s, v, bound, bdd);
        return bdd;
      }
      InnerNode(s, bdd);
      var kernel, truebranch, falsebranch := nodes[bdd].kernel, nodes[bdd].truebranch, nodes[bdd].falsebranch;
      assert kernel in Kernels(trees[bdd]);
      var nk := ChangeKernel(v, kernel);
      ghost var s1 := Snap();
      var nt := Change(v, truebranch, bound);
      ghost var s2 := Snap();
      var nf := Change(v, falsebranch, bound);
      ghost var s3 := Snap();
      NodeOrderedLater(s2, s3.table.orders, nt);
      r := IfThenElse(nk, nt, nf);
      ChangedNode(s, s1, s2, s3, Snap(), v, bound, bdd, nk, nt, nf, r);
    }

    method ChangeKernel(v: Visitor, kernel: KernelId) returns (r: KernelId)
      requires Valid() && 2 <= kernel < |table.kernels|
      modifies this
      ensures Valid() && KernelChanged(old(Snap()), Snap(), v, kernel, r)
      ensures Snap().Sorted() <==> old(Snap()).Sorted()
      decreases kernel, 1
    {
      ghost var s := Snap();
      assert table.Placed(kernel);
      match table.kernels[kernel]
      case AtomKernel(symbol, akt, args) =>
        var nargs := ChangeArgs(v, args);
        r := GetAtomKernel(symbol, akt, nargs);
      case QuantKernel(sort, bdd) =>
        assert s.World().NestedAt(kernel);
        var nbdd := Change(v.Under(), bdd, kernel);
        ghost var s1 := Snap();
        r := GetQuantKernel(sort, nbdd);
        ChangedQuant(s, s1, Snap(), v, kernel, nbdd, r);
    }

    /** Rebuilds a diagram for any change of its kernels. */
    method ChangeKernels(image: map<KernelId, KernelId>, bdd: NodeId) returns (r: NodeId)
      requires Valid() && bdd < |nodes| && Kernels(trees[bdd]) <= image.Keys && forall k :: k in image ==> image[k] < |table.kernels|
      modifies this`nodes, this`bddtable, this`trees, this`memo
      ensures Valid() && Extends(old(Snap()), Snap()) && r < |nodes|
      ensures MapsTo(ImageOf(image), trees[bdd], trees[r]) && Ordered(table.orders, trees[r])
      ensures Snap().Sorted() <==> old(Snap()).Sorted()
      decreases trees[bdd]
    {
      ghost var s := Snap();
      if bdd == TRUEBDD || bdd == FALSEBDD {
        TerminalMapped(ImageOf(image), bdd == TRUEBDD);
        return bdd;
      }
      InnerNode(s, bdd);
      var kernel, truebranch, falsebranch := nodes[bdd].kernel, nodes[bdd].truebranch, nodes[bdd].falsebranch;
      assert kernel in Kernels(trees[bdd]);
      var nt := ChangeKernels(image, truebranch);
      ghost var s1 := Snap();
      var nf := ChangeKernels(image, falsebranch);
      ghost var s2 := Snap();
      ExtendsTransitive(s, s1, s2);
      r := IfThenElse(image[kernel], nt, nf);
      ExtendsTransitive(s, s2, Snap());
      NodeMapped(ImageOf(image), kernel, trees[truebranch], trees[falsebranch], image[kernel], trees[nt], trees[nf], trees[r]);
    }

    /** Replaces variables by terms without indices: right wherever no diagram nested over an empty sort
        becomes true, and so everywhere when the terms it meets stay different. */
    method Substitute(bdd: NodeId, sub: map<Variable, Term>) returns (r: NodeId)
      requires Valid() && bdd < |nodes| && SubstituteTerms(sub).Ok()
      modifies this
      ensures Valid() && Changed(old(Snap()), Snap(), SubstituteTerms(sub), |old(table.kernels)|, bdd, r)
      ensures forall S: Structure :: Harmless(old(Snap()).World(), SubstituteTerms(sub), |old(table.kernels)|, Kernels(old(trees[bdd])), S) ==>
        MeansChanged(Snap().World(), SubstituteTerms(sub), old(trees[bdd]), trees[r], S)
      ensures KeepsApart(old(Snap()).World(), SubstituteTerms(sub), |old(table.kernels)|, Kernels(old(trees[bdd]))) ==>
        forall S: Structure :: MeansChanged(Snap().World(), SubstituteTerms(sub), old(trees[bdd]), trees[r], S)
      ensures Snap().Sorted() <==> old(Snap()).Sorted()
    {
      ghost var s, v := Snap(), SubstituteTerms(sub);
      TreeWithin(s, bdd);
      r := Change(SubstituteTerms(sub), bdd, |table.kernels|);
      OthersSuit(s.World(), v, |s.table.kernels|, Kernels(s.graph.trees[bdd]));
      SubstitutionMeans(s, Snap(), v, bdd, r);
    }

    method ChangeArgs(v: Visitor, args: seq<Term>) returns (nargs: seq<Term>)
      ensures nargs == v.ChangeArgs(args)
    {
      nargs := [];
      for n := 0 to |args|
        invariant nargs == v.ChangeArgs(args)[..n]
      {
        nargs := nargs + [v.ChangeTerm(args[n])];
      }
    }

    // ---------- copying from another manager ----------

    /** A copy of a diagram of another manager. */
    method CopyFrom(orig: FOBDDManager, bdd: NodeId) returns (r: NodeId)
      requires orig != this && orig.Valid() && Valid() && bdd < |orig.nodes|
      modifies this
      ensures Valid() && Copied(orig.Snap(), old(Snap()), Snap(), |orig.table.kernels|, bdd, r)
      ensures Snap().Sorted() <==> old(Snap()).Sorted()
      ensures forall S: Structure, e: Env :: Snap().World().Holds(trees[r], S, e) == orig.Snap().World().Holds(orig.trees[bdd], S, e)
    {
      ghost var s := Snap();
      TreeWithin(orig.Snap(), bdd);
      r := CopyNode(orig, bdd, |orig.table.kernels|);
      NodeCopied(orig.Snap(), s, Snap(), |orig.table.kernels|, bdd, r);
    }

    method CopyNode(orig: FOBDDManager, bdd: NodeId, ghost bound: nat) returns (r: NodeId)
      requires orig != this && orig.Valid() && Valid()
      requires bdd < |orig.nodes| && bound <= |orig.table.kernels| && Within(orig.trees[bdd], bound)
      modifies this
      ensures Valid() && Copied(orig.Snap(), old(Snap()), Snap(), bound, bdd, r)
      ensures Snap().Sorted() <==> old(Snap()).Sorted()
      decreases bound, 0, orig.trees[bdd]
    {
      ghost var o, s := orig.Snap(), Snap();
      if bdd == TRUEBDD || bdd == FALSEBDD {
        CopiedTerminal(o, s, bound, bdd);
        return bdd;
      }
      InnerNode(o, bdd);
      var kernel, truebranch, falsebranch := orig.nodes[bdd].kernel, orig.nodes[bdd].truebranch, orig.nodes[bdd].falsebranch;
      assert kernel in Kernels(orig.trees[bdd]);
      var nf := CopyNode(orig, falsebranch, bound);
      ghost var s1 := Snap();
      var nt := CopyNode(orig, truebranch, bound);
      ghost var s2 := Snap();
      var nk := CopyKernel(orig, kernel);
      r := PutCopy(o, s, s1, s2, bound, bdd, nf, nt, nk);
    }

    /** Puts the copied root in its place over the copied branches. */
    method PutCopy(ghost o: State, ghost s: State, ghost s1: State, ghost s2: State, ghost bound: nat, ghost bdd: NodeId,
                   nf: NodeId, nt: NodeId, nk: KernelId)
      returns (r: NodeId)
      requires Valid() && o.Ok() && s.Ok() && s1.Ok() && 2 <= bdd < |o.graph.nodes| && o.graph.nodes[bdd].kernel < bound
      requires Copied(o, s, s1, bound, o.graph.nodes[bdd].falsebranch, nf) && Copied(o, s1, s2, bound, o.graph.nodes[bdd].truebranch, nt)
      requires KernelCopied(o, s2, Snap(), o.graph.nodes[bdd].kernel, nk)
      modifies this`nodes, this`bddtable, this`trees, this`memo
      ensures Valid() && Copied(o, s, Snap(), bound, bdd, r)
      ensures Snap().Sorted() <==> old(Snap()).Sorted()
    {
      ghost var s3 := Snap();
      GrowsTransitive(s1, s2, s3);
      CopiedGrows(o, s, s1, s3, bound, o.graph.nodes[bdd].falsebranch, nf);
      CopiedGrows(o, s1, s2, s3, bound, o.graph.nodes[bdd].truebranch, nt);
      r := IfThenElse(nk, nt, nf);
      CopiedNode(o, s, s1, s2, s3, Snap(), bound, bdd, nf, nt, nk, r);
    }

    method CopyKernel(orig: FOBDDManager, kernel: KernelId) returns (r: KernelId)
      requires orig != this && orig.Valid() && Valid() && 2 <= kernel < |orig.table.kernels|
      modifies this
      ensures Valid() && KernelCopied(orig.Snap(), old(Snap()), Snap(), kernel, r)
      ensures Snap().Sorted() <==> old(Snap()).Sorted()
      decreases kernel, 1
    {
      ghost var o, s := orig.Snap(), Snap();
      assert orig.table.Placed(kernel);
      match orig.table.kernels[kernel]
      case AtomKernel(symbol, akt, args) =>
        r := GetAtomKernel(symbol, akt, args);
      case QuantKernel(sort, bdd) =>
        assert o.World().NestedAt(kernel);
        var newbdd := CopyNode(orig, bdd, kernel);
        ghost var s1 := Snap();
        r := GetQuantKernel(sort, newbdd);
        CopiedQuant(o, s, s1, Snap(), kernel, newbdd, r);
    }

    /** The diagram nested in a quantified kernel, with a variable for the bound index. */
    method OpenQuantKernel(kernel: KernelId, v: Variable) returns (r: NodeId)
      requires Valid() && 2 <= kernel < |table.kernels| && table.kernels[kernel].QuantKernel?
      requires CanOpen(Snap().World(), kernel, v)
      modifies this
      ensures Valid() && Grows(old(Snap()), Snap()) && Opens(Snap(), kernel, v, r)
      ensures Changed(old(Snap()), Snap(), SubstituteIndex(v.sort, 0, v), kernel, old(table.kernels[kernel].bdd), r)
      ensures Snap().Sorted() <==> old(Snap()).Sorted()
    {
      ghost var s := Snap();
      assert s.World().NestedAt(kernel);
      r := Change(SubstituteIndex(v.sort, 0, v), table.kernels[kernel].bdd, kernel);
      Opened(s, Snap(), kernel, v, r);
    }

    /** A set under a visitor: the diagram and the term are below all the binders of the set. */
    method ChangeQuantSet(v: Visitor, se: QuantSetExpr) returns (r: QuantSetExpr)
      requires Valid() && v.Ok() && se.subformula < |nodes| && SetSuits(Snap().World(), v, se)
      modifies this
      ensures Valid() && Grows(old(Snap()), Snap())
      ensures forall S: Structure :: SetHarmless(old(Snap()).World(), v, |old(table.kernels)|, se, S) ==> SetChanged(Snap().World(), v, se, r, S)
      ensures SetKeptApart(old(Snap()).World(), v, se) ==> forall S: Structure :: SetChanged(Snap().World(), v, se, r, S)
      ensures Snap().Sorted() <==> old(Snap()).Sorted()
    {
      ghost var s := Snap();
      TreeWithin(s, se.subformula);
      var below := Below(v, |se.quantvarsorts|);
      var formula := Change(below, se.subformula, |table.kernels|);
      r := QuantSetExpr(se.quantvarsorts, formula, below.ChangeTerm(se.subterm));
      SetIsChanged(s, Snap(), v, se, r);
    }

    // ---------- binding variables ----------

    /** Binds the variables of a set, one after the other, in its diagram and its term. */
    method SetQuantify(vars: seq<Variable>, formula: NodeId, term: Term) returns (r: QuantSetExpr)
      requires Valid() && formula < |nodes|
      modifies this
      ensures Valid() && Grows(old(Snap()), Snap()) && r.quantvarsorts == SortsOf(vars)
      ensures SetBinds(Snap(), vars, old(trees[formula]), term, r.subformula, r.subterm)
      ensures Snap().Sorted() <==> old(Snap()).Sorted()
    {
      ghost var s := Snap();
      var bumpedformula, bumpedterm := formula, term;
      TreeWithin(s, formula);
      SetBindsNone(s, formula, term);
      assert vars[..0] == [];
      for i := 0 to |vars|
        invariant Valid() && Grows(s, Snap()) && (Snap().Sorted() <==> s.Sorted())
        invariant SetBinds(Snap(), vars[..i], s.graph.trees[formula], term, bumpedformula, bumpedterm)
      {
        bumpedformula, bumpedterm := BumpSet(s, vars, i, formula, term, bumpedformula, bumpedterm);
      }
      assert vars[..|vars|] == vars;
      var sorts: seq<Sort> := [];
      for i := 0 to |vars|
        invariant sorts == SortsOf(vars)[..i]
      {
        sorts := sorts + [vars[i].sort];
      }
      r := QuantSetExpr(sorts, bumpedformula, bumpedterm);
    }

    method BumpSet(ghost s: State, vars: seq<Variable>, i: nat, ghost formula: NodeId, ghost term: Term, b: NodeId, t: Term)
      returns (r: NodeId, u: Term)
      requires Valid() && s.Ok() && Grows(s, Snap()) && i < |vars| && formula < |s.graph.trees|
      requires SetBinds(Snap(), vars[..i], s.graph.trees[formula], term, b, t)
      modifies this
      ensures Valid() && Grows(s, Snap()) && (Snap().Sorted() <==> old(Snap()).Sorted())
      ensures SetBinds(Snap(), vars[..i + 1], s.graph.trees[formula], term, r, u)
    {
      ghost var s1 := Snap();
      TreeWithin(s, formula);
      TreeWithin(s1, b);
      r := Change(BumpIndices(vars[i], 0), b, |table.kernels|);
      u := BumpIndices(vars[i], 0).ChangeTerm(t);
      SetBindsMore(s1, Snap(), vars[..i], vars[i], |s1.table.kernels|, s.graph.trees[formula], term, b, t, r);
      GrowsTransitive(s, s1, Snap());
      assert vars[..i + 1] == vars[..i] + [vars[i]];
    }

    /** Says that some value of the variable makes the diagram true. */
    method ExistsQuantify(v: Variable, bdd: NodeId) returns (r: NodeId)
      requires Valid() && bdd < |nodes|
      modifies this
      ensures Valid() && Grows(old(Snap()), Snap()) && r < |nodes|
      ensures NoIndex(old(Snap()).World(), old(trees[bdd])) && !EmptyBuiltin(v.sort) ==> BindsOne(Snap(), r, v, old(trees[bdd]))
    {
      ghost var s := Snap();
      TreeWithin(s, bdd);
      var bumped := Change(BumpIndices(v, 0), bdd, |table.kernels|);
      ghost var s1 := Snap();
      r := Quantify(v.sort, bumped);
      GrowsTransitive(s, s1, Snap());
      if NoIndex(s.World(), s.graph.trees[bdd]) && !EmptyBuiltin(v.sort) {
        BoundOne(s, s1, Snap(), v, |s.table.kernels|, bdd, bumped, r);
      }
    }

    method BindOneMore(v: Variable, bdd: NodeId, ghost vars: set<Variable>, ghost d: Tree) returns (r: NodeId)
      requires Valid() && bdd < |nodes| && v !in vars && !EmptyBuiltin(v.sort)
      requires Within(d, |table.kernels|) && Binds(Snap(), bdd, vars, d)
      modifies this
      ensures Valid() && Grows(old(Snap()), Snap()) && Binds(Snap(), r, vars + {v}, d)
    {
      ghost var s := Snap();
      r := ExistsQuantify(v, bdd);
      BindsMore(s, Snap(), bdd, r, vars, v, d);
    }

    /** Binds the variables one by one. */
    method ExistsQuantifyAll(vars: set<Variable>, bdd: NodeId) returns (r: NodeId)
      requires Valid() && bdd < |nodes| && NoIndex(Snap().World(), trees[bdd]) && forall v :: v in vars ==> !EmptyBuiltin(v.sort)
      modifies this
      ensures Valid() && Grows(old(Snap()), Snap()) && Binds(Snap(), r, vars, old(trees[bdd]))
    {
      ghost var s := Snap();
      TreeWithin(s, bdd);
      BindsNone(s, bdd);
      r := bdd;
      var todo := vars;
      assert vars - todo == {};
      while todo != {}
        invariant Valid() && Grows(s, Snap()) && todo <= vars
        invariant Binds(Snap(), r, vars - todo, s.graph.trees[bdd])
        decreases todo
      {
        var v :| v in todo;
        ghost var s1 := Snap();
        r := BindOneMore(v, r, vars - todo, s.graph.trees[bdd]);
        GrowsTransitive(s, s1, Snap());
        assert vars - todo + {v} == vars - (todo - {v});
        todo := todo - {v};
      }
      assert vars - todo == vars;
    }

    /** Not some not. */
    method UnivQuantifyAll(vars: set<Variable>, bdd: NodeId) returns (r: NodeId)
      requires Valid() && bdd < |nodes| && NoIndex(Snap().World(), trees[bdd]) && forall v :: v in vars ==> !EmptyBuiltin(v.sort)
      modifies this
      ensures Valid() && Grows(old(Snap()), Snap()) && BindsAll(Snap(), r, vars, old(trees[bdd]))
    {
      ghost var s := Snap();
      TreeWithin(s, bdd);
      var negatedbdd := Negation(bdd);
      ghost var s1 := Snap();
      NegationNoIndex(s, s1, bdd, negatedbdd);
      var quantbdd := ExistsQuantifyAll(vars, negatedbdd);
      ghost var s2 := Snap();
      r := Negation(quantbdd);
      GrowsTransitive(s, s1, s2);
      GrowsTransitive(s, s2, Snap());
      NotSomeNot(s2, Snap(), vars, s.graph.trees[bdd], s1.graph.trees[negatedbdd], quantbdd, r);
    }

    // ---------- removing symbols ----------

    /** The symbols of a kernel, those of nested diagrams included. */
    function KernelSymbols(k: KernelId): (r: set<PFSymbol>)
      requires Valid() && k < |table.kernels|
      reads this
      ensures forall g :: g in r <==> KernelUses(Snap().World(), k, g)
      decreases k, 1
    {
      match table.kernels[k]
      case AtomKernel(g, _, args) => {g} + ArgsSymbols(args)
      case QuantKernel(_, b) =>
        assert Snap().World().NestedAt(k);
        NodeSymbols(k, b)
      case _ => {}
    }

    function NodeSymbols(ghost bound: nat, n: NodeId): (r: set<PFSymbol>)
      requires Valid() && n < |nodes| && bound <= |table.kernels| && Within(trees[n], bound)
      reads this
      ensures forall g :: g in r <==> TreeUses(Snap().World(), bound, trees[n], g)
      decreases bound, 0, trees[n]
    {
      if n < 2 then {}
      else
        InnerNode(Snap(), n);
        assert nodes[n].kernel in Kernels(trees[n]);
        KernelSymbols(nodes[n].kernel) + NodeSymbols(bound, nodes[n].truebranch) + NodeSymbols(bound, nodes[n].falsebranch)
    }

    /** The variables of a kernel, those of nested diagrams included. */
    function KernelVariables(k: KernelId): (r: set<Variable>)
      requires Valid() && k < |table.kernels|
      reads this
      ensures forall v :: v in r <==> KernelMentions(Snap().World(), k, v)
      decreases k, 1
    {
      match table.kernels[k]
      case AtomKernel(_, _, args) =>
        assert forall v, n :: 0 <= n < |args| ==> (v in VariablesOf(args[n]) <==> TermMentions(args[n], v)) by { ArgsMentioned(args); }
        ArgsVariables(args)
      case QuantKernel(_, b) =>
        assert Snap().World().NestedAt(k);
        NodeVariables(k, b)
      case _ => {}
    }

    function NodeVariables(ghost bound: nat, n: NodeId): (r: set<Variable>)
      requires Valid() && n < |nodes| && bound <= |table.kernels| && Within(trees[n], bound)
      reads this
      ensures forall v :: v in r <==> TreeMentions(Snap().World(), bound, trees[n], v)
      decreases bound, 0, trees[n]
    {
      if n < 2 then {}
      else
        InnerNode(Snap(), n);
        assert nodes[n].kernel in Kernels(trees[n]);
        KernelVariables(nodes[n].kernel) + NodeVariables(bound, nodes[n].truebranch) + NodeVariables(bound, nodes[n].falsebranch)
    }

    /** Removes the symbols by making more of the diagram true (or false, when that is the goal);
        the root comes ever later in the order, though the merged diagram may be larger. */
    method MakeMoreWithout(goal: bool, bdd: NodeId, symbolsToRemove: set<PFSymbol>) returns (r: NodeId)
      requires Valid() && bdd < |nodes| && Ordered(table.orders, trees[bdd])
      modifies this`nodes, this`bddtable, this`trees, this`memo
      ensures Valid() && Extends(old(Snap()), Snap()) && r < |nodes|
      ensures Snap().Sorted() <==> old(Snap()).Sorted()
      ensures Removes(Snap().World(), table.orders, symbolsToRemove, goal, trees[bdd], trees[r])
    {
      RootKernel(Snap(), bdd);
      var found := MakeMoreWithin(goal, bdd, symbolsToRemove, |table.kernels| + 1);
      return found.value;
    }

    /** The same for any diagram; the fuel bounds how deep the recursion goes. */
    method MakeMoreWithin(goal: bool, bdd: NodeId, symbolsToRemove: set<PFSymbol>, fuel: nat) returns (r: Option<NodeId>)
      requires Valid() && bdd < |nodes|
      modifies this`nodes, this`bddtable, this`trees, this`memo
      ensures Valid() && Extends(old(Snap()), Snap())
      ensures Snap().Sorted() <==> old(Snap()).Sorted()
      ensures r.Some? ==> r.value < |nodes| && Removes(Snap().World(), table.orders, symbolsToRemove, goal, trees[bdd], trees[r.value])
      ensures Enough(table.orders, trees[bdd], fuel) ==> r.Some?
      decreases fuel, 1
    {
      if bdd == TRUEBDD || bdd == FALSEBDD {
        AbstractsLeaf(Snap().World(), symbolsToRemove, goal, bdd == TRUEBDD);
        return Some(bdd);
      }
      InnerNode(Snap(), bdd);
      if fuel == 0 {
        return None;
      }
      if exists symbol :: symbol in symbolsToRemove && symbol in KernelSymbols(nodes[bdd].kernel) {
        r := MergeWithout(goal, bdd, symbolsToRemove, fuel);
      } else {
        r := BranchesWithout(goal, bdd, symbolsToRemove, fuel);
      }
    }

    /** The root goes, and both its branches are merged. */
    method MergeWithout(goal: bool, bdd: NodeId, symbolsToRemove: set<PFSymbol>, fuel: nat) returns (r: Option<NodeId>)
      requires Valid() && 2 <= bdd < |nodes| && fuel > 0
      requires Dirty(Snap().World(), symbolsToRemove, nodes[bdd].kernel)
      modifies this`nodes, this`bddtable, this`trees, this`memo
      ensures Valid() && Extends(old(Snap()), Snap())
      ensures Snap().Sorted() <==> old(Snap()).Sorted()
      ensures r.Some? ==> r.value < |nodes| && Removes(Snap().World(), table.orders, symbolsToRemove, goal, trees[bdd], trees[r.value])
      ensures Enough(table.orders, trees[bdd], fuel) ==> r.Some?
      decreases fuel, 0
    {
      ghost var s := Snap();
      InnerNode(s, bdd);
      var merged := MergeBranches(goal, bdd);
      ghost var s1 := Snap();
      if Enough(table.orders, trees[bdd], fuel) { LessFuel(s1, bdd, merged, fuel); }
      r := MakeMoreWithin(goal, merged, symbolsToRemove, fuel - 1);
      ExtendsTransitive(s, s1, Snap());
      if r.Some? { MergedRemoves(s, s1, Snap(), symbolsToRemove, goal, bdd, merged, r.value); }
    }

    method MergeBranches(goal: bool, bdd: NodeId) returns (r: NodeId)
      requires Valid() && 2 <= bdd < |nodes| && nodes[bdd].truebranch < |nodes| && nodes[bdd].falsebranch < |nodes|
      modifies this`nodes, this`bddtable, this`trees, this`memo
      ensures Valid() && Extends(old(Snap()), Snap()) && r < |nodes|
      ensures Snap().Sorted() <==> old(Snap()).Sorted()
      ensures IsConnective(if goal then DISJUNCTION else CONJUNCTION, trees[r], trees[nodes[bdd].truebranch], trees[nodes[bdd].falsebranch])
      ensures Ordered(table.orders, trees[bdd]) ==> Ordered(table.orders, trees[r])
    {
      InnerNode(Snap(), bdd);
      if goal {
        r := Disjunction(nodes[bdd].truebranch, nodes[bdd].falsebranch);
      } else {
        r := Conjunction(nodes[bdd].truebranch, nodes[bdd].falsebranch);
      }
    }

    /** The root stays over the branches without the symbols. */
    method BranchesWithout(goal: bool, bdd: NodeId, symbolsToRemove: set<PFSymbol>, fuel: nat) returns (r: Option<NodeId>)
      requires Valid() && 2 <= bdd < |nodes| && fuel > 0
      requires !Dirty(Snap().World(), symbolsToRemove, nodes[bdd].kernel)
      modifies this`nodes, this`bddtable, this`trees, this`memo
      ensures Valid() && Extends(old(Snap()), Snap())
      ensures Snap().Sorted() <==> old(Snap()).Sorted()
      ensures r.Some? ==> r.value < |nodes| && Removes(Snap().World(), table.orders, symbolsToRemove, goal, trees[bdd], trees[r.value])
      ensures Enough(table.orders, trees[bdd], fuel) ==> r.Some?
      decreases fuel, 0
    {
      ghost var s := Snap();
      InnerNode(s, bdd);
      if Enough(table.orders, trees[bdd], fuel) { BranchesLessFuel(s, bdd, fuel); }
      var newtrue := MakeMoreWithin(goal, nodes[bdd].truebranch, symbolsToRemove, fuel - 1);
      ghost var s1 := Snap();
      if newtrue == None {
        return None;
      }
      var newfalse := MakeMoreWithin(goal, nodes[bdd].falsebranch, symbolsToRemove, fuel - 1);
      ghost var s2 := Snap();
      ExtendsTransitive(s, s1, s2);
      if newfalse == None {
        return None;
      }
      var result := RootOver(goal, bdd, symbolsToRemove, newtrue.value, newfalse.value, s, s1);
      r := Some(result);
    }

    /** Puts the root over what was found for the branches in states s1 and now, starting from state s. */
    method RootOver(ghost goal: bool, bdd: NodeId, ghost symbolsToRemove: set<PFSymbol>, newtrue: NodeId, newfalse: NodeId,
                    ghost s: State, ghost s1: State)
      returns (r: NodeId)
      requires Valid() && s.Ok() && 2 <= bdd < |s.graph.nodes| && Extends(s, s1) && Extends(s1, Snap()) && Extends(s, Snap())
      requires !Dirty(s.World(), symbolsToRemove, s.graph.nodes[bdd].kernel)
      requires s.graph.nodes[bdd].truebranch < |s.graph.trees| && s.graph.nodes[bdd].falsebranch < |s.graph.trees|
      requires newtrue < |s1.graph.trees| && newfalse < |trees|
      requires Removes(s1.World(), s.table.orders, symbolsToRemove, goal, s.graph.trees[s.graph.nodes[bdd].truebranch], s1.graph.trees[newtrue])
      requires Removes(Snap().World(), s.table.orders, symbolsToRemove, goal, s.graph.trees[s.graph.nodes[bdd].falsebranch], trees[newfalse])
      modifies this`nodes, this`bddtable, this`trees
      ensures Valid() && Extends(old(Snap()), Snap()) && Extends(s, Snap()) && r < |nodes|
      ensures Snap().Sorted() <==> old(Snap()).Sorted()
      ensures Removes(Snap().World(), s.table.orders, symbolsToRemove, goal, s.graph.trees[bdd], trees[r])
    {
      ghost var s2 := Snap();
      InnerNode(s2, bdd);
      BranchesPrecede(s2, bdd, newtrue, newfalse);
      r := GetBDD(nodes[bdd].kernel, newtrue, newfalse);
      BranchesRemove(s, s1, s2, Snap(), symbolsToRemove, goal, bdd, newtrue, newfalse, r);
    }

    // ---------- leaving out what costs too much ----------

    /** Makes more of the diagram true (or false) wherever the cost model finds that cheaper, until it does so nowhere. */
    method MakeMore<Scope(!new)>(goal: bool, bdd: NodeId, scope: Scope, weight: real, model: CostModel<Scope>) returns (r: NodeId)
      requires Valid() && bdd < |nodes|
      modifies this`nodes, this`bddtable, this`trees
      ensures Valid() && Extends(old(Snap()), Snap()) && r < |nodes|
      ensures Snap().Sorted() <==> old(Snap()).Sorted()
      ensures Ordered(table.orders, trees[bdd]) ==> Ordered(table.orders, trees[r])
      ensures Weakens(goal, trees[bdd], trees[r])
      ensures r == bdd <==> Settled(old(Snap()), goal, model, bdd, scope, weight)
      ensures r == bdd ==> Snap() == old(Snap())
      ensures Settled(Snap(), goal, model, r, scope, weight)
      ensures forall costs: TreeCosts<Scope> :: Reckons(old(Snap()), model, costs) ==>
                GivesUp(costs, goal, trees[bdd], trees[r], scope, weight)
      decreases Size(trees[bdd]), 3
    {
      hide GivesUp, Reckons, Weakens;
      if bdd == TRUEBDD || bdd == FALSEBDD {
        NothingGivenUp(goal, trees[bdd], scope, weight);
        return bdd;
      }
      InnerNode(Snap(), bdd);
      var truebranch, falsebranch := nodes[bdd].truebranch, nodes[bdd].falsebranch;
      var nogoal := if goal then FALSEBDD else TRUEBDD;
      var total := model.totalCost(nodes, table, bdd, scope, weight);
      if falsebranch == nogoal {
        if model.totalCost(nodes, table, truebranch, scope, weight) < total {
          r := MakeMoreBelow(goal, bdd, truebranch, scope, weight, model);
          return;
        }
      } else if truebranch == nogoal {
        if model.totalCost(nodes, table, falsebranch, scope, weight) < total {
          r := MakeMoreBelow(goal, bdd, falsebranch, scope, weight, model);
          return;
        }
      }
      r := MakeMoreBranches(goal, bdd, scope, weight, model);
    }

    /** Goes on with the cheaper branch alone. */
    method MakeMoreBelow<Scope(!new)>(goal: bool, bdd: NodeId, branch: NodeId, scope: Scope, weight: real, model: CostModel<Scope>)
      returns (r: NodeId)
      requires Valid() && 2 <= bdd < |nodes| && StepAvailable(Snap(), goal, model, bdd, scope, weight)
      requires branch == nodes[bdd].truebranch || branch == nodes[bdd].falsebranch
      requires (if branch == nodes[bdd].truebranch then nodes[bdd].falsebranch else nodes[bdd].truebranch) == if goal then FALSEBDD else TRUEBDD
      requires model.totalCost(nodes, table, branch, scope, weight) < model.totalCost(nodes, table, bdd, scope, weight)
      modifies this`nodes, this`bddtable, this`trees
      ensures Valid() && Extends(old(Snap()), Snap()) && r < |nodes| && r != bdd
      ensures Snap().Sorted() <==> old(Snap()).Sorted()
      ensures Ordered(table.orders, trees[bdd]) ==> Ordered(table.orders, trees[r])
      ensures Weakens(goal, trees[bdd], trees[r]) && Settled(Snap(), goal, model, r, scope, weight)
      ensures forall costs: TreeCosts<Scope> :: Reckons(old(Snap()), model, costs) ==>
                GivesUp(costs, goal, trees[bdd], trees[r], scope, weight)
      decreases Size(trees[bdd]), 2
    {
      hide GivesUp, Reckons, Weakens, Ordered;
      ghost var s := Snap();
      InnerNode(s, bdd);
      r := MakeMore(goal, branch, scope, weight, model);
      BelowWeakens(s, goal, bdd, branch, trees[r]);
      forall costs: TreeCosts<Scope> | Reckons(s, model, costs) ensures GivesUp(costs, goal, trees[bdd], trees[r], scope, weight) {
        RootGivenUp(s, goal, model, costs, bdd, branch, trees[r], scope, weight);
      }
    }

    method MakeMoreBranches<Scope(!new)>(goal: bool, bdd: NodeId, scope: Scope, weight: real, model: CostModel<Scope>) returns (r: NodeId)
      requires Valid() && 2 <= bdd < |nodes| && !StepAvailable(Snap(), goal, model, bdd, scope, weight)
      modifies this`nodes, this`bddtable, this`trees
      ensures Valid() && Extends(old(Snap()), Snap()) && r < |nodes|
      ensures Snap().Sorted() <==> old(Snap()).Sorted()
      ensures Ordered(table.orders, trees[bdd]) ==> Ordered(table.orders, trees[r])
      ensures Weakens(goal, trees[bdd], trees[r])
      ensures r == bdd <==> Settled(old(Snap()), goal, model, bdd, scope, weight)
      ensures r == bdd ==> Snap() == old(Snap())
      ensures Settled(Snap(), goal, model, r, scope, weight)
      ensures forall costs: TreeCosts<Scope> :: Reckons(old(Snap()), model, costs) ==>
                GivesUp(costs, goal, trees[bdd], trees[r], scope, weight)
      decreases Size(trees[bdd]), 1
    {
      hide GivesUp, Reckons, Weakens;
      ghost var s := Snap();
      InnerNode(s, bdd);
      var kernel, truebranch, falsebranch := nodes[bdd].kernel, nodes[bdd].truebranch, nodes[bdd].falsebranch;
      var branchscope := model.branchScope(nodes, table, kernel, scope);
      var newtrue := MakeMore(goal, truebranch, branchscope, model.trueWeight(nodes, table, kernel, weight), model);
      ghost var s1 := Snap();
      var newfalse := MakeMore(goal, falsebranch, branchscope, model.falseWeight(nodes, table, kernel, weight), model);
      ghost var s2 := Snap();
      ExtendsTransitive(s, s1, s2);
      if newtrue == truebranch && newfalse == falsebranch {
        NothingGivenUp(goal, trees[bdd], scope, weight);
        return bdd;
      }
      r := MakeMoreReduced(goal, bdd, newtrue, newfalse, scope, weight, model);
      ghost var s3 := Snap();
      ExtendsTransitive(s, s2, s3);
      forall costs: TreeCosts<Scope> | Reckons(s, model, costs) ensures GivesUp(costs, goal, trees[bdd], trees[r], scope, weight) {
        GivenUp(s, s1, s2, s3, goal, model, costs, bdd, newtrue, newfalse, r, scope, weight);
      }
    }

    /** Goes on with the root over the weakened branches. */
    method MakeMoreReduced<Scope(!new)>(goal: bool, bdd: NodeId, newtrue: NodeId, newfalse: NodeId,
                                        scope: Scope, weight: real, model: CostModel<Scope>) returns (r: NodeId)
      requires Valid() && 2 <= bdd < |nodes| && newtrue < |nodes| && newfalse < |nodes|
      requires nodes[bdd].truebranch < |nodes| && nodes[bdd].falsebranch < |nodes|
      requires newtrue != nodes[bdd].truebranch || newfalse != nodes[bdd].falsebranch
      requires Weakens(goal, trees[nodes[bdd].truebranch], trees[newtrue])
      requires Weakens(goal, trees[nodes[bdd].falsebranch], trees[newfalse])
      requires Ordered(table.orders, trees[nodes[bdd].truebranch]) ==> Ordered(table.orders, trees[newtrue])
      requires Ordered(table.orders, trees[nodes[bdd].falsebranch]) ==> Ordered(table.orders, trees[newfalse])
      modifies this`nodes, this`bddtable, this`trees
      ensures Valid() && Extends(old(Snap()), Snap()) && r < |nodes| && r != bdd
      ensures Snap().Sorted() <==> old(Snap()).Sorted()
      ensures Ordered(table.orders, trees[bdd]) ==> Ordered(table.orders, trees[r])
      ensures Weakens(goal, trees[bdd], trees[r]) && Settled(Snap(), goal, model, r, scope, weight)
      ensures var d := Make(nodes[bdd].kernel, trees[newtrue], trees[newfalse]);
        Size(d) < Size(trees[bdd]) && forall costs: TreeCosts<Scope> :: Reckons(old(Snap()), model, costs) ==>
                GivesUp(costs, goal, d, trees[r], scope, weight)
      decreases Size(trees[bdd]), 0
    {
      hide GivesUp, Reckons;
      ghost var s := Snap();
      var reduced := Reduce(goal, bdd, newtrue, newfalse);
      ghost var s1 := Snap();
      r := MakeMore(goal, reduced, scope, weight, model);
      ExtendsTransitive(s, s1, Snap());
      WeakensTransitive(goal, trees[bdd], trees[reduced], trees[r]);
      forall costs: TreeCosts<Scope> | Reckons(s, model, costs) ensures GivesUp(costs, goal, trees[reduced], trees[r], scope, weight) {
        ReckonsLater(s, s1, model, costs);
      }
    }

    /** The root over weakened branches. */
    method Reduce(ghost goal: bool, bdd: NodeId, newtrue: NodeId, newfalse: NodeId) returns (r: NodeId)
      requires Valid() && 2 <= bdd < |nodes| && newtrue < |nodes| && newfalse < |nodes|
      requires nodes[bdd].truebranch < |nodes| && nodes[bdd].falsebranch < |nodes|
      requires newtrue != nodes[bdd].truebranch || newfalse != nodes[bdd].falsebranch
      requires Weakens(goal, trees[nodes[bdd].truebranch], trees[newtrue])
      requires Weakens(goal, trees[nodes[bdd].falsebranch], trees[newfalse])
      requires Ordered(table.orders, trees[nodes[bdd].truebranch]) ==> Ordered(table.orders, trees[newtrue])
      requires Ordered(table.orders, trees[nodes[bdd].falsebranch]) ==> Ordered(table.orders, trees[newfalse])
      modifies this`nodes, this`bddtable, this`trees
      ensures Valid() && Extends(old(Snap()), Snap()) && r < |nodes|
      ensures Snap().Sorted() <==> old(Snap()).Sorted()
      ensures Ordered(table.orders, trees[bdd]) ==> Ordered(table.orders, trees[r])
      ensures Weakens(goal, trees[bdd], trees[r]) && Size(trees[r]) < Size(trees[bdd])
      ensures trees[r] == Make(nodes[bdd].kernel, trees[newtrue], trees[newfalse])
    {
      InnerNode(Snap(), bdd);
      BranchesPrecede(Snap(), bdd, newtrue, newfalse);
      r := GetBDD(nodes[bdd].kernel, newtrue, newfalse);
      ReducedWeakens(Snap(), goal, bdd, newtrue, newfalse, r);
    }

    // ---------- paths ----------

    method PathsToFalse(bdd: NodeId) returns (result: seq<Path>)
      requires Valid() && bdd < |nodes|
      ensures result == Paths.PathsToFalse(trees[bdd])
      decreases trees[bdd]
    {
      result := [];
      if bdd == FALSEBDD {
        result := [[]];
      } else if bdd != TRUEBDD {
        InnerNode(Snap(), bdd);
        var kernel := nodes[bdd].kernel;
        var falsepaths := PathsToFalse(nodes[bdd].falsebranch);
        var truepaths := PathsToFalse(nodes[bdd].truebranch);
        result := AddPaths(result, (false, kernel), falsepaths);
        result := AddPaths(result, (true, kernel), truepaths);
      }
    }

    /** Puts a step before each of the paths. */
    method AddPaths(found: seq<Path>, step: (bool, KernelId), paths: seq<Path>) returns (result: seq<Path>)
      ensures result == found + Under(step, paths)
    {
      result := found;
      for i := 0 to |paths|
        invariant result == found + Under(step, paths)[..i]
      {
        result := result + [[step] + paths[i]];
      }
    }
  }
}
