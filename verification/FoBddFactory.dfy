/** The compiler from formulas to diagrams. */
module FoBddFactory {
  import opened Syntax
  import opened Semantics
  import opened Store
  import opened ManagerState
  import opened Operations
  import opened Quantification
  import opened Formulas
  import opened Binding
  import opened SetExpressions
  import opened FoBddManager

  class FOBDDFactory {
    const manager: FOBDDManager
    var bdd: NodeId   // what the last visit returned
    var quantset: QuantSetExpr
    var enumset: seq<QuantSetExpr>

    constructor (manager: FOBDDManager)
      ensures this.manager == manager
    {
      this.manager := manager;
      bdd, quantset, enumset := FALSEBDD, QuantSetExpr([], FALSEBDD, DomainTerm(Sort("nat", true, false), IntElement(0))), [];
    }

    /** Visiting a formula leaves a node that is true exactly when the formula is. */
    method Visit(f: Formula)
      requires manager.Valid() && f.Proper()
      modifies this, manager
      ensures manager.Valid() && Grows(old(manager.Snap()), manager.Snap()) && Compiled(manager.Snap(), bdd, f)
      decreases f, 2
    {
      match f
      case PredForm(_, _, _, _) => VisitPredForm(f);
      case BoolForm(_, _, _) => VisitBoolForm(f);
      case EquivForm(_, _, _) => VisitEquivForm(f);
      case QuantForm(_, _, _, _) => VisitQuantForm(f);
    }

    method VisitPredForm(f: Formula)
      requires manager.Valid() && f.PredForm? && f.Proper()
      modifies this, manager
      ensures manager.Valid() && Grows(old(manager.Snap()), manager.Snap()) && Compiled(manager.Snap(), bdd, f)
    {
      ghost var s := manager.Snap();
      var (akt, invert) := CheckIfBoundedPredicate(f.bound, f.negated);
      var kernel := manager.GetAtomKernel(f.symbol, akt, f.args);
      ghost var s1 := manager.Snap();
      if invert {
        bdd := manager.IfThenElse(kernel, FALSEBDD, TRUEBDD);
      } else {
        bdd := manager.IfThenElse(kernel, TRUEBDD, FALSEBDD);
      }
      GrowsTransitive(s, s1, manager.Snap());
      AtomCompiled(manager.Snap(), f, kernel, invert, bdd);
    }

    /** Negates the last result when the sign says so. */
    method Sign(negated: bool, ghost f: Formula)
      requires manager.Valid() && Compiled(manager.Snap(), bdd, f)
      modifies this, manager
      ensures manager.Valid() && Grows(old(manager.Snap()), manager.Snap())
      ensures Compiled(manager.Snap(), bdd, if negated then f.Flip() else f)
    {
      ghost var s, b := manager.Snap(), bdd;
      if negated {
        bdd := manager.Negation(bdd);
        CompiledLater(s, manager.Snap(), b, f);
        NegationCompiled(manager.Snap(), b, bdd, f);
      }
    }

    method VisitBoolForm(f: Formula)
      requires manager.Valid() && f.BoolForm? && f.Proper()
      modifies this, manager
      ensures manager.Valid() && Grows(old(manager.Snap()), manager.Snap()) && Compiled(manager.Snap(), bdd, f)
      decreases f, 1
    {
      ghost var s := manager.Snap();
      var temp: NodeId := if f.conj then TRUEBDD else FALSEBDD;
      EmptyBoolFormCompiled(s, f.conj);
      for n := 0 to |f.subformulas|
        invariant manager.Valid() && Grows(s, manager.Snap())
        invariant Compiled(manager.Snap(), temp, BoolForm(false, f.conj, f.subformulas[..n]))
      {
        ghost var s1 := manager.Snap();
        temp := VisitSubformula(f, n, temp);
        GrowsTransitive(s, s1, manager.Snap());
      }
      assert f.subformulas[..|f.subformulas|] == f.subformulas;
      bdd := temp;
      ghost var s3 := manager.Snap();
      Sign(f.negated, BoolForm(false, f.conj, f.subformulas));
      GrowsTransitive(s, s3, manager.Snap());
    }

    method VisitSubformula(f: Formula, n: nat, temp: NodeId) returns (r: NodeId)
      requires manager.Valid() && f.BoolForm? && f.Proper() && n < |f.subformulas|
      requires Compiled(manager.Snap(), temp, BoolForm(false, f.conj, f.subformulas[..n]))
      modifies this, manager
      ensures manager.Valid() && Grows(old(manager.Snap()), manager.Snap())
      ensures Compiled(manager.Snap(), r, BoolForm(false, f.conj, f.subformulas[..n + 1]))
      decreases f, 0
    {
      ghost var s := manager.Snap();
      Visit(f.subformulas[n]);
      ghost var s1 := manager.Snap();
      r := Connect(f.conj, temp, f.subformulas[..n], f.subformulas[n], s);
      GrowsTransitive(s, s1, manager.Snap());
      assert f.subformulas[..n + 1] == f.subformulas[..n] + [f.subformulas[n]];
    }

    /** Joins the last result to what the earlier subformulas gave. */
    method Connect(conj: bool, temp: NodeId, ghost done: seq<Formula>, ghost f: Formula, ghost before: State) returns (r: NodeId)
      requires manager.Valid() && Grows(before, manager.Snap())
      requires Compiled(before, temp, BoolForm(false, conj, done)) && Compiled(manager.Snap(), bdd, f)
      modifies manager
      ensures manager.Valid() && Grows(old(manager.Snap()), manager.Snap())
      ensures Compiled(manager.Snap(), r, BoolForm(false, conj, done + [f]))
    {
      ghost var s := manager.Snap();
      CompiledLater(before, s, temp, BoolForm(false, conj, done));
      if conj {
        r := manager.Conjunction(temp, bdd);
      } else {
        r := manager.Disjunction(temp, bdd);
      }
      CompiledLater(s, manager.Snap(), temp, BoolForm(false, conj, done));
      CompiledLater(s, manager.Snap(), bdd, f);
      BoolFormCompiled(manager.Snap(), conj, done, f, temp, bdd, r);
    }

    method VisitEquivForm(f: Formula)
      requires manager.Valid() && f.EquivForm? && f.Proper()
      modifies this, manager
      ensures manager.Valid() && Grows(old(manager.Snap()), manager.Snap()) && Compiled(manager.Snap(), bdd, f)
      decreases f, 1
    {
      ghost var s := manager.Snap();
      Visit(f.left);
      ghost var s1 := manager.Snap();
      var leftbdd := bdd;
      Visit(f.right);
      ghost var s2 := manager.Snap();
      GrowsTransitive(s, s1, s2);
      CompiledLater(s1, s2, leftbdd, f.left);
      bdd := Equivalence(leftbdd, bdd, f.left, f.right);
      ghost var s3 := manager.Snap();
      GrowsTransitive(s, s2, s3);
      Sign(f.negated, EquivForm(false, f.left, f.right));
      GrowsTransitive(s, s3, manager.Snap());
    }

    method Equivalence(leftbdd: NodeId, rightbdd: NodeId, ghost left: Formula, ghost right: Formula) returns (r: NodeId)
      requires manager.Valid() && Compiled(manager.Snap(), leftbdd, left) && Compiled(manager.Snap(), rightbdd, right)
      modifies manager
      ensures manager.Valid() && Grows(old(manager.Snap()), manager.Snap())
      ensures Compiled(manager.Snap(), r, EquivForm(false, left, right))
    {
      ghost var s := manager.Snap();
      var both := manager.Conjunction(leftbdd, rightbdd);
      ghost var s1 := manager.Snap();
      var notleft := manager.Negation(leftbdd);
      ghost var s2 := manager.Snap();
      ExtendsTransitive(s, s1, s2);
      var notright := manager.Negation(rightbdd);
      ghost var s3 := manager.Snap();
      ExtendsTransitive(s, s2, s3);
      var none := manager.Conjunction(notleft, notright);
      ghost var s4 := manager.Snap();
      ExtendsTransitive(s, s3, s4);
      r := manager.Disjunction(both, none);
      ExtendsTransitive(s, s4, manager.Snap());
      CompiledLater(s, manager.Snap(), leftbdd, left);
      CompiledLater(s, manager.Snap(), rightbdd, right);
      EquivCompiled(manager.Snap(), left, right, leftbdd, rightbdd, notleft, notright, both, none, r);
    }

    method VisitQuantForm(f: Formula)
      requires manager.Valid() && f.QuantForm? && f.Proper()
      modifies this, manager
      ensures manager.Valid() && Grows(old(manager.Snap()), manager.Snap()) && Compiled(manager.Snap(), bdd, f)
      decreases f, 1
    {
      ghost var s := manager.Snap();
      Visit(f.subformula);
      ghost var s1, b := manager.Snap(), bdd;
      if f.univ {
        bdd := manager.UnivQuantifyAll(f.quantVars, bdd);
        CompiledLater(s1, manager.Snap(), b, f.subformula);
        UnivCompiled(manager.Snap(), f.subformula, f.quantVars, b, bdd);
      } else {
        bdd := manager.ExistsQuantifyAll(f.quantVars, bdd);
        CompiledLater(s1, manager.Snap(), b, f.subformula);
        ExistsCompiled(manager.Snap(), f.subformula, f.quantVars, b, bdd);
      }
      ghost var s2 := manager.Snap();
      GrowsTransitive(s, s1, s2);
      Sign(f.negated, QuantForm(false, f.univ, f.quantVars, f.subformula));
      GrowsTransitive(s, s2, manager.Snap());
    }

    /** Visiting a set leaves one with the same elements, for all values of the free variables. */
    method VisitQuantSetExpr(se: SetExpr)
      requires manager.Valid() && se.Proper()
      modifies this, manager
      ensures manager.Valid() && Grows(old(manager.Snap()), manager.Snap()) && SetCompiled(manager.Snap(), quantset, se)
    {
      ghost var s := manager.Snap();
      Visit(se.condition);
      ghost var s1 := manager.Snap();
      quantset := manager.SetQuantify(se.quantVars, bdd, se.term);
      GrowsTransitive(s, s1, manager.Snap());
      BoundSetCompiled(s1, manager.Snap(), se, bdd, quantset);
    }

    method VisitEnumSetExpr(sets: seq<SetExpr>)
      requires manager.Valid() && forall n :: 0 <= n < |sets| ==> sets[n].Proper()
      modifies this, manager
      ensures manager.Valid() && Grows(old(manager.Snap()), manager.Snap()) && SetsCompiled(manager.Snap(), enumset, sets)
    {
      ghost var s := manager.Snap();
      var bddsets: seq<QuantSetExpr> := [];
      for n := 0 to |sets|
        invariant manager.Valid() && Grows(s, manager.Snap()) && SetsCompiled(manager.Snap(), bddsets, sets[..n])
      {
        VisitNextSet(s, sets, n, bddsets);
        bddsets := bddsets + [quantset];
      }
      assert sets[..|sets|] == sets;
      enumset := bddsets;
    }

    method VisitNextSet(ghost s: State, sets: seq<SetExpr>, n: nat, ghost bddsets: seq<QuantSetExpr>)
      requires manager.Valid() && n < |sets| && sets[n].Proper()
      requires Grows(s, manager.Snap()) && SetsCompiled(manager.Snap(), bddsets, sets[..n])
      modifies this, manager
      ensures manager.Valid() && Grows(s, manager.Snap())
      ensures SetsCompiled(manager.Snap(), bddsets + [quantset], sets[..n + 1])
    {
      ghost var s1 := manager.Snap();
      VisitQuantSetExpr(sets[n]);
      GrowsTransitive(s, s1, manager.Snap());
      SetsCompiledLater(s1, manager.Snap(), bddsets, sets[..n]);
      SetsCompiledMore(manager.Snap(), bddsets, sets[..n], quantset, sets[n]);
      assert sets[..n + 1] == sets[..n] + [sets[n]];
    }
  }
}
