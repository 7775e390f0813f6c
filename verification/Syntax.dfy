/** Terms, symbols and kernels of first-order diagrams. */
module Syntax {
  import opened KernelOrders
  import opened Diagrams

  /** A sort; what a built-in sort contains is known before any structure is. */
  datatype Sort = Sort(name: string, builtin: bool, empty: bool)

  datatype Variable = Variable(name: string, sort: Sort)

  datatype DomainElement = IntElement(i: int) | StringElement(s: string)

  /** Predicates and functions; every sort has a predicate of its own. */
  datatype PFSymbol =
    | EqualityPredicate
    | SortPredicate(sort: Sort)
    | PredicateSymbol(name: string)
    | FunctionSymbol(name: string)

  datatype Term =
    | VariableTerm(variable: Variable)
    | IndexTerm(sort: Sort, index: nat)
    | DomainTerm(sort: Sort, value: DomainElement)
    | FuncTerm(func: PFSymbol, args: seq<Term>)
  {
    predicate ContainsIndex(i: nat) {
      match this
      case VariableTerm(_) => false
      case IndexTerm(_, j) => i == j
      case DomainTerm(_, _) => false
      case FuncTerm(_, args) => exists n | 0 <= n < |args| :: args[n].ContainsIndex(i)
    }
  }

  /** Does some argument contain the De Bruijn index i? */
  predicate ArgsContainIndex(args: seq<Term>, i: nat) {
    exists n | 0 <= n < |args| :: args[n].ContainsIndex(i)
  }

  datatype AtomKernelType = AKT_CT | AKT_CF | AKT_TWOVALUED

  /** Address of a diagram node in the manager. */
  type NodeId = nat

  datatype Kernel =
    | TrueKernel
    | FalseKernel
    | AtomKernel(symbol: PFSymbol, akt: AtomKernelType, args: seq<Term>)
    | QuantKernel(sort: Sort, bdd: NodeId)
}
