/** The order on kernels that decides how far from the root a kernel appears
    in a diagram (FoBddUtils.hpp, CommonBddTypes.hpp). */
module KernelOrders {

  /** Kernels of a later category appear further from the root; terminals come last. */
  datatype KernelOrderCategory = STANDARDCATEGORY | DEBRUIJNCATEGORY | TRUEFALSECATEGORY
  {
    /** How many categories lie below this one. */
    function Depth(): nat {
      match this
      case STANDARDCATEGORY => 2
      case DEBRUIJNCATEGORY => 1
      case TRUEFALSECATEGORY => 0
    }

    predicate Before(that: KernelOrderCategory) {
      if TRUEFALSECATEGORY? then false
      else if DEBRUIJNCATEGORY? then that.TRUEFALSECATEGORY?
      else !that.STANDARDCATEGORY?
    }
  }

  /** Within a category the higher number is nearer to the root. */
  datatype KernelOrder = KernelOrder(category: KernelOrderCategory, number: nat)
  {
    predicate Before(that: KernelOrder) {
      if category.Before(that.category) then true
      else if that.category.Before(category) then false
      else number > that.number
    }
  }

  /** The order is a strict total order, and Depth with number descends along it. */
  lemma BeforeIsStrictTotalOrder(a: KernelOrder, b: KernelOrder, c: KernelOrder)
    ensures !a.Before(a)
    ensures a.Before(b) && b.Before(c) ==> a.Before(c)
    ensures a.Before(b) || b.Before(a) || a == b
    ensures a.Before(b) <==> a.category.Depth() > b.category.Depth()
                             || (a.category == b.category && a.number > b.number)
  {
  }
}
