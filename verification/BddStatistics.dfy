/** Estimates computed on the nodes of a manager. */
module BddStatistics {
  import opened Diagrams
  import opened Syntax
  import opened Semantics
  import opened Store
  import opened ManagerState
  import opened Operations
  import opened Estimations
  import opened FoBddManager

  class BddStatistics {
    const manager: FOBDDManager
    const structure: Statistics

    constructor (manager: FOBDDManager, structure: Statistics)
      ensures this.manager == manager && this.structure == structure
    {
      this.manager := manager;
      this.structure := structure;
    }

    /** The estimated chance that a node is true: a probability, and that of the diagram it denotes. */
    function EstimateChance(bdd: NodeId, ghost bound: nat): (r: real)
      requires manager.Valid() && structure.Ok() && bdd < |manager.nodes|
      requires bound <= |manager.table.kernels| && Within(manager.trees[bdd], bound)
      reads manager
      ensures r == Chance(manager.trees[bdd], AllChances(manager.Snap().World(), structure)) && 0.0 <= r <= 1.0
      decreases bound, 0, manager.trees[bdd]
    {
      if bdd == FALSEBDD then 0.0
      else if bdd == TRUEBDD then 1.0
      else
        NodeChance(manager.Snap(), structure, bdd, bound);
        var kernchance := EstimateKernelChance(manager.nodes[bdd].kernel);
        var falsechance := EstimateChance(manager.nodes[bdd].falsebranch, bound);
        var truechance := EstimateChance(manager.nodes[bdd].truebranch, bound);
        Mix(kernchance, truechance, falsechance)
    }

    function EstimateKernelChance(kernel: KernelId): (r: real)
      requires manager.Valid() && structure.Ok() && 2 <= kernel < |manager.table.kernels|
      reads manager
      ensures r == KernelChance(manager.Snap().World(), structure, kernel) && 0.0 <= r <= 1.0
      decreases kernel, 1
    {
      assert manager.table.Placed(kernel);
      KernelChanceBounds(manager.Snap().World(), structure, kernel);
      match manager.table.kernels[kernel]
      case AtomKernel(_, _, _) => structure.atom(manager.table.kernels[kernel])
      case QuantKernel(sort, b) =>
        assert manager.Snap().World().NestedAt(kernel);
        QuantKernelChance(manager.Snap().World(), structure, kernel);
        QuantChance(structure.sort(sort), EstimateChance(b, kernel))
    }
  }
}
