# Verification of the first-order diagram manager and of SafeInt

This project models, in Dafny 4.11, two parts of the repository and proves properties of the model.

**The manager of first-order binary decision diagrams** (`FOBDDManager`) keeps one node for each diagram
over *kernels* (atoms, and quantified diagrams nested in a kernel). Nodes are hash-consed in a unique table, results
of operations are remembered in tables, and kernels can be moved through their order by overwriting shared
nodes in place. On it are built the optimiser, the approximations, quantification with De Bruijn indices, the
visitors that rebuild diagrams, the compiler from formulas, the estimates and the arithmetic normal form;
behind it the compiler from diagrams to answer generators.

**SafeInt** is checked arithmetic on integers of eight types.

## How the model is laid out

- `FoBddManager` holds the class with the manager's fields. A node or kernel is named by its address, a number, because the
  source compares addresses. The ghost field `trees` gives for every node the diagram it unfolds to; `Snap()` is
  the whole state as a value, and `State.Ok()` says that it is consistent: unique table, orders, categories,
  nesting, and every remembered result. `State.Sorted()` says that all nodes respect the kernel order.
- `Diagrams`, `SwapTrees`, `Paths`, `Estimations` and `Approximations` argue about diagrams as trees, `Operations`, `Moves`, `Sifting`,
  `Quantification`, `Rebuilding`, `Renaming`, `Binding`, `Opening`, `Copying` and `SetExpressions` about steps of the state, `Runs` about whole runs.
- `Semantics` gives diagrams their meaning in a structure; a quantified kernel is interpreted through the diagram nested in it, which
  mentions only kernels made before it.
- `FoBddFactory` is the compiler from formulas. Its result is right in every structure, also after the nodes have lost the kernel
  order: what is nested under a quantifier has been rebuilt before and is ordered (`State.NestedOrdered`, part of `State.Ok()`).
- `WellSorted` says that bound indices have the sorts of their quantifiers; the compiler's result is such (`Compiled`), and such a diagram can be
  opened by the generators.
- `Arithmetic`, `ArithmeticRewriting` and `Comparisons` treat arithmetic terms over the reals, and `SolvedKernels` connects solved equations with kernels.
- `NormalForms` says what a normal term is: a sum of products in increasing order, no coefficient zero, factors sorted. `NormalSums`, `NormalProducts`,
  `NormalExpansion`, `NormalRequests` and `NormalMultiples` say exactly when the manager keeps it, for any strict total order of terms.
- `Generators`, `BDDBasedGeneratorFactory` and `TreeInstGenerators` treat answer generators, and `NodeGenerators` makes them from nodes of the manager.
- `GrounderFactory` puts the parts together, from a formula to a generator of its answers: compile, simplify, optimise in a manager of its own, generate.
- `IntTypes`, `SafeCasts`, `SafeMultiplication`, `SafeAddition`, `SafeDivision` and `SafeInt` treat SafeInt.

## Where the code does not do what one would expect

- `quantify` puts the kernel "the sort is not empty" on top of a diagram without looking at the order. The meaning is right, but
  the node respects the order if and only if that kernel precedes the root (`QuantifyVacuous`); `OrderLost` is a run in which it does not.
- Over an empty built-in sort `quantify` answers the negation of a closed diagram. That is right if and only if
  the diagram is true (`VacuousEmptyBuiltin`).
- `getQuantKernel` replaces a quantified true diagram by true, which is right if and only if the sort has an element
  (`TerminalQuantified`). Quantification never asks for this, and neither do binding a variable nor opening a kernel
  (`ApartBecome`). Substitution can: `SubstitutionLost` is a run in which it does, `QuantExactlyWhen` says exactly when a
  kernel keeps its meaning, by what is known before the change, and it always does when different terms stay different (`ChangedExactly`).
- `getAtomKernel` flips a comparison of a constant with zero for ever exactly when the constant and its opposite both come before
  zero in the order of terms (`GetComparison`).
- Terms are meant to be kept sorted, but a sum whose first summand is a product or a call keeps that summand in front, even before one that should precede
  it (`SumOutOfOrder`), and a product keeps a first call in front (`ProductOutOfOrder`). Answers to requests about normal terms are therefore normal under a
  condition only, which can be computed beforehand: `Settles` for sums, `MonoSettles` for single products, `ProductSettles` for products of sums
  (`SumNormalExactly`, `MonoNormalExactly`, `RequestNormalExactly`). Where every request settles, like terms are merged and equal terms are identical
  (`SameCoefficients`, `EqualSides`).
- Division of the smallest number of a type with less than 64 bits by an unsigned 64-bit number is wrong for exactly two divisors
  (`SafeDivision.CornerCase`).
- Estimates are looked up in tables that the code never fills, so the estimates are plain recursion here.
- `solve` has a case for a comparison with no other term. The terms collected from a sum always start with a constant, so it does not arise.

## Model

| member | source | states |
|---|---|---|
| KernelOrders.BeforeIsStrictTotalOrder | idpsourcecode/src/fobdds/FoBddUtils.hpp:43-61 | the order of kernels is a strict total order: category first, then the higher number |
| Diagrams.Canonical | idpsourcecode/src/fobdds/FoBddManager.cpp:189-227 | two diagrams ordered for the same kernel order and without equal branches are the same exactly when they have the same truth function |
| Diagrams.EquivalentKernels | idpsourcecode/src/fobdds/FoBddManager.cpp:120-187 | equivalent reduced diagrams mention the same kernels, even when each is ordered for an order of its own |
| Store.TreesInjective | idpsourcecode/src/fobdds/FoBddManager.cpp:189-227 | the unique table gives each diagram at most one node |
| Operations.StateWithNode | idpsourcecode/src/fobdds/FoBddManager.cpp:222-227 | a new node leaves the whole state consistent: tables, nesting, categories and every remembered result |
| Store.CanonicalNodes | idpsourcecode/src/fobdds/FoBddManager.cpp:189-227 | nodes of a sorted manager with the same truth function are the same node |
| FoBddManager.FOBDDManager.constructor | idpsourcecode/src/fobdds/FoBddManager.cpp:1728-1749 | a new manager is consistent and sorted and has the two terminals only |
| FoBddManager.FOBDDManager.GetBDD | idpsourcecode/src/fobdds/FoBddManager.cpp:189-227 | in a consistent manager the result is the reduced diagram; the nodes stay sorted if and only if the kernel precedes both branches or no node is needed |
| FoBddManager.FOBDDManager.Negation | idpsourcecode/src/fobdds/FoBddManager.cpp:821-840 | the result is false exactly where the argument is true, mentions no new kernel, is ordered when the argument is, and all earlier nodes and tables stay right |
| FoBddManager.FOBDDManager.Conjunction | idpsourcecode/src/fobdds/FoBddManager.cpp:842-887 | truth function of the conjunction, for the memoised recursion; ordered arguments give an ordered result even among nodes that are not |
| FoBddManager.FOBDDManager.Disjunction | idpsourcecode/src/fobdds/FoBddManager.cpp:889-932 | truth function of the disjunction, ordered likewise |
| FoBddManager.FOBDDManager.Combine | idpsourcecode/src/fobdds/FoBddManager.cpp:842-932 | what both connectives share: absorbing and neutral terminals, equal arguments, the table with each pair once, Shannon expansion on the first kernel |
| FoBddManager.FOBDDManager.IfThenElse | idpsourcecode/src/fobdds/FoBddManager.cpp:934-993 | the kernel, wherever it belongs in the order, decides between the branches; ordered branches give an ordered result even among nodes that are not, and the nodes stay sorted although the kernel may belong below both roots |
| FoBddManager.FOBDDManager.SplitBranches | idpsourcecode/src/fobdds/FoBddManager.cpp:948-989 | the nine comparisons of the kernel with the two roots: the first of the three kernels, with the cofactors of both branches |
| Operations.ConnectiveExpansion | idpsourcecode/src/fobdds/FoBddManager.cpp:868-884 | combining the cofactors and putting them under the kernel combines the diagrams |
| Operations.IfThenElseExpansion | idpsourcecode/src/fobdds/FoBddManager.cpp:948-989 | expansion on a kernel that precedes the deciding one |
| ManagerState.MemoGrows | idpsourcecode/src/fobdds/FoBddManager.cpp:821-993 | every remembered result denotes its operation on its keys in all later states that only add |
| FoBddManager.FOBDDManager.KernelAbove | idpsourcecode/src/fobdds/FoBddManager.cpp:78-93 | the neighbour nearer to the root within the category |
| FoBddManager.FOBDDManager.KernelBelow | idpsourcecode/src/fobdds/FoBddManager.cpp:95-109 | the neighbour further from the root within the category |
| Moves.AboveBelow | idpsourcecode/src/fobdds/FoBddManager.cpp:78-109 | the two neighbour functions are inverse to each other |
| FoBddManager.FOBDDManager.MoveUp | idpsourcecode/src/fobdds/FoBddManager.cpp:111-118 | exchanges the kernel with the one above it, or only forgets the remembered results |
| FoBddManager.FOBDDManager.MoveDown | idpsourcecode/src/fobdds/FoBddManager.cpp:120-187 | exchanges the kernel with the one below it: numbers swapped, every node turned as the exchange of its diagram requires, sorted, consistent |
| FoBddManager.FOBDDManager.TurnNode | idpsourcecode/src/fobdds/FoBddManager.cpp:137-170 | a node with the lower kernel in one or both branches is overwritten in place, and the half-way invariant is kept |
| FoBddManager.FOBDDManager.TurnAll | idpsourcecode/src/fobdds/FoBddManager.cpp:126-172 | when the loop over the table ends all nodes that had to be turned have been, and the entries to erase are exactly their old ones |
| FoBddManager.FOBDDManager.Erase | idpsourcecode/src/fobdds/FoBddManager.cpp:172-180 | exactly the stale entries leave the unique table |
| Moves.Move.NoCollision | idpsourcecode/src/fobdds/FoBddManager.cpp:160-170 | no other node, turned, fresh or untouched, has the triple that a turned node gets |
| Moves.Move.MadeInjective | idpsourcecode/src/fobdds/FoBddManager.cpp:137-165 | different cofactors give different fresh nodes |
| Moves.Move.TurnKeepsInv | idpsourcecode/src/fobdds/FoBddManager.cpp:137-170 | turning one node keeps the half-way invariant of nodes and table |
| Moves.Move.MoveFinished | idpsourcecode/src/fobdds/FoBddManager.cpp:120-187 | after the exchange all nodes are ordered for the new order, reduced, in one-to-one agreement with the unique table, and every old pointer has its old truth function |
| SwapTrees.SwapKeepsMeaning | idpsourcecode/src/fobdds/FoBddManager.cpp:137-165 | the exchange of two neighbouring kernels in a diagram keeps its truth function |
| SwapTrees.SwapOrdered | idpsourcecode/src/fobdds/FoBddManager.cpp:137-187 | the exchanged diagram is ordered for the exchanged order |
| Runs.RunKeeps | idpsourcecode/src/fobdds/FoBddManager.cpp:70-227 | over every run of additions, moves and clearings the manager stays consistent and sorted, and no node ever changes its truth function |
| Runs.RunKeepsMeaning | idpsourcecode/src/fobdds/FoBddManager.cpp:70-227 | over every run a node keeps its meaning in every structure and its estimated chance, through nested quantified kernels |
| Runs.RunCanonical | idpsourcecode/src/fobdds/FoBddManager.cpp:189-227 | at any time of a run equal truth functions mean equal pointers |
| Runs.SameConnective | idpsourcecode/src/fobdds/FoBddManager.cpp:842-932 | a conjunction or disjunction recomputed later, with moves in between, is the same pointer |
| Runs.NegationTwice | idpsourcecode/src/fobdds/FoBddManager.cpp:821-840 | negating twice gives back the same pointer |
| Runs.SameIfThenElse | idpsourcecode/src/fobdds/FoBddManager.cpp:934-993 | if-then-else recomputed later is the same pointer |
| FoBddManager.FOBDDManager.ToTop | idpsourcecode/src/fobdds/FoBddManager.cpp:1526-1528 | the kernel becomes the first of its category, all others keep their relative order |
| FoBddManager.FOBDDManager.Descend | idpsourcecode/src/fobdds/FoBddManager.cpp:1529-1542 | the walk down ends at the bottom with the number of steps back to the first place of minimal cost |
| FoBddManager.FOBDDManager.SiftKernel | idpsourcecode/src/fobdds/FoBddManager.cpp:1524-1551 | one round leaves the kernel at the first place of minimal cost of its category, everything else as it was |
| FoBddManager.FOBDDManager.OptimizeQuery | idpsourcecode/src/fobdds/FoBddManager.cpp:1517-1553 | a round for every kernel of the query, nested ones included and each once; meanings unchanged, and the estimated cost of the query not higher than before |
| Sifting.EstimateIsCostAt | idpsourcecode/src/fobdds/FoBddManager.cpp:1531-1537 | because diagrams are canonical, the estimate at a place does not depend on the way the kernel got there |
| Sifting.OrdersAtKeepsOthers | idpsourcecode/src/fobdds/FoBddManager.cpp:1517-1553 | a kernel moved through its category leaves all others in their relative order |
| FoBddManager.FOBDDManager.AllKernels | idpsourcecode/src/fobdds/FoBddManager.cpp:1453-1468 | exactly the kernels tested at the top or in nested diagrams |
| FoBddManager.FOBDDManager.NodeContains | idpsourcecode/src/fobdds/FoBdd.cpp:16-26 | whether a De Bruijn index occurs in the diagram of a node |
| FoBddManager.FOBDDManager.KernelContainsIndex | idpsourcecode/src/fobdds/FoBddKernels.cpp:25-36 | whether a De Bruijn index occurs free in a kernel, one higher under a quantifier |
| Semantics.TermIndependent | idpsourcecode/src/fobdds/FoBddTerms.cpp:23-30 | a term without an index has a value independent of that index |
| Semantics.KernelIndependent | idpsourcecode/src/fobdds/FoBddKernels.cpp:25-36 | a kernel without an index has a truth value independent of that index |
| Semantics.TreeIndependent | idpsourcecode/src/fobdds/FoBdd.cpp:16-26 | a diagram without an index has a truth value independent of that index |
| SetExpressions.PushAllIndex | idpsourcecode/src/fobdds/FoBddSetExpr.cpp:18-21 | under several binders an index is moved by their number |
| SetExpressions.SetIndependent | idpsourcecode/src/fobdds/FoBddSetExpr.cpp:18-21 | a set without an index has elements independent of that index |
| SetExpressions.AggKernelIndependent | idpsourcecode/src/fobdds/FoBddKernels.cpp:37-39 | whatever the aggregates are, a comparison of a term with an aggregate is independent of an index that does not occur in it |
| Quantification.TableWithKernelOk | idpsourcecode/src/fobdds/FoBddManager.cpp:42-63 | a new kernel with the next number of its category keeps kernels, orders and tables in one-to-one agreement |
| Quantification.StateWithKernel | idpsourcecode/src/fobdds/FoBddManager.cpp:42-63 | a new kernel leaves the whole state consistent, and as sorted as it was |
| FoBddManager.FOBDDManager.GetAtomKernel | idpsourcecode/src/fobdds/FoBddManager.cpp:240-343 | the one kernel of an atom, a new one only when there is none; an equation of a term with itself is true |
| FoBddManager.FOBDDManager.GetQuantKernel | idpsourcecode/src/fobdds/FoBddManager.cpp:345-392 | the one kernel of a quantified diagram; its category looks at index 1 |
| Quantification.TerminalQuantified | idpsourcecode/src/fobdds/FoBddManager.cpp:345-352 | a quantified terminal is rightly replaced by its terminal kernel for false, and for true if and only if the sort has an element |
| FoBddManager.FOBDDManager.Quantify | idpsourcecode/src/fobdds/FoBddManager.cpp:1058-1090 | true exactly when some element of the sort at index 0 makes the diagram true, for diagrams in which index 0 is the only free one; the nodes stay sorted when the kernel for the sort comes first; every quantified kernel it makes has index 0 at the root of its diagram, so the quantifier is pushed in as far as it goes |
| FoBddManager.FOBDDManager.QuantifyVacuous | idpsourcecode/src/fobdds/FoBddManager.cpp:1064-1072 | nothing to bind: a possibly empty sort is tested first; the nodes stay sorted if and only if the kernel for the sort precedes the root |
| FoBddManager.FOBDDManager.QuantifyBranches | idpsourcecode/src/fobdds/FoBddManager.cpp:1079-1083 | a kernel without index 0 is pulled out of the quantifier |
| Quantification.PulledOut | idpsourcecode/src/fobdds/FoBddManager.cpp:1079-1083 | pulling out is right when the kernel has no index 0 |
| Quantification.UnderKernel | idpsourcecode/src/fobdds/FoBddManager.cpp:1084-1087 | a diagram whose root has index 0 becomes a quantified kernel of its own |
| Quantification.VacuousUser | idpsourcecode/src/fobdds/FoBddManager.cpp:1068-1072 | under the kernel that says the sort is not empty a closed diagram is its own quantification |
| Quantification.VacuousEmptyBuiltin | idpsourcecode/src/fobdds/FoBddManager.cpp:1064-1067 | over an empty built-in sort the code answers the negation, which is right if and only if the diagram is true |
| Quantification.SortKernelStaysFirst | idpsourcecode/src/fobdds/FoBddManager.cpp:42-63 | kernels made later get higher numbers, so a sort kernel made on demand comes before all present standard kernels |
| OrderLost.QuantifyLosesOrder | idpsourcecode/src/fobdds/FoBddManager.cpp:1068-1072 | a concrete run after which a node does not respect the kernel order: the sort kernel is older than the atom it is put on |
| FoBddManager.FOBDDManager.SortNotEmpty | idpsourcecode/src/fobdds/FoBddManager.cpp:1068-1071 | the kernel that says some element is in the sort |
| FoBddManager.FOBDDManager.Change | idpsourcecode/src/fobdds/FoBddVisitor.cpp:86-97 | the rebuilt diagram is the truth function of the old one on the changed kernels, and is ordered wherever the new kernels fall and whether or not the other nodes are |
| FoBddManager.FOBDDManager.ChangeKernel | idpsourcecode/src/fobdds/FoBddVisitor.cpp:99-110 | one kernel, through any depth of nesting |
| FoBddManager.FOBDDManager.ChangeKernels | idpsourcecode/src/fobdds/FoBddVisitor.cpp:86-97 | the same for any change of kernels whatever |
| Renaming.MappedHolds | idpsourcecode/src/fobdds/FoBddVisitor.cpp:86-97 | any change of kernels that respects evaluation from one environment to another gives a diagram that does |
| Rebuilding.ChangedExactly | idpsourcecode/src/fobdds/FoBddVisitor.cpp:86-110 | when the terms that are met stay different, which can be seen before the change, the rebuilt diagram read in an environment has the value of the old one in the changed environment, in every structure, empty sorts or not |
| Rebuilding.QuantExactlyWhen | idpsourcecode/src/fobdds/FoBddManager.cpp:345-352 | a quantified kernel keeps its meaning through a change if and only if its sort is not empty or its nested diagram does not become true; both are known before the change |
| SubstitutionLost.SubstitutionChangesMeaning | idpsourcecode/src/fobdds/FoBddManager.cpp:1096-1099 | a concrete run in which putting the same term for two variables makes a kernel true that was false |
| FoBddManager.FOBDDManager.Substitute | idpsourcecode/src/fobdds/FoBddManager.cpp:1096-1099 | replacing variables by terms: right wherever no diagram nested over an empty sort becomes true, and everywhere when the terms that are met stay different |
| Rebuilding.InhabitedHarmless | idpsourcecode/src/fobdds/FoBddManager.cpp:345-352 | over sorts with elements no change does harm |
| Renaming.RenamesOnce | idpsourcecode/src/fobdds/FoBddVisitor.cpp:99-110 | a visitor makes the same kernel of a kernel whenever it meets it |
| FoBddManager.FOBDDManager.ChangeArgs | idpsourcecode/src/fobdds/FoBddVisitor.cpp:100-104 | the arguments changed one by one |
| Visitors.Visitor.TermChanged | idpsourcecode/src/fobdds/bddvisitors/BumpIndices.hpp:51-65 | a changed term has the value of the old one in the changed environment |
| Visitors.Visitor.TermsApart | idpsourcecode/src/fobdds/bddvisitors/BumpIndices.hpp:51-65 | binding a variable keeps different terms different |
| Renaming.RenamesApart | idpsourcecode/src/fobdds/bddvisitors/BumpIndices.hpp:36-65 | a change that keeps terms apart renames kernels one to one, nested diagrams compared by truth function |
| Renaming.ApartBecome | idpsourcecode/src/fobdds/bddvisitors/BumpIndices.hpp:36-65 | when terms are kept apart no two kernels become the same and none becomes a terminal, whether or not the nodes respect the order; this is known before the change |
| Renaming.BecomeSameImage | idpsourcecode/src/fobdds/FoBddVisitor.cpp:99-110 | kernels whose changed contents are the same, told before the change with nested diagrams compared up to the kernels that become the same, do become one kernel |
| Renaming.SameImageBecome | idpsourcecode/src/fobdds/FoBddVisitor.cpp:99-110 | and only these become one kernel |
| Rebuilding.BecomesTrue | idpsourcecode/src/fobdds/FoBddManager.cpp:345-352 | a kernel becomes the true kernel if and only if its contents say so before the change |
| Rebuilding.ChangedSorted | idpsourcecode/src/fobdds/bddvisitors/BumpIndices.hpp:51-65 | a change keeps every bound index of the sort of its quantifier, and binding a variable gives its index the sort of the variable |
| Renaming.BindingKeepsApart | idpsourcecode/src/fobdds/bddvisitors/BumpIndices.hpp:51-65 | binding a variable always keeps terms apart |
| Renaming.NodeMapped | idpsourcecode/src/fobdds/FoBddVisitor.cpp:92-95 | putting changed kernel and branches together gives the changed diagram |
| Rebuilding.TreeRenamed | idpsourcecode/src/fobdds/FoBddVisitor.cpp:86-110 | meaning through all levels of nesting, in every structure in which the change does no harm |
| FoBddManager.FOBDDManager.OpenQuantKernel | idpsourcecode/src/generators/BDDBasedGeneratorFactory.cpp:791-798 | with a variable that does not occur in the nested diagram in place of the bound index, the quantified kernel holds exactly when some value of that variable makes the diagram true |
| Opening.Opened | idpsourcecode/src/fobdds/FoBddManager.cpp:1116-1119 | substituting a variable for the bound index keeps the meaning and closes the indices |
| Opening.KernelWithout | idpsourcecode/src/fobdds/bddvisitors/VariableCollector.hpp:22-40 | a kernel is independent of the variables that do not occur in it, nested diagrams included |
| Opening.BoundAndOpened | idpsourcecode/src/fobdds/bddvisitors/SubstituteTerms.hpp:52-61 | putting the variable back for the index undoes binding it in terms, at any depth |
| Opening.BoundAndOpenedNode | idpsourcecode/src/fobdds/bddvisitors/SubstituteTerms.hpp:52-66 | binding a variable and opening again gives an equivalent diagram, and the same pointer if and only if the diagram was ordered |
| Opening.OpenedAndBoundNode | idpsourcecode/src/fobdds/bddvisitors/SubstituteTerms.hpp:52-66 | opening a quantified kernel and binding the variable again gives back the pointer that was nested |
| FoBddManager.FOBDDManager.ChangeQuantSet | idpsourcecode/src/fobdds/bddvisitors/BumpIndices.hpp:43-48 | a rebuilt set, read in an environment, has the elements of the old one in the changed environment |
| SetExpressions.BelowBinders | idpsourcecode/src/fobdds/bddvisitors/BumpIndices.hpp:43-48 | a visitor moved below several binders changes environments as it does outside |
| FoBddManager.FOBDDManager.SetQuantify | idpsourcecode/src/fobdds/FoBddManager.cpp:1003-1018 | binds the variables of a set one by one, in formula and term |
| SetExpressions.SetBindsMore | idpsourcecode/src/fobdds/FoBddManager.cpp:1008-1012 | binding one more variable moves those bound before it up |
| SetExpressions.BindSeqValue | idpsourcecode/src/fobdds/FoBddManager.cpp:1008-1012 | each of several different variables gets the value at its own place |
| SetExpressions.BoundElements | idpsourcecode/src/fobdds/FoBddManager.cpp:1003-1018 | the elements are the values of the term for all values of the variables that satisfy the formula |
| FoBddManager.FOBDDManager.ExistsQuantify | idpsourcecode/src/fobdds/FoBddManager.cpp:1032-1037 | true exactly when some value of the variable makes the diagram true |
| FoBddManager.FOBDDManager.ExistsQuantifyAll | idpsourcecode/src/fobdds/FoBddManager.cpp:1039-1045 | true exactly when some values of all the variables do, whatever the order of binding |
| FoBddManager.FOBDDManager.UnivQuantifyAll | idpsourcecode/src/fobdds/FoBddManager.cpp:1026-1030 | true exactly when all values of the variables do |
| FoBddFactory.FOBDDFactory.Visit | idpsourcecode/src/fobdds/FoBddFactory.cpp:117-186 | for every formula the diagram built is true exactly when the formula is, in every structure and for all values of the free variables |
| FoBddFactory.FOBDDFactory.VisitPredForm | idpsourcecode/src/fobdds/FoBddFactory.cpp:117-136 | atoms, with signs and certain or possible parts of bounded predicates |
| FoBddFactory.FOBDDFactory.VisitBoolForm | idpsourcecode/src/fobdds/FoBddFactory.cpp:138-157 | n-ary conjunctions and disjunctions, the empty ones included |
| FoBddFactory.FOBDDFactory.VisitEquivForm | idpsourcecode/src/fobdds/FoBddFactory.cpp:159-172 | equivalences |
| FoBddFactory.FOBDDFactory.VisitQuantForm | idpsourcecode/src/fobdds/FoBddFactory.cpp:174-186 | quantification over sets of variables |
| FoBddFactory.FOBDDFactory.VisitQuantSetExpr | idpsourcecode/src/fobdds/FoBddFactory.cpp:74-85 | the compiled set of an aggregate has the elements of the set in the formula, with multiplicity, in every structure and for all values of the free variables |
| FoBddFactory.FOBDDFactory.VisitEnumSetExpr | idpsourcecode/src/fobdds/FoBddFactory.cpp:65-73 | likewise for each set of a list |
| Formulas.AtomCompiled | idpsourcecode/src/fobdds/FoBddFactory.cpp:90-136 | reading a possible part as the inverse of the opposite certain part is right |
| FoBddManager.FOBDDManager.KernelSymbols | idpsourcecode/src/fobdds/bddvisitors/SymbolCollector.hpp:32-40 | exactly the predicate and function symbols of a kernel, those of its terms and of nested diagrams included; what the collected symbols mean is `CleanIgnores` and `AtomUsesExactly` |
| FoBddManager.FOBDDManager.MakeMoreWithin | idpsourcecode/src/fobdds/FoBddManager.cpp:1707-1725 | for any diagram in any manager: the result is without the symbols, has the goal value wherever the diagram has it, and is the same node when none of them occurs; an ordered diagram gives an ordered result, true (for goal true) exactly where some values of the kernels with the symbols make the diagram true, and is answered when the fuel is more than the number of kernels after its root |
| FoBddManager.FOBDDManager.MakeMoreWithout | idpsourcecode/src/fobdds/FoBddManager.cpp:1707-1725 | for an ordered diagram, whether or not the other nodes are ordered, the removal always ends, and the manager stays as sorted as it was |
| Approximations.AbstractionIsSound | idpsourcecode/src/fobdds/FoBddManager.cpp:1698-1725 | the result is implied by the diagram, or implies it, and has none of the symbols |
| Approximations.AbstractionIsTightest | idpsourcecode/src/fobdds/FoBddManager.cpp:1698-1725 | no diagram without the symbols lies between the two |
| Approximations.CleanStays | idpsourcecode/src/fobdds/FoBddManager.cpp:1707-1725 | removing symbols that do not occur returns the same pointer, for any diagram in any manager |
| Approximations.CleanIgnores | idpsourcecode/src/fobdds/bddvisitors/SymbolCollector.hpp:32-40 | a diagram without the symbols has the same value, in every environment and through all nesting, in any two structures that differ in these predicates and functions only |
| Approximations.AtomUsesExactly | idpsourcecode/src/fobdds/bddvisitors/SymbolCollector.hpp:32-40 | conversely an atom of a predicate uses a symbol if and only if its truth can change with that symbol alone |
| FoBddManager.FOBDDManager.MakeMore | idpsourcecode/src/fobdds/FoBddManager.cpp:1564-1672 | for every cost model, any diagram and any manager: a weakening (goal true) or strengthening (goal false), and the same node, with nothing added to the manager, if and only if no step is available anywhere below it, with the variables and weights handed down; a step is a root with a terminal of the other value on one side and a strictly cheaper diagram on the other. None is left in the result, and every root that was left out was left for a strictly cheaper branch. Ordered when the diagram is, and the manager stays as sorted as it was |
| FoBddManager.FOBDDManager.PathsToFalse | idpsourcecode/src/fobdds/FoBddManager.cpp:1410-1431 | the paths in order: those through the false branch first |
| Paths.PathsPartition | idpsourcecode/src/fobdds/FoBddManager.cpp:1404-1431 | a valuation makes the diagram false if and only if it follows exactly one of the paths; otherwise it follows none |
| BddStatistics.BddStatistics.EstimateChance | idpsourcecode/src/fobdds/Estimations.cpp:71-92 | the estimate of a node is the chance of its diagram and lies between 0 and 1 |
| BddStatistics.BddStatistics.EstimateKernelChance | idpsourcecode/src/fobdds/Estimations.cpp:268-376 | the estimate of a quantified kernel from that of the nested diagram, by the size of the sort; what it is worth is `QuantChanceOfSize` |
| Estimations.QuantChanceOfSize | idpsourcecode/src/fobdds/Estimations.cpp:268-376 | for a sort of known size the estimate is at least the chance that some of that many independent elements makes the diagram true, unless it is capped, at most their expected number, and 0 exactly when that chance is |
| Estimations.ChanceIsExpected | idpsourcecode/src/fobdds/Estimations.cpp:71-92 | on a diagram that tests no kernel twice the estimate is the sum, over all valuations of its kernels that make it true, of the product of the chances of what they say of each kernel |
| Estimations.ChanceOfValuation | idpsourcecode/src/fobdds/Estimations.cpp:71-92 | when the chances are 1 for the kernels that are true and 0 for the others, the estimate is 1 if the diagram is true and 0 if it is not |
| Estimations.ValuationsComplete | idpsourcecode/src/fobdds/Estimations.cpp:71-92 | the valuations that are summed over are all there are, each once, and their chances add up to 1 |
| Estimations.ChanceOfEquivalent | idpsourcecode/src/fobdds/Estimations.cpp:71-92 | equivalent diagrams have the same estimate, whatever their orders |
| Estimations.ChanceOfNegation | idpsourcecode/src/fobdds/Estimations.cpp:71-92 | a diagram and its negation have complementary estimates |
| Estimations.ChanceKept | idpsourcecode/src/fobdds/Estimations.cpp:71-92 | no move and no addition changes the estimate of a node, also through nested quantified kernels |
| Arithmetic.FactorsValue | idpsourcecode/src/fobdds/bddvisitors/CollectSameOperationTerms.hpp:30-70 | the product of the collected factors is the term |
| Arithmetic.SummandsValue | idpsourcecode/src/fobdds/bddvisitors/CollectSameOperationTerms.hpp:30-70 | the sum of the collected terms is the term |
| Arithmetic.TermBefore | idpsourcecode/src/fobdds/FoBddUtils.cpp:66-86 | terms with fewer factors come first, and otherwise the first place after the constant at which the factors are ordered decides |
| NormalForms.TermOrderIsKeyOrder | idpsourcecode/src/fobdds/FoBddUtils.cpp:66-86 | for a strict total order of terms this compares the factors after the constant: fewer first, then lexicographically |
| NormalForms.SameCoefficients | idpsourcecode/src/fobdds/FoBddManager.cpp:630-753 | two normal terms in which every product has the same coefficient are the same term |
| ArithmeticRewriting.GetFuncTerm | idpsourcecode/src/fobdds/FoBddManager.cpp:496-520 | the rewritten term has the requested value in every environment, mentions no new variable, and has no zero factor; its form is `RequestNormalExactly` |
| ArithmeticRewriting.GetProduct | idpsourcecode/src/fobdds/FoBddManager.cpp:521-629 | constants multiplied out, distributivity and sorting of products keep the value, whatever the order of terms |
| ArithmeticRewriting.Distribute | idpsourcecode/src/fobdds/FoBddManager.cpp:555-583 | distributivity |
| ArithmeticRewriting.OrderProduct | idpsourcecode/src/fobdds/FoBddManager.cpp:584-629 | commutativity and associativity of products |
| ArithmeticRewriting.GetSum | idpsourcecode/src/fobdds/FoBddManager.cpp:630-753 | constants added up, sorting of sums and merging of like terms keep the value; that like terms do get merged is `SumNormalExactly` |
| ArithmeticRewriting.MergeLikeTerms | idpsourcecode/src/fobdds/FoBddManager.cpp:702-753 | terms with equal factors after the constant are merged, keeping the value; the form of the result is `SumNormalExactly` |
| ArithmeticRewriting.AddConstants | idpsourcecode/src/fobdds/FoBddManager.cpp:725-741 | the common factors times the sum of the two constants is the sum of both terms |
| ArithmeticRewriting.Invert | idpsourcecode/src/fobdds/FoBddManager.cpp:229-238 | minus one times the term |
| ArithmeticRewriting.RequestAnsweredOnce | idpsourcecode/src/fobdds/FoBddManager.cpp:496-753 | going deeper never changes an answer, so each request has at most one |
| ArithmeticRewriting.AnswersAgree | idpsourcecode/src/fobdds/FoBddManager.cpp:513-753 | likewise for every product and sum |
| NormalSums.SumNormalExactly | idpsourcecode/src/fobdds/FoBddManager.cpp:630-753 | the sum of two normal terms is normal if and only if `Settles` holds of them: nothing has to go before a first product or call, and none behind it is cancelled; then it has the sum of both coefficients for every product, and comes with fuel twice the number of products |
| NormalSums.SumOutOfOrder | idpsourcecode/src/fobdds/FoBddManager.cpp:651-700 | twice y plus x, where x comes before y, is left in this order, which is not normal, while x plus twice y is |
| NormalProducts.MonoNormalExactly | idpsourcecode/src/fobdds/FoBddManager.cpp:521-629 | the product of two normal products is normal if and only if `MonoSettles` holds of them: no factor has to go before a first call; then its constant is the product of the constants and its factors are those of both |
| NormalProducts.ProductOutOfOrder | idpsourcecode/src/fobdds/FoBddManager.cpp:584-629 | a call times an unknown that comes before it is left in this order, which is not normal |
| NormalExpansion.ProductsOrdered | idpsourcecode/src/fobdds/FoBddManager.cpp:584-629 | multiplication respects the order of products: greater factors give a greater product, and equal products come from equal factors only |
| NormalExpansion.ProductNormalExactly | idpsourcecode/src/fobdds/FoBddManager.cpp:555-629 | where every two products settle, the product of two normal sums is normal if and only if the sums of its rows settle |
| NormalExpansion.SquarePutRight | idpsourcecode/src/fobdds/FoBddManager.cpp:555-753 | where they do not, both can happen: in the square of x + f * g two products are out of order, and in order after they have been added up |
| NormalRequests.MulPolyOk | idpsourcecode/src/fobdds/FoBddManager.cpp:555-583 | the coefficients of a product of sums are those of all pairs of their products |
| NormalRequests.MultiplesSettle | idpsourcecode/src/fobdds/FoBddManager.cpp:555-629 | a constant times a sum settles if and only if no product in the sum starts with a call that has other factors behind it |
| NormalRequests.RequestAnsweredNormal | idpsourcecode/src/fobdds/FoBddManager.cpp:496-753 | where everything settles every request about normal terms is answered with enough fuel, and every answer is normal |
| NormalMultiples.RequestNormalExactly | idpsourcecode/src/fobdds/FoBddManager.cpp:496-753 | sums, differences, negations, and products of a constant and a term, of single products, or with every two products settling: the answer is normal if and only if the request settles |
| NormalMultiples.MultipleNotNormal | idpsourcecode/src/fobdds/FoBddManager.cpp:555-629 | where a constant multiple does not settle, neither it nor a sum of any normal term and it is normal |
| NormalRequests.EqualSides | idpsourcecode/src/fobdds/FoBddManager.cpp:240-325 | an equation of two normal terms with the same coefficients is the true kernel |
| NormalRequests.ComparedNormal | idpsourcecode/src/fobdds/FoBddManager.cpp:277-325 | a comparison is stored with the normal difference of its sides on the left, and zero on the right |
| Comparisons.ComparedOnce | idpsourcecode/src/fobdds/FoBddManager.cpp:277-325 | likewise for comparisons |
| Comparisons.GetComparison | idpsourcecode/src/fobdds/FoBddManager.cpp:277-325 | moving everything to the left and flipping keep the truth of =, < and >; for a constant against zero, exactly when the flipping never ends |
| Comparisons.MoveLeft | idpsourcecode/src/fobdds/FoBddManager.cpp:281-307 | the right side moved to the left |
| Comparisons.Solve | idpsourcecode/src/fobdds/FoBddManager.cpp:1189-1340 | whenever a term is returned the comparison is equivalent to "term op argument" for all values, and the term does not contain the argument |
| Comparisons.NotSolvable | idpsourcecode/src/fobdds/FoBddManager.cpp:1189-1340 | an inequality with a positive multiple of the unknown has no term for the left side of a comparison with the unknown |
| Comparisons.UnsolvedOnlyIf | idpsourcecode/src/fobdds/FoBddManager.cpp:1189-1340 | whenever a linear comparison is not solved although there is fuel, what is left is of an integer sort and the coefficient is not 1 or -1, or no term solves it |
| Comparisons.SolveLinear | idpsourcecode/src/fobdds/FoBddManager.cpp:1280-1340 | the cases of the coefficient: minus one, one, and division, turning no comparison the wrong way |
| Comparisons.SolvedOnce | idpsourcecode/src/fobdds/FoBddManager.cpp:1189-1340 | going deeper never changes a solution |
| Comparisons.SumRest | idpsourcecode/src/fobdds/FoBddManager.cpp:1280-1296 | the sum of all terms but the one with the argument |
| Comparisons.Occurrences | idpsourcecode/src/fobdds/FoBddManager.cpp:1228-1242 | how often and where the argument occurs |
| Comparisons.SolvableEquationHolds | idpsourcecode/src/fobdds/FoBddManager.cpp:354-373 | an equation solved for the bound index by a term with values in the sort has a solution, so the quantified kernel is true |
| SolvedKernels.SolvedQuantKernel | idpsourcecode/src/fobdds/FoBddManager.cpp:345-373 | a quantified kernel of the manager over a single equation solved for the bound index holds exactly when some element of the sort has the value of the solution, so it may be taken for true if and only if that is always so |
| IntTypes.ExactlyOneZone | idpsourcecode/lib/safeint/safeint3.hpp:796-829 | every pair of integer types lies in exactly one zone |
| IntTypes.SizeIsPower | idpsourcecode/lib/safeint/safeint3.hpp:740-773 | a type has two to the power of its bits values, half of them negative when it is signed |
| SafeCasts.SafeCast | idpsourcecode/lib/safeint/safeint3.hpp:1042-1069 | the cast succeeds if and only if the value fits, and then keeps it |
| SafeCasts.IsEquals | idpsourcecode/lib/safeint/safeint3.hpp:1308-1369 | equality across types and signs is equality of numbers |
| SafeCasts.GreaterThan | idpsourcecode/lib/safeint/safeint3.hpp:1308-1422 | comparison across types and signs is the order of numbers |
| SafeMultiplication.MethodSuits | idpsourcecode/lib/safeint/safeint3.hpp:1642-1679 | every pair of types gets a method that is made for it |
| SafeMultiplication.RegMultiplyUint64Uint64 | idpsourcecode/lib/safeint/safeint3.hpp:1836-1897 | 64-bit product from 32-bit halves: exact, or failure exactly when it does not fit |
| SafeMultiplication.RegMultiplyUint64Uint32 | idpsourcecode/lib/safeint/safeint3.hpp:1961-2002 | 64 by 32 bits from halves |
| SafeMultiplication.RegMultiplyUint64Int32 | idpsourcecode/lib/safeint/safeint3.hpp:2051-2061 | unsigned 64 by signed 32 bits |
| SafeMultiplication.RegMultiplyUint64Int64 | idpsourcecode/lib/safeint/safeint3.hpp:2081-2091 | unsigned by signed 64 bits |
| SafeMultiplication.RegMultiplyInt32Uint64 | idpsourcecode/lib/safeint/safeint3.hpp:2108-2159 | signed 32 by unsigned 64 bits, down to the smallest number |
| SafeMultiplication.RegMultiplyUint32Uint64 | idpsourcecode/lib/safeint/safeint3.hpp:2212-2230 | unsigned 32 by 64 bits |
| SafeMultiplication.RegMultiplyUint32Int64 | idpsourcecode/lib/safeint/safeint3.hpp:2250-2255 | unsigned 32 by signed 64 bits |
| SafeMultiplication.RegMultiplyInt64Int64 | idpsourcecode/lib/safeint/safeint3.hpp:2267-2319 | signed 64-bit product by magnitudes, all combinations of signs |
| SafeMultiplication.RegMultiplyInt64Uint32 | idpsourcecode/lib/safeint/safeint3.hpp:2377-2416 | signed 64 by unsigned 32 bits |
| SafeMultiplication.RegMultiplyInt64Int32 | idpsourcecode/lib/safeint/safeint3.hpp:2466-2515 | signed 64 by signed 32 bits |
| SafeMultiplication.RegMultiplyInt32Int64 | idpsourcecode/lib/safeint/safeint3.hpp:2571-2632 | signed 32 by signed 64 bits |
| SafeMultiplication.RegMultiplyInt64Uint64 | idpsourcecode/lib/safeint/safeint3.hpp:2698-2739 | signed by unsigned 64 bits |
| SafeDivision.QuotientExactly | idpsourcecode/lib/safeint/safeint3.hpp:3128-3134 | quotient and remainder of the machine division are the only ones that give back the dividend with a smaller remainder of its sign |
| SafeDivision.SafeDivide | idpsourcecode/lib/safeint/safeint3.hpp:5406-5410 | the quotient if it fits the first type and failure otherwise, for all operands but the corner cases, in which another number is returned |
| SafeDivision.DivideByUint64 | idpsourcecode/lib/safeint/safeint3.hpp:3265-3304 | a signed number over an unsigned 64-bit one: right if and only if not the smallest number of a narrower type over its magnitude, or over itself read as unsigned |
| SafeDivision.CornerCaseExists | idpsourcecode/lib/safeint/safeint3.hpp:3292-3296 | operands for which the quotient should be -1 |
| SafeDivision.DivideSigned | idpsourcecode/lib/safeint/safeint3.hpp:3381-3404 | signed by signed: only the smallest number over -1 fails |
| SafeDivision.SafeModulus | idpsourcecode/lib/safeint/safeint3.hpp:5394-5398 | for every pair of types: the remainder, and failure only for the divisor 0 |
| SafeDivision.ModulusByUint64 | idpsourcecode/lib/safeint/safeint3.hpp:1589-1607 | the remainder of a negative number by complementing |
| SafeMultiplication.SafeMultiply | idpsourcecode/lib/safeint/safeint3.hpp:5400-5404 | for every pair of types: the exact product if it fits the first type, and failure otherwise |
| SafeAddition.AdditionMethodSuits | idpsourcecode/lib/safeint/safeint3.hpp:3447-3482 | every pair of types gets a method that is made for it |
| SafeAddition.AddInt64 | idpsourcecode/lib/safeint/safeint3.hpp:3882-3905 | signed 64-bit addition |
| SafeAddition.AddUnsignedToSigned | idpsourcecode/lib/safeint/safeint3.hpp:3968-4058 | mixed addition by wrapping around |
| SafeAddition.SafeAdd | idpsourcecode/lib/safeint/safeint3.hpp:5412-5416 | for every pair of types: the exact sum if it fits the first type, and failure otherwise |
| SafeAddition.SubtractionMethodSuits | idpsourcecode/lib/safeint/safeint3.hpp:4109-4143 | every pair of types gets a method that is made for it |
| SafeAddition.SubtractInt64FromInt | idpsourcecode/lib/safeint/safeint3.hpp:4802-4862 | a 64-bit number taken from a smaller one, by signs |
| SafeAddition.SafeSubtract | idpsourcecode/lib/safeint/safeint3.hpp:5418-5422 | for every pair of types: the exact difference if it fits the first type, and failure otherwise |
| SafeInt.Evaluate | idpsourcecode/lib/safeint/safeint3.hpp:5360-5422 | an expression of any size has its exact value, or fails exactly when an intermediate result is out of range |
| SafeInt.SafeTtoI | idpsourcecode/lib/safeint/safeint3.hpp:6311-6350 | the signed value of the longest prefix of digits; an error exactly when there is no input or the value does not fit; what that value is, is `NumeralParsed` |
| SafeInt.NumeralParsed | idpsourcecode/lib/safeint/safeint3.hpp:6311-6350 | for every type and every value of it, parsing its decimal numeral gives the value, with a minus sign for negative values, an optional plus sign for others, and whatever follows the digits |
| SafeInt.SafeInt.AppendDigit | idpsourcecode/lib/safeint/safeint3.hpp:6334-6345 | one more digit, without overflow on the way to the smallest number |
| SafeInt.SafeInt.Align | idpsourcecode/lib/safeint/safeint3.hpp:6271-6295 | the least multiple of the power of two that is not below the value; an error exactly when it does not fit |
| BDDBasedGeneratorFactory.GetFirstOccurences | idpsourcecode/src/generators/BDDBasedGeneratorFactory.cpp:99-115 | for every position the first position of the same variable |
| BDDBasedGeneratorFactory.ExtractFirstOccurringOutputs | idpsourcecode/src/generators/BDDBasedGeneratorFactory.cpp:117-135 | the output variables with their tables, in order and each where it occurs first, repeated variables included |
| BDDBasedGeneratorFactory.SplitVariables | idpsourcecode/src/generators/BDDBasedGeneratorFactory.cpp:208-244 | variables of the kernel become input for the branches; kernel outputs and branch outputs together are all outputs |
| BDDBasedGeneratorFactory.CreateFromBDD | idpsourcecode/src/generators/BDDBasedGeneratorFactory.cpp:147-319 | the generator enumerates exactly the output tuples over the tables that make the diagram true for the given inputs, each once |
| BDDBasedGeneratorFactory.CreateUnion | idpsourcecode/src/generators/BDDBasedGeneratorFactory.cpp:274-299 | the case of a true branch that is always true: the false side is not restricted, what the kernel accepts is skipped |
| BDDBasedGeneratorFactory.CreateFromKernel | idpsourcecode/src/generators/BDDBasedGeneratorFactory.cpp:785-858 | both branches of a quantified kernel |
| NodeGenerators.ReadNode | idpsourcecode/src/generators/BDDBasedGeneratorFactory.cpp:785-798 | opening every quantified kernel met with a new variable gives a diagram over variables that stands for the node in every structure with the given tables |
| NodeGenerators.CreateFromNode | idpsourcecode/src/generators/BDDBasedGeneratorFactory.cpp:147-319 | for a node of the manager: the generator enumerates exactly the tuples over the tables that make the node true for the given inputs, each once |
| NodeGenerators.ReadableImages | idpsourcecode/src/generators/BDDBasedGeneratorFactory.cpp:791-798 | opening keeps the bound indices of the remaining quantifiers well sorted, and adds the new variable only |
| NodeGenerators.SortedReadable | idpsourcecode/src/generators/BDDBasedGeneratorFactory.cpp:785-798 | every diagram in which bound indices have the sorts of their quantifiers, and so every compiled one, can be opened all the way down |
| NodeGenerators.CreateOptimized | idpsourcecode/src/generators/BDDBasedGeneratorFactory.cpp:143-201 | the same after copying the diagram to a manager of its own and optimising it there: the generator enumerates what the original node says |
| FoBddManager.FOBDDManager.NodeVariables | idpsourcecode/src/fobdds/bddvisitors/VariableCollector.hpp:25-42 | exactly the variables that occur in the diagram of a node, nested diagrams included |
| FoBddManager.FOBDDManager.CopyFrom | idpsourcecode/src/fobdds/FoBddManager.cpp:212-215 | a copy in another manager, with its own order of kernels, has the meaning of the original in every structure and is ordered |
| FoBddManager.FOBDDManager.CopyNode | idpsourcecode/src/fobdds/bddvisitors/Copy.hpp:105-116 | the copy is the truth function of the original on the copied kernels, which are put in their places |
| FoBddManager.FOBDDManager.CopyKernel | idpsourcecode/src/fobdds/bddvisitors/Copy.hpp:76-93 | one kernel, through any depth of nesting |
| Copying.CopiesApart | idpsourcecode/src/fobdds/bddvisitors/Copy.hpp:76-93 | different kernels have different copies, and none is a terminal kernel |
| Copying.CopyHolds | idpsourcecode/src/fobdds/bddvisitors/Copy.hpp:105-116 | meaning through all levels of nesting, empty sorts or not |
| Copying.NodeCopiedBack | idpsourcecode/src/inferences/grounding/GrounderFactory.cpp:1504-1530 | copying a copy back gives an equivalent diagram, and the same pointer if and only if the original was ordered |
| GrounderFactory.Simplify | idpsourcecode/src/inferences/grounding/GrounderFactory.cpp:1472-1488 | removing symbols and then what costs too much: sound on the side of the goal, free of the symbols, and without any cheaper branch left to go to |
| GrounderFactory.Improve | idpsourcecode/src/inferences/grounding/GrounderFactory.cpp:1490-1531 | simplify, copy, optimise, simplify, copy back: the result has the goal value wherever the diagram has it, in every structure, is free of the symbols, and is ordered |
| GrounderFactory.CreateTable | idpsourcecode/src/inferences/grounding/GrounderFactory.cpp:1450-1470 | the diagram compiled from a formula and improved: exact when that is asked for, otherwise true wherever the formula is (approximating as true) or only there (as false), and free of the defined symbols |
| GrounderFactory.CreateGenerator | idpsourcecode/src/inferences/grounding/GrounderFactory.cpp:1439-1470 | from a formula to a generator: it yields, each once, exactly the tuples over the tables that make the formula true, or at least these when approximating as true, or at most these when as false |
| Generators.OneChildRight | idpsourcecode/src/generators/TreeInstGenerator.cpp:21-44 | a conjunction of generators enumerates the conjunction |
| Generators.TwoChildRight | idpsourcecode/src/generators/TreeInstGenerator.cpp:73-117 | a choice of generators enumerates the choice |
| Generators.UnionRight | idpsourcecode/src/generators/UnionGenerator.cpp:43-74 | a union with checkers enumerates the disjunction without repetition |
| Generators.QuantRight | idpsourcecode/src/generators/QuantKernelGenerators.cpp:36-68 | projecting out the bound variable without repetition enumerates the quantified kernel |
| TreeInstGenerators.OneChildGenerator.Next | idpsourcecode/src/generators/TreeInstGenerator.cpp:21-44 | each step moves to the next value of the enumeration, and the end is reported exactly when there is none |
| TreeInstGenerators.TwoChildGenerator.Next | idpsourcecode/src/generators/TreeInstGenerator.cpp:73-117 | likewise for the choice |
| TreeInstGenerators.UnionGenerator.Next | idpsourcecode/src/generators/UnionGenerator.cpp:43-74 | likewise for the union, skipping what has been seen |
| TreeInstGenerators.TrueQuantKernelGenerator.Next | idpsourcecode/src/generators/QuantKernelGenerators.cpp:45-68 | each step gives one new projection, and without outputs the second step ends |
| TreeInstGenerators.UnionOfTwo | idpsourcecode/src/generators/UnionGenerator.cpp:43-74 | running a union of two generators gives its enumeration |

## Left out

- FoBddManager.FOBDDManager.Quantify: it is called on a diagram that has just been rebuilt, which is ordered, and this is what it asks for; the meaning is claimed for diagrams in which index 0 is the only free De Bruijn index and for sorts that are not empty built-in sorts; a kernel without index 0 is moved out unchanged, so with other free indices the code does not keep the meaning, and `existsquantify` only passes such diagrams.
- FoBddFactory.FOBDDFactory.Visit: formulas in which a variable ranges over an empty built-in sort are not included (see `VacuousEmptyBuiltin`); terms are total and have been unnested; equality has no bounded parts.
- FoBddManager.FOBDDManager.Change: the visitors that change terms are binding a variable, replacing an index by a variable, and replacing variables by terms without indices; any other change of kernels is `ChangeKernels`. The index that is replaced must not occur with another sort for the meaning to be claimed, since the code leaves it alone there.
- FoBddManager.FOBDDManager.GetQuantKernel: diagrams to be nested are ordered, as those that every caller passes are, since they have just been rebuilt (`FoBddVisitor.cpp:107-110`, `insert.cpp:2059-2062`, and `quantify` under `existsquantify`); the shortcut for solved equations is not taken; when it is right is `SolvedQuantKernel`, for any reading of elements as numbers.
- FoBddManager.FOBDDManager.Combine: conjunction and disjunction are one method here and share one table, with the connective in the key.
- FoBddManager.FOBDDManager.TurnAll: the loop ranges over the entries of the kernel present at its start; entries made by the loop itself put the kernel over lower nodes and are never turned.
- FoBddManager.FOBDDManager.GetAtomKernel: the manager is modelled with arithmetic rewriting switched off, the rewriting being modelled on terms of its own; the shortcut for membership in a built-in sort is not included.
- FoBddManager.FOBDDManager.OptimizeQuery: the cost is any function of the diagram of the query and of the diagrams nested in its kernels; the numbers of the cost estimate are not modelled. It asks for a sorted manager, as the code calls it on managers made for the purpose only (`BDDBasedGeneratorFactory.cpp:177-197`, `GrounderFactory.cpp:1504-1512`).
- FoBddManager.FOBDDManager.MakeMoreWithin: whether the removal of symbols ends on every diagram that is out of order is open, so there it is claimed for what is answered within the fuel; on ordered diagrams it always ends (`MakeMoreWithout`). That the result is the tightest is claimed for ordered diagrams.
- GrounderFactory.CreateGenerator: rewriting the formula before it is compiled, and reading certain and possible truth off a symbolic structure, are not included.
- FoBddManager.FOBDDManager.MakeMore: costs, weights and the splitting of variables are any functions; the numbers the code computes for them are not modelled.
- ArithmeticRewriting.GetFuncTerm: recursion is bounded by fuel; that it ends is claimed for normal terms where everything settles (`RequestAnsweredNormal`), otherwise only that answers do not depend on the fuel; values are exact reals, with one numeric sort.
- NormalRequests.RequestAnsweredNormal: for the product of two sums in which some two products do not settle no condition both ways is given, because a sum can put in order what a product left out of order (`SquarePutRight`); for all other requests it is exact (`RequestNormalExactly`).
- Comparisons.Solve: whether a term is of an integer sort is a parameter; double precision is exact here.
- Estimations.ChanceIsExpected: the estimate of an atom is any number between 0 and 1, and arithmetic is exact.
- BddStatistics.BddStatistics.EstimateKernelChance: the estimate of an atom is any number between 0 and 1 here, and there are no aggregates.
- BDDBasedGeneratorFactory.CreateFromBDD: variables are different from each other, generators for atoms are assumed correct, quantified kernels are opened before (`ReadNode`) and not during the recursion; the copy that is optimised first is `NodeGenerators.CreateOptimized`, for the whole diagram, and optimising again what is nested in an opened kernel is not included.
- TreeInstGenerators.OneChildGenerator.Next: the generators that a generator uses are seen as lists with a place in them; storing values in shared containers is not modelled. This holds for the other generators of `TreeInstGenerators` as well.
- SetExpressions.AggKernelIndependent: the sets of aggregates are compiled, bound and rebuilt, but comparisons with aggregates are not among the kernels of the manager: they are treated beside it, over any aggregate functions.
- Chained comparisons and aggregate formulas.
- Functions as predicate symbols, and the rewriting of function graphs to equations.
- The costs, numbers of answers and table sizes of `Estimations.cpp`.
- The copy that tries to keep the order (`getBDDTryMaintainOrder`, `ifthenelseTryMaintainOrder`).
- Printing, options, logging, release of memory.
- SafeInt: shifts, casts of booleans and floating-point numbers, the branch with compiler intrinsics, the second form of subtraction, and the throwing variants, which repeat the tests of those modelled.
