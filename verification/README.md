# A verified model of the Cminusf compiler

The repository compiles Cminusf, a small C-like language, to an SSA intermediate representation
and optimises that. This project models the parts that carry the hardest obligations and proves
what they are for. Code that works step by step on mutable state is modelled by classes and
methods with the same fields, loops and branches; every method is proved against a specification,
and the theorems are about the specifications.

| part | files | main results |
|---|---|---|
| Flow graphs and dominators | `Graph`, `DomTree`, `Dominators` | the iteration ends on every graph, irreducible ones and those with unreachable blocks included; the result is exactly immediate dominance; frontiers and children are exact |
| SSA construction | `IR`, `Ssa`, `PhiPlacement`, `PlacedFunction`, `TreeWalk`, `DepthFirst`, `Rename`, `RenameFinal`, `RenameMeaning`, `RenamedForm`, `StackTops`, `Mem2Reg` | phis stand exactly on the iterated frontiers and have one pair per edge; what remains of every block; exactly when renaming finds every value; the renaming lemma; the whole pass, loops included, keeps every run's position, effects and result |
| Loop search | `Tarjan`, `LoopNest`, `LoopLevels`, `LoopSearch` | the recursive search finds exactly the maximal strongly connected sets; the outer search ends; recorded are exactly the components of the graph and, inside a recorded loop, of what is left of it without the bases around; the loops are laminar, and what is left has no cycle |
| Dead code | `DeadCode`, `Marking`, `Sweeping`, `SafeFunctions`, `MarkedDeletion` | marks are the exact closure; exactly the unneeded instructions go; no operand dangles; every run looks the same; a function whose calls may go does nothing but return |
| Liveness | `LiveFlow`, `LiveCode`, `Liveness` | the sweeps end at the least solution, characterised by paths; the exact conditions under which it reports all that is needed, and nothing else |
| IR generation | `Cminus`, `Machine`, `Generation`, `Framing`, `ExprMeaning`, `StmtMeaning`, `FunctionMeaning`, `BlockShape`, `Programs`, `CminusfBuilder` | generated code halts exactly when the source run ends, with the same value, variables and calls; generated functions are well formed; in a program names mean what its declarations say |
| Generation and SSA construction together | `MadeBeforeUse`, `Lowering`, `LiveBlocks`, `AssignedFirst`, `EntryAssigned`, `Compilation` | generated functions are what the conversion asks for, and the converted function ends exactly when its source does, with the same value, calls and global variables; conditions on the source alone that are enough |
| Use lists | `UseLists` | the lists are exactly the operand slots of live users, through every operation |

A block is identified by a number, where the program uses an address. Sets that the program visits
in address or hash order are visited in arbitrary order here, so the results hold for every order.
What a function cannot see is a parameter, called a world: arithmetic, addresses, the answers of
called functions and what they do to memory, and what an uninitialised variable reads as.
Theorems about runs hold for every world and every number of steps, so they hold for runs that
never end.

## Where the code needs a condition

* **Frontier walks** (`src/optimization/Dominators.cpp:150-154`). The walk from a predecessor ends
  exactly if the predecessor is reachable or the merge block is not (`DomTree.WalkEndsIff`). Over
  a whole function this is `MergesReachable` (`Dominators.FrontierWalksEndIff`,
  `Dominators.UnreachableArmNeverEnds`). A generated function meets it exactly if, in its source, no
  branch and no loop body ends behind an `if` whose arms both return, where control cannot come, and
  then goes on to a place where it can (`LiveBlocks.MergesReachableIff`). An `if` whose two arms both
  return, as an arm of another `if`, is enough to violate it (`LiveBlocks.NestedReturns`).
  `create_idom` needs no such condition.
* **Empty stacks** (`src/optimization/Mem2Reg.cpp:104-106`, `:132-136`). Over all orders in which
  children can be visited, renaming finds a value wherever it asks for one exactly under `Assigned`
  (`StackTops.FindsIffAssigned`). Where the condition on edges fails, there is an order in which a
  phi meets a stack that has been used and emptied (`StackTops.UnsafeEdgeMet`), as can happen to a
  variable declared in an inner scope. A variable that is never assigned has no value at its load in
  any order (`PlacedFunction.ReadWithoutStore`). Storing every variable in the entry block before
  reading it, as parameters are, is enough (`PlacedFunction.EntryStoresSuffice`). A source whose
  variables are declared at the beginning of the function, and assigned to by its first statements
  before they are read, is generated like that (`EntryAssigned.AssignedFromSource`).
* **Unassigned variables.** In the source every declaration makes a new place; the generated code
  makes it again whenever control passes, and SSA construction turns it into one slot. A variable
  that is read before it is assigned to can therefore hold what it held when control came past
  before. `Compilation.CompiledImplements` says that the compiled function behaves as the source in
  a world that differs at most in what unassigned local variables hold; if the result of the source
  does not depend on that, it is the result of the compiled function
  (`Compilation.DefinedResult`). Where the source assigns to its variables first there is no such
  difference (`AssignedFirst.SameCall`, `Compilation.Compile`).
* **Loop bases** (`src/optimization/LoopSearch.cpp:178-191`). `find_loop_base` finds a base for
  every component in every round exactly if every component of the original graph has an edge
  entering it (`LoopSearch.LoopSearchPass.Run`), which holds when all blocks are reachable and the
  entry has no predecessor (`LoopNest.ReachableEntered`). Otherwise a null base is dereferenced
  (`LoopNest.EntryInLoopNotEntered`).
* **Calls that do not return** (`src/optimization/MarkedCodeDeletion.cpp:66-92`). A function without
  calls and stores changes nothing, and its result depends on its arguments and on memory alone, however
  long it runs (`SafeFunctions.SafeUnnoticed`, `SafeFunctions.SafeResult`), so that a call of it whose
  result is not needed can be deleted if it returns. Whether it does is not tested: a function that only
  loops is safe as well (`SafeFunctions.SafeNeedNotReturn`), and deleting a call of it makes a program
  go on that did not. The theorems about runs read a call of a safe function as one that returns.
* **Phi filter of liveness** (`src/optimization/ActiveVars.cpp:95-97`). The filter drops a value on
  an edge into a block if only phis of the block read it and none takes it from that edge
  (`LiveCode.PassesIff`). Nothing that a later instruction needs is lost exactly if no such value is
  needed after the block without being made in it (`LiveCode.EdgesKeepIff`);
  `LiveCode.ValueLostThroughPhi` gives a function, all of whose blocks are reachable, in which one is.
* **Comparisons and conversions in liveness** (`src/optimization/ActiveVars.cpp:64`). They are not
  recorded as definitions, so that they are reported live before the block that makes them. Where the
  phi filter loses nothing, all that is reported at the end of a block is needed there exactly if no
  comparison or conversion is needed after its own block, and not after a predecessor, unless the
  filter stops it on that edge (`LiveCode.NothingExtraIff`, `LiveCode.ReportIff`). An ordinary loop
  that assigns the result of a comparison to a variable violates this
  (`LiveCode.ReportedBeforeMade`).
* **Entry with predecessors** (`src/optimization/Dominators.cpp:148`). Only blocks with two
  predecessors are looked at. For the entry, which has one way in besides them, this misses its
  frontiers if it has a single predecessor, and always that it is in its own
  (`DomTree.FrontierExact`). The generator creates no jump to the entry (`Lowering.EntryKept`).
* **Self edges in liveness** (`src/optimization/ActiveVars.cpp:90-93`). Because `live_in` of a
  block is emptied before its successors are read, `live_out` does not count an edge from a block
  to itself; `live_in` is exact all the same (`LiveFlow.LiveSolves`, `LiveFlow.OutIff`).
* **Use lists** (`src/lightir/Value.cpp:22-29`). The old value of `replace_all_use_with` keeps its
  list, so it is retired afterwards, and it must differ from the new one. `set_operand` keeps the
  lists exact if and only if the slot was empty or held a retired value
  (`UseLists.Value.SetOperand`, `UseLists.SetTwice`).

Some branches never run. Addresses are not themselves stored, so the test of
`src/optimization/Mem2Reg.cpp:45` always succeeds. A second declaration of a name in one scope
is ignored, so that a declaration in a function body that repeats a parameter name denotes the
parameter.

## Model

| member | source | states |
|---|---|---|
| DomTree.Step | src/optimization/Dominators.cpp:97-124 | giving a block the meet of its placed predecessors keeps the invariant of the iteration: every parent is a proper spanning-tree ancestor, common ancestors of processed predecessors are not below it, and every strict dominator dominates it; the parent's id never falls |
| DomTree.SettledIsDomTree | src/optimization/Dominators.cpp:95-125 | once a sweep changes nothing, the ancestors of a reachable block in the parent tree are exactly its dominators |
| DomTree.ImmediateDominator | src/optimization/Dominators.cpp:85-127 | the parent of a block other than the entry strictly dominates it, and every other strict dominator dominates the parent |
| DomTree.WalkEndsIff | src/optimization/Dominators.cpp:150-154 | the runner reaches the immediate dominator of x from predecessor p if and only if p is reachable or x is not |
| DomTree.FrontierExact | src/optimization/Dominators.cpp:145-158 | what the walks collect for a reachable block n is the dominance frontier: n dominates some predecessor of x and does not strictly dominate x, if and only if; the exact exceptions for an entry with predecessors, and what an unreachable n collects |
| Dominators.FrontierWalksEndIff | src/optimization/Dominators.cpp:145-158 | all frontier walks of a function end if and only if every reachable merge block has reachable predecessors only |
| Dominators.UnreachableArmNeverEnds | src/optimization/Dominators.cpp:148-154 | a concrete graph, with its dominator tree and one unreachable predecessor, on which a walk never ends |
| Dominators.RoomShrinks | src/optimization/Dominators.cpp:94-124 | the measure of the fixed-point loop: moving an immediate dominator to a higher post-order id uses up room |
| Dominators.SpanningTree | src/optimization/Dominators.cpp:74-83 | the traversal order determines a spanning tree whose parents have higher post-order ids |
| Dominators.TraversalReversed | src/optimization/Dominators.cpp:65-72 | the reversed list holds exactly the reachable blocks, entry first, with ids falling along every edge that does not close a cycle |
| Dominators.DominatorPass.PostOrderVisit | src/optimization/Dominators.cpp:74-83 | appends exactly the blocks newly discovered from bb, bb last, each numbered by its position, in depth-first post order; what was open stays open |
| Dominators.DominatorPass.CreateReversePostOrder | src/optimization/Dominators.cpp:65-72 | leaves a numbered reverse post order of the reachable blocks |
| Dominators.DominatorPass.Intersect | src/optimization/Dominators.cpp:130-143 | ends, never meets a null parent, and returns the block whose ancestors are exactly the common ancestors of the two |
| Dominators.DominatorPass.NewIdom | src/optimization/Dominators.cpp:102-119 | the meet of all predecessors that have an immediate dominator, and one exists |
| Dominators.DominatorPass.UpdateIdom | src/optimization/Dominators.cpp:98-123 | one block of a sweep keeps the invariant; without a change the tree is still the one the sweep started with, and with one the measure has fallen |
| Dominators.DominatorPass.Sweep | src/optimization/Dominators.cpp:96-124 | a sweep keeps the invariant for all blocks; a sweep without change leaves all blocks settled |
| Dominators.DominatorPass.CreateIdom | src/optimization/Dominators.cpp:85-127 | ends on every graph and leaves the dominator tree: ancestors are exactly dominators |
| Dominators.DominatorPass.RunFrontier | src/optimization/Dominators.cpp:150-154 | adds bb to the frontiers of exactly the blocks from p up to, but excluding, the immediate dominator of bb |
| Dominators.DominatorPass.CollectFrontier | src/optimization/Dominators.cpp:148-156 | a block with two or more predecessors enters the frontier of exactly the blocks that some walk passes, any other block enters none |
| Dominators.DominatorPass.CreateDominanceFrontier | src/optimization/Dominators.cpp:145-158 | every block's frontier holds exactly the blocks that the walks of their predecessors pass it for |
| Dominators.DominatorPass.CreateDomTreeSucc | src/optimization/Dominators.cpp:160-169 | the children of a block are exactly the blocks other than the entry whose immediate dominator it is |
| Dominators.DominatorPass.Run | src/optimization/Dominators.cpp:5-26 | the whole pass: exact dominator tree, frontiers and children |
| Ssa.ValSomeIff | src/optimization/Mem2Reg.cpp:95-123 | a slot has a value at a place exactly when an earlier instruction of the block or a strict dominator stores to it or has a phi for it |
| Ssa.UnsafeEdge | src/optimization/Mem2Reg.cpp:132-136 | where the condition on edges fails, a definer and the phi's predecessor lie below different children of one block, so that some order of children finds an emptied stack |
| Ssa.ValAvailable | src/optimization/Mem2Reg.cpp:100-108 | the value a load is replaced by is a constant, argument, phi, computation or effect that is executed on every way to the load |
| Ssa.ValAlongWalk | src/optimization/Mem2Reg.cpp:81-146 | from a predecessor up to the immediate dominator of a merge block without a phi for v, the value of v at the end of each block is the same |
| Ssa.ValAcrossEdge | src/optimization/Mem2Reg.cpp:81-146 | the renaming lemma: for every edge p to b, if b has no phi for v, the value of v at the end of p equals that at the end of the immediate dominator of b, and at the start of b |
| PlacedFunction.MergesIsFrontier | src/optimization/Mem2Reg.cpp:65-67 | the frontier used for placing is determined by paths and dominance alone |
| PlacedFunction.LeastIsUnique | src/optimization/Mem2Reg.cpp:56-78 | the least closed set that the worklist computes is the iterated dominance frontier |
| PlacedFunction.DefinesIffDecides | src/optimization/Mem2Reg.cpp:56-78 | after placing, a block has a phi for v if and only if it is in the iterated frontier of the blocks that store to v |
| PlacedFunction.WfAfterPlacing | src/optimization/Mem2Reg.cpp:26-79 | placing phis keeps the function in single-assignment form, every use dominated by its definition |
| PlacedFunction.ClosedAfterPlacing | src/optimization/Mem2Reg.cpp:56-78 | wherever a definition of v reaches a merge by its frontier there is a phi, and none in the entry |
| PlacedFunction.LoadDefinedIff | src/optimization/Mem2Reg.cpp:100-108 | the load finds a value in the placed function if and only if the condition on loads holds of the original one |
| PlacedFunction.EdgeSafeIff | src/optimization/Mem2Reg.cpp:125-141 | the same for the tops that phis ask for along an edge |
| PlacedFunction.DefinedIffAssigned | src/optimization/Mem2Reg.cpp:81-173 | the conditions on the placed function hold if and only if those on the original one do |
| PlacedFunction.ReadWithoutStore | src/optimization/Mem2Reg.cpp:100-109 | a concrete function, well formed, that reads a variable never stored to and does not meet them; in every form that placing can give it the load has no value |
| PlacedFunction.EntryStoresSuffice | src/cminusfc/cminusf_builder.cpp:161-179 | storing each variable in the entry block before it is read meets the conditions |
| StackTops.WalkExists | src/optimization/Mem2Reg.cpp:81-146 | wherever a depth-first walk can come, its stacks exist and are determined by what it has listed |
| StackTops.UnsafeEdgeMet | src/optimization/Mem2Reg.cpp:132-146 | where the condition on edges fails, there is a depth-first walk in which the slot's stack exists and is empty when the phi asks for its top |
| StackTops.AlwaysFindsIff | src/optimization/Mem2Reg.cpp:95-141 | in the placed function, every load and every phi finds a top in every depth-first walk if and only if every load and every edge is safe |
| StackTops.FindsIffAssigned | src/optimization/Mem2Reg.cpp:81-173 | renaming finds every value it asks for, whatever the order of the children, if and only if the original function meets the two conditions |
| TreeWalk.EdgeCount | src/optimization/Mem2Reg.cpp:125-146 | when the walk has visited each block once, the edges handled are exactly those of the function, each as often as the successor lists have it |
| DepthFirst.ComesArrives | src/optimization/Mem2Reg.cpp:143-146 | when a depth-first walk comes to a block, whatever the order of children, it has listed all dominators of the block, nothing below it, and only whole subtrees beside the way |
| DepthFirst.SomeWalkComes | src/optimization/Mem2Reg.cpp:143-146 | and every such set of blocks is what some depth-first walk has listed when it comes to the block |
| RenameFinal.OnePairPerEdge | src/optimization/Mem2Reg.cpp:125-141 | a phi gets exactly one pair per handled edge into its block whose source has a value for the slot, and that pair names the source |
| RenameFinal.VisitedOnceComplete | src/optimization/Mem2Reg.cpp:125-146 | at the end of the walk a phi has exactly one pair for each edge into its block from a block where its slot has a value, and none else |
| RenameFinal.IncomingPairs | src/optimization/Mem2Reg.cpp:132-138 | what a phi takes from p is the value of its slot at the end of p, once the edge has been handled, and undefined where there is none |
| RenameFinal.RenderedComplete | src/optimization/Mem2Reg.cpp:81-198 | after the walk and both deletions each block is the original one with loads replaced, phis complete, and slot accesses and scalar slots gone |
| RenamedForm.BlockRemains | src/optimization/Mem2Reg.cpp:169-198 | of every block, reachable or not, exactly the scalar slots go, and the slot accesses if the walk has been there; what remains has its order, its identities and its operations |
| RenamedForm.PhisInFront | src/optimization/Mem2Reg.cpp:56-78 | in front of it stands one phi for each slot that has the block in the iterated frontier of the blocks that store to it, and no other |
| RenameMeaning.SimStep | src/optimization/Mem2Reg.cpp:95-123 | executing one instruction keeps the run over memory and the renamed run in step |
| RenameMeaning.SimEnter | src/optimization/Mem2Reg.cpp:125-141 | entering a block, where all its phis take the values of the edge at once, keeps them in step |
| RenameMeaning.RenamingPreservesMeaning | src/optimization/Mem2Reg.cpp:9-24 | in every world and after every number of blocks the original and the renamed function are in the same block, have made the same calls with the same arguments, and have returned the same value |
| Mem2Reg.PhisHaveTops | src/optimization/Mem2Reg.cpp:132-136 | the assertion holds: wherever a phi of a successor has a stack for its slot, the stack is not empty, and its top is the slot's value at the end of the block |
| TreeWalk.PreorderSnoc | src/optimization/Mem2Reg.cpp:143-146 | the walk lists each block once, after all that dominate it |
| Mem2Reg.Mem2RegPass.ReplaceAllUseWith | src/lightir/Value.cpp:22-29 | every operand that is the one value, in all instructions and terminators, becomes the other, and nothing else changes |
| Mem2Reg.Mem2RegPass.PushPhis | src/optimization/Mem2Reg.cpp:85-93 | the stacks are those of the block's start with its phis pushed |
| Mem2Reg.Mem2RegPass.RenameLoad | src/optimization/Mem2Reg.cpp:97-110 | the code becomes the original with this load too replaced by the value of its slot |
| Mem2Reg.Mem2RegPass.RenameStore | src/optimization/Mem2Reg.cpp:111-122 | the slot's stack gets the stored value, itself already renamed |
| Mem2Reg.Mem2RegPass.RenameInstr | src/optimization/Mem2Reg.cpp:95-123 | one instruction: code, stacks and deletion list advance together |
| Mem2Reg.Mem2RegPass.RenameBlock | src/optimization/Mem2Reg.cpp:95-123 | all loads of the block are replaced, the stacks hold its definitions in order, and the list holds exactly its slot accesses |
| Mem2Reg.Mem2RegPass.FeedPhis | src/optimization/Mem2Reg.cpp:127-140 | each phi of the successor whose slot has a stack gets its top paired with the block, every other instruction is unchanged |
| Mem2Reg.Mem2RegPass.FeedSuccessor | src/optimization/Mem2Reg.cpp:126-140 | exactly the edge to this successor is handled |
| Mem2Reg.CompletePerEdge | src/optimization/Mem2Reg.cpp:125-141 | which predecessors a complete phi has pairs for, in terms of the original function: the reachable ones that a deciding block dominates |
| Mem2Reg.Mem2RegPass.FeedSuccessors | src/optimization/Mem2Reg.cpp:125-141 | exactly the edges out of the block are added to those handled |
| Mem2Reg.Mem2RegPass.PopDefinitions | src/optimization/Mem2Reg.cpp:148-167 | every stack is back to what it was when the block was entered |
| Mem2Reg.Mem2RegPass.DeleteAll | src/optimization/Mem2Reg.cpp:169-172 | exactly the listed instructions leave the block |
| Mem2Reg.Mem2RegPass.EnterBlock | src/optimization/Mem2Reg.cpp:83-141 | a visit up to its children |
| Mem2Reg.Mem2RegPass.LeaveBlock | src/optimization/Mem2Reg.cpp:148-172 | a visit after its children: stacks restored, the block's slot accesses deleted |
| Mem2Reg.Mem2RegPass.ReName | src/optimization/Mem2Reg.cpp:81-173 | called in a state of a depth-first walk, lists the subtree of bb as such a walk does, finishes exactly that subtree, and leaves every stack as it found it |
| Mem2Reg.Mem2RegPass.ReNameChildren | src/optimization/Mem2Reg.cpp:143-146 | the same for all children of bb, in any order |
| Mem2Reg.Mem2RegPass.FindStores | src/optimization/Mem2Reg.cpp:28-54 | finds exactly the slots that are stored to, and for each exactly the blocks that do it |
| Mem2Reg.Mem2RegPass.CreatePhi | src/optimization/Mem2Reg.cpp:70-72 | the block starts with one more, empty, phi, with an identity of its own |
| Mem2Reg.Mem2RegPass.PlaceFrontier | src/optimization/Mem2Reg.cpp:65-76 | every block in the frontier has a phi afterwards, and those newly given one are queued |
| Mem2Reg.Mem2RegPass.PlacePhis | src/optimization/Mem2Reg.cpp:58-78 | the growing worklist ends, and the blocks with a phi are the least set that contains the frontiers of the storing blocks and is closed under frontiers, one phi per block |
| Mem2Reg.Mem2RegPass.GeneratePhi | src/optimization/Mem2Reg.cpp:26-79 | this for every slot that is stored to, and nothing else changes |
| Mem2Reg.Mem2RegPass.RemoveAlloca | src/optimization/Mem2Reg.cpp:175-198 | exactly the scalar slots leave every block |
| Mem2Reg.Mem2RegPass.RenameTree | src/optimization/Mem2Reg.cpp:20 | what has been visited is a depth-first listing of the whole dominator tree, every block of it is finished, and nothing else |
| Mem2Reg.Mem2RegPass.RenameAll | src/optimization/Mem2Reg.cpp:20-22 | the function is exactly the renamed form, every phi is complete, no reachable block accesses a scalar slot, and what remains of each block is as said above |
| Mem2Reg.Mem2RegPass.PlaceAll | src/optimization/Mem2Reg.cpp:11-19 | dominators, then phis: what renaming relies on holds |
| Mem2Reg.Mem2RegPass.Run | src/optimization/Mem2Reg.cpp:9-24 | the whole pass keeps the meaning of the function; every block begins with one phi for each slot whose iterated frontier it is in, and then has its own instructions in their order, without scalar slots and, if it is reachable, without slot accesses; every phi has exactly one pair per edge from a reachable block that a storing or merging block dominates; branches go where they went |
| Tarjan.OpenKeeps | src/optimization/LoopSearch.cpp:68-71 | opening a node keeps the invariant of the search |
| Tarjan.LookKeeps | src/optimization/LoopSearch.cpp:82-85 | a visited successor lowers the low link if it is on the stack, and off the stack nothing is missed |
| Tarjan.ReturnKeeps | src/optimization/LoopSearch.cpp:76-80 | a successor just traversed counts by its low link |
| Tarjan.StayKeeps | src/optimization/LoopSearch.cpp:89-104 | a node that is not a root stays on the stack, with a link to an older node of its component |
| Tarjan.PoppedIsComponent | src/optimization/LoopSearch.cpp:91-99 | what is popped down to a root is exactly the root's strongly connected component |
| Tarjan.CloseKeeps | src/optimization/LoopSearch.cpp:89-104 | popping a component keeps the invariant: what is found are exactly the completed components |
| LoopNest.ComponentMaximal | src/optimization/LoopSearch.cpp:51-63 | components are exactly the maximal strongly connected sets of two or more nodes |
| LoopNest.ConnectedEntered | src/optimization/LoopSearch.cpp:106-137 | if every component is entered, so is every strongly connected set inside one |
| LoopNest.SeesEntryIff | src/optimization/LoopSearch.cpp:113-134 | the two searches of `find_loop_base`, over the shrunken graph and the removed bases, see exactly the edges of the original graph that enter the set |
| LoopNest.EraseKeeps | src/optimization/LoopSearch.cpp:214-224 | erasing a base on both sides leaves exactly the original graph without the bases |
| LoopNest.AddKeeps | src/optimization/LoopSearch.cpp:180-211 | recording a component of what is left keeps the nest: loops strongly connected and entered at their bases, bases distinct, loops disjoint or nested, innermost loops exact |
| LoopLevels.AddLevels | src/optimization/LoopSearch.cpp:174-226 | recording a component of what is left keeps: what is a component, once the bases of the recorded loops strictly around it are gone, is exactly what is recorded or is a component of what is left |
| LoopLevels.InsideIff | src/optimization/LoopSearch.cpp:213-226 | inside a component without its base, the components are the same whatever bases outside of it have been removed |
| LoopLevels.OutermostRecorded | src/optimization/LoopSearch.cpp:162-236 | at the end every component of the graph is recorded |
| LoopLevels.InnerRecorded | src/optimization/LoopSearch.cpp:162-236 | and inside a recorded loop every component of the graph without the bases of the loops that contain it |
| LoopLevels.BasesDecide | src/optimization/LoopSearch.cpp:162-236 | two such records that choose the same bases hold the same loops |
| LoopNest.ComponentsDisjoint | src/optimization/LoopSearch.cpp:174-226 | the components of one round do not overlap, so that removing the base of one leaves the others alone |
| LoopNest.RoundOutcome | src/optimization/LoopSearch.cpp:162-236 | every round finds all its bases if and only if the first one does |
| LoopNest.NoComponentsAcyclic | src/optimization/LoopSearch.cpp:162-169 | when a round finds nothing, the graph without the bases has no cycle of two or more blocks |
| LoopNest.ReachableEntered | src/optimization/LoopSearch.cpp:106-137 | if all blocks are reachable and the entry has no predecessors, every component is entered |
| LoopNest.EntryInLoopNotEntered | src/optimization/LoopSearch.cpp:136-191 | a concrete graph with a loop through the entry for which no base exists |
| LoopSearch.EndInv | src/optimization/LoopSearch.cpp:57-62 | when every node is visited the stack is empty and exactly the components have been found |
| LoopSearch.LoopSearchPass.OpenNode | src/optimization/LoopSearch.cpp:68-71 | numbers and pushes the node |
| LoopSearch.LoopSearchPass.Traverse | src/optimization/LoopSearch.cpp:64-105 | visits what n leads to, keeps the invariant, and leaves in lowlink the oldest open node that n was seen to reach |
| LoopSearch.LoopSearchPass.VisitSuccessor | src/optimization/LoopSearch.cpp:73-86 | one successor, visited before or not |
| LoopSearch.LoopSearchPass.PopComponent | src/optimization/LoopSearch.cpp:91-103 | pops exactly down to n, clears the flags of what it pops, and records it unless it is n alone |
| LoopSearch.LoopSearchPass.FinishNode | src/optimization/LoopSearch.cpp:88-104 | closes the component of a root, and leaves any other node on the stack |
| LoopSearch.LoopSearchPass.StronglyConnectedComponents | src/optimization/LoopSearch.cpp:51-63 | finds exactly the components of two or more nodes, each once, with an empty stack at the end, and says whether there are any |
| LoopSearch.LoopSearchPass.FindLoopBase | src/optimization/LoopSearch.cpp:106-137 | a base that an edge from outside enters, from a node still in the graph if there is such an edge and otherwise from a removed base, and none exactly if there is neither |
| LoopSearch.LoopSearchPass.RemoveBase | src/optimization/LoopSearch.cpp:213-224 | node, successor and predecessor sets are those of the original graph without the bases |
| LoopSearch.LoopSearchPass.ForgetAsPredecessor | src/optimization/LoopSearch.cpp:217-220 | the base is no predecessor any more of exactly its successors |
| LoopSearch.LoopSearchPass.ForgetAsSuccessor | src/optimization/LoopSearch.cpp:221-224 | the base is no successor any more of exactly its predecessors |
| LoopSearch.LoopSearchPass.RecordLoop | src/optimization/LoopSearch.cpp:180-211 | the loop is stored under its base, both ways, and as the innermost one of its blocks |
| LoopSearch.LoopSearchPass.GetInnerLoop | include/optimization/LoopSearch.hpp:44-48 | the smallest recorded loop that contains the block, and none exactly if none does |
| LoopSearch.LoopSearchPass.BuildCfg | src/optimization/LoopSearch.cpp:18-47 | the copy has the nodes and edges of the flow graph, and no marks |
| LoopSearch.LoopSearchPass.RecordComponent | src/optimization/LoopSearch.cpp:174-226 | one component: it fails exactly if nothing enters it, and otherwise keeps the nest and removes one node of it |
| LoopSearch.LoopSearchPass.RecordRound | src/optimization/LoopSearch.cpp:174-226 | all components of a round, in any order |
| LoopSearch.LoopSearchPass.ResetMarks | src/optimization/LoopSearch.cpp:230-234 | all nodes are unmarked again |
| LoopSearch.LoopSearchPass.RunRound | src/optimization/LoopSearch.cpp:162-236 | a round succeeds exactly if every component of the original graph is entered, and then leaves strictly fewer nodes |
| LoopSearch.LoopSearchPass.Explore | src/optimization/LoopSearch.cpp:162-236 | the rounds end; the nest invariant holds, the recorded loops are exactly the components at their levels, and without the bases there is no cycle |
| LoopSearch.LoopSearchPass.Run | src/optimization/LoopSearch.cpp:138-247 | the search succeeds exactly if every component is entered; then a set is recorded if and only if it is a component of the flow graph without the bases of the recorded loops strictly around it, so that every component, and every component of what is left inside a recorded loop, is recorded; loops are laminar with distinct bases, innermost loops are exact, and every cycle of two or more blocks passes a base |
| DeadCode.RemovalKeepsBehaviour | src/optimization/MarkedCodeDeletion.cpp:166-194 | removing instructions without effect that nothing left uses cannot be noticed in stores, unsafe calls, branch decisions or results of any run, however long |
| Marking.ClosedNeeds | src/optimization/MarkedCodeDeletion.cpp:98-124 | a set closed under operands contains all that its members need, however indirectly |
| Marking.RoundProgress | src/optimization/MarkedCodeDeletion.cpp:107-123 | the measure of the worklist: in every round it falls, although constants and marked values can be queued again |
| Marking.MarksNext | src/optimization/MarkedCodeDeletion.cpp:107-123 | a round keeps: marked is what was marked before or the root needs, and what is missing is queued |
| Marking.MarksDone | src/optimization/MarkedCodeDeletion.cpp:107-123 | with an empty worklist exactly what the root needs has been added |
| Sweeping.SweptBlock | src/optimization/MarkedCodeDeletion.cpp:48-62 | deleting the unused instructions of one block leaves a program whose deleted instructions have no effect and no user |
| Sweeping.AllDoomedRemovable | src/optimization/MarkedCodeDeletion.cpp:181-191 | what is not marked and not pinned has no effect and is used by nothing that stays |
| Sweeping.SafeCallsComplete | src/optimization/MarkedCodeDeletion.cpp:133-145 | with its safe calls remembered, a block has on its list all that may be deleted of it |
| Sweeping.TwoSweeps | src/optimization/MarkedCodeDeletion.cpp:44-64 | both sweeps together delete exactly the unmarked instructions of the original program that may go |
| Sweeping.DoomedKeepsBehaviour | src/optimization/MarkedCodeDeletion.cpp:166-194 | deleting them keeps every run |
| Sweeping.DoomedNoDangling | src/optimization/MarkedCodeDeletion.cpp:98-191 | and leaves no operand that names a deleted instruction |
| SafeFunctions.SafeNamesIff | src/optimization/MarkedCodeDeletion.cpp:66-92 | safe are exactly the names of functions whose blocks hold neither calls nor stores, but never `main`, `output`, `outputFloat`, `neg_idx_except` and `input` |
| SafeFunctions.SafeUnnoticed | src/optimization/MarkedCodeDeletion.cpp:71-83 | from any state, and however long it runs, a safe function leaves memory as it was and adds nothing but its branch decisions to what has happened |
| SafeFunctions.SafeResult | src/optimization/MarkedCodeDeletion.cpp:71-83 | what it returns depends on its arguments and on memory only |
| SafeFunctions.SafeNeedNotReturn | src/optimization/MarkedCodeDeletion.cpp:66-92 | a concrete safe function that never returns |
| SafeFunctions.StaysIff | src/optimization/MarkedCodeDeletion.cpp:126-194 | which instructions the pass leaves, by their kinds and by what needs them |
| MarkedDeletion.MarkedCodeDeletionPass.FindAllDep | src/optimization/MarkedCodeDeletion.cpp:98-124 | ends, and adds to the marks exactly what the instruction needs |
| MarkedDeletion.MarkedCodeDeletionPass.Queue | src/optimization/MarkedCodeDeletion.cpp:114-122 | appends, in order, the operands that are no labels, functions or arguments, and no marked instructions |
| MarkedDeletion.MarkedCodeDeletionPass.DeleteInstr | src/lightir/BasicBlock.cpp:30-34 | the instruction leaves its block |
| MarkedDeletion.MarkedCodeDeletionPass.CollectUnused | src/optimization/MarkedCodeDeletion.cpp:49-57 | lists exactly the instructions of the block that are not vital and that nothing uses, and remembers exactly the others that have a result |
| MarkedDeletion.MarkedCodeDeletionPass.DeleteUnused | src/optimization/MarkedCodeDeletion.cpp:48-62 | exactly those leave the block; of what is left, exactly the instructions with a result are remembered |
| MarkedDeletion.MarkedCodeDeletionPass.SweepFunction | src/optimization/MarkedCodeDeletion.cpp:45-63 | block by block, each seeing what the ones before have deleted |
| MarkedDeletion.MarkedCodeDeletionPass.DeleteNoUseInst | src/optimization/MarkedCodeDeletion.cpp:44-64 | the first sweep over all functions, in order; it deletes only instructions without effect or use, and remembers every other one with a result |
| MarkedDeletion.MarkedCodeDeletionPass.MarkSafeFunc | src/optimization/MarkedCodeDeletion.cpp:66-92 | safe are exactly the functions other than main and the four of the runtime library that neither call nor store; none of them does anything that can be noticed but return |
| MarkedDeletion.MarkedCodeDeletionPass.MarkInstr | src/optimization/MarkedCodeDeletion.cpp:132-162 | a root marks exactly what it needs; exactly a safe call is remembered for deletion |
| MarkedDeletion.MarkedCodeDeletionPass.MarkBlock | src/optimization/MarkedCodeDeletion.cpp:132-162 | the same for a block |
| MarkedDeletion.MarkedCodeDeletionPass.MarkUseInstr | src/optimization/MarkedCodeDeletion.cpp:126-164 | the same for a function, whose arguments are never marked |
| MarkedDeletion.MarkedCodeDeletionPass.MarkAll | src/optimization/MarkedCodeDeletion.cpp:175-180 | marked is exactly what some root of some function needs |
| MarkedDeletion.MarkedCodeDeletionPass.DeleteUnmarked | src/optimization/MarkedCodeDeletion.cpp:183-190 | exactly the remembered and unmarked instructions leave the block |
| MarkedDeletion.MarkedCodeDeletionPass.DeleteAllUnmarked | src/optimization/MarkedCodeDeletion.cpp:181-191 | the same for all blocks |
| MarkedDeletion.MarkedCodeDeletionPass.Run | src/optimization/MarkedCodeDeletion.cpp:166-194 | an instruction stays if and only if it is a store, a branch, a return or a call without result of a function that is not safe, or a store, a conditional branch, such a call, or a return of something else than a parameter needs it; no operand dangles, and every run looks the same |
| LiveFlow.StableExact | src/optimization/ActiveVars.cpp:81-120 | when nothing changes, a value is in the set of a block if and only if a path uses it before defining it, over edges that the filter lets it pass |
| LiveFlow.LiveSolves | src/optimization/ActiveVars.cpp:89-107 | the sets so described solve the equations, self edges included |
| LiveFlow.LiveLeast | src/optimization/ActiveVars.cpp:81-120 | and are contained in every other solution |
| LiveFlow.SweepKeeps | src/optimization/ActiveVars.cpp:89-107 | recomputing one block in place keeps the sets sound and growing |
| LiveFlow.MissingShrinks | src/optimization/ActiveVars.cpp:108-117 | the measure of the sweeps: a changed set has grown by a value used somewhere |
| LiveFlow.OutIff | src/optimization/ActiveVars.cpp:92-100 | live at the end of a block is exactly what is live on an edge to another block |
| LiveCode.UseIff | src/optimization/ActiveVars.cpp:35-68 | the use set of a block holds exactly the values some instruction reads before the block has produced them |
| LiveCode.DefsIff | src/optimization/ActiveVars.cpp:64-66 | its definition set holds exactly the values that a phi, an arithmetic instruction, a load, a call, an element address or an alloca of it makes |
| LiveCode.MadeNotLive | src/optimization/ActiveVars.cpp:64-120 | a value that one of these makes is live at the start of its block if and only if the block reads it before |
| LiveCode.PhiUseIff | src/optimization/ActiveVars.cpp:46-59 | its phi set holds exactly those that only phis read |
| LiveCode.PhiFromIff | src/optimization/ActiveVars.cpp:48-53 | and a predecessor's set exactly those that a phi takes from it |
| LiveCode.NothingExtraIff | src/optimization/ActiveVars.cpp:64-68 | where nothing is lost, all that leaves a block by the analysis is needed after it if and only if no comparison or conversion is needed after its own block only, the edges on which the filter stops it excepted |
| LiveCode.ReportIff | src/optimization/ActiveVars.cpp:81-120 | the analysis loses nothing and reports nothing else if and only if the code meets both conditions; then what is reported at the end of a block is exactly what is needed after it |
| LiveCode.ReportedBeforeMade | src/optimization/ActiveVars.cpp:64-68 | a concrete loop, all of whose blocks are reachable, in which nothing is lost, and a conversion is reported at the end of a block after which it is not needed |
| LiveCode.PassesIff | src/optimization/ActiveVars.cpp:95-97 | the filter stops, on an edge, exactly the values that only phis of the target read and none of them takes from the edge |
| LiveCode.EdgesKeepIff | src/optimization/ActiveVars.cpp:95-97 | the analysis lets everything cross that a later instruction needs if and only if, in the code, no value that only phis of a block read, and do not take from some edge into it, is needed after the block without being made there |
| LiveCode.ValueLostThroughPhi | src/optimization/ActiveVars.cpp:95-97 | a concrete function, all of whose blocks are reachable, in which a value defined in the entry and needed is not live at the end of a block |
| Liveness.ActiveVarsPass.CollectOperand | src/optimization/ActiveVars.cpp:37-61 | what one operand adds to, or takes from, the use, phi and predecessor sets |
| Liveness.ActiveVarsPass.CollectOperands | src/optimization/ActiveVars.cpp:36-62 | the same for an instruction |
| Liveness.ActiveVarsPass.CollectInstr | src/optimization/ActiveVars.cpp:36-67 | the sets of a block up to and with this instruction; it is added to the definitions exactly if it is a phi, an arithmetic instruction, a load, a call, an element address or an alloca |
| Liveness.ActiveVarsPass.CollectBlock | src/optimization/ActiveVars.cpp:29-68 | the sets of a whole block |
| Liveness.ActiveVarsPass.CollectAll | src/optimization/ActiveVars.cpp:29-76 | all sets are those of the function's code, whatever the order of the blocks |
| Liveness.ActiveVarsPass.PassingFrom | src/optimization/ActiveVars.cpp:93-99 | exactly the values live at the successor that the filter lets pass |
| Liveness.ActiveVarsPass.ComputeOut | src/optimization/ActiveVars.cpp:90-100 | the union over the successors, with nothing from the block itself |
| Liveness.ActiveVarsPass.Recompute | src/optimization/ActiveVars.cpp:87-117 | one block: no change means it is settled, a change means progress, and no other block is touched |
| Liveness.ActiveVarsPass.Sweep | src/optimization/ActiveVars.cpp:84-119 | a sweep without change leaves all blocks settled |
| Liveness.ActiveVarsPass.SweepAll | src/optimization/ActiveVars.cpp:81-120 | the sweeps end with all blocks settled |
| Liveness.ActiveVarsPass.Run | src/optimization/ActiveVars.cpp:20-120 | the whole analysis: the least solution, characterised by paths, for the sets collected from the code |
| ExprMeaning.FindMatches | include/cminusf_builder.hpp:38-47 | a name is found by the generator exactly if the source binds it, and stands for the same variable or function |
| ExprMeaning.ExprRuns | src/cminusfc/cminusf_builder.cpp:356-495 | the code of an expression computes its value and has exactly its effects |
| StmtMeaning.StmtRuns | src/cminusfc/cminusf_builder.cpp:194-295 | the code of a statement follows its source run: to the insert block with the same variables, to a return of the same value, or on without end |
| StmtMeaning.CompoundRuns | src/cminusfc/cminusf_builder.cpp:194-215 | the same for a block with declarations, shadowing and statements after a return |
| StmtMeaning.IfRuns | src/cminusfc/cminusf_builder.cpp:222-255 | the same for a selection, with and without else |
| StmtMeaning.WhileRuns | src/cminusfc/cminusf_builder.cpp:257-278 | the same for a loop, by induction on the rounds it makes |
| FunctionMeaning.PrologueRuns | src/cminusfc/cminusf_builder.cpp:153-179 | parameters and declarations lead to the first statement with the variables of the source |
| FunctionMeaning.FunctionRuns | src/cminusfc/cminusf_builder.cpp:118-190 | a generated function follows the source run for every bound on its length |
| FunctionMeaning.HaltsIff | src/cminusfc/cminusf_builder.cpp:118-190 | the generated code halts if and only if the source run ends |
| FunctionMeaning.SameResult | src/cminusfc/cminusf_builder.cpp:118-190 | and then with the same value, variables and sequence of calls |
| BlockShape.StmtShape | src/cminusfc/cminusf_builder.cpp:194-295 | a statement closes every block it leaves, with one terminator at its end and edges recorded on both sides |
| BlockShape.IfShape | src/cminusfc/cminusf_builder.cpp:222-255 | this for a selection, whose unused block is taken out |
| BlockShape.WhileShape | src/cminusfc/cminusf_builder.cpp:257-278 | this for a loop |
| BlockShape.CondBrShape | src/lightir/Instruction.cpp:273-282 | a conditional branch closes the insert block, with its two edges on both sides |
| BlockShape.BrShape | src/lightir/Instruction.cpp:284-290 | so does an unconditional one |
| BlockShape.EraseShape | src/cminusfc/cminusf_builder.cpp:245-247 | an empty block that nothing leads to can be taken out |
| BlockShape.FunctionShape | src/cminusfc/cminusf_builder.cpp:118-190 | in a generated function every block ends in its only terminator, successor and predecessor lists are exactly its branch targets, its blocks are listed in the order they were created in, and the scopes are back where they were |
| BlockShape.EdgesInside | src/lightir/Instruction.cpp:273-290 | every recorded edge joins blocks of the function and is a branch of its source |
| MadeBeforeUse.ExprRight | src/cminusfc/cminusf_builder.cpp:356-495 | the code of an expression uses only values made earlier in its block and addresses of variables whose declaration control has passed, and so can what follows use its value |
| MadeBeforeUse.StmtRight | src/cminusfc/cminusf_builder.cpp:194-295 | the same for a statement: each block it creates is entered only with the variables in scope made |
| MadeBeforeUse.FunctionSound | src/cminusfc/cminusf_builder.cpp:118-190 | in every generated function values are used in the block that makes them and after it, no two instructions make the same value, and variables are used where control has passed their declaration |
| Lowering.EntryKept | src/cminusfc/cminusf_builder.cpp:153-160 | the entry block stays in the function, and nothing jumps to it |
| Lowering.EntryFirst | src/cminusfc/cminusf_builder.cpp:153-160 | it is the first in the list of blocks |
| Lowering.GeneratedIsInput | src/cminusfc/cminusfc.cpp:100-112 | every generated function is what SSA construction asks for: single assignment, dominated uses, mirrored edges, no addresses stored, an entry without predecessors |
| Compilation.StepSame | src/lightir/Instruction.cpp:424-494 | one instruction of the generated code and its form over slots keep the two runs in step, global variables and calls being replayed from the events |
| Compilation.RunSame | src/cminusfc/cminusf_builder.cpp:118-190 | after every number of blocks the machine has come to the same block with the same values, variables, global variables and calls |
| Compilation.GeneratedBehaves | src/cminusfc/cminusf_builder.cpp:118-190 | a generated function, read over slots, ends if and only if its source does, with the same value, calls and global variables, in a world that differs only in what unassigned variables hold |
| Compilation.CompiledImplements | src/cminusfc/cminusfc.cpp:100-112 | so does every function that cannot be told from it |
| Compilation.Optimise | src/optimization/Mem2Reg.cpp:9-24 | turning the variables of a generated function into values, where it meets the two conditions, leaves a function that implements its source, for every call, every world and every length of run |
| Compilation.DefinedResult | src/cminusfc/cminusfc.cpp:100-112 | a source call whose result does not depend on unassigned variables has this result in the compiled function |
| LiveBlocks.StmtFlow | src/cminusfc/cminusf_builder.cpp:194-295 | whether control reaches the block that a statement leaves open, and whether its edges keep blocks that control reaches apart from others, are what the source says |
| LiveBlocks.MergesReachableIff | src/cminusfc/cminusf_builder.cpp:222-278 | in a generated function all reachable merge blocks have reachable predecessors if and only if, in the source, no branch and no body ends where control cannot come before a place where it can |
| LiveBlocks.NestedReturns | src/cminusfc/cminusf_builder.cpp:222-255 | a concrete source, with an if whose arms both return as an arm of another, whose generated function violates it |
| AssignedFirst.SameCall | src/cminusfc/cminusf_builder.cpp:118-190 | a call of a function that assigns to its variables first does not depend on what they hold before |
| AssignedFirst.ParameterHolds | src/cminusfc/cminusf_builder.cpp:161-179 | in the body of a function a parameter holds the argument in its position |
| EntryAssigned.FunctionStored | src/cminusfc/cminusf_builder.cpp:153-190 | the entry block of such a function stores to every variable that is accessed anywhere, and before it loads it |
| EntryAssigned.AssignedFromSource | src/optimization/Mem2Reg.cpp:81-173 | so the renaming finds every value it asks for |
| Compilation.Compile | src/cminusfc/cminusfc.cpp:100-112 | under conditions on the source alone the compiled function does exactly what the source does, in the same world, for every call and every length of run |
| Compilation.BuiltCallable | src/cminusfc/cminusf_builder.cpp:58-190 | what the builder leaves for a function of a program can be compiled, its calls being those in which names mean what the declarations up to it say |
| Programs.TopLevelNames | src/cminusfc/cminusf_builder.cpp:78-151 | bound outside of functions are the library functions and the declared names |
| Programs.FirstDeclaration | include/cminusf_builder.hpp:33-36 | a declared name that is not the library's means what its first declaration makes it: the global variable or the function of that name |
| CminusfBuilder.FindInnermost | include/cminusf_builder.hpp:38-47 | lookup yields the binding of the innermost scope that has one, and nothing exactly if none has |
| CminusfBuilder.Scope.Enter | include/cminusf_builder.hpp:17-19 | adds an empty innermost scope |
| CminusfBuilder.Scope.Exit | include/cminusf_builder.hpp:22-24 | removes exactly the innermost scope |
| CminusfBuilder.Scope.PushName | include/cminusf_builder.hpp:33-36 | binds the name in the innermost scope, and fails without a change exactly if that scope has it |
| CminusfBuilder.Scope.FindName | include/cminusf_builder.hpp:38-47 | finds the innermost binding |
| CminusfBuilder.Builder.constructor | include/cminusf_builder.hpp:95-99 | the global scope binds the four functions of the runtime library |
| CminusfBuilder.Builder.CreateBr | src/lightir/Instruction.cpp:284-290 | appends the branch and records its edge on both sides |
| CminusfBuilder.Builder.CreateCondBr | src/lightir/Instruction.cpp:273-282 | appends the branch and records both edges, the false one first on the successor side |
| CminusfBuilder.Builder.VisitExpr | src/cminusfc/cminusf_builder.cpp:356-495 | leaves the code and the value whose run `ExprRuns` describes |
| CminusfBuilder.Builder.VisitVar | src/cminusfc/cminusf_builder.cpp:297-315 | leaves the address and emits nothing where an address is asked for, and otherwise loads; the request is used up |
| CminusfBuilder.Builder.VisitArgs | src/cminusfc/cminusf_builder.cpp:481-492 | the arguments from left to right |
| CminusfBuilder.Builder.VisitDeclaration | src/cminusfc/cminusf_builder.cpp:84-99 | outside of functions a global variable, and inside an address, bound unless the scope has the name |
| CminusfBuilder.Builder.VisitStmt | src/cminusfc/cminusf_builder.cpp:194-295 | leaves the code that `StmtRuns` and `StmtShape` describe, and both flags down |
| CminusfBuilder.Builder.VisitStmts | src/cminusfc/cminusf_builder.cpp:206-210 | stops generating once the insert block has ended |
| CminusfBuilder.Builder.VisitCompound | src/cminusfc/cminusf_builder.cpp:194-215 | opens and leaves a scope of its own unless the function's has just been entered |
| CminusfBuilder.Builder.VisitIfTest | src/cminusfc/cminusf_builder.cpp:223-239 | condition, three blocks, and the jump to two of them |
| CminusfBuilder.Builder.VisitBranch | src/cminusfc/cminusf_builder.cpp:240-243 | a branch, and the jump behind the statement if it is still open |
| CminusfBuilder.Builder.VisitElse | src/cminusfc/cminusf_builder.cpp:245-252 | the other branch, or its block taken out |
| CminusfBuilder.Builder.VisitSelection | src/cminusfc/cminusf_builder.cpp:222-255 | the whole selection |
| CminusfBuilder.Builder.VisitWhileStart | src/cminusfc/cminusf_builder.cpp:258-261 | the block of the condition, which the insert block leads to unless it has ended |
| CminusfBuilder.Builder.VisitWhileTest | src/cminusfc/cminusf_builder.cpp:262-273 | condition, two blocks and the jump |
| CminusfBuilder.Builder.VisitIteration | src/cminusfc/cminusf_builder.cpp:257-278 | the whole loop |
| CminusfBuilder.Builder.VisitParams | src/cminusfc/cminusf_builder.cpp:161-179 | each parameter gets an address, is stored there, and is bound |
| CminusfBuilder.Builder.VisitFunction | src/cminusfc/cminusf_builder.cpp:118-190 | while the body is built and afterwards the function's name is bound to it, unless it was bound before, and all other names are bound as they were; what is built is the function that the meaning and shape theorems are about, and the scopes are back |
| CminusfBuilder.Builder.VisitDecl | src/cminusfc/cminusf_builder.cpp:73-75 | one declaration of a program: afterwards names mean what the declarations so far say |
| CminusfBuilder.Builder.VisitProgram | src/cminusfc/cminusf_builder.cpp:58-76 | every function of a program is built where names mean what the declarations up to it say |
| CminusfBuilder.BuiltRuns | src/cminusfc/cminusf_builder.cpp:58-190 | so it halts if and only if its source does, with the same value, variables and calls |
| CminusfBuilder.Builder.FinishFunction | src/cminusfc/cminusf_builder.cpp:181-189 | a last block still open returns nothing, or zero |
| UseLists.WithoutCount | src/lightir/Value.cpp:31-35 | filtering removes all uses by one user and no other |
| UseLists.WithoutInOrder | src/lightir/Value.cpp:31-35 | what stays is in the order it was in |
| UseLists.Value.constructor | src/lightir/User.cpp:4-10 | empty slots and no uses |
| UseLists.Value.NewExact | src/lightir/User.cpp:4-10 | a new value that nothing mentions keeps all lists exact |
| UseLists.Value.AddUse | src/lightir/Value.cpp:12-15 | one use more, at the end |
| UseLists.Value.RemoveUse | src/lightir/Value.cpp:31-35 | all uses by the user go, and the others keep their order |
| UseLists.Value.SetOperand | src/lightir/User.cpp:22-28 | the slot holds the value and the value records the slot; exact lists stay exact if and only if the slot was empty or held a retired value |
| UseLists.SetTwice | src/lightir/User.cpp:22-28 | setting an operand twice leaves the first value with a use it no longer has |
| UseLists.Value.AddOperand | src/lightir/User.cpp:30-35 | one slot more, recorded under its number; lists stay exact |
| UseLists.Value.ReplaceAllUseWith | src/lightir/Value.cpp:22-29 | exactly the slots of live users that held the old value hold the new one, no other slot or list changes, and lists stay exact with the old value retired |
| UseLists.Value.MoveAll | src/lightir/Value.cpp:24-28 | the slots of all recorded uses are rewritten, and the new value records them in order |
| UseLists.Value.UnusedIff | src/optimization/MarkedCodeDeletion.cpp:53-54 | a use list is empty if and only if no live user has the value in a slot |
| UseLists.Value.RemoveUseOfOps | src/lightir/User.cpp:42-47 | the user leaves the lists of all its operands, no other list changes, and lists are exact for the remaining users |
| UseLists.BasicBlock.AddInstruction | src/lightir/BasicBlock.cpp:20-23 | appends |
| UseLists.BasicBlock.AddInstrBegin | src/lightir/BasicBlock.cpp:25-28 | prepends |
| UseLists.BasicBlock.DeleteInstr | src/lightir/BasicBlock.cpp:30-34 | the instruction leaves the block, in which the others keep their order, and every use list; all lists stay exact, and no other operand changes |
| UseLists.DroppedInOrder | src/lightir/BasicBlock.cpp:30-34 | the other instructions stay, in the order they were in |
| UseLists.DroppedOnce | src/lightir/BasicBlock.cpp:30-34 | what stands before and after an instruction that occurs once is joined |
| UseLists.BasicBlock.GetTerminator | src/lightir/BasicBlock.cpp:36-55 | the last instruction if it is a branch or a return, and null exactly otherwise |

## Left out

- Mem2Reg.Mem2RegPass.Run: assumes the condition `Assigned` on loads and edges and `MergesReachable`, which are exactly what the code needs; that no slot access is left is stated for reachable blocks, because blocks the entry does not reach are not renamed although their scalar slots are removed. The pass starts with no stacks: those of the slots of other functions, kept in the same global map, are not there.
- Mem2Reg.Mem2RegPass.ReplaceAllUseWith: rewrites the code of a function kept as values; that the operands and use lists in the heap agree is proved separately in `UseLists`.
- MarkedDeletion.MarkedCodeDeletionPass.DeleteInstr: works on code kept as values; that the use lists in the heap follow is proved in `UseLists.BasicBlock.DeleteInstr`.
- MarkedDeletion.MarkedCodeDeletionPass.Run: without `deleteNoUseFunc`, the deletion of functions that nobody calls.
- Compilation.Optimise: takes the two conditions of the generated function; `Compilation.Compile` takes them of the source. Both start from a pass object that holds the generated function; the driver's parsing and printing are not part of this model.
- Compilation.Compile: its condition on variables is enough, not necessary: functions with variables of inner scopes, or assigned to later, can meet `Assigned` as well, and `Compilation.Optimise` is for them.
- MarkedDeletion.MarkedCodeDeletionPass.CollectUnused: tests for an empty use list by looking for a use; `UseLists.Value.UnusedIff` says the two agree.
- MarkedDeletion.MarkedCodeDeletionPass.MarkSafeFunc: finds calls and stores block by block, without the early exit from the two inner loops.
- LoopSearch.LoopSearchPass.RecordLoop: keeps `loop_set`, `base2loop`, `loop2base` and `bb2base` as one record, and the assignment that the source makes twice is made once; the table `func2loop`, which lists the loops of each function, is not kept, because one function is analysed at a time.
- LoopSearch.LoopSearchPass.ResetMarks: the marks of removed nodes, which nothing reads again, are dropped.
- CminusfBuilder.Builder.VisitExpr: integer values only; arithmetic is an unspecified total function, so that neither 32-bit wrap-around nor division by zero is described, and a call always yields a value.
- CminusfBuilder.Builder.VisitStmt: assumes that every name used in code that is generated is bound, to a variable or function as it is used, as the generator's own assertion and casts do; return types that need a conversion are not modelled.
- CminusfBuilder.Builder.VisitProgram: returns what is built for each function, by its declaration, where the source keeps it in a module; that global variables start at zero is left to the store a call starts from.
- Floats, conversions, arrays, element addresses and the exit for negative indices in the builder.
- The value-list constructor of phi instructions: only empty phis are created.
- `deleteNoUseFunc`: functions that nobody calls; calls are events here, and bodies of callees are not run.
- Functions of one module are analysed one at a time; the loops over the functions of a module in `Dominators`, `Mem2Reg`, `ActiveVars` and `LoopSearch` are not modelled, nor is `func2loop`.
- `get_parent_loop`, which is right only for particular graphs, and `create_doms` and `remove_operands`, which nothing calls.
- Constant propagation, common subexpressions and loop-invariant hoisting: no meaning-preservation theorem holds of them as written.
- Names, printing, the JSON output of the analyses, logging, types, parsing, the runtime library and the driver.
