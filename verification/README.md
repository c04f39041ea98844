# Verified kernels of the C-minus compiler

The compiler translates C-minus to an SSA intermediate language, optimises it and emits LoongArch
code. This project models seven of its algorithms and proves what they promise:

1. **Linear-scan register allocation** with lifetime holes and interval splitting (`Intervals`,
   `LinearScan`, `ScanInvariant`, `ScanTermination`, `ScanMoves`, `Locations`, `ScanRuns`, `RegAlloc`,
   `ScanHazard`). Whatever the ties between registers, the scan ends, no two values that are live together
   share a register or a byte of the frame, the pieces of a value always partition its lifetime, and
   `get_loc` never reaches its error exit.
2. **Parallel moves**: `topo_sort` and `parallel_mov` (`MoveGraph`, `MoveInvariant`, `MoveSearch`,
   `MoveRounds`, `TopoSort`, `MoveHazard`, `MoveForever`, `ParallelMove`, `ParallelMeaning`). The emitted
   list is the simultaneous assignment exactly when no slot is read after it has been overwritten.
3. **Dominators, post-dominators, dominance frontiers and phi placement** (`Graphs`, `IdomForest`,
   `DominatorTheory`, `FrontierTheory`, `Dominators`, `PostDominators`, `PhiPlacement`). The fixed-point
   iteration ends with chains that are exactly the dominators; frontiers and phis follow from them.
4. **Loop discovery** (`Components`, `Tarjan`, `LoopNest`, `LoopSearch`): Tarjan's search finds exactly
   the strongly connected components with a cycle, and its rounds record a nest of loops.
5. **Sparse conditional constant propagation** (`SsaForm`, `Ssa`, `Lattice`, `SccpProgress`, `SccpRun`,
   `SccpSound`, `SccpClosed`, `SccpRewrite`, `SccpEdges`, `Sccp`, `SccpHazard`, `SccpStray`). The worklists
   run dry; a closed state is right about every run, and rewriting by it preserves every run and leaves
   exactly the operands that are needed; a condition on the function makes the final state closed; a
   function on which the pass miscompiles is given.
6. **Mark-and-sweep dead code elimination** and the purity analysis behind it (`DeadCode`,
   `DeadCodePass`, `FuncInfo`, `CallEffects`): sweeping preserves every run, and calls of the functions
   found pure leave memory alone if and only if no address below them can come from elsewhere.
7. **Arithmetic**: what constant folding means (`Words`, `WordLaws`); the choice of a multiplier for
   divisions, division and remainder by powers of two, linear reassociation (`Division`, `DivisionPass`, `Terms`, `Reassociation`, `Rebuilding`).

How the source is rendered:

- Blocks, values and registers are numbers; their pointers, logging and assertions are gone. An
  assertion of the source appears as something proved (`assert` or `ensures`).
- A class of the source is a class here, with its lists and tables as fields that loops update. Its
  methods are proved against functions on a value that holds the same fields; the theorems about whole
  runs are lemmas about these functions.
- `icl::interval_set` is the finite set of the positions it contains.
- Where the source walks an unordered container or breaks a tie by pointer order, any order or choice
  is allowed. This holds for ties between intervals that start together and between equally good
  registers, for the order of blocks and components in the loop search, and for the order of terms.
- `Basis` holds what all parts share, `Sums` the sums over finite sets that measures are made of.
- The 32-bit operations wrap around (`Words`); division and remainder truncate toward zero.

What the source needs of its inputs is stated as preconditions:

- Linear scan: one nonempty interval for each value, with its uses inside it; argument intervals have
  distinct registers of their class and start no later than any other interval
  (`ScanInvariant.Input`); the two tables have a row for some register of each class
  (`ScanInvariant.Rows`); the slots of allocas, which `build_intervals` hands out before the scan, do not
  overlap and lie within the frame (`ScanInvariant.SlotsApart`).
- `topo_sort`: destinations are distinct; no temporary takes part; if the moves contain a cycle, all
  registers lie below the bound of line 1479 of src/codegen_new/codegen.cc (10 for integers, 30 for
  floats). `MoveHazard` shows that this bound cannot be relaxed; beyond it the source may not even end
  (`MoveForever.NeverEnds`).
- Loop search: all blocks are reachable and the entry lies on no cycle.
- Constant propagation: branch targets are blocks of the function, and a branch condition is an argument
  or defined in a block that dominates the branch.
- Reassociation: operands have smaller numbers than the instructions that use them (the expressions form a
  DAG), and numbers are 32-bit integers.
- Division: the divisor is not -2^31, of which `std::abs` has no value.

Eight places where the code does less than it seems to promise are made precise:

- src/codegen_new/regalloc.cc:241 retires an inactive interval only when it ends strictly before the
  current position, while line 223 uses `<=`. An interval that ends right there may reach line 422,
  which then dereferences an end iterator. `ScanHazard.StealUndefinedIff` says exactly when, and
  `ScanHazard.UndefinedIsReachable` gives three lawful intervals whose scan gets there. It never happens
  when the lifetimes have no holes (`ScanRuns.WholeRound`), and with `<=` at line 241 it never happens at
  all (`ScanRuns.InclusiveNeverFails`, `ScanRuns.InclusiveEnds`).
- src/codegen_new/codegen.cc:1479 turns finished registers into temporaries even if they are real
  destinations. `MoveHazard.RightExactlyBelowTen` says for which register sets this never matters, and
  `MoveForever.NeverEnds` gives three moves, for any three registers from 10 to 21, that it sorts for ever.
- src/codegen_new/codegen.cc:1197 worries about slots that are read and written by the same call.
  `ParallelMeaning.RightIff` gives the exact condition.
- include/Optimize/SCCPSolver.hh:118 visits the users of a value again only when the value has become
  overdefined. `SccpHazard.Miscompiled` is a function in SSA form that returns 2 and is rewritten to return
  1. `SccpClosed.SolveCloses`: on functions in SSA form it cannot happen as long as phis read only constants
  and arguments over edges out of blocks that branch on a variable.
- include/Optimize/SCCPSolver.hh:294-297 opens the first way out of a branch on an unknown value.
  `SccpEdges.OnlyPredecessorsIff` says when rewriting leaves only operands of predecessors,
  `SccpEdges.OperandsExact` that it does under the same condition, and `SccpStray.OperandLeft` is a function
  where an operand of a block stays that no longer leads there.
- src/Optimize/LoopSearch.cc:210-223 asks one predecessor for the enclosing loop.
  `LoopNest.ParentIff` says exactly when the answer is right.
- src/Optimize/Dominators.cc:143-146 looks at a block only if it has two predecessors and never adds a
  frontier above the root. `FrontierTheory.ExactIffRootHasNoPred`: the frontiers are exact everywhere if
  and only if nothing branches back to the root.
- include/Optimize/FuncInfo.hh:113-128 follows the first pointer operand of an instruction only.
  `CallEffects.LeavesMemoryIff` says when calls leave memory alone, and `CallEffects.FoundPureWrites` is a
  function found pure whose calls may change it.

## Model

| member | source | states |
|---|---|---|
| `RegAllocation.RegAlloc.LinearScanSsa` | src/codegen_new/regalloc.cc:192-456 | On every lawful input, with any slots of allocas already given, the scan ends. The rounds it went through lead from the input either to a state that satisfies the scan invariant with nothing left unhandled, or to one whose next round runs into the undefined lookup of line 422; the latter never happens when lifetimes have no holes. Slots given before stay where they are, and moves are recorded only at seams |
| `RegAllocation.RegAlloc.OneRound` | src/codegen_new/regalloc.cc:205-445 | A pass through the main loop is one of the rounds that the lemmas are about |
| `ScanInvariant.RoundKeeps` | src/codegen_new/regalloc.cc:205-445 | Every round, however ties are broken, keeps: pieces partition the original lifetimes with their uses, two pieces in one register share no position, every piece left to the stack has a slot, slots do not overlap, every seam between pieces is a recorded move or a block start |
| `ScanTermination.RoundShrinks` | src/codegen_new/regalloc.cc:205-445 | Every round makes (distance of the next start from SIZE_MAX, sum over the registers of the next uses, intervals left at that start) lexicographically smaller, although stolen intervals go back to unhandled |
| `ScanTermination.StealShrinks` | src/codegen_new/regalloc.cc:393-440 | Taking a register over lowers the sum of the next uses at or behind the position |
| `ScanTermination.StealUses` | src/codegen_new/regalloc.cc:393-440 | After a steal the only uses of the stolen register from the position on are those of the current interval; other registers keep theirs |
| `Locations.LiveIsLocated` | src/codegen_new/regalloc.cc:598-627 | After the scan every live position of a value has one and only one location, and it is never the error exit |
| `Locations.LiveValuesDoNotClash` | src/codegen_new/regalloc.cc:446-457 | Two different values that have a location at the same position are in different registers, or no byte of the one, counting the eight that a store of a spilled value writes, is a byte of the other |
| `Locations.SlotsShareNoByte` | include/codegen_new/regalloc.hh:155-160 | The bytes of a slot, by the size of its value and at least eight for a spilled one, lie in the frame, and no two values share one |
| `Locations.ChangesAreRecorded` | src/codegen_new/regalloc.cc:327-336 | If a value is in different places at neighbouring positions, a split move is recorded for the later one or it begins a block |
| `ScanMoves.RoundKeepsMoves` | src/codegen_new/regalloc.cc:327-336 | Every round keeps: a recorded move is at a position of its value where a piece begins, and not at the beginning of a block |
| `ScanInvariant.InputInv` | src/codegen_new/regalloc.cc:192-203 | Lawful input, with any slots that do not overlap, starts out in the invariant |
| `ScanInvariant.CutOne` | include/codegen_new/regalloc.hh:69-89 | Cutting one piece in two loses no position and no use of its value, overlaps nothing, and keeps every seam recorded |
| `ScanInvariant.RecutKeepsPartition` | include/codegen_new/regalloc.hh:69-89 | Replacing pieces by pieces cut out of them leaves a partition of the original lifetimes |
| `ScanInvariant.FreeMeans` | src/codegen_new/regalloc.cc:274-301 | Until the position that freeUntilPosition gives for a register, nothing that holds the register meets the current lifetime |
| `ScanInvariant.FreeIsReached` | src/codegen_new/regalloc.cc:274-301 | ... and at that position, unless it is SIZE_MAX, an inactive holder of the register does meet it |
| `ScanInvariant.NextUseIsFirst` | src/codegen_new/regalloc.cc:339-353 | nextUsePos of a register is the first use, at or behind the position, of an interval that holds it, and SIZE_MAX if there is none |
| `ScanInvariant.TakeNoClash` | src/codegen_new/regalloc.cc:320-336 | Giving the current interval a register up to where it is free creates no clash |
| `ScanInvariant.EvictNoClash` | src/codegen_new/regalloc.cc:398-440 | Cutting the holders of a register at the current position leaves no clash behind |
| `ScanInvariant.StealKeeps` | src/codegen_new/regalloc.cc:393-444 | Taking a register over from its holders keeps the whole invariant |
| `ScanHazard.StealUndefinedIff` | src/codegen_new/regalloc.cc:418-424 | The lookup of line 422 is undefined if and only if an inactive interval in the register ends exactly at the position |
| `ScanHazard.UndefinedIsReachable` | src/codegen_new/regalloc.cc:239-246 | Three lawful intervals and the initial tables: two rounds lead to a state whose next round has such a lookup |
| `ScanRuns.FailsAtEnd` | src/codegen_new/regalloc.cc:239-246 | Whenever a round has no defined outcome, an interval that held a register ended exactly at its position |
| `ScanRuns.WholeRound` | src/codegen_new/regalloc.cc:205-445 | When lifetimes have no holes every round has a defined outcome, nothing becomes inactive, and no hole appears |
| `ScanRuns.RoundKeepsSlots` | include/codegen_new/regalloc.hh:155-160 | No round moves a slot that was given before |
| `ScanRuns.InclusiveRound` | src/codegen_new/regalloc.cc:239-246 | With `<=` at line 241 no round is undefined; each keeps the invariant and lowers the measure |
| `ScanRuns.InclusiveEnds` | src/codegen_new/regalloc.cc:205-445 | With `<=` at line 241 the scan can be run from every state that meets the invariant to a finished one that meets it |
| `ScanRuns.InclusiveNeverFails` | src/codegen_new/regalloc.cc:239-246 | ... and no run of it, however ties are broken, comes to a round without an outcome |
| `RegAllocation.RegAlloc.Refresh` | src/codegen_new/regalloc.cc:218-256 | Active and inactive intervals are sorted into active, inactive and handled as the position demands, with the two different end tests |
| `RegAllocation.RegAlloc.FillFreeUntil` | src/codegen_new/regalloc.cc:274-301 | Both loops together leave for each register 0 if it is in use, else the first position at which an inactive holder meets the current lifetime |
| `RegAllocation.RegAlloc.FillNextUse` | src/codegen_new/regalloc.cc:339-353 | The loops leave for each register of the class the first use at or behind the position among its holders |
| `RegAllocation.RegAlloc.BestRow` | src/codegen_new/regalloc.cc:314-316 | The row returned belongs to the class and no row of the class has a larger entry |
| `RegAllocation.RegAlloc.Allocate` | src/codegen_new/regalloc.cc:257-444 | Allocation of one interval is an allowed outcome for some register whose entry is largest |
| `RegAllocation.RegAlloc.AllocateFree` | src/codegen_new/regalloc.cc:323-336 | The whole interval, or the part before the position where the register stops being free, becomes active; the rest is queued again |
| `RegAllocation.RegAlloc.AllocateBusy` | src/codegen_new/regalloc.cc:338-441 | With every register busy the outcome is one of: all to the stack, a prefix to the stack, or taking over a register whose next use is farthest |
| `RegAllocation.RegAlloc.StealFor` | src/codegen_new/regalloc.cc:393-440 | It fails exactly where the lookup is undefined, and otherwise takes the register over from all its holders |
| `RegAllocation.RegAlloc.EvictActive` | src/codegen_new/regalloc.cc:398-415 | Every active holder of the register, and no other interval, is cut at the position; the tails are queued and the cuts recorded |
| `RegAllocation.RegAlloc.EvictInactive` | src/codegen_new/regalloc.cc:418-439 | The same for inactive holders, whose tails begin after their hole; it fails if one of them has nothing left |
| `RegAllocation.RegAlloc.SpillPrefix` | src/codegen_new/regalloc.cc:380-392 | The part of the interval before the next use goes to the stack, the rest is queued |
| `RegAllocation.RegAlloc.SpillValue` | include/codegen_new/regalloc.hh:155-160 | A value without a slot gets the end of the frame, which grows by the least that holds its size and, unless it is an alloca, eight bytes; a value with a slot keeps it |
| `RegAllocation.RegAlloc.Begin` | src/codegen_new/regalloc.cc:194-203 | Pre-coloured intervals start active, all others unhandled |
| `RegAllocation.RegAlloc.GetLoc` | src/codegen_new/regalloc.cc:598-627 | The search through the recorded pieces answers with the register of a piece that covers the index, else with the slot of the value |
| `DominatorPass.Dominators.Run` | src/Optimize/Dominators.cc:46-60 | For any graph: the blocks kept are the reachable ones; the idom chain of a block is exactly the set of its dominators (by paths of the given function); off the root the frontier sets are the dominance frontiers |
| `DominatorPass.Dominators.VisitBlock` | src/Optimize/Dominators.cc:12-20 | The search numbers every block it reaches after the blocks it reached from there, so that every edge but a back edge lowers the number |
| `DominatorPass.Dominators.VisitFunction` | src/Optimize/Dominators.cc:22-44 | Exactly the blocks reachable from the entry are numbered and kept |
| `DominatorPass.Dominators.GenerateIdom` | src/Optimize/Dominators.cc:101-137 | The iteration ends in a fixed point from which the chains are the dominators |
| `DominatorPass.Dominators.OnePass` | src/Optimize/Dominators.cc:109-135 | A pass either lowers the sum of the slacks or changes nothing and has reached the fixed point |
| `DominatorPass.Dominators.Evaluate` | src/Optimize/Dominators.cc:112-134 | Each update keeps the invariants and lowers the sum of the slacks |
| `DominatorPass.Dominators.MeetOfPreds` | src/Optimize/Dominators.cc:115-129 | The result is the nearest common ancestor of all predecessors that have an idom, and the assertion of line 122 holds |
| `IdomForest.Intersect` | src/Optimize/Dominators.cc:62-71 | Climbing by numbers ends at the nearest common ancestor in the tree |
| `DominatorTheory.UpdateKeeps` | src/Optimize/Dominators.cc:124-134 | An update keeps the invariants of the pass and settles the block |
| `DominatorTheory.MeetIsAbove` | src/Optimize/Dominators.cc:124-134 | Each update moves an idom up its own chain |
| `DominatorTheory.UpdateShrinks` | src/Optimize/Dominators.cc:131-134 | An update that changes an idom lowers the sum over blocks of what is left of the chains |
| `DominatorTheory.Climb` | src/Optimize/Dominators.cc:111-135 | What was above a block in the previous pass and lies below what is above it now is still on the way |
| `DominatorTheory.ChainIsDominators` | src/Optimize/Dominators.cc:101-137 | At the fixed point d lies on the chain of b if and only if every path from the entry to b passes d |
| `DominatorPass.Dominators.IsDominator` | src/Optimize/Dominators.cc:191-199 | It answers whether prev lies strictly above succ on its chain, that is, strictly dominates it |
| `DominatorPass.Dominators.GenerateDomFrontier` | src/Optimize/Dominators.cc:140-149 | Exactly the blocks met between a predecessor and the idom of a join collect the join |
| `FrontierTheory.WalkedIsFrontier` | src/Optimize/Dominators.cc:140-149 | Off the root: y is collected by x if and only if x dominates a predecessor of y and does not strictly dominate y |
| `FrontierTheory.WalkedAtRoot` | src/Optimize/Dominators.cc:140-149 | At the root: y is collected only with two or more branches back, and never by the root itself |
| `FrontierTheory.ExactIffRootHasNoPred` | src/Optimize/Dominators.cc:140-149 | The collected sets are the dominance frontiers everywhere if and only if the root has no predecessor |
| `Graphs.PostDominanceIsReversed` | include/Optimize/PostDominator.hh:86-122 | Post-dominance, by paths to the exit, is dominance in the reversed graph |
| `PostDominatorPass.Run` | include/Optimize/PostDominator.hh:10-24 | The chain of a block is exactly the set of its post-dominators, and the frontiers are those of the reversed graph |
| `PhiPlacement.Mem2Reg.GeneratePhi` | src/Optimize/Mem2Reg.cc:75-100 | Each variable has phis at exactly the least set of blocks closed under frontiers from its stores, one phi a block, and no other variable has any |
| `PhiPlacement.Mem2Reg.PlaceFor` | src/Optimize/Mem2Reg.cc:77-99 | The queue for one variable ends with that least set and leaves the other variables alone |
| `PhiPlacement.Mem2Reg.AddPhis` | src/Optimize/Mem2Reg.cc:86-98 | The frontier blocks without a phi get one and are queued, and only those |
| `PhiPlacement.Mem2Reg.AddPhi` | src/Optimize/Mem2Reg.cc:88-97 | The phi goes to the front of its block and nowhere else |
| `PhiPlacement.LastIsNearest` | src/Optimize/Mem2Reg.cc:53-101 | With a phi in every frontier block of a definition, the last definition passed on any path is the nearest dominating one |
| `PhiPlacement.OneDefinitionReaches` | src/Optimize/Mem2Reg.cc:53-101 | All paths from the entry to a block pass the same definition last |
| `PhiPlacement.PlacementDefines` | src/Optimize/Mem2Reg.cc:75-100 | For every variable, stored to in the entry or not: the stores, the phis that generate_phi chooses and the entry meet the condition of the two lemmas above |
| `TarjanSearch.Tarjan.Scc` | src/Optimize/LoopSearch.cc:30-38 | For every finite graph the sets returned are exactly the strongly connected components that have two nodes or a self-loop |
| `TarjanSearch.Tarjan.Traverse` | src/Optimize/LoopSearch.cc:43-81 | A call explores everything it can reach outside what is finished, keeps the stack a chain of open components ordered by number, and leaves in low a number it can lead back to |
| `TarjanSearch.Tarjan.Close` | src/Optimize/LoopSearch.cc:58-80 | When the successors are done a node either closes its component, which is then complete, or leaves it open for a node below it on the stack |
| `TarjanSearch.Tarjan.PopComponent` | src/Optimize/LoopSearch.cc:58-80 | Popping down to the node removes one component and records it when it has a cycle |
| `Components.TopIsScc` | src/Optimize/LoopSearch.cc:58-66 | When low equals dfn the part of the stack above the node is a strongly connected component, no more and no less |
| `LoopSearches.LoopSearch.Run` | src/Optimize/LoopSearch.cc:107-167 | The rounds end; the loops recorded are nested or disjoint, each has one base that lies in it and can be entered from outside; each round recorded all components with a cycle of what was left; no cycle is left without the bases |
| `LoopSearches.LoopSearch.RecordAll` | src/Optimize/LoopSearch.cc:126-163 | A round records every component found and takes at least one block out |
| `LoopSearches.LoopSearch.RecordOne` | src/Optimize/LoopSearch.cc:127-157 | Recording one component keeps the nest and leaves the remaining components of the round intact |
| `LoopSearches.LoopSearch.PointTo` | src/Optimize/LoopSearch.cc:141-146 | Exactly the blocks of the loop point to the new base |
| `LoopSearches.LoopSearch.FindLoopBase` | src/Optimize/LoopSearch.cc:83-105 | A base is always found, and it can be entered from outside the component in the original function |
| `LoopSearches.LoopSearch.FromReserved` | src/Optimize/LoopSearch.cc:95-103 | When the only entries come from bases already taken out, the remembered edges show them |
| `LoopNest.RecordNest` | src/Optimize/LoopSearch.cc:126-157 | A component of what is left is nested in or disjoint from every loop recorded so far |
| `LoopNest.NoSccNoCycle` | src/Optimize/LoopSearch.cc:123-124 | When the search returns nothing, what is left has no cycle at all |
| `LoopSearches.LoopSearch.GetInnerLoop` | src/Optimize/LoopSearch.cc:140-146 | The loop a block points to is the smallest recorded loop around it; without one it is in no loop |
| `LoopSearches.LoopSearch.GetParentLoop` | src/Optimize/LoopSearch.cc:210-223 | An answer is a recorded loop that properly encloses the given one; it is the smallest, or nothing when there is none, exactly under the condition of ParentIff on the predecessor asked |
| `LoopNest.ParentIff` | src/Optimize/LoopSearch.cc:210-223 | Asking one outside predecessor gives the parent loop if and only if there is no enclosing loop or the predecessor lies in the enclosing loops and in no others |
| `LoopNest.ParentEncloses` | src/Optimize/LoopSearch.cc:213-221 | The loop returned properly encloses the given one, and is the smallest if the predecessor lies in all of them |
| `LoopNest.ParentCanBeMissed` | src/Optimize/LoopSearch.cc:217-219 | Two self-loops inside a loop: whatever the search records for this function, it is these three loops, one self-loop is asked about the other, nothing is returned, and nothing is not the parent |
| `TopologicalSort.TopoSort.Sort` | src/codegen_new/codegen.cc:1427-1518 | The loop ends, never asks an empty pool for a temporary, and returns a list without duplicates of one move for each edge and one for each cycle, made at the greatest register of the cycle; the list solves the parallel assignment |
| `TopologicalSort.TopoSort.Dfs` | src/codegen_new/codegen.cc:1461-1488 | The recursive search on updated sets and maps is the search function that the lemmas are about |
| `TopologicalSort.TopoSort.BreakCycle` | src/codegen_new/codegen.cc:1493-1506 | The smallest free temporary takes over everything the register feeds |
| `TopologicalSort.MovesAssign` | src/codegen_new/codegen.cc:1427-1518 | Made one by one, the moves give every destination what its source held at the start and change no other register but temporaries |
| `MoveGraph.RunIsOrigin` | src/codegen_new/codegen.cc:1221-1226 | After any list of moves a place holds what its origin, found by walking the list backwards, held before |
| `MoveRounds.RoundFinishes` | src/codegen_new/codegen.cc:1454-1488 | A round that meets no cycle finishes its register and keeps the invariant |
| `MoveRounds.RoundMeetsTop` | src/codegen_new/codegen.cc:1464-1507 | A cycle is only ever met at the register the search started from, which is the greatest of the cycle, with every temporary free |
| `MoveRounds.SameCycle` | src/codegen_new/codegen.cc:1454-1508 | Since every destination has one source, cycles that share a register are the same |
| `MoveRounds.Finale` | src/codegen_new/codegen.cc:1509-1517 | When no node is left, the invariant amounts to the parallel assignment, the distinctness that line 1514 asserts, and the count |
| `MoveHazard.OkIsRight` | src/codegen_new/codegen.cc:1479-1480 | On moves without a cycle, or over small registers only, there is a complete run and every complete run is right |
| `MoveHazard.BadIsWrong` | src/codegen_new/codegen.cc:1479-1480 | With a destination numbered 10 or above next to a cycle, there is a complete run that loses a value |
| `MoveHazard.SelfIsWrong` | src/codegen_new/codegen.cc:1479-1480 | So there is on two moves of registers to themselves, one of them numbered 10 or above |
| `MoveHazard.OneIsRight` | src/codegen_new/codegen.cc:1479-1480 | A single register numbered 10 or above that is moved to itself keeps its value |
| `MoveHazard.RightExactlyBelowTen` | src/codegen_new/codegen.cc:1479-1480 | For any integer registers below the temporaries: topo_sort ends and is right on all move graphs over them if and only if there is at most one or all are below 10 |
| `MoveHazard.FloatsAreRight` | src/codegen_new/codegen.cc:1442-1480 | For floats topo_sort ends and is right on all move graphs over registers below the temporaries 30 and 31 |
| `MoveForever.NeverEnds` | src/codegen_new/codegen.cc:1454-1508 | For any three integer registers from 10 to 21, two that change places and a copy of the greatest in the smallest: every round is defined and leaves registers over, and no run is complete |
| `ParallelMove.Codegen.ParallelMov` | src/codegen_new/codegen.cc:1130-1241 | The code emitted is, for integers and then for floats, the stores, a sorted list of register moves and the loads |
| `ParallelMove.Codegen.Partition` | src/codegen_new/codegen.cc:1137-1145 | Moves go to the class of their destination, in order |
| `ParallelMove.SelectInOrder` | src/codegen_new/codegen.cc:1137-1145 | What is selected are all moves with the property, each once and in the order in which they were |
| `ParallelMove.Codegen.MoveClass` | src/codegen_new/codegen.cc:1152-1240 | The three phases of one class, of which the second solves the register assignment |
| `ParallelMove.Codegen.StoreAndCollect` | src/codegen_new/codegen.cc:1164-1204 | Stores are made at once; the nodes and edges describe exactly the register moves |
| `ParallelMove.Codegen.EmitLoads` | src/codegen_new/codegen.cc:1228-1239 | Values and slots that go to registers are loaded last |
| `ParallelMeaning.RightIff` | src/codegen_new/codegen.cc:1130-1241 | The code is the simultaneous assignment, scratch registers aside, if and only if no move reads a place that a move made earlier has changed |
| `ParallelMeaning.RightAssigns` | src/codegen_new/codegen.cc:1130-1241 | Whatever the places hold, right code gives every destination what its source held and changes nothing else but scratch registers |
| `ParallelMeaning.SlotsApartIsRight` | src/codegen_new/codegen.cc:1148-1152 | When no slot is both a destination and a source, the code is right |
| `ParallelMeaning.HinderedShows` | src/codegen_new/codegen.cc:1196-1200 | Otherwise there are contents for which some destination ends up wrong |
| `ParallelMeaning.OneByOneIff` | src/codegen_new/codegen.cc:1148-1152 | Moves with distinct destinations, made one by one, are a simultaneous assignment if and only if none reads what an earlier one has changed |
| `SccpSound.RunSound` | include/Optimize/SCCPSolver.hh:238-408 | In a closed state every run stays on executable blocks and edges, and every defined value that is marked constant has that constant |
| `SccpSound.StepSound` | include/Optimize/SCCPSolver.hh:238-408 | One block of a run keeps the agreement between values and cells and takes an executable edge |
| `SccpSound.SettledIff` | include/Optimize/SCCPSolver.hh:238-379 | Phis and instructions are settled exactly when visiting them changes nothing |
| `SccpRun.TermSettledIff` | include/Optimize/SCCPSolver.hh:381-408 | Branches are settled exactly when visiting them changes nothing |
| `SccpRewrite.RewriteKeepsRuns` | include/Optimize/SCCP.hh:38-127 | By a closed state: every run of the function is, block by block, value by value and event by event, a run of the rewritten one |
| `SccpRewrite.RewriteKeepsReturn` | include/Optimize/SCCP.hh:38-127 | ... and returns the same values |
| `SccpProgress.MergeInAdvances` | include/Optimize/SCCPSolver.hh:48-68 | A cell only moves from unknown to constant to overdefined, a constant never changes its value, and each move up pays for what it queues |
| `SccpProgress.VisitBlockAdvances` | include/Optimize/SCCPSolver.hh:166-169 | Visiting a block moves cells up only and does not raise the rank |
| `SccpProgress.VisitUsersAdvances` | include/Optimize/SCCPSolver.hh:145-155 | Visiting the users of a value moves cells up only and does not raise the rank |
| `SccpProgress.PopsFall` | include/Optimize/SCCPSolver.hh:107-127 | Taking an entry off any of the three lists, with all that it sets off, lowers the rank |
| `SccpRun.SolveKeeps` | include/Optimize/SCCPSolver.hh:107-127 | solve ends with empty lists; cells only moved up; every executable block is reached by executable blocks |
| `SccpRun.ChangesFall` | include/Optimize/SCCPSolver.hh:277-303 | A pass of process_unknown that reports a change brings the end nearer |
| `SccpRun.PropagateEnds` | include/Optimize/SCCP.hh:31-33 | The loop of solve and process_unknown ends, and then nothing in an executable block is unknown |
| `SccpClosed.SolveCloses` | include/Optimize/SCCPSolver.hh:107-127 | If the function is in SSA form, the use lists are its uses, and phis read only constants and arguments over edges out of blocks that branch on a variable: solve ends in a closed state with nothing executable unknown, so process_unknown finds nothing to do |
| `SccpClosed.VisitBlockSettles` | include/Optimize/SCCPSolver.hh:121-125 | ... because popping a block settles all that is in it, finds every operand known, and unsettles no place elsewhere without queueing an operand of it |
| `SccpClosed.PopOverHolds` | include/Optimize/SCCPSolver.hh:110-114 | ... and popping an overdefined value settles the places that waited for it |
| `SccpClosed.SoundStays` | include/Optimize/SCCPSolver.hh:255-264 | A place that is settled, or waits for an overdefined operand in the list, stays so while cells move up and queue what became overdefined |
| `ConstantPropagation.SCCPSolver.Solve` | include/Optimize/SCCPSolver.hh:107-127 | The three worklist loops, on lists updated in place, compute the function that the lemmas are about |
| `ConstantPropagation.SCCPSolver.OverdefinedValues` | include/Optimize/SCCPSolver.hh:110-114 | The list of overdefined values runs dry on the way to the same final state, and if there were any the rank is lower |
| `ConstantPropagation.SCCPSolver.OtherValues` | include/Optimize/SCCPSolver.hh:115-120 | So does the list of the other values |
| `ConstantPropagation.SCCPSolver.Blocks` | include/Optimize/SCCPSolver.hh:121-125 | So does the list of blocks |
| `ConstantPropagation.SCCPSolver.ProcessUnknown` | include/Optimize/SCCPSolver.hh:277-303 | Every unknown value of an executable block becomes overdefined, every unknown condition opens its first edge, and a change is reported exactly when there was one |
| `ConstantPropagation.SCCPSolver.MergeinValue` | include/Optimize/SCCPSolver.hh:255-264 | A cell that moves up is queued by its new kind |
| `ConstantPropagation.SCCPSolver.VisitPhi` | include/Optimize/SCCPSolver.hh:238-254 | Only operands of executable edges are merged |
| `ConstantPropagation.SCCPSolver.VisitInst` | include/Optimize/SCCPSolver.hh:171-236 | Each opcode goes to its visitor, and together they do what the lemmas say of an instruction |
| `ConstantPropagation.SCCPSolver.VisitBinary` | include/Optimize/SCCPSolver.hh:305-331 | Two constants are folded; with one operand unknown nothing happens; otherwise the result is overdefined |
| `ConstantPropagation.SCCPSolver.VisitCmp` | include/Optimize/SCCPSolver.hh:332-353 | Two constants are compared, by the order of the integers (WordLaws.ComparisonsFold); with one operand unknown nothing happens; otherwise the result is overdefined |
| `ConstantPropagation.SCCPSolver.VisitZext` | include/Optimize/SCCPSolver.hh:421-449 | An extension has the cell of its operand |
| `SccpClosed.TransferFolds` | include/Optimize/SCCPSolver.hh:305-353 | With constant operands the cell of an instruction is the constant that the instruction computes when it runs on them |
| `SccpClosed.TransferWaitsIff` | include/Optimize/SCCPSolver.hh:305-353 | It stays unknown exactly as long as an operand is unknown |
| `WordLaws.ComparisonsFold` | include/Optimize/ConstFold.hh:74-100 | a < b is 1 exactly if b - a is positive; exactly one of <, = and > is 1; the others are their negations |
| `WordLaws.SumsFold` | include/Optimize/ConstFold.hh:16-24 | Sums, differences and products are congruent modulo 2^32 and in range |
| `WordLaws.QuotientsFold` | include/Optimize/ConstFold.hh:25-30 | Quotient and remainder satisfy a = q * b + r with the remainder smaller than the divisor and of the sign of the dividend, in range unless -2^31 is divided by -1; both are 0 for the divisor 0 |
| `WordLaws.QuotientDefinedIff` | include/Optimize/ConstFold.hh:25-30 | A division has a result when the program runs exactly if some quotient is in range |
| `WordLaws.DividesUnique` | include/Optimize/ConstFold.hh:25-30 | These laws leave one quotient and one remainder |
| `WordLaws.OthersDefinedIff` | include/Optimize/ConstFold.hh:15-42 | Shifts by other than 0 to 31 have no result, everything but divisions has one otherwise, and it is what folding gives |
| `WordLaws.ShiftLeftFolds` | include/Optimize/ConstFold.hh:31-33 | Shifting left multiplies by a power of two, modulo 2^32 |
| `WordLaws.ShiftRightFolds` | include/Optimize/ConstFold.hh:34-39 | Shifting right divides the signed or the unsigned value by a power of two and rounds down |
| `WordLaws.AndFolds` | include/Optimize/ConstFold.hh:40-42 | A bit of the result is set exactly if it is set in both operands |
| `ConstantPropagation.SCCPSolver.MarkOverdefined` | include/Optimize/SCCPSolver.hh:95-101 | A value becomes overdefined and is queued for its users, once |
| `ConstantPropagation.SCCPSolver.VisitTerm` | include/Optimize/SCCPSolver.hh:381-408 | The edges a branch can take become executable |
| `ConstantPropagation.SCCPSolver.MarkEdgeExecutable` | include/Optimize/SCCPSolver.hh:268-276 | A new edge marks its target, or has the phis of a target already marked looked at again |
| `ConstantPropagation.SCCPSolver.VisitBlock` | include/Optimize/SCCPSolver.hh:166-169 | All instructions of the block are visited in order |
| `ConstantPropagation.SCCPSolver.MarkUsersAsChanged` | include/Optimize/SCCPSolver.hh:145-151 | All users in executable blocks are visited |
| `ConstantPropagation.SCCP.ProcessFunc` | include/Optimize/SCCP.hh:26-37 | It ends; the lists are empty and nothing executable is unknown; the function is rewritten by the final state. If phis of the SSA form read only constants and arguments over edges out of blocks that branch on a variable, the final state is closed and the operands left are exactly those of the blocks that lead to the phi; and by a closed state every run of the function is a run of the new one |
| `ConstantPropagation.SCCP.RewriteBlocks` | include/Optimize/SCCP.hh:38-127 | Going through the blocks and editing in place, across blocks, ends in the function rewritten at once: executable blocks lose phi operands of dead edges and branches on constants, and constants found in them replace all their uses |
| `ConstantPropagation.SCCP.RewriteBlock` | include/Optimize/SCCP.hh:55-125 | One executable block is cut, and the uses of its constants are replaced in the whole function |
| `ConstantPropagation.SCCP.RewritePhis` | include/Optimize/SCCP.hh:55-91 | Phis with a constant have their uses replaced, the others keep the operands of executable edges (SccpEdges.FeasibleKeeps) and no others |
| `ConstantPropagation.SCCP.RewriteBody` | include/Optimize/SCCP.hh:55-63 | Uses of constant results of the body are replaced, and no others |
| `ConstantPropagation.SCCP.RemoveDeadOperands` | include/Optimize/SCCP.hh:67-74 | The loop that steps back after each removal keeps the operands of executable edges, in order |
| `SccpEdges.FeasibleKeeps` | include/Optimize/SCCP.hh:66-74 | What is kept are the operands of executable edges, each as often as it was there, and no others |
| `SccpEdges.SolveTakes` | include/Optimize/SCCPSolver.hh:107-127 | solve marks an edge only if its source is executable and branches there, and, if the condition is a constant at the end, by the way it leads |
| `SccpEdges.OnlyPredecessorsIff` | include/Optimize/SCCP.hh:66-74 | In the rewritten function all operands of phis that are not constant come from executable blocks that still branch there, if and only if the edges of these operands were marked in that sense |
| `SccpEdges.PredecessorsNamed` | include/Optimize/SCCP.hh:66-74 | By a closed state every executable block that branches to a block in the rewritten function has its operand in each phi there |
| `SccpEdges.OperandsExact` | include/Optimize/SCCP.hh:26-127 | Under the condition of SolveCloses the operands left are those of the blocks that still lead to the phi, no more and no fewer |
| `SccpEdges.NoConstantAsked` | include/Optimize/SCCP.hh:102-125 | No executable block of the rewritten function branches on a known constant; it jumps where the constant leads |
| `SccpEdges.NoConstantUsed` | include/Optimize/SCCP.hh:55-64 | Nothing in the rewritten function uses the result of an executable block that is a known constant |
| `SccpStray.OperandLeft` | include/Optimize/SCCPSolver.hh:291-299 | A concrete function, in which a phi has no operand for the entry, whose rewritten form keeps an operand of a block that has become a jump elsewhere |
| `SccpRewrite.ReplaceMore` | include/Optimize/SCCP.hh:59-64 | Replacing the uses of one more value in a function in which some are replaced is replacing them all at once |
| `SccpRewrite.RewrittenOnce` | include/Optimize/SCCP.hh:38-127 | The final state determines the rewritten function: the order of the blocks and of the replacements makes no difference |
| `SccpHazard.SolveMisses` | include/Optimize/SCCPSolver.hh:115-120 | On a concrete function in SSA form, with its use lists, the loop of solve and process_unknown ends in a state that takes a phi for 1 and is not closed |
| `SccpHazard.Miscompiled` | include/Optimize/SCCPSolver.hh:115-120 | That function has a run that returns 2; the function it is rewritten to by that state has the same run, which returns 1 and can return nothing else |
| `DeadCodeTheory.SweepRuns` | include/Optimize/DeadCode.hh:308-326 | For every world, start and length: the run of the swept function goes through the same blocks with the same stores, impure calls, memory and returned values |
| `DeadCodeTheory.SweepSteps` | include/Optimize/DeadCode.hh:308-326 | The same for one block |
| `DeadCodePass.DeadCode.Mark` | include/Optimize/DeadCode.hh:273-292 | The marked set is the least one that holds the critical instructions and, with an instruction, the definitions of its operands |
| `DeadCodePass.DeadCode.MarkCritical` | include/Optimize/DeadCode.hh:277-284 | Every critical instruction is marked and queued |
| `DeadCodePass.DeadCode.MarkIfCritical` | include/Optimize/DeadCode.hh:327-341 | Branches, returns, stores and calls of impure functions are critical, and nothing else |
| `DeadCodeTheory.CriticalIff` | include/Optimize/DeadCode.hh:327-341 | Terminators are critical and phis are not; an instruction of the body is critical if and only if in some world with these pure functions, and some state, running it changes memory or the log |
| `DeadCodePass.DeadCode.MarkOperands` | include/Optimize/DeadCode.hh:293-306 | Definitions of operands are marked and queued once; if nothing is new the list gets shorter |
| `DeadCodePass.DeadCode.Sweep` | include/Optimize/DeadCode.hh:308-326 | Exactly the unmarked instructions go, in place; the result tells whether any did |
| `DeadCodePass.DeadCode.Round` | include/Optimize/DeadCode.hh:273-326 | No instruction that stays has an operand whose definition went, and every run with defined behaviour is preserved |
| `FunctionInfo.FuncInfo.Run` | include/Optimize/FuncInfo.hh:19-31 | The marking ends with exactly those functions pure that lead to no impure one through calls |
| `FunctionInfo.PureIff` | include/Optimize/FuncInfo.hh:46-98 | A function is pure if and only if no function it reaches through calls is a declaration or main, has a parameter that is not a scalar, or loads from or stores to an address that is not traced back to an alloca |
| `FunctionInfo.TracedIsFirst` | include/Optimize/FuncInfo.hh:113-128 | Following bases of address computations and first pointer operands to the end gives the address the recursion finds |
| `FunctionInfo.FuncInfo.MarkAll` | include/Optimize/FuncInfo.hh:20-24 | Every function is marked by its own text, and exactly those with a side effect are queued |
| `FunctionInfo.FuncInfo.TrivialMark` | include/Optimize/FuncInfo.hh:46-68 | Declarations, main, functions with pointer parameters and functions that access memory other than local variables are impure |
| `FunctionInfo.FuncInfo.Process` | include/Optimize/FuncInfo.hh:70-82 | Impurity spreads to all callers, each queued once |
| `FunctionInfo.ImpureSpreads` | include/Optimize/FuncInfo.hh:25-29 | With the list empty, everything from which a side effect can be reached is impure |
| `CallEffects.LeavesMemoryIff` | include/Optimize/FuncInfo.hh:86-128 | No call of a function leaves a lasting effect behind if and only if no function below it, through calls, is a declaration, which may do anything, and every store below it is to local variables by whichever pointer operand its address is reached |
| `CallEffects.FoundPureIsHonest` | include/Optimize/FuncInfo.hh:33-36 | If get_first_addr is right about local addresses, calls of functions found pure leave memory as it was, though declarations may do anything to it; this is what dead code elimination needs |
| `CallEffects.FoundPureWrites` | include/Optimize/FuncInfo.hh:121-125 | Otherwise it need not be so: a function that stores to one of two places is found pure, and a call may leave a store behind |
| `Division.MyLog2` | include/Optimize/DivisionInvariant.hh:16-24 | The result is the least l with d <= 2^l |
| `Division.ChooseMultiplier` | include/Optimize/DivisionInvariant.hh:26-47 | For every 1 <= d < 2^31 and 1 <= prec <= 32 all six asserted bounds hold, no product leaves 64 bits, and with a shift smaller by one there is no multiplier within the bounds |
| `Division.MultiplierDivides` | include/Optimize/DivisionInvariant.hh:44-46 | Any multiplier within the asserted bounds divides: floor(mhigh * n / 2^(32 + shpost)) = floor(n / d) for every n of prec bits |
| `DivisionPass.DivStepsDivide` | include/Optimize/DivisionInvariant.hh:201-214 | The shift and add sequence is truncating division by 2^l for every 32-bit dividend |
| `DivisionPass.RemStepsRemain` | include/Optimize/DivisionInvariant.hh:100-118 | The shift, add, mask and subtract sequence is the remainder of truncating division |
| `DivisionPass.MaskRoundsDown` | include/Optimize/DivisionInvariant.hh:113-117 | Clearing the low l bits rounds down to a multiple of 2^l |
| `DivisionPass.DivideByInvariant` | include/Optimize/DivisionInvariant.hh:169-237 | A division is replaced exactly when the divisor is a power of two or its negation, and then has the same quotient for every dividend |
| `DivisionPass.ReplaceSrem` | include/Optimize/DivisionInvariant.hh:77-149 | The same for remainders |
| `Reassociation.AlgebraicSimplification.Reassociate` | src/Optimize/AlgebraicSimplification.cc:182-210 | Afterwards the terms and constant of the node, and of every node below it, have the value of the instruction modulo 2^32 for every assignment of the leaves, are 32-bit integers, and mention the variables they should; no other node changes its meaning |
| `Reassociation.AlgebraicSimplification.AddSubNode` | src/Optimize/AlgebraicSimplification.cc:480-493 | A sum or difference of operands whose forms are right gets a form that is right, in the variables of its operands, and is marked for replacement whenever they share a variable or constants meet |
| `Reassociation.AlgebraicSimplification.MulNode` | src/Optimize/AlgebraicSimplification.cc:495-518 | So does a product, with two, one or no constant operand; only in the last case it becomes a variable itself |
| `Reassociation.AlgebraicSimplification.AddTerm` | include/Optimize/AlgebraicSimplification.hh:117-129 | n times the form of another node is added to the form, and no other node is touched |
| `Reassociation.MentionsVars` | src/Optimize/AlgebraicSimplification.cc:182-210 | A node that has been dealt with mentions exactly the variables of its expression and is constant exactly if there are none |
| `Reassociation.ConstantIff` | src/Optimize/AlgebraicSimplification.cc:480-501 | That is the case exactly if all leaves are numbers |
| `Reassociation.VarsAreAtomic` | src/Optimize/AlgebraicSimplification.cc:480-518 | Each variable is the value of a leaf, or of a product of two expressions that are not constant, at or below the node |
| `Reassociation.NoneMentioned` | src/Optimize/AlgebraicSimplification.cc:480-518 | No form mentions a sum or difference or a product by a constant: not the node itself, and none below |
| `Reassociation.WithValueMeans` | include/Optimize/AlgebraicSimplification.hh:101-116 | Adding a value num times adds num times its value to the form, whether it is a constant, a known or a new variable |
| `Reassociation.SumTruth` | src/Optimize/AlgebraicSimplification.cc:480-493 | The form collected for a sum or difference has its value |
| `Reassociation.ScaledProduct` | src/Optimize/AlgebraicSimplification.cc:502-515 | The form collected for a product by a constant has its value |
| `Reassociation.ConstantProduct` | src/Optimize/AlgebraicSimplification.cc:497-501 | The folded product of two constants has its value in 32 bits |
| `Rebuilding.Rebuild` | src/Optimize/AlgebraicSimplification.cc:104-128 | The code rebuilt from terms and constant has their value in 32 bits whatever the variables hold, uses no other variables, multiplies once for each coefficient other than 0, 1 and -1, and is a constant if there are no terms |
| `Rebuilding.Group` | src/Optimize/AlgebraicSimplification.cc:104-110 | Every variable is grouped under its coefficient, and only there |
| `Rebuilding.AddUp` | src/Optimize/AlgebraicSimplification.cc:115-118 | The variables of a group, and nothing else, are added up without multiplying |
| `Rebuilding.Replace` | src/Optimize/AlgebraicSimplification.cc:91-142 | Reassociation and rebuilding together: the new code has the value of the instruction it replaces for every assignment of the leaves, uses only leaves and products of expressions that are not constant, so not a sum or difference it replaces, and is a constant if all leaves are numbers |
| `Terms.BuildersMean` | src/utils.cc:66-130 | However much they fold, the builders return code for the sum, difference and product in 32 bits |

## Left out

- RegAllocation.RegAlloc.LinearScanSsa: liveness and block order are input (the intervals and the block
  starts); moves around calls (from line 458 of regalloc.cc on) and the resolution of moves on edges are not
  modelled. `split_moves` is a set, so the order and the doubling of its entries are not captured, and
  one table holds the rows of both register classes.
- RegAllocation.RegAlloc.LinearScanSsa: a register class without any row in either table, for which the
  source falls back to an invalid register, is shut out by `ScanInvariant.Rows`.
- DominatorPass.Dominators.Run: removing unreachable blocks is the restriction of the graph to the
  reachable ones, not the list edits of `remove_unreachable_basic_block`; `dom_tree_succ_blocks_`, which
  only inverts `idom_`, is not modelled. The visit order is walked from its end instead of being reversed.
- PhiPlacement.Mem2Reg.GeneratePhi: collecting the store blocks (lines 54-73 of Mem2Reg.cc) is input, and
  `rename` is not modelled; what is proved of it is that one definition reaches each block.
- LoopSearches.LoopSearch.Run: several functions of a module are independent of each other; one is modelled.
- LoopSearches.LoopSearch.GetParentLoop: may return nothing, or a loop that is not the smallest, where the
  name promises the parent; the contract says exactly when it does not.
- TopologicalSort.TopoSort.Sort: for moves with a cycle and a register at or above the bound of line 1479 the
  source may be wrong or not end (`MoveHazard`, `MoveForever`), and the method does not cover it. The registers
  that take part are the endpoints of the moves, and the edges of a register are a list instead of a stretch of a
  multimap.
- ParallelMove.Codegen.MoveClass: inherits the bound of `TopologicalSort.TopoSort.Sort`.
- ParallelMove.Codegen.ParallelMov: inherits the bound of `TopologicalSort.TopoSort.Sort`. Offsets are small, so
  that a store or load is one instruction, and the growth of the stack shifts all slots alike; constants and
  globals are values that materialise in one move. Register operands are of the class of their move, and no
  operand is a scratch register.
- ConstantPropagation.SCCP.ProcessFunc: the condition on the function is sufficient for a closed final state, not
  necessary; whether a final state is closed can be seen by visiting every executable instruction once more
  (`SccpSound.SettledIff`, `SccpRun.TermSettledIff`).
- ConstantPropagation.SCCPSolver.VisitInst: 32-bit integers only. Floats, `fcmp` and conversions from and to
  floats are left out; constants are compared by value, as interned constants are; the error exits of
  `mark_constant` and `visit_zext` are not modelled, and results of shifts by 32 or more are arbitrary.
- ConstantPropagation.SCCP.ProcessFunc: that the operands left are those of predecessors is proved under the same
  condition, or when process_unknown finds nothing to do (`SccpEdges.PropagateTakes`); in general it is false
  (`SccpStray.OperandLeft`), and `SccpEdges.OnlyPredecessorsIff` says of which final states it is true.
- ConstantPropagation.SCCP.RewriteBlocks: the predecessor and successor lists that lines 114-117 of SCCP.hh
  edit follow from the branches here; the use lists of values are input.
- DeadCodePass.DeadCode.Round: one round for one function. The loop that repeats rounds and
  `try_rewrite_ret`, which needs the whole program, are left out. Memory is one abstract value, calls
  return, and runs that read an undefined value or divide by zero are not preserved.
- FunctionInfo.FuncInfo.Run: the chain of address computations of an access and the callers of a function are
  input. In `CallEffects` a call does some sequence of the accesses below it; their order and the values stored
  are arbitrary. A declaration may do anything to memory.
- DivisionPass.DivideByInvariant: the replacement is the sequence of instructions computed from the dividend;
  inserting it into the block is left out. Divisor -2^31 is excluded.
- DivisionPass.ReplaceSrem: the same.
- Rebuilding.Replace: the new code is an expression; insert points and the test of `need_replace`, which only
  decides whether to bother, are left out. Division nodes and floats are left out, and signed overflow in the
  compiler's own `int` arithmetic wraps around.
- Front end, assembly text, peephole rules, loop unrolling, inlining, tail recursion, weakening of
  multiplications and the superseded `SCCPOld` are left out: they are either plumbing, or rewrites whose
  meaning rests on assumptions the code does not check, or would only add easy members.
- `ADCE` is left out: it needs a theory of control dependence of its own.
