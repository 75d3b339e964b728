# AlphaFL and its MP-SPDZ compiler: a verified model

AlphaFL lets many clients commit to secret inputs shared between two servers. It sits on a fork of MP-SPDZ: a compiler that
turns programs into bytecode for secure computation, a BMR engine that evaluates garbled circuits between any number of parties,
and a library of algorithms that run on secret data. This project models the parts where a program, a circuit or a computation is
replaced by another one that has to mean the same, and proves that it does.

| files | what they model |
|---|---|
| `Graph`, `SparseDiGraph`, `BlockSemantics`, `DependencyTheory`, `Merger` | the instruction merger: dependency graph, depths, contraction of rounds, reordering |
| `RegisterPools`, `AllocationTheory`, `StraightlineAllocation`, `MemoryBlocks` | register allocation in one backward pass; the free list of memory blocks |
| `GarblingKeys`, `GarbledGates`, `GarbledCircuits`, `RealGarbling`, `Queues` | n-party garbling with point-and-permute and free XOR, with a dealer and without |
| `StableMatching`, `IndexedHeap`, `OramDepths`, `CircuitOram` | Gale-Shapley, the indexed heap and Circuit ORAM eviction over oblivious stores |
| `SortingNetworks`, `FlatSorting` | Batcher's merge sort, recursive and as flat loops |
| `GroupVectors`, `NodeGroups`, `DecisionTree` | sums and maxima per group, layer-by-layer tree training, evaluation of the tree |
| `PrefixNetworks`, `CarryLogic`, `RingArithmetic` | prefix networks, carry trees, truncation and comparison modulo 2^R under random masks |
| `Congruences`, `VectorOle`, `InputCommitment` | the input commitment: vector OLE, product shares and the servers' check |
| `FiniteSets`, `Powers`, `Bits` | sizes of sets, powers of two, numbers as bits |

How the model stands to the code:

* Objects whose methods change their fields are classes (`Merger`, `SparseDiGraph`, `AllocPool`, `BlockAllocator`, `Register`,
  `Matchmaker`, `HeapQ`, `CircuitORAM`, `TreeTrainer`); the sorting networks work in place on arrays. Expressions and recursive
  functions of the code are functions.
* Secret values stand for themselves, shares for the value they open to, an oblivious array for a map or an array with the same
  contents. Pseudo-random functions, random keys, masks and scores are arbitrary values, so every statement is for all of them.
* Errors the code raises are results: a cycle of the graph, a double write, a block that does not fit the address space, a length
  that is no power of two, a message stream that is too short, a key that does not match its signal.

What came out besides the proofs:

* `SparseDiGraph.remove_node` leaves the successors of the removed node in place. The merger never looks at them again, except
  in its topological sort, where they do no harm (`SparseDiGraphs.SparseDiGraph.RemoveNode`, `Merging.NeverCyclic`).
* The shortcuts of the depth search are keyed by instruction type, the rounds by merge id. Whenever one type has two ids and a third
  id is in play, the search can pass over a round that had room: a block of four independent instructions gets four rounds although
  the last of them fits into the second (`Merging.ShortcutPassesOpenRound`). A search finds the first round that can take the
  instruction if and only if no shortcut it follows jumps over such a round (`Merging.FirstFitExactly`); with one merge id per type
  none ever does (`Merging.SearchIsFirstFit`). The meaning of the program is kept in all cases.
* The register allocator takes programs that read a register before they write it, and may then give its physical registers
  away too early. In `StraightlineAllocation.RunReadBeforeWrite` two registers share one and a read sees the wrong value; in
  `StraightlineAllocation.RunSharedStart` no write does harm, but two registers needed at the start share one, so that they cannot
  hold different values. Every register that is needed keeps its run if and only if none is read after its run went back to the
  pool, which shows in the program (`AllocationTheory.NeededIsHeldExactly`). If so, the meaning is kept. If not, it may still be
  (`StraightlineAllocation.RunHarmlessRead`), and the program alone does not tell: it can depend on which spare run the pool takes
  (`StraightlineAllocation.RunTwoChoices`). With the registers it gave out, a program of instructions with meanings of their own keeps
  its meaning if and only if the registers needed at its start share nothing and no write touches another register still needed
  (`AllocationTheory.NoClobberExactly`).
* `BlockAllocator.push` joins a block only with the one after it. When the joined size leaves the address space, the call fails
  after the later block has been taken out of the index.
* `HeapQ._pop` for real on an empty heap files value 0 under slot 1; on a nonempty one, or not for real, the heap stays valid
  (`IndexedHeap.HeapQ.Pop`, an if and only if). Raising a priority with `update` can break the order
  (`IndexedHeap.RaisingBreaksOrder`); `IndexedHeap.HeapQ.Update` says exactly when it does, from the new priority and those of the
  children and the left child's children.
* The signal bit of a key is its index exactly on the wires into which an even number of public constants 1 goes
  (`GarbledCircuits.SignalledWires`). Evaluation does not rely on it elsewhere.
* `TruncRing` is exact unless k = m and the number is negative (`RingArithmetic.TruncRing`, an if and only if;
  `RingArithmetic.TruncMinusOne` for -1).
* In the commitment for a dishonest majority, an honest client fails exactly when alpha0 times the weighted number of shares that
  wrap around 2^(K+S) is not 0 modulo 2^S; which ones wrap shows in the inputs and the shares of server 0
  (`InputCommitments.RunDishonest`). With the shipped shares 0 of server 0 no commitment fails (`InputCommitments.RunShipped`); with
  other shares one does for every alpha0 but 0 (`InputCommitments.RunWrapping`).

`dafny verify dfyconfig.toml` checks the project.

## Model

| member | source | states |
|---|---|---|
| `Graph.TopologicalSort` | Compiler/graph.py:105-154 | For every graph and list of roots: an error exactly when a cycle can be reached from the roots, with a node that lies on one; otherwise exactly the reachable nodes, each once, with every edge going forward. The loop ends. |
| `Graph.PathGoesForward` | Compiler/graph.py:105-154 | Along any path positions in a topological order only grow, so no listed node is on a cycle. |
| `Graph.Explore` | Compiler/graph.py:131-151 | The search from one root keeps the invariant of the explicit stack (which may hold a node twice): batches of waiting nodes over one path of seen, unexplored nodes. |
| `SparseDiGraphs.SparseDiGraph.AddEdge` | Compiler/graph.py:78-82 | Adds exactly one edge and keeps successors and predecessors inverse to each other. |
| `SparseDiGraphs.SparseDiGraph.RemoveEdge` | Compiler/graph.py:92-95 | Takes away exactly one edge and keeps successors and predecessors inverse to each other. |
| `SparseDiGraphs.SparseDiGraph.RemoveNode` | Compiler/graph.py:64-76 | No remaining node leads to the removed one; its own successor list is left as it was. |
| `BlockSemantics.Reorder` | Compiler/allocator.py:411-412 | Two orders of the same instructions that agree on conflicting pairs compute the same registers, for every meaning of the instructions. |
| `BlockSemantics.MergedIsSequential` | Compiler/allocator.py:364-368 | Instructions that do not interfere may become one that reads everything before it writes anything. |
| `DependencyTheory.CoversNext` | Compiler/allocator.py:460-479 | Edges from the last writers and readers of every name are enough: any two conflicting instructions, of any distance, are joined by a path. |
| `DependencyTheory.LayeredInto` | Compiler/allocator.py:460-466 | Depths never fall along an edge and rise strictly on the way into an instruction to be merged. |
| `DependencyTheory.ContractionKeepsConflicts` | Compiler/allocator.py:350-412 | Every topological order of the contracted graph runs conflicting instructions in text order, and instructions merged into one do not conflict. |
| `Merging.SearchIsFirstFit` | Compiler/allocator.py:658-668 | With one merge id per type, the search with shortcuts ends and finds the first round that can take the instruction. |
| `Merging.FirstFitExactly` | Compiler/allocator.py:660-666 | For all tables: the search finds the first round that can take the instruction if and only if no shortcut it follows jumps over one. |
| `Merging.ShortcutPassesOpenRound` | Compiler/allocator.py:651-673 | For all types and any three different ids, two of them of one type: run on a block of four independent instructions, the steps of the graph give them rounds 1 to 4 although the last could have joined the second. |
| `Merging.Merger.constructor` | Compiler/allocator.py:337-348 | Starts with an empty graph over the block and nothing placed. |
| `Merging.Merger.Connect` | Compiler/allocator.py:558-578 | The edges into an instruction come from exactly a set of earlier ones that holds all last writers of what it names and all readers of what it writes, and only ones it conflicts with; the instruction is as deep as the deepest of them. |
| `Merging.Merger.FindDepth` | Compiler/allocator.py:656-668 | The loop computes the depth search over the two tables, sets a shortcut at exactly the rounds visited, and keeps the shortcuts strictly downward and sound. |
| `Merging.UnavailableIsClosed` | Compiler/allocator.py:658-673 | What the tables say of a round is what the block and the depths say: it is given away if and only if an instruction of another id is in it, or those in it open as much as is allowed. |
| `Merging.Merger.Place` | Compiler/allocator.py:651-673 | The instruction moves strictly below its predecessors, to a round in which the tables have its own merge id or none, and room left; the tables afterwards count it in. |
| `Merging.Merger.DependencyGraph` | Compiler/allocator.py:418-713 | For every block: conflicts are covered by paths and every edge joins two conflicting instructions; depths are layered, and what is not merged is no deeper than what it depends on. Counted on the block and the depths alone, every instruction to be merged is in a round of its id in which those before it open less than the limit; with one id per type, every round below its predecessors that it passes over has another id or is full. |
| `Merging.RoundsAreLimited` | Compiler/allocator.py:658-673 | Two instructions to be merged in one round have one id, and if there is a limit the widths of those in the round before the second add up to less than it. |
| `DependencyTheory.NoPathWithinDepth` | Compiler/allocator.py:388-404 | Before and after any contractions, a path between two instructions to be merged leads to a strictly greater depth, so equal depths have no path between them. |
| `Merging.Merger.MergeNodes` | Compiler/allocator.py:715-725 | The graph afterwards is the contraction: the kept node has the edges of both, all other edges stay. |
| `Merging.Merger.MergeDepths` | Compiler/allocator.py:396-405 | Afterwards exactly the instructions to be merged that share a depth share a representative. |
| `Merging.NeverCyclic` | Compiler/allocator.py:388-411 | No sequence of these contractions makes a cycle. |
| `Merging.Merger.SortBlock` | Compiler/allocator.py:411-412 | The sort of the contracted graph never fails and the emptied places drop out. |
| `Merging.Merger.LongestPathsMerge` | Compiler/allocator.py:372-416 | One merged instruction per depth, as many rounds as depths, and from every state the new list computes the registers of the old one. |
| `Merging.MergeBlock` | Compiler/program.py:1071-1082 | For every block that interacts through registers (names may share a location), building the graph, merging and reordering keep its meaning. The new list has one instruction for every depth of those to be merged, and the depths are those of a graph whose edges join conflicting instructions, with rounds of one id within the limit and, with one id per type, none passed over that had room. |
| `RegisterPools.AllocRange.Alloc` | Compiler/allocator.py:71-80 | A run handed out is disjoint from all others: live and pooled runs tile [base, top). It is a spare one if there is one of that size, otherwise it starts at the old top; no room exactly when there is neither a spare one nor space below the limit of a range that may not grow; too large exactly when the new run would start at REG_MAX or above. |
| `RegisterPools.AllocRange.Free` | Compiler/allocator.py:82-84 | What was handed out lies in [base, top), so the assertion holds, and goes back to the pool. |
| `RegisterPools.AllocRange.Consolidate` | Compiler/allocator.py:89-104 | Gives back exactly free runs at the top; afterwards none ends there, and the tiling stands. |
| `RegisterPools.AllocPool.Alloc` | Compiler/allocator.py:112-117 | The new run is live and was not; it comes from the first range of its type that has room, and every live run is known to the range it came from. While no range was closed, a spare run of that size is taken if there is one. |
| `RegisterPools.AllocPool.Free` | Compiler/allocator.py:119-122 | The run goes back to its own range, where it is spare, and nothing else changes. |
| `RegisterPools.AllocPool.LiveApart` | Compiler/allocator.py:106-143 | Two runs of one type live at the same time share no register, across all ranges. |
| `RegisterPools.AllocPool.NewRange` | Compiler/allocator.py:132-138 | If the last range ends below n it is closed and one is opened at n, otherwise nothing changes; every live run is kept. |
| `RegisterPools.AllocPool.Consolidate` | Compiler/allocator.py:140-143 | Keeps every live run; afterwards no spare run of any range ends at its top. |
| `AllocationTheory.AllocationPreservesMeaning` | Compiler/allocator.py:151-261 | If no write touches another register still needed, the program on physical registers reads the same values at every use and ends with the same wanted values. |
| `AllocationTheory.NoClobberExactly` | Compiler/allocator.py:151-261 | The criterion is exact: where no two instructions are known to compute the same, every virtual start has a physical one and every run keeps its meaning if and only if the registers needed at the start are pairwise disjoint and no write touches another register still needed. |
| `AllocationTheory.LoadableExactly` | Compiler/allocator.py:164-175 | Physical registers can hold any values of a set of virtual ones at the same time if and only if these share no physical register. |
| `AllocationTheory.NeededIsHeldExactly` | Compiler/allocator.py:207-213 | Every register needed at the start holds its run at the end of the pass if and only if no register is read after its run went back, a condition on the program alone. |
| `AllocationTheory.TwoWrites` | Compiler/allocator.py:226-232 | Two instructions that write one register, whatever reads it in between, are no single assignment, so no pass over the program ends. |
| `StraightlineAllocation.StraightlineAllocator.HeldAreDisjoint` | Compiler/allocator.py:164-175 | Registers held at the same time never share a physical register. |
| `StraightlineAllocation.StraightlineAllocator.AllocReg` | Compiler/allocator.py:164-175 | A register gets a run once; runs given before stay as they are. The number of runs of a type and size grows only when all of them are held. |
| `StraightlineAllocation.StraightlineAllocator.DeallocReg` | Compiler/allocator.py:182-220 | Succeeds exactly for a register not written further on, and frees its run unless it is pinned or a call argument. |
| `StraightlineAllocation.StraightlineAllocator.ProcessOne` | Compiler/allocator.py:224-248 | One turn of the backward loop, for every program: gives runs to exactly the registers the instruction names first, frees exactly the runs of its outputs, and keeps writes from here on apart from what is needed if no register is read after it was freed; a double write is reported only for one. |
| `StraightlineAllocation.StraightlineAllocator.Process` | Compiler/allocator.py:222-254 | For every program: if the pass ends, the program writes every register once. If no register is read after its run went back, the physical run reads and ends with the values of the virtual one. A double write is reported only for a program that has one. In a pool that serves this pass alone, as many runs of each type and size are in use as registers hold one at a time at most. At the end no spare run of any range ends at its top. |
| `StraightlineAllocation.Allocate` | Compiler/allocator.py:154-261 | A pass with a pool of its own: unless registers run out, it ends if and only if every register is written once, and then the number of runs of each type and size is exactly the most that are held at a time. |
| `StraightlineAllocation.RunWriteReadWrite` | Compiler/allocator.py:226-232 | A run on write, read, write of one register ends with the double-write error. |
| `StraightlineAllocation.RunReadBeforeWrite` | Compiler/allocator.py:164-213 | A run on a program with single writes that reads a register before its write: it ends, two registers share one physical register, and the meaning is lost. |
| `StraightlineAllocation.RunSharedStart` | Compiler/allocator.py:164-213 | A run without a clobbering write that still loses the meaning: two registers needed at the start get one physical register. |
| `StraightlineAllocation.RunHarmlessRead` | Compiler/allocator.py:164-213 | A run that reads a register after its run went back and keeps its meaning all the same, so the condition on the program is sufficient, not necessary. |
| `StraightlineAllocation.ChoiceDecides` | Compiler/allocator.py:164-213 | For one program, every assignment with two runs for its last outputs keeps the meaning if and only if the remaining register does not get the first of them. |
| `StraightlineAllocation.RunTwoChoices` | Compiler/allocator.py:71-73 | In a run on this program the pool comes to a point where it may answer with either run, and one answer keeps the meaning and the other does not: no condition on the program alone tells. |
| `StraightlineAllocation.FinishTwoChoices` | Compiler/allocator.py:224-248 | From there the pass goes through with any answer and gives no run to another register. |
| `MemoryBlocks.BlockAllocator.Push` | Compiler/allocator.py:26-33 | On success the one new entry of the index is the block, joined with the one that starts at its end, which is gone from the index; so the free cells grow by exactly the block, and the two indices agree on disjoint blocks. Fails exactly when the joined size reaches the size of the address space, and then the later block is lost. |
| `MemoryBlocks.BlockAllocator.Pop` | Compiler/allocator.py:35-61 | None exactly when no free block is that large; otherwise a block of the exact size is used if there is one, else one of the logarithm class of the request, else a least one; its start is taken and its rest filed as one block, so that all cells returned were free and exactly they are taken. |
| `MemoryBlocks.BlockAllocator.ChooseSize` | Compiler/allocator.py:36-53 | Finds a size that is filed and large enough if there is one: the exact size if it is there, else one of the logarithm class of the request, else the least of all that are large enough. |
| `MemoryBlocks.BlockAllocator.Carve` | Compiler/allocator.py:54-61 | Takes the block out of the index and files what is left behind its start as one block, if anything is. |
| `GarbledGates.Register.Randomize` | BMR/Register.cpp:692-700 | The first keys are those drawn, with signal bit 0 and all other bits as drawn, and the second keys are the first ones plus the deltas. |
| `GarbledGates.ComputePrfsOutputs` | BMR/GarbledGate.cpp:38-59 | Every entry of the tuples is the PRF under the key of its wire, value and party, of the block of its extension, gate and receiver. |
| `GarbledGates.UnmaskIsPrfSum` | BMR/GarbledGate.h:12-21 | Evaluation with keys of signals a, b removes exactly what garbling added to entry 2a + b, for every number of parties. |
| `GarbledGates.Register.Garble` | BMR/Register.cpp:307-429 | Entry k for party j is the sum of all parties' values plus the output key that the truth table on the unmasked inputs asks for; every party's messages advance by n tuples. |
| `GarbledGates.Register.Eval` | BMR/Register.cpp:221-287 | Takes the entry of the input signals, removes the PRF values under the held keys, and reads the signal of the own key. |
| `GarbledGates.GateIsCorrect` | BMR/Register.cpp:221-429 | Evaluating the garbled table gives external = value xor mask and the key of that external value, for every function, PRF, key and mask. |
| `GarbledCircuits.KeysDifferByDelta` | BMR/Register.cpp:692-792 | On every wire of every circuit the two keys differ by the party's delta. |
| `GarbledCircuits.SignalledWires` | BMR/Register.cpp:36-53 | On every wire of every circuit the signals of the keys are their indices if and only if an even number of public ones goes into it (or there is no party). |
| `GarbledCircuits.XorCarries` | BMR/Register.cpp:787-829 | The sum of the keys held on two wires is the key for the exclusive or of their values. |
| `GarbledCircuits.RandomPhase` | BMR/Register.cpp:692-773 | The dealer's loop sends every party exactly its keys and masks, in circuit order. |
| `GarbledCircuits.PRFPhase` | BMR/Register.cpp:437-491 | A party reads the keys in the order in which they were sent and sends the tuples of all gates in order. |
| `GarbledCircuits.GarblePhase` | BMR/Register.cpp:298-305 | The dealer reads wires and tuples in order and sends the tables of all gates in order. |
| `GarbledCircuits.EvalInput` | BMR/Register.cpp:600-667 | After both broadcasts the evaluator holds external = value xor mask and the keys for it. |
| `GarbledCircuits.EvalOutput` | BMR/Register.cpp:775-785 | The signal check never throws and mask xor external is the plain value. |
| `GarbledCircuits.EvalPhase` | BMR/Register.cpp:205-219 | Every wire keeps external = value xor mask and entry = keys[external]; all outputs are the plain values. |
| `GarbledCircuits.Run` | BMR/Register.cpp:205-829 | All four phases: for every circuit, number of parties, PRF, keys, deltas, masks and inputs, the outputs are those of the circuit in the clear, and no check throws. |
| `Queues.SentIsReceived` | BMR/Party.cpp:333-350 | What one phase has sent at its end is what the next one takes from its start. |
| `RealGarbling.GarbleWire` | BMR/RealGarbleWire.hpp:10-31 | Per gate, every party queues its key and its 4n PRF values in this order, and one product of masks is asked for. |
| `RealGarbling.EntryInField` | BMR/RealGarbleWire.hpp:55-63 | The field expression of the shared masks is the bit that selects the output key of the dealer's entry. |
| `RealGarbling.MiddleRound` | BMR/RealGarbleWire.hpp:39-64 | Takes one product and asks for the 4n products of the deltas with the bits of the dealer's table. |
| `RealGarbling.LastRound` | BMR/RealGarbleWire.hpp:66-87 | Takes exactly what its gate queued, leaves the rest, and the rows are those of the dealer's table. |
| `RealGarbling.GarbleAll` | BMR/RealProgramParty.hpp:165-209 | For every sequence of gates the opened rows are the dealer's tables in order: all queues are read in the order in which they were filled. |
| `StableMatching.SingleHasChoices` | Compiler/gs.py:220-231 | A single man never runs past his list. |
| `StableMatching.ProposalKeepsInv` | Compiler/gs.py:173-191 | Wives and husbands stay inverse, every single man is on the stack once, women never do worse, and one man moves one place down his list. |
| `StableMatching.RejectedIsNotPartner` | Compiler/gs.py:173-191 | With strict ranks, whoever a woman turns down for another is not her husband in any stable matching (if the other has not been turned down by his). |
| `StableMatching.ProposalKeepsNotMissed` | Compiler/gs.py:173-191 | No proposal makes a man miss his wife in a stable matching. |
| `StableMatching.OStack.Append` | Compiler/gs.py:81-83 | The stack grows by the item when for real and is unchanged otherwise. |
| `StableMatching.OStack.Pop` | Compiler/gs.py:84-86 | Returns and removes the last item. |
| `StableMatching.Matchmaker.Propose` | Compiler/gs.py:173-191 | The three conditional updates together are one answer of the woman: she keeps the man she ranks lower, the other is single. |
| `StableMatching.Matchmaker.Match` | Compiler/gs.py:194-235 | Ends after at most n * n proposals in a perfect matching without blocking pairs; with strict ranks no man does better in any stable matching. |
| `IndexedHeap.RootIsSmallest` | Compiler/dijkstra.py:124-128 | In an ordered heap the root has the least priority. |
| `IndexedHeap.HeapQ.BubbleUp` | Compiler/dijkstra.py:104-122 | Moves the entries on the way from the leftmost bottom descendant to the root; index and contents stay, and with one entry too small order is restored and nothing after the entry changes. |
| `IndexedHeap.HeapQ.SiftDown` | Compiler/dijkstra.py:135-154 | The heap afterwards is that of the walk down towards the smaller child, the left one of two equal ones; from a heap with a root too large this restores order, index and contents. |
| `IndexedHeap.HeapQ.Update` | Compiler/dijkstra.py:158-168 | For every call: the index stays the exact inverse and contents gain or change exactly this value. The heap is valid afterwards if and only if it was not for real, the value is new, or its new priority is at most those of its children, or it is greater than that of the left child, which is at most that of the right one and whose own children have at least the new priority. |
| `IndexedHeap.HeapQ.Pop` | Compiler/dijkstra.py:124-156 | Returns the value at the root, which has the least priority, and removes exactly it; the heap afterwards is that of the walk down from the last entry. It stays valid exactly when it was not a pop for real on an empty heap. |
| `IndexedHeap.RaisedOrder` | Compiler/dijkstra.py:104-122 | For every ordered heap and priority above that of a child: the one comparison of the walk that counts leaves the heap ordered exactly under that condition. |
| `IndexedHeap.RaisingBreaksOrder` | Compiler/dijkstra.py:158-168 | A run of four updates after which the heap is out of order, with index and contents intact. |
| `OramDepths.CompBinaryCompares` | Compiler/circuit_oram.py:64-80 | For all numbers of equal length: (1, 0) exactly for greater, (0, 1) exactly for smaller. |
| `OramDepths.DeeperWins` | Compiler/circuit_oram.py:18-37 | The winner is a block if there is one and no block agrees with the path further; the level list marks how far. |
| `OramDepths.DeepestWins` | Compiler/circuit_oram.py:39-46 | So for any number of candidates. |
| `OramDepths.DeepestLevel` | Compiler/circuit_oram.py:39-46 | The level returned is that of the winner. |
| `CircuitOram.SameIndexSamePrefix` | Compiler/circuit_oram.py:132-134 | Two paths meet in a bucket of a level exactly when they begin with the same bits. |
| `CircuitOram.PrepareDeepest` | Compiler/circuit_oram.py:145-176 | deepest[i] names, of all blocks above level i that may go to level i, one that goes furthest down, from the topmost level that has such a one, and is empty only if there is none. |
| `CircuitOram.PlanTargets` | Compiler/circuit_oram.py:177-197 | A move ends at a level if and only if a block above may go there, a slot is free or becomes free, and no other move goes past; then it is the deepest block that moves. Planned moves do not cross each other. |
| `CircuitOram.SomethingMoves` | Compiler/circuit_oram.py:177-197 | Whenever a level has a free slot and some block above may stay there, some planned move ends at the level or goes past it. |
| `CircuitOram.CircuitORAM.EvictOnceFast` | Compiler/circuit_oram.py:207-227 | Exactly the blocks that leave by the plan are taken out, and what is to be written to a level is the block planned for it, if any. Nothing is in hold at the end; what is taken out plus what is left is what was there, level by level. |
| `CircuitOram.Landings` | Compiler/circuit_oram.py:207-231 | Every block that is written may stay at its level and finds a free slot; nothing is written to the stash. |
| `CircuitOram.AddTo` | Compiler/oram.py:759-765 | The block goes to an empty slot and no other slot changes its block. |
| `CircuitOram.CircuitORAM.EvictOnce` | Compiler/circuit_oram.py:145-231 | The planned moves are made: from every level the block planned to leave is gone and the one planned to come is there. Above every level at most one block is lost, one that may stay at that level; exactly one if the level had a free slot and some block above may stay there. No block is lost or doubled in all, every block stays on the way to its leaf, other buckets are untouched; holds again for the next run. |
| `SortingNetworks.StepSorts` | Compiler/library.py:727-730 | When the sorted even places and the sorted odd places stay within two of each other below any bound, comparing neighbours sorts the whole. |
| `SortingNetworks.MergeIsCorrect` | Compiler/library.py:719-730 | Merging even and odd places of two sorted halves and comparing neighbours sorts and permutes. |
| `SortingNetworks.OddEvenMerge` | Compiler/library.py:719-730 | In place on arrays of power-of-two length with sorted halves: sorted, and a permutation. |
| `SortingNetworks.OddEvenMergeSort` | Compiler/library.py:732-746 | Succeeds exactly for power-of-two lengths, then sorts and permutes; otherwise nothing changes. |
| `FlatSorting.StepKeepsChains` | Compiler/library.py:777-807 | One step of a stage makes sorted chains twice as long sorted again, each a permutation of its places at the start of the stage. |
| `FlatSorting.Step` | Compiler/library.py:777-809 | The loops with comparisons past the end ignored do to the array what all comparisons do to the array padded with plus infinity. |
| `FlatSorting.Stage` | Compiler/library.py:768-809 | A stage merges runs of half its length, for every array length. |
| `FlatSorting.LoopyOddEvenMergeSort` | Compiler/library.py:761-811 | Sorts and permutes arrays of any length from sorted runs of any power of two. |
| `GroupVectors.GroupSumIsTotal` | Compiler/decision_tree.py:102-110 | Suffix sums, stable permutation and two differencings give every row the sum of its group. |
| `GroupVectors.GroupPrefixSumIsSum` | Compiler/decision_tree.py:112-119 | Every row gets the sum of its group up to itself. |
| `GroupVectors.GroupFirstOneIsFirst` | Compiler/decision_tree.py:227-230 | Exactly the first 1 of every group is marked. |
| `GroupVectors.WindowsGrow` | Compiler/decision_tree.py:134-146 | One doubling makes every row hold the last greatest key of its group within twice the window, and the values of that row. |
| `GroupVectors.GroupMax` | Compiler/decision_tree.py:121-158 | Every row gets the greatest key of its group, and the values of the last row that has it. |
| `GroupVectors.OrderOfDest` | Compiler/decision_tree.py:48-61 | Applying and unapplying the permutation are inverse: each row has one place and comes from it. |
| `NodeGroups.SameNode` | Compiler/decision_tree.py:375-399 | Two rows have one node id exactly when they are in one group. |
| `NodeGroups.NewMarksAreFirst` | Compiler/decision_tree.py:392-396 | The two sums of first ones mark exactly the first row of every child node. |
| `NodeGroups.LayerKeepsMarks` | Compiler/decision_tree.py:392-399 | After splitting and stable sorting the rows of a node are adjacent, marks are on first rows, ids lie in 1 to 2^(k+1). |
| `NodeGroups.GroupsFit` | Compiler/decision_tree.py:204-209 | At depth k there are at most 2^k groups, so cropping loses none. |
| `DecisionTrees.GroupSameIsPure` | Compiler/decision_tree.py:217-225 | The comparison of sums finds exactly the groups with one label. |
| `DecisionTrees.VectMax` | Compiler/decision_tree.py:87-100 | The tree reduction gives every row the number of the last attribute with the greatest score, and its threshold. |
| `PrefixNetworks.TreeIsFold` | Compiler/util.py:118-132 | For every associative operator and nonempty list, the tree reduction gives what combining from the left gives. |
| `DecisionTrees.TreeIsLastMax` | Compiler/decision_tree.py:87-100 | The choice of the better candidate is associative, so its tree reduction over the attributes picks the last greatest score. |
| `DecisionTrees.TestAt` | Compiler/decision_tree.py:247-262 | The oblivious selection of the attribute makes the test of a row compare its value of the chosen attribute. |
| `DecisionTrees.GlobalTestSelection` | Compiler/decision_tree.py:301-353 | For any scores, all rows of a group get the attribute and the threshold of the best score in the group over all attributes. |
| `DecisionTrees.ChooseTests` | Compiler/decision_tree.py:359-365 | Groups with one label get attribute 0 and the threshold MIN_VALUE instead. |
| `DecisionTrees.PickStart` | Compiler/decision_tree.py:484-509 | Looking a node up in the cropped layer, with equality on k bits only, gives what the first row of the node had; padding never counts. |
| `DecisionTrees.RowSteps` | Compiler/decision_tree.py:503-516 | Evaluation sends a training row to the child to which training moved it. |
| `DecisionTrees.LayerKeepsTrained` | Compiler/decision_tree.py:355-399 | After every layer evaluation of the layers so far takes every training row to its own node id. |
| `DecisionTrees.SortedRows` | Compiler/decision_tree.py:397-399 | Sorting labels and attributes by the test permutes the training examples. |
| `DecisionTrees.TotalCounts` | Compiler/decision_tree.py:211-215 | The sums of labels over a group count the training examples that reach its node. |
| `DecisionTrees.RunDecisionTree` | Compiler/decision_tree.py:493-518 | The loop computes the walk from node 1 and picks the label of the node reached. |
| `DecisionTrees.TreeTrainer.TrainLayer` | Compiler/decision_tree.py:375-399 | The whole new state of a layer, and its entry in the tree: the tests of the best scores in each group are filed and split the groups; examples permuted, groups again exactly the nodes, layers so far kept. |
| `DecisionTrees.TreeTrainer.GroupsOfLayer` | Compiler/decision_tree.py:375-399 | At most 2^k groups after k layers. |
| `DecisionTrees.TreeTrainer.GetTree` | Compiler/decision_tree.py:462-468 | The leaves are the majority labels of the groups, and the tree predicts for every training row the majority label of its node. |
| `DecisionTrees.TreeTrainer.Train` | Compiler/decision_tree.py:432-438 | For every data set, height and scores: the states of the training follow each other by the step of a layer, and layer k of the tree holds the tests made from state k with the k-th scores and thresholds. Every original example is predicted as the majority label of the original examples that reach its node (0 in a draw). |
| `DecisionTrees.TrainAndRun` | Compiler/decision_tree.py:470-518 | Training from one group of all rows, layer by layer as above, and then running the tree on any training row answers so. |
| `PrefixNetworks.PreOpN` | Compiler/floatingpoint.py:212-219 | All prefixes combined from the left, for any operator. |
| `PrefixNetworks.PreOpL2` | Compiler/floatingpoint.py:158-175 | The recursive halving computes the same prefixes for every associative operator and length. |
| `PrefixNetworks.PreOpL` | Compiler/floatingpoint.py:140-156 | So does the in-place network of logarithmic depth, even when the operator leaves out parts that no later step needs. |
| `CarryLogic.CarryAssociative` | Compiler/floatingpoint.py:84-93 | The carry operator is associative. |
| `CarryLogic.AdditionByBits` | Compiler/floatingpoint.py:276-297 | Sum bits and carry make up the sum of the numbers. |
| `CarryLogic.PrefixIsCarry` | Compiler/floatingpoint.py:282-288 | The generate part of a prefix is the carry, whatever the lowest propagate bit is. |
| `CarryLogic.BitAdd` | Compiler/floatingpoint.py:276-297 | The k + 1 results are bits and the number they make is a + b, though the lowest propagate bit is never set. |
| `CarryLogic.TreeKeepsCarry` | Compiler/comparison.py:415-427 | One level of the tree keeps the overall generate bit, odd lengths and missing lowest propagate bit included. |
| `CarryLogic.CarryOutAux` | Compiler/comparison.py:415-427 | The tree computes the overall generate bit for every length and never reads a bit that is missing. |
| `CarryLogic.CarryOutRaw` | Compiler/comparison.py:441-457 | The carry of a + b + c for every length. |
| `CarryLogic.BitLTLRaw` | Compiler/comparison.py:482-484 | 1 exactly when the number of the first bits is less than that of the second. |
| `RingArithmetic.Mod2mRing` | Compiler/comparison.py:228-240 | The remainder modulo 2^m, for every ring size and mask. |
| `RingArithmetic.MaskedHighBits` | Compiler/comparison.py:195-198 | What is opened is the high part of x plus the mask, modulo its width. |
| `RingArithmetic.TruncLeakyInRing` | Compiler/comparison.py:178-204 | floor(x / 2^m) for signed and unsigned x of k bits and every mask, 0 for k = m. |
| `RingArithmetic.TruncRing` | Compiler/comparison.py:129-167 | floor(x / 2^m) exactly when m < k or x is not negative. |
| `RingArithmetic.TruncMinusOne` | Compiler/comparison.py:129-167 | Shifting -1 by all its bits does not give -1, whatever the mask. |
| `RingArithmetic.LtzRing` | Compiler/comparison.py:96-106 | 1 exactly for negative x, for k >= 2 and every mask. |
| `RingArithmetic.GenericLtz` | Compiler/non_linear.py:48-49 | The negated truncation by k - 1 bits is the same bit. |
| `VectorOle.VoleSend` | Alpha/alpha-pre.h:102-133 | The messages are the rows of x plus both random rows modulo the ring, in batches of any size, and the output is the sum of the shifted first rows in the ring. |
| `VectorOle.VoleReceive` | Alpha/alpha-pre.h:135-176 | For every stream: accepted if and only if its batches carry rows of which those under a set bit have the right length; then the output is the sum of the seeds' rows with exactly these corrections. |
| `VectorOle.SameCarried` | Alpha/alpha-pre.h:115-171 | Two lists of rows that one stream carries are the same: the sender's messages are read as they were sent. |
| `VectorOle.WeightedDifference` | Alpha/alpha-pre.h:149-171 | The two sums differ by alpha times x. |
| `VectorOle.Vole` | Alpha/alpha-pre.h:102-176 | For every x, alpha, randomness and batch size at least 1: receiver minus sender is alpha times x modulo 2^(K+2S). |
| `InputCommitments.UnpackShares` | Alpha/alpha-server.cpp:27-38 | Server 1 gets back exactly the shares that were packed; fails exactly on a stream that is too short. |
| `InputCommitments.CommitHonest` | Alpha/alpha-client.cpp:10-56 | The shares add up to the inputs modulo 2^(K+S), and those of the products to alpha times the sum of the shares, all reduced modulo 2^(K+2S). |
| `InputCommitments.CommitDishonest` | Alpha/alpha-client.cpp:58-94 | Server 1's shares are the inputs minus those of server 0 in the ring, and the outputs of server 0 and client differ by alpha0 times the inputs. |
| `InputCommitments.OleShare` | Alpha/alpha-server.cpp:106-122 | Product shares made from both evaluations are off by alpha0 times what the input shares wrap. |
| `InputCommitments.ErrorsAddUp` | Alpha/alpha-server.cpp:124-135 | Errors of the shares show in the random combination with the same factors. |
| `InputCommitments.Combine` | Alpha/alpha-server.cpp:124-135 | The loops add up shares and product shares with the random factors, in the ring. |
| `InputCommitments.ConsistencyCheckAll` | Alpha/alpha-server.cpp:179-215 | Both servers find the same commitments failed, exactly those whose error is not 0 in the ring. |
| `InputCommitments.RunHonest` | Alpha/alpha-client.cpp:10-56 | Mode 0: for all inputs, shares and factors no commitment fails; at the end of the run the servers share the inputs, the mask and, without error, their products with alpha. |
| `InputCommitments.RunDishonest` | Alpha/alpha-server.cpp:54-136 | Mode 1: a commitment fails exactly when alpha0 times the combined wraps, a number made of the inputs, the shares of server 0 and the factors, is not 0 modulo 2^S; in any case the servers share the inputs and the mask, and the product shares of each are off by alpha0 times 2^(K+S) for every wrap. |
| `InputCommitments.NoWraps` | Alpha/alpha-pre.h:39-49 | If no share of server 0 is greater than its input, the combined wraps are 0. |
| `InputCommitments.RunShipped` | Alpha/alpha-pre.h:39-49 | With shares 0 for server 0 no commitment fails and the products are shared without error, for all inputs and factors. |
| `InputCommitments.FakeIsCorrelated` | Alpha/alpha-pre.h:63-76 | The outputs 0 of the simulated evaluation between the servers are right for shares 0. |
| `InputCommitments.RunWrapping` | Alpha/alpha-server.cpp:106-122 | An honest client with input 0, shared as 1 and 2^(K+S) - 1, fails at both servers for every alpha0 but 0. |

## Left out

- Memory, input and output ordering in the merger (`mem_access`, `keep_order`, `keep_merged_order`): blocks interact through registers only. Two writes to one address without a read in between get no edge in the code, and vectors of more than 100 cells are cut.
- Merging.SearchIsFirstFit: for a block as a whole only this direction is known (one merge id per type, and no instruction waits past a round that could have taken it). That three ids, two of one type, can make one wait is proved for a block of four; the exact condition is proved per search, not per block.
- Dead-code elimination, `RegintOptimizer`, statistics (`real_depths`, `req_num`, counters), node attributes and edge weights beyond their presence; the `pref` argument of the topological sort.
- StraightlineAllocation.StraightlineAllocator.Process: registers without duplicates, scalar or as whole vectors; parent pools (conditional blocks), usage statistics and the warnings of `finalize` are not modelled. A register number beyond REG_MAX ends the pass. Where a register is read after its run went back, the condition for the meaning is one on the registers given out: none on the program alone is exact (`RunTwoChoices`), as the pool may take any spare run of the size (the pop of a set). The number of runs in use is stated for a pool that no other block used before.
- MemoryBlocks.BlockAllocator.Pop: the choice among several block sizes of the logarithm class of the request is arbitrary, as the order of a dictionary; the float logarithm is taken to be exact.
- Networking, threads, files, AES, oblivious transfer, MACs, and all questions of secrecy or soundness; the multi-threaded evaluation of AND gates, which takes the same gates in the same order per thread.
- GarbledGates.Register.Eval: a destination that is also an input of the gate is not modelled.
- Wires stored for SPDZ or memory between circuits; the shift in the constructor of `Function`: gates are an arbitrary table of four bits.
- RealGarbling.GarbleAll: secret-shared values stand for the field element they open to; multiplication in the field of 2^128 elements is any product with the right zero and one.
- Matching with fewer women than men (`M < N`), incomplete preference lists, `n_loops`, the reading of the preference lists.
- Heaps that are used further after they lost their order by raising a priority, or their index by a pop for real on an empty heap: when this happens is stated exactly (`HeapQ.Update`, `HeapQ.Pop`).
- CircuitOram.CircuitORAM.EvictOnce: one path; an access evicts along two, one after the other. Index structure, recursion and reading are not modelled; `PreOp` is its sequential form, as the tree form would check only the last bucket for emptiness. Arithmetic on bits is that of a field of characteristic two.
- SortingNetworks.OddEvenMergeSort: the empty list, on which the code calls itself without end.
- The conditional swap of floating-point values and of multi-column rows; sorting by several keys.
- DecisionTrees.TreeTrainer.Train: the scores and thresholds of candidate tests are arbitrary (Gini index, sorting of attributes within groups and thresholds between neighbours are not modelled), `max_leaves` is unset, integers do not overflow.
- The split (`-Z`), field and constant-round variants of the comparisons, `linear_rounds` of `CarryOutRaw` (it ignores the carry-in), `PreOpL2_vec`, the choice of sum bits in `BitAdd`, probabilistic truncation.
- Division, square root, trigonometric functions and machine learning: approximations tied to numeric coefficients. Path ORAM, and instruction declarations.
- InputCommitments.RunDishonest: the evaluation between the servers is any correct one (in the code it is simulated by zeros); `consistency_check_one` and mode 2 are not modelled.
- The in-place update of vectors through references in the commitment code: vectors are values that methods return.
