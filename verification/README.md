# Placement, transport and bookkeeping of an MPI library, verified

A Dafny model of the parts of an MPI implementation that are hardest to get right, with
proofs of what they promise. `dafny verify dfyconfig.toml` checks the whole project.

**Process placement (TreeMatch).** Processes with an affinity matrix are put on the cores
of a machine described by the arity of each level of its tree.

- `SiblingRing`, `FiboForest`, `FiboMemory`, `PriorityQueue`, `QueueSpec`: the Fibonacci
  tree behind the priority queues, from the four pointer writes of a link up to a queue
  that refines a finite map. The forest invariant gives the Fibonacci bound on subtree
  sizes, and that gives the size of the consolidation table.
- `PartitionWeights`, `KPartition`, `GreedyStart`: the Kernighan-Lin style refinement of a
  partition, and its greedy start.
- `ConstraintRanks`, `GreedyPartition`, `ConstrainedTree`, `ProcessMapping`: placement
  when only some cores may be used, from core numbers to the final mapping.
- `GroupEnumeration`, `GroupSelection`, `GroupValues`, `FewGroups`, `BoundedSearch`,
  `PivotTree`, `BucketGrouping`, `PivotSampling`, `NodeGrouping`, `BottomUpTree`,
  `LeafWeights`, `TreePlacement`: placement when every core may be used, with the four ways
  to group a level, what the matrices of the upper levels mean, and the choice between the
  two constructions.
- `PairwiseExchange`: the MPIPP heuristic. `ArityOptimizer`: splitting machine levels.
- `Arithmetic`, `FiniteLists`, `Wrappers`: the few facts and types the others share.

**TCP transport.** `TcpFraming` cuts records into byte streams and rejoins them through a
read-ahead cache; sender, socket and receiver are classes, and every partial write and
read is a nondeterministic choice. `ConnectHandshake` is the protocol two processes run
when they may connect to each other at the same time, as a class whose methods are the
events. `InterfaceMatching` is the exhaustive pairing of network interfaces.

**Library bookkeeping.** `SeqTracker` (sequence numbers seen), `Attributes` (cached
attributes and their keys), `CommRequests` (schedules of nonblocking communicator
operations), `IndexedTypes` (indexed datatypes).

## How the code is modelled

- A C object whose functions update its fields is a class with those fields. A C array
  local to a function is a sequence-valued variable that is reassigned; pointers between
  tree nodes are maps from node to node, so that every pointer write is one map update.
- `double` is `real`. `DBL_MAX` as a starting value is "no value yet". 32-bit wrap-around
  is written out in `SeqTracker`, where it matters.
- Random numbers, clock time-outs, the order left by `qsort` where the comparison leaves
  it open, what user callbacks do, and how many bytes the kernel takes or gives are
  nondeterministic choices, so every statement holds for all of them.
- An `exit` or an error return is a `None` or a result code, and its condition is stated
  exactly; where the code cannot reach it, that is proved.

## What is not as the code promises

- Sequence number 2^32-1: inserting it with the cursor on a range that starts at 0, or
  inserting 0 with the cursor on a range that ends at it, loses numbers by wrap-around.
  `SeqTracker.Tracker.Insert` states the condition both ways; `SeqTracker.ForgetsZero`
  proves it of a concrete sequence of inserts.
- A level of arity one with more than 30000 nodes is sent to the branch that accepts only
  pairs, and the program exits. A level of arity two with 32768 nodes or more gets 16
  buckets or more, and the positions of their pivots run out of the sample.
  `NodeGrouping.GroupNodes`, `BottomUpTree.BuildLevelTopology` and
  `TreePlacement.PlaceProcesses` state both conditions both ways;
  `BottomUpTree.ArityOneTooLarge` and `BottomUpTree.ArityTwoTooLarge` are inputs.
- A record with an empty payload is delivered with the right header, but the descriptor
  keeps the segment of the fragment's previous use, which may have been a send, as both
  paths share the free lists. `TcpFraming.Channel.Exact` states that a record arrives as it
  was sent if and only if it has a payload or its fragment came with an empty segment, for
  every choice of the free list. `TcpFraming.ExactWhatever` and `TcpFraming.Spoiled` show
  that this holds whatever the free list hands out if and only if no record is empty.
  `TcpFraming.EmptyAfterFull` and `TcpFraming.EmptyOnStale` are inputs that fail, and
  `TcpFraming.EmptyArrives` is one where the empty record is right.
- With extent zero, `indexed` and `indexed_block` compare displacements in extents and leave
  runs apart that meet in memory, exactly when there is a gap between blocks; the type map
  is right all the same (`IndexedTypes.CreateIndexed`, `IndexedTypes.CreateIndexedBlock`;
  `IndexedTypes.GapAtExtentZero` is an input).
- The block queue of the partitioner is set to the moved vertex's own gain
  (k-partitioning.c:149), which may be below the best gain of its block, and an unbalanced
  partition looks at one block only. `KPartition.Partitioner.Search` states exactly when the
  loop stops with a gain left; `KPartition.StopsEarly` is an input.

## Model

| member | source | states |
|---|---|---|
| `SiblingRing.LinkAfterInserts` | mpi/3rd-party/treematch/fibo.h:107-114 | relinking after a node inserts exactly one node into a doubly linked ring, right behind it, and the ring stays a ring |
| `SiblingRing.LinkAfterFrame` | mpi/3rd-party/treematch/fibo.h:107-114 | linking into one ring leaves every disjoint ring as it was |
| `SiblingRing.UnlinkRemoves` | mpi/3rd-party/treematch/fibo.h:116-119 | unlinking removes exactly that node and closes the ring over it |
| `SiblingRing.UnlinkFrame` | mpi/3rd-party/treematch/fibo.h:116-119 | unlinking in one ring leaves every disjoint ring as it was |
| `FiboForest.SubtreeSize` | mpi/3rd-party/treematch/fibo.c:93-96 | in every valid forest a node of degree d heads a subtree of at least Fib(d+2) nodes |
| `FiboForest.DegreeFitsTable` | mpi/3rd-party/treematch/fibo.c:93-96 | with fewer than Fib(34) = 5702887 nodes every degree indexes the 32-cell consolidation table |
| `FiboForest.SiblingsDisjoint` | mpi/3rd-party/treematch/fibo.c:312-349 | subtrees of different children of a node share no node |
| `FiboForest.PlantValid` | mpi/3rd-party/treematch/fibo.h:121-126 | adding a single node keeps the forest invariant (each child lost at most one child since it was linked) |
| `FiboForest.GraftValid` | mpi/3rd-party/treematch/fibo.c:172-198 | linking a root under a root of equal degree keeps the forest invariant |
| `FiboForest.DropValid` | mpi/3rd-party/treematch/fibo.h:146-161 | taking a node out, its children becoming roots, keeps the invariant up to one debt of its parent |
| `FiboForest.SeverValid` | mpi/3rd-party/treematch/fibo.h:162-168 | cutting a marked node from its parent moves that debt one level up |
| `FiboForest.SetMarkValid` | mpi/3rd-party/treematch/fibo.h:158-163 | marking an unmarked node, or reaching a root, pays the debt |
| `FiboForest.RootAbove` | mpi/3rd-party/treematch/fibo.c:201-216 | in a heap-ordered forest every node is below some root, so the best root is the best node |
| `FiboMemory.AddNodeRep` | mpi/3rd-party/treematch/fibo.h:121-126 | the pointer writes of the add macro represent the forest with the new node |
| `FiboMemory.DropRep` | mpi/3rd-party/treematch/fibo.h:130-151 | unlinking a node and cutting its children in memory represents the forest without the node |
| `FiboMemory.SeverRep` | mpi/3rd-party/treematch/fibo.h:164-167 | the pointer writes of one cascading cut represent the forest after that cut |
| `FiboMemory.MarkRep` | mpi/3rd-party/treematch/fibo.h:158-161 | storing degree and mark together in `deflval` represents the marked forest |
| `FiboMemory.GraftRep` | mpi/3rd-party/treematch/fibo.c:172-198 | the pointer writes that link one root under another represent the grafted forest |
| `PriorityQueues.PriorityQueue.constructor` | mpi/3rd-party/treematch/PriorityQueue.c:17-25 | a new queue is valid and holds nothing |
| `PriorityQueues.PriorityQueue.IsEmpty` | mpi/3rd-party/treematch/PriorityQueue.c:51-58 | true exactly when the queue refines the empty map |
| `PriorityQueues.PriorityQueue.InsertElement` | mpi/3rd-party/treematch/PriorityQueue.c:60-67 | the map gains exactly the element's value and key, if the value is in range |
| `PriorityQueues.PriorityQueue.DeleteElement` | mpi/3rd-party/treematch/PriorityQueue.c:69-74 | the map loses exactly the element's value |
| `PriorityQueues.PriorityQueue.Insert` | mpi/3rd-party/treematch/PriorityQueue.c:76-85 | an absent value in range is added with its key, in one new element; one out of range changes nothing |
| `PriorityQueues.PriorityQueue.Delete` | mpi/3rd-party/treematch/PriorityQueue.c:87-95 | the value leaves the map, and exactly its element is freed |
| `PriorityQueues.PriorityQueue.FindMaxElement` | mpi/3rd-party/treematch/PriorityQueue.c:97-107 | an element of greatest key, none exactly on an empty queue; the contents do not change |
| `PriorityQueues.PriorityQueue.FindMaxKey` | mpi/3rd-party/treematch/PriorityQueue.c:109-115 | the greatest key of the map; the contents do not change |
| `PriorityQueues.PriorityQueue.DeleteMax` | mpi/3rd-party/treematch/PriorityQueue.c:117-125 | removes exactly one entry of greatest key and frees its element, or returns -1 on an empty queue |
| `PriorityQueues.PriorityQueue.ChangeElementKey` | mpi/3rd-party/treematch/PriorityQueue.c:127-153 | exactly the element's key changes in the map; an element that is in no queue is left alone |
| `PriorityQueues.PriorityQueue.AdjustKey` | mpi/3rd-party/treematch/PriorityQueue.c:169-174 | sets the key of a present value and ignores an absent one |
| `PriorityQueues.PriorityQueue.IncreaseKey` | mpi/3rd-party/treematch/PriorityQueue.c:155-160 | adds to the key of a present value and ignores an absent one |
| `PriorityQueues.PriorityQueue.DecreaseKey` | mpi/3rd-party/treematch/PriorityQueue.c:162-167 | subtracts from the key of a present value and ignores an absent one |
| `PriorityQueues.PriorityQueue.TreeAdd` | mpi/3rd-party/treematch/fibo.h:121-126 | the tree gains exactly one root, in front of the others |
| `PriorityQueues.PriorityQueue.CutChildren` | mpi/3rd-party/treematch/fibo.h:130-144 | every child in ring order becomes a root; the loop ends after one turn of the ring |
| `PriorityQueues.PriorityQueue.TreeDel` | mpi/3rd-party/treematch/fibo.h:146-170 | exactly the node leaves, no other node gets a new parent, and the forest invariant is restored |
| `PriorityQueues.PriorityQueue.Cascade` | mpi/3rd-party/treematch/fibo.h:155-169 | the cascading cuts end with every degree, mark and ring consistent and the debt paid |
| `PriorityQueues.PriorityQueue.Consolidate` | mpi/3rd-party/treematch/fibo.c:144-219 | same nodes, heap order kept, no two roots with the same degree, consolidation table all NULL again, and the best node of the whole tree returned |
| `PriorityQueues.PriorityQueue.LinkByDegree` | mpi/3rd-party/treematch/fibo.c:157-199 | the scan over the changing root ring ends with all root degrees different and each recorded in the table, every index in range |
| `PriorityQueues.PriorityQueue.LinkRoots` | mpi/3rd-party/treematch/fibo.c:172-198 | one link: heap order and the scan's record are kept with one root fewer |
| `PriorityQueues.PriorityQueue.BestRoot` | mpi/3rd-party/treematch/fibo.c:201-217 | the best recorded root, and a table of NULLs |
| `PriorityQueues.IndexSize` | mpi/3rd-party/treematch/PriorityQueue.c:60-67 | the tree has exactly as many nodes as the map has entries, so the size limit is one on contents |
| `PriorityQueues.BestOverall` | mpi/3rd-party/treematch/fibo.c:201-216 | the best of the roots is at least every key in the tree |
| `QueueSpec.FindMaxKey` | mpi/3rd-party/treematch/PriorityQueue.c:109-115 | the greatest key of a finite map, as the partitioner uses it |
| `QueueSpec.DeleteMax` | mpi/3rd-party/treematch/PriorityQueue.c:117-125 | removing some entry of greatest key from a finite map |
| `KPartition.Partitioner.Initialization` | mpi/3rd-party/treematch/k-partitioning.c:61-104 | D holds the weight of every vertex into every block, the queues hold the gains, and the instance queues hold n*k entries |
| `KPartition.Partitioner.NextGain` | mpi/3rd-party/treematch/k-partitioning.c:152-160 | the gain the next step would make, from the block queue or from the surplus block |
| `KPartition.Partitioner.ChooseMover` | mpi/3rd-party/treematch/k-partitioning.c:110-122 | the vertex of greatest gain in the block queued first, or in the surplus block, leaves its queue; its gain is positive, and deficit is the block it leaves |
| `KPartition.Partitioner.UpdateNeighbours` | mpi/3rd-party/treematch/k-partitioning.c:131-143 | after the loop every row of D is right for the moved vertex, the queues agree with D, and every block is queued under the greatest gain of its own queue |
| `KPartition.Partitioner.Algo` | mpi/3rd-party/treematch/k-partitioning.c:106-150 | one step: of the vertices whose moves are compared, and of the vertices of its own block, none has a better move than the vertex that moves; the cut drops by exactly its gain and its diagonal weight, one instance entry is used up, D and the queues stay right |
| `KPartition.StepMoves` | mpi/3rd-party/treematch/k-partitioning.c:106-150 | what the three families of queues choose is a best move, said in terms of the partition and the matrix alone |
| `KPartition.NoKeyNoMove` | mpi/3rd-party/treematch/k-partitioning.c:152-160 | when the next gain is not positive, no move that a step would compare gains anything |
| `KPartition.Partitioner.Settle` | mpi/3rd-party/treematch/k-partitioning.c:144-149 | the vertex joins its block, the queues are consistent again, and the block is queued under the gain of that vertex |
| `KPartition.Partitioner.Search` | mpi/3rd-party/treematch/k-partitioning.c:37-41 | a run of such steps that ends when no move that is compared gains anything, after as many steps as instance entries were used, with strictly decreasing cuts; a gain is left exactly when the block of the last move hides one (balanced) or another block than the surplus block has one (unbalanced) |
| `KPartition.Partitioner.Stopped` | mpi/3rd-party/treematch/k-partitioning.c:152-160 | in every reachable state whose next gain is not positive: no gain is left if and only if, balanced, the block of the last move is not queued below a positive gain of its queue, and, unbalanced, no other block is queued under a positive gain |
| `KPartition.Partitioner.NoGainMeans` | mpi/3rd-party/treematch/k-partitioning.c:92-96 | no gain is left if and only if no vertex is attracted more by a block it may still move to than by its own |
| `KPartition.StopsEarly` | mpi/3rd-party/treematch/k-partitioning.c:144-149 | five vertices and two blocks: after two moves the loop stops although a vertex would gain |
| `KPartition.Partitioner.Balancing` | mpi/3rd-party/treematch/k-partitioning.c:162-177 | every block has its initial size again, by the single move from the surplus block that loses least if one is needed |
| `KPartition.Refine` | mpi/3rd-party/treematch/k-partitioning.c:32-47 | the result is what a run of best moves from the initial partition reaches, evened out by one last best move; at most n*k steps, cut weights strictly decreasing, every block with its initial size; the negative-element exit cannot be reached |
| `KPartition.BuildVector` | mpi/3rd-party/treematch/k-partitioning.c:308-337 | without greedy trials: every block gets n/k vertices, each constrained vertex its own block, and the others the next block in turn that has room |
| `KPartition.RowUpdate` | mpi/3rd-party/treematch/k-partitioning.c:131-143 | changing one row and its queue entries keeps D, instance and block queues consistent |
| `KPartition.MoveEffect` | mpi/3rd-party/treematch/k-partitioning.c:106-150 | moving a vertex lowers the cut by exactly its gain and its own diagonal weight |
| `GreedyStart.GreedyTrial2` | mpi/3rd-party/treematch/k-partitioning.c:205-246 | a balanced partition with the constrained vertices in their blocks and one seed in every block with room, in which every other vertex joined, at its turn, the block with room whose unconstrained member attracted it most; the index -1 for no block is never used |
| `GreedyStart.KPartitionGreedy2` | mpi/3rd-party/treematch/k-partitioning.c:198-262 | the first of the cheapest of as many such trials as asked for |
| `GreedyStart.BuildPVector` | mpi/3rd-party/treematch/k-partitioning.c:301-339 | the cheapest trial if trials are asked for, else the vertices in turn; balanced, with the constraints respected |
| `GreedyStart.KPartitioning` | mpi/3rd-party/treematch/k-partitioning.c:19-49 | that initial partition, refined by a run of best moves on the unconstrained vertices: blocks of exactly n/k, constraints respected, strictly decreasing cut weights |
| `PartitionWeights.CutMove` | mpi/3rd-party/treematch/k-partitioning.c:106-150 | the cut after a move, in terms of the weights into the old and new block |
| `GreedyPartition.AllocateVertex` | mpi/3rd-party/treematch/tm_kpartitioning.c:291-326 | the block with room of the first among the scanned vertices that attract the vertex most; for a padding vertex, of the first with room |
| `GreedyPartition.PlaceDumb` | mpi/3rd-party/treematch/tm_kpartitioning.c:384-415 | padding vertices take exactly the places of the forbidden leaves of each block, the last ones in the first blocks, and as many vertices stay free as there are constraints |
| `GreedyPartition.Seed` | mpi/3rd-party/treematch/tm_kpartitioning.c:421-437 | every block that is not full gets exactly one more vertex, whatever the random choice, and no other block any |
| `GreedyPartition.Attract` | mpi/3rd-party/treematch/tm_kpartitioning.c:439-442 | every vertex that was free joined, at its turn, the block with room that the choice above gives it, and in the end every block has exactly its capacity |
| `GreedyPartition.GreedyTrial` | mpi/3rd-party/treematch/tm_kpartitioning.c:375-442 | from the padding and one seed in every block with room, every other vertex joined, at its turn, the block with room that attracted it most by the matrix; every block gets exactly n/k vertices, and as many of the first |constraints| vertices as it has usable leaves |
| `GreedyPartition.EvalCost` | mpi/3rd-party/treematch/tm_kpartitioning.c:328-339 | the weight of all pairs in different blocks |
| `GreedyPartition.KPartitionGreedy` | mpi/3rd-party/treematch/tm_kpartitioning.c:341-463 | the first of the cheapest of ten such trials, none exactly with more constraints than vertices |
| `GreedyPartition.KPartition` | mpi/3rd-party/treematch/tm_kpartitioning.c:465-496 | the best of ten trials exactly when k divides n and the constraints fit |
| `ConstraintRanks.ShareRange` | mpi/3rd-party/treematch/tm_kpartitioning.c:498-540 | the shares of the subtrees are between 0 and the subtree size, so the error exit of the splitter is unreachable |
| `ConstrainedTree.SplitVertices` | mpi/3rd-party/treematch/tm_kpartitioning.c:614-643 | the labels of a block, in order |
| `ConstrainedTree.SplitMatrix` | mpi/3rd-party/treematch/tm_kpartitioning.c:544-612 | the weights between the real vertices of a block, in order, all from above the diagonal |
| `ConstrainedTree.SameWeights` | mpi/3rd-party/treematch/tm_kpartitioning.c:544-612 | with a symmetric matrix the part for a block, at any depth, holds the original weights between the processes of that block |
| `ConstrainedTree.FillTab` | mpi/3rd-party/treematch/tm_mapping.c:588-624 | copies exactly the entries from start on that are below the bound, shifted |
| `ConstrainedTree.SplitConstraints` | mpi/3rd-party/treematch/tm_kpartitioning.c:498-540 | table p holds exactly the usable ranks of subtree p, renumbered from 0 |
| `ConstrainedTree.PickAllIsAll` | mpi/3rd-party/treematch/tm_kpartitioning.c:614-643 | the blocks together hold every label as often as the whole does |
| `ConstrainedTree.ChildProblem` | mpi/3rd-party/treematch/tm_kpartitioning.c:767-784 | every block of a split is again a problem with real labels first and enough usable leaves |
| `ConstrainedTree.BuildLevel` | mpi/3rd-party/treematch/tm_kpartitioning.c:722-792 | every label is on exactly one leaf, real processes only on usable leaves, and at every node of the tree the labels are divided among the children as the best of ten greedy trials on the weights between them says |
| `ProcessMapping.SetVal` | mpi/3rd-party/treematch/tm_mapping.c:422-439 | stores in the first free slot; fails exactly when the row is full |
| `ProcessMapping.MapTopology` | mpi/3rd-party/treematch/tm_mapping.c:452-507 | sigma is the core of each process's leaf; row u of k holds exactly the processes of core u, in front, and free slots behind; the error exit of the slot search is unreachable |
| `ProcessMapping.Oversubscribe` | mpi/3rd-party/treematch/tm_topology.c:867-900 | leaf j belongs to core base[j/f], and the rank of a core is its last leaf |
| `ProcessMapping.CoreLeaves` | mpi/3rd-party/treematch/tm_topology.c:890-894 | no core has more than f leaves |
| `ProcessMapping.CheckConstraints` | mpi/3rd-party/treematch/tm_tree.c:2225-2259 | strictly increasing ranks that are exactly the leaves of the constrained cores |
| `ProcessMapping.BuildConstrained` | mpi/3rd-party/treematch/tm_kpartitioning.c:795-880 | a tree exactly when there are enough usable leaves; each process on one leaf, and only on usable ones, divided by the affinity matrix at every node |
| `ProcessMapping.PlaceConstrained` | mpi/3rd-party/treematch/tm_tree.c:2291-2315 | the constrained placement from core numbers to sigma and k: every process on a constrained core, that of its leaf in a tree divided by the affinity matrix at every node, at most f per core, k inverting sigma |
| `GroupEnumeration.ListAllPossibleGroups` | mpi/3rd-party/treematch/tm_tree.c:463-485 | adds exactly the list of all groups of the given size; the early cut loses none |
| `GroupEnumeration.GroupsComplete` | mpi/3rd-party/treematch/tm_tree.c:463-485 | every group of increasing nodes is in that list |
| `GroupEnumeration.GroupsOrdered` | mpi/3rd-party/treematch/tm_tree.c:463-485 | the list is strictly increasing in lexicographic order, so it has no group twice |
| `GroupEnumeration.ListToTab` | mpi/3rd-party/treematch/tm_tree.c:1422-1440 | the table in order of creation; refused exactly when the length differs |
| `GroupEnumeration.GroupCount` | mpi/3rd-party/treematch/tm_tree.c:1824-1827 | there are binomial-coefficient many groups, so the length checks never fail |
| `GroupEnumeration.Choose` | mpi/3rd-party/treematch/tm_tree.c:92-102 | the product of fractions is the binomial coefficient |
| `GroupEnumeration.Absorption` | mpi/3rd-party/treematch/tm_tree.c:92-102 | k C(n,k) = n C(n-1,k-1), the step of that product |
| `GroupSelection.IndependentGroups` | mpi/3rd-party/treematch/tm_tree.c:505-518 | true exactly when the group shares no node with the selection |
| `GroupSelection.RecursSelect` | mpi/3rd-party/treematch/tm_tree.c:558-590 | records exactly the greedy selection, when it is complete and better than the best so far |
| `GroupSelection.GreedyCovers` | mpi/3rd-party/treematch/tm_tree.c:558-590 | whatever the order of the list, a completed selection is a set of disjoint groups |
| `GroupSelection.SelectIndependentGroups` | mpi/3rd-party/treematch/tm_tree.c:676-717 | the best of the greedy selections from the first starts, the earlier on a tie; all starts, or those up to a multiple of five where the clock stops the pass, never none |
| `GroupSelection.SelectByLargestIndex` | mpi/3rd-party/treematch/tm_tree.c:1382-1420 | the same for the starts from the end in steps, until enough of them improved the selection, the clock stops it or the list ends; a single group is counted but not recorded |
| `GroupSelection.PassKeeps` | mpi/3rd-party/treematch/tm_tree.c:676-717 | whatever the starts of a pass, the best selection stays a cover and gets no worse |
| `GroupSelection.FirstPass` | mpi/3rd-party/treematch/tm_tree.c:1831-1841 | on the lexicographic list the greedy scan always completes, and what it selects is the runs of consecutive nodes |
| `GroupValues.EvalGrouping` | mpi/3rd-party/treematch/tm_tree.c:400-424 | the value of a group is exactly the weight that leaves it |
| `FewGroups.GroupFew` | mpi/3rd-party/treematch/tm_tree.c:1816-1930 | the outcome of exactly the four passes over all groups: as listed, cheapest first, dearest last, and by weighted degree, each on a list in that order, with a credit for packing; disjoint groups covering the level, ordered by their first nodes |
| `FewGroups.SortBy` | mpi/3rd-party/treematch/tm_tree.c:636-674 | some arrangement of the groups in ascending order of their keys |
| `FewGroups.ComputeWeightedDegree` | mpi/3rd-party/treematch/tm_tree.c:1467-1486 | looking at every pair once gives each group the value of the other groups that share a node with it, over its own |
| `FewGroups.PackedRuns` | mpi/3rd-party/treematch/tm_tree.c:1831-1841 | the first pass always completes and packs runs of consecutive nodes |
| `FewGroups.NoWorseThanPacked` | mpi/3rd-party/treematch/tm_tree.c:1831-1898 | no more weight leaves the groups returned than leaves runs of consecutive nodes |
| `FewGroups.NearCheapestFirst` | mpi/3rd-party/treematch/tm_tree.c:1838-1852 | nor, beyond a thousandth, than leaves the groups that taking the cheapest first selects |
| `BoundedSearch.FastGroup` | mpi/3rd-party/treematch/tm_tree.c:1498-1544 | evaluates exactly the first groups of free nodes in lexicographic order, up to one more than the limit, and keeps the first of those that the least weight leaves; it finds one whenever enough nodes are free |
| `BoundedSearch.FreeGroupsComplete` | mpi/3rd-party/treematch/tm_tree.c:1528-1543 | no group of free nodes is missing from that list |
| `BoundedSearch.FreeGroupsOrdered` | mpi/3rd-party/treematch/tm_tree.c:1528-1543 | the list is strictly increasing in lexicographic order |
| `BoundedSearch.SearchedBest` | mpi/3rd-party/treematch/tm_tree.c:1510-1525 | what the search keeps is a best group of those evaluated, and the first of them |
| `BoundedSearch.FastGrouping` | mpi/3rd-party/treematch/tm_tree.c:1550-1578 | disjoint groups covering the level, each the first best one of the nodes that the groups before it leave |
| `NodeGrouping.PartitionGrouping` | mpi/3rd-party/treematch/tm_tree.c:1580-1618 | the blocks of the best of ten greedy trials on the matrix, as disjoint groups covering the level |
| `NodeGrouping.GroupNodes` | mpi/3rd-party/treematch/tm_tree.c:1756-1947 | a cover of the level by the passes, the heaviest pairs, the bounded search or the greedy partition, whichever the number of groups and the arity ask for, except exactly for more than 30000 nodes at arity one, where the program exits, and for 32768 nodes or more at arity two, where the pivots are read outside the sample |
| `BottomUpTree.AggregateMatrix` | mpi/3rd-party/treematch/tm_tree.c:275-357 | entry (i,j) is the weight between groups i and j, with the row sums |
| `BottomUpTree.CompleteMatrix` | mpi/3rd-party/treematch/tm_tree.c:1949-1969 | rows and columns of zeros keep matrix, signs and row sums right |
| `BottomUpTree.CreateDumbTree` | mpi/3rd-party/treematch/tm_tree.c:1997-2020 | a subtree of the machine's shape without a process |
| `BottomUpTree.CompleteNodes` | mpi/3rd-party/treematch/tm_tree.c:2021-2045 | padding adds no process |
| `BottomUpTree.SameLeaves` | mpi/3rd-party/treematch/tm_tree.c:2121-2137 | grouping a level changes how often no leaf label occurs |
| `BottomUpTree.CeilingFits` | mpi/3rd-party/treematch/tm_tree.c:2093-2115 | with no more nodes than places, the level above has no more groups than places, and at least one |
| `BottomUpTree.UniformLeaves` | mpi/3rd-party/treematch/tm_tree.c:2068-2184 | a tree of the machine's shape has exactly the product of the arities many leaves |
| `BottomUpTree.BuildLevelTopology` | mpi/3rd-party/treematch/tm_tree.c:2068-2184 | the recursion ends at depth 0 with exactly one node, of the machine's shape and with the same processes, grown level by level: padded, grouped as the level's matrix asks, and aggregated; it fails exactly when some padded level is too large at arity one or two |
| `LeafWeights.AggregateMeasures` | mpi/3rd-party/treematch/tm_tree.c:2141-2141 | an entry of the aggregated matrix is the weight between the processes below the two parents |
| `LeafWeights.PaddedMeasures` | mpi/3rd-party/treematch/tm_tree.c:2098-2110 | padding keeps that: a node without processes has no weight with any other |
| `LeafWeights.AllMeasure` | mpi/3rd-party/treematch/tm_tree.c:2068-2184 | so every level of the tree is grouped by the original weights between the processes below its nodes |
| `LeafWeights.LeavingMeasures` | mpi/3rd-party/treematch/tm_tree.c:400-424 | the value of a group is the weight between the processes below it and all others below the level |
| `LeafWeights.LevelNoWorse` | mpi/3rd-party/treematch/tm_tree.c:1816-1930 | on a level with few groups no more weight lies between processes of different groups than if neighbouring nodes had been packed |
| `BottomUpTree.ArityOneTooLarge` | mpi/3rd-party/treematch/tm_tree.c:1789-1801 | 30001 processes on a machine of arities 30001 and 1 are not placed |
| `BottomUpTree.ArityTwoTooLarge` | mpi/3rd-party/treematch/tm_bucket.c:355-368 | 32768 processes on a machine of arities 16384 and 2 are not placed, two fewer are |
| `TreePlacement.BuildBottomUp` | mpi/3rd-party/treematch/tm_tree.c:2189-2212 | product-of-arities leaves and each process on exactly one of them, every level grouped by the weights between the processes below its nodes, exactly when there is a process and no level is too large |
| `TreePlacement.PlaceProcesses` | mpi/3rd-party/treematch/tm_tree.c:2265-2327 | when a placement exists, and that it puts every process on a permitted core, that of its leaf in a tree that follows the affinity matrix, at most f per core, with k inverting sigma |
| `PivotTree.Dfs` | mpi/3rd-party/treematch/tm_bucket.c:226-237 | the subtree holds the pivots that separate its buckets, and nothing outside it changes |
| `PivotTree.BuildPivotTree` | mpi/3rd-party/treematch/tm_bucket.c:239-263 | inner nodes separate the buckets, the last half numbers them |
| `PivotTree.BucketId` | mpi/3rd-party/treematch/tm_bucket.c:115-133 | the descent ends at the number of pivots not below the weight |
| `PivotTree.BucketIs` | mpi/3rd-party/treematch/tm_bucket.c:115-133 | with nonincreasing pivots the ones not below a weight are the first ones |
| `PivotTree.BucketMonotone` | mpi/3rd-party/treematch/tm_bucket.c:115-133 | larger weights are in earlier buckets |
| `BucketGrouping.FillBuckets` | mpi/3rd-party/treematch/tm_bucket.c:265-276 | bucket b holds exactly the pairs whose weight belongs there, each once |
| `BucketGrouping.SortBucket` | mpi/3rd-party/treematch/tm_bucket.c:57-83 | the same pairs, each as often, in the order of the comparison |
| `BucketGrouping.BucketList.Next` | mpi/3rd-party/treematch/tm_bucket.c:390-416 | of the pairs not returned before the one that comes first when all are sorted, so the lazily sorted buckets give every pair once in exactly that order |
| `BucketGrouping.TryAddEdge` | mpi/3rd-party/treematch/tm_bucket.c:468-486 | a group exactly when both nodes are free |
| `BucketGrouping.Charged` | mpi/3rd-party/treematch/tm_bucket.c:586-592 | a matching weighs at most the sum of node charges that cover its pairs |
| `BucketGrouping.GroupByBuckets` | mpi/3rd-party/treematch/tm_bucket.c:539-592 | all groups are found before the pairs run out, every node is in one, each is the first free pair of the sorted list, and no matching weighs more than twice as much |
| `BucketGrouping.SameGrouping` | mpi/3rd-party/treematch/tm_bucket.c:539-592 | two such groupings are equal, so the random pivots do not change the result |
| `PivotSampling.Ilog2` | mpi/3rd-party/treematch/tm_bucket.c:23-28 | the shifting loop counts the binary digits |
| `PivotSampling.BitsBetween` | mpi/3rd-party/treematch/tm_bucket.c:23-28 | a number of b digits is at least 2^(b-1) and less than 2^b |
| `PivotSampling.BucketCount` | mpi/3rd-party/treematch/tm_bucket.c:306-317 | the number of buckets is a power of two, so the check for that never fails |
| `PivotSampling.MaxDepth` | mpi/3rd-party/treematch/tm_bucket.c:247-247 | the digits of the number of buckets give the depth of the pivot tree |
| `PivotSampling.Sample` | mpi/3rd-party/treematch/tm_bucket.c:323-342 | whatever the random numbers, every sampled pair is a pair of nodes, so the assertions hold; node 0 is never drawn, and the last node only with the one before it |
| `PivotSampling.PickPivots` | mpi/3rd-party/treematch/tm_bucket.c:355-368 | pivot a is the weight at position 2^a-1 of the sorted sample, so the pivots are nonincreasing, and a position outside the sample is reached exactly when 2^(buckets-2) exceeds its length |
| `PivotSampling.LongEnough` | mpi/3rd-party/treematch/tm_bucket.c:323-368 | with buckets squared pairs every position is inside exactly up to eight buckets |
| `PivotSampling.DepthBelow` | mpi/3rd-party/treematch/tm_bucket.c:306-310 | at most eight buckets exactly below 32768 nodes |
| `PivotSampling.PartialSort` | mpi/3rd-party/treematch/tm_bucket.c:290-368 | nonincreasing pivots exactly below 32768 nodes; from there on the sample is read outside its bounds |
| `PivotSampling.SampleOverrun` | mpi/3rd-party/treematch/tm_bucket.c:323-368 | at 32768 nodes: 16 buckets, 256 pairs, and the tenth pivot at position 511 |
| `NodeGrouping.PairGrouping` | mpi/3rd-party/treematch/tm_bucket.c:539-592 | a cover of the level by pairs exactly below 32768 nodes, each the first free pair when all are sorted by weight |
| `PairwiseExchange.EvalSol` | mpi/3rd-party/treematch/tm_solution.c:359-373 | the cost of a placement |
| `PairwiseExchange.ComputeGain` | mpi/3rd-party/treematch/tm_solution.c:383-424 | the gain of every exchange, from half of them |
| `PairwiseExchange.SelectMax` | mpi/3rd-party/treematch/tm_solution.c:395-412 | the first of the best exchanges of two processes not yet exchanged in the pass |
| `PairwiseExchange.UndoFirst` | mpi/3rd-party/treematch/tm_solution.c:494-497 | disjoint exchanges commute, so the first of them can be undone after the others |
| `PairwiseExchange.Sweep` | mpi/3rd-party/treematch/tm_solution.c:470-480 | disjoint exchanges with the gain each made, each the first best one of the processes left |
| `PairwiseExchange.BestPrefix` | mpi/3rd-party/treematch/tm_solution.c:482-491 | the shortest prefix with the largest total gain, if positive |
| `PairwiseExchange.Undo` | mpi/3rd-party/treematch/tm_solution.c:494-497 | undoing the rest in forward order restores the best prefix |
| `PairwiseExchange.Pass` | mpi/3rd-party/treematch/tm_solution.c:459-511 | the first exchanges of a sweep, as many as lower the cost most; the cost drops by exactly max; without gain the solution is unchanged and no exchange improves it |
| `PairwiseExchange.AppliedSame` | mpi/3rd-party/treematch/tm_solution.c:375-381 | exchanges use the same cores |
| `PairwiseExchange.CheaperShrinks` | mpi/3rd-party/treematch/tm_solution.c:459-511 | strict descent over the finitely many placements, so the passes end |
| `PairwiseExchange.Descend` | mpi/3rd-party/treematch/tm_solution.c:459-511 | a path of such passes, each cheaper than the one before, to a local optimum; the record is replaced exactly when that is cheaper |
| `PairwiseExchange.MapMpipp` | mpi/3rd-party/treematch/tm_solution.c:433-514 | an arrangement of the given cores: with at least one start the first of the cheapest local optima that the descents end with |
| `ArityOptimizer.SplitKeeps` | mpi/3rd-party/treematch/tm_topology.c:647-684 | splitting a level keeps the number of leaves and the cost at the lowest common ancestor of every two leaves |
| `ArityOptimizer.OptimizeArity` | mpi/3rd-party/treematch/tm_topology.c:632-712 | it ends, the machine is the same in leaves and pairwise costs, and no level is divisible by 3 above 3 or by 2 above 2 |
| `ArityOptimizer.OptimizeTopology` | mpi/3rd-party/treematch/tm_topology.c:717-741 | the same for the whole machine, and the cores of the leaves, the leaf of every core that has one, the constraints, the number of cores and the oversubscription are carried over |
| `ArityOptimizer.NumberLeaves` | mpi/3rd-party/treematch/tm_topology.c:806-821 | leaf j belongs to the core numbered by its place in its node, and the rank of a core is its last leaf |
| `ArityOptimizer.RankUnique` | mpi/3rd-party/treematch/tm_topology.c:817-819 | ranks that are last leaves agree on every core that has leaves |
| `TcpFraming.FragSend` | mpi/contrib/build-mca-comps-outside-of-tree/btl_tcp2_frag.c:101-147 | for any partial write, what was written and what remains is what remained before; done exactly when nothing remains |
| `TcpFraming.Sender.Connected` | mpi/contrib/build-mca-comps-outside-of-tree/btl_tcp2_endpoint.c:439-459 | connecting changes no pending byte |
| `TcpFraming.Sender.Send` | mpi/contrib/build-mca-comps-outside-of-tree/btl_tcp2_endpoint.c:266-304 | the fragment's bytes follow everything sent before, in every state of the endpoint; only with priority on an idle connection are any written at once |
| `TcpFraming.Sender.SendHandler` | mpi/contrib/build-mca-comps-outside-of-tree/btl_tcp2_endpoint.c:801-825 | written and pending bytes together stay the same stream, and bytes stay pending only when the socket takes no more |
| `TcpFraming.RecordFirst` | mpi/contrib/build-mca-comps-outside-of-tree/btl_tcp2_frag.c:242-262 | decoding is unique: a header and as many bytes as it announces are the first record of the stream |
| `TcpFraming.Receiver.Consume` | mpi/contrib/build-mca-comps-outside-of-tree/btl_tcp2_frag.c:174-180 | stepping over cached bytes leaves the rest, and an empty cache starts over |
| `TcpFraming.Receiver.FromCache` | mpi/contrib/build-mca-comps-outside-of-tree/btl_tcp2_frag.c:157-183 | bytes served from the cache are neither lost nor repeated; a payload that is there as a whole is shown in place when asked for, and else copied |
| `TcpFraming.Receiver.FromSocket` | mpi/contrib/build-mca-comps-outside-of-tree/btl_tcp2_frag.c:184-220 | for any partial read, what the entry takes and the cache keeps is what was read |
| `TcpFraming.Receiver.Advance` | mpi/contrib/build-mca-comps-outside-of-tree/btl_tcp2_frag.c:222-240 | the entry advances over exactly the bytes it got, the surplus is the cache |
| `TcpFraming.Receiver.FragRecv` | mpi/contrib/build-mca-comps-outside-of-tree/btl_tcp2_frag.c:149-285 | complete: the header is that of the next record, and the segment shows its payload exactly when it has one or the fragment had none before; incomplete: the cache is empty; no byte is lost |
| `TcpFraming.Receiver.RecvHandler` | mpi/contrib/build-mca-comps-outside-of-tree/btl_tcp2_endpoint.c:713-767 | delivers the next records in order until the cache is used up, with any fragment the free list hands out, or none; each record is right exactly when it has a payload or its fragment came with an empty segment, and what the fragments came with is logged |
| `TcpFraming.Channel.Submit` | mpi/contrib/build-mca-comps-outside-of-tree/btl_tcp2_endpoint.c:266-304 | queueing a record keeps the stream invariant |
| `TcpFraming.Channel.SendEvent` | mpi/contrib/build-mca-comps-outside-of-tree/btl_tcp2_endpoint.c:793-832 | any write event keeps it |
| `TcpFraming.Channel.RecvEvent` | mpi/contrib/build-mca-comps-outside-of-tree/btl_tcp2_endpoint.c:685-768 | any read event, with any fragment, keeps it: what is delivered are the next records sent, each right exactly under that condition, and every other byte is exactly once on its way |
| `TcpFraming.Channel.AllDelivered` | mpi/contrib/build-mca-comps-outside-of-tree/btl_tcp2_endpoint.c:713-767 | once every byte is written and read, every record has been delivered; delivered equals sent exactly when every record can be intact, and always when none is empty |
| `TcpFraming.Channel.Exact` | mpi/contrib/build-mca-comps-outside-of-tree/btl_tcp2_frag.c:244-262 | at every moment: what was delivered is a prefix of what was sent exactly when every record of it has a payload or came in a fragment with an empty segment; always so when no record is empty |
| `TcpFraming.Channel.Flush` | mpi/contrib/build-mca-comps-outside-of-tree/btl_tcp2_endpoint.c:713-767 | over a kernel that takes and gives all it can, one write event and one read event deliver everything that fits the cache, and exactly under that condition as it was sent |
| `TcpFraming.EmptyAfterFull` | mpi/contrib/build-mca-comps-outside-of-tree/btl_tcp2_frag.c:244-262 | a record of one byte and then an empty one on the same fragment: both are delivered, the second wrongly |
| `TcpFraming.EmptyOnStale` | mpi/contrib/build-mca-comps-outside-of-tree/btl_tcp2.c:184-194 | an empty record first, on a fragment that was used to send: it is delivered wrongly |
| `TcpFraming.EmptyArrives` | mpi/contrib/build-mca-comps-outside-of-tree/btl_tcp2_endpoint.c:722-734 | a record of one byte and then an empty one on two unused fragments: both are right |
| `TcpFraming.Spoiled` | mpi/contrib/build-mca-comps-outside-of-tree/btl_tcp2_frag.h:144-157 | for any records there is a run that delivers all of them and gets them right exactly when none is empty |
| `TcpFraming.ExactWhatever` | mpi/contrib/build-mca-comps-outside-of-tree/btl_tcp2_frag.h:144-157 | every record can be intact whatever the free list hands out if and only if no record is empty |
| `TcpFraming.Receiver.Allocate` | mpi/contrib/build-mca-comps-outside-of-tree/btl_tcp2_endpoint.c:720-734 | a fragment of the free list keeps the segment it came with |
| `TcpFraming.Receiver.NextRecord` | mpi/contrib/build-mca-comps-outside-of-tree/btl_tcp2_endpoint.c:736-742 | one turn: the record is delivered and the segment then has the length of its payload, or the one it came with |
| `ConnectHandshake.Handshake.Close` | mpi/contrib/build-mca-comps-outside-of-tree/btl_tcp2_endpoint.c:412-431 | closes our end and forgets the socket; the state stays |
| `ConnectHandshake.Handshake.StartConnect` | mpi/contrib/build-mca-comps-outside-of-tree/btl_tcp2_endpoint.c:558-632 | opens the connection and sends our name exactly if connect succeeds at once, and nothing else; keeps the invariant of the handshake and uses up effort |
| `ConnectHandshake.Handshake.CompleteConnect` | mpi/contrib/build-mca-comps-outside-of-tree/btl_tcp2_endpoint.c:640-677 | sends our name and waits for the reply, and nothing else; keeps the invariant and uses up effort |
| `ConnectHandshake.Handshake.Accept` | mpi/contrib/build-mca-comps-outside-of-tree/btl_tcp2_endpoint.c:360-404 | accepts exactly without a socket of our own, or when not connected and the peer's name is smaller |
| `ConnectHandshake.Handshake.Listen` | mpi/contrib/build-mca-comps-outside-of-tree/btl_tcp2_component.c:1032-1083 | a connection whose name has arrived is taken exactly by the rule, with our own let go and a reply sent, and every other one closed at our end; keeps the invariant, and an accepted socket is open at the other end |
| `ConnectHandshake.Handshake.RecvConnectAck` | mpi/contrib/build-mca-comps-outside-of-tree/btl_tcp2_endpoint.c:500-520 | a reply connects, a closed socket is dropped, and nothing else changes; keeps the invariant |
| `ConnectHandshake.Handshake.SameSocket` | mpi/contrib/build-mca-comps-outside-of-tree/btl_tcp2_endpoint.c:351-404 | two connected endpoints hold the two open ends of one connection |
| `ConnectHandshake.Handshake.NoDeadEnd` | mpi/contrib/build-mca-comps-outside-of-tree/btl_tcp2_endpoint.c:351-404 | after a start, a state in which nothing can happen has both endpoints connected |
| `ConnectHandshake.Handshake.Run` | mpi/contrib/build-mca-comps-outside-of-tree/btl_tcp2_endpoint.c:696-712 | both, for every interleaving of events: those that can happen when their turn comes take place, and boundedly many |
| `InterfaceMatching.ReachedSound` | mpi/contrib/build-mca-comps-outside-of-tree/btl_tcp2_proc.c:207-221 | every row evaluated is a permutation |
| `InterfaceMatching.ReachedComplete` | mpi/contrib/build-mca-comps-outside-of-tree/btl_tcp2_proc.c:207-221 | every permutation is evaluated |
| `InterfaceMatching.ReachedOnce` | mpi/contrib/build-mca-comps-outside-of-tree/btl_tcp2_proc.c:207-221 | none is evaluated twice |
| `InterfaceMatching.Search.EvaluateAssignment` | mpi/contrib/build-mca-comps-outside-of-tree/btl_tcp2_proc.c:175-205 | the record stays the value of the first best assignment evaluated |
| `InterfaceMatching.Search.Visit` | mpi/contrib/build-mca-comps-outside-of-tree/btl_tcp2_proc.c:207-221 | evaluates exactly the rows below, in order, and leaves the row as it was |
| `InterfaceMatching.BestAssignment` | mpi/contrib/build-mca-comps-outside-of-tree/btl_tcp2_proc.c:591-595 | the assignment found is lexicographically greatest in cardinality and weight over all permutations, each evaluated exactly once, and the first visited of those |
| `SeqTracker.Tracker.CheckDuplicate` | mpi/ompi/class/ompi_seq_tracker.c:58-83 | true exactly for the numbers in the list, whatever the cursor; the cursor moves to the range found and else stays |
| `SeqTracker.Tracker.Insert` | mpi/ompi/class/ompi_seq_tracker.c:91-180 | the list stays ordered, disjoint and never adjacent and gains exactly the number, with the cursor on its range, except exactly in the wrap-around case, where the range of the cursor is turned round and its numbers are lost |
| `SeqTracker.Tracker.CopyFrom` | mpi/ompi/class/ompi_seq_tracker.c:183-198 | a fresh tracker gets the same ranges and cursor |
| `SeqTracker.Unique` | mpi/ompi/class/ompi_seq_tracker.c:91-180 | equal sets have equal lists, so the list is the canonical form of the set |
| `SeqTracker.Track` | mpi/ompi/class/ompi_seq_tracker.c:91-180 | after any run of inserts below 2^32-1 exactly those numbers are found |
| `SeqTracker.OrderIrrelevant` | mpi/ompi/class/ompi_seq_tracker.c:91-180 | two runs over the same numbers end with the same list |
| `SeqTracker.ForgetsZero` | mpi/ompi/class/ompi_seq_tracker.c:131-143 | inserting 0 and then 2^32-1 loses 0 |
| `Attributes.AttributeSystem.CreateKeyval` | mpi/ompi/attribute/attribute.c:620-670 | the least number not taken, which is no key and is used by no object; refused exactly when that is the limit |
| `Attributes.AttributeSystem.Release` | mpi/ompi/attribute/attribute.c:526-538 | the last reference removes the key and gives its number back |
| `Attributes.AttributeSystem.FreeKeyval` | mpi/ompi/attribute/attribute.c:753-789 | the key stays exactly as long as an object uses it; counts stay right, and a number that becomes free is given back |
| `Attributes.AttributeSystem.Set` | mpi/ompi/attribute/attribute.c:1264-1342 | the attribute gets the next sequence number, the key one reference exactly if the object did not use it; an old value goes first, by one callback whose verdict decides |
| `Attributes.AttributeSystem.Delete` | mpi/ompi/attribute/attribute.c:1107-1176 | the attribute goes exactly when its callback, called once, succeeds, with the object's reference to the key; the last one gives the number back |
| `Attributes.AttributeSystem.DeleteAll` | mpi/ompi/attribute/attribute.c:1197-1256 | callbacks in strictly reverse order of setting, each with its verdict; on failure exactly the failing and earlier-set attributes are left (section 8.7.1 of MPI-2.2); of the freed keys exactly those in use are left |
| `Attributes.AttributeSystem.CopyAll` | mpi/ompi/attribute/attribute.c:991-1098 | every attribute is asked about once, in any order, until a callback fails or a value is refused; the new object gets exactly what the answers agree to, and exactly the values replaced are deleted |
| `Attributes.AppliedKeys` | mpi/ompi/attribute/attribute.c:1050-1078 | the keys after copying are the old ones and those a callback agreed to; the others are unchanged |
| `Attributes.AppliedValue` | mpi/ompi/attribute/attribute.c:1050-1078 | an attribute a callback agreed to has the value it gave and the next sequence number |
| `Attributes.CountsAdd` | mpi/ompi/attribute/attribute.c:1335-1339 | the count after setting an attribute |
| `Attributes.CountsRemove` | mpi/ompi/attribute/attribute.c:1165-1173 | the count after deleting an attribute; a key that goes has no other user |
| `Attributes.CountsFree` | mpi/ompi/attribute/attribute.c:770-776 | the count after freeing a key; it goes exactly when nobody uses it |
| `Attributes.LeftAfter` | mpi/ompi/attribute/attribute.c:1165-1173 | deleting an attribute takes the key away exactly when it was freed and this was its last use |
| `CommRequests.Scheduler.Append` | mpi/ompi/communicator/comm_request.c:80-107 | the item goes behind all others; more than two subrequests are refused |
| `CommRequests.Scheduler.Start` | mpi/ompi/communicator/comm_request.c:183-198 | the request is active and the progress function registered |
| `CommRequests.Scheduler.Cancel` | mpi/ompi/communicator/comm_request.c:200-227 | the subrequests still waited for are cancelled in schedule order, the rest of the schedule is dropped and the request leaves the active list without completing |
| `CommRequests.Scheduler.Drain` | mpi/ompi/communicator/comm_request.c:127-147 | takes off exactly the completed subrequests at the end, each freed once unless retained |
| `CommRequests.Scheduler.TakeItem` | mpi/ompi/communicator/comm_request.c:125-161 | an item leaves the schedule exactly when all its subrequests have finished, and else keeps exactly those up to its last unfinished one; the subrequests taken off are freed unless retained; if it has a callback, exactly that call is owed then, and else nothing |
| `CommRequests.Scheduler.TryItem` | mpi/ompi/communicator/comm_request.c:124-161 | what the item became, what was freed, and the code that its callback returned; nothing else moves, and no call is owed afterwards |
| `CommRequests.Scheduler.Callback` | mpi/ompi/communicator/comm_request.c:149-156 | the call is logged where it is made, with the code it returns, for the item last taken off and with its own function, when all its subrequests have finished; then the callback may append, start and create |
| `CommRequests.LogCall` | mpi/ompi/communicator/comm_request.c:149-156 | making the call that is owed extends the log of calls by the next item of the append order |
| `CommRequests.Scheduler.Complete` | mpi/ompi/communicator/comm_request.c:163-168 | completion only with an empty schedule, once per start |
| `CommRequests.Scheduler.Step` | mpi/ompi/communicator/comm_request.c:122-169 | one request has its turn: its first item is tried, and the request completes and leaves its place in the active list exactly when no item is left; the calls made are exactly those of the items taken off, in order; exactly the subrequests taken off and not retained are freed |
| `CommRequests.Scheduler.Progress` | mpi/ompi/communicator/comm_request.c:109-181 | every request that was active has had its turn, in order, and the pass ends with the first that was the last of the list then: without items it completed, an item that had finished is gone with its callback called, and an item that still waits is left with exactly the subrequests up to its last unfinished one; with nothing active the progress function is unregistered |
| `CommRequests.DrainOk` | mpi/ompi/communicator/comm_request.c:127-160 | after a drain a subrequest is freed exactly when it was taken off an item that does not retain it |
| `IndexedTypes.CreateIndexed` | mpi/ompi/datatype/ompi_datatype_create_indexed.c:34-72 | the type map of the unmerged blocks at displacement times extent; no two consecutive runs could be merged if and only if the extent is not zero, or the size is zero, or every block that is not empty starts where the one before ended |
| `IndexedTypes.CreateHindexed` | mpi/ompi/datatype/ompi_datatype_create_indexed.c:75-113 | the type map of the unmerged blocks (section 4.1.2 of MPI-3.1), and no two consecutive runs could be merged |
| `IndexedTypes.CreateIndexedBlock` | mpi/ompi/datatype/ompi_datatype_create_indexed.c:116-148 | the same for blocks of one length, with the condition on them |
| `IndexedTypes.GapAtExtentZero` | mpi/ompi/datatype/ompi_datatype_create_indexed.c:34-148 | extent zero, two blocks and a gap: two runs at byte 0 that could be merged |
| `IndexedTypes.CreateHindexedBlock` | mpi/ompi/datatype/ompi_datatype_create_indexed.c:150-182 | the same for blocks of one length at byte displacements |
| `IndexedTypes.SameTypes` | mpi/ompi/datatype/ompi_datatype_create_indexed.c:34-182 | the four constructors make the same type |
| `IndexedTypes.IndexedAsHindexed` | mpi/ompi/datatype/ompi_datatype_create_indexed.c:34-113 | displacements d in extents make the same type as d times the extent in bytes |
| `IndexedTypes.CopiesSplit` | mpi/ompi/datatype/ompi_datatype_create_indexed.c:58-60 | copies that continue where others end are one longer run of copies |

## Left out

- hwloc discovery, Scotch, file and matrix parsing, verbosity, timings, CPU binding: foreign calls and I/O.
- Aliasing and reuse of freed memory in the Fibonacci tree: node addresses are never issued twice in the model.
- PriorityQueues.PriorityQueue.Insert: a value that is already in the queue is excluded; the source then keeps both elements in the tree and only the newer one in its index, so the queue is no map any more. The partitioner never does that.
- PriorityQueues.PriorityQueue.InsertElement: the same.
- The queues inside the partitioner are used through the map they refine; that the trees refine it is proved on `PriorityQueue`, not replayed in `KPartition`.
- `thread_exhaustive_search` of tm_tree.c: it exits before returning a result. Parallel aggregation is modelled as the sequential loop.
- NodeGrouping.GroupNodes: object weights are not modelled, the cost matrix is the affinity matrix. With weights it may be negative, which the greedy partitioner does not expect.
- FewGroups.SortBy: does not say in which order the library sort leaves equal groups, because every order is covered.
- BoundedSearch.FastGrouping: its limit is computed with the exact logarithm, without the rounding of `log2` near powers of two.
- `select_max`, `compute_gain` and the passes of MPIPP use exact arithmetic: rounding is not modelled.
- TcpFraming.Receiver.RecvHandler: a build with MCA_BTL_TCP_USES_PROGRESS_THREAD, which takes a new fragment for every record of the cache, is not modelled; without it the fragment is used again.
- TcpFraming.Receiver.FragRecv: PUT and GET records, byte-order swapping, several iovec entries on receive and socket errors are not modelled; one healthy connection with SEND records is.
- ConnectHandshake.Handshake.Run: one pair of endpoints and no failures; reconnecting after a lost connection and several links between two processes are not modelled.
- Choice of network addresses and the fallback for many interfaces in btl_tcp2_proc.c.
- Attributes.AttributeSystem.FreeKeyval: a key must not be freed twice, as the source demands of its callers; callbacks that call back into the subsystem, instance reference counts and Fortran value translation are not modelled.
- CommRequests.Scheduler.Callback: a callback may append to its own request, start requests and create requests, but not cancel one; error codes of subrequests are not modelled, since completion overwrites them.
- Descriptor optimisation and the commit of datatypes: unseen opal code.
- UCX, example programs, scripts and documentation tooling.
