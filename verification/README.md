# Verified models of cuHornet

Dafny models of the parts of cuHornet, and of the code it carries along, that do combinatorial work, with proofs
of what they promise. `dafny verify dfyconfig.toml` checks the whole project.

| part | files |
|---|---|
| Adjacency intersection and triangle count | `AdjacencyPath`, `WorkSplit`, `BalancedKernel`, `Intersection`, `PairCount`, `EdgeBinning`, `EdgeGroups`, `EdgeScatter`, `LaunchPlan`, `LaunchJobs`, `BlockJobs`, `AdjacencyUnions`, `AdjacencyRun`, `KernelRun`, `TriangleCount`, `TriangleRun`, `RoundOverlap`, `LaunchOverlap` |
| Edge lists to compressed sparse rows | `EdgeList`, `CsrRows`, `CooToCsr`, `GraphStd`, `DegreeOrientation`, `ConvertedRows` |
| From the file to the number of triangles | `EdgeCounts`, `LoadedTriangles`, `FileToTriangles` |
| DIMACS10 text | `DimacsText`, `Dimacs`, `DimacsWords`, `DimacsGraph` |
| Cuthill-McKee relabelling | `Distance`, `Rcm`, `RcmOrder`, `MatrixLayout`, `CsrMatrix`, `RelabelMatrix` |
| Preemptive scheduler | `SrtfLog`, `SrtfTies`, `SrtfShortest`, `SrtfRuns`, `Srtf` |
| Breadth-first search and ring queue | `Bfs`, `RingQueue` |
| Merging and merge-path cuts | `MergePath` |
| 16-bit floating point | `HalfFloat` |
| Weighted draws, statistics | `WeightedDraw`, `Statistics` |
| Shared | `Arith`, `EngineConstants`, `Order`, `Partition`, `Permutation`, `Sums`, `Wrappers` |

Every lemma carries `{:induction false}`: no proof rests on automatic induction.

## How the model reads the code

**Intersection engine.** The threads of the two binning passes are steps that may interleave in any way, down to the
atomic increment and the two separate stores behind it; a run is any schedule of those steps. The balanced kernel is
modelled as two phases around the barrier, with the threads of a block running each phase in any order over one shared
array. The merge path of two lists has an independent description: the cell (i, j) is on it exactly if it splits both
lists (`Splits`). From there the proofs go up: the search ends at the path cell, the boxes of the lanes are disjoint
and hold every match, the lanes of a group count every common neighbour once, the launches tile the queue, the strided
grid runs every lane of every queue position once, and the counters end with the sum over exactly the edges of the
graph. With the edges in degree order that sum is the number of triangles, as sets of three vertices
(`WeightsCountTriangles`). `CountsTrianglesOfTheFile` joins both halves: an edge list that is read, converted with the
degree orientation and intersected by the threads of the engine, for any integer work factor, yields the number of
triangles of the undirected graph that was read.

Within a round the threads of a block are held together by the one barrier of the kernel's loop. Between two rounds of
a block there is none. A block has a second round only if its launch asks for more than 2^31 threads and the grid is
halved: `OneRoundIffFits` says so exactly, `RunLaunch` establishes it of every grid, and up to that size no barrier is
assumed. Above it the theorems about the engine take the rounds of a block one after the other, and `LaunchOverlap`
says exactly for which launches the code's one barrier a round gives the same.

`ForAllAdjUnions` is the engine as a program over arrays. A balanced launch runs block by block and round by round:
each round loads one item per thread group, runs `RunBlock` over the block's shared memory, and hands the box that a
thread has emitted to the operator (`BoxOfThread` says that it is the piece of the thread's job). The orders in which
the threads run the two phases are given anew for every launch, block and round. An imbalanced launch runs thread by
thread. `CountTrianglesOfFile` puts the conversion in front of it.

**Edge lists.** Each stage works in place on the arrays of the graph object and is proved against a function of the
edge list (`Mirrored`, `Unique`, `Sort`, `Relabelled`, `Oriented`, `Row`, `Offset`). Sorting is a function because
a lexicographically sorted arrangement is unique (`AnySortIsSort`).

**Relabelling.** The loops carry a ghost state with two facts that the code does not store: the label of the vertex
that each vertex was labelled from, and the label of the vertex that put each entry into the queue. The reversal
that would make the order reverse Cuthill-McKee is commented out in the source, so the model has none.

**Scheduler.** A log of slices describes a run; `ChoiceOk` and `LengthOk` say which process runs next and for how
long, ties included. The rules leave no choice: two logs of one load agree as far as both go (`LogIsFixed`), and the
log of a finished run is the only one (`EndedIsWhole`), so what is proved of a lawful finished log is proved of what
`SRTF` produces. `SrtfTies` says what the rules come to, with arrivals, bursts and numbers written out.

**Floating point.** Words are integers, values are exact multiples of the smallest binary32 number, and rounding is
specified by distance alone (sections 3.4 and 4.3.1 of IEEE 754-2008).

## Where the code differs from its stated purpose

- The scheduler is named after the shortest remaining time, but does not always run it, for two reasons. It prefers a
  process that has not run yet to a preempted one; and it cuts a slice at the arrival of the shortest process that
  arrives before the requested end, not of the first one that needs less than is left. `ShortestUnlessNewIsLonger` says
  exactly when the choice is the shortest remaining time, `ShortestThroughoutIff` exactly when it is so at every moment
  of a slice, `AlwaysShortestIff` for a whole run. `NotAlwaysShortest` is a run with a longer choice;
  `EveryChoiceIsShortest` and `ButNotEveryMoment` are a run in which every choice is the shortest and still a process
  with 9 units left runs while another needs 2. Where everybody is there from the beginning neither happens
  (`AllPresentIsShortest`).
- The loop of the balanced kernel has only the barrier inside a round. Behind it a thread reads its right neighbour's
  slot, and that neighbour may already have put the point of its next item there. This does no harm to a launch whose
  threads fit into one grid (`FittingLaunchNeedsNone`). On a grid that was halved, `RunOverlap` says for every order
  exactly when a thread still emits its own piece, and `OneBarrierIff` which launches are safe in every order: those in
  which no cell that a thread needs is replaced by another one in the next round, a condition on the lists alone.
  `GadgetNeedsBarrier` gives two edges of an acyclic graph that break it in any launch in groups of two in which the
  first group meets one behind the other, `EightNeighboursTakeTwoLanes` shows that the engine does launch such edges in
  groups of two, and `GadgetLosesMatch` is the common neighbour that is then lost. A second barrier would be enough
  (`BarrierSuffices`).
- A DIMACS10 header without the third word leaves its line end in the stream, so the reader takes it for the line of
  vertex 0. `UnflaggedTextIsReadOneLineLate` says what such a text becomes, and that it is read back exactly when it
  has no edges or only one vertex.
- Both intersection kernels skip a source of degree one. `SkipIsLossless` says exactly when this loses nothing: when
  the destination has no edge to itself; `SkipCanLose` is a graph in which it does lose a neighbour. `WeightIsCommon`
  concludes that it never does in a degree-oriented graph.
- A file that stores an undirected graph one edge a line may name an edge twice, and then only the conversion of
  directed files removes it. `FinalIsStrict` says that the converted rows are free of duplicates exactly if no two
  lines join the same two different vertices.

## Model

| member | source | states |
|---|---|---|
| AdjacencyPath.BSearchPath | primitives/Operator++.i.cuh:60-94 | From any start range on a diagonal that contains the splitting cell, the search terminates, reads only inside both lists, and returns that cell |
| AdjacencyPath.PathCellIffSplits | primitives/Operator++.i.cuh:141-185 | A cell splits both lists if and only if it is the cell that the tie-to-v merge path visits on its diagonal |
| AdjacencyPath.MatchesLieOnPath | primitives/Operator++.i.cuh:172-184 | Every pair of equal entries is a cell of the path |
| AdjacencyPath.PathIsMonotone | primitives/Operator++.i.cuh:172-184 | The path never moves back in either list |
| AdjacencyPath.MatchIsEnteredInV | primitives/Operator++.i.cuh:172-184 | On a tie the path has moved in v first: it comes to a match from the entry of u before |
| WorkSplit.OwnerFrom | primitives/Operator++.i.cuh:135-139 | Every work item lies in the piece of some lane, for any number of lanes and any amount of work |
| BalancedKernel.BlockMemory.FindPathPoint | primitives/Operator++.i.cuh:135-162 | The first phase of a thread leaves the path cell before its piece in its own slots of the shared array, or its slots as they are if it needs none, and touches no other thread's slots |
| BalancedKernel.BlockMemory.EmitBox | primitives/Operator++.i.cuh:166-196 | The second phase makes a box of the step from the own path cell and of whatever cell stands in the right neighbour's slot |
| BalancedKernel.NeighbourHasPoint | primitives/Operator++.i.cuh:135-162 | The cell that a lane needs from its neighbour is the one that the next lane looks for |
| BalancedKernel.BoxSeenIsOwn | primitives/Operator++.i.cuh:166-196 | The box is the lane's own piece of the path if and only if the cell in the slot is the one that the lane needs, or it needs none |
| BalancedKernel.BlockMemory.RunBlock | primitives/Operator++.i.cuh:109-197 | For any order of the threads in either phase, each thread of the block emits exactly its own piece of its group's path |
| BalancedKernel.BoxesAreDisjoint | primitives/Operator++.i.cuh:135-196 | Boxes of different lanes share no cell |
| BalancedKernel.MatchHasLane | primitives/Operator++.i.cuh:135-196 | Every pair of equal entries lies in the box of some lane |
| BalancedKernel.PiecesAreBalanced | primitives/Operator++.i.cuh:135-139 | Every piece of the path has the same number of cells, the first ones one more for what the division leaves |
| RoundOverlap.RunOverlap | primitives/Operator++.i.cuh:111-197 | Without a barrier between two rounds, for any interleaving: a thread emits its own piece if and only if its right neighbour has not overwritten the needed cell by another one; the next round's points are all in place |
| RoundOverlap.BarrierSuffices | primitives/Operator++.i.cuh:111-164 | If all boxes are emitted before any point of the next round is looked for, every thread is in time |
| RoundOverlap.AlwaysInTimeIff | primitives/Operator++.i.cuh:111-197 | For any items of two rounds and any group size: every thread emits its own piece in every order if and only if no cell that a thread needs differs from the one that its right neighbour looks for next |
| BlockJobs.OneRoundIffFits | primitives/Operator++.i.cuh:490-504 | On the grid of a launch no block has a second round if and only if the threads that the launch asks for fit the limit |
| LaunchOverlap.OneBarrierIff | primitives/Operator++.i.cuh:109-197 | For any balanced launch on any grid: one barrier a round is enough, in all blocks, rounds and orders, if and only if no needed cell is replaced by another one in the next round |
| LaunchOverlap.FittingLaunchNeedsNone | primitives/Operator++.i.cuh:490-504 | Whatever its lists are, a launch within the limit needs no barrier between rounds |
| LaunchOverlap.EightNeighboursTakeTwoLanes | primitives/Operator++.i.cuh:338-355 | With work factor 1 an edge whose ends have eight neighbours each falls into a bin that is launched in groups of two |
| LaunchOverlap.GadgetNeedsBarrier | primitives/Operator++.i.cuh:102-197 | In any launch in groups of two on a shrunken grid, if the first group meets two given edges of eight neighbours in its first two rounds, one barrier a round is not enough |
| LaunchOverlap.GadgetLosesMatch | primitives/Operator++.i.cuh:166-196 | The box that the first thread then emits misses a common neighbour that its own piece holds |
| Intersection.CountByMerge | hornetsnest/src/Static/TriangleCounting/triangle2.cu:79-97 | The merge loop with its bounds and early exit counts the values common to both slices, empty ones included |
| Intersection.CountBySearch | hornetsnest/src/Static/TriangleCounting/triangle2.cu:98-119 | One binary search per entry counts the same |
| PairCount.BalancedTotal | primitives/Operator++.i.cuh:135-196 | The lanes of the balanced kernel together find every common neighbour exactly once |
| PairCount.SliceTotal | primitives/Operator++.i.cuh:234-244 | So do the slices of the imbalanced kernel |
| PairCount.SlicesAreBalanced | primitives/Operator++.i.cuh:234-241 | The slices follow one another over the whole shorter list, equally long, the first ones one entry longer for what the division leaves |
| EdgeBinning.Bin | primitives/Operator++.i.cuh:338-355 | Every edge gets a bin below 2048, in the upper half exactly if the work estimate favours binary search |
| EdgeGroups.BinOfLengths | primitives/Operator++.i.cuh:338-355 | The bin from the two lengths u <= v with j and k significant bits: searched if and only if w * (u + v + j) >= u * k, then in row j and column k of the upper half; otherwise in row k and column j, or in the first bin if u is at most 1 |
| EdgeGroups.ThreadsOfEdge | primitives/Operator++.i.cuh:338-469 | In every run the kernel and the number of threads of an edge of the queue follow from the lengths of its lists: 2^(j-2) threads for the search, 2^(k-3) up to 256 for the merge, at least one |
| EdgeBinning.EmptyListPrefersSearch | primitives/Operator++.i.cuh:340-355 | An edge with an empty list is binned for the imbalanced kernel if and only if the work factor is not negative or both lists are empty |
| EdgeBinning.EmptyListsAreInFirstBin | primitives/Operator++.i.cuh:340-355 | For any work factor, an edge with an empty list that is binned for the balanced kernel is in the first bin, and the factor is negative |
| EdgeBinning.CountBins | primitives/Operator++.i.cuh:356-358 | For any order of the atomic increments, each counter ends with the number of edges of its bin |
| EdgeBinning.PartialSum | primitives/Operator++.i.cuh:405-406 | The start of a bin is the number of edges in the bins before it |
| EdgeBinning.BaseEnds | primitives/Operator++.i.cuh:405-408 | The last start is the number of all edges |
| EdgeScatter.StepKeepsInv | primitives/Operator++.i.cuh:359-363 | Every claim and every store of any thread keeps the invariant: distinct slots, each inside its own bin, stores seen, cursors counting the claims |
| EdgeScatter.StepThread | primitives/Operator++.i.cuh:359-363 | One atomic increment or one store of a thread on the cursor and queue arrays is exactly one step of the transition system |
| EdgeScatter.ScatterEdges | primitives/Operator++.i.cuh:409-413 | The pass over the arrays, in the order of any schedule, ends in the queue of that run |
| EdgeScatter.CursorStaysInBin | primitives/Operator++.i.cuh:359-363 | No cursor ever passes the end of its bin |
| EdgeScatter.FinishedWhenScheduled | primitives/Operator++.i.cuh:359-363 | A schedule finishes the pass if and only if it gives every thread its three steps |
| EdgeScatter.QueueIsPermutation | primitives/Operator++.i.cuh:397-413 | For every interleaving the finished queue holds the edges, each exactly once |
| EdgeScatter.QueueIsGrouped | primitives/Operator++.i.cuh:397-413 | For every interleaving the positions of a bin hold edges of that bin |
| EdgeScatter.EdgeIsInItsBin | primitives/Operator++.i.cuh:397-413 | For every interleaving each edge stands in the queue at a position of its own bin |
| LaunchPlan.PlanLaunches | primitives/Operator++.i.cuh:415-469 | The launches are non-empty, consecutive and tile the queue; each one is the range from `FirstBin` to `EndBin` of one kernel and one group size, with that number of threads an edge |
| LaunchPlan.LaunchOfBin | primitives/Operator++.i.cuh:415-469 | A position of a bin is launched with the kernel of the bin's half and with the group size of the bin's row |
| LaunchPlan.PositionHasLaunch | primitives/Operator++.i.cuh:415-469 | Every queue position belongs to exactly one launch |
| LaunchPlan.ShrinkGrid | primitives/Operator++.i.cuh:492-501 | The number of items is halved as often as needed for the grid to fit the limit, and no more; the grid is a whole number of groups and never becomes empty |
| LaunchPlan.LaneIsIdModGroup | primitives/Operator++.i.cuh:205-208 | The lane computed from block and thread index is the global index modulo the group size, also for groups larger than a block |
| LaunchPlan.GridIsWholeGroups | primitives/Operator++.i.cuh:502-504 | Rounding up to whole blocks leaves whole groups, at least one |
| LaunchJobs.RunThread | primitives/Operator++.i.cuh:102-111 | The strided loop of a thread visits the positions congruent to its group, in order |
| LaunchJobs.GridRunsEachJobOnce | primitives/Operator++.i.cuh:205-211 | The whole grid runs every lane of every position of the range exactly once, and nothing else |
| BlockJobs.BlocksRunEachJobOnce | primitives/Operator++.i.cuh:102-164 | Block by block, and in a block round by round with all its threads, the grid runs the same jobs, each exactly once |
| AdjacencyUnions.RunBalancedLane | primitives/Operator++.i.cuh:194-196 | A lane with a box counts the common neighbours of its piece, also the one lane of an empty list; one without counts none |
| AdjacencyUnions.RunImbalancedLane | primitives/Operator++.i.cuh:212-244 | A lane counts the common neighbours of its slice of the shorter list; self loops and sources with fewer than two neighbours are skipped |
| AdjacencyUnions.LanesAddUp | primitives/Operator++.i.cuh:120-244 | In either kernel and for any group size the lanes of an edge add up to its number of common neighbours; in the balanced one an edge with an empty list has a single lane |
| AdjacencyRun.LaunchesCanRun | primitives/Operator++.i.cuh:340-469 | In every run and for every integer work factor, every launch can run its edges: an edge with an empty list is left to the imbalanced kernel or launched with a single thread, which searches no path |
| AdjacencyRun.ScheduleAddsUp | primitives/Operator++.i.cuh:424-469 | In any order of the jobs of all launches a vertex receives the counts of the queue's edges it stands for |
| AdjacencyRun.RunCountsEveryEdgeOnce | primitives/Operator++.i.cuh:378-469 | For every interleaving of the binning threads, every order of the jobs of all launches and every integer work factor, every counter ends with the sum over exactly the graph's own edges |
| KernelRun.AddJob | hornetsnest/src/Static/TriangleCounting/triangle2.cu:78-123 | One call of the operator and its atomic addition: the counters then hold what the job adds beside what they held |
| KernelRun.BoxOfThread | primitives/Operator++.i.cuh:109-197 | The box that a thread of a block emits in a round is the piece of the merge path that its job in the grid is to intersect |
| KernelRun.RunBlockRounds | primitives/Operator++.i.cuh:109-197 | A block of the balanced kernel, round by round over its shared memory, for any orders of its threads in the two phases of every round: the counters gain exactly its jobs |
| KernelRun.RunBalanced | primitives/Operator++.i.cuh:97-198 | All blocks of a balanced launch, for any orders in every block and round: the counters gain every lane of every position of the range exactly once |
| KernelRun.RunImbalanced | primitives/Operator++.i.cuh:200-246 | All threads of an imbalanced launch: the same |
| KernelRun.RunLaunch | primitives/Operator++.i.cuh:490-524 | One launch of either kernel on the grid that the shrinking and the rounding up to blocks give it: the counters gain every lane of every position of its range exactly once, and no block has a second round if and only if the launch fits the limit |
| KernelRun.RunLaunches | primitives/Operator++.i.cuh:424-469 | The launches with their shrunken grids, from zero, for any orders in every launch, block and round: the counters hold every lane of every position of every range exactly once, and no block has a second round in a launch that fits the limit |
| TriangleCount.CountTriangles | hornetsnest/src/Static/TriangleCounting/triangle2.cu:130-144 | The total of the counters is the sum of the common neighbours over all edges |
| TriangleCount.CounterOfVertex | primitives/Operator++.i.cuh:120-133 | The counter of x is the sum over the edges into x from lists that are not shorter, and over those out of x to longer lists, loops and sources with fewer than two neighbours left out |
| TriangleRun.ForAllAdjUnions | primitives/Operator++.i.cuh:378-477 | The whole engine: count, sum, scatter under any finishing schedule, plan, launch; each counter ends with the common neighbours of exactly the edges it stands for, for every integer work factor and any orders in every launch, block and round |
| TriangleCount.SkipIsLossless | primitives/Operator++.i.cuh:120-122 | Skipping a source with a single neighbour keeps the count of an edge if and only if the source has a second neighbour or the destination has no edge to itself |
| TriangleCount.SkipCanLose | primitives/Operator++.i.cuh:120-122 | In a graph of two vertices with one self loop the skip loses the one common neighbour |
| TriangleCount.WeightIsCommon | primitives/Operator++.i.cuh:120-122 | Skipping sources with a single neighbour loses nothing in an oriented graph |
| TriangleCount.WeightsCountTriangles | hornetsnest/src/Static/TriangleCounting/triangle2.cu:130-161 | Over the edges of a degree-oriented graph the sum is the number of triangles of the undirected graph |
| EdgeList.AnySortIsSort | xlib/src/Graph/GraphStd.cpp:198-198 | Every sorted rearrangement of an edge list is the same list |
| EdgeList.UniqueIsStrict | xlib/src/Graph/GraphStd.cpp:198-205 | After sorting, removing equal neighbours leaves a strictly sorted list |
| EdgeList.UniqueKeepsElements | xlib/src/Graph/GraphStd.cpp:198-205 | It loses and adds no edge |
| CooToCsr.MirrorInPlace | xlib/src/Graph/GraphStd.cpp:175-190 | The mirror reads each edge before anything is written over it, stays inside the buffer, and leaves the read half followed by its reversed edges without self loops |
| CooToCsr.RelabelInPlace | xlib/src/Graph/GraphStd.cpp:217-230 | Both ends of every edge pass through the shuffle, in place |
| CooToCsr.OrientByDegree | xlib/src/Graph/GraphStd.cpp:254-270 | The new list holds, in order, exactly the edges that run up in (degree, id) |
| CsrRows.CountDegrees | xlib/src/Graph/GraphStd.cpp:236-245 | Each degree is the length of the vertex's row, on the outgoing or the incoming side |
| CsrRows.BuildOffsets | xlib/src/Graph/GraphStd.cpp:333-334 | Each offset is the number of edges with a smaller source |
| CsrRows.Scatter | xlib/src/Graph/GraphStd.cpp:336-351 | The counting sort is stable and complete: row v holds the destinations of v's edges in list order, and the rows fill the edge array |
| CsrRows.OffsetsEnd | xlib/src/Graph/GraphStd.cpp:333-334 | The last offset is the number of edges |
| CsrRows.SortedRows | xlib/src/Graph/GraphStd.cpp:333-341 | Rows of a strictly sorted list are strictly increasing, as the intersection needs them |
| CsrRows.RowOfSort | xlib/src/Graph/GraphStd.cpp:306-310 | Sorting after the degrees are counted changes no degree and only permutes within rows |
| CsrRows.IncomingIsTranspose | xlib/src/Graph/GraphStd.cpp:343-351 | a stands in b's incoming row exactly as often as b in a's outgoing row |
| GraphStd.GraphStd.constructor | xlib/src/Graph/GraphStd.cpp:95-158 | Allocation doubles the edge buffer where a mirror follows and starts with zero degrees |
| GraphStd.GraphStd.Prepare | xlib/src/Graph/GraphStd.cpp:175-230 | Mirror, duplicate removal and shuffle, each under its own condition, in this order |
| GraphStd.GraphStd.CountAndOrient | xlib/src/Graph/GraphStd.cpp:236-304 | Orientation uses the degrees of the full list and leaves degrees that count the reduced one |
| GraphStd.GraphStd.COOtoCSR | xlib/src/Graph/GraphStd.cpp:174-360 | The whole conversion: both sides are the compressed rows of the final edge list and its transpose, and the degrees agree with them |
| ConvertedRows.FinalIsSorted | xlib/src/Graph/GraphStd.cpp:175-310 | Where sorting is asked for, or duplicates are removed without a shuffle, the final list is sorted by source and then by destination |
| ConvertedRows.RowsAreSorted | xlib/src/Graph/GraphStd.cpp:306-351 | Then every row of the arrays is in ascending order, on either side, for all other options |
| ConvertedRows.RowsKeepFileOrder | xlib/src/Graph/GraphStd.cpp:175-351 | Without either, every row has the neighbours in the order of the file: where lines lead, then where lines come from, under the new labels and as far as the orientation keeps them |
| DegreeOrientation.InClean | xlib/src/Graph/GraphStd.cpp:175-206 | After mirroring an edge is there if and only if one of its directions was read; where duplicates are removed the list is strictly sorted |
| DegreeOrientation.UndirectedRows | xlib/src/Graph/GraphStd.cpp:175-206 | b is in row a if and only if (a,b) or (b,a) was read; rows are symmetric, and strictly increasing where duplicates are removed |
| DegreeOrientation.OrientedIsAcyclic | xlib/src/Graph/GraphStd.cpp:260-268 | No path of oriented edges returns to its start |
| DegreeOrientation.OneDirectionSurvives | xlib/src/Graph/GraphStd.cpp:260-268 | Of a symmetric list exactly one direction of every edge that is not a loop survives, and no loop |
| DegreeOrientation.SurvivorsRunUp | xlib/src/Graph/GraphStd.cpp:260-268 | An edge of the list survives if and only if it leads to a higher degree, or to a larger id at the same degree |
| DegreeOrientation.TieKeepsLargerEnd | xlib/src/Graph/GraphStd.cpp:267-267 | Of the two directions of an edge between equal degrees the one to the larger id survives |
| DegreeOrientation.HalfOfTheEdgesSurvive | xlib/src/Graph/GraphStd.cpp:260-270 | Twice the new number of edges plus the loops is the old number |
| DegreeOrientation.OutDegreeIsSmall | xlib/src/Graph/GraphStd.cpp:260-270 | An out-degree d after the orientation satisfies d * d <= the old number of edges |
| EdgeCounts.PreparedCopies | xlib/src/Graph/GraphStd.cpp:175-230 | An edge stands in the prepared list as often as the lines of the file put it there, also under the shuffle |
| EdgeCounts.OrientedOnce | xlib/src/Graph/GraphStd.cpp:175-270 | Where nothing is removed, the oriented list holds no edge twice if and only if no two lines join the same two different vertices |
| LoadedTriangles.UndirectedIsWhatWasRead | xlib/src/Graph/GraphStd.cpp:175-230 | The counted graph joins two vertices exactly if an edge between them was read: for directed files, files that store an undirected graph one edge a line, and files that list both directions, also under the shuffle |
| LoadedTriangles.FinalIsStrict | xlib/src/Graph/GraphStd.cpp:174-310 | The final edge list, where it is left sorted, is strictly sorted if and only if duplicates are removed or the file names no edge twice |
| LoadedTriangles.FinalOrients | xlib/src/Graph/GraphStd.cpp:174-341 | The converted rows are sorted and hold exactly the edges that run up in the degree order, for all three kinds of files |
| LoadedTriangles.CountsTrianglesOfTheFile | hornetsnest/src/Static/TriangleCounting/triangle2.cu:130-161 | From the edges that were read to the final sum: the number of triangles, for every interleaving of the binning threads, every order of the jobs and every integer work factor |
| FileToTriangles.ReadRows | xlib/src/Graph/GraphStd.cpp:333-341 | The slices between consecutive offsets are the rows of the final edge list |
| FileToTriangles.CountTrianglesOfFile | hornetsnest/src/Static/TriangleCounting/triangle2.cu:130-161 | Conversion and engine as one program: from the edges of the file to the number of triangles of the undirected graph they describe, for any shuffle and any integer work factor |
| Dimacs.WriteDimacs10 | xlib/src/Graph/GraphStd.cpp:440-456 | The writer produces the text `Written`: header, one line a vertex, single blanks between neighbours counted from one |
| Dimacs.GetDimacs10Header | xlib/src/Graph/GraphBase.cpp:267-292 | Direction, edge count and remaining text for each flag: none, "100", "0", "1", any other word; a missing count is an error; without a flag the line end is left unread |
| Dimacs.ReadDimacs10 | xlib/src/Graph/GraphStdRead.cpp:156-177 | The reader fills a buffer of the announced size from the front, line by line and word by word, and leaves the rest zero; a word that is no number and more edges than announced are errors |
| DimacsWords.CommentIsSkipped | xlib/src/Graph/GraphBase.cpp:268-269 | A line in front of the header that begins with a percent sign changes nothing |
| DimacsWords.OtherStartIsMalformed | xlib/src/Graph/GraphBase.cpp:268-272 | A text that begins with anything but a percent sign, a digit or white space is malformed |
| DimacsWords.SecondCountIsNeeded | xlib/src/Graph/GraphBase.cpp:271-272 | So is one in which no number follows the first one |
| DimacsWords.SpaceIsSkipped | xlib/src/Graph/GraphBase.cpp:268-272 | Any white space in front of the counts changes nothing |
| DimacsWords.FlagMeans | xlib/src/Graph/GraphBase.cpp:275-290 | What every third word of the header means for direction and number of edges, and that the text goes on in the next line |
| DimacsWords.WordIsToken | xlib/src/Graph/GraphStdRead.cpp:164-171 | A line is cut at blanks, and only there |
| DimacsWords.SignedNumber | xlib/src/Graph/GraphStdRead.cpp:166-166 | A word is the number it begins with, with or without a sign |
| DimacsWords.NotANumberAtAll | xlib/src/Graph/GraphStdRead.cpp:166-166 | Without a digit, behind a sign or in its place, a word is no number |
| DimacsWords.LineMeans | xlib/src/Graph/GraphStdRead.cpp:164-171 | What a line becomes, in all cases: edges to its numbers less one, or the error of the first word that is no number or no longer fits |
| DimacsWords.MissingLinesAreEmpty | xlib/src/Graph/GraphStdRead.cpp:159-172 | Lines that the text does not have name no edges |
| DimacsWords.RowIsWritten | xlib/src/Graph/GraphStd.cpp:447-453 | A written line is the neighbours counted from one |
| DimacsWords.RowHasSingleBlanks | xlib/src/Graph/GraphStd.cpp:447-453 | with one blank between any two of them and none elsewhere |
| Dimacs.WrittenIsReadBack | xlib/src/Graph/GraphStdRead.cpp:156-177 | Any well-formed compressed rows, empty rows included, are read back entry by entry |
| Dimacs.UnflaggedTextIsReadOneLineLate | xlib/src/Graph/GraphBase.cpp:276-279 | Without the flag every list moves to the next vertex, the last is lost and zero edges fill the buffer; the text is read back if and only if it has no edges or only one vertex |
| DimacsGraph.EntriesAreCsr | xlib/src/Graph/GraphStd.cpp:333-341 | Well-formed rows are the compressed rows of their own entries |
| DimacsGraph.CsrIsUnique | xlib/src/Graph/GraphStd.cpp:333-341 | An edge list has only one form in compressed rows |
| DimacsGraph.WriteThenRead | xlib/src/Graph/GraphStd.cpp:440-456 | Writing, reading as directed and converting gives back identical offsets, edges and degrees |
| Rcm.SkipKeepsInv | externals/cub-1.8.0/experimental/sparse_matrix.h:1155-1158 | Taking an already labelled vertex out of the queue keeps the invariant |
| Rcm.TakeKeepsInv | externals/cub-1.8.0/experimental/sparse_matrix.h:1158-1180 | Labelling a vertex and queueing its sorted row keeps the invariant: labels follow (parent label, degree, id), and every neighbour of a labelled vertex is settled or waits |
| CsrMatrix.LabelFrom | externals/cub-1.8.0/experimental/sparse_matrix.h:1150-1181 | One run of the outer loop terminates and leaves a finished run: consecutive labels from the seed, closed under neighbours |
| CsrMatrix.Begin | externals/cub-1.8.0/experimental/sparse_matrix.h:1149-1150 | The seed is the unlabelled vertex of lowest degree, then lowest id |
| CsrMatrix.SortStretch | externals/cub-1.8.0/experimental/sparse_matrix.h:1165-1170 | Sorting one row by degree permutes that row and leaves the others alone |
| CsrMatrix.RcmLabels | externals/cub-1.8.0/experimental/sparse_matrix.h:1115-1195 | The labelling terminates with a Cuthill-McKee order by in-degree and changes the matrix only by permuting within rows |
| RcmOrder.EveryLabelIsUsed | externals/cub-1.8.0/experimental/sparse_matrix.h:1145-1182 | The labels are a bijection onto 0..n-1 |
| RcmOrder.SeedComesFirst | externals/cub-1.8.0/experimental/sparse_matrix.h:1082-1150 | No vertex that is unlabelled when a run begins has a smaller degree than its seed, nor the same degree and a smaller id |
| RcmOrder.ParentIsEarliest | externals/cub-1.8.0/experimental/sparse_matrix.h:1153-1181 | A vertex is labelled from the first labelled vertex of its run with an edge to it |
| RcmOrder.LabelsFollowDegrees | externals/cub-1.8.0/experimental/sparse_matrix.h:1082-1181 | Within a run the labels increase exactly with the label of the parent, then the degree, then the id |
| RcmOrder.RunIsWhatTheSeedReaches | externals/cub-1.8.0/experimental/sparse_matrix.h:1147-1182 | For any pattern, a run labels exactly what its seed reaches among the vertices not labelled before |
| RcmOrder.DepthIsDistance | externals/cub-1.8.0/experimental/sparse_matrix.h:1153-1181 | The number of parent steps from the seed is the distance from the seed |
| RcmOrder.LabelsFollowDistance | externals/cub-1.8.0/experimental/sparse_matrix.h:1153-1181 | Within a run a larger label never has a smaller distance from the seed |
| RcmOrder.RunsAreConnectedComponents | externals/cub-1.8.0/experimental/sparse_matrix.h:1147-1182 | For a symmetric pattern the label intervals are exactly the connected components |
| RelabelMatrix.InitCsrRelabel | externals/cub-1.8.0/experimental/sparse_matrix.h:253-278 | The tuples are the entries with both ends relabelled, sorted by row and column |
| RelabelMatrix.FromCoo | externals/cub-1.8.0/experimental/sparse_matrix.h:947-1003 | The rebuilt rows are well formed and hold exactly the tuples, with empty leading, middle and trailing rows |
| MatrixLayout.PermutedRowsKeepEntries | externals/cub-1.8.0/experimental/sparse_matrix.h:1165-1170 | Permuting columns within rows permutes the positions of the matrix |
| RelabelMatrix.SparseMatrix.RcmRelabel | externals/cub-1.8.0/experimental/sparse_matrix.h:1202-1240 | The matrix stays valid; its positions are exactly the old ones under the label bijection, sorted; a matrix that is not square is left alone |
| Srtf.FindMin | xlib/test/Scheduling/Scheduling.cpp:91-107 | The first in queue order of the shortest bursts below the bound among the processes that have arrived, or none if there is none |
| Srtf.Select | xlib/test/Scheduling/Scheduling.cpp:124-137 | The choice follows the rule `ChoiceOk`, and the process leaves the queue that held it |
| Srtf.InsertKeepsOrder | xlib/test/Scheduling/Scheduling.cpp:155-155 | A preempted process goes behind all that need no longer, so equal remaining times keep the order in which they were cut |
| Srtf.Round | xlib/test/Scheduling/Scheduling.cpp:123-163 | A round appends one lawful slice, keeps the queues equal to the unfinished processes, and lowers the termination measure |
| Srtf.SRTF | xlib/test/Scheduling/Scheduling.cpp:111-164 | The scheduler terminates, its log obeys the rules and has ended, and the slices of every process add up to exactly its burst |
| SrtfLog.LogIsFixed | xlib/test/Scheduling/Scheduling.cpp:123-163 | The rules leave no choice, ties included: of two logs of one load the shorter is the beginning of the longer |
| SrtfLog.EndedIsWhole | xlib/test/Scheduling/Scheduling.cpp:123-163 | A finished log is the only one: every lawful log is a beginning of it, and every finished one equals it |
| SrtfTies.NewGoesFirst | xlib/test/Scheduling/Scheduling.cpp:91-137 | If a process that has not run has arrived, one of those runs: the shortest burst, then the earliest arrival, then the smallest number |
| SrtfTies.CutFirstGoesFirst | xlib/test/Scheduling/Scheduling.cpp:128-132 | Otherwise one that was cut runs: the least time left, then the one that was cut first |
| SrtfTies.FirstComeFirstServed | xlib/test/Scheduling/Scheduling.cpp:91-163 | In every run a process that arrives first, by time or else by number, and needs no longer than another has its first slice first |
| SrtfTies.UncutRunsToTheEnd | xlib/test/Scheduling/Scheduling.cpp:145-160 | If nobody who needs less than is left arrives by the requested end, the slice takes all that is left |
| SrtfTies.CutAtTheShortest | xlib/test/Scheduling/Scheduling.cpp:91-155 | Otherwise it ends at the arrival of the shortest such process, the first one of several |
| SrtfTies.RunsAgainIffCut | xlib/test/Scheduling/Scheduling.cpp:147-155 | In a finished run a process has a later slice if and only if the slice was cut, even at its very end |
| SrtfLog.SlicesDoNotOverlap | xlib/test/Scheduling/Scheduling.cpp:139-162 | Slices never overlap and none starts before its process arrives |
| SrtfLog.IdleMeansNothingToDo | xlib/test/Scheduling/Scheduling.cpp:139-139 | The clock jumps only when everything that arrives before the jump ends is finished |
| SrtfShortest.ShortestUnlessNewIsLonger | xlib/test/Scheduling/Scheduling.cpp:124-136 | The choice is the shortest remaining time if and only if no new process waits or some new one needs no longer than any preempted one |
| SrtfShortest.ShortestThroughoutIff | xlib/test/Scheduling/Scheduling.cpp:123-163 | For every slice of positive length: the running process has the shortest remaining time at every moment if and only if the condition at the choice holds and nobody who needs less than is left then arrives while it runs |
| SrtfShortest.AlwaysShortestIff | xlib/test/Scheduling/Scheduling.cpp:123-163 | The same for all slices of a run |
| SrtfShortest.UncutMeetsArrivals | xlib/test/Scheduling/Scheduling.cpp:145-160 | A slice that is not cut meets the condition on arrivals |
| SrtfShortest.AllPresentIsShortest | xlib/test/Scheduling/Scheduling.cpp:111-164 | If every process is there from the beginning, the shortest remaining time runs at every moment |
| SrtfRuns.NotAlwaysShortest | xlib/test/Scheduling/Scheduling.cpp:128-136 | After two slices of a concrete run the scheduler must take a process that needs 20 while one that needs 9 waits |
| SrtfRuns.ItsLogIsProduced | xlib/test/Scheduling/Scheduling.cpp:123-163 | That run is what the scheduler produces: the only finished log of its load |
| SrtfRuns.EveryChoiceIsShortest | xlib/test/Scheduling/Scheduling.cpp:145-155 | In a second run all four choices are the shortest remaining time |
| SrtfRuns.CutLateIsProduced | xlib/test/Scheduling/Scheduling.cpp:123-163 | The scheduler produces this run and no other |
| SrtfRuns.ButNotEveryMoment | xlib/test/Scheduling/Scheduling.cpp:145-155 | In its first slice a process with 9 units left runs on at time 1, when another that needs 2 has arrived |
| SrtfRuns.ArrivalAtTheStartCounts | xlib/test/Scheduling/Scheduling.cpp:139-155 | After a jump of the clock the process that starts need not be the shortest of those that arrive at that very moment, so arrivals at the start belong to the condition |
| RingQueue.RingQueue.Insert | xlib/include/Host/Classes/impl/Queue.i.hpp:84-90 | Appends to the queue's contents, across the wrap-around |
| RingQueue.RingQueue.Extract | xlib/include/Host/Classes/impl/Queue.i.hpp:167-173 | Returns and removes the oldest entry |
| RingQueue.RingQueue.Pop | xlib/include/Host/Classes/impl/Queue.i.hpp:199-205 | Returns and removes the newest entry |
| RingQueue.RingQueue.Tail | xlib/include/Host/Classes/impl/Queue.i.hpp:155-158 | Returns the newest entry |
| RingQueue.RingQueue.At | xlib/include/Host/Classes/impl/Queue.i.hpp:115-120 | Returns the entry at a place counted from the oldest |
| Bfs.VisitKeepsInv | xlib/test/GraphExpTest/graph.cpp:48-55 | Looking at one edge keeps the invariant: queue in distance order over two levels, walks of the recorded length, no vertex inserted twice |
| Bfs.DequeueKeepsInv | xlib/test/GraphExpTest/graph.cpp:47-47 | So does taking the oldest vertex out |
| Bfs.SearchIsExact | xlib/test/GraphExpTest/graph.cpp:36-56 | With an empty queue the marks are exactly the reachable vertices and the distances are shortest |
| Bfs.Search | xlib/test/GraphExpTest/graph.cpp:36-56 | The search terminates, marks exactly what 0 reaches with its distance, inserts no vertex twice and never overruns a queue of the graph's size |
| MergePath.Merge | xlib/include/Host/impl/Algorithm.i.hpp:179-192 | The loops write the left-first merge |
| MergePath.InplaceMerge | xlib/include/Host/impl/Algorithm.i.hpp:196-202 | The backward loops never overwrite an element still needed and write the backward merge |
| MergePath.MergedKeepsElements | xlib/include/Host/impl/Algorithm.i.hpp:179-192 | The merge holds the elements of both lists |
| MergePath.MergedIsSorted | xlib/include/Host/impl/Algorithm.i.hpp:179-192 | The merge of sorted lists is sorted |
| MergePath.MergedIsStable | xlib/include/Host/impl/Algorithm.i.hpp:179-192 | Equal keys keep their order, those of the left list first |
| MergePath.BackwardIsForward | xlib/include/Host/impl/Algorithm.i.hpp:196-202 | The backward merge gives the same stable result |
| MergePath.MergePathSearch | xlib/include/Host/impl/Algorithm.i.hpp:329-352 | For a diagonal of the grid the search returns a splitting cut on it; also what it returns for diagonals outside |
| MergePath.SplitCutsMerge | xlib/include/Host/impl/Algorithm.i.hpp:329-352 | A splitting cut divides the merge into the merges of its two sides |
| MergePath.SearchFindsCut | xlib/include/Host/impl/Algorithm.i.hpp:329-352 | The elements before the cut are exactly the first d outputs of the merge, and the cut is unique |
| MergePath.PiecesFormMerge | xlib/include/Host/impl/Algorithm.i.hpp:329-352 | Merging between any increasing diagonals and joining the pieces gives the whole merge |
| HalfFloat.HalfFromFloat | externals/cub-1.8.0/test/half.h:66-115 | Every binary32 word becomes the correctly rounded half, ties to even, with subnormals, carry into the exponent, overflow to infinity and the canonical NaN |
| HalfFloat.NearestIsUnique | externals/cub-1.8.0/test/half.h:106-110 | The rounding rule has only one result |
| HalfFloat.FloatFromHalf | externals/cub-1.8.0/test/half.h:126-176 | Every half becomes the float of exactly the same value and sign |
| HalfFloat.ScalesAgree | externals/cub-1.8.0/test/half.h:66-176 | The values of the two formats are on one scale: a normal half, and the first number beyond them, is the float with the same fraction and an exponent 112 larger |
| HalfFloat.BetweenNeighbours | externals/cub-1.8.0/test/half.h:84-110 | Between two neighbouring halves the nearer one is taken, and half-way the even one |
| HalfFloat.Overflow | externals/cub-1.8.0/test/half.h:84-110 | Infinity begins exactly half-way between the largest half and the first number beyond |
| HalfFloat.Underflow | externals/cub-1.8.0/test/half.h:84-115 | Zero ends exactly half-way to the smallest half |
| HalfFloat.SpecialFloats | externals/cub-1.8.0/test/half.h:72-84 | Infinities keep their sign; every NaN, of either sign, becomes the same word |
| HalfFloat.SpecialHalves | externals/cub-1.8.0/test/half.h:163-173 | The same from half to float |
| HalfFloat.Normalize | externals/cub-1.8.0/test/half.h:143-153 | The shifting loop terminates and keeps the value of a subnormal |
| HalfFloat.RoundTrip | externals/cub-1.8.0/test/half.h:66-176 | Half to float to half is the identity except on NaNs, signed zeros and infinities included |
| HalfFloat.NaNsAreCanonical | externals/cub-1.8.0/test/half.h:166-169 | Every NaN becomes the canonical one |
| WeightedDraw.WeightedRandomGenerator.constructor | xlib/include/Host/impl/Numeric.i.hpp:642-651 | The table holds the sums of all prefixes of the weights |
| WeightedDraw.WeightedRandomGenerator.Get | xlib/include/Host/impl/Numeric.i.hpp:680-684 | A draw below the total yields the index that owns it, of positive weight, although the search leaves out the last table entry |
| WeightedDraw.DrawsFollowTheWeights | xlib/include/Host/impl/Numeric.i.hpp:673-684 | Exactly weights[i] draws belong to index i |
| WeightedDraw.OwnerIsUnique | xlib/include/Host/impl/Numeric.i.hpp:680-684 | No draw belongs to two indices |
| WeightedDraw.OwnersFollowDraws | xlib/include/Host/impl/Numeric.i.hpp:680-684 | Larger draws belong to later indices |
| WeightedDraw.EveryDrawHasAnOwner | xlib/include/Host/impl/Numeric.i.hpp:680-684 | Every draw below the total belongs to one |
| Statistics.Radicand | xlib/include/Host/impl/Statistics.i.hpp:54-61 | The number under the square root is half the sum of the squared differences of all pairs of values: never negative, and zero if and only if all values are equal |
| Statistics.GiniCoefficient | xlib/include/Host/impl/Statistics.i.hpp:65-86 | The code's difference of fractions over the sorted values, cut off at zero |
| Statistics.GiniIsMeanDifference | xlib/include/Host/impl/Statistics.i.hpp:69-86 | For any values the exact coefficient is the sum of the differences of all pairs over 2 n times their sum |
| Statistics.GiniIsBetween | xlib/include/Host/impl/Statistics.i.hpp:69-86 | For non-negative values with a positive sum the exact coefficient lies in [0, (n-1)/n] |
| Statistics.GiniAtTheEnds | xlib/include/Host/impl/Statistics.i.hpp:69-86 | It is zero exactly when all values are equal, and (n-1)/n exactly when one value holds the whole sum |

## Left out

- KernelRun.RunBlockRounds: where a block has a second round, that is on a grid that was halved, its rounds run one
  after the other, as a second barrier would order them; LaunchOverlap.OneBarrierIff says which launches do not need
  it. A group that skips its item still takes part in the barrier.
- RoundOverlap.RunOverlap: lets any two threads of a block run apart; that threads of one warp may run in step, which
  depends on the device, is not modelled.
- Dimacs.GetDimacs10Header: signs in front of the header counts, and the stream state after a failed read, are one
  error (`Malformed`); texts hold no NUL characters.
- DimacsGraph.WriteThenRead: also covers graphs without vertices or edges, which the source's allocation refuses.
- TriangleRun.ForAllAdjUnions: runs launch by launch, block by block or thread by thread, and visits the edges in the
  order of the edge list; all other orders are covered by AdjacencyRun.RunCountsEveryEdgeOnce.
- LoadedTriangles.FinalOrients: leaves out conversions that do not sort the rows (a shuffled graph, or a file that is
  not mirrored and cleaned, without the sort option); the intersection needs sorted rows.
- RelabelMatrix.SparseMatrix.RcmRelabel: the values of the matrix; the source sorts columns within a row without
  moving their values, so only positions are stated.
- Srtf.FindMin: the end of the queue is tested before the entry is read, and an entry is read before it is erased;
  the source does both the other way round.
- WeightedDraw.WeightedRandomGenerator.Get: the random source is a parameter; floating-point weights are not modelled.
- Statistics.GiniCoefficient: over exact numbers, not float or double; empty input and a sum of zero divide by zero in
  the source.
- Machine-integer width of vertex ids, edge counts, thread ids and sums; all are mathematical integers, except in
  `HalfFloat`, where words have their width, and the bit counts of the bin computation.
- The load balancers and two-level queues that drive the binning passes are assumed to visit each edge once.
- The functor's other uses: only the triangle operator is modelled.
- CUDA allocation, copies, streams, timers, printing.
- The `_in_*` arrays of undirected graphs, which are the `_out_*` arrays under another name.
- Random removal of edges from undirected to directed graphs (`GraphStd.cpp`, lines 207-215) and removal of
  singletons (lines 312-331): they do not do what they are for.
- Weighted graphs, the other file formats, and the first-occurrence relabelling of the SNAP reader.
- Grid generators of `sparse_matrix.h`, non-preemptive scheduling, and the LIFO queue's own methods beyond `Pop`.
- Plain binary searches and bit helpers of `Algorithm.i.hpp` and `Numeric.i.hpp`, floating-point statistics: easy
  members only.
