/**
 * The launches as programs (primitives/Operator++.i.cuh, lines 97-246 and 490-524, and
 * hornetsnest/src/Static/TriangleCounting/triangle2.cu, lines 75-125).  A launch of the balanced kernel runs block
 * by block: in every round of its loop a block loads one item per thread group, runs both phases over its shared
 * memory, and hands the box that a thread has emitted to the operator.  A launch of the imbalanced kernel runs
 * thread by thread.  All of them add to the counters of the vertices.
 */
module KernelRun {
  import opened AdjacencyRun
  import opened AdjacencyUnions
  import opened BalancedKernel
  import opened BlockJobs
  import opened EdgeList
  import opened EngineConstants
  import opened LaunchJobs
  import opened Sums
  import opened Wrappers
  import Arith
  import LaunchPlan

  // ---------------------------------------------------------------------------------------------
  // The counters

  /** The counters hold what the jobs done so far have added. */
  ghost predicate Counted(adj: Adjacency, q: seq<Edge>, triPerVertex: array<nat>, done: seq<Job>)
    reads triPerVertex
  {
    && triPerVertex.Length == |adj|
    && forall x :: 0 <= x < |adj| ==> triPerVertex[x] == SumOf(done, JobAdder(adj, q, x))
  }

  /** Whether the operator is called with a box that the balanced kernel has to provide. */
  predicate NeedsBox(adj: Adjacency, q: seq<Edge>, j: Job)
    requires JobOk(adj, q, j)
  {
    j.kernel == LaunchPlan.Balanced && !Avoided(adj, q[j.pos])
  }

  /** One thread's work on one queue item, and the atomic addition of its count. */
  method AddJob(adj: Adjacency, q: seq<Edge>, j: Job, box: Option<Box>, triPerVertex: array<nat>,
                ghost done: seq<Job>)
    requires SortedAdjacency(adj) && JobOk(adj, q, j) && Counted(adj, q, triPerVertex, done)
    requires NeedsBox(adj, q, j) ==> box == LaneBox(EdgePair(adj, q[j.pos]), j.lanes, j.lane)
    modifies triPerVertex
    ensures Counted(adj, q, triPerVertex, done + [j])
  {
    var e := q[j.pos];
    var count := 0;
    if j.kernel == LaunchPlan.Imbalanced {
      count := RunImbalancedLane(adj, e, j.lanes, j.lane);
    } else if !Avoided(adj, e) {
      count := RunBalancedLane(adj, e, j.lanes, j.lane, box);
    }
    var u := UVertex(adj, e);
    forall x | 0 <= x < |adj|
      ensures SumOf(done + [j], JobAdder(adj, q, x)) == SumOf(done, JobAdder(adj, q, x)) + JobAdds(adj, q, j, x)
    {
      SumOfExtension(done, j, JobAdder(adj, q, x));
    }
    triPerVertex[u] := triPerVertex[u] + count;
  }

  // ---------------------------------------------------------------------------------------------
  // The balanced kernel

  /** A launch of the balanced kernel on a grid of `blocks` blocks: `groups` whole thread groups. */
  predicate BalancedGrid(adj: Adjacency, q: seq<Edge>, l: LaunchPlan.Launch, groups: nat, blocks: nat) {
    && LaunchOk(adj, q, l) && l.kernel == LaunchPlan.Balanced
    && BLOCK_SIZE % l.lanes == 0 && groups > 0 && blocks * BLOCK_SIZE == groups * l.lanes
  }

  /** The item at a queue position: none past the end of the range or for an edge that is skipped. */
  function Item(adj: Adjacency, q: seq<Edge>, l: LaunchPlan.Launch, pos: nat): Option<Pair>
    requires LaunchOk(adj, q, l) && l.start <= pos
  {
    if pos < l.end && !Avoided(adj, q[pos]) then Some(EdgePair(adj, q[pos])) else None
  }

  /** The position that group g of block b looks at in round k. */
  function GroupPos(l: LaunchPlan.Launch, groups: nat, b: nat, k: nat, g: nat): (pos: nat)
    requires l.lanes > 0
    ensures l.start <= pos
  {
    JobInRound(l, groups, b * BLOCK_SIZE + g * l.lanes, k).pos
  }

  /** What the groups of block b work on in round k. */
  function BlockItems(adj: Adjacency, q: seq<Edge>, l: LaunchPlan.Launch, groups: nat, b: nat, k: nat):
        seq<Option<Pair>>
    requires LaunchOk(adj, q, l)
  {
    Arith.DivIsNatural(BLOCK_SIZE, l.lanes);
    seq(BLOCK_SIZE / l.lanes, g requires 0 <= g => Item(adj, q, l, GroupPos(l, groups, b, k, g)))
  }

  lemma {:induction false} ItemIsRunnable(adj: Adjacency, q: seq<Edge>, l: LaunchPlan.Launch, pos: nat)
    requires LaunchOk(adj, q, l) && l.kernel == LaunchPlan.Balanced && l.start <= pos
    ensures Item(adj, q, l, pos).Some? ==> Runnable(Item(adj, q, l, pos).value, l.lanes)
  {
    assert pos < l.end ==> CanRun(adj, q[pos], l.kernel, l.lanes);
  }

  lemma {:induction false} GroupsAreWhole(lanes: nat)
    requires lanes > 0 && BLOCK_SIZE % lanes == 0
    ensures (BLOCK_SIZE / lanes) * lanes == BLOCK_SIZE
  {
  }

  lemma {:induction false} ItemsAreWellFormed(adj: Adjacency, q: seq<Edge>, l: LaunchPlan.Launch, groups: nat,
          blocks: nat, b: nat, k: nat)
    requires BalancedGrid(adj, q, l, groups, blocks)
    ensures WellFormedBlock(BlockItems(adj, q, l, groups, b, k), l.lanes)
  {
    var items := BlockItems(adj, q, l, groups, b, k);
    GroupsAreWhole(l.lanes);
    forall g | 0 <= g < |items| && items[g].Some? ensures Runnable(items[g].value, l.lanes) {
      ItemIsRunnable(adj, q, l, GroupPos(l, groups, b, k, g));
    }
  }

  /** A thread of a block belongs to the same group, and has the same lane, in the block and in the grid. */
  lemma {:induction false} ThreadOfBlock(lanes: nat, b: nat, t: nat)
    requires 0 < lanes && BLOCK_SIZE % lanes == 0
    ensures (b * BLOCK_SIZE + t) / lanes == (b * BLOCK_SIZE + (t / lanes) * lanes) / lanes
    ensures (b * BLOCK_SIZE + t) % lanes == t % lanes
  {
    var perBlock, g, lane := BLOCK_SIZE / lanes, t / lanes, t % lanes;
    assert BLOCK_SIZE == perBlock * lanes;
    assert b * BLOCK_SIZE == (b * perBlock) * lanes;
    assert t == g * lanes + lane;
    assert (b * perBlock + g) * lanes == (b * perBlock) * lanes + g * lanes;
    Arith.DivModUnique(b * BLOCK_SIZE + t, lanes, b * perBlock + g, lane);
    Arith.DivModUnique(b * BLOCK_SIZE + g * lanes, lanes, b * perBlock + g, 0);
  }

  lemma {:induction false} JobOfGroup(l: LaunchPlan.Launch, groups: nat, b: nat, k: nat, t: nat, g: nat, lane: nat)
    requires l.lanes > 0 && BLOCK_SIZE % l.lanes == 0 && g == t / l.lanes && lane == t % l.lanes
    ensures JobInRound(l, groups, b * BLOCK_SIZE + t, k) == Job(GroupPos(l, groups, b, k, g), lane, l.lanes, l.kernel)
  {
    ThreadOfBlock(l.lanes, b, t);
  }

  /** The piece of an item that belongs to a lane is the piece of the lane's job. */
  lemma {:induction false} BoxOfJob(adj: Adjacency, q: seq<Edge>, l: LaunchPlan.Launch, pos: nat, lane: nat)
    requires LaunchOk(adj, q, l) && l.kernel == LaunchPlan.Balanced && l.start <= pos < l.end && lane < l.lanes
    requires Item(adj, q, l, pos).Some? ==> Runnable(Item(adj, q, l, pos).value, l.lanes)
    ensures var j := Job(pos, lane, l.lanes, l.kernel);
      && JobOk(adj, q, j)
      && GroupBox(Item(adj, q, l, pos), l.lanes, lane)
         == if NeedsBox(adj, q, j) then LaneBox(EdgePair(adj, q[pos]), l.lanes, lane) else None
  {
    assert CanRun(adj, q[pos], l.kernel, l.lanes);
  }

  /** The box that thread t of block b emits in round k is the piece of its job. */
  lemma {:induction false} BoxOfThread(adj: Adjacency, q: seq<Edge>, l: LaunchPlan.Launch, groups: nat,
          blocks: nat, b: nat, k: nat, t: nat)
    requires BalancedGrid(adj, q, l, groups, blocks) && t < BLOCK_SIZE
    requires WellFormedBlock(BlockItems(adj, q, l, groups, b, k), l.lanes)
    requires JobInRound(l, groups, b * BLOCK_SIZE + t, k).pos < l.end
    ensures var j := JobInRound(l, groups, b * BLOCK_SIZE + t, k);
      && JobOk(adj, q, j)
      && ThreadBox(BlockItems(adj, q, l, groups, b, k), l.lanes, t)
         == if NeedsBox(adj, q, j) then LaneBox(EdgePair(adj, q[j.pos]), j.lanes, j.lane) else None
  {
    Arith.DivIsNatural(t, l.lanes);
    var g, lane := t / l.lanes, t % l.lanes;
    ThreadIsInGroup(BlockItems(adj, q, l, groups, b, k), l.lanes, t);
    JobOfGroup(l, groups, b, k, t, g, lane);
    var pos := GroupPos(l, groups, b, k, g);
    ItemIsRunnable(adj, q, l, pos);
    BoxOfJob(adj, q, l, pos, lane);
  }

  /** The second half of a round: the threads hand their boxes to the operator. */
  method AddRound(adj: Adjacency, q: seq<Edge>, l: LaunchPlan.Launch, groups: nat, ghost blocks: nat, b: nat, k: nat,
                  boxes: seq<Option<Box>>, triPerVertex: array<nat>, ghost done: seq<Job>)
    requires SortedAdjacency(adj) && BalancedGrid(adj, q, l, groups, blocks)
    requires WellFormedBlock(BlockItems(adj, q, l, groups, b, k), l.lanes) && |boxes| == BLOCK_SIZE
    requires forall t: nat :: t < BLOCK_SIZE ==>
               boxes[t] == ThreadBox(BlockItems(adj, q, l, groups, b, k), l.lanes, t)
    requires Counted(adj, q, triPerVertex, done)
    modifies triPerVertex
    ensures Counted(adj, q, triPerVertex, done + RoundJobs(l, groups, b, k, BLOCK_SIZE))
  {
    assert done + RoundJobs(l, groups, b, k, 0) == done;
    for t := 0 to BLOCK_SIZE
      invariant Counted(adj, q, triPerVertex, done + RoundJobs(l, groups, b, k, t))
    {
      var j := JobInRound(l, groups, b * BLOCK_SIZE + t, k);
      ghost var before := done + RoundJobs(l, groups, b, k, t);
      if j.pos < l.end {
        BoxOfThread(adj, q, l, groups, blocks, b, k, t);
        AddJob(adj, q, j, boxes[t], triPerVertex, before);
        assert before + [j] == done + RoundJobs(l, groups, b, k, t + 1);
      } else {
        assert before == done + RoundJobs(l, groups, b, k, t + 1);
      }
    }
  }

  /** The orders in which the threads of a block run the two phases of one round. */
  datatype PhaseOrders = PhaseOrders(first: seq<nat>, second: seq<nat>) {
    predicate Valid() {
      IsSchedule(first, BLOCK_SIZE) && IsSchedule(second, BLOCK_SIZE)
    }
  }

  /** Orders for every block and every round of a launch. */
  ghost predicate AreOrders(orders: (nat, nat) -> PhaseOrders) {
    forall b: nat, k: nat :: orders(b, k).Valid()
  }

  /** One round of a block: load the items, run both phases over the shared memory, hand over the boxes. */
  method RunRound(adj: Adjacency, q: seq<Edge>, l: LaunchPlan.Launch, groups: nat, ghost blocks: nat, b: nat, k: nat,
                  memory: BlockMemory, orders: PhaseOrders, triPerVertex: array<nat>, ghost done: seq<Job>)
    requires SortedAdjacency(adj) && BalancedGrid(adj, q, l, groups, blocks)
    requires memory.Valid() && (triPerVertex as object) !in memory.Arrays()
    requires orders.Valid()
    requires Counted(adj, q, triPerVertex, done + JobsOfBlock(l, groups, b, k))
    modifies memory.Arrays(), triPerVertex
    ensures Counted(adj, q, triPerVertex, done + JobsOfBlock(l, groups, b, k + 1))
  {
    ghost var before := done + JobsOfBlock(l, groups, b, k);
    ItemsAreWellFormed(adj, q, l, groups, blocks, b, k);
    var boxes := memory.RunBlock(BlockItems(adj, q, l, groups, b, k), l.lanes, orders.first, orders.second);
    AddRound(adj, q, l, groups, blocks, b, k, boxes[..], triPerVertex, before);
    assert before + RoundJobs(l, groups, b, k, BLOCK_SIZE) == done + JobsOfBlock(l, groups, b, k + 1);
  }

  /**
   * One block of the balanced kernel, round by round, with the threads running the phases of each round in any orders.
   */
  method RunBlockRounds(adj: Adjacency, q: seq<Edge>, l: LaunchPlan.Launch, groups: nat, ghost blocks: nat, b: nat,
                        orders: (nat, nat) -> PhaseOrders, triPerVertex: array<nat>, ghost done: seq<Job>)
    requires SortedAdjacency(adj) && BalancedGrid(adj, q, l, groups, blocks)
    requires AreOrders(orders)
    requires Counted(adj, q, triPerVertex, done)
    modifies triPerVertex
    ensures Counted(adj, q, triPerVertex, done + JobsOfBlock(l, groups, b, BlockRounds(l, groups, b)))
  {
    var memory := new BlockMemory();
    var k, i := 0, BlockStart(l, b);
    assert done + JobsOfBlock(l, groups, b, 0) == done;
    while i < l.end
      invariant memory.Valid() && fresh(memory.Arrays())
      invariant InLoop(BlockStart(l, b), groups, l.end, i, k)
      invariant Counted(adj, q, triPerVertex, done + JobsOfBlock(l, groups, b, k))
      decreases l.end - i
    {
      RunRound(adj, q, l, groups, blocks, b, k, memory, orders(b, k), triPerVertex, done);
      i, k := i + groups, k + 1;
    }
    LoopEnds(BlockStart(l, b), groups, l.end, i, k);
  }

  /** All blocks of a launch of the balanced kernel. */
  method RunBalanced(adj: Adjacency, q: seq<Edge>, l: LaunchPlan.Launch, groups: nat, blocks: nat,
                     orders: (nat, nat) -> PhaseOrders, triPerVertex: array<nat>, ghost done: seq<Job>)
    requires SortedAdjacency(adj) && BalancedGrid(adj, q, l, groups, blocks)
    requires AreOrders(orders)
    requires Counted(adj, q, triPerVertex, done)
    modifies triPerVertex
    ensures Counted(adj, q, triPerVertex, done + JobsOfBlocks(l, groups, blocks))
    ensures multiset(JobsOfBlocks(l, groups, blocks)) == multiset(OrderedJobs(l, l.end))
  {
    assert done + JobsOfBlocks(l, groups, 0) == done;
    for b := 0 to blocks
      invariant Counted(adj, q, triPerVertex, done + JobsOfBlocks(l, groups, b))
    {
      ghost var before := done + JobsOfBlocks(l, groups, b);
      RunBlockRounds(adj, q, l, groups, blocks, b, orders, triPerVertex, before);
      assert before + JobsOfBlock(l, groups, b, BlockRounds(l, groups, b)) == done + JobsOfBlocks(l, groups, b + 1);
    }
    BlocksRunEachJobOnce(l, groups, blocks);
  }

  // ---------------------------------------------------------------------------------------------
  // The imbalanced kernel

  lemma {:induction false} ImbalancedJobIsOk(adj: Adjacency, q: seq<Edge>, l: LaunchPlan.Launch, groups: nat,
          id: nat, k: nat)
    requires LaunchOk(adj, q, l) && groups > 0 && k < |ThreadJobs(l, groups, id)|
    ensures JobOk(adj, q, ThreadJobs(l, groups, id)[k])
  {
    Arith.DivIsNatural(id, l.lanes);
    RoundsBound(l.start + id / l.lanes, groups, l.end, k);
    assert CanRun(adj, q[ThreadJobs(l, groups, id)[k].pos], l.kernel, l.lanes);
  }

  /** One thread of the imbalanced kernel. */
  method AddThread(adj: Adjacency, q: seq<Edge>, l: LaunchPlan.Launch, gridThreads: nat, ghost groups: nat, id: nat,
                   triPerVertex: array<nat>, ghost done: seq<Job>)
    requires SortedAdjacency(adj) && LaunchOk(adj, q, l) && LaunchPlan.GroupFits(l)
    requires l.kernel == LaunchPlan.Imbalanced && groups > 0 && gridThreads == groups * l.lanes
    requires Counted(adj, q, triPerVertex, done)
    modifies triPerVertex
    ensures Counted(adj, q, triPerVertex, done + ThreadJobs(l, groups, id))
  {
    var jobs := RunThread(l, gridThreads, groups, id);
    assert done + jobs[..0] == done;
    for k := 0 to |jobs|
      invariant Counted(adj, q, triPerVertex, done + jobs[..k])
    {
      ImbalancedJobIsOk(adj, q, l, groups, id, k);
      AddJob(adj, q, jobs[k], None, triPerVertex, done + jobs[..k]);
      assert done + jobs[..k] + [jobs[k]] == done + jobs[..k + 1];
    }
    assert jobs[..|jobs|] == jobs;
  }

  /** All threads of a launch of the imbalanced kernel. */
  method RunImbalanced(adj: Adjacency, q: seq<Edge>, l: LaunchPlan.Launch, groups: nat, gridThreads: nat,
                       triPerVertex: array<nat>, ghost done: seq<Job>)
    requires SortedAdjacency(adj) && LaunchOk(adj, q, l) && LaunchPlan.GroupFits(l) && l.start <= l.end
    requires l.kernel == LaunchPlan.Imbalanced && groups > 0 && gridThreads == groups * l.lanes
    requires Counted(adj, q, triPerVertex, done)
    modifies triPerVertex
    ensures Counted(adj, q, triPerVertex, done + GridJobs(l, groups, gridThreads))
    ensures multiset(GridJobs(l, groups, gridThreads)) == multiset(OrderedJobs(l, l.end))
  {
    assert done + GridJobs(l, groups, 0) == done;
    for id := 0 to gridThreads
      invariant Counted(adj, q, triPerVertex, done + GridJobs(l, groups, id))
    {
      ghost var before := done + GridJobs(l, groups, id);
      AddThread(adj, q, l, gridThreads, groups, id, triPerVertex, before);
      assert before + ThreadJobs(l, groups, id) == done + GridJobs(l, groups, id + 1);
    }
    GridRunsEachJobOnce(l, groups);
  }

  // ---------------------------------------------------------------------------------------------
  // The launches

  /** Thread groups of the balanced kernel fill a block. */
  lemma {:induction false} GroupsFillBlock(l: LaunchPlan.Launch)
    requires LaunchPlan.GroupFits(l) && l.kernel == LaunchPlan.Balanced
    ensures l.lanes > 0 && BLOCK_SIZE % l.lanes == 0
  {
    var perBlock := LaunchPlan.GroupsAndBlocks(l);
    LaunchPlan.LaneIsIdModGroup(l, 0);
    Arith.DivModUnique(BLOCK_SIZE, l.lanes, perBlock, 0);
  }

  /**
   * No block has a second round, so that it does not matter what separates rounds, if and only if the threads that the
   * launch asks for fit into one grid.
   */
  ghost predicate NeedsNoBarrierIfFits(l: LaunchPlan.Launch, groups: nat)
    requires groups > 0
  {
    l.lanes > 0 && (OneRound(l, groups) <==> (l.end - l.start) * l.lanes <= LaunchPlan.MAX_GRID)
  }

  /** One launch, on the grid that is shrunk to the limit: every lane of every position of its range, once. */
  method RunLaunch(adj: Adjacency, q: seq<Edge>, l: LaunchPlan.Launch, orders: (nat, nat) -> PhaseOrders,
                   triPerVertex: array<nat>, ghost done: seq<Job>)
    returns (ghost jobs: seq<Job>, ghost groups: nat)
    requires SortedAdjacency(adj) && LaunchOk(adj, q, l) && LaunchPlan.GroupFits(l) && l.start < l.end
    requires AreOrders(orders)
    requires Counted(adj, q, triPerVertex, done)
    modifies triPerVertex
    ensures groups > 0 && multiset(jobs) == multiset(OrderedJobs(l, l.end))
    ensures Counted(adj, q, triPerVertex, done + jobs)
    ensures NeedsNoBarrierIfFits(l, groups)
  {
    ghost var perBlock := LaunchPlan.GroupsAndBlocks(l);
    var gridSize;
    ghost var items;
    gridSize, items := LaunchPlan.ShrinkGrid(l.end - l.start, l.lanes);
    groups := LaunchPlan.GridIsWholeGroups(l, gridSize, items);
    var gridThreads := LaunchPlan.Threads(gridSize);
    var gridGroups := gridThreads / l.lanes;
    OneRoundIffFits(l, gridSize, items, groups);
    if l.kernel == LaunchPlan.Balanced {
      GroupsFillBlock(l);
      var blocks := (gridSize + BLOCK_SIZE - 1) / BLOCK_SIZE;
      RunBalanced(adj, q, l, gridGroups, blocks, orders, triPerVertex, done);
      jobs := JobsOfBlocks(l, groups, blocks);
    } else {
      RunImbalanced(adj, q, l, gridGroups, gridThreads, triPerVertex, done);
      jobs := GridJobs(l, groups, gridThreads);
    }
  }

  /** Orders for every launch, block and round. */
  ghost predicate AreLaunchOrders(orders: (nat, nat, nat) -> PhaseOrders) {
    forall m: nat, b: nat, k: nat :: orders(m, b, k).Valid()
  }

  function OrdersOfLaunch(orders: (nat, nat, nat) -> PhaseOrders, m: nat): (r: (nat, nat) -> PhaseOrders)
    ensures AreLaunchOrders(orders) ==> AreOrders(r)
  {
    (b: nat, k: nat) => orders(m, b, k)
  }

  predicate CanLaunch(launches: seq<LaunchPlan.Launch>) {
    forall k :: 0 <= k < |launches| ==> LaunchPlan.GroupFits(launches[k]) && launches[k].start < launches[k].end
  }

  /** The numbers of groups of the first launches, on grids that are shrunk only if they have to. */
  ghost predicate GridsOf(launches: seq<LaunchPlan.Launch>, groups: seq<nat>) {
    && |groups| <= |launches|
    && forall k :: 0 <= k < |groups| ==> groups[k] > 0 && NeedsNoBarrierIfFits(launches[k], groups[k])
  }

  lemma {:induction false} OneMoreLaunch(launches: seq<LaunchPlan.Launch>, m: nat, jobs: seq<Job>, more: seq<Job>)
    requires m < |launches| && multiset(jobs) == multiset(AllOrderedJobs(launches[..m]))
    requires multiset(more) == multiset(OrderedJobs(launches[m], launches[m].end))
    ensures multiset(jobs + more) == multiset(AllOrderedJobs(launches[..m + 1]))
  {
    assert launches[..m + 1][..m] == launches[..m];
  }

  lemma {:induction false} OneMoreGrid(launches: seq<LaunchPlan.Launch>, groups: seq<nat>, more: nat)
    requires GridsOf(launches, groups) && |groups| < |launches|
    requires more > 0 && NeedsNoBarrierIfFits(launches[|groups|], more)
    ensures GridsOf(launches, groups + [more])
  {
  }

  /** All launches, one after the other, from counters that are zero. */
  method RunLaunches(adj: Adjacency, q: seq<Edge>, launches: seq<LaunchPlan.Launch>,
                     orders: (nat, nat, nat) -> PhaseOrders)
    returns (triPerVertex: array<nat>, ghost jobs: seq<Job>, ghost groups: seq<nat>)
    requires SortedAdjacency(adj) && CanLaunch(launches)
    requires forall k :: 0 <= k < |launches| ==> LaunchOk(adj, q, launches[k])
    requires AreLaunchOrders(orders)
    ensures fresh(triPerVertex) && Counted(adj, q, triPerVertex, jobs)
    ensures multiset(jobs) == multiset(AllOrderedJobs(launches))
    ensures |groups| == |launches| && GridsOf(launches, groups)
  {
    triPerVertex := new nat[|adj|](_ => 0);
    jobs, groups := [], [];
    for m := 0 to |launches|
      invariant fresh(triPerVertex) && Counted(adj, q, triPerVertex, jobs)
      invariant multiset(jobs) == multiset(AllOrderedJobs(launches[..m]))
      invariant |groups| == m && GridsOf(launches, groups)
    {
      ghost var more, g := RunLaunch(adj, q, launches[m], OrdersOfLaunch(orders, m), triPerVertex, jobs);
      OneMoreLaunch(launches, m, jobs, more);
      OneMoreGrid(launches, groups, g);
      jobs := jobs + more;
      groups := groups + [g];
    }
    assert launches[..|launches|] == launches;
  }
}
