/**
 * The result of the whole intersection run: whatever the interleaving of the binning threads and of the
 * kernel threads, every vertex ends up with the common neighbours of exactly its own edges
 * (primitives/Operator++.i.cuh, lines 377-477; triangle2.cu, lines 121 and 130-161).
 */
module AdjacencyRun {
  import opened AdjacencyUnions
  import opened EdgeBinning
  import opened EdgeList
  import opened EngineConstants
  import opened LaunchJobs
  import opened Sums
  import Arith
  import EdgeScatter
  import LaunchPlan

  // ---------------------------------------------------------------------------------------------
  // What jobs and edges add to the counter of a vertex

  predicate JobOk(adj: Adjacency, q: seq<Edge>, j: Job) {
    j.pos < |q| && InGraph(adj, q[j.pos]) && j.lane < j.lanes && CanRun(adj, q[j.pos], j.kernel, j.lanes)
  }

  function JobAdds(adj: Adjacency, q: seq<Edge>, j: Job, x: int): nat {
    if JobOk(adj, q, j) && UVertex(adj, q[j.pos]) == x then LaneCount(adj, q[j.pos], j.kernel, j.lanes, j.lane) else 0
  }

  function JobAdder(adj: Adjacency, q: seq<Edge>, x: int): Job -> int {
    j => JobAdds(adj, q, j, x)
  }

  function EdgeAdds(adj: Adjacency, e: Edge, x: int): nat {
    if InGraph(adj, e) && UVertex(adj, e) == x then Weight(adj, e) else 0
  }

  function EdgeAdder(adj: Adjacency, x: int): Edge -> int {
    e => EdgeAdds(adj, e, x)
  }

  function WeightOf(adj: Adjacency): Edge -> int {
    e => if InGraph(adj, e) then Weight(adj, e) else 0
  }

  // ---------------------------------------------------------------------------------------------
  // The schedules

  predicate AllInGraph(adj: Adjacency, edges: seq<Edge>) {
    forall k :: 0 <= k < |edges| ==> InGraph(adj, edges[k])
  }

  function Bins(adj: Adjacency, edges: seq<Edge>, workFactor: int): seq<nat>
    requires AllInGraph(adj, edges)
  {
    seq(|edges|, k requires 0 <= k < |edges| => Bin(workFactor, |adj[edges[k].src]|, |adj[edges[k].dst]|))
  }

  /** All jobs of all launches, thread by thread; groups[k] is the number of thread groups of launch k. */
  function AllGridJobs(launches: seq<LaunchPlan.Launch>, groups: seq<nat>): seq<Job>
    requires |groups| == |launches|
    requires forall k :: 0 <= k < |launches| ==> groups[k] > 0 && launches[k].lanes > 0
  {
    if launches == [] then []
    else
      var m := |launches| - 1;
      AllGridJobs(launches[..m], groups[..m])
      + GridJobs(launches[m], groups[m], groups[m] * launches[m].lanes)
  }

  /** The jobs in some order in which the threads of the launches can interleave. */
  predicate IsJobSchedule(sched: seq<Job>, launches: seq<LaunchPlan.Launch>, groups: seq<nat>) {
    && |groups| == |launches|
    && (forall k :: 0 <= k < |launches| ==> groups[k] > 0 && launches[k].lanes > 0)
    && multiset(sched) == multiset(AllGridJobs(launches, groups))
  }

  function AllOrderedJobs(launches: seq<LaunchPlan.Launch>): seq<Job> {
    if launches == [] then []
    else
      var m := |launches| - 1;
      AllOrderedJobs(launches[..m]) + OrderedJobs(launches[m], launches[m].end)
  }

  lemma {:induction false} GridJobsAreOrderedJobs(launches: seq<LaunchPlan.Launch>, groups: seq<nat>, to: nat)
    requires |groups| == |launches| && LaunchPlan.Tiles(launches, 0, to)
    requires forall k :: 0 <= k < |launches| ==> groups[k] > 0 && launches[k].lanes > 0
    ensures multiset(AllGridJobs(launches, groups)) == multiset(AllOrderedJobs(launches))
  {
    if launches != [] {
      var m := |launches| - 1;
      GridJobsAreOrderedJobs(launches[..m], groups[..m], launches[m].start);
      GridRunsEachJobOnce(launches[m], groups[m]);
    }
  }

  // ---------------------------------------------------------------------------------------------
  // Adding up

  lemma {:induction false} SumsMatch<S, T>(s: seq<S>, f: S -> int, t: seq<T>, g: T -> int)
    requires |s| == |t| && forall k :: 0 <= k < |s| ==> f(s[k]) == g(t[k])
    ensures SumOf(s, f) == SumOf(t, g)
  {
    if s != [] {
      SumsMatch(s[..|s| - 1], f, t[..|t| - 1], g);
    }
  }

  lemma {:induction false} SumOfZeros<S>(s: seq<S>, f: S -> int)
    requires forall x :: x in s ==> f(x) == 0
    ensures SumOf(s, f) == 0
  {
    if s != [] {
      SumOfZeros(s[..|s| - 1], f);
    }
  }

  /** A launch can run every position of its range. */
  predicate LaunchOk(adj: Adjacency, q: seq<Edge>, l: LaunchPlan.Launch) {
    && l.lanes > 0 && l.end <= |q|
    && forall i :: l.start <= i < l.end ==> InGraph(adj, q[i]) && CanRun(adj, q[i], l.kernel, l.lanes)
  }

  lemma {:induction false} PositionAddsUp(adj: Adjacency, q: seq<Edge>, l: LaunchPlan.Launch, pos: nat, x: int)
    requires SortedAdjacency(adj) && LaunchOk(adj, q, l) && l.start <= pos < l.end
    ensures SumOf(LaneJobs(l, pos), JobAdder(adj, q, x)) == EdgeAdder(adj, x)(q[pos])
  {
    var jobs, f := LaneJobs(l, pos), JobAdder(adj, q, x);
    if UVertex(adj, q[pos]) == x {
      var counts := LaneCounts(adj, q[pos], l.kernel, l.lanes);
      SumsMatch(jobs, f, counts, (c: nat) => c);
      LanesAddUp(adj, q[pos], l.kernel, l.lanes);
    } else {
      SumOfZeros(jobs, f);
    }
  }

  lemma {:induction false} OneMorePosition(l: LaunchPlan.Launch, pos: nat, f: Job -> int)
    requires l.start <= pos
    ensures SumOf(OrderedJobs(l, pos + 1), f) == SumOf(OrderedJobs(l, pos), f) + SumOf(LaneJobs(l, pos), f)
  {
    SumAppend(OrderedJobs(l, pos), LaneJobs(l, pos), f);
  }

  lemma {:induction false} RangeSums(q: seq<Edge>, l: LaunchPlan.Launch, end: nat, f: Job -> int, g: Edge -> int)
    requires l.start <= end <= l.end <= |q|
    requires forall pos: nat :: l.start <= pos < l.end ==> SumOf(LaneJobs(l, pos), f) == g(q[pos])
    ensures SumOf(OrderedJobs(l, end), f) == SumOf(q[l.start..end], g)
    decreases end
  {
    if end > l.start {
      var pos := end - 1;
      RangeSums(q, l, pos, f, g);
      OneMorePosition(l, pos, f);
      SumOfSlice(q, l.start, pos, g);
    } else {
      assert q[l.start..end] == [] && OrderedJobs(l, end) == [];
    }
  }

  lemma {:induction false} RangeAddsUp(adj: Adjacency, q: seq<Edge>, l: LaunchPlan.Launch, x: int)
    requires SortedAdjacency(adj) && LaunchOk(adj, q, l) && l.start <= l.end
    ensures SumOf(OrderedJobs(l, l.end), JobAdder(adj, q, x)) == SumOf(q[l.start..l.end], EdgeAdder(adj, x))
  {
    forall pos: nat | l.start <= pos < l.end
      ensures SumOf(LaneJobs(l, pos), JobAdder(adj, q, x)) == EdgeAdder(adj, x)(q[pos])
    {
      PositionAddsUp(adj, q, l, pos, x);
    }
    RangeSums(q, l, l.end, JobAdder(adj, q, x), EdgeAdder(adj, x));
  }

  lemma {:induction false} LaunchesAddUp(adj: Adjacency, q: seq<Edge>, launches: seq<LaunchPlan.Launch>, to: nat,
          x: int)
    requires SortedAdjacency(adj) && LaunchPlan.Tiles(launches, 0, to) && to <= |q|
    requires forall k :: 0 <= k < |launches| ==> LaunchOk(adj, q, launches[k])
    ensures SumOf(AllOrderedJobs(launches), JobAdder(adj, q, x)) == SumOf(q[..to], EdgeAdder(adj, x))
  {
    if launches != [] {
      var m := |launches| - 1;
      var l := launches[m];
      LaunchesAddUp(adj, q, launches[..m], l.start, x);
      RangeAddsUp(adj, q, l, x);
      SumAppend(AllOrderedJobs(launches[..m]), OrderedJobs(l, l.end), JobAdder(adj, q, x));
      SumOfPrefix(q, l.start, to, EdgeAdder(adj, x));
    }
  }

  /** In any order of the jobs, a vertex receives the common neighbours of the edges it stands for. */
  lemma {:induction false} ScheduleAddsUp(adj: Adjacency, q: seq<Edge>, launches: seq<LaunchPlan.Launch>,
          groups: seq<nat>, sched: seq<Job>, x: int)
    requires SortedAdjacency(adj) && LaunchPlan.Tiles(launches, 0, |q|)
    requires forall k :: 0 <= k < |launches| ==> LaunchOk(adj, q, launches[k])
    requires IsJobSchedule(sched, launches, groups)
    ensures SumOf(sched, JobAdder(adj, q, x)) == SumOf(q, EdgeAdder(adj, x))
  {
    GridJobsAreOrderedJobs(launches, groups, |q|);
    SumOfRearranged(sched, AllOrderedJobs(launches), JobAdder(adj, q, x));
    LaunchesAddUp(adj, q, launches, |q|, x);
    assert q[..|q|] == q;
  }

  // ---------------------------------------------------------------------------------------------
  // The whole run

  /** The inputs of a run, an interleaving of the scatter that finishes, and launches that tile the queue. */
  ghost predicate IsPlanned(adj: Adjacency, edges: seq<Edge>, workFactor: int, n: EdgeScatter.Input,
                            s: EdgeScatter.State, claims: seq<nat>, launches: seq<LaunchPlan.Launch>)
  {
    && SortedAdjacency(adj) && AllInGraph(adj, edges)
    && n.edges == edges && n.bins == Bins(adj, edges, workFactor)
    && EdgeScatter.Initial(n, s)
    && (forall k :: 0 <= k < |claims| ==> claims[k] < |edges|)
    && EdgeScatter.Finished(EdgeScatter.Run(n, s, claims))
    && LaunchPlan.ValidPositions(n.base)
    && LaunchPlan.Tiles(launches, 0, n.base[MAX_BINS])
    && LaunchPlan.GoodLaunches(launches, n.base)
  }

  /** A whole run: also the grids of the launches, and an order of the jobs of all their threads. */
  ghost predicate IsRun(adj: Adjacency, edges: seq<Edge>, workFactor: int, n: EdgeScatter.Input,
                        s: EdgeScatter.State, claims: seq<nat>, launches: seq<LaunchPlan.Launch>,
                        groups: seq<nat>, sched: seq<Job>)
  {
    IsPlanned(adj, edges, workFactor, n, s, claims, launches) && IsJobSchedule(sched, launches, groups)
  }

  /** The queue that the run works through. */
  ghost function Queue(n: EdgeScatter.Input, s: EdgeScatter.State, claims: seq<nat>): seq<Edge>
    requires EdgeScatter.Initial(n, s) && forall k :: 0 <= k < |claims| ==> claims[k] < |n.bins|
  {
    EdgeScatter.QueuedEdges(EdgeScatter.Run(n, s, claims).queue, |n.edges|)
  }

  lemma {:induction false} EdgeKeepsGraph(adj: Adjacency, edges: seq<Edge>, q: seq<Edge>, i: nat)
    requires AllInGraph(adj, edges) && multiset(q) == multiset(edges) && i < |q|
    ensures InGraph(adj, q[i])
  {
    assert q[i] in multiset(q);
    var k :| 0 <= k < |edges| && edges[k] == q[i];
  }

  /** The bin that holds a position below base[k]. */
  lemma {:induction false} BinOfPosition(base: seq<nat>, bins: seq<nat>, i: nat, k: nat) returns (b: nat)
    requires IsBase(base, bins) && k <= MAX_BINS && i < base[k]
    ensures b < k && base[b] <= i < base[b + 1]
    decreases k
  {
    if base[k - 1] <= i {
      b := k - 1;
    } else {
      b := BinOfPosition(base, bins, i, k - 1);
    }
  }

  /** The groups that a bin of the balanced kernel is launched with can run its edges, for any work factor. */
  lemma {:induction false} BinCanRun(adj: Adjacency, edges: seq<Edge>, workFactor: int, t: nat)
    requires SortedAdjacency(adj) && AllInGraph(adj, edges) && t < |edges|
    requires Bins(adj, edges, workFactor)[t] < MAX_BINS / 2
    ensures CanRun(adj, edges[t], LaunchPlan.Balanced,
                   Arith.Pow2(LaunchPlan.SizeOfBin(Bins(adj, edges, workFactor)[t]) - 1))
  {
    if adj[edges[t].src] == [] || adj[edges[t].dst] == [] {
      EmptyListsAreInFirstBin(workFactor, |adj[edges[t].src]|, |adj[edges[t].dst]|);
      assert Arith.Pow2(0) == 1;
    }
  }

  /** The edge at a position of a launch can be run by the groups of that launch. */
  lemma {:induction false} PositionCanRun(adj: Adjacency, edges: seq<Edge>, workFactor: int, n: EdgeScatter.Input,
          s: EdgeScatter.State, claims: seq<nat>, launches: seq<LaunchPlan.Launch>, l: LaunchPlan.Launch, i: nat)
    requires IsPlanned(adj, edges, workFactor, n, s, claims, launches)
    requires LaunchPlan.HasRange(l, n.base) && l.start <= i < l.end && i < n.base[MAX_BINS]
    ensures i < |Queue(n, s, claims)| && InGraph(adj, Queue(n, s, claims)[i])
    ensures CanRun(adj, Queue(n, s, claims)[i], l.kernel, l.lanes)
  {
    BaseEnds(n.base, n.bins);
    var b := BinOfPosition(n.base, n.bins, i, MAX_BINS);
    var t := EdgeScatter.QueueIsGrouped(n, s, claims, b, i);
    LaunchPlan.LaunchOfBin(l, n.base, b, i);
    if l.kernel == LaunchPlan.Balanced {
      BinCanRun(adj, edges, workFactor, t);
    }
  }

  /**
   * In every run and for every work factor, all launches can run their positions: an edge with an empty list is
   * either left to the imbalanced kernel or stands in the first bin, which is launched with a single thread an edge.
   */
  lemma {:induction false} LaunchesCanRun(adj: Adjacency, edges: seq<Edge>, workFactor: int, n: EdgeScatter.Input,
          s: EdgeScatter.State, claims: seq<nat>, launches: seq<LaunchPlan.Launch>, k: nat)
    requires IsPlanned(adj, edges, workFactor, n, s, claims, launches) && k < |launches|
    ensures LaunchOk(adj, Queue(n, s, claims), launches[k])
  {
    var l := launches[k];
    BaseEnds(n.base, n.bins);
    LaunchPlan.TilesBound(launches, 0, n.base[MAX_BINS]);
    LaunchPlan.RangeIsGood(l, n.base);
    forall i | l.start <= i < l.end
      ensures InGraph(adj, Queue(n, s, claims)[i]) && CanRun(adj, Queue(n, s, claims)[i], l.kernel, l.lanes)
    {
      PositionCanRun(adj, edges, workFactor, n, s, claims, launches, l, i);
    }
  }

  /** Whatever the interleavings, every counter ends with the sum over the edges it stands for. */
  lemma {:induction false} RunCountsEveryEdgeOnce(adj: Adjacency, edges: seq<Edge>, workFactor: int,
          n: EdgeScatter.Input, s: EdgeScatter.State, claims: seq<nat>, launches: seq<LaunchPlan.Launch>,
          groups: seq<nat>, sched: seq<Job>, x: int)
    requires IsRun(adj, edges, workFactor, n, s, claims, launches, groups, sched)
    ensures SumOf(sched, JobAdder(adj, Queue(n, s, claims), x)) == SumOf(edges, EdgeAdder(adj, x))
  {
    var q := Queue(n, s, claims);
    EdgeScatter.QueueIsPermutation(n, s, claims);
    BaseEnds(n.base, n.bins);
    forall k | 0 <= k < |launches| ensures LaunchOk(adj, q, launches[k]) {
      LaunchesCanRun(adj, edges, workFactor, n, s, claims, launches, k);
    }
    ScheduleAddsUp(adj, q, launches, groups, sched, x);
    SumOfRearranged(q, edges, EdgeAdder(adj, x));
  }
}
