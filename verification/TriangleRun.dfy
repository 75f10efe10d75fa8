/**
 * The whole intersection run from the edges to the counters (primitives/Operator++.i.cuh, lines 377-477): the
 * passes and launches one after the other, on the arrays that the host and the threads write.
 */
module TriangleRun {
  import opened AdjacencyRun
  import opened AdjacencyUnions
  import opened EdgeBinning
  import opened EdgeList
  import opened EngineConstants
  import opened KernelRun
  import opened Sums
  import opened TriangleCount
  import EdgeScatter
  import LaunchPlan

  /** The bin starts are positions that the launch plan can work with. */
  lemma {:induction false} BaseIsPositions(base: seq<nat>, bins: seq<nat>)
    requires IsBase(base, bins)
    ensures LaunchPlan.ValidPositions(base)
  {
    forall b, c | 0 <= b <= c <= MAX_BINS ensures base[b] <= base[c] {
      BaseIsMonotone(base, bins, b, c);
    }
  }

  lemma {:induction false} TilesCanLaunch(launches: seq<LaunchPlan.Launch>, queuePos: seq<nat>)
    requires LaunchPlan.ValidPositions(queuePos) && LaunchPlan.Tiles(launches, 0, queuePos[MAX_BINS])
    requires LaunchPlan.GoodLaunches(launches, queuePos)
    ensures CanLaunch(launches)
  {
    LaunchPlan.TilesBound(launches, 0, queuePos[MAX_BINS]);
    forall k | 0 <= k < |launches| ensures LaunchPlan.GroupFits(launches[k]) {
      LaunchPlan.RangeIsGood(launches[k], queuePos);
    }
  }

  /**
   * Count the bins, sum them up, fill the queue, plan and run the launches.  For any order of the counting
   * increments, any schedule that finishes the scatter and any orders of a block's threads in the two phases of every
   * round of the balanced kernel, each counter ends with the common neighbours of exactly the edges it stands for.
   */
  method ForAllAdjUnions(adj: Adjacency, edges: seq<Edge>, workFactor: int, countOrder: seq<nat>, claims: seq<nat>,
                         orders: (nat, nat, nat) -> PhaseOrders)
    returns (triPerVertex: array<nat>)
    requires SortedAdjacency(adj) && AllInGraph(adj, edges)
    requires IsOrder(countOrder, |edges|)
    requires forall k :: 0 <= k < |claims| ==> claims[k] < |edges|
    requires forall t: nat :: t < |edges| ==> multiset(claims)[t] >= 3
    requires AreLaunchOrders(orders)
    ensures triPerVertex.Length == |adj|
    ensures forall x :: 0 <= x < |adj| ==> triPerVertex[x] == SumOf(edges, EdgeAdder(adj, x))
    ensures forall x :: 0 <= x < |adj| ==>
              triPerVertex[x] == SumOf(edges, FromInto(adj, x)) + SumOf(edges, FromOutOf(adj, x))
  {
    var bins := Bins(adj, edges, workFactor);
    var queueSizes := CountBins(bins, countOrder);
    var queuePos := PartialSum(queueSizes, bins);
    var dQueuePos := new nat[MAX_BINS + 1](k requires 0 <= k < queuePos.Length reads queuePos => queuePos[k]);
    ghost var base := queuePos[..];
    assert dQueuePos[..] == base;
    ghost var s0;
    var edgeQueue;
    edgeQueue, s0 := EdgeScatter.ScatterEdges(edges, bins, dQueuePos, claims);
    ghost var n := EdgeScatter.Input(edges, bins, base);
    EdgeScatter.FinishedWhenScheduled(n, s0, claims);
    var q := EdgeScatter.QueuedEdges(edgeQueue[..], |edges|);
    BaseIsPositions(base, bins);
    var launches := LaunchPlan.PlanLaunches(queuePos[..]);
    PlannedLaunchesAreOk(adj, edges, workFactor, n, s0, claims, launches);
    ghost var jobs, groups;
    triPerVertex, jobs, groups := RunLaunches(adj, q, launches, orders);
    GridJobsAreOrderedJobs(launches, groups, base[MAX_BINS]);
    assert IsRun(adj, edges, workFactor, n, s0, claims, launches, groups, jobs);
    forall x | 0 <= x < |adj|
      ensures triPerVertex[x] == SumOf(edges, EdgeAdder(adj, x))
      ensures triPerVertex[x] == SumOf(edges, FromInto(adj, x)) + SumOf(edges, FromOutOf(adj, x))
    {
      CounterOfVertex(adj, edges, x);
      RunCountsEveryEdgeOnce(adj, edges, workFactor, n, s0, claims, launches, groups, jobs, x);
    }
  }

  /** Every planned launch can be run, whatever the grids turn out to be. */
  lemma {:induction false} PlannedLaunchesAreOk(adj: Adjacency, edges: seq<Edge>, workFactor: int,
          n: EdgeScatter.Input, s: EdgeScatter.State, claims: seq<nat>, launches: seq<LaunchPlan.Launch>)
    requires IsPlanned(adj, edges, workFactor, n, s, claims, launches)
    ensures CanLaunch(launches)
    ensures forall k :: 0 <= k < |launches| ==>
              LaunchOk(adj, Queue(n, s, claims), launches[k]) && launches[k].lanes > 0
  {
    TilesCanLaunch(launches, n.base);
    forall k | 0 <= k < |launches| ensures LaunchOk(adj, Queue(n, s, claims), launches[k]) {
      LaunchesCanRun(adj, edges, workFactor, n, s, claims, launches, k);
    }
  }
}
