/**
 * The whole intersection run with the triangle operator (primitives/Operator++.i.cuh, lines 377-477, and
 * hornetsnest/src/Static/TriangleCounting/triangle2.cu, lines 75-161): edges are binned into a queue, the
 * queue is cut into launches, and the threads of the launches add their counts to the vertices' counters.
 * Binning threads and kernel threads interleave in any way.
 */
module AdjacencyUnions {
  import opened EdgeList
  import opened Intersection
  import opened Order
  import opened Sums
  import opened Wrappers
  import BalancedKernel
  import LaunchPlan
  import PairCount
  import Partition
  import WorkSplit

  type Adjacency = seq<seq<int>>

  predicate SortedAdjacency(adj: Adjacency) {
    forall x :: 0 <= x < |adj| ==> StrictlyIncreasing(adj[x])
  }

  predicate InGraph(adj: Adjacency, e: Edge) {
    0 <= e.src < |adj| && 0 <= e.dst < |adj|
  }

  // ---------------------------------------------------------------------------------------------
  // One edge

  /** The kernels skip self loops and sources with fewer than two neighbours. */
  predicate Avoided(adj: Adjacency, e: Edge)
    requires InGraph(adj, e)
  {
    e.src == e.dst || |adj[e.src]| < 2
  }

  /** The endpoint with the shorter list; a tie goes to the destination. */
  function UVertex(adj: Adjacency, e: Edge): int
    requires InGraph(adj, e)
  {
    if |adj[e.src]| < |adj[e.dst]| then e.src else e.dst
  }

  function VVertex(adj: Adjacency, e: Edge): int
    requires InGraph(adj, e)
  {
    if |adj[e.src]| < |adj[e.dst]| then e.dst else e.src
  }

  function EdgePair(adj: Adjacency, e: Edge): BalancedKernel.Pair
    requires InGraph(adj, e)
  {
    BalancedKernel.Pair(adj[UVertex(adj, e)], adj[VVertex(adj, e)])
  }

  /** Whether groups of `lanes` threads can run the edge; in the balanced kernel an empty list needs a single lane. */
  predicate CanRun(adj: Adjacency, e: Edge, kernel: LaunchPlan.Kernel, lanes: nat)
    requires InGraph(adj, e)
  {
    kernel == LaunchPlan.Balanced && !Avoided(adj, e) ==> BalancedKernel.Runnable(EdgePair(adj, e), lanes)
  }

  /** The common neighbours in one piece of the merge path. */
  function PieceSize(p: BalancedKernel.Pair, lanes: nat, lane: nat): nat
    requires BalancedKernel.Runnable(p, lanes) && lane < lanes
  {
    |PairCount.BalancedPart(p, lanes, lane)|
  }

  /** The common neighbours in one slice of the shorter list. */
  function SliceSize(p: BalancedKernel.Pair, lanes: nat, lane: nat): nat
    requires lane < lanes
  {
    |PairCount.BoxCommon(PairCount.LaneSlice(p.u, p.v, lanes, lane), p.u, p.v)|
  }

  /** What lane `lane` of `lanes` adds to the counter of the edge's u vertex. */
  function LaneCount(adj: Adjacency, e: Edge, kernel: LaunchPlan.Kernel, lanes: nat, lane: nat): nat
    requires InGraph(adj, e) && lane < lanes && CanRun(adj, e, kernel, lanes)
  {
    var p := EdgePair(adj, e);
    if Avoided(adj, e) then 0
    else if kernel == LaunchPlan.Balanced then PieceSize(p, lanes, lane)
    else SliceSize(p, lanes, lane)
  }

  /** The number of common neighbours that the run is to find for an edge. */
  function Weight(adj: Adjacency, e: Edge): nat
    requires InGraph(adj, e)
  {
    if Avoided(adj, e) then 0 else |Common(adj[e.src], adj[e.dst])|
  }

  /** The second half of the balanced kernel's work on one box. */
  method RunBalancedLane(adj: Adjacency, e: Edge, lanes: nat, lane: nat, box: Option<BalancedKernel.Box>)
    returns (count: nat)
    requires SortedAdjacency(adj) && InGraph(adj, e) && lane < lanes
    requires !Avoided(adj, e) && CanRun(adj, e, LaunchPlan.Balanced, lanes)
    requires box == BalancedKernel.LaneBox(EdgePair(adj, e), lanes, lane)
    ensures count == LaneCount(adj, e, LaunchPlan.Balanced, lanes, lane)
  {
    count := CountPiece(EdgePair(adj, e), lanes, lane, box);
  }

  method CountPiece(p: BalancedKernel.Pair, lanes: nat, lane: nat, box: Option<BalancedKernel.Box>)
    returns (count: nat)
    requires BalancedKernel.Runnable(p, lanes) && lane < lanes && box == BalancedKernel.LaneBox(p, lanes, lane)
    ensures count == PieceSize(p, lanes, lane)
  {
    count := 0;
    if box.Some? {
      PairCount.LaneBoxFits(p, lanes, lane);
      var b := box.value;
      count := CountByMerge(p.u, p.v, b.uiBegin, b.uiEnd, b.viBegin, b.viEnd);
    }
  }

  /** The imbalanced kernel's work on one queue item. */
  method RunImbalancedLane(adj: Adjacency, e: Edge, lanes: nat, lane: nat) returns (count: nat)
    requires SortedAdjacency(adj) && InGraph(adj, e) && lane < lanes
    ensures count == LaneCount(adj, e, LaunchPlan.Imbalanced, lanes, lane)
  {
    var srcLen, destLen := |adj[e.src]|, |adj[e.dst]|;
    count := 0;
    if !(e.src == e.dst || srcLen < 2) {
      var sourceSmaller := srcLen < destLen;
      var u := adj[if sourceSmaller then e.src else e.dst];
      var v := adj[if sourceSmaller then e.dst else e.src];
      assert BalancedKernel.Pair(u, v) == EdgePair(adj, e);
      count := CountSlice(u, v, lanes, lane);
    }
  }

  /** The lane's slice of the shorter list against the whole longer one. */
  method CountSlice(u: seq<int>, v: seq<int>, lanes: nat, lane: nat) returns (count: nat)
    requires StrictlyIncreasing(u) && StrictlyIncreasing(v) && lane < lanes
    ensures count == SliceSize(BalancedKernel.Pair(u, v), lanes, lane)
  {
    var workPerThread, remainderWork := |u| / lanes, |u| % lanes;
    var uiBegin := lane * workPerThread + WorkSplit.Min(lane, remainderWork);
    var uiEnd := (lane + 1) * workPerThread + WorkSplit.Min(lane + 1, remainderWork) - 1;
    assert PairCount.LaneSlice(u, v, lanes, lane) == BalancedKernel.Box(uiBegin, uiEnd, 0, |v| - 1);
    count := 0;
    if uiEnd < |u| {
      count := CountBySearch(u, v, uiBegin, uiEnd, 0, |v| - 1);
    }
  }

  function LaneCounts(adj: Adjacency, e: Edge, kernel: LaunchPlan.Kernel, lanes: nat): seq<nat>
    requires InGraph(adj, e) && CanRun(adj, e, kernel, lanes)
  {
    seq(lanes, lane requires 0 <= lane < lanes => LaneCount(adj, e, kernel, lanes, lane))
  }

  lemma {:induction false} SizesAddUp<T>(parts: seq<set<T>>, counts: seq<nat>)
    requires |parts| == |counts| && forall k :: 0 <= k < |parts| ==> counts[k] == |parts[k]|
    ensures SumOf(counts, (c: nat) => c) == Partition.SizeSum(parts)
  {
    if parts != [] {
      SizesAddUp(parts[..|parts| - 1], counts[..|parts| - 1]);
    }
  }

  lemma {:induction false} ZerosAddUp(counts: seq<nat>)
    requires forall k :: 0 <= k < |counts| ==> counts[k] == 0
    ensures SumOf(counts, (c: nat) => c) == 0
  {
    if counts != [] {
      ZerosAddUp(counts[..|counts| - 1]);
    }
  }

  /** In either kernel and for any group size, the lanes together count the common neighbours once. */
  lemma {:induction false} LanesAddUp(adj: Adjacency, e: Edge, kernel: LaunchPlan.Kernel, lanes: nat)
    requires SortedAdjacency(adj) && InGraph(adj, e) && CanRun(adj, e, kernel, lanes) && lanes > 0
    ensures SumOf(LaneCounts(adj, e, kernel, lanes), (c: nat) => c) == Weight(adj, e)
  {
    var p := EdgePair(adj, e);
    var counts := LaneCounts(adj, e, kernel, lanes);
    CommonIsSymmetric(adj[e.src], adj[e.dst]);
    if Avoided(adj, e) {
      ZerosAddUp(counts);
    } else if kernel == LaunchPlan.Balanced {
      PairCount.BalancedTotal(p, lanes);
      SizesAddUp(PairCount.BalancedParts(p, lanes), counts);
    } else {
      PairCount.SliceTotal(p.u, p.v, lanes);
      SizesAddUp(PairCount.SliceParts(p.u, p.v, lanes), counts);
    }
  }
}
