/**
 * When the balanced kernel needs a second barrier (primitives/Operator++.i.cuh, lines 109-197 and 490-501): never on a
 * grid that was not shrunk, because no block has a second round there; beyond that, exactly if some thread needs a cell
 * that its right neighbour replaces in the next round.
 */
module LaunchOverlap {
  import opened AdjacencyPath
  import opened AdjacencyRun
  import opened AdjacencyUnions
  import opened BalancedKernel
  import opened BlockJobs
  import opened EdgeList
  import opened EngineConstants
  import opened KernelRun
  import opened RoundOverlap
  import opened Wrappers
  import Arith
  import EdgeBinning
  import LaunchJobs
  import LaunchPlan
  import PairCount
  import WorkSplit

  /** Between rounds k and k + 1 of block b every thread emits in time, in every order. */
  ghost predicate RoundInTime(adj: Adjacency, q: seq<Edge>, l: LaunchPlan.Launch, groups: nat, blocks: nat, b: nat,
                              k: nat)
    requires BalancedGrid(adj, q, l, groups, blocks)
  {
    ItemsAreWellFormed(adj, q, l, groups, blocks, b, k);
    ItemsAreWellFormed(adj, q, l, groups, blocks, b, k + 1);
    AlwaysInTime(BlockItems(adj, q, l, groups, b, k), BlockItems(adj, q, l, groups, b, k + 1), l.lanes)
  }

  /** No cell that is needed in round k is replaced in round k + 1: a condition on the lists of the queue alone. */
  ghost predicate RoundKeepsCells(adj: Adjacency, q: seq<Edge>, l: LaunchPlan.Launch, groups: nat, blocks: nat, b: nat,
                                  k: nat)
    requires BalancedGrid(adj, q, l, groups, blocks)
  {
    ItemsAreWellFormed(adj, q, l, groups, blocks, b, k);
    ItemsAreWellFormed(adj, q, l, groups, blocks, b, k + 1);
    NothingReplaced(BlockItems(adj, q, l, groups, b, k), BlockItems(adj, q, l, groups, b, k + 1), l.lanes)
  }

  /** One barrier a round is enough for the launch: no order of any block makes a thread emit a wrong box. */
  ghost predicate OneBarrierIsEnough(adj: Adjacency, q: seq<Edge>, l: LaunchPlan.Launch, groups: nat, blocks: nat)
    requires BalancedGrid(adj, q, l, groups, blocks)
  {
    forall b: nat, k: nat :: b < blocks && k + 1 < BlockRounds(l, groups, b) ==>
      RoundInTime(adj, q, l, groups, blocks, b, k)
  }

  ghost predicate KeepsCells(adj: Adjacency, q: seq<Edge>, l: LaunchPlan.Launch, groups: nat, blocks: nat)
    requires BalancedGrid(adj, q, l, groups, blocks)
  {
    forall b: nat, k: nat :: b < blocks && k + 1 < BlockRounds(l, groups, b) ==>
      RoundKeepsCells(adj, q, l, groups, blocks, b, k)
  }

  /** For every launch of the balanced kernel, of any group size and on any grid. */
  lemma {:induction false} OneBarrierIff(adj: Adjacency, q: seq<Edge>, l: LaunchPlan.Launch, groups: nat, blocks: nat)
    requires BalancedGrid(adj, q, l, groups, blocks)
    ensures OneBarrierIsEnough(adj, q, l, groups, blocks) <==> KeepsCells(adj, q, l, groups, blocks)
  {
    forall b: nat, k: nat
      ensures RoundInTime(adj, q, l, groups, blocks, b, k) <==> RoundKeepsCells(adj, q, l, groups, blocks, b, k)
    {
      ItemsAreWellFormed(adj, q, l, groups, blocks, b, k);
      ItemsAreWellFormed(adj, q, l, groups, blocks, b, k + 1);
      AlwaysInTimeIff(BlockItems(adj, q, l, groups, b, k), BlockItems(adj, q, l, groups, b, k + 1), l.lanes);
    }
  }

  /** A launch whose threads fit into one grid needs no other barrier, whatever its lists are. */
  lemma {:induction false} FittingLaunchNeedsNone(adj: Adjacency, q: seq<Edge>, l: LaunchPlan.Launch, gridSize: nat,
          items: nat, groups: nat, blocks: nat)
    requires BalancedGrid(adj, q, l, groups, blocks) && l.start <= l.end && IsGrid(l, gridSize, items, groups)
    requires (l.end - l.start) * l.lanes <= LaunchPlan.MAX_GRID
    ensures OneBarrierIsEnough(adj, q, l, groups, blocks)
  {
    OneRoundIffFits(l, gridSize, items, groups);
  }

  // ---------------------------------------------------------------------------------------------
  // Two edges that do not get along

  /** Two edges of an acyclic graph, from 18 to 19 and from 16 to 17, whose ends have eight neighbours each. */
  predicate HasGadget(adj: Adjacency) {
    && |adj| >= 20
    && adj[16] == [0, 1, 2, 3, 4, 5, 6, 17] && adj[17] == [8, 9, 10, 11, 12, 13, 14, 15]
    && adj[18] == [0, 1, 2, 3, 4, 5, 6, 19] && adj[19] == [0, 1, 2, 3, 4, 5, 6, 7]
  }

  /** With the usual work factor such edges are launched in groups of two threads. */
  lemma {:induction false} EightNeighboursTakeTwoLanes()
    ensures var b := EdgeBinning.Bin(1, 8, 8);
      b < MAX_BINS / 2 && Arith.Pow2(LaunchPlan.SizeOfBin(b) - 1) == 2
  {
    assert EdgeBinning.BitLength(8) == 1 + EdgeBinning.BitLength(4) == 4;
  }

  /** The first lane ends at the splitting cell of its last diagonal. */
  lemma {:induction false} FirstLaneEnds(p: Pair, lanes: nat, c: Cell)
    requires Usable(p) && lanes > 1 && InGrid(p.u, p.v, c) && Splits(p.u, p.v, c)
    requires WorkSplit.Start(TotalWork(p.u, p.v), lanes, 0) == 0
    requires WorkSplit.Start(TotalWork(p.u, p.v), lanes, 1) == c.ui + c.vi + 1 < TotalWork(p.u, p.v)
    ensures NeededPoint(p, lanes, 0) == PointOf(p, lanes, 1) == Some(c)
    ensures LaneBox(p, lanes, 0) == Some(Box(0, c.ui, 0, c.vi))
  {
    PathCellIffSplits(p.u, p.v, c);
  }

  lemma {:induction false} HalfOfFifteen(work: nat)
    requires work == 15
    ensures WorkSplit.Start(work, 2, 0) == 0 && WorkSplit.Start(work, 2, 1) == 8
  {
  }

  /** With two lists of eight entries and two lanes that is diagonal 7. */
  lemma {:induction false} MiddleOfEight(p: Pair, c: Cell)
    requires Usable(p) && |p.u| == |p.v| == 8 && InGrid(p.u, p.v, c) && c.ui + c.vi == 7 && Splits(p.u, p.v, c)
    ensures NeededPoint(p, 2, 0) == PointOf(p, 2, 1) == Some(c)
    ensures LaneBox(p, 2, 0) == Some(Box(0, c.ui, 0, c.vi))
  {
    HalfOfFifteen(TotalWork(p.u, p.v));
    FirstLaneEnds(p, 2, c);
  }

  lemma {:induction false} PathOfFirst(p: Pair)
    requires p.u == [0, 1, 2, 3, 4, 5, 6, 7] && p.v == [0, 1, 2, 3, 4, 5, 6, 19]
    ensures Usable(p) && NeededPoint(p, 2, 0) == Some(Cell(3, 4)) && LaneBox(p, 2, 0) == Some(Box(0, 3, 0, 4))
  {
    MiddleOfEight(p, Cell(3, 4));
  }

  lemma {:induction false} PathOfSecond(p: Pair)
    requires p.u == [8, 9, 10, 11, 12, 13, 14, 15] && p.v == [0, 1, 2, 3, 4, 5, 6, 17]
    ensures Usable(p) && PointOf(p, 2, 1) == Some(Cell(1, 6))
  {
    MiddleOfEight(p, Cell(1, 6));
  }

  /** The first group of a launch looks at the first position, and in its second round at the one `groups` further. */
  lemma {:induction false} FirstGroup(adj: Adjacency, q: seq<Edge>, l: LaunchPlan.Launch, groups: nat, k: nat)
    requires LaunchOk(adj, q, l) && l.lanes == 2
    ensures BlockItems(adj, q, l, groups, 0, k) != []
    ensures BlockItems(adj, q, l, groups, 0, k)[0] == Item(adj, q, l, l.start + k * groups)
  {
    assert GroupPos(l, groups, 0, k, 0) == l.start + k * groups;
  }

  /**
   * In any launch in groups of two whose grid was shrunk: if the first group meets the one edge and in the next round
   * the other, one barrier a round is not enough.
   */
  lemma {:induction false} GadgetNeedsBarrier(adj: Adjacency, q: seq<Edge>, l: LaunchPlan.Launch, groups: nat,
          blocks: nat)
    requires BalancedGrid(adj, q, l, groups, blocks) && l.lanes == 2 && HasGadget(adj)
    requires l.start + groups < l.end
    requires q[l.start] == Edge(18, 19) && q[l.start + groups] == Edge(16, 17)
    ensures !OneBarrierIsEnough(adj, q, l, groups, blocks)
  {
    ItemsAreWellFormed(adj, q, l, groups, blocks, 0, 0);
    ItemsAreWellFormed(adj, q, l, groups, blocks, 0, 1);
    var pairs, next := BlockItems(adj, q, l, groups, 0, 0), BlockItems(adj, q, l, groups, 0, 1);
    PathOfFirst(EdgePair(adj, Edge(18, 19)));
    PathOfSecond(EdgePair(adj, Edge(16, 17)));
    FirstGroup(adj, q, l, groups, 0);
    FirstGroup(adj, q, l, groups, 1);
    PointAt(pairs, 2, 0, 0, 0);
    PointAt(next, 2, 1, 0, 1);
    assert !RoundKeepsCells(adj, q, l, groups, blocks, 0, 0);
    SecondRound(l, groups, blocks);
    OneBarrierIff(adj, q, l, groups, blocks);
  }

  lemma {:induction false} SecondRound(l: LaunchPlan.Launch, groups: nat, blocks: nat)
    requires l.lanes > 0 && groups > 0 && l.start + groups < l.end && blocks * BLOCK_SIZE == groups * l.lanes
    ensures 0 < blocks && BlockRounds(l, groups, 0) > 1
  {
    Arith.MulMonotone(1, groups, l.lanes);
    LaunchJobs.RoundsBound(l.start, groups, l.end, 1);
    assert BlockStart(l, 0) == l.start;
  }

  /** The first thread then gets a box that ends where the other edge's piece ends, and misses a common neighbour. */
  lemma {:induction false} GadgetLosesMatch(p: Pair)
    requires p.u == [0, 1, 2, 3, 4, 5, 6, 7] && p.v == [0, 1, 2, 3, 4, 5, 6, 19]
    ensures Usable(p) && LaneBox(p, 2, 0) == Some(Box(0, 3, 0, 4))
    ensures BoxSeen(p, 2, 0, Cell(1, 6)) == Some(Box(0, 1, 0, 6))
    ensures 3 in PairCount.BoxCommon(Box(0, 3, 0, 4), p.u, p.v)
    ensures 3 !in PairCount.BoxCommon(Box(0, 1, 0, 6), p.u, p.v)
  {
    PathOfFirst(p);
    SeenFromFirst(p, 2, Cell(1, 6));
    PairCount.MatchIsFound(Box(0, 3, 0, 4), p.u, p.v, 3, 3);
    assert p.u[0..2] == [0, 1];
  }

  lemma {:induction false} SeenFromFirst(p: Pair, lanes: nat, c: Cell)
    requires Usable(p) && lanes > 0 && NeededPoint(p, lanes, 0).Some?
    ensures BoxSeen(p, lanes, 0, c) == Some(Box(0, c.ui, 0, c.vi))
  {
    WorkSplit.StartEnds(TotalWork(p.u, p.v), lanes);
  }
}
