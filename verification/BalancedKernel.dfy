/**
 * The balanced intersection kernel (primitives/Operator++.i.cuh, lines 97-198): one thread block runs
 * 256 / lanes groups of `lanes` threads, each group intersecting one pair of adjacency lists.  A thread
 * writes its path point before the barrier and reads its right neighbour's after it.
 */
module BalancedKernel {
  import opened AdjacencyPath
  import opened EngineConstants
  import opened Order
  import opened Wrappers
  import Arith
  import WorkSplit

  /** The sub-rectangle of the grid that a thread hands to the operator, both ends inclusive. */
  datatype Box = Box(uiBegin: int, uiEnd: int, viBegin: int, viEnd: int)

  /** The pair of lists of one queue item, |u| <= |v| as the kernel arranges. */
  datatype Pair = Pair(u: seq<int>, v: seq<int>)

  predicate Usable(p: Pair) {
    && 1 <= |p.u| <= |p.v|
    && StrictlyIncreasing(p.u) && StrictlyIncreasing(p.v)
  }

  /**
   * What a group of `lanes` threads can intersect.  An empty list has no path to search; a single thread never
   * searches it.
   */
  predicate Runnable(p: Pair, lanes: nat) {
    Usable(p) || (p.u == [] && p.v != [] && StrictlyIncreasing(p.v) && lanes == 1)
  }

  predicate Holds(b: Box, i: int, j: int) {
    b.uiBegin <= i <= b.uiEnd && b.viBegin <= j <= b.viEnd
  }

  /** What lane `lane` of a group of `lanes` hands to the operator: a piece of the merge path, if there is one. */
  function LaneBox(p: Pair, lanes: nat, lane: nat): Option<Box>
    requires Runnable(p, lanes) && lane < lanes
  {
    var work := TotalWork(p.u, p.v);
    var first := WorkSplit.Start(work, lanes, lane);
    var next := WorkSplit.Start(work, lanes, lane + 1);
    if p.u == [] then
      if work > 0 then Some(Box(0, -1, 0, |p.v| - 1)) else None
    else if first < work then
      PieceIsNonEmpty(p, lanes, lane);
      var a := PathCell(p.u, p.v, first);
      var z := PathCell(p.u, p.v, next - 1);
      Some(Box(a.ui, z.ui, a.vi, z.vi))
    else
      None
  }

  lemma {:induction false} PieceIsNonEmpty(p: Pair, lanes: nat, lane: nat)
    requires Runnable(p, lanes) && lane < lanes
    requires WorkSplit.Start(TotalWork(p.u, p.v), lanes, lane) < TotalWork(p.u, p.v)
    ensures WorkSplit.Start(TotalWork(p.u, p.v), lanes, lane)
          < WorkSplit.Start(TotalWork(p.u, p.v), lanes, lane + 1) <= TotalWork(p.u, p.v)
  {
    var work := TotalWork(p.u, p.v);
    if WorkSplit.Start(work, lanes, lane) == WorkSplit.Start(work, lanes, lane + 1) {
      WorkSplit.IdleLaneStartsAtEnd(work, lanes, lane);
    }
    WorkSplit.StartIsMonotone(work, lanes, lane, lane + 1);
    WorkSplit.StartIsMonotone(work, lanes, lane + 1, lanes);
    WorkSplit.StartEnds(work, lanes);
  }

  // ---------------------------------------------------------------------------------------------
  // The partition of the matches

  lemma {:induction false} BoxIsNonEmpty(p: Pair, lanes: nat, lane: nat)
    requires Usable(p) && lane < lanes && LaneBox(p, lanes, lane).Some?
    ensures var b := LaneBox(p, lanes, lane).value;
            0 <= b.uiBegin <= b.uiEnd < |p.u| && 0 <= b.viBegin <= b.viEnd < |p.v|
  {
    var work := TotalWork(p.u, p.v);
    PieceIsNonEmpty(p, lanes, lane);
    PathIsMonotone(p.u, p.v, WorkSplit.Start(work, lanes, lane), WorkSplit.Start(work, lanes, lane + 1) - 1);
  }

  /** Boxes of different lanes share no cell: the later one starts strictly beyond the earlier one. */
  lemma {:induction false} BoxesAreDisjoint(p: Pair, lanes: nat, lane: nat, later: nat, i: int, j: int)
    requires Usable(p) && lane < later < lanes
    requires LaneBox(p, lanes, lane).Some? && LaneBox(p, lanes, later).Some?
    ensures !(Holds(LaneBox(p, lanes, lane).value, i, j) && Holds(LaneBox(p, lanes, later).value, i, j))
  {
    var work := TotalWork(p.u, p.v);
    PieceIsNonEmpty(p, lanes, lane);
    var last := WorkSplit.Start(work, lanes, lane + 1) - 1;
    var first := WorkSplit.Start(work, lanes, later);
    WorkSplit.StartIsMonotone(work, lanes, lane + 1, later);
    PathIsMonotone(p.u, p.v, last, first);
  }

  lemma {:induction false} PieceHoldsItsCells(p: Pair, lanes: nat, lane: nat, d: nat)
    requires Usable(p) && lane < lanes
    requires WorkSplit.Start(TotalWork(p.u, p.v), lanes, lane) <= d
    requires d < WorkSplit.Start(TotalWork(p.u, p.v), lanes, lane + 1)
    requires d < TotalWork(p.u, p.v)
    ensures LaneBox(p, lanes, lane).Some?
    ensures Holds(LaneBox(p, lanes, lane).value, PathCell(p.u, p.v, d).ui, PathCell(p.u, p.v, d).vi)
  {
    PieceIsNonEmpty(p, lanes, lane);
    var work := TotalWork(p.u, p.v);
    var first, last := WorkSplit.Start(work, lanes, lane), WorkSplit.Start(work, lanes, lane + 1) - 1;
    var a, z := PathCell(p.u, p.v, first), PathCell(p.u, p.v, last);
    assert LaneBox(p, lanes, lane) == Some(Box(a.ui, z.ui, a.vi, z.vi));
    PathStaysBetween(p, first, d, last);
  }

  /** A stretch of the path stays inside the box of its first and last cell. */
  lemma {:induction false} PathStaysBetween(p: Pair, first: nat, d: nat, last: nat)
    requires Usable(p) && first <= d <= last < TotalWork(p.u, p.v)
    ensures var a, z, c := PathCell(p.u, p.v, first), PathCell(p.u, p.v, last), PathCell(p.u, p.v, d);
            Holds(Box(a.ui, z.ui, a.vi, z.vi), c.ui, c.vi)
  {
    PathIsMonotone(p.u, p.v, first, d);
    PathIsMonotone(p.u, p.v, d, last);
  }

  /** Every match lies in the box of some lane. */
  lemma {:induction false} MatchHasLane(p: Pair, lanes: nat, i: nat, j: nat) returns (lane: nat)
    requires Usable(p) && lanes > 0
    requires i < |p.u| && j < |p.v| && p.u[i] == p.v[j]
    ensures lane < lanes && LaneBox(p, lanes, lane).Some? && Holds(LaneBox(p, lanes, lane).value, i, j)
  {
    WorkSplit.StartEnds(TotalWork(p.u, p.v), lanes);
    lane := WorkSplit.OwnerFrom(TotalWork(p.u, p.v), lanes, i + j, 0);
    PieceHoldsItsCells(p, lanes, lane, i + j);
    MatchesLieOnPath(p.u, p.v, i, j);
  }

  /** The work is balanced: the pieces have equally many cells, and the first ones take one more if some are left. */
  lemma {:induction false} PiecesAreBalanced(p: Pair, lanes: nat, lane: nat)
    requires Usable(p) && lane < lanes && LaneBox(p, lanes, lane).Some?
    ensures var b := LaneBox(p, lanes, lane).value;
            var cells := b.uiEnd + b.viEnd - (b.uiBegin + b.viBegin) + 1;
            var work := |p.u| + |p.v| - 1;
            cells == work / lanes + if lane < work % lanes then 1 else 0
  {
    PieceIsNonEmpty(p, lanes, lane);
    WorkSplit.StartStep(TotalWork(p.u, p.v), lanes, lane);
  }

  // ---------------------------------------------------------------------------------------------
  // The kernel: two phases separated by a barrier

  /** An order in which the threads of a block run one phase: each of them once. */
  predicate IsSchedule(order: seq<nat>, threads: nat) {
    && Covers(order, threads)
    && (forall k, l :: 0 <= k < l < |order| ==> order[k] != order[l])
  }

  predicate Covers(order: seq<nat>, threads: nat) {
    && (forall k :: 0 <= k < |order| ==> order[k] < threads)
    && (forall t: nat :: t < threads ==> t in order)
  }

  predicate WellFormedBlock(pairs: seq<Option<Pair>>, lanes: nat) {
    && 0 < lanes && |pairs| * lanes == BLOCK_SIZE
    && forall g :: 0 <= g < |pairs| && pairs[g].Some? ==> Runnable(pairs[g].value, lanes)
  }

  lemma {:induction false} ThreadIsInGroup(pairs: seq<Option<Pair>>, lanes: nat, t: nat)
    requires WellFormedBlock(pairs, lanes) && t < BLOCK_SIZE
    ensures t / lanes < |pairs| && t % lanes < lanes && t == (t / lanes) * lanes + t % lanes
  {
    Arith.DivIsBelow(t, lanes, |pairs|);
  }

  /** The next lane of the same group is the next thread of the block. */
  lemma {:induction false} NextLaneIsNextThread(lanes: nat, t: nat, groups: nat)
    requires 0 < lanes && t % lanes + 1 < lanes && t < groups * lanes
    ensures (t + 1) / lanes == t / lanes && (t + 1) % lanes == t % lanes + 1
    ensures t + 1 < groups * lanes
  {
    var g, lane := t / lanes, t % lanes;
    assert t + 1 == g * lanes + (lane + 1);
    Arith.DivModUnique(t + 1, lanes, g, lane + 1);
    Arith.DivIsBelow(t, lanes, groups);
    Arith.MulMonotone(g + 1, groups, lanes);
  }

  /** The box of one lane of a group that may have no item. */
  function GroupBox(item: Option<Pair>, lanes: nat, lane: nat): Option<Box>
    requires lane < lanes && (item.Some? ==> Runnable(item.value, lanes))
  {
    match item
    case None => None
    case Some(p) => LaneBox(p, lanes, lane)
  }

  /** The box of thread t of the block, if its group has an item and it has work. */
  function ThreadBox(pairs: seq<Option<Pair>>, lanes: nat, t: nat): Option<Box>
    requires WellFormedBlock(pairs, lanes) && t < BLOCK_SIZE
  {
    ThreadIsInGroup(pairs, lanes, t);
    GroupBox(pairs[t / lanes], lanes, t % lanes)
  }

  /** The diagonals at which a piece begins and ends; an empty list leaves all diagonals to one piece. */
  predicate IsPiece(p: Pair, first: nat, next: nat) {
    && (Usable(p) || (p.u == [] && p.v != [] && first == 0 && next == TotalWork(p.u, p.v)))
    && (first < TotalWork(p.u, p.v) ==> first < next <= TotalWork(p.u, p.v))
  }

  lemma {:induction false} LaneHasPiece(p: Pair, lanes: nat, lane: nat)
    requires Runnable(p, lanes) && lane < lanes
    ensures IsPiece(p, WorkSplit.Start(TotalWork(p.u, p.v), lanes, lane),
                    WorkSplit.Start(TotalWork(p.u, p.v), lanes, lane + 1))
  {
    var work := TotalWork(p.u, p.v);
    if WorkSplit.Start(work, lanes, lane) < work {
      PieceIsNonEmpty(p, lanes, lane);
    }
    if p.u == [] {
      WorkSplit.StartEnds(work, 1);
    }
  }

  /** The cell before a piece, if it has one and it is not the first. */
  function PointBefore(p: Pair, diag: nat): Option<Cell>
    requires |p.v| > 0
  {
    if p.u != [] && 0 < diag < TotalWork(p.u, p.v) then Some(PathCell(p.u, p.v, diag - 1)) else None
  }

  /** What a lane looks for in the first phase. */
  function PointOf(p: Pair, lanes: nat, lane: nat): Option<Cell>
    requires Runnable(p, lanes) && lane < lanes
  {
    PointBefore(p, WorkSplit.Start(TotalWork(p.u, p.v), lanes, lane))
  }

  /** What it needs from the next lane in the second phase: the last cell of its piece, unless that is the corner. */
  function NeededPoint(p: Pair, lanes: nat, lane: nat): Option<Cell>
    requires Runnable(p, lanes) && lane < lanes
  {
    var work := TotalWork(p.u, p.v);
    if WorkSplit.Start(work, lanes, lane) < work then PointBefore(p, WorkSplit.Start(work, lanes, lane + 1)) else None
  }

  /** The next lane looks for exactly what this one needs. */
  lemma {:induction false} NeighbourHasPoint(p: Pair, lanes: nat, lane: nat)
    requires Runnable(p, lanes) && lane < lanes && NeededPoint(p, lanes, lane).Some?
    ensures lane + 1 < lanes && PointOf(p, lanes, lane + 1) == NeededPoint(p, lanes, lane)
  {
    PieceIsNonEmpty(p, lanes, lane);
    WorkSplit.StartEnds(TotalWork(p.u, p.v), lanes);
  }

  /** The box of a piece whose last cell is taken from `seen`, unless it is the corner. */
  function BoxOfPiece(p: Pair, first: nat, next: nat, seen: Cell): Option<Box>
    requires IsPiece(p, first, next)
  {
    if first >= TotalWork(p.u, p.v) then None
    else
      var a := if p.u == [] then Cell(0, 0) else PathCell(p.u, p.v, first);
      var z := if next < TotalWork(p.u, p.v) then seen else Cell(|p.u| - 1, |p.v| - 1);
      Some(Box(a.ui, z.ui, a.vi, z.vi))
  }

  /** The box that a lane emits when it finds cell `seen` in its neighbour's slot. */
  function BoxSeen(p: Pair, lanes: nat, lane: nat, seen: Cell): Option<Box>
    requires Runnable(p, lanes) && lane < lanes
  {
    var work := TotalWork(p.u, p.v);
    LaneHasPiece(p, lanes, lane);
    BoxOfPiece(p, WorkSplit.Start(work, lanes, lane), WorkSplit.Start(work, lanes, lane + 1), seen)
  }

  /** It is the lane's own piece exactly if that cell is the one that the lane needs, or it needs none. */
  lemma {:induction false} BoxSeenIsOwn(p: Pair, lanes: nat, lane: nat, seen: Cell)
    requires Runnable(p, lanes) && lane < lanes
    ensures BoxSeen(p, lanes, lane, seen) == LaneBox(p, lanes, lane)
       <==> (NeededPoint(p, lanes, lane).Some? ==> seen == NeededPoint(p, lanes, lane).value)
  {
    LaneHasPiece(p, lanes, lane);
    var work := TotalWork(p.u, p.v);
    if p.u != [] && WorkSplit.Start(work, lanes, lane) < work {
      var z := PathCell(p.u, p.v, WorkSplit.Start(work, lanes, lane + 1) - 1);
    }
  }

  /** The ends of the diagonal before a piece, as far as they lie inside the grid. */
  method SearchRange(uLen: nat, vLen: nat, diagId: nat) returns (lowVi: int, lowUi: int, highVi: int, highUi: int)
    requires 0 < uLen <= vLen && 0 < diagId < uLen + vLen - 1
    ensures 0 <= highUi <= lowUi < uLen && 0 <= lowVi <= highVi < vLen
    ensures lowUi + lowVi == highUi + highVi == diagId - 1
    ensures forall c: Cell :: 0 <= c.ui < uLen && 0 <= c.vi < vLen && c.ui + c.vi == diagId - 1 ==>
              highUi <= c.ui <= lowUi
  {
    if diagId < uLen {
      lowUi := diagId - 1;
      highUi := 0;
      lowVi := 0;
      highVi := diagId - 1;
    } else if diagId < vLen {
      lowUi := uLen - 1;
      highUi := 0;
      lowVi := diagId - uLen;
      highVi := diagId - 1;
    } else {
      lowUi := uLen - 1;
      highUi := diagId - vLen;
      lowVi := diagId - uLen;
      highVi := vLen - 1;
    }
  }

  /** One step along the path. */
  method StepForward(p: Pair, viCurr: int, uiCurr: int) returns (viBegin: int, uiBegin: int)
    requires Usable(p) && InGrid(p.u, p.v, Cell(uiCurr, viCurr)) && uiCurr + viCurr + 1 < TotalWork(p.u, p.v)
    ensures Cell(uiBegin, viBegin) == NextCell(p.u, p.v, Cell(uiCurr, viCurr))
  {
    viBegin := viCurr;
    uiBegin := uiCurr;
    var viInBounds := viCurr < |p.v| - 1;
    var uiInBounds := uiCurr < |p.u| - 1;
    if viInBounds && uiInBounds {
      var comp := p.u[uiCurr + 1] >= p.v[viCurr + 1];
      viBegin := viBegin + if comp then 1 else 0;
      uiBegin := uiBegin + if comp then 0 else 1;
    } else {
      viBegin := viBegin + if viInBounds then 1 else 0;
      uiBegin := uiBegin + if uiInBounds then 1 else 0;
    }
  }

  /** The shared path points and the threads' own copies of them. */
  class BlockMemory {
    const pathPoints: array<int>
    const viCurr: array<int>
    const uiCurr: array<int>

    constructor ()
      ensures fresh(pathPoints) && fresh(viCurr) && fresh(uiCurr) && Valid()
    {
      pathPoints := new int[2 * BLOCK_SIZE];
      viCurr := new int[BLOCK_SIZE];
      uiCurr := new int[BLOCK_SIZE];
    }

    ghost predicate Valid() {
      && pathPoints.Length == 2 * BLOCK_SIZE && viCurr.Length == BLOCK_SIZE && uiCurr.Length == BLOCK_SIZE
      && pathPoints != viCurr && pathPoints != uiCurr && viCurr != uiCurr
    }

    ghost function Arrays(): set<object> {
      {pathPoints, viCurr, uiCurr}
    }

    /** The cell in the shared slot of thread t. */
    ghost function Slot(t: nat): Cell
      requires t < BLOCK_SIZE && Valid()
      reads pathPoints
    {
      Cell(pathPoints[2 * t + 1], pathPoints[2 * t])
    }

    /** The thread's own copy. */
    ghost function Kept(t: nat): Cell
      requires t < BLOCK_SIZE && Valid()
      reads uiCurr, viCurr
    {
      Cell(uiCurr[t], viCurr[t])
    }

    /** Thread t has done its part of the first phase. */
    ghost predicate Ready(pairs: seq<Option<Pair>>, lanes: nat, t: nat)
      requires WellFormedBlock(pairs, lanes) && t < BLOCK_SIZE && Valid()
      reads pathPoints, viCurr, uiCurr
    {
      ThreadIsInGroup(pairs, lanes, t);
      match pairs[t / lanes]
      case None => true
      case Some(p) =>
        var c := PointOf(p, lanes, t % lanes);
        c.Some? ==> Slot(t) == c.value && Kept(t) == c.value
    }

    /** Find the path cell just before diagonal diagId. */
    method SearchPoint(p: Pair, diagId: nat, ghost next: nat, t: nat)
      requires Valid() && t < BLOCK_SIZE && IsPiece(p, diagId, next)
      modifies pathPoints, viCurr, uiCurr
      ensures var c := PointBefore(p, diagId);
              if c.Some? then Slot(t) == c.value && Kept(t) == c.value
              else Slot(t) == old(Slot(t)) && Kept(t) == old(Kept(t))
      ensures forall s: nat :: s < BLOCK_SIZE && s != t ==> Slot(s) == old(Slot(s)) && Kept(s) == old(Kept(s))
    {
      var uLen, vLen := |p.u|, |p.v|;
      if diagId > 0 && diagId < uLen + vLen - 1 {
        var lowVi, lowUi, highVi, highUi := SearchRange(uLen, vLen, diagId);
        ghost var path := PathCell(p.u, p.v, diagId - 1);
        PathCellSplits(p.u, p.v, diagId - 1);
        var vi, ui := BSearchPath(p.u, p.v, lowVi, lowUi, highVi, highUi, path);
        viCurr[t], uiCurr[t] := vi, ui;
        pathPoints[t * 2] := vi;
        pathPoints[t * 2 + 1] := ui;
      }
    }

    /** First phase of one thread: find the path cell just before the thread's own piece. */
    method FindPathPoint(p: Pair, lanes: nat, t: nat)
      requires Valid() && Runnable(p, lanes) && 0 < lanes && t < BLOCK_SIZE
      modifies pathPoints, viCurr, uiCurr
      ensures var c := PointOf(p, lanes, t % lanes);
              if c.Some? then Slot(t) == c.value && Kept(t) == c.value
              else Slot(t) == old(Slot(t)) && Kept(t) == old(Kept(t))
      ensures forall s: nat :: s < BLOCK_SIZE && s != t ==> Slot(s) == old(Slot(s)) && Kept(s) == old(Kept(s))
    {
      var totalWork := |p.u| + |p.v| - 1;
      var lane := t % lanes;
      var diagId := lane * (totalWork / lanes) + WorkSplit.Min(lane, totalWork % lanes);
      LaneHasPiece(p, lanes, lane);
      SearchPoint(p, diagId, WorkSplit.Start(totalWork, lanes, lane + 1), t);
    }

    /** The first cell of a piece: the corner, or one step beyond the thread's own point. */
    method BeginOf(p: Pair, diagId: nat, ghost next: nat, t: nat) returns (viBegin: int, uiBegin: int)
      requires Valid() && t < BLOCK_SIZE && IsPiece(p, diagId, next)
      requires PointBefore(p, diagId).Some? ==> Kept(t) == PointBefore(p, diagId).value
      ensures diagId == 0 ==> uiBegin == 0 && viBegin == 0
      ensures 0 < diagId < TotalWork(p.u, p.v) ==> Cell(uiBegin, viBegin) == PathCell(p.u, p.v, diagId)
    {
      viBegin, uiBegin := -1, -1;
      if diagId == 0 {
        viBegin := 0;
        uiBegin := 0;
      } else if diagId > 0 && diagId < |p.u| + |p.v| - 1 {
        viBegin, uiBegin := StepForward(p, viCurr[t], uiCurr[t]);
      }
    }

    /** Step to the next cell, and read the neighbour's slot. */
    method EmitPiece(p: Pair, diagId: nat, nextDiagId: nat, t: nat) returns (box: Option<Box>)
      requires Valid() && t < BLOCK_SIZE && IsPiece(p, diagId, nextDiagId)
      requires PointBefore(p, diagId).Some? ==> Kept(t) == PointBefore(p, diagId).value
      requires diagId < TotalWork(p.u, p.v) && nextDiagId < TotalWork(p.u, p.v) ==> t + 1 < BLOCK_SIZE
      ensures box == BoxOfPiece(p, diagId, nextDiagId, if t + 1 < BLOCK_SIZE then Slot(t + 1) else Cell(0, 0))
    {
      var totalWork := |p.u| + |p.v| - 1;
      var viBegin, uiBegin := BeginOf(p, diagId, nextDiagId, t);
      var viEnd, uiEnd := -1, -1;
      if diagId < totalWork && nextDiagId >= totalWork {
        viEnd := |p.v| - 1;
        uiEnd := |p.u| - 1;
      } else if diagId < totalWork {
        viEnd := pathPoints[(t + 1) * 2];
        uiEnd := pathPoints[(t + 1) * 2 + 1];
      }
      if diagId < totalWork {
        box := Some(Box(uiBegin, uiEnd, viBegin, viEnd));
      } else {
        box := None;
      }
    }

    /** Second phase of one thread: the box of its own piece, as far as its neighbour's slot says. */
    method EmitBox(p: Pair, lanes: nat, t: nat) returns (box: Option<Box>)
      requires Valid() && Runnable(p, lanes) && 0 < lanes && t < BLOCK_SIZE
      requires var c := PointOf(p, lanes, t % lanes); c.Some? ==> Kept(t) == c.value
      requires NeededPoint(p, lanes, t % lanes).Some? ==> t + 1 < BLOCK_SIZE
      ensures box == BoxSeen(p, lanes, t % lanes, if t + 1 < BLOCK_SIZE then Slot(t + 1) else Cell(0, 0))
    {
      var totalWork := |p.u| + |p.v| - 1;
      var lane := t % lanes;
      var diagId := lane * (totalWork / lanes) + WorkSplit.Min(lane, totalWork % lanes);
      var nextDiagId := (lane + 1) * (totalWork / lanes) + WorkSplit.Min(lane + 1, totalWork % lanes);
      LaneHasPiece(p, lanes, lane);
      box := EmitPiece(p, diagId, nextDiagId, t);
    }

    /**
     * A whole block: every thread runs the first phase, in any order, then every thread runs the second
     * phase, in any order.  Each thread emits exactly its own piece of its group's merge path.
     */
    method RunBlock(pairs: seq<Option<Pair>>, lanes: nat, order1: seq<nat>, order2: seq<nat>)
      returns (boxes: array<Option<Box>>)
      requires Valid() && WellFormedBlock(pairs, lanes)
      requires IsSchedule(order1, BLOCK_SIZE) && IsSchedule(order2, BLOCK_SIZE)
      modifies pathPoints, viCurr, uiCurr
      ensures fresh(boxes) && boxes.Length == BLOCK_SIZE
      ensures forall t: nat :: t < BLOCK_SIZE ==> boxes[t] == ThreadBox(pairs, lanes, t)
    {
      RunFirstPhase(pairs, lanes, order1);
      boxes := RunSecondPhase(pairs, lanes, order2);
    }

    method RunFirstPhase(pairs: seq<Option<Pair>>, lanes: nat, order: seq<nat>)
      requires Valid() && WellFormedBlock(pairs, lanes) && Covers(order, BLOCK_SIZE)
      modifies pathPoints, viCurr, uiCurr
      ensures forall t: nat :: t < BLOCK_SIZE ==> Ready(pairs, lanes, t)
    {
      for k := 0 to |order|
        invariant forall l :: 0 <= l < k ==> Ready(pairs, lanes, order[l])
      {
        FirstPhaseOf(pairs, lanes, order[k]);
      }
      forall t: nat | t < BLOCK_SIZE ensures Ready(pairs, lanes, t) {
        assert t in order;
        var l :| 0 <= l < |order| && order[l] == t;
        assert Ready(pairs, lanes, order[l]);
      }
    }

    method FirstPhaseOf(pairs: seq<Option<Pair>>, lanes: nat, t: nat)
      requires Valid() && WellFormedBlock(pairs, lanes) && t < BLOCK_SIZE
      modifies pathPoints, viCurr, uiCurr
      ensures Ready(pairs, lanes, t)
      ensures forall s: nat :: s < BLOCK_SIZE && old(Ready(pairs, lanes, s)) ==> Ready(pairs, lanes, s)
    {
      ThreadIsInGroup(pairs, lanes, t);
      if pairs[t / lanes].Some? {
        FindPathPoint(pairs[t / lanes].value, lanes, t);
      }
    }

    method RunSecondPhase(pairs: seq<Option<Pair>>, lanes: nat, order: seq<nat>)
      returns (boxes: array<Option<Box>>)
      requires Valid() && WellFormedBlock(pairs, lanes) && Covers(order, BLOCK_SIZE)
      requires forall t: nat :: t < BLOCK_SIZE ==> Ready(pairs, lanes, t)
      ensures fresh(boxes) && boxes.Length == BLOCK_SIZE
      ensures forall t: nat :: t < BLOCK_SIZE ==> boxes[t] == ThreadBox(pairs, lanes, t)
    {
      boxes := new Option<Box>[BLOCK_SIZE](_ => None);
      for k := 0 to |order|
        invariant fresh(boxes)
        invariant forall l :: 0 <= l < k ==> boxes[order[l]] == ThreadBox(pairs, lanes, order[l])
      {
        boxes[order[k]] := SecondPhaseOf(pairs, lanes, order[k]);
      }
      forall t: nat | t < BLOCK_SIZE ensures boxes[t] == ThreadBox(pairs, lanes, t) {
        assert t in order;
        var l :| 0 <= l < |order| && order[l] == t;
        assert boxes[order[l]] == ThreadBox(pairs, lanes, order[l]);
      }
    }

    method SecondPhaseOf(pairs: seq<Option<Pair>>, lanes: nat, t: nat) returns (box: Option<Box>)
      requires Valid() && WellFormedBlock(pairs, lanes) && t < BLOCK_SIZE
      requires forall s: nat :: s < BLOCK_SIZE ==> Ready(pairs, lanes, s)
      ensures box == ThreadBox(pairs, lanes, t)
    {
      ThreadIsInGroup(pairs, lanes, t);
      if pairs[t / lanes].Some? {
        NeighbourIsThread(pairs, lanes, t);
        assert Ready(pairs, lanes, t) && (t + 1 < BLOCK_SIZE ==> Ready(pairs, lanes, t + 1));
        box := EmitBox(pairs[t / lanes].value, lanes, t);
        BoxSeenIsOwn(pairs[t / lanes].value, lanes, t % lanes,
                     if t + 1 < BLOCK_SIZE then Slot(t + 1) else Cell(0, 0));
      } else {
        box := None;
      }
    }
  }

  /** The lane that has the point that a thread needs is the next thread of the block. */
  lemma {:induction false} NeighbourIsThread(pairs: seq<Option<Pair>>, lanes: nat, t: nat)
    requires WellFormedBlock(pairs, lanes) && t < BLOCK_SIZE
    requires t / lanes < |pairs| && pairs[t / lanes].Some?
    ensures var need := NeededPoint(pairs[t / lanes].value, lanes, t % lanes);
            need.Some? ==>
              && t + 1 < BLOCK_SIZE && (t + 1) / lanes == t / lanes && (t + 1) % lanes == t % lanes + 1 < lanes
              && PointOf(pairs[t / lanes].value, lanes, (t + 1) % lanes) == need
  {
    ThreadIsInGroup(pairs, lanes, t);
    if NeededPoint(pairs[t / lanes].value, lanes, t % lanes).Some? {
      NeighbourHasPoint(pairs[t / lanes].value, lanes, t % lanes);
      NextLaneIsNextThread(lanes, t, |pairs|);
    }
  }
}
