/**
 * What the lanes of one group count together: both kernels count every common neighbour of a pair of
 * vertices exactly once (primitives/Operator++.i.cuh, lines 97-198 and 200-246).
 */
module PairCount {
  import opened BalancedKernel
  import opened Intersection
  import opened Order
  import Partition
  import WorkSplit

  predicate Fits(b: Box, u: seq<int>, v: seq<int>) {
    0 <= b.uiBegin <= b.uiEnd + 1 <= |u| && 0 <= b.viBegin <= b.viEnd + 1 <= |v|
  }

  function BoxCommon(b: Box, u: seq<int>, v: seq<int>): set<int>
    requires Fits(b, u, v)
  {
    Common(u[b.uiBegin..b.uiEnd + 1], v[b.viBegin..b.viEnd + 1])
  }

  /** A lane's box lies inside both lists; that of an empty list is empty. */
  lemma {:induction false} LaneBoxFits(p: Pair, lanes: nat, lane: nat)
    requires Runnable(p, lanes) && lane < lanes && LaneBox(p, lanes, lane).Some?
    ensures Fits(LaneBox(p, lanes, lane).value, p.u, p.v)
  {
    if p.u != [] {
      BoxIsNonEmpty(p, lanes, lane);
    }
  }

  /** The values that one lane of the balanced kernel finds. */
  function BalancedPart(p: Pair, lanes: nat, lane: nat): set<int>
    requires Runnable(p, lanes) && lane < lanes
  {
    match LaneBox(p, lanes, lane)
    case None => {}
    case Some(b) =>
      LaneBoxFits(p, lanes, lane);
      BoxCommon(b, p.u, p.v)
  }

  function BalancedParts(p: Pair, lanes: nat): seq<set<int>>
    requires Runnable(p, lanes)
  {
    seq(lanes, lane requires 0 <= lane < lanes => BalancedPart(p, lanes, lane))
  }

  /** A value found by a lane sits at a match inside the lane's box. */
  lemma {:induction false} FoundInBox(b: Box, u: seq<int>, v: seq<int>, x: int) returns (i: nat, j: nat)
    requires Fits(b, u, v) && x in BoxCommon(b, u, v)
    ensures i < |u| && j < |v| && u[i] == x == v[j] && Holds(b, i, j)
  {
    var k :| 0 <= k < |u[b.uiBegin..b.uiEnd + 1]| && u[b.uiBegin..b.uiEnd + 1][k] == x;
    var l :| 0 <= l < |v[b.viBegin..b.viEnd + 1]| && v[b.viBegin..b.viEnd + 1][l] == x;
    i, j := b.uiBegin + k, b.viBegin + l;
  }

  lemma {:induction false} MatchIsFound(b: Box, u: seq<int>, v: seq<int>, i: nat, j: nat)
    requires Fits(b, u, v) && i < |u| && j < |v| && u[i] == v[j] && Holds(b, i, j)
    ensures u[i] in BoxCommon(b, u, v)
  {
    assert u[b.uiBegin..b.uiEnd + 1][i - b.uiBegin] == u[i];
    assert v[b.viBegin..b.viEnd + 1][j - b.viBegin] == u[i];
  }

  lemma {:induction false} BalancedPartsDisjoint(p: Pair, lanes: nat, lane: nat, later: nat)
    requires Runnable(p, lanes) && lane < later < lanes
    ensures BalancedPart(p, lanes, lane) !! BalancedPart(p, lanes, later)
  {
    forall x | x in BalancedPart(p, lanes, lane) ensures x !in BalancedPart(p, lanes, later) {
      if x in BalancedPart(p, lanes, later) {
        BoxIsNonEmpty(p, lanes, lane);
        BoxIsNonEmpty(p, lanes, later);
        var i, j := FoundInBox(LaneBox(p, lanes, lane).value, p.u, p.v, x);
        var i', j' := FoundInBox(LaneBox(p, lanes, later).value, p.u, p.v, x);
        BoxesAreDisjoint(p, lanes, lane, later, i, j);
      }
    }
  }

  lemma {:induction false} BalancedPartsCover(p: Pair, lanes: nat, x: int) returns (lane: nat)
    requires Runnable(p, lanes) && lanes > 0 && x in Common(p.u, p.v)
    ensures lane < lanes && x in BalancedPart(p, lanes, lane)
  {
    var i :| 0 <= i < |p.u| && p.u[i] == x;
    var j :| 0 <= j < |p.v| && p.v[j] == x;
    lane := MatchHasLane(p, lanes, i, j);
    BoxIsNonEmpty(p, lanes, lane);
    MatchIsFound(LaneBox(p, lanes, lane).value, p.u, p.v, i, j);
  }

  /** The lanes of the balanced kernel together count each common neighbour exactly once. */
  lemma {:induction false} BalancedTotal(p: Pair, lanes: nat)
    requires Runnable(p, lanes) && lanes > 0
    ensures Partition.SizeSum(BalancedParts(p, lanes)) == |Common(p.u, p.v)|
  {
    var parts := BalancedParts(p, lanes);
    forall i, j | 0 <= i < j < |parts| ensures parts[i] !! parts[j] {
      BalancedPartsDisjoint(p, lanes, i, j);
    }
    forall x | x in Common(p.u, p.v) ensures exists i :: 0 <= i < |parts| && x in parts[i] {
      var lane := BalancedPartsCover(p, lanes, x);
      assert x in parts[lane];
    }
    forall i | 0 <= i < |parts| ensures parts[i] <= Common(p.u, p.v) {
      forall x | x in parts[i] ensures x in Common(p.u, p.v) {
        LaneBoxFits(p, lanes, i);
        var k, l := FoundInBox(LaneBox(p, lanes, i).value, p.u, p.v, x);
      }
    }
    Partition.PartitionSize(parts, Common(p.u, p.v));
  }

  // ---------------------------------------------------------------------------------------------
  // The imbalanced kernel: slices of the shorter list against the whole longer one

  /** The box of one lane of the imbalanced kernel; its slice of u may be empty. */
  function LaneSlice(u: seq<int>, v: seq<int>, lanes: nat, lane: nat): (b: Box)
    requires lane < lanes
    ensures Fits(b, u, v)
  {
    WorkSplit.StartIsMonotone(|u|, lanes, lane, lane + 1);
    WorkSplit.StartIsMonotone(|u|, lanes, lane + 1, lanes);
    WorkSplit.StartEnds(|u|, lanes);
    Box(WorkSplit.Start(|u|, lanes, lane), WorkSplit.Start(|u|, lanes, lane + 1) - 1, 0, |v| - 1)
  }

  /** The slices follow one another over the whole shorter list, and the first ones take one entry more. */
  lemma {:induction false} SlicesAreBalanced(u: seq<int>, v: seq<int>, lanes: nat, lane: nat)
    requires lane < lanes
    ensures var b := LaneSlice(u, v, lanes, lane);
      && b.uiEnd - b.uiBegin + 1 == |u| / lanes + (if lane < |u| % lanes then 1 else 0)
      && (lane == 0 ==> b.uiBegin == 0)
      && (if lane == lanes - 1 then b.uiEnd == |u| - 1
          else b.uiEnd + 1 == LaneSlice(u, v, lanes, lane + 1).uiBegin)
      && b.viBegin == 0 && b.viEnd == |v| - 1
  {
    WorkSplit.StartStep(|u|, lanes, lane);
    WorkSplit.StartEnds(|u|, lanes);
  }

  function SliceParts(u: seq<int>, v: seq<int>, lanes: nat): seq<set<int>> {
    seq(lanes, lane requires 0 <= lane < lanes => BoxCommon(LaneSlice(u, v, lanes, lane), u, v))
  }

  lemma {:induction false} SlicesDisjoint(u: seq<int>, v: seq<int>, lanes: nat, lane: nat, later: nat)
    requires StrictlyIncreasing(u) && lane < later < lanes
    ensures BoxCommon(LaneSlice(u, v, lanes, lane), u, v) !! BoxCommon(LaneSlice(u, v, lanes, later), u, v)
  {
    var a, b := LaneSlice(u, v, lanes, lane), LaneSlice(u, v, lanes, later);
    WorkSplit.StartIsMonotone(|u|, lanes, lane + 1, later);
    forall x | x in BoxCommon(a, u, v) ensures x !in BoxCommon(b, u, v) {
      var i, j := FoundInBox(a, u, v, x);
      if x in BoxCommon(b, u, v) {
        var i', j' := FoundInBox(b, u, v, x);
      }
    }
  }

  /** The lanes of the imbalanced kernel together count each common neighbour exactly once. */
  lemma {:induction false} SliceTotal(u: seq<int>, v: seq<int>, lanes: nat)
    requires StrictlyIncreasing(u) && lanes > 0
    ensures Partition.SizeSum(SliceParts(u, v, lanes)) == |Common(u, v)|
  {
    var parts := SliceParts(u, v, lanes);
    forall i, j | 0 <= i < j < |parts| ensures parts[i] !! parts[j] {
      SlicesDisjoint(u, v, lanes, i, j);
    }
    forall x | x in Common(u, v) ensures exists i :: 0 <= i < |parts| && x in parts[i] {
      var i :| 0 <= i < |u| && u[i] == x;
      var j :| 0 <= j < |v| && v[j] == x;
      WorkSplit.StartEnds(|u|, lanes);
      var lane := WorkSplit.OwnerFrom(|u|, lanes, i, 0);
      MatchIsFound(LaneSlice(u, v, lanes, lane), u, v, i, j);
      assert x in parts[lane];
    }
    forall i | 0 <= i < |parts| ensures parts[i] <= Common(u, v) {
      forall x | x in parts[i] ensures x in Common(u, v) {
        var k, l := FoundInBox(LaneSlice(u, v, lanes, i), u, v, x);
      }
    }
    Partition.PartitionSize(parts, Common(u, v));
  }
}
