/**
 * The even split of some work among the lanes of one thread group
 * (primitives/Operator++.i.cuh, lines 135-139 and 237-241).
 */
module WorkSplit {

  function Min(a: int, b: int): int {
    if a <= b then a else b
  }

  /** The first work item of a lane; lane number `lanes` marks the end. */
  function Start(work: nat, lanes: nat, lane: nat): (s: nat)
    requires lanes > 0
  {
    lane * (work / lanes) + Min(lane, work % lanes)
  }

  /** Each lane gets work/lanes items, and the first work%lanes lanes get one more. */
  lemma {:induction false} StartStep(work: nat, lanes: nat, lane: nat)
    requires lanes > 0
    ensures Start(work, lanes, lane + 1) - Start(work, lanes, lane)
         == work / lanes + (if lane < work % lanes then 1 else 0)
  {
    assert (lane + 1) * (work / lanes) == lane * (work / lanes) + work / lanes;
  }

  lemma {:induction false} StartEnds(work: nat, lanes: nat)
    requires lanes > 0
    ensures Start(work, lanes, 0) == 0 && Start(work, lanes, lanes) == work
  {
    assert lanes * (work / lanes) + work % lanes == work;
  }

  lemma {:induction false} StartIsMonotone(work: nat, lanes: nat, lane: nat, later: nat)
    requires lanes > 0 && lane <= later
    ensures Start(work, lanes, lane) <= Start(work, lanes, later)
    decreases later - lane
  {
    if lane < later {
      StartIsMonotone(work, lanes, lane, later - 1);
      StartStep(work, lanes, later - 1);
    }
  }

  /** A lane without work has nothing but idle lanes behind it, so it starts at the very end. */
  lemma {:induction false} IdleLaneStartsAtEnd(work: nat, lanes: nat, lane: nat)
    requires lane < lanes && Start(work, lanes, lane) == Start(work, lanes, lane + 1)
    ensures Start(work, lanes, lane) == work
  {
    StartStep(work, lanes, lane);
    StartEnds(work, lanes);
    assert work / lanes == 0 && work % lanes == work <= lane;
    assert lane * (work / lanes) == 0;
  }

  /** Every work item belongs to exactly one lane. */
  lemma {:induction false} OwnerFrom(work: nat, lanes: nat, item: nat, from: nat) returns (lane: nat)
    requires from < lanes && Start(work, lanes, from) <= item < work
    ensures from <= lane < lanes && Start(work, lanes, lane) <= item < Start(work, lanes, lane + 1)
    decreases lanes - from
  {
    if item < Start(work, lanes, from + 1) {
      lane := from;
    } else {
      StartEnds(work, lanes);
      lane := OwnerFrom(work, lanes, item, from + 1);
    }
  }
}
