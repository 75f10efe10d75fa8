/**
 * Two rounds of a block with no barrier between them.  The loop of the balanced kernel has its one barrier inside a
 * round (primitives/Operator++.i.cuh, lines 111-197): behind it a thread reads its right neighbour's slot and may at
 * once look for the point of its next item, in its own slot.  Nothing keeps it from doing so before its left
 * neighbour has read that slot.
 */
module RoundOverlap {
  import opened AdjacencyPath
  import opened BalancedKernel
  import opened EngineConstants
  import opened Wrappers
  import Arith

  /** What threads do between two barriers: the second phase of a round and the first phase of the next one. */
  datatype Step = Emit(thread: nat) | Find(thread: nat)

  /** Every thread emits its box once; it may then look for its next point, once. */
  predicate IsOverlap(order: seq<Step>) {
    && (forall k :: 0 <= k < |order| ==> order[k].thread < BLOCK_SIZE)
    && (forall k, m :: 0 <= k < m < |order| ==> order[k] != order[m])
    && (forall t: nat :: t < BLOCK_SIZE ==> Emit(t) in order)
    && (forall k, m :: 0 <= k < m < |order| && order[k].Find? ==> order[m] != Emit(order[k].thread))
  }

  /** The point that thread t finds in the first phase, for the items of one round. */
  function ThreadPoint(pairs: seq<Option<Pair>>, lanes: nat, t: nat): Option<Cell>
    requires WellFormedBlock(pairs, lanes) && t < BLOCK_SIZE
  {
    ThreadIsInGroup(pairs, lanes, t);
    match pairs[t / lanes]
    case None => None
    case Some(p) => PointOf(p, lanes, t % lanes)
  }

  /** The point that it needs from its right neighbour in the second phase. */
  function ThreadNeed(pairs: seq<Option<Pair>>, lanes: nat, t: nat): Option<Cell>
    requires WellFormedBlock(pairs, lanes) && t < BLOCK_SIZE
  {
    ThreadIsInGroup(pairs, lanes, t);
    match pairs[t / lanes]
    case None => None
    case Some(p) => NeededPoint(p, lanes, t % lanes)
  }

  lemma {:induction false} PointAt(pairs: seq<Option<Pair>>, lanes: nat, t: nat, g: nat, lane: nat)
    requires WellFormedBlock(pairs, lanes) && t < BLOCK_SIZE && g == t / lanes && lane == t % lanes
    ensures g < |pairs| && lane < lanes
    ensures ThreadPoint(pairs, lanes, t) == if pairs[g].None? then None else PointOf(pairs[g].value, lanes, lane)
    ensures ThreadNeed(pairs, lanes, t) == if pairs[g].None? then None else NeededPoint(pairs[g].value, lanes, lane)
  {
    ThreadIsInGroup(pairs, lanes, t);
  }

  lemma {:induction false} NeedIsNeighboursPoint(pairs: seq<Option<Pair>>, lanes: nat, t: nat)
    requires WellFormedBlock(pairs, lanes) && t < BLOCK_SIZE && ThreadNeed(pairs, lanes, t).Some?
    ensures t + 1 < BLOCK_SIZE && ThreadPoint(pairs, lanes, t + 1) == ThreadNeed(pairs, lanes, t)
  {
    ThreadIsInGroup(pairs, lanes, t);
    Arith.DivIsNatural(t, lanes);
    var g, lane := t / lanes, t % lanes;
    PointAt(pairs, lanes, t, g, lane);
    NeighbourIsThread(pairs, lanes, t);
    PointAt(pairs, lanes, t + 1, g, lane + 1);
  }

  /** By the end of the steps `done`, thread t has found its next point and written it over the old one. */
  predicate Overwritten(next: seq<Option<Pair>>, lanes: nat, done: seq<Step>, t: nat)
    requires WellFormedBlock(next, lanes) && t < BLOCK_SIZE
  {
    Find(t) in done && ThreadPoint(next, lanes, t).Some?
  }

  /** When thread t emits its box behind the steps `done`, its neighbour's slot still holds the cell that it needs. */
  predicate InTime(pairs: seq<Option<Pair>>, next: seq<Option<Pair>>, lanes: nat, done: seq<Step>, t: nat)
    requires WellFormedBlock(pairs, lanes) && WellFormedBlock(next, lanes) && t < BLOCK_SIZE
  {
    var need := ThreadNeed(pairs, lanes, t);
    need.Some? && t + 1 < BLOCK_SIZE && Overwritten(next, lanes, done, t + 1) ==>
      ThreadPoint(next, lanes, t + 1) == need
  }

  /** Where the slots and the threads' own copies stand. */
  ghost predicate Between(m: BlockMemory, pairs: seq<Option<Pair>>, next: seq<Option<Pair>>, lanes: nat,
                          done: seq<Step>)
    requires WellFormedBlock(pairs, lanes) && WellFormedBlock(next, lanes) && m.Valid()
    reads m.pathPoints, m.viCurr, m.uiCurr
  {
    forall t: nat :: t < BLOCK_SIZE ==>
      if Overwritten(next, lanes, done, t) then m.Ready(next, lanes, t) else m.Ready(pairs, lanes, t)
  }

  method EmitStep(m: BlockMemory, pairs: seq<Option<Pair>>, ghost next: seq<Option<Pair>>, lanes: nat,
                  ghost done: seq<Step>, t: nat)
    returns (box: Option<Box>)
    requires m.Valid() && WellFormedBlock(pairs, lanes) && WellFormedBlock(next, lanes) && t < BLOCK_SIZE
    requires Between(m, pairs, next, lanes, done) && Find(t) !in done
    ensures box == ThreadBox(pairs, lanes, t) <==> InTime(pairs, next, lanes, done, t)
  {
    ThreadIsInGroup(pairs, lanes, t);
    assert m.Ready(pairs, lanes, t);
    if pairs[t / lanes].Some? {
      if ThreadNeed(pairs, lanes, t).Some? {
        NeedIsNeighboursPoint(pairs, lanes, t);
        assert if Overwritten(next, lanes, done, t + 1) then m.Ready(next, lanes, t + 1)
               else m.Ready(pairs, lanes, t + 1);
      }
      box := m.EmitBox(pairs[t / lanes].value, lanes, t);
      BoxSeenIsOwn(pairs[t / lanes].value, lanes, t % lanes,
                   if t + 1 < BLOCK_SIZE then m.Slot(t + 1) else Cell(0, 0));
    } else {
      box := None;
    }
  }

  method FindStep(m: BlockMemory, ghost pairs: seq<Option<Pair>>, next: seq<Option<Pair>>, lanes: nat,
                  ghost done: seq<Step>, t: nat)
    requires m.Valid() && WellFormedBlock(pairs, lanes) && WellFormedBlock(next, lanes) && t < BLOCK_SIZE
    requires Between(m, pairs, next, lanes, done)
    modifies m.Arrays()
    ensures Between(m, pairs, next, lanes, done + [Find(t)])
  {
    ThreadIsInGroup(next, lanes, t);
    label before:
    if next[t / lanes].Some? {
      m.FindPathPoint(next[t / lanes].value, lanes, t);
    }
    forall s: nat | s < BLOCK_SIZE
      ensures if Overwritten(next, lanes, done + [Find(t)], s) then m.Ready(next, lanes, s)
              else m.Ready(pairs, lanes, s)
    {
      assert old@before(if Overwritten(next, lanes, done, s) then m.Ready(next, lanes, s)
                        else m.Ready(pairs, lanes, s));
    }
  }

  /** The steps that happen before thread t emits its box. */
  function StepsBefore(order: seq<Step>, t: nat): seq<Step>
    requires Emit(t) in order
  {
    if order[|order| - 1] == Emit(t) then order[..|order| - 1]
    else
      assert order == order[..|order| - 1] + [order[|order| - 1]];
      StepsBefore(order[..|order| - 1], t)
  }

  lemma {:induction false} StepsBeforePlace(order: seq<Step>, k: nat)
    requires k < |order| && order[k].Emit? && forall m :: k < m < |order| ==> order[m] != order[k]
    ensures StepsBefore(order, order[k].thread) == order[..k]
  {
    if k < |order| - 1 {
      StepsBeforePlace(order[..|order| - 1], k);
      assert order[..|order| - 1][..k] == order[..k];
    }
  }

  /** Every box emitted by the first k steps is the thread's own piece exactly if it was emitted in time. */
  predicate Emitted(pairs: seq<Option<Pair>>, next: seq<Option<Pair>>, lanes: nat, order: seq<Step>, k: nat,
                    boxes: seq<Option<Box>>)
    requires WellFormedBlock(pairs, lanes) && WellFormedBlock(next, lanes) && k <= |order| && |boxes| == BLOCK_SIZE
    requires forall l :: 0 <= l < |order| ==> order[l].thread < BLOCK_SIZE
  {
    forall l :: 0 <= l < k && order[l].Emit? ==>
      (boxes[order[l].thread] == ThreadBox(pairs, lanes, order[l].thread)
       <==> InTime(pairs, next, lanes, order[..l], order[l].thread))
  }

  lemma {:induction false} EmitKeepsEmitted(pairs: seq<Option<Pair>>, next: seq<Option<Pair>>, lanes: nat,
          order: seq<Step>, k: nat, boxes: seq<Option<Box>>, box: Option<Box>)
    requires WellFormedBlock(pairs, lanes) && WellFormedBlock(next, lanes) && k < |order| && |boxes| == BLOCK_SIZE
    requires IsOverlap(order) && Emitted(pairs, next, lanes, order, k, boxes) && order[k].Emit?
    requires box == ThreadBox(pairs, lanes, order[k].thread)
        <==> InTime(pairs, next, lanes, order[..k], order[k].thread)
    ensures Emitted(pairs, next, lanes, order, k + 1, boxes[order[k].thread := box])
  {
    forall l | 0 <= l < k && order[l].Emit? ensures order[l].thread != order[k].thread {
      assert order[l] != order[k];
    }
  }

  lemma {:induction false} NotYetFound(order: seq<Step>, k: nat)
    requires IsOverlap(order) && k < |order| && order[k].Emit?
    ensures Find(order[k].thread) !in order[..k]
  {
  }

  lemma {:induction false} AllEmitted(pairs: seq<Option<Pair>>, next: seq<Option<Pair>>, lanes: nat,
          order: seq<Step>, boxes: seq<Option<Box>>, t: nat)
    requires WellFormedBlock(pairs, lanes) && WellFormedBlock(next, lanes) && |boxes| == BLOCK_SIZE
    requires IsOverlap(order) && Emitted(pairs, next, lanes, order, |order|, boxes) && t < BLOCK_SIZE
    ensures Emit(t) in order
    ensures boxes[t] == ThreadBox(pairs, lanes, t) <==> InTime(pairs, next, lanes, StepsBefore(order, t), t)
  {
    assert Emit(t) in order;
    var k :| 0 <= k < |order| && order[k] == Emit(t);
    StepsBeforePlace(order, k);
    assert order[k].thread == t;
  }

  /**
   * All steps between two barriers, in any order that a thread's own program allows.  A thread emits its own piece
   * exactly if its right neighbour has not overwritten the point that it needs by another one.  The points of the
   * next round are all in place at the next barrier.
   */
  method RunOverlap(m: BlockMemory, pairs: seq<Option<Pair>>, next: seq<Option<Pair>>, lanes: nat, order: seq<Step>)
    returns (boxes: seq<Option<Box>>)
    requires m.Valid() && WellFormedBlock(pairs, lanes) && WellFormedBlock(next, lanes) && IsOverlap(order)
    requires forall t: nat :: t < BLOCK_SIZE ==> m.Ready(pairs, lanes, t)
    modifies m.Arrays()
    ensures |boxes| == BLOCK_SIZE
    ensures forall t: nat :: t < BLOCK_SIZE ==>
              && Emit(t) in order
              && (boxes[t] == ThreadBox(pairs, lanes, t) <==> InTime(pairs, next, lanes, StepsBefore(order, t), t))
    ensures forall t: nat :: t < BLOCK_SIZE && Find(t) in order ==> m.Ready(next, lanes, t)
  {
    boxes := seq(BLOCK_SIZE, _ => None);
    for k := 0 to |order|
      invariant |boxes| == BLOCK_SIZE && Between(m, pairs, next, lanes, order[..k])
      invariant Emitted(pairs, next, lanes, order, k, boxes)
    {
      var t := order[k].thread;
      assert order[..k + 1] == order[..k] + [order[k]];
      if order[k].Emit? {
        NotYetFound(order, k);
        var box := EmitStep(m, pairs, next, lanes, order[..k], t);
        EmitKeepsEmitted(pairs, next, lanes, order, k, boxes, box);
        EmitKeepsBetween(m, pairs, next, lanes, order[..k], t);
        boxes := boxes[t := box];
      } else {
        FindStep(m, pairs, next, lanes, order[..k], t);
      }
    }
    assert order[..|order|] == order;
    forall t: nat | t < BLOCK_SIZE
      ensures Emit(t) in order
      ensures boxes[t] == ThreadBox(pairs, lanes, t) <==> InTime(pairs, next, lanes, StepsBefore(order, t), t)
    {
      AllEmitted(pairs, next, lanes, order, boxes, t);
    }
    forall t: nat | t < BLOCK_SIZE && Find(t) in order ensures m.Ready(next, lanes, t) {
      assert if Overwritten(next, lanes, order, t) then m.Ready(next, lanes, t) else m.Ready(pairs, lanes, t);
      ThreadIsInGroup(next, lanes, t);
    }
  }

  lemma {:induction false} EmitKeepsBetween(m: BlockMemory, pairs: seq<Option<Pair>>, next: seq<Option<Pair>>,
          lanes: nat, done: seq<Step>, t: nat)
    requires m.Valid() && WellFormedBlock(pairs, lanes) && WellFormedBlock(next, lanes)
    requires Between(m, pairs, next, lanes, done)
    ensures Between(m, pairs, next, lanes, done + [Emit(t)])
  {
    forall s: nat | s < BLOCK_SIZE
      ensures Overwritten(next, lanes, done + [Emit(t)], s) <==> Overwritten(next, lanes, done, s)
    {
    }
  }

  // ---------------------------------------------------------------------------------------------
  // With and without the barrier

  /** With a barrier between the rounds every box is emitted before any point of the next round is looked for. */
  lemma {:induction false} BarrierSuffices(pairs: seq<Option<Pair>>, next: seq<Option<Pair>>, lanes: nat,
          order: seq<Step>, t: nat)
    requires WellFormedBlock(pairs, lanes) && WellFormedBlock(next, lanes) && IsOverlap(order) && t < BLOCK_SIZE
    requires forall k, m :: 0 <= k < m < |order| ==> !(order[k].Find? && order[m].Emit?)
    ensures Emit(t) in order && InTime(pairs, next, lanes, StepsBefore(order, t), t)
  {
    assert Emit(t) in order;
    var k :| 0 <= k < |order| && order[k] == Emit(t);
    StepsBeforePlace(order, k);
    assert forall l :: 0 <= l < k ==> !order[l].Find?;
  }

  /** No cell that a thread needs is replaced by another one when its right neighbour goes on to its next item. */
  predicate NothingReplaced(pairs: seq<Option<Pair>>, next: seq<Option<Pair>>, lanes: nat)
    requires WellFormedBlock(pairs, lanes) && WellFormedBlock(next, lanes)
  {
    forall t: nat :: t + 1 < BLOCK_SIZE && ThreadNeed(pairs, lanes, t).Some? ==>
      ThreadPoint(next, lanes, t + 1).Some? ==> ThreadPoint(next, lanes, t + 1) == ThreadNeed(pairs, lanes, t)
  }

  /** Whatever the order, every thread emits in time. */
  ghost predicate AlwaysInTime(pairs: seq<Option<Pair>>, next: seq<Option<Pair>>, lanes: nat)
    requires WellFormedBlock(pairs, lanes) && WellFormedBlock(next, lanes)
  {
    forall order, t: nat :: IsOverlap(order) && t < BLOCK_SIZE && Emit(t) in order ==>
      InTime(pairs, next, lanes, StepsBefore(order, t), t)
  }

  /** Thread t + 1 emits and goes on before thread t has emitted; everybody else emits after that. */
  function Hasty(t: nat): (order: seq<Step>)
    requires t + 1 < BLOCK_SIZE
    ensures |order| == BLOCK_SIZE + 1
  {
    [Emit(t + 1), Find(t + 1), Emit(t)]
    + seq(BLOCK_SIZE - 2, k requires 0 <= k => Emit(if k < t then k else k + 2))
  }

  /** The place of a thread's emission in that order. */
  function HastyPlace(t: nat, s: nat): (k: nat)
    requires t + 1 < BLOCK_SIZE && s < BLOCK_SIZE
    ensures k < BLOCK_SIZE + 1 && Hasty(t)[k] == Emit(s)
  {
    if s == t then 2 else if s == t + 1 then 0 else if s < t then s + 3 else s + 1
  }

  lemma {:induction false} HastySteps(t: nat, k: nat)
    requires t + 1 < BLOCK_SIZE && k < BLOCK_SIZE + 1
    ensures Hasty(t)[k] == if k == 0 then Emit(t + 1) else if k == 1 then Find(t + 1) else if k == 2 then Emit(t)
                           else if k - 3 < t then Emit(k - 3) else Emit(k - 1)
  {
  }

  lemma {:induction false} HastyIsOverlap(order: seq<Step>, t: nat)
    requires t + 1 < BLOCK_SIZE && order == Hasty(t)
    ensures IsOverlap(order)
  {
    forall k | 0 <= k < |order| ensures order[k].thread < BLOCK_SIZE {
      HastySteps(t, k);
    }
    forall k, m | 0 <= k < m < |order|
      ensures order[k] != order[m] && (order[k].Find? ==> order[m] != Emit(order[k].thread))
    {
      HastySteps(t, k);
      HastySteps(t, m);
    }
    forall s: nat | s < BLOCK_SIZE ensures Emit(s) in order {
      assert order[HastyPlace(t, s)] == Emit(s);
    }
  }

  lemma {:induction false} BeforeHastyEmission(order: seq<Step>, t: nat)
    requires t + 1 < BLOCK_SIZE && order == Hasty(t)
    ensures Emit(t) in order && Find(t + 1) in StepsBefore(order, t)
  {
    HastyIsOverlap(order, t);
    HastySteps(t, 1);
    HastySteps(t, 2);
    StepsBeforePlace(order, 2);
    assert order[..2][1] == Find(t + 1);
  }

  lemma {:induction false} LateMeansWrong(pairs: seq<Option<Pair>>, next: seq<Option<Pair>>, lanes: nat,
          done: seq<Step>, t: nat)
    requires WellFormedBlock(pairs, lanes) && WellFormedBlock(next, lanes) && t + 1 < BLOCK_SIZE
    requires Find(t + 1) in done
    requires ThreadNeed(pairs, lanes, t).Some? && ThreadPoint(next, lanes, t + 1).Some?
    requires ThreadNeed(pairs, lanes, t) != ThreadPoint(next, lanes, t + 1)
    ensures !InTime(pairs, next, lanes, done, t)
  {
  }

  /**
   * For any items of two rounds: every order lets every thread emit its own piece if and only if no cell that a thread
   * needs is replaced by another one in the next round.
   */
  lemma {:induction false} AlwaysInTimeIff(pairs: seq<Option<Pair>>, next: seq<Option<Pair>>, lanes: nat)
    requires WellFormedBlock(pairs, lanes) && WellFormedBlock(next, lanes)
    ensures AlwaysInTime(pairs, next, lanes) <==> NothingReplaced(pairs, next, lanes)
  {
    if t: nat :| t + 1 < BLOCK_SIZE && ThreadNeed(pairs, lanes, t).Some? && ThreadPoint(next, lanes, t + 1).Some?
                 && ThreadPoint(next, lanes, t + 1) != ThreadNeed(pairs, lanes, t) {
      var order := Hasty(t);
      HastyIsOverlap(order, t);
      BeforeHastyEmission(order, t);
      LateMeansWrong(pairs, next, lanes, StepsBefore(order, t), t);
    }
  }
}
