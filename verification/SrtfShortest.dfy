/**
 * Does the scheduler run the shortest remaining time, as its name says (xlib/test/Scheduling/Scheduling.cpp, lines
 * 123-163)?  Not always, for two reasons: it prefers a new process to a preempted one, and it cuts a slice at the
 * arrival of the shortest newcomer, not of the first one that needs less.
 */
module SrtfShortest {
  import opened SrtfLog

  // ---------------------------------------------------------------------------------------------
  // At the choice

  /** The choice of a scheduler that always runs the shortest remaining time among all that are ready. */
  ghost predicate IsShortest(l: Load, log: seq<Slice>, p: int)
    requires ValidLoad(l) && InLoad(l, p)
  {
    && (forall q :: Fresh(l, log, q) ==> Remaining(l, log, p) <= l.burst[q])
    && (forall q :: Preempted(l, log, q) ==> Remaining(l, log, p) <= Remaining(l, log, q))
  }

  /** If a new process waits, some new process needs no longer than any preempted one. */
  ghost predicate NewIsNoLonger(l: Load, log: seq<Slice>)
    requires ValidLoad(l)
  {
    (exists q :: Fresh(l, log, q)) ==>
      exists q :: Fresh(l, log, q) && forall r :: Preempted(l, log, r) ==> l.burst[q] <= Remaining(l, log, r)
  }

  lemma {:induction false} NewHasAllLeft(l: Load, log: seq<Slice>, q: int)
    requires ValidLoad(l) && InLoad(l, q) && !Started(log, q)
    ensures Remaining(l, log, q) == l.burst[q]
  {
    NothingDoneBeforeStart(log, q);
  }

  /** Without a new process the choice is the shortest remaining time. */
  lemma {:induction false} PendingChoiceIsShortest(l: Load, log: seq<Slice>, p: int)
    requires ValidLoad(l) && InLoad(l, p) && LogOk(l, log) && ChoiceOk(l, log, p)
    requires forall q :: !Fresh(l, log, q)
    ensures IsShortest(l, log, p)
  {
    forall q | Preempted(l, log, q) ensures Remaining(l, log, p) <= Remaining(l, log, q) {
      PreemptedIsPending(l, log, q);
    }
  }

  /**
   * The scheduler prefers new processes: its choice is the shortest remaining time if and only if no new process
   * waits or one of them needs no longer than any preempted one.
   */
  lemma {:induction false} ShortestUnlessNewIsLonger(l: Load, log: seq<Slice>, p: int)
    requires ValidLoad(l) && InLoad(l, p) && LogOk(l, log) && ChoiceOk(l, log, p)
    ensures IsShortest(l, log, p) <==> NewIsNoLonger(l, log)
  {
    if q :| Fresh(l, log, q) {
      NewHasAllLeft(l, log, p);
    } else {
      PendingChoiceIsShortest(l, log, p);
    }
  }

  // ---------------------------------------------------------------------------------------------
  // Throughout a slice

  /** While the slice after the log runs, q could run at time t. */
  predicate Ready(l: Load, log: seq<Slice>, q: int, t: int)
    requires ValidLoad(l)
  {
    InLoad(l, q) && ((!Started(log, q) && l.arrival[q] <= t) || Preempted(l, log, q))
  }

  /** At time t of slice s nobody who is ready has less left than the process that runs. */
  ghost predicate ShortestAt(l: Load, log: seq<Slice>, s: Slice, t: int)
    requires ValidLoad(l) && InLoad(l, s.proc)
  {
    forall q :: Ready(l, log, q, t) ==> Remaining(l, log, s.proc) - (t - s.start) <= Remaining(l, log, q)
  }

  ghost predicate ShortestThroughout(l: Load, log: seq<Slice>, s: Slice)
    requires ValidLoad(l) && InLoad(l, s.proc)
  {
    forall t :: s.start <= t < s.end ==> ShortestAt(l, log, s, t)
  }

  /** Nobody who needs less than is left then arrives while the slice runs. */
  predicate NoShorterArrives(l: Load, log: seq<Slice>, s: Slice)
    requires ValidLoad(l) && InLoad(l, s.proc)
  {
    forall q :: 0 <= q < |l.arrival| && q != s.proc && !Started(log, q) && s.start <= l.arrival[q] < s.end ==>
      l.burst[q] >= Remaining(l, log, s.proc) - (l.arrival[q] - s.start)
  }

  /** Whoever is new and has arrived before the slice starts had arrived when the choice was made. */
  lemma {:induction false} ArrivedBeforeChoice(l: Load, log: seq<Slice>, s: Slice, q: int)
    requires ValidLoad(l) && LogOk(l, log) && SliceOk(l, log, s)
    requires InLoad(l, q) && !Started(log, q) && l.arrival[q] < s.start
    ensures Fresh(l, log, q)
  {
    if Pending(l, log, s.proc) {
      PendingIsStarted(l, log, s.proc);
      StartedHasArrived(l, log, s.proc);
    }
  }

  lemma {:induction false} ShorterThanReady(l: Load, log: seq<Slice>, s: Slice, t: int, q: int)
    requires ValidLoad(l) && LogOk(l, log) && SliceOk(l, log, s) && s.start <= t < s.end
    requires NewIsNoLonger(l, log) && NoShorterArrives(l, log, s) && Ready(l, log, q, t)
    ensures Remaining(l, log, s.proc) - (t - s.start) <= Remaining(l, log, q)
  {
    ShortestUnlessNewIsLonger(l, log, s.proc);
    if !Preempted(l, log, q) {
      NewHasAllLeft(l, log, q);
      if l.arrival[q] < s.start {
        ArrivedBeforeChoice(l, log, s, q);
      }
    }
  }

  lemma {:induction false} ThroughoutMeansChoice(l: Load, log: seq<Slice>, s: Slice)
    requires ValidLoad(l) && LogOk(l, log) && SliceOk(l, log, s) && s.start < s.end && ShortestThroughout(l, log, s)
    ensures NewIsNoLonger(l, log)
  {
    assert ShortestAt(l, log, s, s.start);
    if Fresh(l, log, s.proc) {
      NewHasAllLeft(l, log, s.proc);
      forall r | Preempted(l, log, r) ensures l.burst[s.proc] <= Remaining(l, log, r) {
        assert Ready(l, log, r, s.start);
      }
    }
  }

  lemma {:induction false} ThroughoutMeansArrivals(l: Load, log: seq<Slice>, s: Slice)
    requires ValidLoad(l) && InLoad(l, s.proc) && ShortestThroughout(l, log, s)
    ensures NoShorterArrives(l, log, s)
  {
    forall q | 0 <= q < |l.arrival| && q != s.proc && !Started(log, q) && s.start <= l.arrival[q] < s.end
      ensures l.burst[q] >= Remaining(l, log, s.proc) - (l.arrival[q] - s.start)
    {
      assert ShortestAt(l, log, s, l.arrival[q]);
      assert Ready(l, log, q, l.arrival[q]);
      NewHasAllLeft(l, log, q);
    }
  }

  /**
   * The process that runs has the shortest remaining time at every moment of its slice if and only if a new process
   * that waits at the choice, if there is any, needs no longer than the preempted ones, and nobody who needs less
   * than is left then arrives while the slice runs.
   */
  lemma {:induction false} ShortestThroughoutIff(l: Load, log: seq<Slice>, s: Slice)
    requires ValidLoad(l) && LogOk(l, log) && SliceOk(l, log, s) && s.start < s.end
    ensures ShortestThroughout(l, log, s) <==> NewIsNoLonger(l, log) && NoShorterArrives(l, log, s)
  {
    if ShortestThroughout(l, log, s) {
      ThroughoutMeansChoice(l, log, s);
      ThroughoutMeansArrivals(l, log, s);
    }
    if NewIsNoLonger(l, log) && NoShorterArrives(l, log, s) {
      forall t | s.start <= t < s.end ensures ShortestAt(l, log, s, t) {
        forall q | Ready(l, log, q, t)
          ensures Remaining(l, log, s.proc) - (t - s.start) <= Remaining(l, log, q)
        {
          ShorterThanReady(l, log, s, t, q);
        }
      }
    }
  }

  /** A slice that is not cut needs only the first condition. */
  lemma {:induction false} UncutMeetsArrivals(l: Load, log: seq<Slice>, s: Slice)
    requires ValidLoad(l) && SliceOk(l, log, s) && forall q :: !Interrupts(l, log, s.proc, s.start, q)
    ensures NoShorterArrives(l, log, s)
  {
    forall q | 0 <= q < |l.arrival| && q != s.proc && !Started(log, q) && s.start <= l.arrival[q] < s.end
      ensures l.burst[q] >= Remaining(l, log, s.proc) - (l.arrival[q] - s.start)
    {
      assert !Interrupts(l, log, s.proc, s.start, q);
    }
  }

  // ---------------------------------------------------------------------------------------------
  // Over a whole run

  /** At every moment at which a process runs it has the shortest remaining time. */
  ghost predicate AlwaysShortest(l: Load, log: seq<Slice>)
    requires ValidLoad(l) && LogOk(l, log)
  {
    forall k :: 0 <= k < |log| && log[k].start < log[k].end ==>
      InLoad(l, log[k].proc) && ShortestThroughout(l, log[..k], log[k])
  }

  lemma {:induction false} AlwaysShortestIff(l: Load, log: seq<Slice>)
    requires ValidLoad(l) && LogOk(l, log)
    ensures AlwaysShortest(l, log) <==> forall k :: 0 <= k < |log| && log[k].start < log[k].end ==>
              && InLoad(l, log[k].proc)
              && NewIsNoLonger(l, log[..k]) && NoShorterArrives(l, log[..k], log[k])
  {
    forall k | 0 <= k < |log| && log[k].start < log[k].end
      ensures InLoad(l, log[k].proc)
      ensures ShortestThroughout(l, log[..k], log[k]) <==>
                NewIsNoLonger(l, log[..k]) && NoShorterArrives(l, log[..k], log[k])
    {
      PrefixOk(l, log, k);
      ShortestThroughoutIff(l, log[..k], log[k]);
    }
  }

  /** Where everybody is there from the beginning, nobody is ever interrupted. */
  lemma {:induction false} NobodyIsCut(l: Load, log: seq<Slice>)
    requires ValidLoad(l) && LogOk(l, log) && forall p :: InLoad(l, p) ==> l.arrival[p] <= 0
    ensures Clock(log) >= 0 && forall p :: InLoad(l, p) ==> !Pending(l, log, p)
  {
    if log != [] {
      var front, s := log[..|log| - 1], log[|log| - 1];
      NobodyIsCut(l, front);
      assert Fresh(l, front, s.proc);
      NewHasAllLeft(l, front, s.proc);
      forall q ensures !Interrupts(l, front, s.proc, s.start, q) {
        assert InLoad(l, q) && !Started(front, q) ==> Fresh(l, front, q);
      }
    }
  }

  /** If everybody is there from the beginning, the shortest remaining time always runs. */
  lemma {:induction false} AllPresentIsShortest(l: Load, log: seq<Slice>)
    requires ValidLoad(l) && LogOk(l, log) && forall p :: InLoad(l, p) ==> l.arrival[p] <= 0
    ensures AlwaysShortest(l, log)
  {
    forall k | 0 <= k < |log| && log[k].start < log[k].end
      ensures InLoad(l, log[k].proc) && NewIsNoLonger(l, log[..k]) && NoShorterArrives(l, log[..k], log[k])
    {
      PresentSliceIsShortest(l, log, k);
    }
    AlwaysShortestIff(l, log);
  }

  lemma {:induction false} PresentSliceIsShortest(l: Load, log: seq<Slice>, k: nat)
    requires ValidLoad(l) && LogOk(l, log) && k < |log| && forall p :: InLoad(l, p) ==> l.arrival[p] <= 0
    ensures InLoad(l, log[k].proc) && NewIsNoLonger(l, log[..k]) && NoShorterArrives(l, log[..k], log[k])
  {
    var before, s := log[..k], log[k];
    PrefixOk(l, log, k);
    NobodyIsCut(l, before);
    NewHasAllLeft(l, before, s.proc);
    forall r ensures !Preempted(l, before, r) {
      if Preempted(l, before, r) {
        PreemptedIsPending(l, before, r);
      }
    }
    assert forall q :: InLoad(l, q) && !Started(before, q) ==> Fresh(l, before, q);
  }
}
