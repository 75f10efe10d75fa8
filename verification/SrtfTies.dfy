/**
 * Who goes first, with arrivals, bursts and numbers written out (xlib/test/Scheduling/Scheduling.cpp, lines 91-163):
 * ties are broken by arrival and number among new processes, and by the time of the cut among preempted ones.
 */
module SrtfTies {
  import opened SrtfLog

  /** p arrives earlier than q, or together with it and has the smaller number. */
  predicate ArrivesFirst(l: Load, p: nat, q: nat)
    requires p < |l.arrival| && q < |l.arrival|
  {
    l.arrival[p] < l.arrival[q] || (l.arrival[p] == l.arrival[q] && p < q)
  }

  // ---------------------------------------------------------------------------------------------
  // The choice

  /**
   * A process that has arrived when the choice is made and has not run is preferred to all that have run; among
   * several the shortest burst runs, then the earliest arrival, then the smallest number.
   */
  lemma {:induction false} NewGoesFirst(l: Load, log: seq<Slice>, s: Slice, q: nat)
    requires ValidLoad(l) && SliceOk(l, log, s)
    requires q < |l.arrival| && !Started(log, q) && l.arrival[q] <= Clock(log)
    ensures 0 <= s.proc < |l.arrival| && !Started(log, s.proc) && l.arrival[s.proc] <= Clock(log)
    ensures l.burst[s.proc] <= l.burst[q]
    ensures l.burst[s.proc] == l.burst[q] && s.proc != q ==> ArrivesFirst(l, s.proc, q)
  {
    assert Fresh(l, log, q);
  }

  /** Without such a process, one that was cut runs: the least time left, and of those the one that was cut first. */
  lemma {:induction false} CutFirstGoesFirst(l: Load, log: seq<Slice>, s: Slice, q: nat)
    requires ValidLoad(l) && LogOk(l, log) && SliceOk(l, log, s)
    requires forall r :: 0 <= r < |l.arrival| && !Started(log, r) ==> Clock(log) < l.arrival[r]
    requires q < |l.arrival| && q != s.proc && Started(log, q) && Done(log, q) < l.burst[q]
    ensures 0 <= s.proc < |l.arrival| && Started(log, s.proc)
    ensures l.burst[s.proc] - Done(log, s.proc) <= l.burst[q] - Done(log, q)
    ensures l.burst[s.proc] - Done(log, s.proc) == l.burst[q] - Done(log, q) ==>
      LastRun(log, s.proc) < LastRun(log, q)
  {
    PreemptedIsPending(l, log, q);
    assert forall r :: !Fresh(l, log, r);
    assert Pending(l, log, s.proc);
    PendingIsStarted(l, log, s.proc);
  }

  /** The last slice of a process: behind it the process does not run. */
  lemma {:induction false} LastRunIsLast(log: seq<Slice>, p: int)
    ensures Started(log, p) <==> LastRun(log, p) >= 0
    ensures LastRun(log, p) >= 0 ==> log[LastRun(log, p)].proc == p
    ensures forall k :: LastRun(log, p) < k < |log| ==> log[k].proc != p
  {
    if log != [] {
      var front, last := log[..|log| - 1], log[|log| - 1];
      LastRunIsLast(front, p);
      LastSlice(log);
      StartedStep(front, last, p);
    }
  }

  /**
   * Over whole runs: of two processes, the one that arrives first, by time or else by number, and needs no longer has
   * its first slice first.
   */
  lemma {:induction false} FirstComeFirstServed(l: Load, log: seq<Slice>, p: nat, q: nat)
    requires ValidLoad(l) && LogOk(l, log) && p < |l.arrival| && q < |l.arrival|
    requires ArrivesFirst(l, p, q) && l.burst[p] <= l.burst[q]
    ensures Started(log, q) ==> Started(log, p)
  {
    if log != [] {
      var front, s := log[..|log| - 1], log[|log| - 1];
      FirstComeFirstServed(l, front, p, q);
      LastSlice(log);
      StartedStep(front, s, p);
      StartedStep(front, s, q);
      if s.proc == q && !Started(front, q) && !Started(front, p) {
        NewBefore(l, front, s, p, q);
      }
    }
  }

  lemma {:induction false} NewBefore(l: Load, log: seq<Slice>, s: Slice, p: nat, q: nat)
    requires ValidLoad(l) && LogOk(l, log) && p < |l.arrival| && q < |l.arrival|
    requires ArrivesFirst(l, p, q) && l.burst[p] <= l.burst[q]
    requires !Started(log, p) && !Started(log, q) && SliceOk(l, log, s)
    ensures s.proc != q
  {
    if s.proc == q {
      if l.arrival[p] <= Clock(log) {
        NewGoesFirst(l, log, s, p);
      } else {
        assert !Fresh(l, log, q);
        if Pending(l, log, q) {
          PendingIsStarted(l, log, q);
        }
      }
    }
  }

  // ---------------------------------------------------------------------------------------------
  // The length

  /**
   * q cuts a slice of p that starts at `start`: q has not run, arrives no later than p would end, and needs less than p
   * still does.
   */
  ghost predicate Cuts(l: Load, log: seq<Slice>, p: nat, start: int, q: nat)
    requires ValidLoad(l) && p < |l.arrival| && q < |l.arrival|
  {
    var left := l.burst[p] - Done(log, p);
    q != p && !Started(log, q) && l.arrival[q] <= start + left && l.burst[q] < left
  }

  /** A slice that nobody cuts runs to the end of the burst. */
  lemma {:induction false} UncutRunsToTheEnd(l: Load, log: seq<Slice>, s: Slice)
    requires ValidLoad(l) && SliceOk(l, log, s)
    requires forall q: nat :: q < |l.arrival| ==> !Cuts(l, log, s.proc, s.start, q)
    ensures s.end == s.start + l.burst[s.proc] - Done(log, s.proc)
  {
    forall q ensures !Interrupts(l, log, s.proc, s.start, q) {
      if 0 <= q < |l.arrival| {
        assert !Cuts(l, log, s.proc, s.start, q);
      }
    }
  }

  /**
   * A slice that somebody cuts ends at the arrival of a process that needs the least of all that cut it, and of those
   * the first to arrive.
   */
  lemma {:induction false} CutAtTheShortest(l: Load, log: seq<Slice>, s: Slice, q: nat) returns (r: nat)
    requires ValidLoad(l) && SliceOk(l, log, s)
    requires q < |l.arrival| && Cuts(l, log, s.proc, s.start, q)
    ensures r < |l.arrival| && Cuts(l, log, s.proc, s.start, r) && s.end == l.arrival[r]
    ensures l.burst[r] <= l.burst[q]
    ensures l.burst[r] == l.burst[q] ==> s.end <= l.arrival[q]
  {
    assert Interrupts(l, log, s.proc, s.start, q);
    r :| && Interrupts(l, log, s.proc, s.start, r) && s.end == l.arrival[r]
         && forall t :: Interrupts(l, log, s.proc, s.start, t) && t != r ==> Shorter(l, r, t);
  }

  // ---------------------------------------------------------------------------------------------
  // After the cut

  lemma {:induction false} PendingStays(l: Load, log: seq<Slice>, k: nat, p: nat)
    requires ValidLoad(l) && p < |l.arrival| && k <= |log| && forall m :: k <= m < |log| ==> log[m].proc != p
    ensures Pending(l, log, p) <==> Pending(l, log[..k], p)
  {
    if k == |log| {
      assert log[..k] == log;
    } else {
      var front := log[..|log| - 1];
      PendingStays(l, front, k, p);
      assert front[..k] == log[..k];
    }
  }

  lemma {:induction false} NotChosenAgain(l: Load, log: seq<Slice>, s: Slice, p: nat)
    requires ValidLoad(l) && p < |l.arrival| && Started(log, p) && !Pending(l, log, p) && SliceOk(l, log, s)
    ensures s.proc != p
  {
  }

  lemma {:induction false} NeverAgain(l: Load, log: seq<Slice>, k: nat, p: nat)
    requires ValidLoad(l) && LogOk(l, log) && p < |l.arrival| && k <= |log|
    requires Started(log[..k], p) && !Pending(l, log[..k], p)
    ensures Started(log, p) && !Pending(l, log, p) && forall m :: k <= m < |log| ==> log[m].proc != p
  {
    if k == |log| {
      assert log[..k] == log;
    } else {
      var front, s := log[..|log| - 1], log[|log| - 1];
      assert front[..k] == log[..k];
      NeverAgain(l, front, k, p);
      LastSlice(log);
      StartedStep(front, s, p);
      NotChosenAgain(l, front, s, p);
    }
  }

  ghost predicate IsCut(l: Load, log: seq<Slice>, p: nat, start: int)
    requires ValidLoad(l) && p < |l.arrival|
  {
    exists q: nat :: q < |l.arrival| && Cuts(l, log, p, start, q)
  }

  lemma {:induction false} PendingIffCut(l: Load, log: seq<Slice>, s: Slice)
    requires ValidLoad(l) && 0 <= s.proc < |l.arrival|
    ensures Pending(l, log + [s], s.proc) <==> IsCut(l, log, s.proc, s.start)
  {
    PendingStep(l, log, s, s.proc);
    if q :| Interrupts(l, log, s.proc, s.start, q) {
      assert Cuts(l, log, s.proc, s.start, q);
    }
    if q: nat :| q < |l.arrival| && Cuts(l, log, s.proc, s.start, q) {
      assert Interrupts(l, log, s.proc, s.start, q);
    }
  }

  /** p has a slice from place k on. */
  predicate RunsFrom(log: seq<Slice>, k: nat, p: int) {
    exists m :: k <= m < |log| && log[m].proc == p
  }

  lemma {:induction false} RunsAgainIffPending(l: Load, log: seq<Slice>, k: nat, p: nat)
    requires ValidLoad(l) && LogOk(l, log) && Ended(l, log) && k <= |log| && p < |l.arrival| && Started(log[..k], p)
    ensures RunsFrom(log, k, p) <==> Pending(l, log[..k], p)
  {
    if Pending(l, log[..k], p) {
      if forall m :: k <= m < |log| ==> log[m].proc != p {
        PendingStays(l, log, k, p);
      }
    } else {
      NeverAgain(l, log, k, p);
    }
  }

  /** In a finished run a process has a later slice if and only if somebody cut this one, even at its very end. */
  lemma {:induction false} RunsAgainIffCut(l: Load, log: seq<Slice>, k: nat)
    requires ValidLoad(l) && LogOk(l, log) && Ended(l, log) && k < |log|
    ensures 0 <= log[k].proc < |l.arrival|
    ensures RunsFrom(log, k + 1, log[k].proc) <==> IsCut(l, log[..k], log[k].proc, log[k].start)
  {
    SlicesDoNotOverlap(l, log, k, k);
    assert log[..k + 1] == log[..k] + [log[k]];
    PendingIffCut(l, log[..k], log[k]);
    StartedStep(log[..k], log[k], log[k].proc);
    RunsAgainIffPending(l, log, k + 1, log[k].proc);
  }
}
