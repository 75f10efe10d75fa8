/**
 * What the preemptive scheduler does (xlib/test/Scheduling/Scheduling.cpp, lines 88-164), as a log of slices: which
 * process runs next and for how long.  Processes that have not run yet wait in a queue ordered by arrival, preempted
 * ones in a queue ordered by remaining time.
 */
module SrtfLog {

  const INT_MAX: int := 0x7fff_ffff

  /** The arrival times and the CPU bursts of the processes. */
  datatype Load = Load(arrival: seq<int>, burst: seq<int>)

  predicate ValidLoad(l: Load) {
    && |l.arrival| == |l.burst|
    && forall p :: 0 <= p < |l.burst| ==> 0 <= l.burst[p] < INT_MAX
  }

  /** Process `proc` runs from start to end. */
  datatype Slice = Slice(proc: int, start: int, end: int)

  // ---------------------------------------------------------------------------------------------
  // What a log says about a process

  function Done(log: seq<Slice>, p: int): int {
    if log == [] then 0
    else
      var s := log[|log| - 1];
      Done(log[..|log| - 1], p) + if s.proc == p then s.end - s.start else 0
  }

  predicate Started(log: seq<Slice>, p: int) {
    exists k :: 0 <= k < |log| && log[k].proc == p
  }

  /** The place of the last slice of p. */
  function LastRun(log: seq<Slice>, p: int): (k: int)
    ensures -1 <= k < |log|
  {
    if log == [] then -1
    else if log[|log| - 1].proc == p then |log| - 1
    else LastRun(log[..|log| - 1], p)
  }

  function Clock(log: seq<Slice>): int {
    if log == [] then 0 else log[|log| - 1].end
  }

  predicate InLoad(l: Load, p: int) {
    0 <= p < |l.arrival|
  }

  function Remaining(l: Load, log: seq<Slice>, p: int): int
    requires ValidLoad(l) && InLoad(l, p)
  {
    l.burst[p] - Done(log, p)
  }

  /** p has arrived by the time the log ends but has not run. */
  predicate Fresh(l: Load, log: seq<Slice>, p: int)
    requires ValidLoad(l)
  {
    InLoad(l, p) && !Started(log, p) && l.arrival[p] <= Clock(log)
  }

  /** p has run but is not finished. */
  predicate Preempted(l: Load, log: seq<Slice>, p: int)
    requires ValidLoad(l)
  {
    InLoad(l, p) && Started(log, p) && Remaining(l, log, p) > 0
  }

  // ---------------------------------------------------------------------------------------------
  // The rules

  /** The order of the queue of new processes. */
  predicate Earlier(l: Load, p: int, q: int)
    requires ValidLoad(l) && InLoad(l, p) && InLoad(l, q)
  {
    l.arrival[p] < l.arrival[q] || (l.arrival[p] == l.arrival[q] && p < q)
  }

  /** Shorter burst first, then the order of the queue. */
  predicate Shorter(l: Load, p: int, q: int)
    requires ValidLoad(l) && InLoad(l, p) && InLoad(l, q)
  {
    l.burst[p] < l.burst[q] || (l.burst[p] == l.burst[q] && Earlier(l, p, q))
  }

  /** q arrives before p is done, has not run, and needs less than p does now. */
  predicate Interrupts(l: Load, log: seq<Slice>, p: int, start: int, q: int)
    requires ValidLoad(l) && InLoad(l, p)
  {
    && InLoad(l, q) && q != p && !Started(log, q)
    && l.arrival[q] <= start + Remaining(l, log, p) && l.burst[q] < Remaining(l, log, p)
  }

  /**
   * p is in the queue of preempted processes: its last slice was cut.  A process that is cut at the very end of its
   * burst is there with nothing left to do, and gets one more slice of length zero.
   */
  ghost predicate Pending(l: Load, log: seq<Slice>, p: int)
    requires ValidLoad(l) && InLoad(l, p)
  {
    if log == [] then false
    else
      var front, s := log[..|log| - 1], log[|log| - 1];
      if s.proc == p then exists q :: Interrupts(l, front, p, s.start, q) else Pending(l, front, p)
  }

  /** The order of the queue of preempted processes: shorter remaining time first, then longer in the queue. */
  predicate Sooner(l: Load, log: seq<Slice>, p: int, q: int)
    requires ValidLoad(l) && InLoad(l, p) && InLoad(l, q)
  {
    || Remaining(l, log, p) < Remaining(l, log, q)
    || (Remaining(l, log, p) == Remaining(l, log, q) && LastRun(log, p) < LastRun(log, q))
  }

  /**
   * Which process runs next: the waiting new process of shortest burst; without one, the preempted process of
   * shortest remaining time; without either, the process that arrives next.
   */
  ghost predicate ChoiceOk(l: Load, log: seq<Slice>, p: int)
    requires ValidLoad(l) && InLoad(l, p)
  {
    if exists q :: Fresh(l, log, q) then
      Fresh(l, log, p) && forall q :: Fresh(l, log, q) && q != p ==> Shorter(l, p, q)
    else if exists q :: InLoad(l, q) && Pending(l, log, q) then
      Pending(l, log, p) && forall q :: InLoad(l, q) && Pending(l, log, q) && q != p ==> Sooner(l, log, p, q)
    else
      !Started(log, p) && forall q :: InLoad(l, q) && !Started(log, q) && q != p ==> Earlier(l, p, q)
  }

  /** How long it runs: to its end, or to the arrival of the shortest process that interrupts it. */
  ghost predicate LengthOk(l: Load, log: seq<Slice>, s: Slice)
    requires ValidLoad(l) && InLoad(l, s.proc)
  {
    if exists q :: Interrupts(l, log, s.proc, s.start, q) then
      exists q :: && Interrupts(l, log, s.proc, s.start, q) && s.end == l.arrival[q]
                  && forall r :: Interrupts(l, log, s.proc, s.start, r) && r != q ==> Shorter(l, q, r)
    else
      s.end == s.start + Remaining(l, log, s.proc)
  }

  /** A slice as the scheduler appends it to the log. */
  ghost predicate SliceOk(l: Load, log: seq<Slice>, s: Slice)
    requires ValidLoad(l)
  {
    && InLoad(l, s.proc)
    && s.start == (if Clock(log) >= l.arrival[s.proc] then Clock(log) else l.arrival[s.proc])
    && s.start <= s.end <= s.start + Remaining(l, log, s.proc)
    && ChoiceOk(l, log, s.proc) && LengthOk(l, log, s)
  }

  ghost predicate LogOk(l: Load, log: seq<Slice>)
    requires ValidLoad(l)
  {
    log == [] || (LogOk(l, log[..|log| - 1]) && SliceOk(l, log[..|log| - 1], log[|log| - 1]))
  }

  /** Both queues are empty. */
  ghost predicate Ended(l: Load, log: seq<Slice>)
    requires ValidLoad(l)
  {
    forall p :: InLoad(l, p) ==> Started(log, p) && !Pending(l, log, p)
  }

  /** Every process has run for exactly its burst. */
  ghost predicate Complete(l: Load, log: seq<Slice>)
    requires ValidLoad(l)
  {
    forall p :: InLoad(l, p) ==> Started(log, p) && Done(log, p) == l.burst[p]
  }

  // ---------------------------------------------------------------------------------------------
  // One more slice

  lemma {:induction false} StartedStep(log: seq<Slice>, s: Slice, p: int)
    ensures Started(log + [s], p) <==> Started(log, p) || p == s.proc
  {
    if Started(log, p) {
      var k :| 0 <= k < |log| && log[k].proc == p;
      assert (log + [s])[k].proc == p;
    }
    assert (log + [s])[|log|] == s;
  }

  lemma {:induction false} DoneStep(log: seq<Slice>, s: Slice, p: int)
    ensures Done(log + [s], p) == Done(log, p) + if s.proc == p then s.end - s.start else 0
  {
    assert (log + [s])[..|log|] == log;
  }

  lemma {:induction false} LastRunStep(log: seq<Slice>, s: Slice, p: int)
    ensures LastRun(log + [s], p) == if s.proc == p then |log| else LastRun(log, p)
  {
    assert (log + [s])[..|log|] == log;
  }

  lemma {:induction false} PendingStep(l: Load, log: seq<Slice>, s: Slice, p: int)
    requires ValidLoad(l) && InLoad(l, p)
    ensures Pending(l, log + [s], p)
       <==> if s.proc == p then exists q :: Interrupts(l, log, p, s.start, q) else Pending(l, log, p)
  {
    assert (log + [s])[..|log|] == log;
  }

  lemma {:induction false} LastSlice(log: seq<Slice>)
    requires log != []
    ensures log == log[..|log| - 1] + [log[|log| - 1]]
  {
  }

  lemma {:induction false} NothingDoneBeforeStart(log: seq<Slice>, p: int)
    requires !Started(log, p)
    ensures Done(log, p) == 0
  {
    if log != [] {
      var front, last := log[..|log| - 1], log[|log| - 1];
      LastSlice(log);
      StartedStep(front, last, p);
      NothingDoneBeforeStart(front, p);
    }
  }

  lemma {:induction false} PendingIsStarted(l: Load, log: seq<Slice>, p: int)
    requires ValidLoad(l) && InLoad(l, p) && Pending(l, log, p)
    ensures Started(log, p)
  {
    var front, last := log[..|log| - 1], log[|log| - 1];
    LastSlice(log);
    StartedStep(front, last, p);
    if last.proc != p {
      PendingIsStarted(l, front, p);
    }
  }

  /** Whoever has time left is in the queue of preempted processes. */
  lemma {:induction false} PreemptedIsPending(l: Load, log: seq<Slice>, p: int)
    requires ValidLoad(l) && LogOk(l, log) && Preempted(l, log, p)
    ensures Pending(l, log, p)
  {
    var front, last := log[..|log| - 1], log[|log| - 1];
    LastSlice(log);
    StartedStep(front, last, p);
    DoneStep(front, last, p);
    if last.proc != p {
      PreemptedIsPending(l, front, p);
    }
  }

  // ---------------------------------------------------------------------------------------------
  // What follows from the log

  lemma {:induction false} PrefixOk(l: Load, log: seq<Slice>, k: nat)
    requires ValidLoad(l) && LogOk(l, log) && k <= |log|
    ensures LogOk(l, log[..k])
    ensures k < |log| ==> SliceOk(l, log[..k], log[k])
    decreases |log|
  {
    if k == |log| {
      assert log[..k] == log;
    } else {
      var front := log[..|log| - 1];
      if k < |log| - 1 {
        PrefixOk(l, front, k);
        assert front[..k] == log[..k] && front[k] == log[k];
      }
    }
  }

  /** Slices do not overlap, and none starts before its process arrives. */
  lemma {:induction false} SlicesDoNotOverlap(l: Load, log: seq<Slice>, j: nat, k: nat)
    requires ValidLoad(l) && LogOk(l, log) && j <= k < |log|
    ensures InLoad(l, log[k].proc) && l.arrival[log[k].proc] <= log[k].start <= log[k].end
    ensures j < k ==> log[j].end <= log[k].start
    decreases k - j
  {
    PrefixOk(l, log, k);
    if j < k {
      assert Clock(log[..k]) == log[k - 1].end;
      if j < k - 1 {
        SlicesDoNotOverlap(l, log, j, k - 1);
      }
      SlicesDoNotOverlap(l, log, k - 1, k - 1);
    }
  }

  lemma {:induction false} StartedHasArrived(l: Load, log: seq<Slice>, p: int)
    requires ValidLoad(l) && LogOk(l, log) && Started(log, p)
    ensures InLoad(l, p) && l.arrival[p] <= Clock(log)
  {
    var k :| 0 <= k < |log| && log[k].proc == p;
    SlicesDoNotOverlap(l, log, k, |log| - 1);
    SlicesDoNotOverlap(l, log, k, k);
  }

  /** A process never runs for more than its burst. */
  lemma {:induction false} DoneIsBounded(l: Load, log: seq<Slice>, p: int)
    requires ValidLoad(l) && LogOk(l, log) && InLoad(l, p)
    ensures 0 <= Done(log, p) <= l.burst[p]
  {
    if log != [] {
      DoneIsBounded(l, log[..|log| - 1], p);
    }
  }

  /** The clock jumps ahead only when everything that arrives before the jump ends is finished. */
  lemma {:induction false} IdleMeansNothingToDo(l: Load, log: seq<Slice>, k: nat, p: int)
    requires ValidLoad(l) && LogOk(l, log) && k < |log|
    requires Clock(log[..k]) < log[k].start
    requires InLoad(l, p) && l.arrival[p] < log[k].start
    ensures Started(log[..k], p) && Done(log[..k], p) == l.burst[p]
  {
    PrefixOk(l, log, k);
    var before, s := log[..k], log[k];
    if Pending(l, before, s.proc) {
      PendingIsStarted(l, before, s.proc);
      StartedHasArrived(l, before, s.proc);
    }
    assert !Fresh(l, before, s.proc);
    DoneIsBounded(l, before, p);
    if Preempted(l, before, p) {
      PreemptedIsPending(l, before, p);
    }
  }

  lemma {:induction false} EndedIsComplete(l: Load, log: seq<Slice>)
    requires ValidLoad(l) && LogOk(l, log) && Ended(l, log)
    ensures Complete(l, log)
  {
    forall p | InLoad(l, p) ensures Done(log, p) == l.burst[p] {
      DoneIsBounded(l, log, p);
      if Preempted(l, log, p) {
        PreemptedIsPending(l, log, p);
      }
    }
  }

  // ---------------------------------------------------------------------------------------------
  // The rules leave no choice

  lemma {:induction false} ChoiceIsFixed(l: Load, log: seq<Slice>, p: int, q: int)
    requires ValidLoad(l) && InLoad(l, p) && InLoad(l, q) && ChoiceOk(l, log, p) && ChoiceOk(l, log, q)
    ensures p == q
  {
  }

  lemma {:induction false} SliceIsFixed(l: Load, log: seq<Slice>, s: Slice, t: Slice)
    requires ValidLoad(l) && SliceOk(l, log, s) && SliceOk(l, log, t)
    ensures s == t
  {
    ChoiceIsFixed(l, log, s.proc, t.proc);
    if q :| Interrupts(l, log, s.proc, s.start, q) {
      assert Interrupts(l, log, t.proc, t.start, q);
    }
  }

  lemma {:induction false} OneMoreAgrees(a: seq<Slice>, b: seq<Slice>)
    requires 0 < |a| <= |b| && a[..|a| - 1] == b[..|a| - 1] && a[|a| - 1] == b[|a| - 1]
    ensures a == b[..|a|]
  {
    LastSlice(a);
    LastSlice(b[..|a|]);
  }

  /** The load fixes the log: of two logs the shorter one is the beginning of the longer one. */
  lemma {:induction false} LogIsFixed(l: Load, a: seq<Slice>, b: seq<Slice>)
    requires ValidLoad(l) && LogOk(l, a) && LogOk(l, b) && |a| <= |b|
    ensures a == b[..|a|]
  {
    if a != [] {
      var k := |a| - 1;
      PrefixOk(l, a, k);
      PrefixOk(l, b, k);
      LogIsFixed(l, a[..k], b);
      SliceIsFixed(l, b[..k], a[k], b[k]);
      OneMoreAgrees(a, b);
    }
  }

  /** Nothing follows a log that has ended, so every log is a beginning of it. */
  lemma {:induction false} EndedIsWhole(l: Load, whole: seq<Slice>, log: seq<Slice>)
    requires ValidLoad(l) && LogOk(l, whole) && Ended(l, whole) && LogOk(l, log)
    ensures |log| <= |whole| && log == whole[..|log|]
    ensures Ended(l, log) ==> log == whole
  {
    if |log| > |whole| {
      LogIsFixed(l, whole, log);
      PrefixOk(l, log, |whole|);
      NothingFollows(l, whole, log[|whole|]);
    } else {
      LogIsFixed(l, log, whole);
      if Ended(l, log) && |log| < |whole| {
        PrefixOk(l, whole, |log|);
        NothingFollows(l, log, whole[|log|]);
      }
    }
  }

  lemma {:induction false} NothingFollows(l: Load, log: seq<Slice>, s: Slice)
    requires ValidLoad(l) && Ended(l, log)
    ensures !SliceOk(l, log, s)
  {
    if SliceOk(l, log, s) {
      assert Started(log, s.proc) && !Pending(l, log, s.proc);
      assert forall q :: !Fresh(l, log, q);
    }
  }
}
