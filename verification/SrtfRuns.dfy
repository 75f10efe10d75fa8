/**
 * Three runs in which the scheduler does not run the shortest remaining time
 * (xlib/test/Scheduling/Scheduling.cpp, lines 123-163).
 */
module SrtfRuns {
  import opened SrtfLog
  import opened SrtfShortest

  // ---------------------------------------------------------------------------------------------
  // Following a run

  /** What a log leaves: the clock, and for each process whether it has run, its time left, and if it is pending. */
  datatype Snapshot = Snapshot(clock: int, started: seq<bool>, left: seq<int>, pending: seq<bool>)

  ghost predicate Leaves(l: Load, log: seq<Slice>, x: Snapshot)
    requires ValidLoad(l)
  {
    && Clock(log) == x.clock && LogOk(l, log)
    && |x.started| == |x.left| == |x.pending| == |l.arrival|
    && forall p :: InLoad(l, p) ==>
         Started(log, p) == x.started[p] && Remaining(l, log, p) == x.left[p] && Pending(l, log, p) == x.pending[p]
  }

  function After(x: Snapshot, s: Slice, cut: bool): Snapshot
    requires 0 <= s.proc < |x.started| == |x.left| == |x.pending|
  {
    Snapshot(s.end, x.started[s.proc := true], x.left[s.proc := x.left[s.proc] - (s.end - s.start)],
             x.pending[s.proc := cut])
  }

  lemma {:induction false} NothingHasRun(l: Load)
    requires ValidLoad(l)
    ensures Leaves(l, [], Snapshot(0, seq(|l.arrival|, _ => false), l.burst, seq(|l.arrival|, _ => false)))
  {
  }

  lemma {:induction false} SliceLeaves(l: Load, log: seq<Slice>, x: Snapshot, s: Slice, cut: bool)
    requires ValidLoad(l) && Leaves(l, log, x) && SliceOk(l, log, s)
    requires cut <==> exists q :: Interrupts(l, log, s.proc, s.start, q)
    ensures Leaves(l, log + [s], After(x, s, cut))
  {
    assert (log + [s])[..|log|] == log;
    forall p | InLoad(l, p)
      ensures var y := After(x, s, cut);
        && Started(log + [s], p) == y.started[p] && Remaining(l, log + [s], p) == y.left[p]
        && Pending(l, log + [s], p) == y.pending[p]
    {
      StartedStep(log, s, p);
      DoneStep(log, s, p);
      PendingStep(l, log, s, p);
    }
  }

  predicate Sized(l: Load, x: Snapshot) {
    |x.started| == |x.left| == |x.pending| == |l.arrival|
  }

  predicate IsNew(l: Load, x: Snapshot, q: int)
    requires Sized(l, x) && InLoad(l, q)
  {
    !x.started[q] && l.arrival[q] <= x.clock
  }

  /** Process q does not keep p from being chosen: p is new and shorter, or p is the only one pending and q not new. */
  predicate Yields(l: Load, x: Snapshot, p: int, q: int)
    requires ValidLoad(l) && Sized(l, x) && InLoad(l, p) && InLoad(l, q)
  {
    if x.pending[p] then !IsNew(l, x, q) && !x.pending[q] else IsNew(l, x, q) ==> Shorter(l, p, q)
  }

  /** Process q does not make the slice end earlier: the one that cuts it is shorter, or q does not interrupt. */
  predicate LetsRun(l: Load, x: Snapshot, s: Slice, cutter: int, q: int)
    requires ValidLoad(l) && Sized(l, x) && InLoad(l, s.proc) && InLoad(l, q)
  {
    !x.started[q] ==>
      if InLoad(l, cutter) then q != cutter ==> Shorter(l, cutter, q)
      else l.arrival[q] <= s.end ==> l.burst[q] >= x.left[s.proc]
  }

  /** A slice that starts at once, of a process that waits. */
  predicate Begins(l: Load, x: Snapshot, s: Slice)
    requires ValidLoad(l) && Sized(l, x)
  {
    InLoad(l, s.proc) && s.start == x.clock && (x.pending[s.proc] || IsNew(l, x, s.proc))
  }

  /** Process `cutter` cuts it, or it runs to its end if there is no such process. */
  predicate Ends(l: Load, x: Snapshot, s: Slice, cutter: int)
    requires ValidLoad(l) && Sized(l, x) && InLoad(l, s.proc)
  {
    if InLoad(l, cutter) then
      && cutter != s.proc && !x.started[cutter] && l.burst[cutter] < x.left[s.proc]
      && s.start <= s.end == l.arrival[cutter] <= s.start + x.left[s.proc]
    else s.end == s.start + x.left[s.proc]
  }

  /** It is lawful if the other processes do not object. */
  predicate SliceFits(l: Load, x: Snapshot, s: Slice, cutter: int)
    requires ValidLoad(l) && Sized(l, x)
  {
    && Begins(l, x, s) && Ends(l, x, s, cutter)
    && forall q :: 0 <= q < |l.arrival| && q != s.proc ==> Yields(l, x, s.proc, q) && LetsRun(l, x, s, cutter, q)
  }

  lemma {:induction false} ChoiceFits(l: Load, log: seq<Slice>, x: Snapshot, p: int)
    requires ValidLoad(l) && Leaves(l, log, x) && InLoad(l, p) && (x.pending[p] || IsNew(l, x, p))
    requires forall q :: 0 <= q < |l.arrival| && q != p ==> Yields(l, x, p, q)
    ensures ChoiceOk(l, log, p) && l.arrival[p] <= Clock(log)
  {
    if x.pending[p] {
      PendingIsStarted(l, log, p);
      StartedHasArrived(l, log, p);
      forall q | InLoad(l, q) && q != p ensures !Fresh(l, log, q) && !Pending(l, log, q) {
        assert Yields(l, x, p, q);
      }
    } else {
      assert Fresh(l, log, p);
      forall q | Fresh(l, log, q) && q != p ensures Shorter(l, p, q) {
        assert Yields(l, x, p, q);
      }
    }
  }

  lemma {:induction false} LengthFits(l: Load, log: seq<Slice>, x: Snapshot, s: Slice, cutter: int)
    requires ValidLoad(l) && Leaves(l, log, x) && SliceFits(l, x, s, cutter)
    ensures LengthOk(l, log, s)
    ensures InLoad(l, cutter) <==> exists q :: Interrupts(l, log, s.proc, s.start, q)
  {
    if InLoad(l, cutter) {
      assert Interrupts(l, log, s.proc, s.start, cutter);
      forall r | Interrupts(l, log, s.proc, s.start, r) && r != cutter ensures Shorter(l, cutter, r) {
        assert LetsRun(l, x, s, cutter, r);
      }
    } else {
      forall q ensures !Interrupts(l, log, s.proc, s.start, q) {
        assert InLoad(l, q) && q != s.proc ==> LetsRun(l, x, s, cutter, q);
      }
    }
  }

  lemma {:induction false} SliceFollows(l: Load, log: seq<Slice>, x: Snapshot, s: Slice, cutter: int)
    requires ValidLoad(l) && Leaves(l, log, x) && SliceFits(l, x, s, cutter)
    ensures Leaves(l, log + [s], After(x, s, InLoad(l, cutter)))
  {
    ChoiceFits(l, log, x, s.proc);
    LengthFits(l, log, x, s, cutter);
    DoneIsBounded(l, log, s.proc);
    SliceLeaves(l, log, x, s, InLoad(l, cutter));
  }

  /** The snapshots between the slices of a log, and who cuts each slice. */
  datatype Trace = Trace(snapshots: seq<Snapshot>, cutters: seq<int>)

  predicate TraceFits(l: Load, log: seq<Slice>, t: Trace)
    requires ValidLoad(l)
  {
    && |t.snapshots| == |log| + 1 && |t.cutters| == |log|
    && (forall k :: 0 <= k <= |log| ==> Sized(l, t.snapshots[k]))
    && t.snapshots[0] == Snapshot(0, seq(|l.arrival|, _ => false), l.burst, seq(|l.arrival|, _ => false))
    && forall k :: 0 <= k < |log| ==>
         && SliceFits(l, t.snapshots[k], log[k], t.cutters[k])
         && t.snapshots[k + 1] == After(t.snapshots[k], log[k], InLoad(l, t.cutters[k]))
  }

  lemma {:induction false} TraceIsFollowed(l: Load, log: seq<Slice>, t: Trace, k: nat)
    requires ValidLoad(l) && TraceFits(l, log, t) && k <= |log|
    ensures Leaves(l, log[..k], t.snapshots[k])
  {
    if k == 0 {
      NothingHasRun(l);
    } else {
      TraceIsFollowed(l, log, t, k - 1);
      NextPrefix(log, k - 1);
      SliceFollows(l, log[..k - 1], t.snapshots[k - 1], log[k - 1], t.cutters[k - 1]);
    }
  }

  /** A trace that ends with everybody done is the run of its load: the scheduler produces its log and no other. */
  lemma {:induction false} TraceIsWhole(l: Load, its: seq<Slice>, t: Trace, log: seq<Slice>)
    requires ValidLoad(l) && TraceFits(l, its, t)
    requires forall p :: 0 <= p < |l.arrival| ==> t.snapshots[|its|].started[p] && !t.snapshots[|its|].pending[p]
    requires LogOk(l, log) && Ended(l, log)
    ensures log == its
  {
    TraceIsFollowed(l, its, t, |its|);
    assert its[..|its|] == its;
    EndedIsWhole(l, log, its);
  }

  /** p has the least time left of all that can run. */
  predicate HasLeast(l: Load, x: Snapshot, p: int)
    requires ValidLoad(l) && Sized(l, x) && InLoad(l, p)
  {
    forall q :: 0 <= q < |l.arrival| && (if x.started[q] then x.left[q] > 0 else l.arrival[q] <= x.clock) ==>
      x.left[p] <= x.left[q]
  }

  lemma {:induction false} ChoiceIsShortest(l: Load, log: seq<Slice>, x: Snapshot, p: int)
    requires ValidLoad(l) && Leaves(l, log, x) && InLoad(l, p) && HasLeast(l, x, p)
    ensures IsShortest(l, log, p)
  {
    forall q | Fresh(l, log, q) ensures Remaining(l, log, p) <= l.burst[q] {
      NewHasAllLeft(l, log, q);
    }
  }

  lemma {:induction false} NextPrefix(log: seq<Slice>, k: nat)
    requires k < |log|
    ensures log[..k + 1] == log[..k] + [log[k]]
  {
  }

  // ---------------------------------------------------------------------------------------------
  // Two runs

  /** Three processes: the third arrives while the second holds the CPU, and is the longest of all. */
  function LateLongProcess(): Load {
    Load([0, 1, 2], [10, 3, 20])
  }

  function ItsLog(): seq<Slice> {
    [Slice(0, 0, 1), Slice(1, 1, 4), Slice(2, 4, 24), Slice(0, 24, 33)]
  }

  function ItsTrace(): Trace {
    Trace([Snapshot(0, [false, false, false], [10, 3, 20], [false, false, false]),
           Snapshot(1, [true, false, false], [9, 3, 20], [true, false, false]),
           Snapshot(4, [true, true, false], [9, 0, 20], [true, false, false]),
           Snapshot(24, [true, true, true], [9, 0, 0], [true, false, false]),
           Snapshot(33, [true, true, true], [0, 0, 0], [false, false, false])],
          [1, -1, -1, -1])
  }

  /** The second process needs 2 and arrives at 1; the third needs 1 and arrives at 8. */
  function LateShortProcess(): Load {
    Load([0, 1, 8], [10, 2, 1])
  }

  function CutLate(): seq<Slice> {
    [Slice(0, 0, 8), Slice(2, 8, 9), Slice(1, 9, 11), Slice(0, 11, 13)]
  }

  function CutTrace(): Trace {
    Trace([Snapshot(0, [false, false, false], [10, 2, 1], [false, false, false]),
           Snapshot(8, [true, false, false], [2, 2, 1], [true, false, false]),
           Snapshot(9, [true, false, true], [2, 2, 0], [true, false, false]),
           Snapshot(11, [true, true, true], [2, 0, 0], [true, false, false]),
           Snapshot(13, [true, true, true], [0, 0, 0], [false, false, false])],
          [2, -1, -1, -1])
  }

  predicate IsExample(l: Load, log: seq<Slice>, t: Trace) {
    || (l == LateLongProcess() && log == ItsLog() && t == ItsTrace())
    || (l == LateShortProcess() && log == CutLate() && t == CutTrace())
  }

  lemma {:induction false} ExampleChoices(l: Load, log: seq<Slice>, t: Trace, k: nat, q: nat)
    requires IsExample(l, log, t) && k < 4 && q < 3 && q != log[k].proc
    ensures Yields(l, t.snapshots[k], log[k].proc, q)
  {
  }

  lemma {:induction false} ExampleLengths(l: Load, log: seq<Slice>, t: Trace, k: nat, q: nat)
    requires IsExample(l, log, t) && k < 4 && q < 3 && q != log[k].proc
    ensures LetsRun(l, t.snapshots[k], log[k], t.cutters[k], q)
  {
  }

  lemma {:induction false} ExampleBegins(l: Load, log: seq<Slice>, t: Trace, k: nat)
    requires IsExample(l, log, t) && k < 4
    ensures ValidLoad(l) && Sized(l, t.snapshots[k]) && Begins(l, t.snapshots[k], log[k])
  {
  }

  lemma {:induction false} ExampleEnds(l: Load, log: seq<Slice>, t: Trace, k: nat)
    requires IsExample(l, log, t) && k < 4
    ensures ValidLoad(l) && Sized(l, t.snapshots[k]) && InLoad(l, log[k].proc)
    ensures Ends(l, t.snapshots[k], log[k], t.cutters[k])
  {
  }

  lemma {:induction false} ExampleGoesOn(l: Load, log: seq<Slice>, t: Trace, k: nat)
    requires IsExample(l, log, t) && k < 4
    ensures Sized(l, t.snapshots[k]) && Sized(l, t.snapshots[k + 1]) && 0 <= log[k].proc < 3
    ensures t.snapshots[k + 1] == After(t.snapshots[k], log[k], InLoad(l, t.cutters[k]))
  {
  }

  lemma {:induction false} ExampleSlices(l: Load, log: seq<Slice>, t: Trace, k: nat)
    requires IsExample(l, log, t) && k < 4 && ValidLoad(l) && |l.arrival| == 3 && Sized(l, t.snapshots[k])
    ensures SliceFits(l, t.snapshots[k], log[k], t.cutters[k])
  {
    ExampleBegins(l, log, t, k);
    ExampleEnds(l, log, t, k);
    forall q: nat | q < 3 && q != log[k].proc
      ensures Yields(l, t.snapshots[k], log[k].proc, q) && LetsRun(l, t.snapshots[k], log[k], t.cutters[k], q)
    {
      ExampleChoices(l, log, t, k, q);
      ExampleLengths(l, log, t, k, q);
    }
  }

  lemma {:induction false} ExampleFits(l: Load, log: seq<Slice>, t: Trace)
    requires IsExample(l, log, t)
    ensures TraceFits(l, log, t)
  {
    assert seq(3, _ => false) == [false, false, false];
    forall k: nat | k < 4
      ensures SliceFits(l, t.snapshots[k], log[k], t.cutters[k])
      ensures t.snapshots[k + 1] == After(t.snapshots[k], log[k], InLoad(l, t.cutters[k]))
    {
      ExampleBegins(l, log, t, k);
      ExampleGoesOn(l, log, t, k);
      ExampleSlices(l, log, t, k);
    }
  }

  // ---------------------------------------------------------------------------------------------
  // In the first run the longer process is chosen

  /** The scheduler produces this log and no other. */
  lemma {:induction false} ItsLogIsProduced(log: seq<Slice>)
    requires LogOk(LateLongProcess(), log) && Ended(LateLongProcess(), log)
    ensures log == ItsLog()
  {
    ExampleFits(LateLongProcess(), ItsLog(), ItsTrace());
    TraceIsWhole(LateLongProcess(), ItsLog(), ItsTrace(), log);
  }

  /** After two slices the scheduler takes the third process, which needs 20, with 9 units left of the first. */
  lemma {:induction false} NotAlwaysShortest(p: int)
    requires InLoad(LateLongProcess(), p) && ChoiceOk(LateLongProcess(), ItsLog()[..2], p)
    ensures p == 2 && !IsShortest(LateLongProcess(), ItsLog()[..2], p)
  {
    ExampleFits(LateLongProcess(), ItsLog(), ItsTrace());
    TraceIsFollowed(LateLongProcess(), ItsLog(), ItsTrace(), 2);
    LongerIsChosen(LateLongProcess(), ItsLog()[..2], ItsTrace().snapshots[2], p);
  }

  lemma {:induction false} LongerIsChosen(l: Load, log: seq<Slice>, x: Snapshot, p: int)
    requires l == LateLongProcess() && x == ItsTrace().snapshots[2] && Leaves(l, log, x)
    requires InLoad(l, p) && ChoiceOk(l, log, p)
    ensures p == 2 && !IsShortest(l, log, p)
  {
    assert Fresh(l, log, 2);
    assert Preempted(l, log, 0);
  }

  // ---------------------------------------------------------------------------------------------
  // In the second run every choice is the shortest, but not every moment

  lemma {:induction false} CutLateIsProduced(log: seq<Slice>)
    requires LogOk(LateShortProcess(), log) && Ended(LateShortProcess(), log)
    ensures log == CutLate()
  {
    ExampleFits(LateShortProcess(), CutLate(), CutTrace());
    TraceIsWhole(LateShortProcess(), CutLate(), CutTrace(), log);
  }

  lemma {:induction false} ChosenHasLeast(l: Load, x: Snapshot, p: int, k: nat)
    requires l == LateShortProcess() && k < 4 && x == CutTrace().snapshots[k] && p == CutLate()[k].proc
    ensures HasLeast(l, x, p)
  {
  }

  /** All four choices are the shortest remaining time ... */
  lemma {:induction false} EveryChoiceIsShortest(log: seq<Slice>, k: nat)
    requires log == CutLate() && k < |log|
    ensures IsShortest(LateShortProcess(), log[..k], log[k].proc)
  {
    ExampleFits(LateShortProcess(), CutLate(), CutTrace());
    TraceIsFollowed(LateShortProcess(), log, CutTrace(), k);
    ChosenHasLeast(LateShortProcess(), CutTrace().snapshots[k], log[k].proc, k);
    ChoiceIsShortest(LateShortProcess(), log[..k], CutTrace().snapshots[k], log[k].proc);
  }

  /** ... and yet from time 1 on the first process runs with 9 units left while the second needs 2. */
  lemma {:induction false} ButNotEveryMoment()
    ensures !ShortestAt(LateShortProcess(), [], CutLate()[0], 1)
    ensures !NoShorterArrives(LateShortProcess(), [], CutLate()[0])
  {
    assert Ready(LateShortProcess(), [], 1, 1);
    assert !Started([], 1);
  }

  // ---------------------------------------------------------------------------------------------
  // A tie after a jump of the clock

  /** Two processes arrive together while nobody is there; the longer one has the smaller number. */
  function TieAfterJump(): Load {
    Load([5, 5, 8], [10, 3, 1])
  }

  /**
   * The first process starts at 5 with 10 units left although the second, which arrives at that very moment, needs
   * 3.  Nobody had arrived when the choice was made, and nobody arrives strictly inside the slice.
   */
  lemma {:induction false} ArrivalAtTheStartCounts(l: Load, s: Slice)
    requires l == TieAfterJump() && s == Slice(0, 5, 8)
    ensures SliceOk(l, [], s) && (forall q :: !Fresh(l, [], q))
    ensures forall q :: InLoad(l, q) ==> !(s.start < l.arrival[q] < s.end)
    ensures !ShortestAt(l, [], s, 5) && !NoShorterArrives(l, [], s)
  {
    assert Interrupts(l, [], 0, 5, 2);
    assert Ready(l, [], 1, 5);
    assert !Started([], 1);
  }
}
