/**
 * The preemptive scheduler as a program over its two queues (xlib/test/Scheduling/Scheduling.cpp, lines 88-164).
 */
module Srtf {
  import opened SrtfLog

  /** A preempted process and the time it still needs. */
  datatype Item = Item(remain: int, proc: int)

  // ---------------------------------------------------------------------------------------------
  // The queues

  /** Processes by arrival, then in the order of insertion, which is the order of their numbers. */
  predicate SortedByArrival(l: Load, queue: seq<int>)
    requires ValidLoad(l)
  {
    && (forall i :: 0 <= i < |queue| ==> InLoad(l, queue[i]))
    && forall i, j :: 0 <= i < j < |queue| ==> Earlier(l, queue[i], queue[j])
  }

  /** The multimap puts a process behind all that arrive no later. */
  function InsertProc(l: Load, queue: seq<int>, p: int): (r: seq<int>)
    requires ValidLoad(l) && InLoad(l, p) && SortedByArrival(l, queue) && forall x :: x in queue ==> x < p
    ensures SortedByArrival(l, r) && forall x :: x in r <==> x in queue || x == p
    ensures |r| == |queue| + 1
  {
    assert forall i :: 0 <= i < |queue| ==> queue[i] in queue;
    if queue == [] || l.arrival[queue[|queue| - 1]] <= l.arrival[p] then
      queue + [p]
    else
      var front, last := queue[..|queue| - 1], queue[|queue| - 1];
      assert queue == front + [last];
      var r := InsertProc(l, front, p);
      assert forall i :: 0 <= i < |r| ==> r[i] in r;
      r + [last]
  }

  /** Shorter remaining time first, then in the order of insertion, which is the order of the slices that were cut. */
  predicate ItemLess(log: seq<Slice>, a: Item, b: Item) {
    a.remain < b.remain || (a.remain == b.remain && LastRun(log, a.proc) < LastRun(log, b.proc))
  }

  predicate SortedByRemain(log: seq<Slice>, items: seq<Item>) {
    forall i, j :: 0 <= i < j < |items| ==> ItemLess(log, items[i], items[j])
  }

  function InsertItem(items: seq<Item>, x: Item): (r: seq<Item>)
    ensures forall y :: y in r <==> y in items || y == x
    ensures |r| == |items| + 1
  {
    if items == [] || items[|items| - 1].remain <= x.remain then items + [x]
    else
      assert items == items[..|items| - 1] + [items[|items| - 1]];
      InsertItem(items[..|items| - 1], x) + [items[|items| - 1]]
  }

  lemma {:induction false} InsertKeepsOrder(log: seq<Slice>, items: seq<Item>, x: Item)
    requires SortedByRemain(log, items)
    requires forall y :: y in items ==> LastRun(log, y.proc) < LastRun(log, x.proc)
    ensures SortedByRemain(log, InsertItem(items, x))
  {
    if items != [] && items[|items| - 1].remain > x.remain {
      var front, last := items[..|items| - 1], items[|items| - 1];
      assert items == front + [last];
      InsertKeepsOrder(log, front, x);
      var r := InsertItem(front, x);
      forall i | 0 <= i < |r| ensures ItemLess(log, r[i], last) {
        assert r[i] in r;
        if r[i] in front {
          var j :| 0 <= j < |front| && front[j] == r[i];
          assert items[j] == r[i];
        }
      }
    } else {
      forall i | 0 <= i < |items| ensures ItemLess(log, items[i], x) {
        assert items[i] in items;
        assert i < |items| - 1 ==> ItemLess(log, items[i], items[|items| - 1]);
      }
    }
  }

  /**
   * The first of the shortest bursts below minValue among the processes that arrive by `time`; |queue| if there is
   * none.
   */
  method FindMin(l: Load, queue: seq<int>, time: int, minValue0: int) returns (selected: nat)
    requires ValidLoad(l) && SortedByArrival(l, queue)
    ensures selected <= |queue|
    ensures selected < |queue| ==>
      && l.arrival[queue[selected]] <= time && l.burst[queue[selected]] < minValue0
      && forall j :: 0 <= j < |queue| && j != selected && l.arrival[queue[j]] <= time ==>
           Shorter(l, queue[selected], queue[j])
    ensures selected == |queue| ==>
      forall j :: 0 <= j < |queue| && l.arrival[queue[j]] <= time ==> l.burst[queue[j]] >= minValue0
  {
    selected := |queue|;
    var minValue := minValue0;
    var it := 0;
    while it != |queue| && l.arrival[queue[it]] <= time
      invariant 0 <= it <= |queue| && selected <= |queue|
      invariant selected < |queue| ==>
        selected < it && l.arrival[queue[selected]] <= time && minValue == l.burst[queue[selected]] < minValue0
      invariant selected == |queue| ==> minValue == minValue0
      invariant forall j :: 0 <= j < it ==> minValue <= l.burst[queue[j]]
      invariant selected < |queue| ==> forall j :: 0 <= j < selected ==> minValue < l.burst[queue[j]]
      decreases |queue| - it
    {
      var burst := l.burst[queue[it]];
      if burst < minValue {
        minValue := burst;
        selected := it;
      }
      it := it + 1;
    }
  }

  // ---------------------------------------------------------------------------------------------
  // The scheduler

  /** What every round keeps: the queues hold exactly the processes that have not run and the pending ones. */
  ghost predicate Inv(l: Load, log: seq<Slice>, queue: seq<int>, items: seq<Item>) {
    && ValidLoad(l) && LogOk(l, log)
    && SortedByArrival(l, queue) && SortedByRemain(log, items)
    && (forall p :: p in queue <==> InLoad(l, p) && !Started(log, p))
    && (forall x :: x in items ==>
          InLoad(l, x.proc) && Pending(l, log, x.proc) && x.remain == Remaining(l, log, x.proc))
    && (forall p :: InLoad(l, p) && Pending(l, log, p) ==> Item(Remaining(l, log, p), p) in items)
  }

  /** Process p has been taken out of the queue that held it. */
  ghost predicate Taken(l: Load, log: seq<Slice>, queue: seq<int>, items: seq<Item>, p: int,
                        queue': seq<int>, items': seq<Item>)
    requires Inv(l, log, queue, items)
  {
    && InLoad(l, p) && SortedByArrival(l, queue') && SortedByRemain(log, items')
    && (forall q :: q in queue' <==> q in queue && q != p)
    && (forall x :: x in items' <==> x in items && x.proc != p)
  }

  lemma {:induction false} FreshIsQueued(l: Load, log: seq<Slice>, queue: seq<int>, items: seq<Item>, q: int)
    requires Inv(l, log, queue, items)
    ensures Fresh(l, log, q) <==> q in queue && l.arrival[q] <= Clock(log)
  {
  }

  lemma {:induction false} NewChoice(l: Load, log: seq<Slice>, queue: seq<int>, items: seq<Item>, it: nat)
    requires Inv(l, log, queue, items) && it < |queue| && l.arrival[queue[it]] <= Clock(log)
    requires forall j :: 0 <= j < |queue| && j != it && l.arrival[queue[j]] <= Clock(log) ==>
               Shorter(l, queue[it], queue[j])
    ensures ChoiceOk(l, log, queue[it]) && Remaining(l, log, queue[it]) == l.burst[queue[it]]
  {
    var p := queue[it];
    assert p in queue;
    NothingDoneBeforeStart(log, p);
    assert Fresh(l, log, p);
    forall q | Fresh(l, log, q) && q != p ensures Shorter(l, p, q) {
      FreshIsQueued(l, log, queue, items, q);
      var j :| 0 <= j < |queue| && queue[j] == q;
    }
  }

  lemma {:induction false} NoFresh(l: Load, log: seq<Slice>, queue: seq<int>, items: seq<Item>)
    requires Inv(l, log, queue, items)
    requires forall j :: 0 <= j < |queue| && l.arrival[queue[j]] <= Clock(log) ==> l.burst[queue[j]] >= INT_MAX
    ensures forall q :: !Fresh(l, log, q)
    ensures forall j :: 0 <= j < |queue| ==> l.arrival[queue[j]] > Clock(log)
  {
    forall q ensures !Fresh(l, log, q) {
      FreshIsQueued(l, log, queue, items, q);
      if q in queue {
        var j :| 0 <= j < |queue| && queue[j] == q;
      }
    }
  }

  lemma {:induction false} PendingChoice(l: Load, log: seq<Slice>, queue: seq<int>, items: seq<Item>)
    requires Inv(l, log, queue, items) && items != [] && forall q :: !Fresh(l, log, q)
    ensures ChoiceOk(l, log, items[0].proc) && Remaining(l, log, items[0].proc) == items[0].remain
  {
    var p := items[0].proc;
    assert items[0] in items;
    assert InLoad(l, p) && Pending(l, log, p);
    forall q | InLoad(l, q) && Pending(l, log, q) && q != p ensures Sooner(l, log, p, q) {
      assert Item(Remaining(l, log, q), q) in items;
      var j :| 0 <= j < |items| && items[j] == Item(Remaining(l, log, q), q);
    }
  }

  lemma {:induction false} NothingPending(l: Load, log: seq<Slice>, queue: seq<int>, items: seq<Item>)
    requires Inv(l, log, queue, items) && items == []
    ensures forall q :: InLoad(l, q) ==> !Pending(l, log, q)
  {
  }

  lemma {:induction false} WaitingChoice(l: Load, log: seq<Slice>, queue: seq<int>, items: seq<Item>)
    requires Inv(l, log, queue, items) && items == [] && queue != [] && forall q :: !Fresh(l, log, q)
    ensures ChoiceOk(l, log, queue[0]) && Remaining(l, log, queue[0]) == l.burst[queue[0]]
  {
    NothingDoneBeforeStart(log, queue[0]);
    NothingPending(l, log, queue, items);
    assert queue[0] in queue;
    forall q | InLoad(l, q) && !Started(log, q) && q != queue[0] ensures Earlier(l, queue[0], q) {
      assert q in queue;
      var j :| 0 <= j < |queue| && queue[j] == q;
    }
  }

  lemma {:induction false} WithoutOne(l: Load, queue: seq<int>, k: nat)
    requires ValidLoad(l) && SortedByArrival(l, queue) && k < |queue|
    ensures SortedByArrival(l, queue[..k] + queue[k + 1..])
    ensures forall q :: q in queue[..k] + queue[k + 1..] <==> q in queue && q != queue[k]
  {
    assert queue == queue[..k] + [queue[k]] + queue[k + 1..];
  }

  lemma {:induction false} TakenFromQueue(l: Load, log: seq<Slice>, queue: seq<int>, items: seq<Item>, k: nat)
    requires Inv(l, log, queue, items) && k < |queue|
    ensures Taken(l, log, queue, items, queue[k], queue[..k] + queue[k + 1..], items)
    ensures !Started(log, queue[k])
  {
    WithoutOne(l, queue, k);
    assert queue[k] in queue;
    forall x | x in items ensures x.proc != queue[k] {
      PendingIsStarted(l, log, x.proc);
    }
  }

  lemma {:induction false} TakenFromItems(l: Load, log: seq<Slice>, queue: seq<int>, items: seq<Item>)
    requires Inv(l, log, queue, items) && items != []
    ensures Taken(l, log, queue, items, items[0].proc, queue, items[1..])
    ensures Started(log, items[0].proc)
  {
    assert items == [items[0]] + items[1..];
    assert items[0] in items;
    PendingIsStarted(l, log, items[0].proc);
    forall x | x in items[1..] ensures x.proc != items[0].proc {
      var j :| 1 <= j < |items| && items[j] == x;
    }
  }

  /** The next process, out of the queue that holds it. */
  method Select(l: Load, ghost log: seq<Slice>, queue: seq<int>, items: seq<Item>, time: int)
    returns (p: int, burst: int, queue': seq<int>, items': seq<Item>)
    requires Inv(l, log, queue, items) && time == Clock(log) && (queue != [] || items != [])
    ensures Taken(l, log, queue, items, p, queue', items') && ChoiceOk(l, log, p)
    ensures burst == Remaining(l, log, p)
    ensures (|queue'| == |queue| - 1 && items' == items && !Started(log, p))
         || (queue' == queue && |items'| == |items| - 1 && Started(log, p) && forall q :: !Fresh(l, log, q))
  {
    var it := FindMin(l, queue, time, INT_MAX);
    if it == |queue| {
      NoFresh(l, log, queue, items);
    }
    if it == |queue| && items != [] {
      PendingChoice(l, log, queue, items);
      TakenFromItems(l, log, queue, items);
      p, burst := items[0].proc, items[0].remain;
      queue', items' := queue, items[1..];
    } else {
      var selected := if it == |queue| then 0 else it;
      if it < |queue| {
        NewChoice(l, log, queue, items, it);
      } else {
        WaitingChoice(l, log, queue, items);
      }
      TakenFromQueue(l, log, queue, items, selected);
      p := queue[selected];
      burst := l.burst[p];
      queue', items' := queue[..selected] + queue[selected + 1..], items;
    }
  }

  // ---------------------------------------------------------------------------------------------
  // Running it

  lemma {:induction false} InterruptsAreQueued(l: Load, log: seq<Slice>, queue: seq<int>, items: seq<Item>, p: int,
          queue': seq<int>, items': seq<Item>, start: int, q: int)
    requires Inv(l, log, queue, items) && Taken(l, log, queue, items, p, queue', items')
    ensures Interrupts(l, log, p, start, q) <==>
      q in queue' && l.arrival[q] <= start + Remaining(l, log, p) && l.burst[q] < Remaining(l, log, p)
  {
  }

  /** A process that interrupts arrives after the start. */
  lemma {:induction false} InterruptIsLater(l: Load, log: seq<Slice>, p: int, start: int, q: int)
    requires ValidLoad(l) && LogOk(l, log) && InLoad(l, p) && ChoiceOk(l, log, p)
    requires start == if Clock(log) >= l.arrival[p] then Clock(log) else l.arrival[p]
    requires Interrupts(l, log, p, start, q)
    ensures start <= l.arrival[q]
  {
    if Started(log, p) {
      StartedHasArrived(l, log, p);
    } else {
      NothingDoneBeforeStart(log, p);
    }
    if Pending(l, log, p) {
      PendingIsStarted(l, log, p);
    }
    assert Fresh(l, log, q) <==> l.arrival[q] <= Clock(log);
  }

  lemma {:induction false} FullSlice(l: Load, log: seq<Slice>, queue: seq<int>, items: seq<Item>, p: int,
          queue': seq<int>, items': seq<Item>, s: Slice)
    requires Inv(l, log, queue, items) && Taken(l, log, queue, items, p, queue', items') && ChoiceOk(l, log, p)
    requires s.proc == p && s.start == if Clock(log) >= l.arrival[p] then Clock(log) else l.arrival[p]
    requires s.end == s.start + Remaining(l, log, p)
    requires forall j :: 0 <= j < |queue'| && l.arrival[queue'[j]] <= s.end ==>
               l.burst[queue'[j]] >= Remaining(l, log, p)
    ensures SliceOk(l, log, s) && forall q :: !Interrupts(l, log, p, s.start, q)
  {
    DoneIsBounded(l, log, p);
    forall q ensures !Interrupts(l, log, p, s.start, q) {
      InterruptsAreQueued(l, log, queue, items, p, queue', items', s.start, q);
      if q in queue' {
        var j :| 0 <= j < |queue'| && queue'[j] == q;
      }
    }
  }

  lemma {:induction false} CutSlice(l: Load, log: seq<Slice>, queue: seq<int>, items: seq<Item>, p: int,
          queue': seq<int>, items': seq<Item>, s: Slice, k: nat)
    requires Inv(l, log, queue, items) && Taken(l, log, queue, items, p, queue', items') && ChoiceOk(l, log, p)
    requires s.proc == p && s.start == if Clock(log) >= l.arrival[p] then Clock(log) else l.arrival[p]
    requires k < |queue'| && s.end == l.arrival[queue'[k]] <= s.start + Remaining(l, log, p)
    requires l.burst[queue'[k]] < Remaining(l, log, p)
    requires forall j :: 0 <= j < |queue'| && j != k && l.arrival[queue'[j]] <= s.start + Remaining(l, log, p) ==>
               Shorter(l, queue'[k], queue'[j])
    ensures SliceOk(l, log, s) && Interrupts(l, log, p, s.start, queue'[k])
  {
    var next := queue'[k];
    assert next in queue';
    InterruptsAreQueued(l, log, queue, items, p, queue', items', s.start, next);
    InterruptIsLater(l, log, p, s.start, next);
    forall q | Interrupts(l, log, p, s.start, q) && q != next ensures Shorter(l, next, q) {
      InterruptsAreQueued(l, log, queue, items, p, queue', items', s.start, q);
      var j :| 0 <= j < |queue'| && queue'[j] == q;
    }
  }

  /** The queue of preempted processes after a slice. */
  function ItemsAfter(kept: seq<Item>, p: int, remain: int, cut: bool): seq<Item> {
    if cut then InsertItem(kept, Item(remain, p)) else kept
  }

  lemma {:induction false} SliceKeepsOrder(log: seq<Slice>, kept: seq<Item>, s: Slice, remain: int, cut: bool)
    requires SortedByRemain(log, kept) && forall x :: x in kept ==> x.proc != s.proc
    ensures SortedByRemain(log + [s], ItemsAfter(kept, s.proc, remain, cut))
  {
    forall p ensures LastRun(log + [s], p) == if s.proc == p then |log| else LastRun(log, p) {
      LastRunStep(log, s, p);
    }
    assert forall i :: 0 <= i < |kept| ==> kept[i] in kept;
    assert SortedByRemain(log + [s], kept);
    if cut {
      InsertKeepsOrder(log + [s], kept, Item(remain, s.proc));
    }
  }

  /** After the slice the queues again hold exactly the processes that have not run and the pending ones. */
  lemma {:induction false} SliceKeepsInv(l: Load, log: seq<Slice>, queue: seq<int>, items: seq<Item>, p: int,
          queue': seq<int>, items': seq<Item>, s: Slice, cut: bool)
    requires Inv(l, log, queue, items) && Taken(l, log, queue, items, p, queue', items')
    requires s.proc == p && SliceOk(l, log, s)
    requires cut <==> exists q :: Interrupts(l, log, p, s.start, q)
    ensures Inv(l, log + [s], queue', ItemsAfter(items', p, Remaining(l, log, p) - (s.end - s.start), cut))
  {
    var log' := log + [s];
    var remain := Remaining(l, log, p) - (s.end - s.start);
    var items'' := ItemsAfter(items', p, remain, cut);
    assert log'[..|log|] == log;
    SliceKeepsOrder(log, items', s, remain, cut);
    forall q ensures q in queue' <==> InLoad(l, q) && !Started(log', q) {
      StartedStep(log, s, q);
      assert p in queue <==> !Started(log, p);
    }
    forall x | x in items''
      ensures InLoad(l, x.proc) && Pending(l, log', x.proc) && x.remain == Remaining(l, log', x.proc)
    {
      assert x == Item(remain, p) || x in items;
      PendingStep(l, log, s, x.proc);
      DoneStep(log, s, x.proc);
    }
    forall q | InLoad(l, q) && Pending(l, log', q) ensures Item(Remaining(l, log', q), q) in items'' {
      PendingStep(l, log, s, q);
      DoneStep(log, s, q);
    }
  }

  /** A round in which a process arrives that needs less than the selected one still does. */
  lemma {:induction false} CutRound(l: Load, log: seq<Slice>, queue: seq<int>, items: seq<Item>, p: int,
          rest: seq<int>, kept: seq<Item>, s: Slice, k: nat)
    requires Inv(l, log, queue, items) && Taken(l, log, queue, items, p, rest, kept) && ChoiceOk(l, log, p)
    requires s.proc == p && s.start == if Clock(log) >= l.arrival[p] then Clock(log) else l.arrival[p]
    requires k < |rest| && s.end == l.arrival[rest[k]] <= s.start + Remaining(l, log, p)
    requires l.burst[rest[k]] < Remaining(l, log, p)
    requires forall j :: 0 <= j < |rest| && j != k && l.arrival[rest[j]] <= s.start + Remaining(l, log, p) ==>
               Shorter(l, rest[k], rest[j])
    ensures var remain := Remaining(l, log, p) - (s.end - s.start);
            Inv(l, log + [s], rest, InsertItem(kept, Item(remain, p)))
    ensures Fresh(l, log + [s], rest[k])
  {
    CutSlice(l, log, queue, items, p, rest, kept, s, k);
    SliceKeepsInv(l, log, queue, items, p, rest, kept, s, true);
    assert rest[k] in rest;
    StartedStep(log, s, rest[k]);
  }

  /** A round in which none does. */
  lemma {:induction false} FullRound(l: Load, log: seq<Slice>, queue: seq<int>, items: seq<Item>, p: int,
          rest: seq<int>, kept: seq<Item>, s: Slice)
    requires Inv(l, log, queue, items) && Taken(l, log, queue, items, p, rest, kept) && ChoiceOk(l, log, p)
    requires s.proc == p && s.start == if Clock(log) >= l.arrival[p] then Clock(log) else l.arrival[p]
    requires s.end == s.start + Remaining(l, log, p)
    requires forall j :: 0 <= j < |rest| && l.arrival[rest[j]] <= s.end ==> l.burst[rest[j]] >= Remaining(l, log, p)
    ensures Inv(l, log + [s], rest, kept)
  {
    FullSlice(l, log, queue, items, p, rest, kept, s);
    SliceKeepsInv(l, log, queue, items, p, rest, kept, s, false);
  }

  /** The slice of the selected process: to its end, or cut where a shorter process arrives. */
  method RunSlice(l: Load, ghost log: seq<Slice>, ghost queue: seq<int>, ghost items: seq<Item>, selected: int,
                  burst: int, rest: seq<int>, kept: seq<Item>, time: int)
    returns (s: Slice, items': seq<Item>)
    requires Inv(l, log, queue, items) && Taken(l, log, queue, items, selected, rest, kept)
    requires ChoiceOk(l, log, selected) && burst == Remaining(l, log, selected)
    requires time == if Clock(log) >= l.arrival[selected] then Clock(log) else l.arrival[selected]
    ensures Inv(l, log + [s], rest, items') && InLoad(l, s.proc)
    ensures items' == kept || (|items'| == |kept| + 1 && exists q :: Fresh(l, log + [s], q))
  {
    var requested := time + burst;
    var itNext := FindMin(l, rest, requested, burst);
    if itNext != |rest| {
      var next := rest[itNext];
      var remain := requested - l.arrival[next];
      var cpuBurstReal := burst - remain;
      s := Slice(selected, time, time + cpuBurstReal);
      CutRound(l, log, queue, items, selected, rest, kept, s, itNext);
      items' := InsertItem(kept, Item(remain, selected));
    } else {
      s := Slice(selected, time, time + burst);
      FullRound(l, log, queue, items, selected, rest, kept, s);
      items' := kept;
    }
  }

  /** One round of the main loop. */
  method Round(l: Load, ghost log: seq<Slice>, queue: seq<int>, items: seq<Item>, time0: int)
    returns (s: Slice, queue': seq<int>, items': seq<Item>)
    requires Inv(l, log, queue, items) && time0 == Clock(log) && (queue != [] || items != [])
    ensures Inv(l, log + [s], queue', items') && InLoad(l, s.proc)
    ensures |queue'| < |queue|
         || (queue' == queue && |items'| < |items|)
         || (&& queue' == queue && |items'| == |items|
             && (forall q :: !Fresh(l, log, q)) && exists q :: Fresh(l, log + [s], q))
  {
    var selected, burst, rest, kept := Select(l, log, queue, items, time0);
    var time := if time0 >= l.arrival[selected] then time0 else l.arrival[selected];
    queue' := rest;
    s, items' := RunSlice(l, log, queue, items, selected, burst, rest, kept, time);
  }

  datatype TimeInfo = TimeInfo(start: int, end: int)

  /** The slices of one process, in order. */
  function SlicesOf(log: seq<Slice>, p: int): seq<TimeInfo> {
    if log == [] then []
    else
      var s := log[|log| - 1];
      SlicesOf(log[..|log| - 1], p) + if s.proc == p then [TimeInfo(s.start, s.end)] else []
  }

  lemma {:induction false} SlicesOfStep(log: seq<Slice>, s: Slice, p: int)
    ensures SlicesOf(log + [s], p) == SlicesOf(log, p) + if s.proc == p then [TimeInfo(s.start, s.end)] else []
  {
    assert (log + [s])[..|log|] == log;
  }

  method BuildQueue(l: Load) returns (queue: seq<int>)
    requires ValidLoad(l)
    ensures SortedByArrival(l, queue) && forall p :: p in queue <==> InLoad(l, p)
  {
    queue := [];
    for i := 0 to |l.arrival|
      invariant SortedByArrival(l, queue) && forall p :: p in queue <==> 0 <= p < i
    {
      queue := InsertProc(l, queue, i);
    }
  }

  ghost function FreshFlag(l: Load, log: seq<Slice>): nat
    requires ValidLoad(l)
  {
    if exists q :: Fresh(l, log, q) then 0 else 1
  }

  /**
   * The scheduler: it ends, its log obeys the rules, which allow no other (LogIsFixed), and every process gets exactly
   * its burst.
   */
  method SRTF(l: Load) returns (scheduling: array<seq<TimeInfo>>, ghost log: seq<Slice>)
    requires ValidLoad(l)
    ensures LogOk(l, log) && Ended(l, log) && Complete(l, log)
    ensures scheduling.Length == |l.arrival|
    ensures forall p :: 0 <= p < |l.arrival| ==> scheduling[p] == SlicesOf(log, p)
  {
    scheduling := new seq<TimeInfo>[|l.arrival|](_ => []);
    log := [];
    var queue := BuildQueue(l);
    var items: seq<Item> := [];
    var time := 0;
    while queue != [] || items != []
      invariant fresh(scheduling)
      invariant Inv(l, log, queue, items) && time == Clock(log)
      invariant forall p :: 0 <= p < |l.arrival| ==> scheduling[p] == SlicesOf(log, p)
      decreases |queue|, |items|, FreshFlag(l, log)
    {
      var s;
      s, queue, items := Round(l, log, queue, items, time);
      scheduling[s.proc] := scheduling[s.proc] + [TimeInfo(s.start, s.end)];
      time := s.end;
      forall p
        ensures SlicesOf(log + [s], p) == SlicesOf(log, p) + if s.proc == p then [TimeInfo(s.start, s.end)] else []
      {
        SlicesOfStep(log, s, p);
      }
      log := log + [s];
    }
    EmptyQueuesAreEnded(l, log);
  }

  lemma {:induction false} EmptyQueuesAreEnded(l: Load, log: seq<Slice>)
    requires Inv(l, log, [], [])
    ensures Ended(l, log) && Complete(l, log)
  {
    NothingPending(l, log, [], []);
    forall p | InLoad(l, p) ensures Started(log, p) {
      assert p !in [];
    }
    EndedIsComplete(l, log);
  }
}
