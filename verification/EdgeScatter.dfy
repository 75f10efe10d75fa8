/**
 * The second binning pass (primitives/Operator++.i.cuh, lines 357-363 and 409-413) as a transition system.
 * A thread claims a slot with one atomic fetch-and-increment and then writes the two endpoints of its edge
 * in two separate stores, so any number of threads can be between their claim and their stores.
 */
module EdgeScatter {
  import opened EdgeBinning
  import opened EdgeList
  import opened EngineConstants
  import Partition
  import Permutation

  datatype Phase = Idle | Claimed(slot: nat) | SrcWritten(slot: nat) | Done(slot: nat)

  /** Cursor per bin, the queue of endpoints, and where every thread stands. */
  datatype State = State(cursor: seq<nat>, queue: seq<int>, threads: seq<Phase>)

  /** What a run works on: the edges, their bins, and the start positions of the bins. */
  datatype Input = Input(edges: seq<Edge>, bins: seq<nat>, base: seq<nat>)

  predicate ValidInput(n: Input) {
    |n.edges| == |n.bins| && ValidBins(n.bins) && IsBase(n.base, n.bins)
  }

  /** The threads of bin b that have claimed their slot. */
  function Started(n: Input, threads: seq<Phase>, b: nat): set<nat>
    requires |threads| == |n.bins|
  {
    set t: nat | t < |n.bins| && n.bins[t] == b && threads[t] != Idle
  }

  predicate SlotInBin(n: Input, s: State, t: nat)
    requires ValidInput(n) && |s.cursor| == MAX_BINS + 1 && t < |s.threads| == |n.bins|
  {
    s.threads[t] != Idle ==> n.base[n.bins[t]] <= s.threads[t].slot < s.cursor[n.bins[t]]
  }

  predicate StoresSeen(n: Input, s: State, t: nat)
    requires ValidInput(n) && t < |s.threads| == |n.bins|
  {
    match s.threads[t]
    case Idle => true
    case Claimed(_) => true
    case SrcWritten(k) => 2 * k < |s.queue| && s.queue[2 * k] == n.edges[t].src
    case Done(k) => 2 * k + 1 < |s.queue| && s.queue[2 * k] == n.edges[t].src && s.queue[2 * k + 1] == n.edges[t].dst
  }

  /** What every step keeps. */
  ghost predicate Inv(n: Input, s: State) {
    && ValidInput(n)
    && |s.cursor| == MAX_BINS + 1 && |s.queue| == 2 * |n.edges| && |s.threads| == |n.bins|
    && (forall b: nat :: b < MAX_BINS ==> s.cursor[b] == n.base[b] + |Started(n, s.threads, b)|)
    && (forall t: nat :: t < |n.bins| ==> SlotInBin(n, s, t))
    && (forall t: nat :: t < |n.bins| ==> StoresSeen(n, s, t))
    && (forall t, t' :: 0 <= t < t' < |n.bins| && s.threads[t] != Idle && s.threads[t'] != Idle ==>
          s.threads[t].slot != s.threads[t'].slot)
  }

  /** A cursor never passes the end of its own bin. */
  lemma {:induction false} CursorStaysInBin(n: Input, s: State, b: nat)
    requires Inv(n, s) && b < MAX_BINS
    ensures s.cursor[b] <= n.base[b + 1] <= |n.edges|
  {
    Partition.SubsetSize(Started(n, s.threads, b), InBin(n.bins, b));
    BaseIsMonotone(n.base, n.bins, b + 1, MAX_BINS);
    BaseEnds(n.base, n.bins);
  }

  /** A thread that has yet to claim finds a free slot in its bin. */
  lemma {:induction false} RoomForOneMore(n: Input, s: State, t: nat)
    requires Inv(n, s) && t < |n.bins| && s.threads[t] == Idle
    ensures s.cursor[n.bins[t]] < n.base[n.bins[t] + 1] <= |n.edges|
  {
    var b := n.bins[t];
    assert t in InBin(n.bins, b) && t !in Started(n, s.threads, b);
    Partition.SubsetSize(Started(n, s.threads, b), InBin(n.bins, b));
    CursorStaysInBin(n, s, b);
  }

  /** The slot of a thread lies inside the queue. */
  lemma {:induction false} SlotIsInQueue(n: Input, s: State, t: nat)
    requires Inv(n, s) && t < |n.bins| && s.threads[t] != Idle
    ensures s.threads[t].slot < |n.edges|
  {
    assert SlotInBin(n, s, t);
    CursorStaysInBin(n, s, n.bins[t]);
  }

  /** One step of thread t. */
  ghost function Next(n: Input, s: State, t: nat): State
    requires Inv(n, s) && t < |n.bins|
  {
    match s.threads[t]
    case Idle =>
      var b := n.bins[t];
      s.(cursor := s.cursor[b := s.cursor[b] + 1], threads := s.threads[t := Claimed(s.cursor[b])])
    case Claimed(k) =>
      SlotIsInQueue(n, s, t);
      s.(queue := s.queue[2 * k := n.edges[t].src], threads := s.threads[t := SrcWritten(k)])
    case SrcWritten(k) =>
      SlotIsInQueue(n, s, t);
      s.(queue := s.queue[2 * k + 1 := n.edges[t].dst], threads := s.threads[t := Done(k)])
    case Done(_) => s
  }

  lemma {:induction false} ClaimKeepsInv(n: Input, s: State, t: nat)
    requires Inv(n, s) && t < |n.bins| && s.threads[t] == Idle
    ensures Inv(n, Next(n, s, t))
  {
    var s' := Next(n, s, t);
    forall c: nat | c < MAX_BINS ensures s'.cursor[c] == n.base[c] + |Started(n, s'.threads, c)| {
      ClaimMovesCursor(n, s, t, c);
    }
    forall u: nat | u < |n.bins| ensures SlotInBin(n, s', u) && StoresSeen(n, s', u) {
      ClaimKeepsThread(n, s, t, u);
    }
    forall u | 0 <= u < |n.bins| && u != t && s.threads[u] != Idle
      ensures s'.threads[u].slot != s'.threads[t].slot
    {
      ClaimIsNew(n, s, t, u);
    }
  }

  lemma {:induction false} ClaimStarts(n: Input, threads: seq<Phase>, t: nat, slot: nat, c: nat)
    requires |threads| == |n.bins| && t < |n.bins| && threads[t] == Idle
    ensures |Started(n, threads[t := Claimed(slot)], c)|
         == |Started(n, threads, c)| + if n.bins[t] == c then 1 else 0
  {
    var before, after := Started(n, threads, c), Started(n, threads[t := Claimed(slot)], c);
    if n.bins[t] == c {
      assert after == before + {t};
    } else {
      assert after == before;
    }
  }

  lemma {:induction false} ClaimMovesCursor(n: Input, s: State, t: nat, c: nat)
    requires Inv(n, s) && t < |n.bins| && s.threads[t] == Idle && c < MAX_BINS
    ensures Next(n, s, t).cursor[c] == n.base[c] + |Started(n, Next(n, s, t).threads, c)|
  {
    ClaimStarts(n, s.threads, t, s.cursor[n.bins[t]], c);
  }

  lemma {:induction false} ClaimKeepsThread(n: Input, s: State, t: nat, u: nat)
    requires Inv(n, s) && t < |n.bins| && s.threads[t] == Idle && u < |n.bins|
    ensures SlotInBin(n, Next(n, s, t), u) && StoresSeen(n, Next(n, s, t), u)
  {
    assert SlotInBin(n, s, u) && StoresSeen(n, s, u);
  }

  /** The claimed slot differs from every other thread's: same bin, below the cursor; other bin, elsewhere. */
  lemma {:induction false} ClaimIsNew(n: Input, s: State, t: nat, u: nat)
    requires Inv(n, s) && t < |n.bins| && u < |n.bins| && s.threads[t] == Idle && s.threads[u] != Idle
    ensures s.threads[u].slot != s.cursor[n.bins[t]]
  {
    var b, c := n.bins[t], n.bins[u];
    RoomForOneMore(n, s, t);
    CursorStaysInBin(n, s, c);
    assert SlotInBin(n, s, u);
    if c < b {
      BaseIsMonotone(n.base, n.bins, c + 1, b);
    } else if b < c {
      BaseIsMonotone(n.base, n.bins, b + 1, c);
    }
  }

  lemma {:induction false} StoreKeepsInv(n: Input, s: State, t: nat)
    requires Inv(n, s) && t < |n.bins| && (s.threads[t].Claimed? || s.threads[t].SrcWritten?)
    ensures Inv(n, Next(n, s, t))
  {
    var s' := Next(n, s, t);
    SlotIsInQueue(n, s, t);
    forall c: nat | c < MAX_BINS ensures s'.cursor[c] == n.base[c] + |Started(n, s'.threads, c)| {
      assert Started(n, s'.threads, c) == Started(n, s.threads, c);
    }
    forall u: nat | u < |n.bins| ensures SlotInBin(n, s', u) && StoresSeen(n, s', u) {
      assert SlotInBin(n, s, u) && StoresSeen(n, s, u);
      assert u != t && s.threads[u] != Idle ==> s.threads[u].slot != s.threads[t].slot;
    }
  }

  lemma {:induction false} StepKeepsInv(n: Input, s: State, t: nat)
    requires Inv(n, s) && t < |n.bins|
    ensures Inv(n, Next(n, s, t))
  {
    match s.threads[t]
    case Idle => ClaimKeepsInv(n, s, t);
    case Claimed(_) => StoreKeepsInv(n, s, t);
    case SrcWritten(_) => StoreKeepsInv(n, s, t);
    case Done(_) =>
  }

  ghost predicate Initial(n: Input, s: State) {
    && ValidInput(n)
    && s.cursor == n.base && |s.queue| == 2 * |n.edges|
    && |s.threads| == |n.bins| && forall t :: 0 <= t < |s.threads| ==> s.threads[t] == Idle
  }

  lemma {:induction false} InitialKeepsInv(n: Input, s: State)
    requires Initial(n, s)
    ensures Inv(n, s)
  {
    forall b: nat | b < MAX_BINS ensures Started(n, s.threads, b) == {} {
    }
  }

  /** The state after the threads have moved in the order of the schedule. */
  ghost function Run(n: Input, s: State, schedule: seq<nat>): (r: State)
    requires Initial(n, s) && forall k :: 0 <= k < |schedule| ==> schedule[k] < |n.bins|
    ensures Inv(n, r)
  {
    if schedule == [] then
      InitialKeepsInv(n, s);
      s
    else
      var last := |schedule| - 1;
      var before := Run(n, s, schedule[..last]);
      StepKeepsInv(n, before, schedule[last]);
      Next(n, before, schedule[last])
  }

  // ---------------------------------------------------------------------------------------------
  // The steps on the arrays

  ghost predicate Holds(s: State, cursor: array<nat>, queue: array<int>, threads: array<Phase>)
    reads cursor, queue, threads
  {
    s == State(cursor[..], queue[..], threads[..])
  }

  /** One step of thread t. */
  method StepThread(edges: seq<Edge>, bins: seq<nat>, cursor: array<nat>, queue: array<int>, threads: array<Phase>,
                    t: nat, ghost n: Input, ghost s: State)
    requires n.edges == edges && n.bins == bins && Inv(n, s) && t < |bins| && Holds(s, cursor, queue, threads)
    modifies cursor, queue, threads
    ensures Holds(Next(n, s, t), cursor, queue, threads)
  {
    match threads[t]
    case Idle =>
      var id := cursor[bins[t]];
      cursor[bins[t]] := id + 1;
      threads[t] := Claimed(id);
    case Claimed(id) =>
      SlotIsInQueue(n, s, t);
      queue[id * 2] := edges[t].src;
      threads[t] := SrcWritten(id);
    case SrcWritten(id) =>
      SlotIsInQueue(n, s, t);
      queue[id * 2 + 1] := edges[t].dst;
      threads[t] := Done(id);
    case Done(_) =>
  }

  lemma {:induction false} RunGoesOn(n: Input, s: State, schedule: seq<nat>, k: nat)
    requires Initial(n, s) && (forall i :: 0 <= i < |schedule| ==> schedule[i] < |n.bins|) && k < |schedule|
    ensures Run(n, s, schedule[..k + 1]) == Next(n, Run(n, s, schedule[..k]), schedule[k])
  {
    assert schedule[..k + 1][..k] == schedule[..k];
  }

  /** The whole pass, with the threads moving in the order of the schedule. */
  method ScatterEdges(edges: seq<Edge>, bins: seq<nat>, cursor: array<nat>, schedule: seq<nat>)
    returns (queue: array<int>, ghost s0: State)
    requires |edges| == |bins| && ValidBins(bins) && IsBase(cursor[..], bins)
    requires forall k :: 0 <= k < |schedule| ==> schedule[k] < |bins|
    modifies cursor
    ensures fresh(queue) && Initial(Input(edges, bins, old(cursor[..])), s0)
    ensures queue[..] == Run(Input(edges, bins, old(cursor[..])), s0, schedule).queue
  {
    ghost var n := Input(edges, bins, cursor[..]);
    queue := new int[2 * |edges|](_ => 0);
    var threads := new Phase[|bins|](_ => Idle);
    s0 := State(cursor[..], queue[..], threads[..]);
    for k := 0 to |schedule|
      invariant fresh(queue) && fresh(threads)
      invariant Holds(Run(n, s0, schedule[..k]), cursor, queue, threads)
    {
      RunGoesOn(n, s0, schedule, k);
      StepThread(edges, bins, cursor, queue, threads, schedule[k], n, Run(n, s0, schedule[..k]));
    }
    assert schedule[..|schedule|] == schedule;
  }

  // ---------------------------------------------------------------------------------------------
  // The finished queue

  ghost predicate Finished(s: State) {
    forall t :: 0 <= t < |s.threads| ==> s.threads[t].Done?
  }

  function StepsTaken(p: Phase): nat {
    match p
    case Idle => 0
    case Claimed(_) => 1
    case SrcWritten(_) => 2
    case Done(_) => 3
  }

  lemma {:induction false} StepMovesThread(n: Input, s: State, t: nat, u: nat)
    requires Inv(n, s) && t < |n.bins| && u < |n.bins|
    ensures var k := StepsTaken(s.threads[u]);
      StepsTaken(Next(n, s, t).threads[u]) == if t == u && k < 3 then k + 1 else k
  {
  }

  function AtMostThree(k: nat): nat {
    if k < 3 then k else 3
  }

  lemma {:induction false} ScheduleMovesThread(n: Input, s: State, schedule: seq<nat>, t: nat)
    requires Initial(n, s) && t < |n.bins| && forall k :: 0 <= k < |schedule| ==> schedule[k] < |n.bins|
    ensures StepsTaken(Run(n, s, schedule).threads[t]) == AtMostThree(multiset(schedule)[t])
  {
    if schedule != [] {
      var front, last := schedule[..|schedule| - 1], schedule[|schedule| - 1];
      ScheduleMovesThread(n, s, front, t);
      StepMovesThread(n, Run(n, s, front), last, t);
      assert multiset(schedule) == multiset(front) + multiset{last} by {
        assert schedule == front + [last];
      }
    }
  }

  /** A run is finished exactly when every thread has been scheduled for its three steps. */
  lemma {:induction false} FinishedWhenScheduled(n: Input, s: State, schedule: seq<nat>)
    requires Initial(n, s) && forall k :: 0 <= k < |schedule| ==> schedule[k] < |n.bins|
    ensures Finished(Run(n, s, schedule)) <==> forall t: nat :: t < |n.bins| ==> multiset(schedule)[t] >= 3
  {
    var r := Run(n, s, schedule);
    forall t: nat | t < |n.bins| ensures r.threads[t].Done? <==> multiset(schedule)[t] >= 3 {
      ScheduleMovesThread(n, s, schedule, t);
    }
  }

  /** The queue read as edges, two entries each. */
  function QueuedEdges(queue: seq<int>, n: nat): seq<Edge>
    requires |queue| == 2 * n
  {
    seq(n, i requires 0 <= i < n => Edge(queue[2 * i], queue[2 * i + 1]))
  }

  ghost function Slots(n: Input, s: State): seq<nat>
    requires Inv(n, s) && Finished(s)
  {
    seq(|n.bins|, t requires 0 <= t < |n.bins| => s.threads[t].slot)
  }

  lemma {:induction false} SlotsAreAnInjection(n: Input, s: State)
    requires Inv(n, s) && Finished(s)
    ensures Permutation.Distinct(Slots(n, s))
    ensures forall t :: 0 <= t < |n.bins| ==> Slots(n, s)[t] < |n.edges|
    ensures forall t :: 0 <= t < |n.bins| ==> QueuedEdges(s.queue, |n.edges|)[Slots(n, s)[t]] == n.edges[t]
  {
    forall t: nat | t < |n.bins|
      ensures Slots(n, s)[t] < |n.edges| && QueuedEdges(s.queue, |n.edges|)[Slots(n, s)[t]] == n.edges[t]
    {
      SlotIsInQueue(n, s, t);
      assert StoresSeen(n, s, t);
    }
  }

  /** Whatever the interleaving, the finished queue holds the edges, each exactly once ... */
  lemma {:induction false} QueueIsPermutation(n: Input, s: State, schedule: seq<nat>)
    requires Initial(n, s) && forall k :: 0 <= k < |schedule| ==> schedule[k] < |n.bins|
    requires Finished(Run(n, s, schedule))
    ensures multiset(QueuedEdges(Run(n, s, schedule).queue, |n.edges|)) == multiset(n.edges)
  {
    var r := Run(n, s, schedule);
    SlotsAreAnInjection(n, r);
    Permutation.Rearranged(n.edges, QueuedEdges(r.queue, |n.edges|), Slots(n, r));
  }

  lemma {:induction false} SlotTellsBin(n: Input, s: State, t: nat, b: nat)
    requires Inv(n, s) && t < |n.bins| && s.threads[t] != Idle && b < MAX_BINS
    requires n.base[b] <= s.threads[t].slot < n.base[b + 1]
    ensures n.bins[t] == b
  {
    assert SlotInBin(n, s, t);
    var c := n.bins[t];
    CursorStaysInBin(n, s, c);
    if c < b {
      BaseIsMonotone(n.base, n.bins, c + 1, b);
    } else if b < c {
      BaseIsMonotone(n.base, n.bins, b + 1, c);
    }
  }

  lemma {:induction false} SlotIsTaken(n: Input, s: State, i: nat) returns (t: nat)
    requires Inv(n, s) && Finished(s) && i < |n.edges|
    ensures t < |n.bins| && s.threads[t].slot == i && QueuedEdges(s.queue, |n.edges|)[i] == n.edges[t]
  {
    SlotsAreAnInjection(n, s);
    Permutation.InjectionIsOnto(Slots(n, s), i);
    t :| 0 <= t < |Slots(n, s)| && Slots(n, s)[t] == i;
  }

  /** ... and the positions of bin b hold edges of bin b. */
  lemma {:induction false} QueueIsGrouped(n: Input, s: State, schedule: seq<nat>, b: nat, i: nat) returns (t: nat)
    requires Initial(n, s) && forall k :: 0 <= k < |schedule| ==> schedule[k] < |n.bins|
    requires Finished(Run(n, s, schedule))
    requires b < MAX_BINS && n.base[b] <= i < n.base[b + 1]
    ensures i < |n.edges| && t < |n.edges| && n.bins[t] == b
    ensures QueuedEdges(Run(n, s, schedule).queue, |n.edges|)[i] == n.edges[t]
  {
    var r := Run(n, s, schedule);
    CursorStaysInBin(n, r, b);
    t := SlotIsTaken(n, r, i);
    SlotTellsBin(n, r, t, b);
  }

  /** The other way round: every edge stands in the queue at a position of its own bin. */
  lemma {:induction false} EdgeIsInItsBin(n: Input, s: State, schedule: seq<nat>, t: nat) returns (i: nat)
    requires Initial(n, s) && forall k :: 0 <= k < |schedule| ==> schedule[k] < |n.bins|
    requires Finished(Run(n, s, schedule)) && t < |n.edges|
    ensures n.base[n.bins[t]] <= i < n.base[n.bins[t] + 1] <= |n.edges|
    ensures QueuedEdges(Run(n, s, schedule).queue, |n.edges|)[i] == n.edges[t]
  {
    var r := Run(n, s, schedule);
    assert SlotInBin(n, r, t);
    CursorStaysInBin(n, r, n.bins[t]);
    SlotsAreAnInjection(n, r);
    i := Slots(n, r)[t];
  }
}
