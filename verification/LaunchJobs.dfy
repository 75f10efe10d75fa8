/**
 * The strided loops of the two intersection kernels (primitives/Operator++.i.cuh, lines 102-111 and
 * 205-211): which thread of a grid runs which lane of which queue position.
 */
module LaunchJobs {
  import opened LaunchPlan
  import Arith
  import Permutation

  /** One lane of one queue position, run by the kernel of launch `l`. */
  datatype Job = Job(pos: nat, lane: nat, lanes: nat, kernel: Kernel)

  /** How often a loop from `first` in steps of `step` runs below `end`. */
  function Rounds(first: nat, step: nat, end: nat): nat
    requires step > 0
  {
    if first >= end then 0 else (end - first + step - 1) / step
  }

  lemma {:induction false} RoundsBound(first: nat, step: nat, end: nat, k: nat)
    requires step > 0
    ensures k < Rounds(first, step, end) <==> first + k * step < end
  {
    if first < end {
      var x := end - first + step - 1;
      assert x == (x / step) * step + x % step;
      Arith.MulMonotone(k + 1, x / step, step);
      Arith.MulMonotone(x / step, k, step);
      assert (k + 1) * step == k * step + step;
    }
  }

  /** A strided loop has reached i in round k. */
  predicate InLoop(first: nat, step: nat, end: nat, i: nat, k: nat)
    requires step > 0
  {
    if k == 0 then i == first else i >= step && i - step < end && InLoop(first, step, end, i - step, k - 1)
  }

  lemma {:induction false} InLoopAt(first: nat, step: nat, end: nat, i: nat, k: nat)
    requires step > 0 && InLoop(first, step, end, i, k)
    ensures i == first + k * step && k <= Rounds(first, step, end)
  {
    if k > 0 {
      InLoopAt(first, step, end, i - step, k - 1);
      RoundsBound(first, step, end, k - 1);
    }
  }

  /** When the loop ends, it has run all its rounds. */
  lemma {:induction false} LoopEnds(first: nat, step: nat, end: nat, i: nat, k: nat)
    requires step > 0 && InLoop(first, step, end, i, k) && i >= end
    ensures k == Rounds(first, step, end)
  {
    InLoopAt(first, step, end, i, k);
    RoundsBound(first, step, end, k);
  }

  /** What a thread does in round k of its loop. */
  function JobInRound(l: Launch, groups: nat, id: nat, k: nat): Job
    requires l.lanes > 0
  {
    Job(l.start + id / l.lanes + k * groups, id % l.lanes, l.lanes, l.kernel)
  }

  /** The jobs of one thread, in the order it runs them. */
  function ThreadJobs(l: Launch, groups: nat, id: nat): seq<Job>
    requires l.lanes > 0 && groups > 0
  {
    seq(Rounds(l.start + id / l.lanes, groups, l.end), k requires 0 <= k => JobInRound(l, groups, id, k))
  }

  method RunThread(l: Launch, gridThreads: nat, ghost groups: nat, id: nat) returns (jobs: seq<Job>)
    requires GroupFits(l) && l.lanes > 0
    requires groups > 0 && gridThreads == groups * l.lanes
    ensures jobs == ThreadJobs(l, groups, id)
  {
    Arith.DivIsNatural(id, l.lanes);
    LaneIsIdModGroup(l, id);
    Arith.DivModUnique(gridThreads, l.lanes, groups, 0);
    var queueStride := gridThreads / l.lanes;
    var queueId := id / l.lanes;
    var lane := KernelLane(l.kernel, l.lanes, id);
    jobs := StridedLoop(l, l.start + queueId, queueStride, lane);
    LoopRunsRounds(l, groups, id, jobs);
  }

  lemma {:induction false} LoopRunsRounds(l: Launch, groups: nat, id: nat, jobs: seq<Job>)
    requires l.lanes > 0 && groups > 0
    requires |jobs| == Rounds(l.start + id / l.lanes, groups, l.end)
    requires forall k :: 0 <= k < |jobs| ==>
               jobs[k] == Job(l.start + id / l.lanes + k * groups, id % l.lanes, l.lanes, l.kernel)
    ensures jobs == ThreadJobs(l, groups, id)
  {
  }

  method StridedLoop(l: Launch, first: nat, queueStride: nat, lane: nat) returns (jobs: seq<Job>)
    requires queueStride > 0
    ensures |jobs| == Rounds(first, queueStride, l.end)
    ensures forall k :: 0 <= k < |jobs| ==> jobs[k] == Job(first + k * queueStride, lane, l.lanes, l.kernel)
  {
    var i := first;
    jobs := [];
    RoundsBound(first, queueStride, l.end, 0);
    while i < l.end
      invariant i == first + |jobs| * queueStride
      invariant |jobs| <= Rounds(first, queueStride, l.end)
      invariant forall k :: 0 <= k < |jobs| ==> jobs[k] == Job(first + k * queueStride, lane, l.lanes, l.kernel)
      decreases l.end - i
    {
      RoundsBound(first, queueStride, l.end, |jobs|);
      jobs := jobs + [Job(i, lane, l.lanes, l.kernel)];
      i := i + queueStride;
    }
    RoundsBound(first, queueStride, l.end, |jobs|);
  }

  /** The jobs of the first n threads of the grid. */
  function GridJobs(l: Launch, groups: nat, n: nat): seq<Job>
    requires l.lanes > 0 && groups > 0
  {
    if n == 0 then [] else GridJobs(l, groups, n - 1) + ThreadJobs(l, groups, n - 1)
  }

  /** The same jobs position by position, and lane by lane within a position. */
  function LaneJobs(l: Launch, pos: nat): seq<Job> {
    seq(l.lanes, lane requires 0 <= lane => Job(pos, lane, l.lanes, l.kernel))
  }

  function OrderedJobs(l: Launch, end: nat): seq<Job>
    decreases end
  {
    if end <= l.start then [] else OrderedJobs(l, end - 1) + LaneJobs(l, end - 1)
  }

  predicate IsJobOf(l: Launch, j: Job) {
    l.start <= j.pos < l.end && j.lane < l.lanes && j.lanes == l.lanes && j.kernel == l.kernel
  }

  lemma {:induction false} InOrderedJobs(l: Launch, end: nat, j: Job)
    requires end <= l.end
    ensures j in OrderedJobs(l, end) <==> IsJobOf(l, j) && j.pos < end
  {
    if end > l.start {
      InOrderedJobs(l, end - 1, j);
      if IsJobOf(l, j) && j.pos == end - 1 {
        assert LaneJobs(l, end - 1)[j.lane] == j;
      }
    }
  }

  lemma {:induction false} OrderedJobsDistinct(l: Launch, end: nat)
    requires end <= l.end
    ensures Permutation.Distinct(OrderedJobs(l, end))
  {
    if end > l.start {
      OrderedJobsDistinct(l, end - 1);
      var front, last := OrderedJobs(l, end - 1), LaneJobs(l, end - 1);
      forall j | j in front ensures j !in last {
        InOrderedJobs(l, end - 1, j);
      }
      AppendDistinct(front, last);
    }
  }

  lemma {:induction false} AppendDistinct<T>(a: seq<T>, b: seq<T>)
    requires Permutation.Distinct(a) && Permutation.Distinct(b) && forall x :: x in a ==> x !in b
    ensures Permutation.Distinct(a + b)
  {
    forall i, j | 0 <= i < j < |a + b| ensures (a + b)[i] != (a + b)[j] {
      if i < |a| <= j {
        assert a[i] in a && b[j - |a|] in b;
      }
    }
  }

  /** The thread that runs a job. */
  function OwnerOf(l: Launch, groups: nat, j: Job): (id: nat)
    requires groups > 0 && IsJobOf(l, j)
    ensures id < groups * l.lanes && id / l.lanes == (j.pos - l.start) % groups && id % l.lanes == j.lane
  {
    var q := (j.pos - l.start) % groups;
    Arith.DivModUnique(q * l.lanes + j.lane, l.lanes, q, j.lane);
    Arith.MulMonotone(q + 1, groups, l.lanes);
    q * l.lanes + j.lane
  }

  /** Every job in a thread's loop is a job of the launch, and the thread is its owner. */
  lemma {:induction false} RoundIsOwned(l: Launch, groups: nat, id: nat, k: nat)
    requires l.lanes > 0 && 0 < groups && id < groups * l.lanes
    requires k < |ThreadJobs(l, groups, id)|
    ensures IsJobOf(l, JobInRound(l, groups, id, k))
    ensures OwnerOf(l, groups, JobInRound(l, groups, id, k)) == id
  {
    var j := JobInRound(l, groups, id, k);
    RoundsBound(l.start + id / l.lanes, groups, l.end, k);
    Arith.DivIsBelow(id, l.lanes, groups);
    Arith.DivModUnique(j.pos - l.start, groups, k, id / l.lanes);
    SameDivMod(OwnerOf(l, groups, j), id, l.lanes);
  }

  lemma {:induction false} SameDivMod(x: nat, y: nat, m: nat)
    requires m > 0 && x / m == y / m && x % m == y % m
    ensures x == y
  {
    assert x == (x / m) * m + x % m;
    assert y == (y / m) * m + y % m;
  }

  /** The owner of a job meets it in some round of its loop. */
  lemma {:induction false} OwnerRunsJob(l: Launch, groups: nat, j: Job)
    requires 0 < groups && IsJobOf(l, j)
    ensures j in ThreadJobs(l, groups, OwnerOf(l, groups, j))
  {
    var id := OwnerOf(l, groups, j);
    var k := (j.pos - l.start) / groups;
    assert j.pos - l.start == k * groups + (j.pos - l.start) % groups;
    RoundsBound(l.start + id / l.lanes, groups, l.end, k);
    assert ThreadJobs(l, groups, id)[k] == j;
  }

  lemma {:induction false} InThreadJobs(l: Launch, groups: nat, id: nat, j: Job)
    requires l.lanes > 0 && 0 < groups && id < groups * l.lanes
    ensures j in ThreadJobs(l, groups, id) <==> IsJobOf(l, j) && id == OwnerOf(l, groups, j)
  {
    if j in ThreadJobs(l, groups, id) {
      var k :| 0 <= k < |ThreadJobs(l, groups, id)| && ThreadJobs(l, groups, id)[k] == j;
      RoundIsOwned(l, groups, id, k);
    }
    if IsJobOf(l, j) {
      OwnerRunsJob(l, groups, j);
    }
  }

  lemma {:induction false} InGridJobs(l: Launch, groups: nat, n: nat, j: Job)
    requires l.lanes > 0 && 0 < groups && n <= groups * l.lanes
    ensures j in GridJobs(l, groups, n) <==> IsJobOf(l, j) && OwnerOf(l, groups, j) < n
  {
    if n > 0 {
      InGridJobs(l, groups, n - 1, j);
      InThreadJobs(l, groups, n - 1, j);
    }
  }

  lemma {:induction false} GridJobsDistinct(l: Launch, groups: nat, n: nat)
    requires l.lanes > 0 && 0 < groups && n <= groups * l.lanes
    ensures Permutation.Distinct(GridJobs(l, groups, n))
  {
    if n > 0 {
      GridJobsDistinct(l, groups, n - 1);
      var front, last := GridJobs(l, groups, n - 1), ThreadJobs(l, groups, n - 1);
      forall i, k | 0 <= i < k < |last| ensures last[i] != last[k] {
        Arith.MulMonotone(i + 1, k, groups);
        assert (i + 1) * groups == i * groups + groups;
      }
      forall j | j in front ensures j !in last {
        InGridJobs(l, groups, n - 1, j);
        InThreadJobs(l, groups, n - 1, j);
      }
      AppendDistinct(front, last);
    }
  }

  /** The strided grid runs every lane of every position of its range exactly once, and nothing else. */
  lemma {:induction false} GridRunsEachJobOnce(l: Launch, groups: nat)
    requires l.lanes > 0 && groups > 0 && l.start <= l.end
    ensures multiset(GridJobs(l, groups, groups * l.lanes)) == multiset(OrderedJobs(l, l.end))
  {
    var n := groups * l.lanes;
    GridJobsDistinct(l, groups, n);
    OrderedJobsDistinct(l, l.end);
    var a, b := GridJobs(l, groups, n), OrderedJobs(l, l.end);
    forall j ensures j in Permutation.Elements(a) <==> j in Permutation.Elements(b) {
      InGridJobs(l, groups, n, j);
      InOrderedJobs(l, l.end, j);
    }
    Permutation.SameElements(a, b);
  }
}
