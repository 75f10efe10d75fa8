/**
 * Binning the edges by their work estimate (primitives/Operator++.i.cuh, lines 331-364 and 388-413).
 * One thread per edge: a first pass counts the bins with atomic increments, the host turns the counts into
 * start positions, and a second pass claims a slot with an atomic increment and then writes the two
 * endpoints into the queue.  The threads interleave in any way.
 */
module EdgeBinning {
  import opened EngineConstants
  import Partition
  import Permutation

  // ---------------------------------------------------------------------------------------------
  // The bin of an edge

  /** The number of significant bits, as 32 - clz gives it for a 32-bit value. */
  function BitLength(x: nat): nat {
    if x == 0 then 0 else 1 + BitLength(x / 2)
  }

  function LogOf(len: nat): (l: nat)
    ensures l <= 31
  {
    if BitLength(len) <= 31 then BitLength(len) else 31
  }

  /** Whether the edge goes to the imbalanced kernel, because binary search is the cheaper way. */
  predicate PrefersSearch(workFactor: int, srcLen: nat, dstLen: nat) {
    var uLen := if srcLen <= dstLen then srcLen else dstLen;
    var vLen := if srcLen <= dstLen then dstLen else srcLen;
    workFactor * (uLen + vLen + LogOf(uLen)) >= uLen * LogOf(vLen)
  }

  function Bin(workFactor: int, srcLen: nat, dstLen: nat): (b: nat)
    ensures b < MAX_BINS
    ensures b >= MAX_BINS / 2 <==> PrefersSearch(workFactor, srcLen, dstLen)
  {
    var uLen := if srcLen <= dstLen then srcLen else dstLen;
    var vLen := if srcLen <= dstLen then dstLen else srcLen;
    var logU, logV := LogOf(uLen), LogOf(vLen);
    var search := if PrefersSearch(workFactor, srcLen, dstLen) then 1 else 0;
    if search == 0 && uLen <= 1 then
      search * MAX_BINS / 2
    else if search == 0 then
      search * MAX_BINS / 2 + (logV * BINS_1D_DIM + logU)
    else
      search * MAX_BINS / 2 + (logU * BINS_1D_DIM + logV)
  }

  lemma {:induction false} SignOfProduct(w: int, n: nat)
    ensures w * n >= 0 <==> w >= 0 || n == 0
  {
  }

  /** An edge with an empty list goes to the imbalanced kernel if and only if the work factor is not negative. */
  lemma {:induction false} EmptyListPrefersSearch(workFactor: int, srcLen: nat, dstLen: nat)
    requires srcLen == 0 || dstLen == 0
    ensures Bin(workFactor, srcLen, dstLen) >= MAX_BINS / 2 <==> workFactor >= 0 || srcLen + dstLen == 0
  {
    SignOfProduct(workFactor, if srcLen <= dstLen then dstLen else srcLen);
  }

  /** For any work factor, the only bin of the balanced kernel that can hold an edge with an empty list is the first. */
  lemma {:induction false} EmptyListsAreInFirstBin(workFactor: int, srcLen: nat, dstLen: nat)
    requires Bin(workFactor, srcLen, dstLen) < MAX_BINS / 2 && (srcLen == 0 || dstLen == 0)
    ensures Bin(workFactor, srcLen, dstLen) == 0 && workFactor < 0
  {
    EmptyListPrefersSearch(workFactor, srcLen, dstLen);
  }

  // ---------------------------------------------------------------------------------------------
  // The counting pass

  /** The threads whose edge belongs to bin b. */
  function InBin(bins: seq<nat>, b: nat): set<nat> {
    set t: nat | t < |bins| && bins[t] == b
  }

  predicate ValidBins(bins: seq<nat>) {
    forall t :: 0 <= t < |bins| ==> bins[t] < MAX_BINS
  }

  /** An order in which the threads perform their single atomic increment. */
  predicate IsOrder(order: seq<nat>, threads: nat) {
    && Permutation.Distinct(order)
    && |order| == threads
    && forall k :: 0 <= k < |order| ==> order[k] < threads
  }

  method CountBins(bins: seq<nat>, order: seq<nat>) returns (queueSizes: array<nat>)
    requires ValidBins(bins) && IsOrder(order, |bins|)
    ensures queueSizes.Length == MAX_BINS
    ensures forall b: nat :: b < MAX_BINS ==> queueSizes[b] == |InBin(bins, b)|
  {
    queueSizes := new nat[MAX_BINS](_ => 0);
    for k := 0 to |order|
      invariant fresh(queueSizes)
      invariant forall b: nat :: b < MAX_BINS ==> queueSizes[b] == |Counted(bins, order[..k], b)|
    {
      var b := bins[order[k]];
      forall c: nat ensures Counted(bins, order[..k + 1], c)
                         == Counted(bins, order[..k], c) + (if c == b then {order[k]} else {}) {
        assert order[..k + 1] == order[..k] + [order[k]];
      }
      assert order[k] !in order[..k];
      queueSizes[b] := queueSizes[b] + 1;
    }
    forall b: nat ensures Counted(bins, order, b) == InBin(bins, b) {
      forall t | t in InBin(bins, b) ensures t in order {
        Permutation.InjectionIsOnto(order, t);
      }
    }
    assert order[..|order|] == order;
  }

  function Counted(bins: seq<nat>, done: seq<nat>, b: nat): set<nat> {
    set t: nat | t < |bins| && t in done && bins[t] == b
  }

  // ---------------------------------------------------------------------------------------------
  // The start positions

  /** base[b] is the number of edges in the bins before b. */
  predicate IsBase(base: seq<nat>, bins: seq<nat>) {
    && |base| == MAX_BINS + 1
    && base[0] == 0
    && forall b :: 0 <= b < MAX_BINS ==> base[b + 1] == base[b] + |InBin(bins, b)|
  }

  method PartialSum(queueSizes: array<nat>, ghost bins: seq<nat>) returns (queuePos: array<nat>)
    requires queueSizes.Length == MAX_BINS
    requires forall b: nat :: b < MAX_BINS ==> queueSizes[b] == |InBin(bins, b)|
    ensures IsBase(queuePos[..], bins)
  {
    queuePos := new nat[MAX_BINS + 1](_ => 0);
    for b := 0 to MAX_BINS
      invariant queuePos[0] == 0
      invariant forall c :: 0 <= c < b ==> queuePos[c + 1] == queuePos[c] + |InBin(bins, c)|
    {
      queuePos[b + 1] := queuePos[b] + queueSizes[b];
    }
  }

  lemma {:induction false} BaseIsMonotone(base: seq<nat>, bins: seq<nat>, b: nat, c: nat)
    requires IsBase(base, bins) && b <= c <= MAX_BINS
    ensures base[b] <= base[c]
    decreases c - b
  {
    if b < c {
      BaseIsMonotone(base, bins, b, c - 1);
    }
  }

  function BinSets(bins: seq<nat>, k: nat): seq<set<nat>> {
    seq(k, b requires 0 <= b < k => InBin(bins, b))
  }

  lemma {:induction false} BaseIsSizeSum(base: seq<nat>, bins: seq<nat>, k: nat)
    requires IsBase(base, bins) && k <= MAX_BINS
    ensures base[k] == Partition.SizeSum(BinSets(bins, k))
  {
    if k > 0 {
      BaseIsSizeSum(base, bins, k - 1);
      assert BinSets(bins, k)[..k - 1] == BinSets(bins, k - 1);
    }
  }

  /** The last start position is the number of edges. */
  lemma {:induction false} BaseEnds(base: seq<nat>, bins: seq<nat>)
    requires IsBase(base, bins) && ValidBins(bins)
    ensures base[MAX_BINS] == |bins|
  {
    var parts := BinSets(bins, MAX_BINS);
    BaseIsSizeSum(base, bins, MAX_BINS);
    forall t | t in Permutation.Range(|bins|) ensures exists b :: 0 <= b < |parts| && t in parts[b] {
      assert t in parts[bins[t]];
    }
    Partition.PartitionSize(parts, Permutation.Range(|bins|));
  }
}
