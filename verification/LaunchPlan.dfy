/**
 * From the bins to the threads (primitives/Operator++.i.cuh, lines 415-469, 490-524, 102-111 and 205-211).
 * The host cuts the edge queue into consecutive ranges, one kernel launch each; the grid of a launch is
 * shrunk when it is too large, and each thread strides over the queue positions of its range.
 */
module LaunchPlan {
  import opened EngineConstants
  import Arith

  const LOG_OFFSET_BALANCED: nat := 3
  const LOG_OFFSET_IMBALANCED: nat := 2
  const MAX_GRID: nat := 0x8000_0000

  datatype Kernel = Balanced | Imbalanced

  /** Positions start <= i < end of the edge queue, `lanes` threads for each of them. */
  datatype Launch = Launch(start: nat, end: nat, lanes: nat, kernel: Kernel)

  // ---------------------------------------------------------------------------------------------
  // The ranges

  predicate ValidPositions(queuePos: seq<nat>) {
    && |queuePos| == MAX_BINS + 1 && queuePos[0] == 0
    && forall b, c :: 0 <= b <= c <= MAX_BINS ==> queuePos[b] <= queuePos[c]
  }

  /** Consecutive non-empty ranges that lead from `from` to `to`. */
  predicate Tiles(launches: seq<Launch>, from: nat, to: nat) {
    if launches == [] then from == to
    else
      var last := launches[|launches| - 1];
      last.start < last.end == to && Tiles(launches[..|launches| - 1], from, last.start)
  }

  /** The group sizes that the kernels are launched with: a power of two that fits the kernel. */
  predicate GroupFits(l: Launch) {
    exists k: nat :: l.lanes == Arith.Pow2(k) && k <= (if l.kernel == Balanced then 8 else 29)
  }

  /** The balanced kernel serves the lower half of the bins, the imbalanced one the upper half. */
  predicate Serves(l: Launch, queuePos: seq<nat>)
    requires ValidPositions(queuePos)
  {
    if l.kernel == Balanced then l.end <= queuePos[MAX_BINS / 2] else queuePos[MAX_BINS / 2] <= l.start
  }

  /** The last group size that a launch loop reaches: it takes the remaining bins of its half. */
  function LastSize(kernel: Kernel): nat {
    if kernel == Balanced then 9 else 30
  }

  /** The bins that are launched with groups of 2^(threadsLog - 1) threads: from this one ... */
  function FirstBin(kernel: Kernel, threadsLog: nat): (b: nat)
    requires 1 <= threadsLog <= LastSize(kernel)
    ensures if kernel == Balanced then b < MAX_BINS / 2 else MAX_BINS / 2 <= b < MAX_BINS
  {
    if kernel == Balanced then
      if threadsLog == 1 then 0 else (threadsLog - 1 + LOG_OFFSET_BALANCED) * BINS_1D_DIM
    else
      MAX_BINS / 2 + if threadsLog == 1 then 0 else (threadsLog - 1 + LOG_OFFSET_IMBALANCED) * BINS_1D_DIM
  }

  /** ... up to this one, exclusive. */
  function EndBin(kernel: Kernel, threadsLog: nat): (b: nat)
    requires 1 <= threadsLog <= LastSize(kernel)
    ensures FirstBin(kernel, threadsLog) < b <= if kernel == Balanced then MAX_BINS / 2 else MAX_BINS
  {
    if threadsLog == LastSize(kernel) then
      if kernel == Balanced then MAX_BINS / 2 else MAX_BINS
    else if kernel == Balanced then
      (threadsLog + LOG_OFFSET_BALANCED) * BINS_1D_DIM
    else
      MAX_BINS / 2 + (threadsLog + LOG_OFFSET_IMBALANCED) * BINS_1D_DIM
  }

  /** The launch of the bins of one group size. */
  predicate IsRange(l: Launch, queuePos: seq<nat>, threadsLog: nat)
    requires ValidPositions(queuePos)
  {
    && 1 <= threadsLog <= LastSize(l.kernel) && l.lanes == Arith.Pow2(threadsLog - 1)
    && l.start == queuePos[FirstBin(l.kernel, threadsLog)] && l.end == queuePos[EndBin(l.kernel, threadsLog)]
  }

  ghost predicate HasRange(l: Launch, queuePos: seq<nat>)
    requires ValidPositions(queuePos)
  {
    exists threadsLog: nat :: IsRange(l, queuePos, threadsLog)
  }

  ghost predicate GoodLaunches(launches: seq<Launch>, queuePos: seq<nat>)
    requires ValidPositions(queuePos)
  {
    forall k :: 0 <= k < |launches| ==> HasRange(launches[k], queuePos)
  }

  lemma {:induction false} RangeIsGood(l: Launch, queuePos: seq<nat>)
    requires ValidPositions(queuePos) && HasRange(l, queuePos)
    ensures GroupFits(l) && Serves(l, queuePos)
  {
    var threadsLog: nat :| IsRange(l, queuePos, threadsLog);
    var k: nat := threadsLog - 1;
    assert l.lanes == Arith.Pow2(k) && k <= if l.kernel == Balanced then 8 else 29;
  }

  /** The group size that a bin is launched with, from the row of the bin alone. */
  function SizeOfBin(b: nat): (threadsLog: nat)
    requires b < MAX_BINS
    ensures threadsLog >= 1
  {
    if b < MAX_BINS / 2 then
      var row := b / BINS_1D_DIM;
      if row <= LOG_OFFSET_BALANCED then 1 else if row >= 11 then 9 else row - 2
    else
      var row := (b - MAX_BINS / 2) / BINS_1D_DIM;
      if row <= LOG_OFFSET_IMBALANCED then 1 else row - 1
  }

  lemma {:induction false} SizeOfBinInRange(kernel: Kernel, threadsLog: nat, b: nat)
    requires 1 <= threadsLog <= LastSize(kernel)
    requires FirstBin(kernel, threadsLog) <= b < EndBin(kernel, threadsLog)
    ensures SizeOfBin(b) == threadsLog
  {
  }

  lemma {:induction false} BinsInOrder(queuePos: seq<nat>, b: nat, c: nat)
    requires ValidPositions(queuePos) && b <= MAX_BINS && c <= MAX_BINS && queuePos[b] < queuePos[c]
    ensures b < c
  {
  }

  /** The launch of a position has the kernel and the group size that belong to the bin of the position. */
  lemma {:induction false} LaunchOfBin(l: Launch, queuePos: seq<nat>, b: nat, i: nat)
    requires ValidPositions(queuePos) && HasRange(l, queuePos)
    requires b < MAX_BINS && queuePos[b] <= i < queuePos[b + 1] && l.start <= i < l.end
    ensures l.kernel == Balanced <==> b < MAX_BINS / 2
    ensures l.lanes == Arith.Pow2(SizeOfBin(b) - 1)
  {
    var threadsLog: nat :| IsRange(l, queuePos, threadsLog);
    BinsInOrder(queuePos, FirstBin(l.kernel, threadsLog), b + 1);
    BinsInOrder(queuePos, b, EndBin(l.kernel, threadsLog));
    SizeOfBinInRange(l.kernel, threadsLog, b);
  }

  lemma {:induction false} AddLaunch(launches: seq<Launch>, l: Launch, from: nat, queuePos: seq<nat>)
    requires ValidPositions(queuePos) && GoodLaunches(launches, queuePos)
    requires Tiles(launches, from, l.start) && l.start < l.end && HasRange(l, queuePos)
    ensures Tiles(launches + [l], from, l.end) && GoodLaunches(launches + [l], queuePos)
  {
    assert (launches + [l])[..|launches|] == launches;
  }

  method LaunchRange(launches: seq<Launch>, start: nat, end: nat, threadsLog: nat, kernel: Kernel,
                     queuePos: seq<nat>)
    returns (more: seq<Launch>)
    requires ValidPositions(queuePos) && GoodLaunches(launches, queuePos) && Tiles(launches, 0, start)
    requires 1 <= threadsLog <= LastSize(kernel)
    requires start == queuePos[FirstBin(kernel, threadsLog)] && end == queuePos[EndBin(kernel, threadsLog)]
    ensures GoodLaunches(more, queuePos) && Tiles(more, 0, end)
  {
    more := launches;
    var size := end - start;
    if size != 0 {
      var threadsPer := Arith.Pow2(threadsLog - 1);
      var l := Launch(start, end, threadsPer, kernel);
      assert IsRange(l, queuePos, threadsLog);
      AddLaunch(launches, l, 0, queuePos);
      more := launches + [l];
    }
  }

  /** The launches of the balanced kernel. */
  method PlanBalanced(queuePos: seq<nat>) returns (launches: seq<Launch>)
    requires ValidPositions(queuePos)
    ensures Tiles(launches, 0, queuePos[MAX_BINS / 2]) && GoodLaunches(launches, queuePos)
  {
    var balancedThreadsLogMax := 9; // 31 - clz(256) + 1
    launches := [];
    var startIndex, endIndex := 0, 0;
    var threadsLog := 1;
    while threadsLog < balancedThreadsLogMax && threadsLog + LOG_OFFSET_BALANCED < BINS_1D_DIM
      invariant 1 <= threadsLog <= balancedThreadsLogMax
      invariant startIndex == queuePos[FirstBin(Balanced, threadsLog)]
      invariant Tiles(launches, 0, startIndex) && GoodLaunches(launches, queuePos)
    {
      var binIndex := (threadsLog + LOG_OFFSET_BALANCED) * BINS_1D_DIM;
      endIndex := queuePos[binIndex];
      launches := LaunchRange(launches, startIndex, endIndex, threadsLog, Balanced, queuePos);
      startIndex := endIndex;
      threadsLog := threadsLog + 1;
    }
    endIndex := queuePos[MAX_BINS / 2];
    launches := LaunchRange(launches, startIndex, endIndex, threadsLog, Balanced, queuePos);
  }

  /** Behind them, the launches of the imbalanced kernel. */
  method PlanImbalanced(balanced: seq<Launch>, queuePos: seq<nat>) returns (launches: seq<Launch>)
    requires ValidPositions(queuePos)
    requires Tiles(balanced, 0, queuePos[MAX_BINS / 2]) && GoodLaunches(balanced, queuePos)
    ensures Tiles(launches, 0, queuePos[MAX_BINS]) && GoodLaunches(launches, queuePos)
  {
    var imbalancedThreadsLogMax := BINS_1D_DIM - 1;
    var binOffset := MAX_BINS / 2;
    launches := balanced;
    var startIndex, endIndex := queuePos[MAX_BINS / 2], 0;
    var threadsLog := 1;
    while threadsLog < imbalancedThreadsLogMax && threadsLog + LOG_OFFSET_IMBALANCED < BINS_1D_DIM
      invariant 1 <= threadsLog <= 30
      invariant startIndex == queuePos[FirstBin(Imbalanced, threadsLog)]
      invariant Tiles(launches, 0, startIndex) && GoodLaunches(launches, queuePos)
    {
      var binIndex := binOffset + (threadsLog + LOG_OFFSET_IMBALANCED) * BINS_1D_DIM;
      endIndex := queuePos[binIndex];
      launches := LaunchRange(launches, startIndex, endIndex, threadsLog, Imbalanced, queuePos);
      startIndex := endIndex;
      threadsLog := threadsLog + 1;
    }
    endIndex := queuePos[MAX_BINS];
    launches := LaunchRange(launches, startIndex, endIndex, threadsLog, Imbalanced, queuePos);
  }

  /**
   * The launches tile the whole queue, and each of them is the range of one group size: the bins from FirstBin to
   * EndBin, by groups of 2^(threadsLog - 1) threads.
   */
  method PlanLaunches(queuePos: seq<nat>) returns (launches: seq<Launch>)
    requires ValidPositions(queuePos)
    ensures Tiles(launches, 0, queuePos[MAX_BINS])
    ensures GoodLaunches(launches, queuePos)
  {
    var balanced := PlanBalanced(queuePos);
    launches := PlanImbalanced(balanced, queuePos);
  }

  /** Every queue position belongs to one launch, and to no other. */
  lemma {:induction false} PositionHasLaunch(launches: seq<Launch>, from: nat, to: nat, i: nat)
    requires Tiles(launches, from, to) && from <= i < to
    ensures exists k :: 0 <= k < |launches| && launches[k].start <= i < launches[k].end
    ensures forall k, l ::
              (&& 0 <= k < |launches| && launches[k].start <= i < launches[k].end
               && 0 <= l < |launches| && launches[l].start <= i < launches[l].end) ==> k == l
  {
    var front, last := launches[..|launches| - 1], launches[|launches| - 1];
    TilesBound(front, from, last.start);
    if i < last.start {
      PositionHasLaunch(front, from, last.start, i);
      var k :| 0 <= k < |front| && front[k].start <= i < front[k].end;
      assert launches[k].start <= i < launches[k].end;
      assert forall j :: 0 <= j < |front| ==> launches[j] == front[j];
    } else {
      assert launches[|launches| - 1].start <= i < launches[|launches| - 1].end;
    }
  }

  lemma {:induction false} TilesBound(launches: seq<Launch>, from: nat, to: nat)
    requires Tiles(launches, from, to)
    ensures from <= to
    ensures forall k :: 0 <= k < |launches| ==> from <= launches[k].start < launches[k].end <= to
  {
    if launches != [] {
      TilesBound(launches[..|launches| - 1], from, launches[|launches| - 1].start);
    }
  }

  // ---------------------------------------------------------------------------------------------
  // The grid of one launch

  /** A number of items, halved k times. */
  function Halved(size: nat, k: nat): (r: nat)
    ensures r <= size
  {
    if k == 0 then size else Halved(size, k - 1) / 2
  }

  lemma {:induction false} HalvedIsQuotient(size: nat, k: nat)
    ensures Halved(size, k) == size / Arith.Pow2(k)
  {
    if k > 0 {
      HalvedIsQuotient(size, k - 1);
      HalfOfQuotient(size, Arith.Pow2(k - 1));
    }
  }

  lemma {:induction false} HalfOfQuotient(x: nat, m: nat)
    requires m > 0
    ensures x / (2 * m) == x / m / 2
  {
    var q := x / m;
    assert x == (q / 2) * (2 * m) + ((q % 2) * m + x % m);
    assert (q % 2) * m <= m;
    Arith.DivModUnique(x, 2 * m, q / 2, (q % 2) * m + x % m);
  }

  /** As many halvings as needed, and no more. */
  ghost predicate HalvedUntilItFits(size: nat, lanes: nat, items: nat) {
    exists k: nat :: items == Halved(size, k) && (k > 0 ==> Halved(size, k - 1) * lanes > MAX_GRID)
  }

  /** The number of threads asked for, halved if and only if it does not fit, until it fits; it never reaches zero. */
  method ShrinkGrid(size: nat, lanes: nat) returns (gridSize: nat, ghost items: nat)
    requires 0 < size && 0 < lanes <= MAX_GRID / 4
    ensures 0 < gridSize <= MAX_GRID && gridSize == items * lanes && 0 < items <= size
    ensures items == size <==> size * lanes <= MAX_GRID
    ensures HalvedUntilItFits(size, lanes, items)
  {
    ghost var k: nat := 0;
    gridSize := size * lanes;
    var shrunk := size;
    while gridSize > MAX_GRID
      invariant 0 < shrunk <= size && gridSize == shrunk * lanes
      invariant shrunk < size ==> size * lanes > MAX_GRID
      invariant shrunk == Halved(size, k) && (k > 0 ==> Halved(size, k - 1) * lanes > MAX_GRID)
      decreases shrunk
    {
      if shrunk < 4 {
        Arith.MulMonotone(shrunk, 4, lanes);
      }
      k := k + 1;
      shrunk := shrunk / 2;
      gridSize := shrunk * lanes;
    }
    items := shrunk;
  }

  /** Whole blocks that hold at least gridSize threads. */
  function Threads(gridSize: nat): nat {
    (gridSize + BLOCK_SIZE - 1) / BLOCK_SIZE * BLOCK_SIZE
  }

  /** The lane of a thread as the kernels compute it from its block and its index in the block. */
  function KernelLane(kernel: Kernel, lanes: nat, id: nat): nat
    requires lanes > 0
  {
    var threadIdx, blockIdx := id % BLOCK_SIZE, id / BLOCK_SIZE;
    if kernel == Balanced then
      threadIdx % lanes
    else
      var offset := blockIdx % ((lanes + BLOCK_SIZE - 1) / BLOCK_SIZE);
      (offset * BLOCK_SIZE + threadIdx) % lanes
  }

  lemma {:induction false} SmallPower(k: nat)
    requires k <= 8
    ensures Arith.Pow2(8 - k) * Arith.Pow2(k) == BLOCK_SIZE && Arith.Pow2(k) <= BLOCK_SIZE
  {
    assert Arith.Pow2(8) == 256;
    Arith.Pow2Adds(8 - k, k);
    Arith.MulMonotone(1, Arith.Pow2(8 - k), Arith.Pow2(k));
  }

  lemma {:induction false} LargestGroup()
    ensures Arith.Pow2(29) == MAX_GRID / 4
  {
    assert Arith.Pow2(8) == 256 && Arith.Pow2(5) == 32;
    Arith.Pow2Adds(21, 8);
    Arith.Pow2Adds(13, 8);
    Arith.Pow2Adds(5, 8);
  }

  lemma {:induction false} LargePower(k: nat)
    requires 8 < k <= 29
    ensures Arith.Pow2(k) == Arith.Pow2(k - 8) * BLOCK_SIZE && BLOCK_SIZE < Arith.Pow2(k) <= MAX_GRID / 4
  {
    Arith.Pow2Adds(k - 8, 8);
    Arith.Pow2Monotone(9, k);
    Arith.Pow2Monotone(k, 29);
    assert Arith.Pow2(8) == BLOCK_SIZE;
    assert Arith.Pow2(9) == 2 * BLOCK_SIZE;
    LargestGroup();
  }

  /** A group size divides the block size, or the block size divides it. */
  lemma {:induction false} GroupsAndBlocks(l: Launch) returns (q: nat)
    requires GroupFits(l)
    ensures q > 0
    ensures if l.lanes <= BLOCK_SIZE then BLOCK_SIZE == q * l.lanes
            else l.kernel == Imbalanced && l.lanes == q * BLOCK_SIZE
    ensures l.lanes <= MAX_GRID / 4
  {
    var k: nat :| l.lanes == Arith.Pow2(k) && k <= (if l.kernel == Balanced then 8 else 29);
    if k <= 8 {
      SmallPower(k);
      q := Arith.Pow2(8 - k);
    } else {
      LargePower(k);
      q := Arith.Pow2(k - 8);
    }
  }

  /** The remainder of the remainder: a group never straddles two blocks, or is made of whole blocks. */
  lemma {:induction false} ModOfMod(x: nat, q: nat, m: nat)
    requires q > 0 && m > 0
    ensures q * m > 0 && (x % (q * m)) % m == x % m
  {
    assert q * m > 0;
    var big, r := x / (q * m), x % (q * m);
    assert x == big * (q * m) + r;
    assert big * (q * m) == (big * q) * m;
    assert x == (big * q + r / m) * m + r % m;
    Arith.DivModUnique(x, m, big * q + r / m, r % m);
  }

  lemma {:induction false} LaneIsIdModGroup(l: Launch, id: nat)
    requires GroupFits(l)
    ensures l.lanes > 0 && KernelLane(l.kernel, l.lanes, id) == id % l.lanes
  {
    var q := GroupsAndBlocks(l);
    if l.lanes <= BLOCK_SIZE {
      ModOfMod(id, q, l.lanes);
      if l.kernel == Imbalanced {
        assert (l.lanes + BLOCK_SIZE - 1) / BLOCK_SIZE == 1;
      }
    } else {
      Arith.DivModUnique(l.lanes + BLOCK_SIZE - 1, BLOCK_SIZE, q, BLOCK_SIZE - 1);
      var b, t := id / BLOCK_SIZE, id % BLOCK_SIZE;
      BlockRemainder(b, q, t);
    }
  }

  lemma {:induction false} BlockRemainder(b: nat, q: nat, t: nat)
    requires q > 0 && t < BLOCK_SIZE
    ensures ((b % q) * BLOCK_SIZE + t) % (q * BLOCK_SIZE) == (b * BLOCK_SIZE + t) % (q * BLOCK_SIZE)
  {
    var m, r := q * BLOCK_SIZE, (b % q) * BLOCK_SIZE + t;
    Arith.MulMonotone(b % q + 1, q, BLOCK_SIZE);
    assert b == (b / q) * q + b % q;
    assert b * BLOCK_SIZE == (b / q) * m + (b % q) * BLOCK_SIZE;
    Arith.DivModUnique(b * BLOCK_SIZE + t, m, b / q, r);
    Arith.DivModUnique(r, m, 0, r);
  }

  /** Blocks made of whole groups. */
  lemma {:induction false} BlocksOfGroups(gridSize: nat, q: nat, lanes: nat) returns (groups: nat)
    requires gridSize > 0 && q > 0 && BLOCK_SIZE == q * lanes
    ensures groups > 0 && Threads(gridSize) == groups * lanes
  {
    var blocks := (gridSize + BLOCK_SIZE - 1) / BLOCK_SIZE;
    groups := blocks * q;
    Arith.MulMonotone(1, blocks, q);
    assert blocks * (q * lanes) == groups * lanes;
  }

  /** Groups made of whole blocks. */
  lemma {:induction false} GroupsOfBlocks(items: nat, q: nat, lanes: nat)
    requires lanes == q * BLOCK_SIZE
    ensures Threads(items * lanes) == items * lanes
  {
    assert items * lanes == (items * q) * BLOCK_SIZE;
    Arith.DivModUnique(items * lanes + BLOCK_SIZE - 1, BLOCK_SIZE, items * q, BLOCK_SIZE - 1);
  }

  /** The grid consists of whole groups, at least one of them. */
  lemma {:induction false} GridIsWholeGroups(l: Launch, gridSize: nat, items: nat) returns (groups: nat)
    requires GroupFits(l) && gridSize == items * l.lanes && items > 0
    ensures groups > 0 && Threads(gridSize) == groups * l.lanes
    ensures l.lanes > 0 && Threads(gridSize) / l.lanes == groups
  {
    var q := GroupsAndBlocks(l);
    Arith.MulMonotone(1, items, l.lanes);
    if l.lanes <= BLOCK_SIZE {
      groups := BlocksOfGroups(gridSize, q, l.lanes);
    } else {
      groups := items;
      GroupsOfBlocks(items, q, l.lanes);
    }
    Arith.DivModUnique(Threads(gridSize), l.lanes, groups, 0);
  }

  /** Rounding up to whole blocks keeps a grid that fits within the limit, which is made of whole blocks. */
  lemma {:induction false} BlocksFit(gridSize: nat)
    ensures gridSize <= Threads(gridSize)
    ensures gridSize <= MAX_GRID ==> Threads(gridSize) <= MAX_GRID
  {
  }

  /** The grid has a group for every item of the range if and only if it was not shrunk. */
  lemma {:induction false} GridHoldsRange(size: nat, lanes: nat, gridSize: nat, items: nat, groups: nat)
    requires lanes > 0 && gridSize == items * lanes <= MAX_GRID && items <= size
    requires items == size <==> size * lanes <= MAX_GRID
    requires Threads(gridSize) == groups * lanes
    ensures groups >= size <==> size * lanes <= MAX_GRID
  {
    BlocksFit(gridSize);
    if groups >= size {
      Arith.MulMonotone(size, groups, lanes);
    } else {
      Arith.MulMonotone(groups + 1, size, lanes);
      assert (groups + 1) * lanes == groups * lanes + lanes;
    }
  }
}
