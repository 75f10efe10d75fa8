/**
 * The balanced kernel block by block (primitives/Operator++.i.cuh, lines 102-111): the barrier keeps the threads
 * of a block together, so a block goes through its loop round by round, all its threads in one round.  That is
 * another order of the jobs of the grid.
 */
module BlockJobs {
  import opened EngineConstants
  import opened LaunchJobs
  import opened LaunchPlan
  import Arith
  import Permutation

  /** The round in which the owner of a job meets it. */
  function RoundOf(l: Launch, groups: nat, j: Job): (k: nat)
    requires groups > 0 && l.start <= j.pos
  {
    Arith.DivIsNatural(j.pos - l.start, groups);
    (j.pos - l.start) / groups
  }

  lemma {:induction false} RoundOfJob(l: Launch, groups: nat, id: nat, k: nat)
    requires l.lanes > 0 && groups > 0 && id < groups * l.lanes && JobInRound(l, groups, id, k).pos < l.end
    ensures var j := JobInRound(l, groups, id, k);
      IsJobOf(l, j) && OwnerOf(l, groups, j) == id && RoundOf(l, groups, j) == k
  {
    RoundsBound(l.start + id / l.lanes, groups, l.end, k);
    RoundIsOwned(l, groups, id, k);
    Arith.DivIsBelow(id, l.lanes, groups);
    Arith.DivModUnique(k * groups + id / l.lanes, groups, k, id / l.lanes);
  }

  lemma {:induction false} JobOfRound(l: Launch, groups: nat, j: Job)
    requires groups > 0 && IsJobOf(l, j)
    ensures j == JobInRound(l, groups, OwnerOf(l, groups, j), RoundOf(l, groups, j))
  {
    assert j.pos - l.start == RoundOf(l, groups, j) * groups + (j.pos - l.start) % groups;
  }

  /** A job of the launch is what one thread does in one round. */
  lemma {:induction false} JobOfThread(l: Launch, groups: nat, id: nat, k: nat, j: Job)
    requires l.lanes > 0 && groups > 0 && id < groups * l.lanes
    ensures j == JobInRound(l, groups, id, k) && j.pos < l.end
       <==> IsJobOf(l, j) && OwnerOf(l, groups, j) == id && RoundOf(l, groups, j) == k
  {
    if j == JobInRound(l, groups, id, k) && j.pos < l.end {
      RoundOfJob(l, groups, id, k);
    }
    if IsJobOf(l, j) {
      JobOfRound(l, groups, j);
    }
  }

  /** The jobs of the first n threads of block b in round k; a thread past the end has none. */
  function RoundJobs(l: Launch, groups: nat, b: nat, k: nat, n: nat): seq<Job>
    requires l.lanes > 0
  {
    if n == 0 then []
    else
      var j := JobInRound(l, groups, b * BLOCK_SIZE + (n - 1), k);
      RoundJobs(l, groups, b, k, n - 1) + if j.pos < l.end then [j] else []
  }

  /** The first rounds of block b. */
  function JobsOfBlock(l: Launch, groups: nat, b: nat, rounds: nat): seq<Job>
    requires l.lanes > 0
  {
    if rounds == 0 then []
    else JobsOfBlock(l, groups, b, rounds - 1) + RoundJobs(l, groups, b, rounds - 1, BLOCK_SIZE)
  }

  /** The queue position at which the first group of a block begins. */
  function BlockStart(l: Launch, b: nat): (pos: nat)
    requires l.lanes > 0
  {
    Arith.DivIsNatural(b * BLOCK_SIZE, l.lanes);
    l.start + b * BLOCK_SIZE / l.lanes
  }

  /** A block goes on while its first group has an item. */
  function BlockRounds(l: Launch, groups: nat, b: nat): nat
    requires l.lanes > 0 && groups > 0
  {
    Rounds(BlockStart(l, b), groups, l.end)
  }

  /** No block of a launch has a second round. */
  ghost predicate OneRound(l: Launch, groups: nat)
    requires l.lanes > 0 && groups > 0
  {
    forall b: nat :: BlockRounds(l, groups, b) <= 1
  }

  /** That is so exactly if there is a group for every position of the range. */
  lemma {:induction false} OneRoundIffGroups(l: Launch, groups: nat)
    requires l.lanes > 0 && groups > 0 && l.start <= l.end
    ensures OneRound(l, groups) <==> groups >= l.end - l.start
  {
    if groups >= l.end - l.start {
      forall b: nat ensures BlockRounds(l, groups, b) <= 1 {
        RoundsBound(BlockStart(l, b), groups, l.end, 1);
      }
    } else {
      RoundsBound(l.start, groups, l.end, 1);
      assert BlockStart(l, 0) == l.start;
      assert BlockRounds(l, groups, 0) > 1;
    }
  }

  /** The grid of a launch: shrunk to the limit if it has to be, rounded up to whole blocks of `groups` groups. */
  predicate IsGrid(l: Launch, gridSize: nat, items: nat, groups: nat) {
    && gridSize == items * l.lanes <= MAX_GRID && items <= l.end - l.start
    && (items == l.end - l.start <==> (l.end - l.start) * l.lanes <= MAX_GRID)
    && Threads(gridSize) == groups * l.lanes
  }

  /** On the grid of the launch no block has a second round if and only if the launch did not have to be shrunk. */
  lemma {:induction false} OneRoundIffFits(l: Launch, gridSize: nat, items: nat, groups: nat)
    requires l.lanes > 0 && groups > 0 && l.start <= l.end && IsGrid(l, gridSize, items, groups)
    ensures OneRound(l, groups) <==> (l.end - l.start) * l.lanes <= MAX_GRID
  {
    GridHoldsRange(l.end - l.start, l.lanes, gridSize, items, groups);
    OneRoundIffGroups(l, groups);
  }

  /** The jobs of the first blocks. */
  function JobsOfBlocks(l: Launch, groups: nat, blocks: nat): seq<Job>
    requires l.lanes > 0 && groups > 0
  {
    if blocks == 0 then []
    else
      JobsOfBlocks(l, groups, blocks - 1) + JobsOfBlock(l, groups, blocks - 1, BlockRounds(l, groups, blocks - 1))
  }

  lemma {:induction false} InRoundJobs(l: Launch, groups: nat, b: nat, k: nat, n: nat, j: Job)
    requires l.lanes > 0 && groups > 0 && b * BLOCK_SIZE + n <= groups * l.lanes
    ensures j in RoundJobs(l, groups, b, k, n)
       <==> && IsJobOf(l, j) && b * BLOCK_SIZE <= OwnerOf(l, groups, j) < b * BLOCK_SIZE + n
            && RoundOf(l, groups, j) == k
  {
    if n > 0 {
      InRoundJobs(l, groups, b, k, n - 1, j);
      JobOfThread(l, groups, b * BLOCK_SIZE + (n - 1), k, j);
    }
  }

  lemma {:induction false} RoundJobsDistinct(l: Launch, groups: nat, b: nat, k: nat, n: nat)
    requires l.lanes > 0 && groups > 0 && b * BLOCK_SIZE + n <= groups * l.lanes
    ensures Permutation.Distinct(RoundJobs(l, groups, b, k, n))
  {
    if n > 0 {
      RoundJobsDistinct(l, groups, b, k, n - 1);
      var j := JobInRound(l, groups, b * BLOCK_SIZE + (n - 1), k);
      InRoundJobs(l, groups, b, k, n - 1, j);
      JobOfThread(l, groups, b * BLOCK_SIZE + (n - 1), k, j);
    }
  }

  predicate InBlock(l: Launch, groups: nat, b: nat, j: Job)
    requires groups > 0 && IsJobOf(l, j)
  {
    b * BLOCK_SIZE <= OwnerOf(l, groups, j) < (b + 1) * BLOCK_SIZE
  }

  lemma {:induction false} InJobsOfBlock(l: Launch, groups: nat, b: nat, rounds: nat, j: Job)
    requires l.lanes > 0 && groups > 0 && (b + 1) * BLOCK_SIZE <= groups * l.lanes
    ensures j in JobsOfBlock(l, groups, b, rounds)
       <==> IsJobOf(l, j) && InBlock(l, groups, b, j) && RoundOf(l, groups, j) < rounds
  {
    if rounds > 0 {
      InJobsOfBlock(l, groups, b, rounds - 1, j);
      InRoundJobs(l, groups, b, rounds - 1, BLOCK_SIZE, j);
    }
  }

  lemma {:induction false} RoundsAreApart(l: Launch, groups: nat, b: nat, rounds: nat, j: Job)
    requires l.lanes > 0 && groups > 0 && (b + 1) * BLOCK_SIZE <= groups * l.lanes
    requires j in JobsOfBlock(l, groups, b, rounds)
    ensures j !in RoundJobs(l, groups, b, rounds, BLOCK_SIZE)
  {
    InJobsOfBlock(l, groups, b, rounds, j);
    InRoundJobs(l, groups, b, rounds, BLOCK_SIZE, j);
  }

  lemma {:induction false} JobsOfBlockDistinct(l: Launch, groups: nat, b: nat, rounds: nat)
    requires l.lanes > 0 && groups > 0 && (b + 1) * BLOCK_SIZE <= groups * l.lanes
    ensures Permutation.Distinct(JobsOfBlock(l, groups, b, rounds))
  {
    if rounds > 0 {
      JobsOfBlockDistinct(l, groups, b, rounds - 1);
      RoundJobsDistinct(l, groups, b, rounds - 1, BLOCK_SIZE);
      var front, last := JobsOfBlock(l, groups, b, rounds - 1), RoundJobs(l, groups, b, rounds - 1, BLOCK_SIZE);
      forall j | j in front ensures j !in last {
        RoundsAreApart(l, groups, b, rounds - 1, j);
      }
      AppendDistinct(front, last);
    }
  }

  /** A block goes on long enough for every job of its threads. */
  lemma {:induction false} BlockReachesJob(l: Launch, groups: nat, b: nat, j: Job)
    requires groups > 0 && IsJobOf(l, j) && b * BLOCK_SIZE <= OwnerOf(l, groups, j)
    ensures RoundOf(l, groups, j) < BlockRounds(l, groups, b)
  {
    var id, k := OwnerOf(l, groups, j), RoundOf(l, groups, j);
    assert j.pos - l.start == k * groups + (j.pos - l.start) % groups;
    Arith.DivMonotone(b * BLOCK_SIZE, id, l.lanes);
    RoundsBound(BlockStart(l, b), groups, l.end, k);
  }

  lemma {:induction false} InJobsOfBlocks(l: Launch, groups: nat, blocks: nat, j: Job)
    requires l.lanes > 0 && groups > 0 && blocks * BLOCK_SIZE <= groups * l.lanes
    ensures j in JobsOfBlocks(l, groups, blocks)
       <==> IsJobOf(l, j) && OwnerOf(l, groups, j) < blocks * BLOCK_SIZE
  {
    if blocks > 0 {
      var b := blocks - 1;
      InJobsOfBlocks(l, groups, b, j);
      InJobsOfBlock(l, groups, b, BlockRounds(l, groups, b), j);
      if IsJobOf(l, j) && InBlock(l, groups, b, j) {
        BlockReachesJob(l, groups, b, j);
      }
    }
  }

  lemma {:induction false} JobsOfBlocksDistinct(l: Launch, groups: nat, blocks: nat)
    requires l.lanes > 0 && groups > 0 && blocks * BLOCK_SIZE <= groups * l.lanes
    ensures Permutation.Distinct(JobsOfBlocks(l, groups, blocks))
  {
    if blocks > 0 {
      var b := blocks - 1;
      JobsOfBlocksDistinct(l, groups, b);
      JobsOfBlockDistinct(l, groups, b, BlockRounds(l, groups, b));
      var front, last := JobsOfBlocks(l, groups, b), JobsOfBlock(l, groups, b, BlockRounds(l, groups, b));
      forall j | j in front ensures j !in last {
        InJobsOfBlocks(l, groups, b, j);
        InJobsOfBlock(l, groups, b, BlockRounds(l, groups, b), j);
      }
      AppendDistinct(front, last);
    }
  }

  /** The blocks of a grid, round by round, run every lane of every position of the range exactly once. */
  lemma {:induction false} BlocksRunEachJobOnce(l: Launch, groups: nat, blocks: nat)
    requires l.lanes > 0 && groups > 0 && blocks * BLOCK_SIZE == groups * l.lanes
    ensures multiset(JobsOfBlocks(l, groups, blocks)) == multiset(OrderedJobs(l, l.end))
  {
    JobsOfBlocksDistinct(l, groups, blocks);
    OrderedJobsDistinct(l, l.end);
    var a, b := JobsOfBlocks(l, groups, blocks), OrderedJobs(l, l.end);
    forall j ensures j in Permutation.Elements(a) <==> j in Permutation.Elements(b) {
      InJobsOfBlocks(l, groups, blocks, j);
      InOrderedJobs(l, l.end, j);
    }
    Permutation.SameElements(a, b);
  }
}
