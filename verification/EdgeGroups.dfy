/**
 * How many threads an edge gets, from the lengths of its two lists (primitives/Operator++.i.cuh, lines 338-355 and
 * 415-469): first the bin, then the group size that the bin is launched with.
 */
module EdgeGroups {
  import opened AdjacencyRun
  import opened AdjacencyUnions
  import opened Arith
  import opened EdgeBinning
  import opened EdgeList
  import opened EngineConstants
  import EdgeScatter
  import LaunchPlan

  /** x has j significant bits. */
  predicate HasBits(x: nat, j: nat) {
    if j == 0 then x == 0 else Pow2(j - 1) <= x < Pow2(j)
  }

  lemma {:induction false} BitLengthIs(x: nat, j: nat)
    requires HasBits(x, j)
    ensures BitLength(x) == j
  {
    if j > 1 {
      BitLengthIs(x / 2, j - 1);
    }
  }

  /** The two work estimates, with the bits written out. */
  lemma {:induction false} EstimatesOfLengths(w: int, u: nat, v: nat, j: nat, k: nat)
    requires u <= v && LogOf(u) == j && LogOf(v) == k
    ensures PrefersSearch(w, u, v) <==> w * (u + v + j) >= u * k
    ensures PrefersSearch(w, v, u) <==> PrefersSearch(w, u, v)
  {
  }

  lemma {:induction false} BinOfLogs(w: int, u: nat, v: nat, j: nat, k: nat, searched: bool)
    requires u <= v && LogOf(u) == j && LogOf(v) == k
    requires searched == PrefersSearch(w, u, v) == PrefersSearch(w, v, u)
    ensures Bin(w, v, u) == Bin(w, u, v)
         == if searched then 1024 + 32 * j + k else if u <= 1 then 0 else 32 * k + j
  {
  }

  /**
   * The bin of an edge whose shorter list has u < 2^31 entries, with j significant bits, and whose longer one v, with
   * k bits.  The edge is searched if and only if w * (u + v + j) >= u * k; then its row is j and its column k.
   * Otherwise the row is k and the column j, and a list of at most one entry goes to the first bin.
   */
  lemma {:induction false} BinOfLengths(w: int, u: nat, v: nat, j: nat, k: nat)
    requires u <= v && HasBits(u, j) && HasBits(v, k) && j <= 31 && k <= 31
    ensures Bin(w, v, u) == Bin(w, u, v)
    ensures Bin(w, u, v)
         == if w * (u + v + j) >= u * k then 1024 + 32 * j + k
            else if u <= 1 then 0
            else 32 * k + j
  {
    BitLengthIs(u, j);
    BitLengthIs(v, k);
    EstimatesOfLengths(w, u, v, j, k);
    BinOfLogs(w, u, v, j, k, PrefersSearch(w, u, v));
  }

  lemma {:induction false} SizeOfBalanced(row: nat, column: nat)
    requires row < 32 && column < 32
    ensures LaunchPlan.SizeOfBin(32 * row + column) == if row <= 3 then 1 else if row >= 11 then 9 else row - 2
  {
  }

  lemma {:induction false} SizeOfImbalanced(row: nat, column: nat)
    requires row < 32 && column < 32
    ensures LaunchPlan.SizeOfBin(1024 + 32 * row + column) == if row <= 2 then 1 else row - 1
  {
  }

  /** The group size of the bin. */
  lemma {:induction false} ThreadsOfBin(b: nat, searched: bool, u: nat, j: nat, k: nat)
    requires j < 32 && k < 32
    requires b == if searched then 1024 + 32 * j + k else if u <= 1 then 0 else 32 * k + j
    ensures b < 2048 && (b >= 1024 <==> searched)
    ensures Pow2(LaunchPlan.SizeOfBin(b) - 1)
         == if searched then (if j <= 2 then 1 else Pow2(j - 2))
            else if u <= 1 || k <= 3 then 1
            else if k >= 11 then 256
            else Pow2(k - 3)
  {
    SizeOfBalanced(k, j);
    SizeOfBalanced(0, 0);
    SizeOfImbalanced(j, k);
    assert Pow2(0) == 1;
    assert Pow2(8) == 256;
  }

  /**
   * In every run the launch that holds an edge of the queue serves it with the kernel and the number of threads that
   * follow from the lengths of its two lists.
   */
  lemma {:induction false} ThreadsOfEdge(adj: Adjacency, edges: seq<Edge>, workFactor: int, n: EdgeScatter.Input,
          s: EdgeScatter.State, claims: seq<nat>, launches: seq<LaunchPlan.Launch>, l: LaunchPlan.Launch, i: nat,
          u: nat, v: nat, j: nat, k: nat)
    requires IsPlanned(adj, edges, workFactor, n, s, claims, launches)
    requires l in launches && l.start <= i < l.end && i < |Queue(n, s, claims)|
    requires InGraph(adj, Queue(n, s, claims)[i])
    requires var e := Queue(n, s, claims)[i];
      u <= v && ((u == |adj[e.src]| && v == |adj[e.dst]|) || (u == |adj[e.dst]| && v == |adj[e.src]|))
    requires HasBits(u, j) && HasBits(v, k) && j <= 31 && k <= 31
    ensures l.kernel == LaunchPlan.Imbalanced <==> workFactor * (u + v + j) >= u * k
    ensures l.kernel == LaunchPlan.Imbalanced ==> l.lanes == if j <= 2 then 1 else Pow2(j - 2)
    ensures l.kernel == LaunchPlan.Balanced ==>
      l.lanes == if u <= 1 || k <= 3 then 1 else if k >= 11 then 256 else Pow2(k - 3)
  {
    var b := BinOfEdge(adj, edges, workFactor, n, s, claims, launches, l, i);
    BinOfLengths(workFactor, u, v, j, k);
    ThreadsOfBin(b, b >= 1024, u, j, k);
  }

  lemma {:induction false} BinAt(adj: Adjacency, edges: seq<Edge>, workFactor: int, t: nat, e: Edge)
    requires AllInGraph(adj, edges) && t < |edges| && edges[t] == e
    ensures Bins(adj, edges, workFactor)[t] == Bin(workFactor, |adj[e.src]|, |adj[e.dst]|)
  {
  }

  /** The bin that the edge at a position was put into, and what it says about the launch. */
  lemma {:induction false} BinOfEdge(adj: Adjacency, edges: seq<Edge>, workFactor: int, n: EdgeScatter.Input,
          s: EdgeScatter.State, claims: seq<nat>, launches: seq<LaunchPlan.Launch>, l: LaunchPlan.Launch, i: nat)
    returns (b: nat)
    requires IsPlanned(adj, edges, workFactor, n, s, claims, launches)
    requires l in launches && l.start <= i < l.end && i < |Queue(n, s, claims)|
    requires InGraph(adj, Queue(n, s, claims)[i])
    ensures var e := Queue(n, s, claims)[i]; b == Bin(workFactor, |adj[e.src]|, |adj[e.dst]|)
    ensures l.kernel == LaunchPlan.Balanced <==> b < 1024
    ensures l.lanes == Pow2(LaunchPlan.SizeOfBin(b) - 1)
  {
    b := PlaceOfEdge(n, launches, l, i);
    var t := EdgeScatter.QueueIsGrouped(n, s, claims, b, i);
    BinAt(adj, edges, workFactor, t, Queue(n, s, claims)[i]);
  }

  /** The bin of a position, and the kernel and group size of its launch. */
  lemma {:induction false} PlaceOfEdge(n: EdgeScatter.Input, launches: seq<LaunchPlan.Launch>, l: LaunchPlan.Launch,
          i: nat)
    returns (b: nat)
    requires IsBase(n.base, n.bins) && LaunchPlan.ValidPositions(n.base)
    requires LaunchPlan.Tiles(launches, 0, n.base[MAX_BINS]) && LaunchPlan.GoodLaunches(launches, n.base)
    requires l in launches && l.start <= i < l.end
    ensures b < MAX_BINS && n.base[b] <= i < n.base[b + 1]
    ensures l.kernel == LaunchPlan.Balanced <==> b < 1024
    ensures l.lanes == Pow2(LaunchPlan.SizeOfBin(b) - 1)
  {
    var m :| 0 <= m < |launches| && launches[m] == l;
    LaunchPlan.TilesBound(launches, 0, n.base[MAX_BINS]);
    b := BinOfPosition(n.base, n.bins, i, MAX_BINS);
    LaunchPlan.LaunchOfBin(l, n.base, b, i);
  }
}
