/**
 * Breadth-first search over compressed rows (xlib/test/GraphExpTest/graph.cpp, lines 36-56), with a ring
 * queue as large as the graph.
 */
module Bfs {
  import opened Distance
  import opened MatrixLayout
  import opened RingQueue
  import Partition
  import Permutation

  /** Marks, distances, the queue, and everything that was ever inserted. */
  datatype State = State(mark: seq<bool>, dist: seq<int>, q: seq<int>, inserted: seq<int>)

  predicate Shape(g: Digraph, s: State) {
    && ValidGraph(g) && |g| > 0 && |s.mark| == |g| && |s.dist| == |g|
    && s.mark[0] && s.dist[0] == 0
  }

  /** The queue is what was inserted last, and no vertex is inserted twice. */
  predicate QueueOk(g: Digraph, s: State)
    requires Shape(g, s)
  {
    && |s.q| <= |s.inserted| && s.q == s.inserted[|s.inserted| - |s.q|..]
    && Permutation.Distinct(s.inserted)
    && (forall i :: 0 <= i < |s.inserted| ==> 0 <= s.inserted[i] < |g| && s.mark[s.inserted[i]])
    && forall v :: 0 <= v < |g| && s.mark[v] ==> v in s.inserted
  }

  /** Marked vertices are reached by a walk of their distance. */
  ghost predicate WalksOk(g: Digraph, s: State)
    requires Shape(g, s)
  {
    forall v :: 0 <= v < |g| && s.mark[v] ==> s.dist[v] >= 0 && Within(g, 0, v, s.dist[v])
  }

  /** The queue holds level `level` and then the next one; nothing is marked beyond that. */
  predicate Levels(g: Digraph, s: State, level: int)
    requires Shape(g, s)
  {
    && (forall v :: 0 <= v < |g| && s.mark[v] ==> s.dist[v] <= level + 1)
    && (forall i :: 0 <= i < |s.q| ==> 0 <= s.q[i] < |g| && level <= s.dist[s.q[i]] <= level + 1)
    && forall i, j :: 0 <= i < j < |s.q| ==> s.dist[s.q[i]] <= s.dist[s.q[j]]
  }

  /** An edge out of v that has been looked at. */
  predicate Seen(s: State, v: int, w: int)
    requires |s.mark| == |s.dist| && 0 <= v < |s.dist|
  {
    0 <= w < |s.mark| && s.mark[w] && s.dist[w] <= s.dist[v] + 1
  }

  /** Every marked vertex is in the queue, or is the current one, or all its edges have been looked at. */
  predicate Expanded(g: Digraph, s: State, current: int)
    requires Shape(g, s)
  {
    forall v :: 0 <= v < |g| && s.mark[v] && v !in s.q && v != current ==> forall w :: w in g[v] ==> Seen(s, v, w)
  }

  ghost predicate Inv(g: Digraph, s: State, level: int, current: int) {
    Shape(g, s) && QueueOk(g, s) && WalksOk(g, s) && Levels(g, s, level) && Expanded(g, s, current)
  }

  function Dequeue(s: State): State
    requires s.q != []
  {
    s.(q := s.q[1..])
  }

  lemma {:induction false} DequeueKeepsQueue(g: Digraph, s: State)
    requires Shape(g, s) && QueueOk(g, s) && s.q != []
    ensures Shape(g, Dequeue(s)) && QueueOk(g, Dequeue(s))
    ensures 0 <= s.q[0] < |g| && s.mark[s.q[0]]
  {
    assert s.inserted[|s.inserted| - |s.q|] == s.q[0];
  }

  /** Nothing is marked beyond the level behind the front. */
  lemma {:induction false} FrontIsLowest(g: Digraph, s: State, level: int, v: int)
    requires Shape(g, s) && Levels(g, s, level) && s.q != [] && 0 <= v < |g| && s.mark[v]
    ensures 0 <= s.q[0] < |g| && level <= s.dist[s.q[0]] && s.dist[v] <= s.dist[s.q[0]] + 1
  {
  }

  lemma {:induction false} DequeueKeepsLevels(g: Digraph, s: State, level: int)
    requires Shape(g, s) && Levels(g, s, level) && s.q != []
    ensures 0 <= s.q[0] < |g| && Shape(g, Dequeue(s)) && Levels(g, Dequeue(s), s.dist[s.q[0]])
  {
    var t := Dequeue(s);
    forall v | 0 <= v < |g| && s.mark[v] ensures s.dist[v] <= s.dist[s.q[0]] + 1 {
      FrontIsLowest(g, s, level, v);
    }
    forall i | 0 <= i < |t.q| ensures 0 <= t.q[i] < |g| && s.dist[s.q[0]] <= t.dist[t.q[i]] <= s.dist[s.q[0]] + 1 {
      assert t.q[i] == s.q[i + 1];
    }
  }

  lemma {:induction false} DequeueKeepsExpanded(g: Digraph, s: State, level: int)
    requires Inv(g, s, level, -1) && s.q != []
    ensures Shape(g, Dequeue(s)) && Expanded(g, Dequeue(s), s.q[0])
  {
    var t, u := Dequeue(s), s.q[0];
    forall v | 0 <= v < |g| && t.mark[v] && v !in t.q && v != u ensures forall w :: w in g[v] ==> Seen(t, v, w) {
      assert s.q == [u] + t.q;
      assert v !in s.q;
      forall w | w in g[v] ensures Seen(t, v, w) {
        assert Seen(s, v, w);
      }
    }
  }

  lemma {:induction false} DequeueKeepsInv(g: Digraph, s: State, level: int)
    requires Inv(g, s, level, -1) && s.q != []
    ensures 0 <= s.q[0] < |g| && s.mark[s.q[0]]
    ensures Inv(g, Dequeue(s), s.dist[s.q[0]], s.q[0])
  {
    DequeueKeepsQueue(g, s);
    DequeueKeepsLevels(g, s, level);
    DequeueKeepsExpanded(g, s, level);
  }

  function Visit(s: State, u: int, w: int): State
    requires 0 <= u < |s.dist| && 0 <= w < |s.mark| == |s.dist|
  {
    if s.mark[w] then s
    else State(s.mark[w := true], s.dist[w := s.dist[u] + 1], s.q + [w], s.inserted + [w])
  }

  lemma {:induction false} VisitKeepsExpanded(g: Digraph, s: State, u: int, w: int)
    requires 0 <= u < |g| == |s.dist| == |s.mark|
    requires Inv(g, s, s.dist[u], u) && s.mark[u] && w in g[u]
    ensures 0 <= w < |g| && Shape(g, Visit(s, u, w)) && Expanded(g, Visit(s, u, w), u)
  {
    var t := Visit(s, u, w);
    forall v | 0 <= v < |g| && t.mark[v] && v !in t.q && v != u ensures forall x :: x in g[v] ==> Seen(t, v, x) {
      assert s.mark[v] && v !in s.q;
      forall x | x in g[v] ensures Seen(t, v, x) {
        assert Seen(s, v, x);
      }
    }
  }

  lemma {:induction false} VisitKeepsQueue(g: Digraph, s: State, u: int, w: int)
    requires 0 <= u < |g| == |s.dist| == |s.mark|
    requires Inv(g, s, s.dist[u], u) && s.mark[u] && w in g[u]
    ensures 0 <= w < |g| && Shape(g, Visit(s, u, w)) && QueueOk(g, Visit(s, u, w))
  {
    var t := Visit(s, u, w);
    if !s.mark[w] {
      assert w !in s.inserted;
      forall v | 0 <= v < |g| && t.mark[v] ensures v in t.inserted {
        if v == w {
          assert t.inserted[|s.inserted|] == w;
        } else {
          assert v in s.inserted;
        }
      }
    }
  }

  lemma {:induction false} VisitKeepsWalks(g: Digraph, s: State, u: int, w: int)
    requires 0 <= u < |g| == |s.dist| == |s.mark|
    requires Inv(g, s, s.dist[u], u) && s.mark[u] && w in g[u]
    ensures 0 <= w < |g| && Shape(g, Visit(s, u, w)) && WalksOk(g, Visit(s, u, w))
  {
    WithinStep(g, 0, u, w, s.dist[u]);
  }

  lemma {:induction false} QueueIsMarked(g: Digraph, s: State, i: int)
    requires Shape(g, s) && QueueOk(g, s) && 0 <= i < |s.q|
    ensures 0 <= s.q[i] < |g| && s.mark[s.q[i]]
  {
    assert s.q[i] == s.inserted[|s.inserted| - |s.q| + i];
  }

  lemma {:induction false} VisitKeepsLevels(g: Digraph, s: State, u: int, w: int)
    requires 0 <= u < |g| == |s.dist| == |s.mark|
    requires Inv(g, s, s.dist[u], u) && s.mark[u] && w in g[u]
    ensures 0 <= w < |g| && Shape(g, Visit(s, u, w)) && Levels(g, Visit(s, u, w), s.dist[u])
  {
    forall i | 0 <= i < |s.q| ensures 0 <= s.q[i] < |g| && s.mark[s.q[i]] {
      QueueIsMarked(g, s, i);
    }
  }

  lemma {:induction false} VisitKeepsInv(g: Digraph, s: State, u: int, w: int)
    requires 0 <= u < |g| == |s.dist| == |s.mark|
    requires Inv(g, s, s.dist[u], u) && s.mark[u] && w in g[u]
    ensures 0 <= w < |g|
    ensures Inv(g, Visit(s, u, w), s.dist[u], u) && Visit(s, u, w).mark[u]
    ensures Visit(s, u, w).dist[u] == s.dist[u] && Seen(Visit(s, u, w), u, w)
    ensures forall x :: Seen(s, u, x) ==> Seen(Visit(s, u, w), u, x)
  {
    VisitKeepsExpanded(g, s, u, w);
    VisitKeepsQueue(g, s, u, w);
    VisitKeepsWalks(g, s, u, w);
    VisitKeepsLevels(g, s, u, w);
  }

  /** There is room in the queue for a vertex that is not marked yet. */
  lemma {:induction false} RoomForVertex(g: Digraph, s: State, w: int)
    requires Shape(g, s) && QueueOk(g, s) && 0 <= w < |g| && !s.mark[w]
    ensures |s.q| < |g|
  {
    var all := s.inserted + [w];
    assert w !in s.inserted;
    DistinctVertices(all, |g|);
  }

  lemma {:induction false} DistinctVertices(s: seq<int>, n: nat)
    requires Permutation.Distinct(s) && forall i :: 0 <= i < |s| ==> 0 <= s[i] < n
    ensures |s| <= n
  {
    Permutation.DistinctSize(s);
    assert Permutation.Elements(s) <= Vertices(n);
    Partition.SubsetSize(Permutation.Elements(s), Vertices(n));
  }

  function Vertices(n: nat): (r: set<int>)
    ensures (forall i :: i in r <==> 0 <= i < n) && |r| == n
  {
    if n == 0 then {} else Vertices(n - 1) + {n - 1}
  }

  lemma {:induction false} InsertedFits(g: Digraph, s: State)
    requires Shape(g, s) && QueueOk(g, s)
    ensures |s.inserted| <= |g|
  {
    DistinctVertices(s.inserted, |g|);
  }

  /** The current vertex is done. */
  lemma {:induction false} FinishVertex(g: Digraph, s: State, u: int)
    requires 0 <= u < |g| == |s.dist| == |s.mark|
    requires Inv(g, s, s.dist[u], u) && s.mark[u] && forall w :: w in g[u] ==> Seen(s, u, w)
    ensures Inv(g, s, if s.q == [] then s.dist[u] else s.dist[s.q[0]], -1)
  {
  }

  /** With an empty queue every walk ends at a marked vertex of no larger distance. */
  lemma {:induction false} WalksAreMarked(g: Digraph, s: State, level: int, v: int, k: nat)
    requires Inv(g, s, level, -1) && s.q == [] && Within(g, 0, v, k)
    ensures s.mark[v] && s.dist[v] <= k
    decreases k
  {
    if k > 0 {
      if Within(g, 0, v, k - 1) {
        WalksAreMarked(g, s, level, v, k - 1);
      } else {
        var u :| 0 <= u < |g| && Within(g, 0, u, k - 1) && v in g[u];
        WalksAreMarked(g, s, level, u, k - 1);
        assert Seen(s, u, v);
      }
    }
  }

  /** The search marks exactly what 0 reaches, with the length of a shortest walk. */
  lemma {:induction false} SearchIsExact(g: Digraph, s: State, level: int, v: int)
    requires Inv(g, s, level, -1) && s.q == [] && 0 <= v < |g|
    ensures s.mark[v] <==> Reachable(g, 0, v)
    ensures s.mark[v] ==> s.dist[v] >= 0 && IsDistance(g, 0, v, s.dist[v])
  {
    if s.mark[v] {
      forall k: nat | Within(g, 0, v, k) ensures s.dist[v] <= k {
        WalksAreMarked(g, s, level, v, k);
      }
    }
    if k: nat :| Within(g, 0, v, k) {
      WalksAreMarked(g, s, level, v, k);
    }
  }

  // ---------------------------------------------------------------------------------------------
  // The search

  /** The arrays and the queue hold the state. */
  ghost predicate Holds(s: State, bitmask: array<bool>, distance: array<int>, queue: RingQueue<int>)
    reads bitmask, distance, queue, queue.slots
  {
    queue.Valid() && s.mark == bitmask[..] && s.dist == distance[..] && s.q == queue.Contents()
  }

  /** The first k edges of the row have been looked at. */
  predicate RowSeen(s: State, i: int, row: seq<int>, k: int)
    requires |s.mark| == |s.dist| && 0 <= i < |s.dist| && 0 <= k <= |row|
  {
    forall j :: 0 <= j < k ==> Seen(s, i, row[j])
  }

  lemma {:induction false} SeenNext(s: State, i: int, row: seq<int>, k: int)
    requires |s.mark| == |s.dist| && 0 <= i < |s.dist| && 0 <= k < |row| && RowSeen(s, i, row, k)
    requires 0 <= row[k] < |s.mark| && s.mark[i]
    requires Seen(Visit(s, i, row[k]), i, row[k])
    ensures RowSeen(Visit(s, i, row[k]), i, row, k + 1)
  {
  }

  /** One edge from i to dest. */
  method VisitEdge(bitmask: array<bool>, distance: array<int>, queue: RingQueue<int>, i: int, dest: int,
                   ghost g: Digraph, ghost s: State)
    requires queue.slots.Length == |g| && distance != queue.slots
    requires Holds(s, bitmask, distance, queue) && Shape(g, s) && QueueOk(g, s)
    requires 0 <= i < |g| && 0 <= dest < |g|
    modifies bitmask, distance, queue, queue.slots
    ensures Holds(Visit(s, i, dest), bitmask, distance, queue)
  {
    if !bitmask[dest] {
      RoomForVertex(g, s, dest);
      bitmask[dest] := true;
      distance[dest] := distance[i] + 1;
      queue.Insert(dest);
    }
  }

  /** The loop over the edges of one vertex. */
  method ExpandVertex(offsets: array<nat>, edges: array<int>, bitmask: array<bool>, distance: array<int>,
                      queue: RingQueue<int>, i: int, ghost g: Digraph, ghost s0: State)
    returns (ghost s: State)
    requires offsets.Length > 0 && WellFormed(offsets[..], edges[..], offsets.Length - 1)
    requires g == Pattern(offsets[..], edges[..], offsets.Length - 1) && queue.slots.Length == |g|
    requires edges != distance && edges != queue.slots && distance != queue.slots
    requires Holds(s0, bitmask, distance, queue)
    requires 0 <= i < |g| == |s0.dist| == |s0.mark| && s0.mark[i] && Inv(g, s0, s0.dist[i], i)
    modifies bitmask, distance, queue, queue.slots
    ensures Holds(s, bitmask, distance, queue)
    ensures |s.mark| == |s.dist| == |g| && s.mark[i] && Inv(g, s, s.dist[i], i)
    ensures forall w :: w in g[i] ==> Seen(s, i, w)
    ensures |s.inserted| - |s.q| == |s0.inserted| - |s0.q|
    ensures offsets[..] == old(offsets[..]) && edges[..] == old(edges[..])
  {
    s := s0;
    ghost var off, row := offsets[..], Slice(offsets[..], edges[..], i);
    assert off[i + 1] <= off[|off| - 1];
    for j := offsets[i] to offsets[i + 1]
      invariant offsets[..] == off && edges[..] == old(edges[..])
      invariant Holds(s, bitmask, distance, queue)
      invariant |s.mark| == |s.dist| == |g| && s.mark[i] && Inv(g, s, s.dist[i], i)
      invariant RowSeen(s, i, row, j - off[i])
      invariant |s.inserted| - |s.q| == |s0.inserted| - |s0.q|
    {
      var dest := edges[j];
      assert row[j - off[i]] == dest;
      assert dest in g[i];
      VisitKeepsInv(g, s, i, dest);
      SeenNext(s, i, row, j - off[i]);
      VisitEdge(bitmask, distance, queue, i, dest, g, s);
      s := Visit(s, i, dest);
    }
  }

  /** The state once vertex 0 is in the queue. */
  function InitialState(n: nat, dist: seq<int>): State
    requires n > 0 && |dist| == n
  {
    State(seq(n, v => v == 0), dist[0 := 0], [0], [0])
  }

  lemma {:induction false} InitialKeepsInv(g: Digraph, dist: seq<int>)
    requires ValidGraph(g) && |g| > 0 && |dist| == |g|
    ensures Inv(g, InitialState(|g|, dist), 0, -1)
  {
  }

  /** One round of the search: take the oldest vertex out of the queue and look at its edges. */
  method ProcessNext(offsets: array<nat>, edges: array<int>, bitmask: array<bool>, distance: array<int>,
                     queue: RingQueue<int>, ghost g: Digraph, ghost s0: State, ghost level0: int)
    returns (ghost s: State, ghost level: int)
    requires offsets.Length > 0 && WellFormed(offsets[..], edges[..], offsets.Length - 1)
    requires g == Pattern(offsets[..], edges[..], offsets.Length - 1) && queue.slots.Length == |g|
    requires edges != distance && edges != queue.slots && distance != queue.slots
    requires Holds(s0, bitmask, distance, queue) && Inv(g, s0, level0, -1) && s0.q != []
    modifies bitmask, distance, queue, queue.slots
    ensures Holds(s, bitmask, distance, queue) && Inv(g, s, level, -1)
    ensures |s.inserted| - |s.q| == |s0.inserted| - |s0.q| + 1
    ensures offsets[..] == old(offsets[..]) && edges[..] == old(edges[..])
  {
    DequeueKeepsInv(g, s0, level0);
    var i := queue.Extract();
    s := ExpandVertex(offsets, edges, bitmask, distance, queue, i, g, Dequeue(s0));
    FinishVertex(g, s, i);
    level := if s.q == [] then s.dist[i] else s.dist[s.q[0]];
  }

  /** The arrays with vertex 0 marked and queued. */
  method Start(nV: nat)
    returns (bitmask: array<bool>, distance: array<int>, queue: RingQueue<int>, ghost dist: seq<int>)
    requires nV > 0
    ensures fresh(bitmask) && fresh(distance) && fresh(queue) && fresh(queue.slots)
    ensures bitmask.Length == nV && distance.Length == nV && queue.slots.Length == nV && distance != queue.slots
    ensures |dist| == nV && Holds(InitialState(nV, dist), bitmask, distance, queue)
  {
    bitmask := new bool[nV](_ => false);
    queue := new RingQueue<int>(nV);
    distance := new int[nV](_ => 0);
    queue.Insert(0);
    bitmask[0] := true;
    distance[0] := 0;
    dist := distance[..];
  }

  /**
   * The search from vertex 0: it marks exactly the reachable vertices with their distances, inserts every
   * vertex at most once, and so never overruns a queue of the size of the graph.
   */
  method Search(offsets: array<nat>, edges: array<int>, nV: nat)
    returns (bitmask: array<bool>, distance: array<int>, ghost inserted: seq<int>)
    requires nV > 0 && offsets.Length == nV + 1 && WellFormed(offsets[..], edges[..], nV)
    ensures bitmask.Length == nV && distance.Length == nV
    ensures forall v :: 0 <= v < nV ==>
              (bitmask[v] <==> Reachable(Pattern(offsets[..], edges[..], nV), 0, v))
    ensures forall v :: 0 <= v < nV && bitmask[v] ==>
              distance[v] >= 0 && IsDistance(Pattern(offsets[..], edges[..], nV), 0, v, distance[v])
    ensures Permutation.Distinct(inserted) && forall v :: v in inserted <==> 0 <= v < nV && bitmask[v]
  {
    ghost var off, cols := offsets[..], edges[..];
    ghost var g := Pattern(off, cols, nV);
    PatternIsValid(off, cols, nV);
    var queue;
    ghost var dist;
    bitmask, distance, queue, dist := Start(nV);
    ghost var s := InitialState(nV, dist);
    InitialKeepsInv(g, dist);
    ghost var level := 0;
    var empty := queue.IsEmpty();
    while !empty
      invariant fresh(bitmask) && fresh(distance) && fresh(queue) && fresh(queue.slots)
      invariant queue.slots.Length == nV && Holds(s, bitmask, distance, queue)
      invariant offsets[..] == off && edges[..] == cols
      invariant Inv(g, s, level, -1) && (empty <==> s.q == [])
      decreases nV - (|s.inserted| - |s.q|)
    {
      s, level := ProcessNext(offsets, edges, bitmask, distance, queue, g, s, level);
      InsertedFits(g, s);
      empty := queue.IsEmpty();
    }
    inserted := s.inserted;
    forall v | 0 <= v < nV
      ensures bitmask[v] <==> Reachable(g, 0, v)
      ensures bitmask[v] ==> distance[v] >= 0 && IsDistance(g, 0, v, distance[v])
    {
      SearchIsExact(g, s, level, v);
    }
  }
}
