/**
 * The labelling order of the Cuthill-McKee relabelling (externals/cub-1.8.0/experimental/sparse_matrix.h,
 * lines 1073-1182): a queue that holds a vertex once per labelled neighbour, and labels given when a vertex
 * is taken out for the first time.  The source leaves out the final reversal.
 */
module Rcm {
  import opened Distance
  import opened Order

  /** One run of the outer loop: the labels first..end were given out starting from `seed`. */
  datatype Component = Component(seed: int, first: int, end: int)

  /**
   * The state inside one run of the outer loop.  `labels` holds -1 for unlabelled vertices; next is the
   * next label.  Ghost knowledge: par[v] is the label of the vertex that v was labelled from, and
   * origin[i] is the label of the vertex that put q[i] into the queue.
   */
  datatype State = State(labels: seq<int>, next: int, q: seq<int>, par: seq<int>, origin: seq<int>)

  predicate Labelled(s: State, v: int)
    requires 0 <= v < |s.labels|
  {
    s.labels[v] != -1
  }

  /** v was labelled in the current run. */
  predicate Inside(s: State, c: Component, v: int)
    requires 0 <= v < |s.labels|
  {
    s.labels[v] >= c.first
  }

  predicate Shape(g: Digraph, deg: seq<nat>, s: State, c: Component) {
    && ValidGraph(g) && |deg| == |g| && |s.labels| == |g| && |s.par| == |g|
    && |s.origin| == |s.q| && (forall i :: 0 <= i < |s.q| ==> 0 <= s.q[i] < |g|)
    && 0 <= c.seed < |g| && 0 <= c.first <= s.next
  }

  /** The labels given out so far: different numbers below next. */
  predicate LabelsOk(s: State) {
    && (forall v :: 0 <= v < |s.labels| ==> -1 <= s.labels[v] < s.next)
    && (forall v, w :: 0 <= v < w < |s.labels| && s.labels[v] != -1 ==> s.labels[v] != s.labels[w])
  }

  predicate HasParent(g: Digraph, s: State, c: Component, v: int, l: int)
    requires |s.labels| == |g|
  {
    exists p :: 0 <= p < |g| && s.labels[p] == l && l >= c.first && v in g[p]
  }

  /** The queue is ordered by the label of the origin, and within one origin by Before. */
  predicate QueueOrdered(g: Digraph, deg: seq<nat>, s: State, c: Component)
    requires Shape(g, deg, s, c)
  {
    && (forall i, j :: 0 <= i < j < |s.q| ==>
          s.origin[i] < s.origin[j] || (s.origin[i] == s.origin[j] && !Before(deg, s.q[j], s.q[i])))
    && (forall i :: 0 <= i < |s.q| ==> c.first - 1 <= s.origin[i] < s.next)
    && (forall i :: 0 <= i < |s.q| ==>
          (s.origin[i] == c.first - 1 && s.q[i] == c.seed) || HasParent(g, s, c, s.q[i], s.origin[i]))
  }

  /** A labelled vertex other than the seed has its parent's label in par, and no neighbour pointing to it
      that was labelled earlier in this run. */
  predicate ParentOk(g: Digraph, s: State, c: Component, v: int)
    requires ValidGraph(g) && |s.labels| == |s.par| == |g| && 0 <= v < |g|
  {
    Inside(s, c, v) && v != c.seed ==>
      && c.first <= s.par[v] < s.labels[v] && HasParent(g, s, c, v, s.par[v])
      && forall p :: 0 <= p < |g| && Inside(s, c, p) && v in g[p] ==> s.par[v] <= s.labels[p]
  }

  /** Labels follow the order of (label of the parent, degree, id). */
  predicate Precedes(deg: seq<nat>, par: seq<int>, u: int, v: int)
    requires |par| == |deg| && 0 <= u < |deg| && 0 <= v < |deg|
  {
    par[u] < par[v] || (par[u] == par[v] && Before(deg, u, v))
  }

  predicate OrderOk(deg: seq<nat>, s: State, c: Component)
    requires |s.labels| == |s.par| == |deg|
  {
    forall u, v ::
      (0 <= u < |deg| && 0 <= v < |deg| && u != c.seed && v != c.seed && c.first <= s.labels[u] < s.labels[v])
      ==> Precedes(deg, s.par, u, v)
  }

  /** What is labelled comes before what is queued. */
  predicate QueueBehind(g: Digraph, deg: seq<nat>, s: State, c: Component)
    requires Shape(g, deg, s, c)
  {
    forall v, j :: 0 <= v < |g| && 0 <= j < |s.q| && Inside(s, c, v) && v != c.seed ==>
      s.par[v] < s.origin[j] || (s.par[v] == s.origin[j] && !Before(deg, s.q[j], v))
  }

  /** A neighbour of a labelled vertex has been dealt with. */
  predicate Settled(s: State, c: Component, p: int, w: int)
    requires |s.par| == |s.labels| && 0 <= p < |s.labels| && 0 <= w < |s.labels|
  {
    s.labels[w] != -1 && (w == c.seed || s.labels[w] < c.first || s.par[w] <= s.labels[p])
  }

  /** ... or waits in the queue. */
  predicate Waits(s: State, p: int, w: int)
    requires |s.origin| == |s.q| && 0 <= p < |s.labels|
  {
    exists i :: 0 <= i < |s.q| && s.q[i] == w && s.origin[i] == s.labels[p]
  }

  predicate NeighboursOk(g: Digraph, deg: seq<nat>, s: State, c: Component)
    requires Shape(g, deg, s, c)
  {
    forall p, w :: 0 <= p < |g| && Inside(s, c, p) && w in g[p] ==> Settled(s, c, p, w) || Waits(s, p, w)
  }

  /** The seed comes first. */
  predicate SeedOk(s: State, c: Component)
    requires 0 <= c.seed < |s.labels|
  {
    if s.next == c.first then s.labels[c.seed] == -1 && s.q == [c.seed] && s.origin == [c.first - 1]
    else s.labels[c.seed] == c.first
  }

  ghost predicate Inv(g: Digraph, deg: seq<nat>, s: State, c: Component) {
    && Shape(g, deg, s, c) && LabelsOk(s) && SeedOk(s, c)
    && QueueOrdered(g, deg, s, c) && QueueBehind(g, deg, s, c) && NeighboursOk(g, deg, s, c)
    && (forall v :: 0 <= v < |g| ==> ParentOk(g, s, c, v))
    && OrderOk(deg, s, c)
  }

  // ---------------------------------------------------------------------------------------------
  // Taking a labelled vertex out of the queue

  function Skip(s: State): State
    requires s.q != [] && |s.origin| == |s.q|
  {
    s.(q := s.q[1..], origin := s.origin[1..])
  }

  lemma {:induction false} SkipKeepsInv(g: Digraph, deg: seq<nat>, s: State, c: Component)
    requires Inv(g, deg, s, c) && s.q != [] && Labelled(s, s.q[0])
    ensures Inv(g, deg, Skip(s), c)
  {
    var t := Skip(s);
    forall p, w | 0 <= p < |g| && Inside(t, c, p) && w in g[p] ensures Settled(t, c, p, w) || Waits(t, p, w) {
      SkipKeepsNeighbour(g, deg, s, c, p, w);
    }
    forall v | 0 <= v < |g| ensures ParentOk(g, t, c, v) {
      assert ParentOk(g, s, c, v);
      if Inside(t, c, v) && v != c.seed {
        ParentStays(g, s, t, c, v, s.par[v]);
      }
    }
    SkipKeepsQueue(g, deg, s, c);
  }

  lemma {:induction false} ParentStays(g: Digraph, s: State, t: State, c: Component, v: int, l: int)
    requires |s.labels| == |t.labels| == |g| && HasParent(g, s, c, v, l) && 0 <= c.first
    requires forall p :: 0 <= p < |g| && s.labels[p] != -1 ==> t.labels[p] == s.labels[p]
    ensures HasParent(g, t, c, v, l)
  {
    var p :| 0 <= p < |g| && s.labels[p] == l && l >= c.first && v in g[p];
    assert t.labels[p] == l;
  }

  lemma {:induction false} SkipKeepsQueue(g: Digraph, deg: seq<nat>, s: State, c: Component)
    requires Inv(g, deg, s, c) && s.q != [] && Labelled(s, s.q[0])
    ensures Shape(g, deg, Skip(s), c) && QueueOrdered(g, deg, Skip(s), c) && QueueBehind(g, deg, Skip(s), c)
  {
    var t := Skip(s);
    forall i | 0 <= i < |t.q|
      ensures (t.origin[i] == c.first - 1 && t.q[i] == c.seed) || HasParent(g, t, c, t.q[i], t.origin[i])
    {
      assert t.q[i] == s.q[i + 1] && t.origin[i] == s.origin[i + 1];
      if HasParent(g, s, c, s.q[i + 1], s.origin[i + 1]) {
        ParentStays(g, s, t, c, t.q[i], t.origin[i]);
      }
    }
  }

  lemma {:induction false} FrontIsSettled(g: Digraph, deg: seq<nat>, s: State, c: Component, p: int)
    requires Inv(g, deg, s, c) && s.q != [] && Labelled(s, s.q[0])
    requires 0 <= p < |g| && s.origin[0] == s.labels[p]
    ensures Settled(s, c, p, s.q[0])
  {
  }

  lemma {:induction false} SkipKeepsNeighbour(g: Digraph, deg: seq<nat>, s: State, c: Component, p: int, w: int)
    requires Inv(g, deg, s, c) && s.q != [] && Labelled(s, s.q[0])
    requires 0 <= p < |g| && Inside(s, c, p) && w in g[p]
    ensures Settled(Skip(s), c, p, w) || Waits(Skip(s), p, w)
  {
    if Waits(s, p, w) {
      var i :| 0 <= i < |s.q| && s.q[i] == w && s.origin[i] == s.labels[p];
      if i > 0 {
        assert Skip(s).q[i - 1] == w && Skip(s).origin[i - 1] == s.labels[p];
      } else {
        FrontIsSettled(g, deg, s, c, p);
      }
    }
  }

  // ---------------------------------------------------------------------------------------------
  // Labelling the vertex at the front

  /** The row of the vertex in the order in which it is appended to the queue. */
  predicate SortedRow(deg: seq<nat>, row: seq<int>) {
    && (forall i :: 0 <= i < |row| ==> 0 <= row[i] < |deg|)
    && forall i, j :: 0 <= i < j < |row| ==> !Before(deg, row[j], row[i])
  }

  function Take(s: State, row: seq<int>): (t: State)
    requires s.q != [] && |s.origin| == |s.q| && |s.par| == |s.labels| && 0 <= s.q[0] < |s.labels|
  {
    var v := s.q[0];
    State(s.labels[v := s.next], s.next + 1, s.q[1..] + row, s.par[v := s.origin[0]],
          s.origin[1..] + seq(|row|, _ => s.next))
  }

  /** The vertex at the front is new, and `row` is its sorted row. */
  ghost predicate CanTake(g: Digraph, deg: seq<nat>, s: State, c: Component, row: seq<int>) {
    && Inv(g, deg, s, c) && s.q != [] && !Labelled(s, s.q[0])
    && SortedRow(deg, row) && forall w :: w in row <==> w in g[s.q[0]]
  }

  lemma {:induction false} TakeKeepsLabels(g: Digraph, deg: seq<nat>, s: State, c: Component, row: seq<int>)
    requires CanTake(g, deg, s, c, row)
    ensures Shape(g, deg, Take(s, row), c) && LabelsOk(Take(s, row)) && SeedOk(Take(s, row), c)
  {
    var t := Take(s, row);
    forall i | 0 <= i < |t.q| ensures 0 <= t.q[i] < |g| {
      if i < |s.q| - 1 {
        assert t.q[i] == s.q[i + 1];
      } else {
        assert t.q[i] == row[i - (|s.q| - 1)];
      }
    }
  }

  /** The entries of the new queue: the old ones, then the row. */
  lemma {:induction false} TakeEntry(s: State, row: seq<int>, i: int)
    requires s.q != [] && |s.origin| == |s.q| && |s.par| == |s.labels| && 0 <= s.q[0] < |s.labels|
    requires 0 <= i < |Take(s, row).q|
    ensures var t := Take(s, row);
            |t.q| == |t.origin| == |s.q| - 1 + |row|
            && if i < |s.q| - 1 then t.q[i] == s.q[i + 1] && t.origin[i] == s.origin[i + 1]
               else t.q[i] == row[i - (|s.q| - 1)] && t.origin[i] == s.next
  {
  }

  lemma {:induction false} TakeKeepsOrder(g: Digraph, deg: seq<nat>, s: State, c: Component, row: seq<int>)
    requires CanTake(g, deg, s, c, row)
    ensures Shape(g, deg, Take(s, row), c) && QueueOrdered(g, deg, Take(s, row), c)
  {
    TakeKeepsLabels(g, deg, s, c, row);
    var t := Take(s, row);
    forall i | 0 <= i < |t.q|
      ensures c.first - 1 <= t.origin[i] < t.next
      ensures (t.origin[i] == c.first - 1 && t.q[i] == c.seed) || HasParent(g, t, c, t.q[i], t.origin[i])
    {
      TakeEntry(s, row, i);
      if i < |s.q| - 1 {
        if HasParent(g, s, c, s.q[i + 1], s.origin[i + 1]) {
          ParentStays(g, s, t, c, t.q[i], t.origin[i]);
        }
      } else {
        assert t.labels[s.q[0]] == t.origin[i] && t.q[i] in g[s.q[0]];
      }
    }
    forall i, j | 0 <= i < j < |t.q|
      ensures t.origin[i] < t.origin[j] || (t.origin[i] == t.origin[j] && !Before(deg, t.q[j], t.q[i]))
    {
      TakeEntry(s, row, i);
      TakeEntry(s, row, j);
    }
  }

  lemma {:induction false} TakeKeepsEntryBehind(g: Digraph, deg: seq<nat>, s: State, c: Component, row: seq<int>,
          u: int, j: int)
    requires CanTake(g, deg, s, c, row) && Shape(g, deg, Take(s, row), c)
    requires 0 <= u < |g| && 0 <= j < |Take(s, row).q| && Inside(Take(s, row), c, u) && u != c.seed
    ensures var t := Take(s, row);
            t.par[u] < t.origin[j] || (t.par[u] == t.origin[j] && !Before(deg, t.q[j], u))
  {
    TakeEntry(s, row, j);
    if u != s.q[0] {
      assert ParentOk(g, s, c, u);
    }
  }

  lemma {:induction false} TakeKeepsBehind(g: Digraph, deg: seq<nat>, s: State, c: Component, row: seq<int>)
    requires CanTake(g, deg, s, c, row)
    ensures Shape(g, deg, Take(s, row), c) && QueueBehind(g, deg, Take(s, row), c)
  {
    TakeKeepsLabels(g, deg, s, c, row);
    var t := Take(s, row);
    forall u, j | 0 <= u < |g| && 0 <= j < |t.q| && Inside(t, c, u) && u != c.seed
      ensures t.par[u] < t.origin[j] || (t.par[u] == t.origin[j] && !Before(deg, t.q[j], u))
    {
      TakeKeepsEntryBehind(g, deg, s, c, row, u, j);
    }
  }

  lemma {:induction false} TakeKeepsNeighbour(g: Digraph, deg: seq<nat>, s: State, c: Component, row: seq<int>,
          p: int, w: int)
    requires CanTake(g, deg, s, c, row) && Shape(g, deg, Take(s, row), c)
    requires 0 <= p < |g| && Inside(Take(s, row), c, p) && w in g[p]
    ensures Settled(Take(s, row), c, p, w) || Waits(Take(s, row), p, w)
  {
    var t := Take(s, row);
    if p == s.q[0] {
      var k :| 0 <= k < |row| && row[k] == w;
      TakeEntry(s, row, |s.q| - 1 + k);
    } else if !Settled(s, c, p, w) {
      var i :| 0 <= i < |s.q| && s.q[i] == w && s.origin[i] == s.labels[p];
      if i > 0 {
        TakeEntry(s, row, i - 1);
      }
    }
  }

  /** The new vertex: the front entry has the smallest origin among all entries for it. */
  lemma {:induction false} TakenParent(g: Digraph, deg: seq<nat>, s: State, c: Component, row: seq<int>)
    requires CanTake(g, deg, s, c, row)
    ensures |Take(s, row).par| == |Take(s, row).labels| == |g| && ParentOk(g, Take(s, row), c, s.q[0])
  {
    var t, v := Take(s, row), s.q[0];
    if v != c.seed {
      ParentStays(g, s, t, c, v, s.origin[0]);
      forall p | 0 <= p < |g| && Inside(t, c, p) && v in g[p] ensures t.par[v] <= t.labels[p] {
        if p != v {
          assert !Settled(s, c, p, v);
          var i :| 0 <= i < |s.q| && s.q[i] == v && s.origin[i] == s.labels[p];
        }
      }
    }
  }

  lemma {:induction false} OtherParent(g: Digraph, deg: seq<nat>, s: State, c: Component, row: seq<int>, u: int)
    requires CanTake(g, deg, s, c, row) && 0 <= u < |g| && u != s.q[0]
    ensures |Take(s, row).par| == |Take(s, row).labels| == |g| && ParentOk(g, Take(s, row), c, u)
  {
    var t := Take(s, row);
    assert ParentOk(g, s, c, u);
    if Inside(t, c, u) && u != c.seed {
      ParentStays(g, s, t, c, u, s.par[u]);
    }
  }

  lemma {:induction false} TakeKeepsOrderOk(g: Digraph, deg: seq<nat>, s: State, c: Component, row: seq<int>)
    requires CanTake(g, deg, s, c, row)
    ensures |Take(s, row).par| == |Take(s, row).labels| == |deg| && OrderOk(deg, Take(s, row), c)
  {
    var t, n := Take(s, row), s.q[0];
    forall u, v | 0 <= u < |deg| && 0 <= v < |deg| && u != c.seed && v != c.seed
                  && c.first <= t.labels[u] < t.labels[v]
      ensures Precedes(deg, t.par, u, v)
    {
      if v == n {
        assert Inside(s, c, u);
      } else {
        assert u != n;
        assert Precedes(deg, s.par, u, v);
      }
    }
  }

  lemma {:induction false} TakeKeepsInv(g: Digraph, deg: seq<nat>, s: State, c: Component, row: seq<int>)
    requires CanTake(g, deg, s, c, row)
    ensures Inv(g, deg, Take(s, row), c)
  {
    var t := Take(s, row);
    TakeKeepsLabels(g, deg, s, c, row);
    TakeKeepsOrder(g, deg, s, c, row);
    TakeKeepsBehind(g, deg, s, c, row);
    TakeKeepsOrderOk(g, deg, s, c, row);
    forall p, w | 0 <= p < |g| && Inside(t, c, p) && w in g[p] ensures Settled(t, c, p, w) || Waits(t, p, w) {
      TakeKeepsNeighbour(g, deg, s, c, row, p, w);
    }
    forall u | 0 <= u < |g| ensures ParentOk(g, t, c, u) {
      if u == s.q[0] {
        TakenParent(g, deg, s, c, row);
      } else {
        OtherParent(g, deg, s, c, row, u);
      }
    }
  }
}
