/**
 * Triangle counting (hornetsnest/src/Static/TriangleCounting/triangle2.cu, lines 121 and 130-161): the
 * counters, their total, and what the total is when the edges run from smaller to larger vertices.
 */
module TriangleCount {
  import opened AdjacencyRun
  import opened AdjacencyUnions
  import opened EdgeList
  import opened Intersection
  import opened Order
  import opened Sums
  import Partition
  import Permutation

  // ---------------------------------------------------------------------------------------------
  // The counters

  function VertexTotal(adj: Adjacency, edges: seq<Edge>, n: nat): int {
    if n == 0 then 0 else VertexTotal(adj, edges, n - 1) + SumOf(edges, EdgeAdder(adj, n - 1))
  }

  method CountTriangles(adj: Adjacency, edges: seq<Edge>, triPerVertex: array<nat>) returns (sum: nat)
    requires AllInGraph(adj, edges) && triPerVertex.Length == |adj|
    requires forall x :: 0 <= x < |adj| ==> triPerVertex[x] == SumOf(edges, EdgeAdder(adj, x))
    ensures sum == SumOf(edges, WeightOf(adj))
  {
    sum := 0;
    for i := 0 to |adj|
      invariant sum == VertexTotal(adj, edges, i)
    {
      sum := sum + triPerVertex[i];
    }
    TotalOverVertices(adj, edges, |adj|);
  }

  lemma {:induction false} AddEdgeToTotal(adj: Adjacency, edges: seq<Edge>, e: Edge, n: nat)
    requires InGraph(adj, e)
    ensures VertexTotal(adj, edges + [e], n)
         == VertexTotal(adj, edges, n) + if UVertex(adj, e) < n then Weight(adj, e) else 0
  {
    if n > 0 {
      AddEdgeToTotal(adj, edges, e, n - 1);
      assert (edges + [e])[..|edges|] == edges;
    }
  }

  lemma {:induction false} NoEdgesTotal(adj: Adjacency, n: nat)
    ensures VertexTotal(adj, [], n) == 0
  {
    if n > 0 {
      NoEdgesTotal(adj, n - 1);
    }
  }

  /** The sum over the vertices is the sum over the edges. */
  lemma {:induction false} TotalOverVertices(adj: Adjacency, edges: seq<Edge>, n: nat)
    requires AllInGraph(adj, edges) && n == |adj|
    ensures VertexTotal(adj, edges, n) == SumOf(edges, WeightOf(adj))
  {
    if edges == [] {
      NoEdgesTotal(adj, n);
    } else {
      var front, last := edges[..|edges| - 1], edges[|edges| - 1];
      assert edges == front + [last];
      TotalOverVertices(adj, front, n);
      AddEdgeToTotal(adj, front, last, n);
    }
  }

  /** What an edge into x brings to the counter of x: all, if the list of its source is not shorter than that of x. */
  function FromInto(adj: Adjacency, x: int): Edge -> int {
    e =>
      if InGraph(adj, e) && e.dst == x && e.src != x && |adj[e.src]| >= 2 && |adj[e.src]| >= |adj[x]| then
        |Common(adj[e.src], adj[x])|
      else 0
  }

  /** What an edge out of x brings: all, if the list of x is shorter than that of its destination. */
  function FromOutOf(adj: Adjacency, x: int): Edge -> int {
    e =>
      if InGraph(adj, e) && e.src == x && e.dst != x && |adj[x]| >= 2 && |adj[x]| < |adj[e.dst]| then
        |Common(adj[x], adj[e.dst])|
      else 0
  }

  /** The counter of a vertex: an edge goes to the end with the shorter list, and to the destination on a tie. */
  lemma {:induction false} CounterOfVertex(adj: Adjacency, edges: seq<Edge>, x: nat)
    requires AllInGraph(adj, edges) && x < |adj|
    ensures SumOf(edges, EdgeAdder(adj, x)) == SumOf(edges, FromInto(adj, x)) + SumOf(edges, FromOutOf(adj, x))
  {
    if edges != [] {
      CounterOfVertex(adj, edges[..|edges| - 1], x);
      EdgeGoesToShorter(adj, edges[|edges| - 1], x);
    }
  }

  lemma {:induction false} EdgeGoesToShorter(adj: Adjacency, e: Edge, x: nat)
    requires InGraph(adj, e) && x < |adj|
    ensures EdgeAdder(adj, x)(e) == FromInto(adj, x)(e) + FromOutOf(adj, x)(e)
  {
  }

  // ---------------------------------------------------------------------------------------------
  // Triangles of an oriented graph

  /** A symmetric set of edges without self loops. */
  predicate SimpleGraph(g: set<Edge>, nV: nat) {
    && (forall e :: e in g ==> 0 <= e.src < nV && 0 <= e.dst < nV && e.src != e.dst)
    && (forall e :: e in g ==> Edge(e.dst, e.src) in g)
  }

  /** adj lists exactly the edges of g that run forward in the degree order. */
  ghost predicate Orients(adj: Adjacency, g: set<Edge>, deg: seq<nat>) {
    && |adj| == |deg| && SimpleGraph(g, |deg|) && SortedAdjacency(adj)
    && forall x, y :: 0 <= x < |adj| ==>
         (y in adj[x] <==> Edge(x, y) in g && Before(deg, x, y))
  }

  /** Every edge of the lists, each once, in any order. */
  ghost predicate ListsEdges(edges: seq<Edge>, adj: Adjacency) {
    && Permutation.Distinct(edges) && AllInGraph(adj, edges)
    && forall e :: e in edges <==> InGraph(adj, e) && e.dst in adj[e.src]
  }

  predicate IsTriangle(g: set<Edge>, a: int, b: int, c: int) {
    Edge(a, b) in g && Edge(b, c) in g && Edge(a, c) in g
  }

  /** The triangles of an undirected graph, as sets of three vertices. */
  function Triangles(g: set<Edge>, nV: nat): set<set<int>> {
    set a, b, c | 0 <= a < nV && 0 <= b < nV && 0 <= c < nV && IsTriangle(g, a, b, c) :: {a, b, c}
  }

  datatype Triple = Triple(a: int, b: int, c: int)

  /** The edges of a list with a common out-neighbour of their ends. */
  function Wedges(adj: Adjacency, edges: seq<Edge>): set<Triple>
    requires AllInGraph(adj, edges)
  {
    set e, c | e in edges && c in Common(adj[e.src], adj[e.dst]) :: Triple(e.src, e.dst, c)
  }

  /**
   * The kernels skip a source with a single neighbour.  On an edge between different vertices that loses
   * nothing if and only if the source has another neighbour or the destination has no edge to itself.
   */
  lemma {:induction false} SkipIsLossless(adj: Adjacency, e: Edge)
    requires SortedAdjacency(adj) && InGraph(adj, e) && e.dst in adj[e.src] && e.src != e.dst
    ensures Weight(adj, e) == |Common(adj[e.src], adj[e.dst])| <==> |adj[e.src]| >= 2 || e.dst !in adj[e.dst]
  {
    if |adj[e.src]| < 2 {
      assert adj[e.src] == [e.dst];
      assert Common(adj[e.src], adj[e.dst]) == if e.dst in adj[e.dst] then {e.dst} else {};
    }
  }

  /** Two vertices, one with an edge to the other and that one with an edge to itself: the skip loses a neighbour. */
  lemma {:induction false} SkipCanLose()
    ensures var adj, e := [[1], [1]], Edge(0, 1);
      && SortedAdjacency(adj) && InGraph(adj, e) && e.dst in adj[e.src]
      && Weight(adj, e) == 0 && Common(adj[e.src], adj[e.dst]) == {1}
  {
    var adj: Adjacency, e := [[1], [1]], Edge(0, 1);
    assert 1 in adj[0] && adj[0][0] == 1;
    assert Avoided(adj, e);
  }

  /** In an oriented graph, which has no self loops, the skip never loses anything. */
  lemma {:induction false} WeightIsCommon(adj: Adjacency, g: set<Edge>, deg: seq<nat>, e: Edge)
    requires Orients(adj, g, deg) && InGraph(adj, e) && e.dst in adj[e.src]
    ensures Weight(adj, e) == |Common(adj[e.src], adj[e.dst])|
  {
    assert Edge(e.src, e.dst) in g;
    assert e.dst in adj[e.dst] ==> Edge(e.dst, e.dst) in g;
    SkipIsLossless(adj, e);
  }

  /** The wedges over one edge. */
  function WedgesOver(e: Edge, tips: set<int>): set<Triple> {
    set c | c in tips :: Triple(e.src, e.dst, c)
  }

  lemma {:induction false} WedgesOverSize(e: Edge, tips: set<int>)
    ensures |WedgesOver(e, tips)| == |tips|
  {
    if tips != {} {
      var c := Partition.Pick(tips);
      WedgesOverSize(e, tips - {c});
      assert WedgesOver(e, tips) == WedgesOver(e, tips - {c}) + {Triple(e.src, e.dst, c)};
    }
  }

  lemma {:induction false} AddWedges(adj: Adjacency, front: seq<Edge>, last: Edge)
    requires AllInGraph(adj, front) && InGraph(adj, last) && last !in front
    ensures Wedges(adj, front + [last])
         == Wedges(adj, front) + WedgesOver(last, Common(adj[last.src], adj[last.dst]))
    ensures Wedges(adj, front) !! WedgesOver(last, Common(adj[last.src], adj[last.dst]))
  {
    var all, old', new' := Wedges(adj, front + [last]), Wedges(adj, front),
                           WedgesOver(last, Common(adj[last.src], adj[last.dst]));
    forall t | t in new' ensures t in all {
      assert last in front + [last];
    }
    forall t | t in old' ensures t in all && t !in new' {
      var e, c :| e in front && c in Common(adj[e.src], adj[e.dst]) && t == Triple(e.src, e.dst, c);
      assert e in front + [last];
      assert Edge(t.a, t.b) != last;
    }
    forall t | t in all ensures t in old' + new' {
      var e, c :| e in front + [last] && c in Common(adj[e.src], adj[e.dst]) && t == Triple(e.src, e.dst, c);
    }
  }

  lemma {:induction false} LastIsNew(edges: seq<Edge>)
    requires edges != [] && Permutation.Distinct(edges)
    ensures var front, last := edges[..|edges| - 1], edges[|edges| - 1];
      edges == front + [last] && last !in front && Permutation.Distinct(front)
  {
  }

  lemma {:induction false} WeightsCountWedges(adj: Adjacency, g: set<Edge>, deg: seq<nat>, edges: seq<Edge>)
    requires Orients(adj, g, deg) && AllInGraph(adj, edges) && Permutation.Distinct(edges)
    requires forall e :: e in edges ==> e.dst in adj[e.src]
    ensures SumOf(edges, WeightOf(adj)) == |Wedges(adj, edges)|
  {
    if edges != [] {
      var front, last := edges[..|edges| - 1], edges[|edges| - 1];
      LastIsNew(edges);
      assert last in edges;
      WeightsCountWedges(adj, g, deg, front);
      WeightIsCommon(adj, g, deg, last);
      AddWedges(adj, front, last);
      WedgesOverSize(last, Common(adj[last.src], adj[last.dst]));
    }
  }

  lemma {:induction false} InWedges(adj: Adjacency, g: set<Edge>, deg: seq<nat>, edges: seq<Edge>, t: Triple)
    requires Orients(adj, g, deg) && ListsEdges(edges, adj)
    ensures t in Wedges(adj, edges) <==>
      && 0 <= t.a < |deg| && 0 <= t.b < |deg| && 0 <= t.c < |deg|
      && Before(deg, t.a, t.b) && Before(deg, t.b, t.c) && IsTriangle(g, t.a, t.b, t.c)
  {
    if t in Wedges(adj, edges) {
      assert Edge(t.a, t.b) in edges;
    }
    if 0 <= t.a < |deg| && 0 <= t.b < |deg| && 0 <= t.c < |deg|
       && Before(deg, t.a, t.b) && Before(deg, t.b, t.c) && IsTriangle(g, t.a, t.b, t.c) {
      assert Edge(t.a, t.b) in edges;
      assert t.c in Common(adj[t.a], adj[t.b]);
    }
  }

  function Corners(t: Triple): set<int> {
    {t.a, t.b, t.c}
  }

  /** Of three different vertices there is one increasing arrangement. */
  lemma {:induction false} ArrangementIsUnique(deg: seq<nat>, s: Triple, t: Triple)
    requires 0 <= s.a < |deg| && 0 <= s.b < |deg| && 0 <= s.c < |deg|
    requires 0 <= t.a < |deg| && 0 <= t.b < |deg| && 0 <= t.c < |deg|
    requires Before(deg, s.a, s.b) && Before(deg, s.b, s.c)
    requires Before(deg, t.a, t.b) && Before(deg, t.b, t.c)
    requires Corners(s) == Corners(t)
    ensures s == t
  {
    assert s.a in Corners(t) && s.b in Corners(t) && s.c in Corners(t);
    assert t.a in Corners(s) && t.b in Corners(s) && t.c in Corners(s);
  }

  lemma {:induction false} Arrange(g: set<Edge>, deg: seq<nat>, a: int, b: int, c: int) returns (t: Triple)
    requires SimpleGraph(g, |deg|) && IsTriangle(g, a, b, c)
    requires 0 <= a < |deg| && 0 <= b < |deg| && 0 <= c < |deg|
    ensures Corners(t) == {a, b, c} && IsTriangle(g, t.a, t.b, t.c)
    ensures 0 <= t.a < |deg| && 0 <= t.b < |deg| && 0 <= t.c < |deg|
    ensures Before(deg, t.a, t.b) && Before(deg, t.b, t.c)
  {
    assert Edge(b, a) in g && Edge(c, b) in g && Edge(c, a) in g;
    if Before(deg, a, b) {
      t := if Before(deg, b, c) then Triple(a, b, c)
           else if Before(deg, a, c) then Triple(a, c, b) else Triple(c, a, b);
    } else {
      t := if Before(deg, a, c) then Triple(b, a, c)
           else if Before(deg, b, c) then Triple(b, c, a) else Triple(c, b, a);
    }
  }

  function CornerSets(w: set<Triple>): set<set<int>> {
    set t | t in w :: Corners(t)
  }

  lemma {:induction false} CornerSetsSize(w: set<Triple>)
    requires forall s, t :: s in w && t in w && Corners(s) == Corners(t) ==> s == t
    ensures |CornerSets(w)| == |w|
  {
    if w != {} {
      var t :| t in w;
      CornerSetsSize(w - {t});
      assert CornerSets(w) == CornerSets(w - {t}) + {Corners(t)};
      assert Corners(t) !in CornerSets(w - {t});
    }
  }

  /** The total over the edges of a degree-oriented graph is its number of triangles. */
  lemma {:induction false} WeightsCountTriangles(adj: Adjacency, g: set<Edge>, deg: seq<nat>, edges: seq<Edge>)
    requires Orients(adj, g, deg) && ListsEdges(edges, adj)
    ensures SumOf(edges, WeightOf(adj)) == |Triangles(g, |deg|)|
  {
    WeightsCountWedges(adj, g, deg, edges);
    var w := Wedges(adj, edges);
    forall s, t | s in w && t in w && Corners(s) == Corners(t) ensures s == t {
      InWedges(adj, g, deg, edges, s);
      InWedges(adj, g, deg, edges, t);
      ArrangementIsUnique(deg, s, t);
    }
    CornerSetsSize(w);
    WedgesCoverTriangles(adj, g, deg, edges);
  }

  lemma {:induction false} WedgesCoverTriangles(adj: Adjacency, g: set<Edge>, deg: seq<nat>, edges: seq<Edge>)
    requires Orients(adj, g, deg) && ListsEdges(edges, adj)
    ensures CornerSets(Wedges(adj, edges)) == Triangles(g, |deg|)
  {
    var image := CornerSets(Wedges(adj, edges));
    forall s | s in image ensures s in Triangles(g, |deg|) {
      var t :| t in Wedges(adj, edges) && Corners(t) == s;
      InWedges(adj, g, deg, edges, t);
    }
    forall s | s in Triangles(g, |deg|) ensures s in image {
      var a, b, c :| 0 <= a < |deg| && 0 <= b < |deg| && 0 <= c < |deg|
                     && IsTriangle(g, a, b, c) && s == {a, b, c};
      var t := Arrange(g, deg, a, b, c);
      InWedges(adj, g, deg, edges, t);
      assert Corners(t) in image;
    }
  }
}
