/**
 * What the conversion promises about the graph (xlib/src/Graph/GraphStd.cpp, lines 175-206 and 247-304):
 * undirected graphs are symmetric, and the degree orientation is acyclic, keeps one direction of every
 * edge, and leaves no vertex with more out-edges than the square root of the number of edges.
 */
module DegreeOrientation {
  import opened CooToCsr
  import opened CsrRows
  import opened EdgeList
  import opened GraphStd
  import opened Order
  import Partition
  import Permutation

  // ---------------------------------------------------------------------------------------------
  // Directed to undirected

  /** After mirroring an edge is there exactly if one of its directions was read; the removal of duplicates sorts. */
  lemma {:induction false} InClean(read: seq<Edge>, o: Options, e: Edge)
    requires o.Mirrors()
    ensures e in Clean(read, o) <==> e in read || Swap(e) in read
    ensures o.directedToUndirected ==> StrictlySorted(Clean(read, o))
  {
    var m := Mirrored(read);
    UniqueKeepsElements(Sort(m), e);
    SortKeepsElements(m, e);
    SortSorts(m);
    UniqueIsStrict(Sort(m));
    InSwaps(read, e);
    assert e.src == e.dst ==> Swap(e) == e;
  }

  /** The rows of an undirected graph: exactly the neighbours read in either direction, in increasing order. */
  lemma {:induction false} UndirectedRows(read: seq<Edge>, o: Options, nV: nat, labels: seq<int>, a: int, b: int)
    requires o.Mirrors() && !o.randomize && !o.directedByDegree
    requires ValidLabels(labels, nV) && InRange(read, nV)
    ensures var coo := Final(read, o, nV, labels);
            && (b in Row(coo, a) <==> Edge(a, b) in read || Edge(b, a) in read)
            && (b in Row(coo, a) <==> a in Row(coo, b))
            && (o.directedToUndirected ==> StrictlyIncreasing(Row(coo, a)))
  {
    var coo := Final(read, o, nV, labels);
    InClean(read, o, Edge(a, b));
    InClean(read, o, Edge(b, a));
    SortKeepsElements(Clean(read, o), Edge(a, b));
    SortKeepsElements(Clean(read, o), Edge(b, a));
    InRow(coo, a, b);
    InRow(coo, b, a);
    if o.directedToUndirected {
      SortedRows(coo, a);
    }
  }

  // ---------------------------------------------------------------------------------------------
  // Acyclic

  /** Consecutive vertices of the path are joined by edges of the list. */
  predicate IsPath(coo: seq<Edge>, p: seq<int>) {
    forall k :: 0 <= k < |p| - 1 ==> Joined(coo, p, k)
  }

  predicate Joined(coo: seq<Edge>, p: seq<int>, k: int)
    requires 0 <= k < |p| - 1
  {
    Edge(p[k], p[k + 1]) in coo
  }

  /** Every edge runs up in the degree order. */
  ghost predicate RunsUp(out: seq<Edge>, deg: seq<nat>) {
    forall e :: e in out ==> 0 <= e.src < |deg| && 0 <= e.dst < |deg| && Before(deg, e.src, e.dst)
  }

  lemma {:induction false} PathsRunUp(out: seq<Edge>, deg: seq<nat>, p: seq<int>)
    requires RunsUp(out, deg) && IsPath(out, p) && |p| >= 2
    ensures 0 <= p[0] < |deg| && 0 <= p[|p| - 1] < |deg| && Before(deg, p[0], p[|p| - 1])
  {
    var n := |p| - 1;
    assert Joined(out, p, n - 1);
    if n >= 2 {
      var front := p[..n];
      forall k | 0 <= k < |front| - 1 ensures Joined(out, front, k) {
        assert Joined(out, p, k);
      }
      PathsRunUp(out, deg, front);
    }
  }

  /** The oriented graph has no cycle. */
  lemma {:induction false} OrientedIsAcyclic(coo: seq<Edge>, deg: seq<nat>, p: seq<int>)
    requires InRange(coo, |deg|) && IsPath(Oriented(coo, deg), p) && |p| >= 2
    ensures p[0] != p[|p| - 1]
  {
    forall e | e in Oriented(coo, deg)
      ensures 0 <= e.src < |deg| && 0 <= e.dst < |deg| && Before(deg, e.src, e.dst)
    {
      InOriented(coo, deg, e);
    }
    PathsRunUp(Oriented(coo, deg), deg, p);
  }

  // ---------------------------------------------------------------------------------------------
  // One direction of every edge

  ghost predicate Symmetric(coo: seq<Edge>) {
    forall e {:trigger Swap(e)} :: e in coo ==> Swap(e) in coo
  }

  lemma {:induction false} OneDirectionSurvives(coo: seq<Edge>, deg: seq<nat>, e: Edge)
    requires InRange(coo, |deg|) && Symmetric(coo) && e in coo
    ensures e.src != e.dst ==> (e in Oriented(coo, deg) <==> Swap(e) !in Oriented(coo, deg))
    ensures e.src == e.dst ==> e !in Oriented(coo, deg)
  {
    InOriented(coo, deg, e);
    InOriented(coo, deg, Swap(e));
  }

  /** Which edges survive: those to a higher degree, or to a larger id at the same degree. */
  lemma {:induction false} SurvivorsRunUp(coo: seq<Edge>, deg: seq<nat>, a: nat, b: nat)
    requires InRange(coo, |deg|) && a < |deg| && b < |deg|
    ensures Edge(a, b) in Oriented(coo, deg)
       <==> Edge(a, b) in coo && (deg[a] < deg[b] || (deg[a] == deg[b] && a < b))
  {
    InOriented(coo, deg, Edge(a, b));
  }

  /** Of the two directions of an edge between equal degrees the one to the larger id survives. */
  lemma {:induction false} TieKeepsLargerEnd(coo: seq<Edge>, deg: seq<nat>, a: nat, b: nat)
    requires InRange(coo, |deg|) && Symmetric(coo) && a < b < |deg| && deg[a] == deg[b] && Edge(a, b) in coo
    ensures Edge(a, b) in Oriented(coo, deg) && Edge(b, a) in coo && Edge(b, a) !in Oriented(coo, deg)
  {
    assert Swap(Edge(a, b)) == Edge(b, a);
    SurvivorsRunUp(coo, deg, a, b);
    SurvivorsRunUp(coo, deg, b, a);
  }

  function SwapSet(s: set<Edge>): set<Edge> {
    set e | e in s :: Swap(e)
  }

  lemma {:induction false} SwapSetSize(s: set<Edge>)
    ensures |SwapSet(s)| == |s|
  {
    if s != {} {
      var e := Partition.Pick(s);
      SwapSetSize(s - {e});
      assert SwapSet(s) == SwapSet(s - {e}) + {Swap(e)};
      assert Swap(e) !in SwapSet(s - {e});
    }
  }

  function Loops(coo: seq<Edge>): set<Edge> {
    set e | e in coo && e.src == e.dst
  }

  lemma {:induction false} OrientedIsDistinct(coo: seq<Edge>, deg: seq<nat>)
    requires InRange(coo, |deg|) && Permutation.Distinct(coo)
    ensures Permutation.Distinct(Oriented(coo, deg))
  {
    if coo != [] {
      var front, last := coo[..|coo| - 1], coo[|coo| - 1];
      OrientedIsDistinct(front, deg);
      assert last !in front;
      InOriented(front, deg, last);
    }
  }

  /** Of a symmetric graph half of the edges survive, not counting the self loops. */
  lemma {:induction false} HalfOfTheEdgesSurvive(coo: seq<Edge>, deg: seq<nat>)
    requires InRange(coo, |deg|) && Symmetric(coo) && Permutation.Distinct(coo)
    ensures 2 * |Oriented(coo, deg)| + |Loops(coo)| == |coo|
  {
    var kept := Permutation.Elements(Oriented(coo, deg));
    OrientedIsDistinct(coo, deg);
    Permutation.DistinctSize(coo);
    Permutation.DistinctSize(Oriented(coo, deg));
    SwapSetSize(kept);
    PartsOfSymmetric(coo, deg);
  }

  lemma {:induction false} PartsOfSymmetric(coo: seq<Edge>, deg: seq<nat>)
    requires InRange(coo, |deg|) && Symmetric(coo)
    ensures var kept := Permutation.Elements(Oriented(coo, deg));
            && |Permutation.Elements(coo)| == |kept| + |SwapSet(kept)| + |Loops(coo)|
  {
    var kept := Permutation.Elements(Oriented(coo, deg));
    var all := Permutation.Elements(coo);
    forall e ensures e in all <==> e in kept + SwapSet(kept) + Loops(coo) {
      InOriented(coo, deg, e);
      InOriented(coo, deg, Swap(e));
      assert Swap(Swap(e)) == e;
      assert e in SwapSet(kept) <==> Swap(e) in kept by {
        SwapIn(kept, e);
      }
    }
    forall e | e in kept ensures e !in SwapSet(kept) && e !in Loops(coo) {
      SwapIn(kept, e);
      InOriented(coo, deg, e);
      InOriented(coo, deg, Swap(e));
    }
    forall e | e in SwapSet(kept) ensures e !in Loops(coo) {
      SwapIn(kept, e);
      InOriented(coo, deg, Swap(e));
    }
    assert all == kept + SwapSet(kept) + Loops(coo);
  }

  lemma {:induction false} SwapIn(s: set<Edge>, e: Edge)
    ensures e in SwapSet(s) <==> Swap(e) in s
  {
    assert Swap(Swap(e)) == e;
  }

  // ---------------------------------------------------------------------------------------------
  // The out-degree bound

  /** The vertices below n in a set, each with at least d edges, account for at least d edges each. */
  lemma {:induction false} EdgesOfVertices(coo: seq<Edge>, w: set<int>, d: nat, n: nat)
    requires forall x :: x in w ==> 0 <= x < n && |Row(coo, x)| >= d
    ensures |w| * d <= Offset(coo, n)
  {
    if n == 0 {
      if w != {} {
        var x := Partition.Pick(w);
        assert false;
      }
    } else {
      var rest := w - {n - 1};
      EdgesOfVertices(coo, rest, d, n - 1);
      if n - 1 in w {
        assert |w| == |rest| + 1;
        assert |w| * d == |rest| * d + d;
      } else {
        assert rest == w;
      }
    }
  }

  lemma {:induction false} OrientedStaysSorted(coo: seq<Edge>, deg: seq<nat>)
    requires InRange(coo, |deg|) && StrictlySorted(coo)
    ensures StrictlySorted(Oriented(coo, deg))
  {
    if coo != [] {
      var front, last := coo[..|coo| - 1], coo[|coo| - 1];
      OrientedStaysSorted(front, deg);
      var r := Oriented(front, deg);
      forall k | 0 <= k < |r| ensures Less(r[k], last) {
        InOriented(front, deg, r[k]);
        var i :| 0 <= i < |front| && front[i] == r[k];
        assert Less(coo[i], coo[|coo| - 1]);
      }
    }
  }

  lemma {:induction false} RowOfOriented(coo: seq<Edge>, deg: seq<nat>, v: int)
    requires InRange(coo, |deg|)
    ensures |Row(Oriented(coo, deg), v)| <= |Row(coo, v)|
  {
    if coo != [] {
      var front, last := coo[..|coo| - 1], coo[|coo| - 1];
      assert coo == front + [last];
      RowOfOriented(front, deg, v);
      RowOfExtension(front, last, v);
      RowOfExtension(Oriented(front, deg), last, v);
      assert Oriented(front, deg) + [] == Oriented(front, deg);
    }
  }

  lemma {:induction false} RowIsDistinct(coo: seq<Edge>, v: int)
    requires Permutation.Distinct(coo)
    ensures Permutation.Distinct(Row(coo, v))
  {
    if coo != [] {
      var front, last := coo[..|coo| - 1], coo[|coo| - 1];
      assert coo == front + [last] && last !in front;
      RowIsDistinct(front, v);
      InRow(front, v, last.dst);
    }
  }

  /** A vertex keeps d out-edges only if there are at least d * d edges. */
  lemma {:induction false} OutDegreeIsSmall(coo: seq<Edge>, nV: nat, v: nat)
    requires InRange(coo, nV) && Permutation.Distinct(coo) && v < nV
    ensures var d := |Row(Oriented(coo, Degrees(coo, nV)), v)|; d * d <= |coo|
  {
    var deg := Degrees(coo, nV);
    var out := Oriented(coo, deg);
    var row := Row(out, v);
    OrientedIsDistinct(coo, deg);
    RowIsDistinct(out, v);
    Permutation.DistinctSize(row);
    RowOfOriented(coo, deg, v);
    var w := Permutation.Elements(row);
    forall x | x in w ensures 0 <= x < nV && |Row(coo, x)| >= |row| {
      InRow(out, v, x);
      InOriented(coo, deg, Edge(v, x));
    }
    EdgesOfVertices(coo, w, |row|, nV);
    OffsetsEnd(coo, nV);
  }
}
