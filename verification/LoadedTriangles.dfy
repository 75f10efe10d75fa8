/**
 * From the file to the count: an undirected graph is read edge by edge, converted with the degree orientation
 * (xlib/src/Graph/GraphStd.cpp, lines 174-341), and its triangles are counted by the intersection run.  The file
 * may be directed, store an undirected graph one edge a line, or list both directions.
 */
module LoadedTriangles {
  import opened AdjacencyRun
  import opened AdjacencyUnions
  import opened CsrRows
  import opened EdgeCounts
  import opened EdgeList
  import opened GraphStd
  import opened LaunchJobs
  import opened Order
  import opened Sums
  import opened TriangleCount
  import CooToCsr
  import DegreeOrientation
  import EdgeScatter
  import LaunchPlan
  import Permutation

  /** The rows as adjacency lists. */
  function Lists(coo: seq<Edge>, nV: nat): Adjacency {
    seq(nV, v requires 0 <= v => Row(coo, v))
  }

  /** Options that orient by degree and leave the final edge list in sorted order. */
  predicate OrientsSorted(o: Options) {
    o.directedByDegree && (if o.directedToUndirected then o.randomize ==> o.sort else o.sort)
  }

  /** The undirected graph behind the edge list, without its self loops. */
  function Undirected(read: seq<Edge>, o: Options, nV: nat, labels: seq<int>): set<Edge>
    requires ValidLabels(labels, nV) && InRange(read, nV)
  {
    set e | e in Prepared(read, o, nV, labels) && e.src != e.dst
  }

  lemma {:induction false} InPrepared(read: seq<Edge>, o: Options, nV: nat, labels: seq<int>, a: int, b: int)
    requires ValidLabels(labels, nV) && InRange(read, nV) && 0 <= a < nV && 0 <= b < nV
    ensures Edge(Label(o, labels, a), Label(o, labels, b)) in Prepared(read, o, nV, labels)
       <==> Edge(a, b) in Clean(read, o)
  {
    CleanInRange(read, o, nV);
    var clean := Clean(read, o);
    if o.randomize {
      var r := CooToCsr.Relabelled(clean, labels);
      if k :| 0 <= k < |clean| && clean[k] == Edge(a, b) {
        assert r[k] == Edge(labels[a], labels[b]);
      }
      if k :| 0 <= k < |r| && r[k] == Edge(labels[a], labels[b]) {
        assert clean[k].src == a && clean[k].dst == b;
      }
    }
  }

  lemma {:induction false} CleanBothWays(read: seq<Edge>, o: Options, e: Edge)
    requires Undirects(read, o)
    ensures e in Clean(read, o) <==> e in read || Swap(e) in read
    ensures Swap(e) in Clean(read, o) <==> e in Clean(read, o)
  {
    assert Swap(Swap(e)) == e;
    if o.Mirrors() {
      DegreeOrientation.InClean(read, o, e);
      DegreeOrientation.InClean(read, o, Swap(e));
    } else {
      assert Copies(read, e) == Copies(read, Swap(e));
      assert e in read <==> e in multiset(read);
    }
  }

  /** The graph joins two different vertices exactly if an edge between them was read, in any direction. */
  lemma {:induction false} UndirectedIsWhatWasRead(read: seq<Edge>, o: Options, nV: nat, labels: seq<int>, a: int,
          b: int)
    requires ValidLabels(labels, nV) && InRange(read, nV) && Undirects(read, o)
    requires 0 <= a < nV && 0 <= b < nV && a != b
    ensures Edge(Label(o, labels, a), Label(o, labels, b)) in Undirected(read, o, nV, labels)
       <==> Edge(a, b) in read || Edge(b, a) in read
  {
    InPrepared(read, o, nV, labels, a, b);
    CleanBothWays(read, o, Edge(a, b));
  }

  lemma {:induction false} PreparedIsSymmetric(read: seq<Edge>, o: Options, nV: nat, labels: seq<int>)
    requires ValidLabels(labels, nV) && InRange(read, nV) && Undirects(read, o)
    ensures DegreeOrientation.Symmetric(Prepared(read, o, nV, labels))
  {
    var clean, p := Clean(read, o), Prepared(read, o, nV, labels);
    CleanInRange(read, o, nV);
    forall e | e in p ensures Swap(e) in p {
      var k :| 0 <= k < |p| && p[k] == e;
      assert clean[k] in clean;
      CleanBothWays(read, o, clean[k]);
      InPrepared(read, o, nV, labels, clean[k].dst, clean[k].src);
    }
  }

  lemma {:induction false} PreparedIsDistinct(read: seq<Edge>, o: Options, nV: nat, labels: seq<int>)
    requires ValidLabels(labels, nV) && InRange(read, nV) && o.directedToUndirected
    ensures Permutation.Distinct(Prepared(read, o, nV, labels))
    ensures !o.randomize ==> StrictlySorted(Prepared(read, o, nV, labels))
  {
    var clean, p := Clean(read, o), Prepared(read, o, nV, labels);
    CleanInRange(read, o, nV);
    DegreeOrientation.InClean(read, o, Edge(0, 0));
    forall i, j | 0 <= i < j < |p| ensures p[i] != p[j] {
      assert Less(clean[i], clean[j]);
    }
  }

  /** The final edge list keeps the edges of the graph that run up in the degree order, in sorted rows. */
  lemma {:induction false} FinalOrients(read: seq<Edge>, o: Options, nV: nat, labels: seq<int>)
    requires ValidLabels(labels, nV) && InRange(read, nV)
    requires OrientsSorted(o) && Undirects(read, o) && EdgesOnce(read, o)
    ensures Orients(Lists(Final(read, o, nV, labels), nV), Undirected(read, o, nV, labels),
                    CooToCsr.Degrees(Prepared(read, o, nV, labels), nV))
  {
    var p, coo := Prepared(read, o, nV, labels), Final(read, o, nV, labels);
    var deg := CooToCsr.Degrees(p, nV);
    PreparedInRange(read, o, nV, labels);
    var oriented := CooToCsr.Oriented(p, deg);
    PreparedIsSymmetric(read, o, nV, labels);
    FinalIsStrict(read, o, nV, labels);
    UndirectedIsSimple(read, o, nV, labels);
    forall x | 0 <= x < nV ensures StrictlyIncreasing(Row(coo, x)) {
      SortedRows(coo, x);
    }
    forall x, y | 0 <= x < nV
      ensures y in Row(coo, x) <==> Edge(x, y) in Undirected(read, o, nV, labels) && Before(deg, x, y)
    {
      InRow(coo, x, y);
      SortKeepsElements(oriented, Edge(x, y));
      CooToCsr.InOriented(p, deg, Edge(x, y));
    }
  }

  lemma {:induction false} UndirectedIsSimple(read: seq<Edge>, o: Options, nV: nat, labels: seq<int>)
    requires ValidLabels(labels, nV) && InRange(read, nV) && Undirects(read, o)
    ensures SimpleGraph(Undirected(read, o, nV, labels), nV)
  {
    PreparedInRange(read, o, nV, labels);
    PreparedIsSymmetric(read, o, nV, labels);
    var g := Undirected(read, o, nV, labels);
    forall e | e in g ensures Edge(e.dst, e.src) in g {
      assert Swap(e) in Prepared(read, o, nV, labels);
    }
  }

  /** The final edge list is strictly sorted exactly if the file names no edge twice, or duplicates are removed. */
  lemma {:induction false} FinalIsStrict(read: seq<Edge>, o: Options, nV: nat, labels: seq<int>)
    requires ValidLabels(labels, nV) && InRange(read, nV) && OrientsSorted(o) && Undirects(read, o)
    ensures StrictlySorted(Final(read, o, nV, labels)) <==> EdgesOnce(read, o)
  {
    var p := Prepared(read, o, nV, labels);
    var deg := CooToCsr.Degrees(p, nV);
    PreparedInRange(read, o, nV, labels);
    if o.directedToUndirected {
      PreparedIsDistinct(read, o, nV, labels);
    } else {
      OrientedOnce(read, o, nV, labels);
    }
    if o.directedToUndirected && !o.randomize {
      DegreeOrientation.OrientedStaysSorted(p, deg);
    } else {
      SortIsStrict(CooToCsr.Oriented(p, deg));
    }
    if o.directedToUndirected && o.randomize {
      DegreeOrientation.OrientedIsDistinct(p, deg);
    }
  }

  /**
   * Every triangle of the graph that was read is counted exactly once, whatever the interleaving of the
   * threads that bin the edges and of the threads that intersect them.
   */
  lemma {:induction false} CountsTrianglesOfTheFile(read: seq<Edge>, o: Options, nV: nat, labels: seq<int>,
          edges: seq<Edge>, workFactor: int, n: EdgeScatter.Input, s: EdgeScatter.State, claims: seq<nat>,
          launches: seq<LaunchPlan.Launch>, groups: seq<nat>, sched: seq<Job>, counters: seq<nat>)
    requires ValidLabels(labels, nV) && InRange(read, nV)
    requires OrientsSorted(o) && Undirects(read, o) && EdgesOnce(read, o)
    requires ListsEdges(edges, Lists(Final(read, o, nV, labels), nV))
    requires IsRun(Lists(Final(read, o, nV, labels), nV), edges, workFactor, n, s, claims, launches, groups, sched)
    requires |counters| == nV
    requires forall x :: 0 <= x < nV ==>
      counters[x] == SumOf(sched, JobAdder(Lists(Final(read, o, nV, labels), nV), Queue(n, s, claims), x))
    ensures SumOf(counters, (c: nat) => c) == |Triangles(Undirected(read, o, nV, labels), nV)|
  {
    var adj := Lists(Final(read, o, nV, labels), nV);
    var deg := CooToCsr.Degrees(Prepared(read, o, nV, labels), nV);
    FinalOrients(read, o, nV, labels);
    forall x | 0 <= x < nV ensures counters[x] == SumOf(edges, EdgeAdder(adj, x)) {
      RunCountsEveryEdgeOnce(adj, edges, workFactor, n, s, claims, launches, groups, sched, x);
    }
    CountersAddUp(adj, edges, counters, nV);
    TotalOverVertices(adj, edges, nV);
    WeightsCountTriangles(adj, Undirected(read, o, nV, labels), deg, edges);
    assert counters[..nV] == counters;
  }

  lemma {:induction false} CountersAddUp(adj: Adjacency, edges: seq<Edge>, counters: seq<nat>, n: nat)
    requires n <= |counters|
    requires forall x :: 0 <= x < n ==> counters[x] == SumOf(edges, EdgeAdder(adj, x))
    ensures SumOf(counters[..n], (c: nat) => c) == VertexTotal(adj, edges, n)
  {
    if n > 0 {
      CountersAddUp(adj, edges, counters, n - 1);
      assert counters[..n][..n - 1] == counters[..n - 1];
    }
  }
}
