/**
 * The whole way as one program: read edges are converted with the degree orientation
 * (xlib/src/Graph/GraphStd.cpp, lines 174-360), and the intersection run over the converted rows counts the
 * triangles (hornetsnest/src/Static/TriangleCounting/triangle2.cu, lines 130-161).
 */
module FileToTriangles {
  import opened AdjacencyUnions
  import opened BalancedKernel
  import opened CsrRows
  import opened EdgeCounts
  import opened EdgeList
  import opened EngineConstants
  import opened KernelRun
  import opened LoadedTriangles
  import opened TriangleCount
  import CooToCsr
  import GraphStd
  import Permutation
  import TriangleRun

  lemma {:induction false} FinalInRange(read: seq<Edge>, o: GraphStd.Options, nV: nat, labels: seq<int>)
    requires GraphStd.ValidLabels(labels, nV) && InRange(read, nV)
    ensures InRange(GraphStd.Final(read, o, nV, labels), nV)
  {
    GraphStd.PreparedInRange(read, o, nV, labels);
    GraphStd.SortInRange(GraphStd.OrientedIf(GraphStd.Prepared(read, o, nV, labels), o, nV), nV);
  }

  /** A strictly sorted edge list holds exactly the entries of its rows, each once. */
  lemma {:induction false} ListsOwnEdges(coo: seq<Edge>, nV: nat)
    requires StrictlySorted(coo) && InRange(coo, nV)
    ensures ListsEdges(coo, Lists(coo, nV))
  {
    StrictIsDistinct(coo);
    forall e ensures e in coo <==> InGraph(Lists(coo, nV), e) && e.dst in Lists(coo, nV)[e.src] {
      InRow(coo, e.src, e.dst);
      if e in coo {
        var k :| 0 <= k < |coo| && coo[k] == e;
      }
    }
  }

  /** The rows of the converted graph as adjacency lists. */
  method ReadRows(nV: nat, nE: nat, outOffsets: array<nat>, outEdges: array<int>, ghost coo: seq<Edge>)
    returns (adj: Adjacency)
    requires nE <= outEdges.Length && IsCsr(coo, nV, outOffsets[..], outEdges[..nE])
    ensures adj == Lists(coo, nV)
  {
    adj := [];
    for v := 0 to nV
      invariant adj == Lists(coo, nV)[..v]
    {
      RowIsSlice(coo, nV, outOffsets[..], outEdges[..nE], v);
      assert outEdges[..nE][outOffsets[v]..outOffsets[v + 1]] == outEdges[outOffsets[v]..outOffsets[v + 1]];
      adj := adj + [outEdges[outOffsets[v]..outOffsets[v + 1]]];
    }
  }

  lemma {:induction false} RowIsSlice(coo: seq<Edge>, nV: nat, off: seq<nat>, edges: seq<int>, v: nat)
    requires IsCsr(coo, nV, off, edges) && v < nV
    ensures off[v] <= off[v + 1] <= |edges| && edges[off[v]..off[v + 1]] == Lists(coo, nV)[v]
  {
    assert RowIsAt(coo, v, off, edges);
  }

  /** Every thread once. */
  function Everyone(n: nat): seq<nat> {
    seq(n, t requires 0 <= t => t)
  }

  lemma {:induction false} ThreeTimesEveryone(n: nat, t: nat)
    requires t < n
    ensures multiset(Everyone(n) + Everyone(n) + Everyone(n))[t] == 3
  {
    assert Everyone(n)[t] == t;
    Permutation.DistinctCount(Everyone(n), t);
  }

  lemma {:induction false} EveryoneIsSchedule(n: nat)
    ensures IsSchedule(Everyone(n), n)
  {
    forall t: nat | t < n ensures t in Everyone(n) {
      assert Everyone(n)[t] == t;
    }
  }

  /** The intersection run over a degree-oriented graph counts its triangles. */
  method CountOriented(adj: Adjacency, edges: seq<Edge>, workFactor: int, ghost g: set<Edge>, ghost deg: seq<nat>)
    returns (count: nat)
    requires Orients(adj, g, deg) && ListsEdges(edges, adj)
    ensures count == |Triangles(g, |deg|)|
  {
    var order := Everyone(|edges|);
    var inTurn := PhaseOrders(Everyone(BLOCK_SIZE), Everyone(BLOCK_SIZE));
    EveryoneIsSchedule(BLOCK_SIZE);
    forall t: nat | t < |edges| ensures multiset(order + order + order)[t] >= 3 {
      ThreeTimesEveryone(|edges|, t);
    }
    var triPerVertex := TriangleRun.ForAllAdjUnions(adj, edges, workFactor, order, order + order + order,
                                                    (m, b, k) => inTurn);
    count := CountTriangles(adj, edges, triPerVertex);
    WeightsCountTriangles(adj, g, deg, edges);
  }

  /** The number of triangles of the undirected graph that was read. */
  method CountTrianglesOfFile(lines: seq<Edge>, nV: nat, o: GraphStd.Options, labels: seq<int>, workFactor: int)
    returns (count: nat)
    requires GraphStd.ValidLabels(labels, nV) && InRange(lines, nV)
    requires OrientsSorted(o) && Undirects(lines, o) && EdgesOnce(lines, o)
    ensures count == |Triangles(Undirected(lines, o, nV, labels), nV)|
  {
    var g := new GraphStd.GraphStd(nV, o, lines);
    g.COOtoCSR(labels);
    var edges := g.cooEdges[..g.nE];
    var adj := ReadRows(nV, g.nE, g.outOffsets, g.outEdges, edges);
    FinalInRange(lines, o, nV, labels);
    FinalIsStrict(lines, o, nV, labels);
    ListsOwnEdges(edges, nV);
    FinalOrients(lines, o, nV, labels);
    count := CountOriented(adj, edges, workFactor, Undirected(lines, o, nV, labels),
                           CooToCsr.Degrees(GraphStd.Prepared(lines, o, nV, labels), nV));
  }
}
