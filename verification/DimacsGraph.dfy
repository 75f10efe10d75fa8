/**
 * A graph in compressed rows, written as text, read and converted again
 * (xlib/src/Graph/GraphStd.cpp, lines 439-456 and 174-360; xlib/src/Graph/GraphStdRead.cpp, lines 156-177).
 */
module DimacsGraph {
  import opened CsrRows
  import opened Dimacs
  import opened EdgeList
  import opened MatrixLayout
  import CooToCsr
  import GraphStd

  // ---------------------------------------------------------------------------------------------
  // Compressed rows and their entries determine each other

  lemma {:induction false} RowOfConcat(s: seq<Edge>, t: seq<Edge>, v: int)
    ensures Row(s + t, v) == Row(s, v) + Row(t, v)
  {
    if t == [] {
      assert s + t == s;
    } else {
      var front, e := t[..|t| - 1], t[|t| - 1];
      RowOfConcat(s, front, v);
      assert s + t == (s + front) + [e];
      RowOfExtension(s + front, e, v);
    }
  }

  lemma {:induction false} RowOfRowEntries(w: nat, row: seq<int>, v: int)
    ensures Row(RowEntries(w, row), v) == if v == w then row else []
  {
    if row != [] {
      var front, d := row[..|row| - 1], row[|row| - 1];
      RowOfRowEntries(w, front, v);
      assert RowEntries(w, row) == RowEntries(w, front) + [Edge(w, d)];
      RowOfExtension(RowEntries(w, front), Edge(w, d), v);
    }
  }

  lemma {:induction false} NextRow(off: seq<nat>, cols: seq<int>, numCols: nat, n: nat, v: nat)
    requires WellFormed(off, cols, numCols) && v < |off| - 1 && n < |off| - 1
    ensures off[v] <= off[v + 1] <= |cols| && off[n] <= off[n + 1] <= |cols|
    ensures Row(Entries(off, cols)[..off[n + 1]], v)
         == Row(Entries(off, cols)[..off[n]], v) + if v == n then Slice(off, cols, v) else []
  {
    assert off[n + 1] <= off[|off| - 1] && off[v + 1] <= off[|off| - 1];
    EntriesOfRow(off, cols, numCols, n);
    RowOfConcat(Entries(off, cols)[..off[n]], RowEntries(n, Slice(off, cols, n)), v);
    RowOfRowEntries(n, Slice(off, cols, n), v);
  }

  /** The first n rows of the matrix are the rows of its first entries. */
  lemma {:induction false} RowOfEntries(off: seq<nat>, cols: seq<int>, numCols: nat, n: nat, v: nat)
    requires WellFormed(off, cols, numCols) && v < |off| - 1 && n < |off|
    ensures off[v] <= off[v + 1] <= |cols| && off[n] <= |cols|
    ensures Row(Entries(off, cols)[..off[n]], v) == if v < n then Slice(off, cols, v) else []
  {
    assert off[n] <= off[|off| - 1] && off[v + 1] <= off[|off| - 1];
    if n > 0 {
      RowOfEntries(off, cols, numCols, n - 1, v);
      NextRow(off, cols, numCols, n - 1, v);
    }
  }

  lemma {:induction false} EntriesFillRow(off: seq<nat>, cols: seq<int>, numCols: nat, v: nat)
    requires WellFormed(off, cols, numCols) && v < |off| - 1
    ensures off[v] <= off[v + 1] <= |cols| && Row(Entries(off, cols), v) == Slice(off, cols, v)
  {
    RowOfEntries(off, cols, numCols, |off| - 1, v);
    assert Entries(off, cols)[..|cols|] == Entries(off, cols);
  }

  lemma {:induction false} EntriesOffsets(off: seq<nat>, cols: seq<int>, numCols: nat, v: nat)
    requires WellFormed(off, cols, numCols) && v < |off|
    ensures Offset(Entries(off, cols), v) == off[v]
  {
    if v > 0 {
      EntriesOffsets(off, cols, numCols, v - 1);
      EntriesFillRow(off, cols, numCols, v - 1);
    }
  }

  /** Well-formed rows are the compressed rows of their own entries. */
  lemma {:induction false} EntriesAreCsr(off: seq<nat>, cols: seq<int>, nV: nat)
    requires |off| == nV + 1 && WellFormed(off, cols, nV)
    ensures InRange(Entries(off, cols), nV)
    ensures IsCsr(Entries(off, cols), nV, off, cols)
  {
    var coo := Entries(off, cols);
    forall k | 0 <= k < |coo| ensures 0 <= coo[k].src < nV && 0 <= coo[k].dst < nV {
      var v := PositionInRow(off, cols, nV, k);
    }
    forall v | 0 <= v <= nV ensures off[v] == Offset(coo, v) {
      EntriesOffsets(off, cols, nV, v);
    }
    forall v | 0 <= v < nV ensures RowIsAt(coo, v, off, cols) {
      EntriesFillRow(off, cols, nV, v);
    }
  }

  lemma {:induction false} EdgeIsInRow(coo: seq<Edge>, v: nat, k: nat, off: seq<nat>, edges: seq<int>)
    requires v < |off| - 1 && RowIsAt(coo, v, off, edges) && off[v] <= k < off[v + 1]
    ensures k - off[v] < |Row(coo, v)| && edges[k] == Row(coo, v)[k - off[v]]
  {
    assert edges[off[v]..off[v + 1]][k - off[v]] == edges[k];
  }

  /** An edge list has only one form in compressed rows. */
  lemma {:induction false} CsrIsUnique(coo: seq<Edge>, nV: nat, off: seq<nat>, edges: seq<int>, off': seq<nat>,
          edges': seq<int>)
    requires WellFormed(off, edges, nV) && IsCsr(coo, nV, off, edges) && IsCsr(coo, nV, off', edges')
    ensures off == off' && edges == edges'
  {
    assert off == off';
    forall k | 0 <= k < |edges| ensures edges[k] == edges'[k] {
      var v := PositionInRow(off, edges, nV, k);
      EdgeIsInRow(coo, v, k, off, edges);
      EdgeIsInRow(coo, v, k, off', edges');
    }
  }

  // ---------------------------------------------------------------------------------------------
  // The round trip

  /** Read as a directed graph, neither sorted nor randomized. */
  function PlainOptions(incoming: bool): GraphStd.Options {
    GraphStd.Options(false, false, false, false, false, incoming)
  }

  lemma {:induction false} PlainConversionKeepsTheList(lines: seq<Edge>, incoming: bool, nV: nat, labels: seq<int>)
    requires GraphStd.ValidLabels(labels, nV) && InRange(lines, nV)
    ensures GraphStd.Final(lines, PlainOptions(incoming), nV, labels) == lines
  {
  }

  method Convert(nV: nat, lines: seq<Edge>, incoming: bool, labels: seq<int>) returns (g: GraphStd.GraphStd)
    requires InRange(lines, nV) && GraphStd.ValidLabels(labels, nV)
    ensures fresh(g) && g.nV == nV && g.nE == |lines| && g.Allocated()
    ensures IsCsr(lines, nV, g.outOffsets[..], g.outEdges[..g.nE])
    ensures forall v :: 0 <= v < nV ==> g.outDegrees[v] == |Row(lines, v)|
  {
    g := new GraphStd.GraphStd(nV, PlainOptions(incoming), lines);
    g.COOtoCSR(labels);
    PlainConversionKeepsTheList(lines, incoming, nV, labels);
    assert g.outDegrees[..] == CooToCsr.Degrees(lines, nV);
    forall v | 0 <= v < nV ensures g.outDegrees[v] == |Row(lines, v)| {
      assert g.outDegrees[v] == g.outDegrees[..][v];
    }
  }

  lemma {:induction false} DegreesAreOffsetSteps(off: seq<nat>, cols: seq<int>, nV: nat)
    requires |off| == nV + 1 && WellFormed(off, cols, nV)
    ensures forall v :: 0 <= v < nV ==> |Row(Entries(off, cols), v)| == off[v + 1] - off[v]
  {
    forall v | 0 <= v < nV ensures |Row(Entries(off, cols), v)| == off[v + 1] - off[v] {
      EntriesFillRow(off, cols, nV, v);
    }
  }

  /** Writing a graph, reading the text and converting gives back offsets, edges and degrees. */
  method WriteThenRead(nV: nat, nE: nat, outOffsets: array<nat>, outEdges: array<int>, incoming: bool, labels: seq<int>)
    returns (g: GraphStd.GraphStd)
    requires outOffsets.Length == nV + 1 && nE <= outEdges.Length && WellFormed(outOffsets[..], outEdges[..nE], nV)
    requires GraphStd.ValidLabels(labels, nV)
    ensures fresh(g) && g.nV == nV && g.nE == nE && g.Allocated()
    ensures g.outOffsets[..] == outOffsets[..]
    ensures g.outEdges[..nE] == outEdges[..nE]
    ensures forall v :: 0 <= v < nV ==> g.outDegrees[v] == outOffsets[v + 1] - outOffsets[v]
  {
    ghost var off, cols := outOffsets[..], outEdges[..nE];
    var text := WriteDimacs10(nV, nE, outOffsets, outEdges);
    WrittenIsReadBack(off, cols, nV);
    EntriesAreCsr(off, cols, nV);
    DegreesAreOffsetSteps(off, cols, nV);
    var parsed := ReadDimacs10(text);
    g := Convert(parsed.value.header.nV, parsed.value.edges, incoming, labels);
    CsrIsUnique(Entries(off, cols), nV, off, cols, g.outOffsets[..], g.outEdges[..g.nE]);
  }
}
