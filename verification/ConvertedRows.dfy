/**
 * The rows of a converted graph, entry by entry (xlib/src/Graph/GraphStd.cpp, lines 175-351): in ascending order where
 * sorting is asked for or duplicates are removed, and otherwise in the order of the file.
 */
module ConvertedRows {
  import opened CooToCsr
  import opened CsrRows
  import opened EdgeCounts
  import opened EdgeList
  import opened GraphStd
  import DegreeOrientation

  // ---------------------------------------------------------------------------------------------
  // Sorted conversions

  /** The final edge list is sorted by source, then by destination. */
  lemma {:induction false} FinalIsSorted(read: seq<Edge>, o: Options, nV: nat, labels: seq<int>)
    requires ValidLabels(labels, nV) && InRange(read, nV)
    requires o.sort || (o.directedToUndirected && !o.randomize)
    ensures var r := Final(read, o, nV, labels);
            forall i, j :: 0 <= i < j < |r| ==> r[i].src < r[j].src || (r[i].src == r[j].src && r[i].dst <= r[j].dst)
  {
    var p, r := Prepared(read, o, nV, labels), Final(read, o, nV, labels);
    PreparedInRange(read, o, nV, labels);
    if o.directedToUndirected && !o.randomize {
      DegreeOrientation.InClean(read, o, Edge(0, 0));
      DegreeOrientation.OrientedStaysSorted(p, Degrees(p, nV));
      assert StrictlySorted(r);
      forall i, j | 0 <= i < j < |r| ensures !Less(r[j], r[i]) {
        assert Less(r[i], r[j]);
      }
    } else {
      SortSorts(OrientedIf(p, o, nV));
    }
    assert Sorted(r);
  }

  predicate Ascends(s: seq<int>) {
    forall i, j :: 0 <= i < j < |s| ==> s[i] <= s[j]
  }

  lemma {:induction false} RowAscends(coo: seq<Edge>, v: int)
    requires Sorted(coo)
    ensures Ascends(Row(coo, v))
  {
    if coo != [] {
      var front, e := coo[..|coo| - 1], coo[|coo| - 1];
      RowAscends(front, v);
      if e.src == v {
        var r := Row(front, v);
        forall i | 0 <= i < |r| ensures r[i] <= e.dst {
          InRow(front, v, r[i]);
          var k :| 0 <= k < |front| && front[k] == Edge(v, r[i]);
          assert !Less(e, coo[k]);
        }
      }
    }
  }

  lemma {:induction false} IncomingRowAscends(coo: seq<Edge>, v: int)
    requires Sorted(coo)
    ensures Ascends(Row(Transposed(coo), v))
  {
    if coo != [] {
      var front, e := coo[..|coo| - 1], coo[|coo| - 1];
      IncomingRowAscends(front, v);
      assert Transposed(coo)[..|coo| - 1] == Transposed(front);
      if e.dst == v {
        var r := Row(Transposed(front), v);
        forall i | 0 <= i < |r| ensures r[i] <= e.src {
          InRow(Transposed(front), v, r[i]);
          var k :| 0 <= k < |front| && Transposed(front)[k] == Edge(v, r[i]);
          assert front[k] == Edge(r[i], v) && !Less(e, coo[k]);
        }
      }
    }
  }

  /**
   * In the arrays: where sorting is asked for, for every kind of graph, and where duplicates are removed and nothing is
   * shuffled, every row is in ascending order, on the outgoing and on the incoming side.
   */
  lemma {:induction false} RowsAreSorted(read: seq<Edge>, o: Options, nV: nat, labels: seq<int>, incoming: bool,
          offsets: seq<nat>, edges: seq<int>, v: nat)
    requires ValidLabels(labels, nV) && InRange(read, nV)
    requires o.sort || (o.directedToUndirected && !o.randomize)
    requires IsCsr(Side(Final(read, o, nV, labels), incoming), nV, offsets, edges) && v < nV
    ensures offsets[v] <= offsets[v + 1] <= |edges|
    ensures forall i, j :: offsets[v] <= i < j < offsets[v + 1] ==> edges[i] <= edges[j]
  {
    var r := Final(read, o, nV, labels);
    FinalIsSorted(read, o, nV, labels);
    assert Sorted(r);
    if incoming {
      IncomingRowAscends(r, v);
    } else {
      RowAscends(r, v);
    }
    assert RowIsAt(Side(r, incoming), v, offsets, edges);
    StretchAscends(Row(Side(r, incoming), v), edges, offsets[v], offsets[v + 1]);
  }

  lemma {:induction false} StretchAscends(row: seq<int>, edges: seq<int>, from: nat, to: nat)
    requires from <= to <= |edges| && edges[from..to] == row
    requires Ascends(row)
    ensures forall i, j :: from <= i < j < to ==> edges[i] <= edges[j]
  {
    assert forall i :: from <= i < to ==> edges[i] == row[i - from];
  }

  // ---------------------------------------------------------------------------------------------
  // Unsorted conversions

  lemma {:induction false} RowOfConcat(a: seq<Edge>, b: seq<Edge>, v: int)
    ensures Row(a + b, v) == Row(a, v) + Row(b, v)
  {
    if b == [] {
      assert a + b == a;
    } else {
      var front, e := b[..|b| - 1], b[|b| - 1];
      RowOfConcat(a, front, v);
      assert a + b == (a + front) + [e];
      RowOfExtension(a + front, e, v);
    }
  }

  /** The entries of a list other than x. */
  function Without(s: seq<int>, x: int): seq<int> {
    if s == [] then []
    else
      Without(s[..|s| - 1], x) + if s[|s| - 1] == x then [] else [s[|s| - 1]]
  }

  lemma {:induction false} WithoutStep(s: seq<int>, y: int, x: int)
    ensures Without(s + [y], x) == Without(s, x) + if y == x then [] else [y]
  {
    assert (s + [y])[..|s|] == s;
  }

  lemma {:induction false} RowOfOneSwap(e: Edge, v: int)
    ensures Row(SwapsOf(e), v) == if e.src != e.dst && e.dst == v then [e.src] else []
  {
    if e.src != e.dst {
      RowOfExtension([], Swap(e), v);
      assert [] + [Swap(e)] == SwapsOf(e);
    }
  }

  lemma {:induction false} SwapsRowStep(coo: seq<Edge>, v: int)
    requires coo != []
    ensures var front, e := coo[..|coo| - 1], coo[|coo| - 1];
      Row(Swaps(coo), v) == Row(Swaps(front), v) + if e.src != e.dst && e.dst == v then [e.src] else []
  {
    RowOfConcat(Swaps(coo[..|coo| - 1]), SwapsOf(coo[|coo| - 1]), v);
    RowOfOneSwap(coo[|coo| - 1], v);
  }

  lemma {:induction false} TransposedRowStep(front: seq<Edge>, e: Edge, v: int)
    ensures e.dst == v ==> Row(Transposed(front + [e]), v) == Row(Transposed(front), v) + [e.src]
    ensures e.dst != v ==> Row(Transposed(front + [e]), v) == Row(Transposed(front), v)
  {
    assert Transposed(front + [e]) == Transposed(front) + [Swap(e)];
    RowOfExtension(Transposed(front), Swap(e), v);
  }

  lemma {:induction false} RowOfSwaps(coo: seq<Edge>, v: int)
    ensures Row(Swaps(coo), v) == Without(Row(Transposed(coo), v), v)
  {
    if coo != [] {
      var front, e := coo[..|coo| - 1], coo[|coo| - 1];
      assert coo == front + [e];
      RowOfSwaps(front, v);
      TransposedRowStep(front, e, v);
      SwapsRowStep(coo, v);
      if e.dst == v {
        WithoutStep(Row(Transposed(front), v), e.src, v);
      }
    }
  }

  /** The neighbours of v in the order of the file: where lines lead from it, then where lines come from, loops once. */
  function FileRow(read: seq<Edge>, o: Options, v: int): seq<int> {
    Row(read, v) + if o.storedUndirected then Without(Row(Transposed(read), v), v) else []
  }

  /** The same under the new labels. */
  function Renamed(row: seq<int>, o: Options, labels: seq<int>): (r: seq<int>)
    requires forall k :: 0 <= k < |row| ==> 0 <= row[k] < |labels|
    ensures |r| == |row|
  {
    seq(|row|, k requires 0 <= k < |row| => Label(o, labels, row[k]))
  }

  /** What the degree orientation keeps of a row: higher degrees, and larger ids of the same degree. */
  function Upwards(row: seq<int>, deg: seq<nat>, v: int): seq<int>
    requires 0 <= v < |deg| && forall k :: 0 <= k < |row| ==> 0 <= row[k] < |deg|
  {
    if row == [] then []
    else
      var w := row[|row| - 1];
      Upwards(row[..|row| - 1], deg, v)
      + if deg[v] < deg[w] || (deg[v] == deg[w] && v < w) then [w] else []
  }

  lemma {:induction false} RowInRange(coo: seq<Edge>, nV: nat, v: int)
    requires InRange(coo, nV)
    ensures forall k :: 0 <= k < |Row(coo, v)| ==> 0 <= Row(coo, v)[k] < nV
  {
    forall k | 0 <= k < |Row(coo, v)| ensures 0 <= Row(coo, v)[k] < nV {
      InRow(coo, v, Row(coo, v)[k]);
    }
  }

  lemma {:induction false} RowOfRelabelled(coo: seq<Edge>, o: Options, nV: nat, labels: seq<int>, v: nat)
    requires ValidLabels(labels, nV) && InRange(coo, nV) && v < nV && o.randomize
    ensures forall k :: 0 <= k < |Row(coo, v)| ==> 0 <= Row(coo, v)[k] < nV
    ensures Row(Relabelled(coo, labels), labels[v]) == Renamed(Row(coo, v), o, labels)
  {
    RowInRange(coo, nV, v);
    if coo != [] {
      var front, e := coo[..|coo| - 1], coo[|coo| - 1];
      RowOfRelabelled(front, o, nV, labels, v);
      assert Relabelled(coo, labels) == Relabelled(front, labels) + [Edge(labels[e.src], labels[e.dst])];
      RowOfExtension(Relabelled(front, labels), Edge(labels[e.src], labels[e.dst]), labels[v]);
      assert e.src != v ==> labels[e.src] != labels[v];
    }
  }

  lemma {:induction false} RowOfOriented(coo: seq<Edge>, deg: seq<nat>, v: nat)
    requires InRange(coo, |deg|) && v < |deg|
    ensures forall k :: 0 <= k < |Row(coo, v)| ==> 0 <= Row(coo, v)[k] < |deg|
    ensures Row(Oriented(coo, deg), v) == Upwards(Row(coo, v), deg, v)
  {
    RowInRange(coo, |deg|, v);
    if coo != [] {
      var front, e := coo[..|coo| - 1], coo[|coo| - 1];
      RowOfOriented(front, deg, v);
      RowOfExtension(Oriented(front, deg), e, v);
      var r := Row(front, v);
      assert e.src == v ==> (r + [e.dst])[..|r|] == r;
      assert Oriented(front, deg) + [] == Oriented(front, deg);
      assert r + [] == r;
    }
  }

  lemma {:induction false} RowOfClean(read: seq<Edge>, o: Options, v: int)
    requires !o.directedToUndirected
    ensures Row(Clean(read, o), v) == FileRow(read, o, v)
  {
    RowOfConcat(read, Swaps(read), v);
    RowOfSwaps(read, v);
  }

  /**
   * Without sorting and without removal of duplicates every row keeps the order of the file: the neighbours that the
   * lines name, under the new labels if there is a shuffle, and without those that the degree orientation drops.
   */
  lemma {:induction false} RowsKeepFileOrder(read: seq<Edge>, o: Options, nV: nat, labels: seq<int>, v: nat)
    requires ValidLabels(labels, nV) && InRange(read, nV) && v < nV
    requires !o.sort && !o.directedToUndirected
    ensures forall k :: 0 <= k < |FileRow(read, o, v)| ==> 0 <= FileRow(read, o, v)[k] < nV
    ensures var row, deg := Renamed(FileRow(read, o, v), o, labels), Degrees(Prepared(read, o, nV, labels), nV);
      && (forall k :: 0 <= k < |row| ==> 0 <= row[k] < nV)
      && Row(Final(read, o, nV, labels), Label(o, labels, v))
         == if o.directedByDegree then Upwards(row, deg, Label(o, labels, v)) else row
  {
    CleanInRange(read, o, nV);
    PreparedInRange(read, o, nV, labels);
    RowOfClean(read, o, v);
    RowInRange(Clean(read, o), nV, v);
    if o.randomize {
      RowOfRelabelled(Clean(read, o), o, nV, labels, v);
    } else {
      assert Renamed(FileRow(read, o, v), o, labels) == FileRow(read, o, v);
    }
    var p := Prepared(read, o, nV, labels);
    RowOfOriented(p, Degrees(p, nV), Label(o, labels, v));
  }
}
