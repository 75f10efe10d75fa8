/**
 * Compressed sparse rows as a function of an edge list: row v holds the destinations of v's edges in the
 * order of the list (xlib/src/Graph/GraphStd.cpp, lines 236-245 and 333-351).
 */
module CsrRows {
  import opened EdgeList
  import opened Order

  predicate InRange(coo: seq<Edge>, nV: nat) {
    forall k :: 0 <= k < |coo| ==> 0 <= coo[k].src < nV && 0 <= coo[k].dst < nV
  }

  /** The destinations of v's edges, in order. */
  function Row(coo: seq<Edge>, v: int): seq<int> {
    if coo == [] then []
    else
      var e := coo[|coo| - 1];
      Row(coo[..|coo| - 1], v) + if e.src == v then [e.dst] else []
  }

  /** The number of edges whose source is below v. */
  function Offset(coo: seq<Edge>, v: nat): nat {
    if v == 0 then 0 else Offset(coo, v - 1) + |Row(coo, v - 1)|
  }

  lemma {:induction false} RowOfExtension(coo: seq<Edge>, e: Edge, v: int)
    ensures Row(coo + [e], v) == Row(coo, v) + if e.src == v then [e.dst] else []
  {
    assert (coo + [e])[..|coo|] == coo;
  }

  lemma {:induction false} RowOfPrefix(coo: seq<Edge>, k: nat, v: int)
    requires k <= |coo|
    ensures |Row(coo[..k], v)| <= |Row(coo, v)|
    ensures Row(coo, v)[..|Row(coo[..k], v)|] == Row(coo[..k], v)
    decreases |coo| - k
  {
    if k < |coo| {
      RowOfPrefix(coo, k + 1, v);
      assert coo[..k + 1][..k] == coo[..k];
    } else {
      assert coo[..k] == coo;
    }
  }

  lemma {:induction false} InRow(coo: seq<Edge>, v: int, d: int)
    ensures d in Row(coo, v) <==> Edge(v, d) in coo
  {
    if coo != [] {
      var front, e := coo[..|coo| - 1], coo[|coo| - 1];
      assert coo == front + [e];
      InRow(front, v, d);
    }
  }

  lemma {:induction false} OffsetOfExtension(coo: seq<Edge>, e: Edge, v: nat)
    ensures Offset(coo + [e], v) == Offset(coo, v) + if 0 <= e.src < v then 1 else 0
  {
    if v > 0 {
      OffsetOfExtension(coo, e, v - 1);
      RowOfExtension(coo, e, v - 1);
    }
  }

  lemma {:induction false} OffsetOfNothing(v: nat)
    ensures Offset([], v) == 0
  {
    if v > 0 {
      OffsetOfNothing(v - 1);
    }
  }

  /** The last offset is the number of edges: the rows take up the whole edge array. */
  lemma {:induction false} OffsetsEnd(coo: seq<Edge>, nV: nat)
    requires InRange(coo, nV)
    ensures Offset(coo, nV) == |coo|
  {
    if coo == [] {
      OffsetOfNothing(nV);
    } else {
      var front, e := coo[..|coo| - 1], coo[|coo| - 1];
      assert coo == front + [e];
      OffsetsEnd(front, nV);
      OffsetOfExtension(front, e, nV);
    }
  }

  lemma {:induction false} OffsetIsMonotone(coo: seq<Edge>, v: nat, w: nat)
    requires v <= w
    ensures Offset(coo, v) <= Offset(coo, w)
    decreases w - v
  {
    if v < w {
      OffsetIsMonotone(coo, v, w - 1);
    }
  }

  /** The offsets of the rows. */
  predicate AreOffsets(coo: seq<Edge>, nV: nat, offsets: seq<nat>) {
    |offsets| == nV + 1 && forall v {:trigger offsets[v]} :: 0 <= v <= nV ==> offsets[v] == Offset(coo, v)
  }

  /** The rows laid out one after the other. */
  predicate IsCsr(coo: seq<Edge>, nV: nat, offsets: seq<nat>, edges: seq<int>) {
    && AreOffsets(coo, nV, offsets) && |edges| == |coo|
    && (forall v :: 0 <= v < nV ==> RowIsAt(coo, v, offsets, edges))
  }

  predicate RowIsAt(coo: seq<Edge>, v: int, offsets: seq<nat>, edges: seq<int>)
    requires 0 <= v < |offsets| - 1
  {
    offsets[v] <= offsets[v + 1] <= |edges| && edges[offsets[v]..offsets[v + 1]] == Row(coo, v)
  }

  // ---------------------------------------------------------------------------------------------
  // Rows of sorted edge lists

  /** Rows of a strictly sorted edge list are strictly increasing. */
  lemma {:induction false} SortedRows(coo: seq<Edge>, v: int)
    requires StrictlySorted(coo)
    ensures StrictlyIncreasing(Row(coo, v))
  {
    if coo != [] {
      var front, e := coo[..|coo| - 1], coo[|coo| - 1];
      SortedRows(front, v);
      if e.src == v {
        var r := Row(front, v);
        forall i | 0 <= i < |r| ensures r[i] < e.dst {
          InRow(front, v, r[i]);
          var k :| 0 <= k < |front| && front[k] == Edge(v, r[i]);
          assert Less(coo[k], e);
        }
      }
    }
  }

  lemma {:induction false} RowOfInsert(coo: seq<Edge>, e: Edge, v: int)
    ensures multiset(Row(Insert(coo, e), v)) == multiset(Row(coo + [e], v))
  {
    RowOfExtension(coo, e, v);
    if coo != [] && Less(e, coo[|coo| - 1]) {
      var front, last := coo[..|coo| - 1], coo[|coo| - 1];
      RowOfInsert(front, e, v);
      RowOfExtension(front, e, v);
      RowOfExtension(Insert(front, e), last, v);
    }
  }

  /** Sorting permutes the entries within each row, so it changes no degree. */
  lemma {:induction false} RowOfSort(coo: seq<Edge>, v: int)
    ensures multiset(Row(Sort(coo), v)) == multiset(Row(coo, v))
    ensures |Row(Sort(coo), v)| == |Row(coo, v)|
  {
    if coo != [] {
      var front, last := coo[..|coo| - 1], coo[|coo| - 1];
      RowOfSort(front, v);
      RowOfInsert(Sort(front), last, v);
      RowOfExtension(Sort(front), last, v);
    }
    assert |Row(Sort(coo), v)| == |multiset(Row(Sort(coo), v))|;
    assert |Row(coo, v)| == |multiset(Row(coo, v))|;
  }

  lemma {:induction false} TransposedExtension(coo: seq<Edge>, e: Edge, v: int)
    ensures |Row(Transposed(coo + [e]), v)| == |Row(Transposed(coo), v)| + if e.dst == v then 1 else 0
  {
    assert Transposed(coo + [e]) == Transposed(coo) + [Swap(e)];
    RowOfExtension(Transposed(coo), Swap(e), v);
  }

  lemma {:induction false} RowOfTransposeLength(coo: seq<Edge>, v: int)
    ensures |Row(Transposed(Sort(coo)), v)| == |Row(Transposed(coo), v)|
  {
    if coo != [] {
      var front, last := coo[..|coo| - 1], coo[|coo| - 1];
      RowOfTransposeLength(front, v);
      TransposedExtension(front, last, v);
      assert coo == front + [last];
      TransposeOfInsert(Sort(front), last, v);
    }
  }

  lemma {:induction false} TransposeOfInsert(coo: seq<Edge>, e: Edge, v: int)
    ensures |Row(Transposed(Insert(coo, e)), v)| == |Row(Transposed(coo), v)| + if e.dst == v then 1 else 0
  {
    if coo != [] && Less(e, coo[|coo| - 1]) {
      var front, last := coo[..|coo| - 1], coo[|coo| - 1];
      TransposeOfInsert(front, e, v);
      TransposedExtension(Insert(front, e), last, v);
      TransposedExtension(front, last, v);
      assert coo == front + [last];
    } else {
      TransposedExtension(coo, e, v);
    }
  }

  // ---------------------------------------------------------------------------------------------
  // Building the arrays

  function Swap(e: Edge): Edge {
    Edge(e.dst, e.src)
  }

  function Transposed(coo: seq<Edge>): seq<Edge> {
    seq(|coo|, k requires 0 <= k < |coo| => Swap(coo[k]))
  }

  lemma {:induction false} RowCounts(coo: seq<Edge>, a: int, b: int)
    ensures multiset(Row(coo, a))[b] == multiset(coo)[Edge(a, b)]
  {
    if coo != [] {
      var front, e := coo[..|coo| - 1], coo[|coo| - 1];
      RowCounts(front, a, b);
      assert coo == front + [e];
    }
  }

  lemma {:induction false} TransposedCounts(coo: seq<Edge>, a: int, b: int)
    ensures multiset(Transposed(coo))[Edge(b, a)] == multiset(coo)[Edge(a, b)]
  {
    if coo != [] {
      var front, e := coo[..|coo| - 1], coo[|coo| - 1];
      TransposedCounts(front, a, b);
      assert coo == front + [e];
      assert Transposed(coo) == Transposed(front) + [Swap(e)];
    }
  }

  /** The incoming rows are the transpose: a stands in b's incoming row as often as b in a's outgoing row. */
  lemma {:induction false} IncomingIsTranspose(coo: seq<Edge>, a: int, b: int)
    ensures multiset(Row(Transposed(coo), b))[a] == multiset(Row(coo, a))[b]
  {
    RowCounts(coo, a, b);
    RowCounts(Transposed(coo), b, a);
    TransposedCounts(coo, a, b);
  }

  /** The edges by their source, or by their destination for the incoming side. */
  function Side(coo: seq<Edge>, incoming: bool): (r: seq<Edge>)
    ensures |r| == |coo|
  {
    if incoming then Transposed(coo) else coo
  }

  /** Degree counting; the array holds zeros at first. */
  method CountDegrees(coo: array<Edge>, nE: nat, incoming: bool, degrees: array<nat>)
    requires nE <= coo.Length && InRange(coo[..nE], degrees.Length)
    requires forall v :: 0 <= v < degrees.Length ==> degrees[v] == 0
    modifies degrees
    ensures forall v :: 0 <= v < degrees.Length ==> degrees[v] == |Row(Side(coo[..nE], incoming), v)|
  {
    ghost var list := Side(coo[..nE], incoming);
    for i := 0 to nE
      invariant forall v :: 0 <= v < degrees.Length ==> degrees[v] == |Row(list[..i], v)|
    {
      assert coo[..nE][i] == coo[i];
      var s := if incoming then coo[i].dst else coo[i].src;
      assert list[..i + 1] == list[..i] + [list[i]];
      forall v ensures Row(list[..i + 1], v) == Row(list[..i], v) + if s == v then [list[i].dst] else [] {
        RowOfExtension(list[..i], list[i], v);
      }
      degrees[s] := degrees[s] + 1;
    }
    assert list[..nE] == list;
  }

  /** The prefix sum over the degrees. */
  method BuildOffsets(ghost coo: seq<Edge>, nV: nat, degrees: array<nat>, offsets: array<nat>)
    requires degrees.Length == nV && offsets.Length == nV + 1 && degrees != offsets
    requires forall v :: 0 <= v < nV ==> degrees[v] == |Row(coo, v)|
    modifies offsets
    ensures AreOffsets(coo, nV, offsets[..])
  {
    offsets[0] := 0;
    for v := 0 to nV
      invariant forall w {:trigger offsets[w]} :: 0 <= w <= v ==> offsets[w] == Offset(coo, w)
    {
      assert Offset(coo, v + 1) == offsets[v] + degrees[v];
      offsets[v + 1] := offsets[v] + degrees[v];
    }
  }

  /** The part of row v that the scatter has filled after k edges. */
  predicate Filled(coo: seq<Edge>, k: nat, v: nat, tmp: nat, edges: seq<int>)
    requires k <= |coo|
  {
    && tmp == |Row(coo[..k], v)|
    && Offset(coo, v) + tmp <= |edges|
    && edges[Offset(coo, v)..Offset(coo, v) + tmp] == Row(coo[..k], v)
  }

  /** The slot of edge k: behind the earlier edges of its row. */
  function Slot(coo: seq<Edge>, k: nat): nat
    requires k < |coo| && 0 <= coo[k].src
  {
    Offset(coo, coo[k].src) + |Row(coo[..k], coo[k].src)|
  }

  lemma {:induction false} PrefixRowIsShorter(coo: seq<Edge>, k: nat)
    requires k < |coo|
    ensures |Row(coo[..k], coo[k].src)| < |Row(coo, coo[k].src)|
  {
    RowOfExtension(coo[..k], coo[k], coo[k].src);
    assert coo[..k + 1] == coo[..k] + [coo[k]];
    RowOfPrefix(coo, k + 1, coo[k].src);
  }

  lemma {:induction false} RowEndsInside(coo: seq<Edge>, nV: nat, v: nat)
    requires InRange(coo, nV) && v < nV
    ensures Offset(coo, v) + |Row(coo, v)| == Offset(coo, v + 1) <= |coo|
  {
    OffsetIsMonotone(coo, v + 1, nV);
    OffsetsEnd(coo, nV);
  }

  lemma {:induction false} SlotIsInRow(coo: seq<Edge>, nV: nat, k: nat)
    requires InRange(coo, nV) && k < |coo|
    ensures Slot(coo, k) < Offset(coo, coo[k].src + 1) <= |coo|
  {
    PrefixRowIsShorter(coo, k);
    RowEndsInside(coo, nV, coo[k].src);
  }

  lemma {:induction false} RowsAreApart(coo: seq<Edge>, v: nat, w: nat, i: nat, j: nat)
    requires v < w && i < |Row(coo, v)|
    ensures Offset(coo, v) + i < Offset(coo, w) + j
  {
    assert Offset(coo, v + 1) == Offset(coo, v) + |Row(coo, v)|;
    OffsetIsMonotone(coo, v + 1, w);
  }

  /** The slot is not one that another row uses. */
  lemma {:induction false} SlotIsElsewhere(coo: seq<Edge>, nV: nat, k: nat, v: nat, j: nat)
    requires InRange(coo, nV) && k < |coo| && coo[k].src != v && j < |Row(coo[..k], v)|
    ensures Slot(coo, k) != Offset(coo, v) + j
  {
    var s := coo[k].src;
    RowOfPrefix(coo, k, v);
    PrefixRowIsShorter(coo, k);
    if s < v {
      RowsAreApart(coo, s, v, |Row(coo[..k], s)|, j);
    } else {
      RowsAreApart(coo, v, s, j, |Row(coo[..k], s)|);
    }
  }

  lemma {:induction false} UpdateInside(s: seq<int>, from: nat, to: nat, x: int)
    requires from <= to < |s|
    ensures s[to := x][from..to + 1] == s[from..to] + [x]
  {
  }

  lemma {:induction false} UpdateOutside(s: seq<int>, from: nat, to: nat, at: nat, x: int)
    requires from <= to <= |s| && at < |s| && (at < from || to <= at)
    ensures s[at := x][from..to] == s[from..to]
  {
  }

  /** Writing one edge into its slot fills one more place of its row and touches no other row. */
  lemma {:induction false} ScatterStep(coo: seq<Edge>, nV: nat, k: nat, v: nat, tmp: nat, edges: seq<int>)
    requires InRange(coo, nV) && k < |coo| && v < nV && |edges| == |coo|
    requires Filled(coo, k, v, tmp, edges)
    ensures Slot(coo, k) < |coo|
    ensures Filled(coo, k + 1, v, tmp + if coo[k].src == v then 1 else 0, edges[Slot(coo, k) := coo[k].dst])
  {
    SlotIsInRow(coo, nV, k);
    RowOfExtension(coo[..k], coo[k], v);
    assert coo[..k + 1] == coo[..k] + [coo[k]];
    var o := Offset(coo, v);
    if coo[k].src == v {
      UpdateInside(edges, o, o + tmp, coo[k].dst);
    } else {
      if o <= Slot(coo, k) < o + tmp {
        SlotIsElsewhere(coo, nV, k, v, Slot(coo, k) - o);
      }
      UpdateOutside(edges, o, o + tmp, Slot(coo, k), coo[k].dst);
    }
  }

  /** Every row is filled as far as the first k edges fill it. */
  predicate AllFilled(coo: seq<Edge>, nV: nat, k: nat, tmp: seq<nat>, edges: seq<int>)
    requires k <= |coo|
  {
    && |tmp| == nV && |edges| == |coo|
    && forall v: nat :: v < nV ==> Filled(coo, k, v, tmp[v], edges)
  }

  lemma {:induction false} NothingFilled(coo: seq<Edge>, nV: nat, tmp: seq<nat>, edges: seq<int>)
    requires InRange(coo, nV) && |tmp| == nV && |edges| == |coo| && forall v :: 0 <= v < nV ==> tmp[v] == 0
    ensures AllFilled(coo, nV, 0, tmp, edges)
  {
    forall v: nat | v < nV ensures Filled(coo, 0, v, tmp[v], edges) {
      OffsetIsMonotone(coo, v, nV);
      OffsetsEnd(coo, nV);
    }
  }

  lemma {:induction false} ScatterKeepsFilled(coo: seq<Edge>, nV: nat, k: nat, tmp: seq<nat>, edges: seq<int>,
          slot: nat)
    requires InRange(coo, nV) && k < |coo| && AllFilled(coo, nV, k, tmp, edges)
    requires slot == Offset(coo, coo[k].src) + tmp[coo[k].src]
    ensures slot < |coo|
    ensures AllFilled(coo, nV, k + 1, tmp[coo[k].src := tmp[coo[k].src] + 1], edges[slot := coo[k].dst])
  {
    SlotIsInRow(coo, nV, k);
    assert Filled(coo, k, coo[k].src, tmp[coo[k].src], edges);
    assert slot == Slot(coo, k);
    var tmp', edges' := tmp[coo[k].src := tmp[coo[k].src] + 1], edges[slot := coo[k].dst];
    forall v: nat | v < nV ensures Filled(coo, k + 1, v, tmp'[v], edges') {
      ScatterStep(coo, nV, k, v, tmp[v], edges);
    }
  }

  lemma {:induction false} FilledIsCsr(coo: seq<Edge>, nV: nat, tmp: seq<nat>, offsets: seq<nat>, edges: seq<int>)
    requires AllFilled(coo, nV, |coo|, tmp, edges) && AreOffsets(coo, nV, offsets)
    ensures IsCsr(coo, nV, offsets, edges)
  {
    forall v: nat | v < nV ensures RowIsAt(coo, v, offsets, edges) {
      FullRow(coo, nV, v, tmp[v], offsets, edges);
    }
  }

  /** One edge: its destination goes to the next free place of its row. */
  method Place(edges: array<int>, nE: nat, offsets: array<nat>, tmp: array<nat>, src: int, dest: int)
    requires offsets != tmp && 0 <= src < tmp.Length < offsets.Length
    requires nE <= edges.Length && offsets[src] + tmp[src] < nE
    modifies edges, tmp
    ensures edges[..nE] == old(edges[..nE])[offsets[src] + old(tmp[src]) := dest]
    ensures tmp[..] == old(tmp[..])[src := old(tmp[src]) + 1]
  {
    edges[offsets[src] + tmp[src]] := dest;
    tmp[src] := tmp[src] + 1;
  }

  /** One round of the scatter loop. */
  method ScatterEdge(ghost list: seq<Edge>, i: nat, src: int, dest: int, nV: nat, offsets: array<nat>,
                     tmp: array<nat>, edges: array<int>, nE: nat)
    requires i < |list| == nE <= edges.Length && list[i] == Edge(src, dest) && InRange(list, nV)
    requires offsets != tmp && AreOffsets(list, nV, offsets[..]) && tmp.Length == nV
    requires AllFilled(list, nV, i, tmp[..], edges[..nE])
    modifies edges, tmp
    ensures AllFilled(list, nV, i + 1, tmp[..], edges[..nE])
  {
    assert offsets[src] == offsets[..][src];
    ghost var slot := offsets[src] + tmp[src];
    ScatterKeepsFilled(list, nV, i, tmp[..], edges[..nE], slot);
    ghost var tmp', edges' := tmp[..][src := tmp[src] + 1], edges[..nE][slot := dest];
    Place(edges, nE, offsets, tmp, src, dest);
    assert tmp[..] == tmp' && edges[..nE] == edges';
  }

  lemma {:induction false} SidesInRange(coo: seq<Edge>, incoming: bool, nV: nat)
    requires InRange(coo, nV)
    ensures InRange(Side(coo, incoming), nV)
  {
  }

  /** The stable scatter: every edge goes behind the earlier edges of its row. */
  method Scatter(coo: array<Edge>, nE: nat, incoming: bool, nV: nat, offsets: array<nat>, edges: array<int>)
    requires nE <= coo.Length && nE <= edges.Length && InRange(coo[..nE], nV)
    requires AreOffsets(Side(coo[..nE], incoming), nV, offsets[..])
    modifies edges
    ensures IsCsr(Side(coo[..nE], incoming), nV, offsets[..], edges[..nE])
  {
    var tmp := new nat[nV](_ => 0);
    ghost var list := Side(coo[..nE], incoming);
    SidesInRange(coo[..nE], incoming, nV);
    NothingFilled(list, nV, tmp[..], edges[..nE]);
    for i := 0 to nE
      invariant fresh(tmp) && AllFilled(list, nV, i, tmp[..], edges[..nE])
    {
      assert coo[..nE][i] == coo[i];
      var src := if incoming then coo[i].dst else coo[i].src;
      var dest := if incoming then coo[i].src else coo[i].dst;
      ScatterEdge(list, i, src, dest, nV, offsets, tmp, edges, nE);
    }
    FilledIsCsr(list, nV, tmp[..], offsets[..], edges[..nE]);
  }

  lemma {:induction false} FullRow(coo: seq<Edge>, nV: nat, v: nat, tmp: nat, offsets: seq<nat>, edges: seq<int>)
    requires v < nV && AreOffsets(coo, nV, offsets) && Filled(coo, |coo|, v, tmp, edges)
    ensures RowIsAt(coo, v, offsets, edges)
  {
    assert coo[..|coo|] == coo;
    assert offsets[v + 1] == offsets[v] + |Row(coo, v)|;
  }
}
