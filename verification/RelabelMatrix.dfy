/**
 * Rebuilding the matrix with the new labels (externals/cub-1.8.0/experimental/sparse_matrix.h, lines
 * 249-278, 944-1003 and 1197-1240): entries become relabelled tuples, are sorted, and form rows again.
 */
module RelabelMatrix {
  import opened CooToCsr
  import opened CsrMatrix
  import opened CsrRows
  import opened EdgeList
  import opened MatrixLayout
  import opened Rcm
  import opened RcmOrder

  lemma {:induction false} EntriesInRange(off: seq<nat>, cols: seq<int>, n: nat)
    requires WellFormed(off, cols, n) && |off| == n + 1
    ensures InRange(Entries(off, cols), n)
  {
    forall k | 0 <= k < |cols| ensures 0 <= Entries(off, cols)[k].src < n && 0 <= Entries(off, cols)[k].dst < n {
      var v := PositionInRow(off, cols, n, k);
    }
  }

  /** One tuple per entry, with both ends relabelled, then sorted by row and column. */
  method InitCsrRelabel(rowOffsets: array<nat>, columns: array<int>, numRows: nat, relabel: array<int>)
    returns (tuples: array<Edge>)
    requires rowOffsets.Length == numRows + 1 && relabel.Length == numRows
    requires WellFormed(rowOffsets[..], columns[..], numRows)
    ensures fresh(tuples)
    ensures InRange(Entries(rowOffsets[..], columns[..]), numRows)
    ensures tuples[..] == Sort(Relabelled(Entries(rowOffsets[..], columns[..]), relabel[..]))
  {
    ghost var off, entries := rowOffsets[..], Entries(rowOffsets[..], columns[..]);
    EntriesInRange(off, columns[..], numRows);
    ghost var goal := Relabelled(entries, relabel[..]);
    tuples := new Edge[columns.Length](_ => Edge(0, 0));
    for row := 0 to numRows
      invariant fresh(tuples)
      invariant forall k :: 0 <= k < off[row] ==> tuples[k] == goal[k]
    {
      assert off[row] <= off[row + 1] <= off[numRows];
      for nonzero := rowOffsets[row] to rowOffsets[row + 1]
        invariant fresh(tuples)
        invariant forall k :: 0 <= k < nonzero ==> tuples[k] == goal[k]
      {
        RowOfUnique(off, columns[..], numRows, nonzero, row);
        tuples[nonzero] := Edge(relabel[row], relabel[columns[nonzero]]);
      }
    }
    assert tuples[..tuples.Length] == goal;
    SortInPlace(tuples, tuples.Length);
    assert tuples[..] == tuples[..tuples.Length];
  }

  /** Row r starts at position o of a sorted list. */
  predicate StartsAt(coo: seq<Edge>, r: int, o: int) {
    && 0 <= o <= |coo|
    && (forall k :: 0 <= k < o ==> coo[k].src < r)
    && (forall k :: o <= k < |coo| ==> r <= coo[k].src)
  }

  lemma {:induction false} RowStartsHere(coo: seq<Edge>, i: nat, r: int)
    requires Sorted(coo) && i <= |coo|
    requires i > 0 ==> coo[i - 1].src < r
    requires i < |coo| ==> r <= coo[i].src
    ensures StartsAt(coo, r, i)
  {
    forall k | 0 <= k < i ensures coo[k].src < r {
      assert k < i - 1 ==> !Less(coo[i - 1], coo[k]);
    }
    forall k | i <= k < |coo| ensures r <= coo[k].src {
      assert i < k ==> !Less(coo[k], coo[i]);
    }
  }

  /** Rows from the sorted tuples; leading, middle and trailing rows may be empty. */
  method FromCoo(tuples: array<Edge>, numRows: nat) returns (rowOffsets: array<nat>, columns: array<int>)
    requires Sorted(tuples[..]) && InRange(tuples[..], numRows)
    ensures fresh(rowOffsets) && fresh(columns) && rowOffsets.Length == numRows + 1
    ensures WellFormed(rowOffsets[..], columns[..], numRows)
    ensures Entries(rowOffsets[..], columns[..]) == tuples[..]
  {
    ghost var coo := tuples[..];
    rowOffsets := new nat[numRows + 1](_ => 0);
    columns := new int[tuples.Length](_ => 0);
    var prevRow := -1;
    for currentEdge := 0 to tuples.Length
      invariant fresh(rowOffsets) && fresh(columns) && rowOffsets.Length == numRows + 1
      invariant prevRow == if currentEdge == 0 then -1 else coo[currentEdge - 1].src
      invariant -1 <= prevRow < numRows
      invariant forall r :: 0 <= r <= prevRow ==> StartsAt(coo, r, rowOffsets[r])
      invariant forall k :: 0 <= k < currentEdge ==> columns[k] == coo[k].dst
    {
      assert coo[currentEdge] == tuples[currentEdge];
      var currentRow := tuples[currentEdge].src;
      assert currentEdge > 0 ==> !Less(coo[currentEdge], coo[currentEdge - 1]);
      for row := prevRow + 1 to currentRow + 1
        invariant forall k :: 0 <= k < currentEdge ==> columns[k] == coo[k].dst
        invariant forall r :: 0 <= r < row ==> StartsAt(coo, r, rowOffsets[r])
      {
        RowStartsHere(coo, currentEdge, row);
        rowOffsets[row] := currentEdge;
      }
      prevRow := currentRow;
      columns[currentEdge] := tuples[currentEdge].dst;
    }
    for row := prevRow + 1 to numRows + 1
      invariant forall k :: 0 <= k < tuples.Length ==> columns[k] == coo[k].dst
      invariant forall r :: 0 <= r < row ==> StartsAt(coo, r, rowOffsets[r])
    {
      RowStartsHere(coo, tuples.Length, row);
      rowOffsets[row] := tuples.Length;
    }
    StartsFormRows(coo, numRows, rowOffsets[..], columns[..]);
  }

  lemma {:induction false} StartsFormRows(coo: seq<Edge>, n: nat, off: seq<nat>, cols: seq<int>)
    requires InRange(coo, n) && |off| == n + 1 && |cols| == |coo|
    requires forall r :: 0 <= r <= n ==> StartsAt(coo, r, off[r])
    requires forall k :: 0 <= k < |coo| ==> cols[k] == coo[k].dst
    ensures WellFormed(off, cols, n) && Entries(off, cols) == coo
  {
    StartsAreOrdered(coo, n, off);
    forall k | 0 <= k < |coo| ensures Entries(off, cols)[k] == coo[k] {
      var r := coo[k].src;
      assert StartsAt(coo, r, off[r]) && StartsAt(coo, r + 1, off[r + 1]);
      RowOfUnique(off, cols, n, k, r);
    }
  }

  lemma {:induction false} StartsAreOrdered(coo: seq<Edge>, n: nat, off: seq<nat>)
    requires InRange(coo, n) && |off| == n + 1
    requires forall r :: 0 <= r <= n ==> StartsAt(coo, r, off[r])
    ensures off[0] == 0 && off[n] == |coo| && forall v, w :: 0 <= v <= w <= n ==> off[v] <= off[w]
  {
    assert StartsAt(coo, 0, off[0]) && StartsAt(coo, n, off[n]);
    if |coo| > 0 {
      assert 0 <= coo[0].src && coo[|coo| - 1].src < n;
    }
    forall v, w | 0 <= v <= w <= n ensures off[v] <= off[w] {
      StartOrder(coo, v, off[v], w, off[w]);
    }
  }

  lemma {:induction false} StartOrder(coo: seq<Edge>, r: int, o: int, s: int, p: int)
    requires StartsAt(coo, r, o) && StartsAt(coo, s, p) && r <= s
    ensures o <= p
  {
    if p < |coo| {
      assert s <= coo[p].src;
    }
  }

  // ---------------------------------------------------------------------------------------------
  // The matrix

  lemma {:induction false} RelabelledWithout(b: seq<Edge>, k: nat, labels: seq<int>)
    requires InRange(b, |labels|) && k < |b|
    ensures InRange(b[..k] + b[k + 1..], |labels|)
    ensures multiset(b) == multiset(b[..k] + b[k + 1..]) + multiset{b[k]}
    ensures multiset(Relabelled(b, labels))
         == multiset(Relabelled(b[..k] + b[k + 1..], labels)) + multiset{Edge(labels[b[k].src], labels[b[k].dst])}
  {
    var r := Relabelled(b, labels);
    assert b == b[..k] + [b[k]] + b[k + 1..];
    assert Relabelled(b[..k] + b[k + 1..], labels) == r[..k] + r[k + 1..];
    assert r == r[..k] + [r[k]] + r[k + 1..];
  }

  lemma {:induction false} RelabelledPermuted(a: seq<Edge>, b: seq<Edge>, labels: seq<int>)
    requires InRange(a, |labels|) && InRange(b, |labels|) && multiset(a) == multiset(b)
    ensures multiset(Relabelled(a, labels)) == multiset(Relabelled(b, labels))
    decreases |a|
  {
    if a == [] {
      assert |multiset(b)| == 0;
    } else {
      assert a[0] in multiset(b);
      var k :| 0 <= k < |b| && b[k] == a[0];
      RelabelledWithout(a, 0, labels);
      RelabelledWithout(b, k, labels);
      var restA, restB := a[..0] + a[0 + 1..], b[..k] + b[k + 1..];
      assert multiset(restA) == multiset(a) - multiset{a[0]};
      assert multiset(restB) == multiset(b) - multiset{a[0]};
      RelabelledPermuted(restA, restB, labels);
    }
  }

  class SparseMatrix {
    const numRows: nat
    const numCols: nat
    var rowOffsets: array<nat>
    var columnIndices: array<int>

    ghost predicate Valid()
      reads this, rowOffsets, columnIndices
    {
      rowOffsets.Length == numRows + 1 && WellFormed(rowOffsets[..], columnIndices[..], numCols)
    }

    /** The positions of the entries, in storage order. */
    ghost function Positions(): seq<Edge>
      requires Valid()
      reads this, rowOffsets, columnIndices
    {
      Entries(rowOffsets[..], columnIndices[..])
    }

    constructor (numRows: nat, numCols: nat, rowOffsets: array<nat>, columnIndices: array<int>)
      requires rowOffsets.Length == numRows + 1 && WellFormed(rowOffsets[..], columnIndices[..], numCols)
      ensures Valid() && this.numRows == numRows && this.numCols == numCols
      ensures this.rowOffsets == rowOffsets && this.columnIndices == columnIndices
    {
      this.numRows, this.numCols := numRows, numCols;
      this.rowOffsets, this.columnIndices := rowOffsets, columnIndices;
    }

    /**
     * Relabel a square matrix in Cuthill-McKee order and rebuild it; other matrices stay as they are.  The
     * new matrix has exactly the old positions under the new labels, sorted by row and column.
     */
    method RcmRelabel()
      returns (ghost labels: seq<int>, ghost deg: seq<nat>, ghost par: seq<int>, ghost comps: seq<Component>)
      requires Valid()
      modifies this, columnIndices
      ensures Valid()
      ensures numRows != numCols ==> Positions() == old(Positions())
      ensures numRows == numCols ==>
                && CuthillMcKee(old(Pattern(rowOffsets[..], columnIndices[..], numRows)), deg, labels, par, comps)
                && |labels| == numRows && InRange(old(Positions()), numRows)
                && multiset(Positions()) == multiset(Relabelled(old(Positions()), labels))
                && Sorted(Positions())
      ensures numRows == numCols ==>
                |deg| == numRows && forall v :: 0 <= v < numRows ==> deg[v] == multiset(old(columnIndices[..]))[v]
    {
      labels, deg, par, comps := [], [], [], [];
      if numCols != numRows {
        return;
      }
      ghost var off, before := rowOffsets[..], columnIndices[..];
      var relabelIndices := new int[numRows](_ => 0);
      deg, par, comps := RcmLabels(rowOffsets, columnIndices, numRows, relabelIndices);
      labels := relabelIndices[..];
      PermutedRowsStayValid(off, before, columnIndices[..], numRows);
      PermutedRowsKeepEntries(off, before, columnIndices[..], numRows);
      EntriesInRange(off, before, numRows);
      var tuples := InitCsrRelabel(rowOffsets, columnIndices, numRows, relabelIndices);
      ghost var entries := Entries(off, columnIndices[..]);
      RelabelledPermuted(entries, Entries(off, before), labels);
      TuplesAreSorted(entries, labels);
      rowOffsets, columnIndices := FromCoo(tuples, numRows);
    }
  }

  lemma {:induction false} TuplesAreSorted(entries: seq<Edge>, labels: seq<int>)
    requires InRange(entries, |labels|) && forall v :: 0 <= v < |labels| ==> 0 <= labels[v] < |labels|
    ensures Sorted(Sort(Relabelled(entries, labels))) && InRange(Sort(Relabelled(entries, labels)), |labels|)
  {
    var r := Relabelled(entries, labels);
    SortSorts(r);
    forall k | 0 <= k < |Sort(r)| ensures 0 <= Sort(r)[k].src < |labels| && 0 <= Sort(r)[k].dst < |labels| {
      SortKeepsElements(r, Sort(r)[k]);
    }
  }
}
