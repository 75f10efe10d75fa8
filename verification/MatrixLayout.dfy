/**
 * A sparse matrix in compressed rows, its pattern as a graph, and its entries as an edge list
 * (externals/cub-1.8.0/experimental/sparse_matrix.h, lines 245-291 and 944-1003).
 */
module MatrixLayout {
  import opened Distance
  import opened EdgeList

  predicate WellFormed(off: seq<nat>, cols: seq<int>, numCols: nat) {
    && |off| > 0 && off[0] == 0 && off[|off| - 1] == |cols|
    && (forall v, w :: 0 <= v <= w < |off| ==> off[v] <= off[w])
    && (forall k :: 0 <= k < |cols| ==> 0 <= cols[k] < numCols)
  }

  function Slice(off: seq<nat>, cols: seq<int>, v: int): seq<int>
    requires 0 <= v < |off| - 1 && off[v] <= off[v + 1] <= |cols|
  {
    cols[off[v]..off[v + 1]]
  }

  /** The columns of every row, as a graph. */
  function Pattern(off: seq<nat>, cols: seq<int>, numCols: nat): Digraph
    requires WellFormed(off, cols, numCols)
  {
    seq(|off| - 1, v requires 0 <= v < |off| - 1 => set w | w in Slice(off, cols, v))
  }

  lemma {:induction false} PatternIsValid(off: seq<nat>, cols: seq<int>, n: nat)
    requires WellFormed(off, cols, n) && |off| == n + 1
    ensures ValidGraph(Pattern(off, cols, n))
  {
    var g := Pattern(off, cols, n);
    forall v | 0 <= v < |g| ensures forall w :: w in g[v] ==> 0 <= w < |g| {
      forall w | w in g[v] ensures 0 <= w < |g| {
        var k :| 0 <= k < |Slice(off, cols, v)| && Slice(off, cols, v)[k] == w;
        assert cols[off[v] + k] == w;
      }
    }
  }

  /** Every row holds the same columns, in some order. */
  predicate RowsPermuted(off: seq<nat>, before: seq<int>, after: seq<int>, numCols: nat) {
    && WellFormed(off, before, numCols) && |after| == |before|
    && forall v :: 0 <= v < |off| - 1 ==> RowPermuted(off, before, after, v)
  }

  predicate RowPermuted(off: seq<nat>, before: seq<int>, after: seq<int>, v: int)
    requires 0 <= v < |off| - 1
  {
    && off[v] <= off[v + 1] <= |before| == |after|
    && multiset(Slice(off, before, v)) == multiset(Slice(off, after, v))
  }

  /** The row that position k belongs to: the last one that starts at or before k, among the first n. */
  function RowOf(off: seq<nat>, n: nat, k: nat): nat
    requires n <= |off|
  {
    if n == 0 then 0 else if off[n - 1] <= k then n - 1 else RowOf(off, n - 1, k)
  }

  lemma {:induction false} RowOfHolds(off: seq<nat>, n: nat, k: nat)
    requires 0 < n < |off| && off[0] == 0 && k < off[n]
    ensures RowOf(off, n, k) < n && off[RowOf(off, n, k)] <= k < off[RowOf(off, n, k) + 1]
  {
    if off[n - 1] > k {
      RowOfHolds(off, n - 1, k);
    }
  }

  /** The entries of the matrix in the order of the column array. */
  function Entries(off: seq<nat>, cols: seq<int>): seq<Edge>
    requires |off| > 0
  {
    seq(|cols|, k requires 0 <= k < |cols| => Edge(RowOf(off, |off| - 1, k), cols[k]))
  }

  lemma {:induction false} PositionInRow(off: seq<nat>, cols: seq<int>, numCols: nat, k: nat) returns (v: nat)
    requires WellFormed(off, cols, numCols) && k < |cols|
    ensures v < |off| - 1 && off[v] <= k < off[v + 1] && RowOf(off, |off| - 1, k) == v
  {
    RowOfHolds(off, |off| - 1, k);
    v := RowOf(off, |off| - 1, k);
  }

  lemma {:induction false} RowsAreDisjoint(off: seq<nat>, cols: seq<int>, numCols: nat, v: nat, w: nat, k: nat)
    requires WellFormed(off, cols, numCols) && v < |off| - 1 && w < |off| - 1
    requires off[v] <= k < off[v + 1] && off[w] <= k < off[w + 1]
    ensures v == w
  {
  }

  lemma {:induction false} RowOfUnique(off: seq<nat>, cols: seq<int>, numCols: nat, k: nat, v: nat)
    requires WellFormed(off, cols, numCols) && v < |off| - 1 && off[v] <= k < off[v + 1]
    ensures RowOf(off, |off| - 1, k) == v
  {
    assert off[v + 1] <= off[|off| - 1];
    var w := PositionInRow(off, cols, numCols, k);
    RowsAreDisjoint(off, cols, numCols, v, w, k);
  }

  // ---------------------------------------------------------------------------------------------
  // Permuting the columns within rows

  lemma {:induction false} PermutedRowsStayValid(off: seq<nat>, before: seq<int>, after: seq<int>, numCols: nat)
    requires RowsPermuted(off, before, after, numCols)
    ensures WellFormed(off, after, numCols)
    ensures Pattern(off, after, numCols) == Pattern(off, before, numCols)
  {
    forall k | 0 <= k < |after| ensures 0 <= after[k] < numCols {
      var v := PositionInRow(off, before, numCols, k);
      assert RowPermuted(off, before, after, v);
      assert Slice(off, after, v)[k - off[v]] == after[k];
      assert after[k] in multiset(Slice(off, before, v));
      var j :| 0 <= j < |Slice(off, before, v)| && Slice(off, before, v)[j] == after[k];
      assert before[off[v] + j] == after[k];
    }
    var p, q := Pattern(off, before, numCols), Pattern(off, after, numCols);
    forall v | 0 <= v < |off| - 1 ensures p[v] == q[v] {
      assert RowPermuted(off, before, after, v);
      forall w ensures w in p[v] <==> w in q[v] {
        assert w in Slice(off, before, v) <==> w in multiset(Slice(off, before, v));
        assert w in Slice(off, after, v) <==> w in multiset(Slice(off, after, v));
      }
    }
  }

  function RowEntries(v: nat, row: seq<int>): seq<Edge> {
    seq(|row|, k requires 0 <= k < |row| => Edge(v, row[k]))
  }

  lemma {:induction false} RowEntriesCount(v: nat, row: seq<int>, e: Edge)
    ensures multiset(RowEntries(v, row))[e] == if e.src == v then multiset(row)[e.dst] else 0
  {
    if row != [] {
      var front, last := row[..|row| - 1], row[|row| - 1];
      RowEntriesCount(v, front, e);
      assert row == front + [last];
      assert RowEntries(v, row) == RowEntries(v, front) + [Edge(v, last)];
    }
  }

  lemma {:induction false} RowEntriesPermuted(v: nat, a: seq<int>, b: seq<int>)
    requires multiset(a) == multiset(b)
    ensures multiset(RowEntries(v, a)) == multiset(RowEntries(v, b))
  {
    forall e ensures multiset(RowEntries(v, a))[e] == multiset(RowEntries(v, b))[e] {
      RowEntriesCount(v, a, e);
      RowEntriesCount(v, b, e);
    }
  }

  /** The entries of the first n rows. */
  lemma {:induction false} EntriesPermuted(off: seq<nat>, before: seq<int>, after: seq<int>, numCols: nat, n: nat)
    requires RowsPermuted(off, before, after, numCols) && n < |off|
    ensures off[n] <= |before| && multiset(Entries(off, before)[..off[n]]) == multiset(Entries(off, after)[..off[n]])
  {
    PermutedRowsStayValid(off, before, after, numCols);
    if n > 0 {
      EntriesPermuted(off, before, after, numCols, n - 1);
      assert RowPermuted(off, before, after, n - 1);
      EntriesOfRow(off, before, numCols, n - 1);
      EntriesOfRow(off, after, numCols, n - 1);
      RowEntriesPermuted(n - 1, Slice(off, before, n - 1), Slice(off, after, n - 1));
    }
  }

  lemma {:induction false} EntriesOfRow(off: seq<nat>, cols: seq<int>, numCols: nat, v: nat)
    requires WellFormed(off, cols, numCols) && v < |off| - 1
    ensures off[v + 1] <= |cols|
    ensures Entries(off, cols)[..off[v + 1]] == Entries(off, cols)[..off[v]] + RowEntries(v, Slice(off, cols, v))
  {
    assert off[v + 1] <= off[|off| - 1];
    var e := Entries(off, cols);
    forall k | off[v] <= k < off[v + 1] ensures e[k] == RowEntries(v, Slice(off, cols, v))[k - off[v]] {
      RowOfUnique(off, cols, numCols, k, v);
    }
  }

  /** Permuting within rows permutes the entries. */
  lemma {:induction false} PermutedRowsKeepEntries(off: seq<nat>, before: seq<int>, after: seq<int>, numCols: nat)
    requires RowsPermuted(off, before, after, numCols)
    ensures multiset(Entries(off, before)) == multiset(Entries(off, after))
  {
    EntriesPermuted(off, before, after, numCols, |off| - 1);
    assert Entries(off, before)[..|before|] == Entries(off, before);
    assert Entries(off, after)[..|after|] == Entries(off, after);
  }
}
