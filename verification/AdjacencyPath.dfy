/**
 * The diagonal search behind the balanced adjacency intersection
 * (primitives/Operator++.i.cuh, lines 56-95 and 141-185).
 *
 * Two strictly increasing adjacency lists u and v span a grid of cells (ui, vi).  The merge path walks
 * from (0, 0) to (|u|-1, |v|-1), one cell per diagonal ui + vi = d; on a tie it advances in v.
 */
module AdjacencyPath {
  import opened Order

  datatype Cell = Cell(ui: int, vi: int)

  predicate InGrid(u: seq<int>, v: seq<int>, c: Cell) {
    0 <= c.ui < |u| && 0 <= c.vi < |v|
  }

  /** The number of diagonals of the grid, which is the number of cells on the path. */
  function TotalWork(u: seq<int>, v: seq<int>): int {
    |u| + |v| - 1
  }

  function NextCell(u: seq<int>, v: seq<int>, c: Cell): Cell
    requires InGrid(u, v, c)
  {
    if c.vi < |v| - 1 && c.ui < |u| - 1 then
      if u[c.ui + 1] >= v[c.vi + 1] then Cell(c.ui, c.vi + 1) else Cell(c.ui + 1, c.vi)
    else if c.vi < |v| - 1 then
      Cell(c.ui, c.vi + 1)
    else
      Cell(c.ui + 1, c.vi)
  }

  /** The cell that the path visits on diagonal d. */
  function PathCell(u: seq<int>, v: seq<int>, d: nat): (c: Cell)
    requires |u| > 0 && |v| > 0
    requires d < TotalWork(u, v)
    ensures InGrid(u, v, c) && c.ui + c.vi == d
  {
    if d == 0 then Cell(0, 0) else NextCell(u, v, PathCell(u, v, d - 1))
  }

  /**
   * A cell (i, j) splits the lists: everything up to u[i] comes before v[j+1], and everything up to
   * v[j] comes no later than u[i+1].  This describes the path without walking it.
   */
  predicate Splits(u: seq<int>, v: seq<int>, c: Cell)
    requires InGrid(u, v, c)
  {
    && (c.ui == 0 || c.vi == |v| - 1 || u[c.ui] < v[c.vi + 1])
    && (c.vi == 0 || c.ui == |u| - 1 || v[c.vi] <= u[c.ui + 1])
  }

  lemma {:induction false} PathCellSplits(u: seq<int>, v: seq<int>, d: nat)
    requires |u| > 0 && |v| > 0 && StrictlyIncreasing(u) && StrictlyIncreasing(v)
    requires d < TotalWork(u, v)
    ensures Splits(u, v, PathCell(u, v, d))
  {
    if d > 0 {
      PathCellSplits(u, v, d - 1);
    }
  }

  /** On one diagonal, a cell further along u than a splitting cell does not split. */
  lemma {:induction false} SplitExcludesLater(u: seq<int>, v: seq<int>, c: Cell, d: Cell)
    requires StrictlyIncreasing(u) && StrictlyIncreasing(v)
    requires InGrid(u, v, c) && InGrid(u, v, d) && c.ui + c.vi == d.ui + d.vi
    requires c.ui < d.ui && Splits(u, v, c)
    ensures !Splits(u, v, d)
  {
    assert v[d.vi + 1] <= v[c.vi] <= u[c.ui + 1] <= u[d.ui];
  }

  lemma {:induction false} SameDiagonalSplit(u: seq<int>, v: seq<int>, c: Cell, d: Cell)
    requires StrictlyIncreasing(u) && StrictlyIncreasing(v)
    requires InGrid(u, v, c) && InGrid(u, v, d) && c.ui + c.vi == d.ui + d.vi
    requires Splits(u, v, c) && Splits(u, v, d)
    ensures c == d
  {
    if c.ui < d.ui {
      SplitExcludesLater(u, v, c, d);
    } else if d.ui < c.ui {
      SplitExcludesLater(u, v, d, c);
    }
  }

  lemma {:induction false} PathCellIffSplits(u: seq<int>, v: seq<int>, c: Cell)
    requires |u| > 0 && |v| > 0 && StrictlyIncreasing(u) && StrictlyIncreasing(v)
    requires InGrid(u, v, c)
    ensures Splits(u, v, c) <==> c == PathCell(u, v, c.ui + c.vi)
  {
    PathCellSplits(u, v, c.ui + c.vi);
    if Splits(u, v, c) {
      SameDiagonalSplit(u, v, c, PathCell(u, v, c.ui + c.vi));
    }
  }

  /** Every pair of equal entries is a cell of the path. */
  lemma {:induction false} MatchesLieOnPath(u: seq<int>, v: seq<int>, i: nat, j: nat)
    requires StrictlyIncreasing(u) && StrictlyIncreasing(v)
    requires i < |u| && j < |v| && u[i] == v[j]
    ensures PathCell(u, v, i + j) == Cell(i, j)
  {
    PathCellIffSplits(u, v, Cell(i, j));
  }

  /** On a tie the path has advanced in v first: it enters a match from the row before. */
  lemma {:induction false} MatchIsEnteredInV(u: seq<int>, v: seq<int>, i: nat, j: nat)
    requires StrictlyIncreasing(u) && StrictlyIncreasing(v)
    requires 0 < i < |u| && j < |v| && u[i] == v[j]
    ensures PathCell(u, v, i + j - 1) == Cell(i - 1, j)
  {
    PathCellIffSplits(u, v, Cell(i - 1, j));
  }

  /** The path only moves forward in both lists. */
  lemma {:induction false} PathIsMonotone(u: seq<int>, v: seq<int>, d: nat, e: nat)
    requires |u| > 0 && |v| > 0
    requires d <= e < TotalWork(u, v)
    ensures PathCell(u, v, d).ui <= PathCell(u, v, e).ui
    ensures PathCell(u, v, d).vi <= PathCell(u, v, e).vi
    decreases e - d
  {
    if d < e {
      PathIsMonotone(u, v, d, e - 1);
      var c := PathCell(u, v, e - 1);
      assert PathCell(u, v, e) == NextCell(u, v, c);
    }
  }

  /** Probing a diagonal before the splitting cell finds u strictly behind v ... */
  lemma {:induction false} ProbeBefore(u: seq<int>, v: seq<int>, p: Cell, i: int, j: int)
    requires StrictlyIncreasing(u) && StrictlyIncreasing(v)
    requires InGrid(u, v, p) && Splits(u, v, p)
    requires p.ui + p.vi == i + j && 0 <= i < p.ui && j < |v|
    ensures u[i] < v[j]
  {
    assert u[i] < u[p.ui] < v[p.vi + 1] <= v[j];
  }

  /** ... and probing after it finds v no further than u. */
  lemma {:induction false} ProbeAfter(u: seq<int>, v: seq<int>, p: Cell, i: int, j: int)
    requires StrictlyIncreasing(u) && StrictlyIncreasing(v)
    requires InGrid(u, v, p) && Splits(u, v, p)
    requires p.ui + p.vi == i + j && p.ui < i < |u| && 0 <= j
    ensures v[j] <= u[i]
  {
    assert v[j] < v[p.vi] <= u[p.ui + 1] <= u[i];
  }

  /** Probing next to the splitting cell shows which of the two neighbouring cells it is. */
  lemma {:induction false} ProbeHits(u: seq<int>, v: seq<int>, p: Cell, i: int, j: int)
    requires StrictlyIncreasing(u) && StrictlyIncreasing(v)
    requires InGrid(u, v, p) && Splits(u, v, p) && p.ui + p.vi == i + j
    requires 0 <= i < |u| - 1 && 1 <= j < |v| && u[i] < v[j] && u[i + 1] >= v[j - 1]
    ensures p == if u[i + 1] < v[j] then Cell(i + 1, j - 1) else Cell(i, j)
  {
    SameDiagonalSplit(u, v, p, if u[i + 1] < v[j] then Cell(i + 1, j - 1) else Cell(i, j));
  }

  /**
   * The binary search along one diagonal.  The range runs from (lowUi, lowVi) to (highUi, highVi), with
   * highUi <= lowUi, as in the source.  It reads only inside both lists and ends at the path cell.
   */
  method BSearchPath(u: seq<int>, v: seq<int>, lowVi0: int, lowUi0: int, highVi0: int, highUi0: int,
                     ghost path: Cell)
    returns (currVi: int, currUi: int)
    requires StrictlyIncreasing(u) && StrictlyIncreasing(v)
    requires 0 <= highUi0 <= lowUi0 < |u| && 0 <= lowVi0 <= highVi0 < |v|
    requires lowUi0 + lowVi0 == highUi0 + highVi0
    requires InGrid(u, v, path) && Splits(u, v, path)
    requires path.ui + path.vi == lowUi0 + lowVi0 && highUi0 <= path.ui <= lowUi0
    ensures Cell(currUi, currVi) == path
  {
    var lowVi, lowUi, highVi, highUi := lowVi0, lowUi0, highVi0, highUi0;
    while true
      invariant 0 <= highUi <= lowUi < |u| && 0 <= lowVi <= highVi < |v|
      invariant lowUi + lowVi == highUi + highVi == path.ui + path.vi
      invariant highUi <= path.ui <= lowUi
      decreases lowUi - highUi
    {
      var midUi := (lowUi + highUi) / 2;
      var midVi := (lowVi + highVi + 1) / 2;
      var comp1 := u[midUi] < v[midVi];
      if lowUi == highUi && lowVi == highVi {
        return midVi, midUi;
      }
      if !comp1 {
        if midUi < path.ui { ProbeBefore(u, v, path, midUi, midVi); }
        lowUi := midUi;
        lowVi := midVi;
        continue;
      }
      var comp2 := u[midUi + 1] >= v[midVi - 1];
      if comp1 && !comp2 {
        if path.ui < midUi + 1 { ProbeAfter(u, v, path, midUi + 1, midVi - 1); }
        highUi := midUi + 1;
        highVi := midVi - 1;
      } else if comp1 && comp2 {
        var comp3 := if u[midUi + 1] < v[midVi] then 1 else 0;
        ProbeHits(u, v, path, midUi, midVi);
        return midVi - comp3, midUi + comp3;
      }
    }
  }
}
