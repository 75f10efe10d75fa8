/**
 * The sparse matrix object and its relabelling (externals/cub-1.8.0/experimental/sparse_matrix.h, lines
 * 249-278, 944-1003 and 1111-1240).  Only the positions of the entries are modelled, not their values.
 */
module CsrMatrix {
  import opened Distance
  import opened MatrixLayout
  import opened Order
  import opened Rcm
  import opened RcmOrder
  import Partition

  // ---------------------------------------------------------------------------------------------
  // Sorting one row by degree

  function InsertLow(deg: seq<nat>, s: seq<int>, x: int): (r: seq<int>)
    requires 0 <= x < |deg| && forall k :: 0 <= k < |s| ==> 0 <= s[k] < |deg|
    ensures multiset(r) == multiset(s) + multiset{x}
  {
    if s == [] || !Before(deg, x, s[|s| - 1]) then s + [x]
    else
      assert s == s[..|s| - 1] + [s[|s| - 1]];
      InsertLow(deg, s[..|s| - 1], x) + [s[|s| - 1]]
  }

  function SortLow(deg: seq<nat>, s: seq<int>): (r: seq<int>)
    requires forall k :: 0 <= k < |s| ==> 0 <= s[k] < |deg|
    ensures multiset(r) == multiset(s) && |r| == |s|
    ensures forall k :: 0 <= k < |r| ==> 0 <= r[k] < |deg|
  {
    if s == [] then []
    else
      assert s == s[..|s| - 1] + [s[|s| - 1]];
      var r := InsertLow(deg, SortLow(deg, s[..|s| - 1]), s[|s| - 1]);
      SameMultiset(s, r, |deg|);
      r
  }

  lemma {:induction false} SameMultiset(s: seq<int>, r: seq<int>, n: nat)
    requires multiset(s) == multiset(r) && forall k :: 0 <= k < |s| ==> 0 <= s[k] < n
    ensures |r| == |s| && forall k :: 0 <= k < |r| ==> 0 <= r[k] < n
  {
    assert |r| == |multiset(r)| == |multiset(s)|;
    forall k | 0 <= k < |r| ensures 0 <= r[k] < n {
      assert r[k] in multiset(s);
      var j :| 0 <= j < |s| && s[j] == r[k];
    }
  }

  lemma {:induction false} AppendLow(deg: seq<nat>, s: seq<int>, x: int)
    requires 0 <= x < |deg| && SortedRow(deg, s) && forall k :: 0 <= k < |s| ==> !Before(deg, x, s[k])
    ensures SortedRow(deg, s + [x])
  {
  }

  lemma {:induction false} InsertLowSorts(deg: seq<nat>, s: seq<int>, x: int)
    requires 0 <= x < |deg| && SortedRow(deg, s)
    ensures SortedRow(deg, InsertLow(deg, s, x))
  {
    if s != [] && Before(deg, x, s[|s| - 1]) {
      var front, last := s[..|s| - 1], s[|s| - 1];
      InsertLowSorts(deg, front, x);
      var f := InsertLow(deg, front, x);
      forall k | 0 <= k < |f| ensures !Before(deg, last, f[k]) {
        assert f[k] in multiset(front) + multiset{x};
      }
      AppendLow(deg, f, last);
    } else {
      forall k | 0 <= k < |s| ensures !Before(deg, x, s[k]) {
        assert k < |s| - 1 ==> !Before(deg, s[|s| - 1], s[k]);
      }
      AppendLow(deg, s, x);
    }
  }

  lemma {:induction false} SortLowSorts(deg: seq<nat>, s: seq<int>)
    requires forall k :: 0 <= k < |s| ==> 0 <= s[k] < |deg|
    ensures SortedRow(deg, SortLow(deg, s))
  {
    if s != [] {
      SortLowSorts(deg, s[..|s| - 1]);
      InsertLowSorts(deg, SortLow(deg, s[..|s| - 1]), s[|s| - 1]);
    }
  }

  /** std::sort on one stretch of the column array. */
  method SortStretch(columns: array<int>, lo: nat, hi: nat, degrees: array<nat>)
    requires lo <= hi <= columns.Length
    requires forall k :: lo <= k < hi ==> 0 <= columns[k] < degrees.Length
    modifies columns
    ensures SortedRow(degrees[..], columns[lo..hi])
    ensures multiset(columns[lo..hi]) == multiset(old(columns[lo..hi]))
    ensures columns[..lo] == old(columns[..lo]) && columns[hi..] == old(columns[hi..])
  {
    var s := SortLow(degrees[..], columns[lo..hi]);
    SortLowSorts(degrees[..], columns[lo..hi]);
    for i := 0 to hi - lo
      invariant forall k :: 0 <= k < i ==> columns[lo + k] == s[k]
      invariant columns[..lo] == old(columns[..lo]) && columns[hi..] == old(columns[hi..])
    {
      columns[lo + i] := s[i];
    }
    assert columns[lo..hi] == s;
  }

  // ---------------------------------------------------------------------------------------------
  // The set of unlabelled vertices, ordered by degree

  lemma {:induction false} LowestExists(s: set<nat>, deg: seq<nat>) returns (v: nat)
    requires s != {} && forall w :: w in s ==> w < |deg|
    ensures v in s && forall w :: w in s ==> !Before(deg, w, v)
  {
    var x := Partition.Pick(s);
    var rest := s - {x};
    if rest == {} {
      v := x;
      assert s == {x};
    } else {
      var y := LowestExists(rest, deg);
      v := if Before(deg, x, y) then x else y;
      forall w | w in s ensures !Before(deg, w, v) {
        assert w == x || w in rest;
      }
    }
  }

  /** The first element of the ordered set. */
  method Begin(s: set<nat>, degrees: array<nat>) returns (v: nat)
    requires s != {} && forall w :: w in s ==> w < degrees.Length
    ensures v in s && forall w :: w in s ==> !Before(degrees[..], w, v)
    ensures forall w :: w in s ==> degrees[v] < degrees[w] || (degrees[v] == degrees[w] && v <= w)
  {
    ghost var x := LowestExists(s, degrees[..]);
    v :| v in s && forall w :: w in s ==> !Before(degrees[..], w, v);
  }

  // ---------------------------------------------------------------------------------------------
  // The relabelling

  /** The in-degrees count the occurrences in the column array. */
  method InDegrees(columns: array<int>, numRows: nat) returns (degrees: array<nat>)
    requires forall k :: 0 <= k < columns.Length ==> 0 <= columns[k] < numRows
    ensures fresh(degrees) && degrees.Length == numRows
    ensures forall v :: 0 <= v < numRows ==> degrees[v] == multiset(columns[..])[v]
  {
    degrees := new nat[numRows](_ => 0);
    for k := 0 to columns.Length
      invariant fresh(degrees)
      invariant forall v :: 0 <= v < numRows ==> degrees[v] == multiset(columns[..k])[v]
    {
      assert columns[..k + 1] == columns[..k] + [columns[k]];
      degrees[columns[k]] := degrees[columns[k]] + 1;
    }
    assert columns[..columns.Length] == columns[..];
  }

  /** The state at the start of a run. */
  function StartState(labels: seq<int>, next: int, par: seq<int>, seed: int): State {
    State(labels, next, [seed], par, [next - 1])
  }

  lemma {:induction false} StartKeepsInv(g: Digraph, deg: seq<nat>, labels: seq<int>, next: int, par: seq<int>,
          seed: int, end: int)
    requires ValidGraph(g) && |deg| == |g| == |labels| == |par| && 0 <= next && 0 <= seed < |g|
    requires LabelsOk(StartState(labels, next, par, seed)) && labels[seed] == -1
    ensures Inv(g, deg, StartState(labels, next, par, seed), Component(seed, next, end))
  {
    var s := StartState(labels, next, par, seed);
    forall v | 0 <= v < |g| ensures ParentOk(g, s, Component(seed, next, end), v) {
    }
  }

  /** The set of unlabelled vertices agrees with the label array, and the labels are 0..next-1. */
  ghost predicate Unlabelled(unlabeled: set<nat>, labels: seq<int>, next: int) {
    && (forall v: nat :: v in unlabeled <==> v < |labels| && labels[v] == -1)
    && |unlabeled| + next == |labels|
  }

  lemma {:induction false} FinishRun(g: Digraph, deg: seq<nat>, s: State, c: Component, next: int)
    requires Inv(g, deg, s, c) && s.q == [] && s.next == next
    ensures ComponentOk(g, deg, s.labels, s.par, Component(c.seed, c.first, next))
    ensures LabelsOk(s) && s.labels[c.seed] == c.first
  {
    var d := Component(c.seed, c.first, next);
    forall v | 0 <= v < |g| ensures ParentOk(g, s, d, v) {
      assert ParentOk(g, s, c, v);
    }
    assert NeighboursOk(g, deg, s, d) by {
      forall p, w | 0 <= p < |g| && Inside(s, d, p) && w in g[p] ensures Settled(s, d, p, w) || Waits(s, p, w) {
        assert Inside(s, c, p);
        assert Settled(s, c, p, w) || Waits(s, p, w);
      }
    }
    FinishedRun(g, deg, s, d);
  }

  method PushRow(q: seq<int>, columns: array<int>, lo: nat, hi: nat) returns (r: seq<int>)
    requires lo <= hi <= columns.Length
    ensures r == q + columns[lo..hi]
  {
    r := q;
    for k := lo to hi
      invariant r == q + columns[lo..k]
    {
      r := r + [columns[k]];
    }
  }

  lemma {:induction false} SameBelow(a: seq<int>, b: seq<int>, h: nat, lo: nat, hi: nat)
    requires lo <= hi <= h <= |a| == |b| && a[..h] == b[..h]
    ensures a[lo..hi] == b[lo..hi]
  {
    forall k | lo <= k < hi ensures a[k] == b[k] {
      assert a[k] == a[..h][k] && b[k] == b[..h][k];
    }
  }

  lemma {:induction false} SameAbove(a: seq<int>, b: seq<int>, h: nat, lo: nat, hi: nat)
    requires h <= lo <= hi <= |a| == |b| && a[h..] == b[h..]
    ensures a[lo..hi] == b[lo..hi]
  {
    forall k | lo <= k < hi ensures a[k] == b[k] {
      assert a[k] == a[h..][k - h] && b[k] == b[h..][k - h];
    }
  }

  /** Sorting the stretch of one row permutes the columns within the rows. */
  lemma {:induction false} SortedStretchPermutes(off: seq<nat>, before: seq<int>, after: seq<int>, n: nat, v: nat)
    requires WellFormed(off, before, n) && |after| == |before| && v < |off| - 1
    requires off[v] <= off[v + 1] <= |before|
    requires multiset(Slice(off, after, v)) == multiset(Slice(off, before, v))
    requires after[..off[v]] == before[..off[v]] && after[off[v + 1]..] == before[off[v + 1]..]
    ensures RowsPermuted(off, before, after, n)
  {
    forall w | 0 <= w < |off| - 1 ensures RowPermuted(off, before, after, w) {
      assert off[w] <= off[w + 1] <= off[|off| - 1];
      if w < v {
        assert off[w + 1] <= off[v];
        SameBelow(before, after, off[v], off[w], off[w + 1]);
      } else if v < w {
        assert off[v + 1] <= off[w];
        SameAbove(before, after, off[v + 1], off[w], off[w + 1]);
      }
    }
  }

  lemma {:induction false} PermutedTwice(off: seq<nat>, a: seq<int>, b: seq<int>, c: seq<int>, n: nat)
    requires RowsPermuted(off, a, b, n) && RowsPermuted(off, b, c, n)
    ensures RowsPermuted(off, a, c, n)
  {
    forall v | 0 <= v < |off| - 1 ensures RowPermuted(off, a, c, v) {
      assert RowPermuted(off, a, b, v) && RowPermuted(off, b, c, v);
    }
  }

  lemma {:induction false} EraseLabelled(unlabeled: set<nat>, labels: seq<int>, next: int, v: nat)
    requires Unlabelled(unlabeled, labels, next) && v in unlabeled && next >= 0
    ensures Unlabelled(unlabeled - {v}, labels[v := next], next + 1) && unlabeled - {v} < unlabeled
  {
  }

  /** Label the vertex at the front, sort its row, and append the row to the queue. */
  method TakeVertex(rowOffsets: array<nat>, columns: array<int>, degrees: array<nat>, relabel: array<int>,
                    q: seq<int>, next: nat, ghost g: Digraph, ghost s: State, ghost c: Component)
    returns (q': seq<int>, ghost row: seq<int>)
    requires rowOffsets.Length == degrees.Length + 1 && relabel.Length == degrees.Length && columns != relabel
    requires WellFormed(rowOffsets[..], columns[..], degrees.Length)
    requires g == Pattern(rowOffsets[..], columns[..], degrees.Length)
    requires Inv(g, degrees[..], s, c) && s.labels == relabel[..] && s.q == q && s.next == next
    requires q != [] && relabel[q[0]] == -1
    modifies columns, relabel
    ensures CanTake(g, degrees[..], s, c, row)
    ensures relabel[..] == Take(s, row).labels && q' == Take(s, row).q
    ensures RowsPermuted(rowOffsets[..], old(columns[..]), columns[..], degrees.Length)
  {
    var vertex := q[0];
    ghost var off, before, n := rowOffsets[..], columns[..], degrees.Length;
    relabel[vertex] := next;
    var lo, hi := rowOffsets[vertex], rowOffsets[vertex + 1];
    assert off[vertex + 1] <= off[n];
    SortStretch(columns, lo, hi, degrees);
    row := columns[lo..hi];
    assert row == Slice(off, columns[..], vertex);
    SortedStretchPermutes(off, before, columns[..], n, vertex);
    PermutedRowsStayValid(off, before, columns[..], n);
    assert g[vertex] == Pattern(off, columns[..], n)[vertex];
    q' := PushRow(q[1..], columns, lo, hi);
  }

  /** What the inner loop keeps, for the run that started with the labels `first` and `next0`. */
  ghost predicate Running(g: Digraph, deg: seq<nat>, s: State, c: Component, unlabeled: set<nat>,
                          first: seq<int>, par0: seq<int>)
  {
    && Inv(g, deg, s, c) && Unlabelled(unlabeled, s.labels, s.next)
    && Extends(first, par0, s.labels, s.par, c.first)
  }

  lemma {:induction false} TakeKeepsRunning(g: Digraph, deg: seq<nat>, s: State, c: Component, row: seq<int>,
          unlabeled: set<nat>, first: seq<int>, par0: seq<int>)
    requires Running(g, deg, s, c, unlabeled, first, par0) && CanTake(g, deg, s, c, row)
    ensures s.q[0] in unlabeled && Running(g, deg, Take(s, row), c, unlabeled - {s.q[0]}, first, par0)
    ensures |unlabeled - {s.q[0]}| < |unlabeled|
  {
    EraseLabelled(unlabeled, s.labels, s.next, s.q[0]);
    TakeKeepsInv(g, deg, s, c, row);
    TakeExtends(first, par0, s, row, c.first);
  }

  /** The inner loop: everything that the seed reaches and that has no label yet gets one. */
  method LabelFrom(rowOffsets: array<nat>, columns: array<int>, degrees: array<nat>, relabel: array<int>,
                   unlabeled0: set<nat>, next0: nat, seed: nat, ghost g: Digraph, ghost par0: seq<int>)
    returns (unlabeled: set<nat>, next: nat, ghost par: seq<int>)
    requires rowOffsets.Length == degrees.Length + 1 && relabel.Length == degrees.Length == |par0|
    requires columns != relabel
    requires WellFormed(rowOffsets[..], columns[..], degrees.Length)
    requires g == Pattern(rowOffsets[..], columns[..], degrees.Length)
    requires Unlabelled(unlabeled0, relabel[..], next0) && seed in unlabeled0
    requires LabelsOk(StartState(relabel[..], next0, par0, seed))
    modifies columns, relabel
    ensures RowsPermuted(rowOffsets[..], old(columns[..]), columns[..], degrees.Length)
    ensures Unlabelled(unlabeled, relabel[..], next) && unlabeled < unlabeled0
    ensures |par| == |g| && Extends(old(relabel[..]), par0, relabel[..], par, next0)
    ensures LabelsOk(StartState(relabel[..], next, par, seed))
    ensures ComponentOk(g, degrees[..], relabel[..], par, Component(seed, next0, next))
  {
    ghost var c := Component(seed, next0, next0 + 1);
    ghost var deg, off, first, columns0 := degrees[..], rowOffsets[..], relabel[..], columns[..];
    PatternIsValid(off, columns0, degrees.Length);
    StartKeepsInv(g, deg, first, next0, par0, seed, next0 + 1);
    unlabeled, next := unlabeled0, next0;
    var q := [seed];
    ghost var s := StartState(first, next0, par0, seed);
    while q != []
      invariant Running(g, deg, s, c, unlabeled, first, par0) && unlabeled <= unlabeled0
      invariant s.labels == relabel[..] && s.q == q && s.next == next
      invariant RowsPermuted(off, columns0, columns[..], degrees.Length)
      decreases |unlabeled|, |q|
    {
      var vertex := q[0];
      if relabel[vertex] == -1 {
        PermutedRowsStayValid(off, columns0, columns[..], degrees.Length);
        ghost var columns1, row := columns[..], [];
        q, row := TakeVertex(rowOffsets, columns, degrees, relabel, q, next, g, s, c);
        PermutedTwice(off, columns0, columns1, columns[..], degrees.Length);
        TakeKeepsRunning(g, deg, s, c, row, unlabeled, first, par0);
        s := Take(s, row);
        unlabeled := unlabeled - {vertex};
        next := next + 1;
      } else {
        SkipKeepsInv(g, deg, s, c);
        s := Skip(s);
        q := q[1..];
      }
    }
    par := s.par;
    FinishRun(g, deg, s, c, next);
  }

  lemma {:induction false} TakeExtends(first: seq<int>, par0: seq<int>, s: State, row: seq<int>, next0: nat)
    requires s.q != [] && |s.origin| == |s.q| && |s.par| == |s.labels| && 0 <= s.q[0] < |s.labels|
    requires s.labels[s.q[0]] == -1 && s.next >= next0
    requires Extends(first, par0, s.labels, s.par, next0)
    ensures Extends(first, par0, Take(s, row).labels, Take(s, row).par, next0)
  {
  }

  lemma {:induction false} InitialRuns(g: Digraph, deg: seq<nat>, labels: seq<int>, par: seq<int>)
    requires |g| == |deg| == |labels| == |par| && forall v :: 0 <= v < |labels| ==> labels[v] == -1
    ensures RunsOk(g, deg, labels, par, [], 0)
  {
  }

  /** With nothing unlabelled the labels are a permutation. */
  lemma {:induction false} AllLabelled(labels: seq<int>, next: int)
    requires Unlabelled({}, labels, next)
    requires LabelsOk(State(labels, next, [], [], []))
    ensures next == |labels| && forall v :: 0 <= v < |labels| ==> 0 <= labels[v] < |labels|
    ensures forall v, w :: 0 <= v < w < |labels| ==> labels[v] != labels[w]
  {
    forall v: nat | v < |labels| ensures labels[v] != -1 {
      assert v !in {};
    }
  }

  method InitUnlabeled(relabel: array<int>) returns (unlabeled: set<nat>)
    modifies relabel
    ensures Unlabelled(unlabeled, relabel[..], 0)
    ensures forall v :: 0 <= v < relabel.Length ==> relabel[v] == -1
  {
    unlabeled := {};
    for row := 0 to relabel.Length
      invariant forall v: nat :: v in unlabeled <==> v < row
      invariant |unlabeled| == row
      invariant forall v :: 0 <= v < row ==> relabel[v] == -1
    {
      relabel[row] := -1;
      unlabeled := unlabeled + {row};
    }
  }

  /** One round of the outer loop: a run from the unlabelled vertex of lowest degree. */
  method NextRun(rowOffsets: array<nat>, columns: array<int>, degrees: array<nat>, relabel: array<int>,
                 unlabeled0: set<nat>, next0: nat, ghost g: Digraph, ghost par0: seq<int>, ghost comps0: seq<Component>)
    returns (unlabeled: set<nat>, next: nat, ghost par: seq<int>, ghost comps: seq<Component>)
    requires rowOffsets.Length == degrees.Length + 1 && relabel.Length == degrees.Length == |par0|
    requires columns != relabel
    requires WellFormed(rowOffsets[..], columns[..], degrees.Length)
    requires g == Pattern(rowOffsets[..], columns[..], degrees.Length)
    requires Unlabelled(unlabeled0, relabel[..], next0) && unlabeled0 != {}
    requires LabelsOk(State(relabel[..], next0, [], [], []))
    requires RunsOk(g, degrees[..], relabel[..], par0, comps0, next0)
    modifies columns, relabel
    ensures RowsPermuted(rowOffsets[..], old(columns[..]), columns[..], degrees.Length)
    ensures Unlabelled(unlabeled, relabel[..], next) && unlabeled < unlabeled0 && |par| == |par0|
    ensures LabelsOk(State(relabel[..], next, [], [], []))
    ensures RunsOk(g, degrees[..], relabel[..], par, comps, next)
  {
    ghost var labels0 := relabel[..];
    var vertex := Begin(unlabeled0, degrees);
    unlabeled, next, par := LabelFrom(rowOffsets, columns, degrees, relabel, unlabeled0, next0, vertex, g, par0);
    ghost var c := Component(vertex, next0, next);
    SeedWasLowest(degrees[..], labels0, par0, relabel[..], par, c);
    AddRun(g, degrees[..], labels0, par0, comps0, relabel[..], par, c);
    comps := comps0 + [c];
  }

  /** The outer loop: runs until every vertex has a label. */
  method LabelAll(rowOffsets: array<nat>, columns: array<int>, degrees: array<nat>, relabel: array<int>)
    returns (ghost par: seq<int>, ghost comps: seq<Component>)
    requires rowOffsets.Length == degrees.Length + 1 && relabel.Length == degrees.Length && columns != relabel
    requires WellFormed(rowOffsets[..], columns[..], degrees.Length)
    modifies columns, relabel
    ensures CuthillMcKee(old(Pattern(rowOffsets[..], columns[..], degrees.Length)),
                         degrees[..], relabel[..], par, comps)
    ensures RowsPermuted(rowOffsets[..], old(columns[..]), columns[..], degrees.Length)
  {
    ghost var columns0, off, deg, n := columns[..], rowOffsets[..], degrees[..], degrees.Length;
    ghost var g := Pattern(off, columns0, n);
    var unlabeled := InitUnlabeled(relabel);
    var next := 0;
    par, comps := seq(n, _ => 0), [];
    InitialRuns(g, deg, relabel[..], par);
    while unlabeled != {}
      invariant |par| == n && RowsPermuted(off, columns0, columns[..], n)
      invariant Unlabelled(unlabeled, relabel[..], next)
      invariant LabelsOk(State(relabel[..], next, [], [], []))
      invariant RunsOk(g, deg, relabel[..], par, comps, next)
      decreases unlabeled
    {
      ghost var columns1 := columns[..];
      PermutedRowsStayValid(off, columns0, columns1, n);
      unlabeled, next, par, comps :=
        NextRun(rowOffsets, columns, degrees, relabel, unlabeled, next, g, par, comps);
      PermutedTwice(off, columns0, columns1, columns[..], n);
    }
    LabellingIsComplete(off, columns0, n, deg, relabel[..], par, comps, next);
  }

  /** The whole labelling. */
  method RcmLabels(rowOffsets: array<nat>, columns: array<int>, numRows: nat, relabel: array<int>)
    returns (ghost deg: seq<nat>, ghost par: seq<int>, ghost comps: seq<Component>)
    requires rowOffsets.Length == numRows + 1 && relabel.Length == numRows && columns != relabel
    requires WellFormed(rowOffsets[..], columns[..], numRows)
    modifies columns, relabel
    ensures |deg| == numRows && forall v :: 0 <= v < numRows ==> deg[v] == multiset(old(columns[..]))[v]
    ensures CuthillMcKee(old(Pattern(rowOffsets[..], columns[..], numRows)), deg, relabel[..], par, comps)
    ensures RowsPermuted(rowOffsets[..], old(columns[..]), columns[..], numRows)
  {
    var degrees := InDegrees(columns, numRows);
    deg := degrees[..];
    par, comps := LabelAll(rowOffsets, columns, degrees, relabel);
  }

  lemma {:induction false} LabellingIsComplete(off: seq<nat>, cols: seq<int>, n: nat, deg: seq<nat>, labels: seq<int>,
          par: seq<int>, comps: seq<Component>, next: int)
    requires WellFormed(off, cols, n) && |off| == n + 1 && |labels| == n
    requires Unlabelled({}, labels, next) && LabelsOk(State(labels, next, [], [], []))
    requires RunsOk(Pattern(off, cols, n), deg, labels, par, comps, next)
    ensures CuthillMcKee(Pattern(off, cols, n), deg, labels, par, comps)
  {
    AllLabelled(labels, next);
    PatternIsValid(off, cols, n);
  }

  lemma {:induction false} SeedWasLowest(deg: seq<nat>, before: seq<int>, parBefore: seq<int>, after: seq<int>,
          parAfter: seq<int>, c: Component)
    requires |before| == |deg| && 0 <= c.seed < |deg|
    requires LabelsOk(State(before, c.first, [], [], []))
    requires Extends(before, parBefore, after, parAfter, c.first)
    requires forall w :: 0 <= w < |deg| && before[w] == -1 ==> !Before(deg, w, c.seed)
    ensures SeedIsLowest(deg, after, c)
  {
    forall w | 0 <= w < |deg| && (after[w] == -1 || after[w] >= c.first) ensures !Before(deg, w, c.seed) {
      assert before[w] == -1;
    }
  }
}
