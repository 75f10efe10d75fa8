/**
 * How often an edge stands in the lists of the conversion (xlib/src/Graph/GraphStd.cpp, lines 175-310), and when
 * the oriented list holds none twice: exactly if the file joins no two vertices twice.
 */
module EdgeCounts {
  import opened CooToCsr
  import opened CsrRows
  import opened EdgeList
  import opened GraphStd
  import opened Order
  import Permutation

  function Copies(s: seq<Edge>, e: Edge): nat {
    multiset(s)[e]
  }

  // ---------------------------------------------------------------------------------------------
  // Counting through the stages

  lemma {:induction false} AppendCopies(s: seq<Edge>, t: seq<Edge>, e: Edge)
    ensures Copies(s + t, e) == Copies(s, e) + Copies(t, e)
  {
  }

  lemma {:induction false} LastCopies(s: seq<Edge>, e: Edge)
    requires s != []
    ensures Copies(s, e) == Copies(s[..|s| - 1], e) + if s[|s| - 1] == e then 1 else 0
  {
    assert s == s[..|s| - 1] + [s[|s| - 1]];
  }

  lemma {:induction false} SwapsCopies(coo: seq<Edge>, e: Edge)
    ensures Copies(Swaps(coo), e) == if e.src == e.dst then 0 else Copies(coo, Swap(e))
  {
    if coo != [] {
      var front, last := coo[..|coo| - 1], coo[|coo| - 1];
      SwapsCopies(front, e);
      LastCopies(coo, Swap(e));
      AppendCopies(Swaps(front), SwapsOf(last), e);
      assert last == Swap(e) <==> Swap(last) == e;
    }
  }

  lemma {:induction false} OrientedCopies(coo: seq<Edge>, deg: seq<nat>, e: Edge)
    requires InRange(coo, |deg|) && 0 <= e.src < |deg| && 0 <= e.dst < |deg|
    ensures Copies(Oriented(coo, deg), e) == if Before(deg, e.src, e.dst) then Copies(coo, e) else 0
  {
    if coo != [] {
      var front := coo[..|coo| - 1];
      OrientedCopies(front, deg, e);
      LastCopies(coo, e);
    }
  }

  lemma {:induction false} RelabelledCopies(coo: seq<Edge>, labels: seq<int>, nV: nat, a: int, b: int)
    requires ValidLabels(labels, nV) && InRange(coo, nV) && 0 <= a < nV && 0 <= b < nV
    ensures Copies(Relabelled(coo, labels), Edge(labels[a], labels[b])) == Copies(coo, Edge(a, b))
  {
    if coo != [] {
      var front, last := coo[..|coo| - 1], coo[|coo| - 1];
      RelabelledCopies(front, labels, nV, a, b);
      LastCopies(coo, Edge(a, b));
      var r := Relabelled(coo, labels);
      LastCopies(r, Edge(labels[a], labels[b]));
      assert r[..|coo| - 1] == Relabelled(front, labels);
      assert last.src != a ==> labels[last.src] != labels[a];
      assert last.dst != b ==> labels[last.dst] != labels[b];
    }
  }

  function Label(o: Options, labels: seq<int>, v: int): int
    requires 0 <= v < |labels|
  {
    if o.randomize then labels[v] else v
  }

  /** How often the lines of the file put the edge from a to b into the list. */
  function Stored(read: seq<Edge>, o: Options, a: int, b: int): nat {
    Copies(read, Edge(a, b)) + if o.storedUndirected && a != b then Copies(read, Edge(b, a)) else 0
  }

  lemma {:induction false} PreparedCopies(read: seq<Edge>, o: Options, nV: nat, labels: seq<int>, a: int, b: int)
    requires ValidLabels(labels, nV) && InRange(read, nV) && !o.directedToUndirected
    requires 0 <= a < nV && 0 <= b < nV
    ensures Copies(Prepared(read, o, nV, labels), Edge(Label(o, labels, a), Label(o, labels, b)))
         == Stored(read, o, a, b)
  {
    CleanInRange(read, o, nV);
    var clean := Clean(read, o);
    SwapsCopies(read, Edge(a, b));
    AppendCopies(read, Swaps(read), Edge(a, b));
    if o.randomize {
      RelabelledCopies(clean, labels, nV, a, b);
    }
  }

  // ---------------------------------------------------------------------------------------------
  // No edge twice

  lemma {:induction false} TwiceCounted(r: seq<Edge>, i: nat, j: nat)
    requires i < j < |r| && r[i] == r[j]
    ensures Copies(r, r[i]) >= 2
  {
    assert r == r[..j] + [r[j]] + r[j + 1..];
    assert r[i] in r[..j];
  }

  lemma {:induction false} DistinctByCopies(s: seq<Edge>)
    ensures Permutation.Distinct(s) <==> forall e :: Copies(s, e) <= 1
  {
    if Permutation.Distinct(s) {
      forall e ensures Copies(s, e) <= 1 {
        Permutation.DistinctCount(s, e);
      }
    } else {
      var i, j :| 0 <= i < j < |s| && s[i] == s[j];
      TwiceCounted(s, i, j);
    }
  }

  /** Two copies stand at two places. */
  lemma {:induction false} TwoPlaces(s: seq<Edge>, e: Edge) returns (i: nat, j: nat)
    requires Copies(s, e) >= 2
    ensures i < j < |s| && s[i] == e && s[j] == e
  {
    var front, last := s[..|s| - 1], s[|s| - 1];
    LastCopies(s, e);
    if last == e {
      j := |s| - 1;
      assert e in front;
      i :| 0 <= i < |front| && front[i] == e;
    } else {
      i, j := TwoPlaces(front, e);
    }
  }

  lemma {:induction false} SortIsStrict(s: seq<Edge>)
    ensures StrictlySorted(Sort(s)) <==> Permutation.Distinct(s)
  {
    SortSorts(s);
    var r := Sort(s);
    DistinctByCopies(s);
    DistinctByCopies(r);
    assert forall e :: Copies(r, e) == Copies(s, e);
    if Permutation.Distinct(r) {
      forall i, j | 0 <= i < j < |r| ensures Less(r[i], r[j]) {
        assert r[i] != r[j] && !Less(r[j], r[i]);
      }
    }
  }

  /**
   * The lines of the file name no edge between two vertices twice; where the file stores an undirected graph one
   * edge a line, neither in the other direction.  Where duplicates are removed, it does not matter.
   */
  predicate EdgesOnce(read: seq<Edge>, o: Options) {
    o.directedToUndirected ||
    forall i, j :: 0 <= i < j < |read| && read[i].src != read[i].dst ==>
      read[i] != read[j] && (o.storedUndirected ==> read[i] != Swap(read[j]))
  }

  /** The file lists every edge as often in one direction as in the other. */
  ghost predicate BothWays(read: seq<Edge>) {
    forall e {:trigger Swap(e)} :: Copies(read, e) == Copies(read, Swap(e))
  }

  /** The conversion mirrors the edges, or the file has done it. */
  ghost predicate Undirects(read: seq<Edge>, o: Options) {
    o.Mirrors() || BothWays(read)
  }

  lemma {:induction false} StoredBothWays(read: seq<Edge>, o: Options, a: int, b: int)
    requires !o.directedToUndirected && Undirects(read, o) && a != b
    ensures Stored(read, o, a, b) == Stored(read, o, b, a)
  {
    assert Swap(Edge(a, b)) == Edge(b, a);
  }

  lemma {:induction false} EdgesOnceByStored(read: seq<Edge>, o: Options)
    requires !o.directedToUndirected
    ensures EdgesOnce(read, o) <==> forall a, b :: a != b ==> Stored(read, o, a, b) <= 1
  {
    if EdgesOnce(read, o) {
      forall a, b | a != b ensures Stored(read, o, a, b) <= 1 {
        OnceMeansOne(read, o, a, b);
      }
    } else {
      var i, j :| 0 <= i < j < |read| && read[i].src != read[i].dst
                  && !(read[i] != read[j] && (o.storedUndirected ==> read[i] != Swap(read[j])));
      TwiceMeansTwo(read, o, i, j);
    }
  }

  lemma {:induction false} OnceMeansOne(read: seq<Edge>, o: Options, a: int, b: int)
    requires !o.directedToUndirected && EdgesOnce(read, o) && a != b
    ensures Stored(read, o, a, b) <= 1
  {
    var e, f := Edge(a, b), Edge(b, a);
    assert f == Swap(e) && e == Swap(f);
    if Copies(read, e) >= 2 {
      var i, j := TwoPlaces(read, e);
    }
    if Copies(read, f) >= 2 {
      var i, j := TwoPlaces(read, f);
    }
  }

  lemma {:induction false} TwiceMeansTwo(read: seq<Edge>, o: Options, i: nat, j: nat)
    requires i < j < |read| && read[i].src != read[i].dst
    requires read[i] == read[j] || (o.storedUndirected && read[i] == Swap(read[j]))
    ensures Stored(read, o, read[i].src, read[i].dst) >= 2
  {
    var e := read[i];
    assert e in read && read[j] in read;
    if read[i] == read[j] {
      TwiceCounted(read, i, j);
    } else {
      assert read[j] == Edge(e.dst, e.src);
    }
  }

  /** Where nothing is removed, the oriented list holds no edge twice exactly if the file names none twice. */
  lemma {:induction false} OrientedOnce(read: seq<Edge>, o: Options, nV: nat, labels: seq<int>)
    requires ValidLabels(labels, nV) && InRange(read, nV) && !o.directedToUndirected && Undirects(read, o)
    requires InRange(Prepared(read, o, nV, labels), nV)
    ensures var p := Prepared(read, o, nV, labels);
      Permutation.Distinct(Oriented(p, Degrees(p, nV))) <==> EdgesOnce(read, o)
  {
    var p := Prepared(read, o, nV, labels);
    var deg := Degrees(p, nV);
    DistinctByCopies(Oriented(p, deg));
    EdgesOnceByStored(read, o);
    if EdgesOnce(read, o) {
      forall e ensures Copies(Oriented(p, deg), e) <= 1 {
        OrientedAtMostOnce(read, o, nV, labels, e);
      }
    } else {
      var a, b :| a != b && Stored(read, o, a, b) >= 2;
      OrientedTwice(read, o, nV, labels, a, b);
    }
  }

  lemma {:induction false} OrientedAtMostOnce(read: seq<Edge>, o: Options, nV: nat, labels: seq<int>, e: Edge)
    requires ValidLabels(labels, nV) && InRange(read, nV) && !o.directedToUndirected && EdgesOnce(read, o)
    requires InRange(Prepared(read, o, nV, labels), nV)
    ensures var p := Prepared(read, o, nV, labels); Copies(Oriented(p, Degrees(p, nV)), e) <= 1
  {
    var p, clean := Prepared(read, o, nV, labels), Clean(read, o);
    var deg := Degrees(p, nV);
    CleanInRange(read, o, nV);
    InOriented(p, deg, e);
    if e in Oriented(p, deg) {
      var k :| 0 <= k < |p| && p[k] == e;
      var a, b := clean[k].src, clean[k].dst;
      OrientedCopies(p, deg, e);
      PreparedCopies(read, o, nV, labels, a, b);
      OnceMeansOne(read, o, a, b);
    }
  }

  lemma {:induction false} StoredInRange(read: seq<Edge>, o: Options, nV: nat, a: int, b: int)
    requires InRange(read, nV) && Stored(read, o, a, b) > 0
    ensures 0 <= a < nV && 0 <= b < nV
  {
    var e := if Edge(a, b) in read then Edge(a, b) else Edge(b, a);
    var k :| 0 <= k < |read| && read[k] == e;
  }

  lemma {:induction false} OrientedTwice(read: seq<Edge>, o: Options, nV: nat, labels: seq<int>, a: int, b: int)
    requires ValidLabels(labels, nV) && InRange(read, nV) && !o.directedToUndirected && Undirects(read, o)
    requires InRange(Prepared(read, o, nV, labels), nV) && a != b && Stored(read, o, a, b) >= 2
    ensures var p := Prepared(read, o, nV, labels); exists e :: Copies(Oriented(p, Degrees(p, nV)), e) >= 2
  {
    var p := Prepared(read, o, nV, labels);
    var deg := Degrees(p, nV);
    StoredInRange(read, o, nV, a, b);
    StoredBothWays(read, o, a, b);
    PreparedCopies(read, o, nV, labels, a, b);
    PreparedCopies(read, o, nV, labels, b, a);
    var x, y := Label(o, labels, a), Label(o, labels, b);
    assert x != y;
    OrientedCopies(p, deg, Edge(x, y));
    OrientedCopies(p, deg, Edge(y, x));
    assert Before(deg, x, y) || Before(deg, y, x);
  }
}
