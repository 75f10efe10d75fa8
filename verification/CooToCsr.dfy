/**
 * From the edges as they were read to compressed sparse rows (xlib/src/Graph/GraphStd.cpp, lines 173-360):
 * mirror, sort and remove duplicates, relabel, orient by degree, sort, count and scatter.
 */
module CooToCsr {
  import opened CsrRows
  import opened EdgeList
  import opened Order

  // ---------------------------------------------------------------------------------------------
  // The stages as functions of the edge list

  function SwapsOf(e: Edge): seq<Edge> {
    if e.src == e.dst then [] else [Swap(e)]
  }

  /** The reversed edges, without the self loops. */
  function Swaps(coo: seq<Edge>): (r: seq<Edge>)
    ensures |r| <= |coo|
  {
    if coo == [] then [] else Swaps(coo[..|coo| - 1]) + SwapsOf(coo[|coo| - 1])
  }

  function Mirrored(half: seq<Edge>): seq<Edge> {
    half + Swaps(half)
  }

  function Relabelled(coo: seq<Edge>, labels: seq<int>): (r: seq<Edge>)
    requires InRange(coo, |labels|)
  {
    seq(|coo|, k requires 0 <= k < |coo| => Edge(labels[coo[k].src], labels[coo[k].dst]))
  }

  function Degrees(coo: seq<Edge>, nV: nat): seq<nat> {
    seq(nV, v requires 0 <= v => |Row(coo, v)|)
  }

  /** The edges that run from the smaller to the larger vertex in the degree order. */
  function Oriented(coo: seq<Edge>, deg: seq<nat>): (r: seq<Edge>)
    requires InRange(coo, |deg|)
    ensures |r| <= |coo| && InRange(r, |deg|)
  {
    if coo == [] then []
    else
      var e := coo[|coo| - 1];
      Oriented(coo[..|coo| - 1], deg) + if Before(deg, e.src, e.dst) then [e] else []
  }

  lemma {:induction false} InSwaps(coo: seq<Edge>, e: Edge)
    ensures e in Swaps(coo) <==> e.src != e.dst && Swap(e) in coo
  {
    if coo != [] {
      var front, last := coo[..|coo| - 1], coo[|coo| - 1];
      assert coo == front + [last];
      InSwaps(front, e);
    }
  }

  lemma {:induction false} InOriented(coo: seq<Edge>, deg: seq<nat>, e: Edge)
    requires InRange(coo, |deg|)
    ensures e in Oriented(coo, deg) <==> e in coo && Before(deg, e.src, e.dst)
  {
    if coo != [] {
      var front, last := coo[..|coo| - 1], coo[|coo| - 1];
      assert coo == front + [last];
      InOriented(front, deg, e);
    }
  }

  // ---------------------------------------------------------------------------------------------
  // The stages on the arrays

  lemma {:induction false} SwapsGoOn(read: seq<Edge>, i: nat)
    requires i < |read|
    ensures read + Swaps(read[..i + 1]) == (read + Swaps(read[..i])) + SwapsOf(read[i])
  {
    assert read[..i + 1][..i] == read[..i];
  }

  method PutAt(cooEdges: array<Edge>, k: nat, e: Edge)
    requires k < cooEdges.Length
    modifies cooEdges
    ensures cooEdges[..k + 1] == old(cooEdges[..k]) + [e]
    ensures forall j :: k < j < cooEdges.Length ==> cooEdges[j] == old(cooEdges[j])
  {
    cooEdges[k] := e;
  }

  /**
   * The reversed edges go behind the half that was read, into the same buffer.  The write position stays
   * behind the read position and inside the buffer.
   */
  method MirrorInPlace(cooEdges: array<Edge>, nE: nat) returns (k: nat)
    requires nE <= cooEdges.Length
    modifies cooEdges
    ensures k <= nE
    ensures cooEdges[..k] == Mirrored(old(cooEdges[..nE / 2]))
    ensures forall i :: k <= i < cooEdges.Length ==> cooEdges[i] == old(cooEdges[i])
  {
    var half := nE / 2;
    ghost var read := cooEdges[..half];
    k := half;
    assert cooEdges[..k] == read + Swaps(read[..0]);
    for i := 0 to half
      invariant half <= k <= half + i
      invariant cooEdges[..k] == read + Swaps(read[..i])
      invariant forall j :: k <= j < cooEdges.Length ==> cooEdges[j] == old(cooEdges[j])
    {
      assert cooEdges[..k][i] == read[i];
      SwapsGoOn(read, i);
      var src, dst := cooEdges[i].src, cooEdges[i].dst;
      if src == dst {
        continue;
      }
      PutAt(cooEdges, k, Edge(dst, src));
      k := k + 1;
    }
    assert read[..half] == read;
  }

  method CopyBack(cooEdges: array<Edge>, s: seq<Edge>)
    requires |s| <= cooEdges.Length
    modifies cooEdges
    ensures cooEdges[..|s|] == s
  {
    for i := 0 to |s|
      invariant cooEdges[..i] == s[..i]
    {
      cooEdges[i] := s[i];
    }
    assert s[..|s|] == s;
  }

  method SortInPlace(cooEdges: array<Edge>, nE: nat)
    requires nE <= cooEdges.Length
    modifies cooEdges
    ensures cooEdges[..nE] == Sort(old(cooEdges[..nE]))
  {
    var s := Sort(cooEdges[..nE]);
    assert |multiset(s)| == |multiset(cooEdges[..nE])|;
    CopyBack(cooEdges, s);
  }

  method SortAndUnique(cooEdges: array<Edge>, nE: nat) returns (newNE: nat)
    requires nE <= cooEdges.Length
    modifies cooEdges
    ensures newNE <= nE
    ensures cooEdges[..newNE] == Unique(Sort(old(cooEdges[..nE])))
  {
    SortInPlace(cooEdges, nE);
    var u := Unique(cooEdges[..nE]);
    UniqueKeepsElements(cooEdges[..nE], Edge(0, 0));
    CopyBack(cooEdges, u);
    newNE := |u|;
  }

  method RelabelInPlace(cooEdges: array<Edge>, nE: nat, labels: seq<int>)
    requires nE <= cooEdges.Length && InRange(cooEdges[..nE], |labels|)
    modifies cooEdges
    ensures cooEdges[..nE] == Relabelled(old(cooEdges[..nE]), labels)
  {
    ghost var read := cooEdges[..nE];
    for i := 0 to nE
      invariant forall j :: i <= j < nE ==> cooEdges[j] == read[j]
      invariant forall j :: 0 <= j < i ==> cooEdges[j] == Edge(labels[read[j].src], labels[read[j].dst])
    {
      assert read[i] == cooEdges[i];
      cooEdges[i] := Edge(labels[cooEdges[i].src], labels[cooEdges[i].dst]);
    }
  }

  method OrientByDegree(cooEdges: array<Edge>, nE: nat, degrees: array<nat>)
    returns (oriented: array<Edge>, counter: nat)
    requires nE <= cooEdges.Length && InRange(cooEdges[..nE], degrees.Length)
    ensures fresh(oriented) && oriented.Length == nE && counter <= nE
    ensures oriented[..counter] == Oriented(cooEdges[..nE], degrees[..])
  {
    oriented := new Edge[nE](_ => Edge(0, 0));
    counter := 0;
    ghost var list, deg := cooEdges[..nE], degrees[..];
    for i := 0 to nE
      invariant fresh(oriented) && counter <= i
      invariant oriented[..counter] == Oriented(list[..i], deg)
    {
      assert list[i] == cooEdges[i];
      assert list[..i + 1][..i] == list[..i] && list[..i + 1][i] == list[i];
      var u, v := cooEdges[i].src, cooEdges[i].dst;
      var degU, degV := degrees[u], degrees[v];
      if degU < degV || (degU == degV && u < v) {
        ghost var before := oriented[..counter];
        oriented[counter] := Edge(u, v);
        assert oriented[..counter] == before;
        counter := counter + 1;
      }
    }
    assert list[..nE] == list;
  }
}
