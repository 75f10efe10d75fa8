/**
 * The graph object and its conversion (xlib/src/Graph/GraphStd.cpp, lines 94-158 and 173-360).
 */
module GraphStd {
  import opened CooToCsr
  import opened CsrRows
  import opened EdgeList

  /**
   * What decides the path through the conversion.
   * directedToUndirected: the file is directed, the graph undirected (never together with the next one);
   * storedUndirected: the file stores an undirected graph one edge a line;
   * incoming: a directed graph that also keeps its incoming edges.
   */
  datatype Options = Options(
    directedToUndirected: bool,
    storedUndirected: bool,
    randomize: bool,
    directedByDegree: bool,
    sort: bool,
    incoming: bool)
  {
    predicate Mirrors() {
      directedToUndirected || storedUndirected
    }
  }

  /** The edge list before the degree orientation. */
  function Prepared(read: seq<Edge>, o: Options, nV: nat, labels: seq<int>): seq<Edge>
    requires ValidLabels(labels, nV) && InRange(read, nV)
  {
    CleanInRange(read, o, nV);
    if o.randomize then Relabelled(Clean(read, o), labels) else Clean(read, o)
  }

  function Clean(read: seq<Edge>, o: Options): seq<Edge> {
    var mirrored := if o.Mirrors() then Mirrored(read) else read;
    if o.directedToUndirected then Unique(Sort(mirrored)) else mirrored
  }

  /** The edge list that the rows are built from. */
  function Final(read: seq<Edge>, o: Options, nV: nat, labels: seq<int>): (r: seq<Edge>)
    requires ValidLabels(labels, nV) && InRange(read, nV)
  {
    var prepared := Prepared(read, o, nV, labels);
    PreparedInRange(read, o, nV, labels);
    SortedIf(OrientedIf(prepared, o, nV), o)
  }

  function OrientedIf(prepared: seq<Edge>, o: Options, nV: nat): (r: seq<Edge>)
    requires InRange(prepared, nV)
    ensures InRange(r, nV)
  {
    if o.directedByDegree then Oriented(prepared, Degrees(prepared, nV)) else prepared
  }

  function SortedIf(s: seq<Edge>, o: Options): seq<Edge> {
    if o.sort && (!o.directedToUndirected || o.randomize) then Sort(s) else s
  }

  /** The shuffled vertex labels: any permutation of the vertices. */
  predicate ValidLabels(labels: seq<int>, nV: nat) {
    && |labels| == nV
    && (forall v :: 0 <= v < nV ==> 0 <= labels[v] < nV)
    && (forall v, w :: 0 <= v < w < nV ==> labels[v] != labels[w])
  }

  lemma {:induction false} InRangeByElements(s: seq<Edge>, t: seq<Edge>, nV: nat)
    requires InRange(s, nV) && forall e :: e in t ==> e in s
    ensures InRange(t, nV)
  {
    forall k | 0 <= k < |t| ensures 0 <= t[k].src < nV && 0 <= t[k].dst < nV {
      assert t[k] in s;
    }
  }

  lemma {:induction false} MirroredInRange(s: seq<Edge>, nV: nat)
    requires InRange(s, nV)
    ensures InRange(Mirrored(s), nV)
  {
    forall k | 0 <= k < |Swaps(s)| ensures 0 <= Swaps(s)[k].src < nV && 0 <= Swaps(s)[k].dst < nV {
      InSwaps(s, Swaps(s)[k]);
      assert Swap(Swaps(s)[k]) in s;
    }
  }

  lemma {:induction false} CleanInRange(read: seq<Edge>, o: Options, nV: nat)
    requires InRange(read, nV)
    ensures InRange(Clean(read, o), nV)
  {
    MirroredInRange(read, nV);
    var mirrored := if o.Mirrors() then Mirrored(read) else read;
    forall e | e in Clean(read, o) ensures e in mirrored {
      UniqueKeepsElements(Sort(mirrored), e);
      SortKeepsElements(mirrored, e);
    }
    InRangeByElements(mirrored, Clean(read, o), nV);
  }

  lemma {:induction false} PreparedInRange(read: seq<Edge>, o: Options, nV: nat, labels: seq<int>)
    requires ValidLabels(labels, nV) && InRange(read, nV)
    ensures InRange(Prepared(read, o, nV, labels), nV)
  {
    CleanInRange(read, o, nV);
  }

  lemma {:induction false} SortInRange(s: seq<Edge>, nV: nat)
    requires InRange(s, nV)
    ensures InRange(Sort(s), nV)
  {
    forall e | e in Sort(s) ensures e in s {
      SortKeepsElements(s, e);
    }
    InRangeByElements(s, Sort(s), nV);
  }

  class GraphStd {
    const nV: nat
    const options: Options
    var nE: nat
    var cooEdges: array<Edge>
    var outOffsets: array<nat>
    var outEdges: array<int>
    var outDegrees: array<nat>
    var inOffsets: array<nat>
    var inEdges: array<int>
    var inDegrees: array<nat>

    /** The edges that the reader has stored. */
    ghost function Read(): seq<Edge>
      reads this, cooEdges
      requires nE <= cooEdges.Length
    {
      if options.Mirrors() then cooEdges[..nE / 2] else cooEdges[..nE]
    }

    /** The shape of the arrays. */
    ghost predicate Allocated()
      reads this
    {
      && nE <= cooEdges.Length
      && outOffsets.Length == nV + 1 && inOffsets.Length == nV + 1
      && outDegrees.Length == nV && inDegrees.Length == nV
      && nE <= outEdges.Length && nE <= inEdges.Length
      && outOffsets != inOffsets && outOffsets != outDegrees && outOffsets != inDegrees
      && inOffsets != outDegrees && inOffsets != inDegrees && outDegrees != inDegrees && outEdges != inEdges
    }

    ghost predicate ZeroDegrees()
      reads this, outDegrees, inDegrees
    {
      && (forall v :: 0 <= v < outDegrees.Length ==> outDegrees[v] == 0)
      && (forall v :: 0 <= v < inDegrees.Length ==> inDegrees[v] == 0)
    }

    /** The degree arrays count the edges of the list. */
    ghost predicate DegreesCount()
      reads this, cooEdges, outDegrees, inDegrees
    {
      && nE <= cooEdges.Length
      && outDegrees[..] == Degrees(cooEdges[..nE], nV)
      && (options.incoming ==> inDegrees[..] == Degrees(Transposed(cooEdges[..nE]), nV))
    }

    /** The state after allocation and reading. */
    ghost predicate Loaded()
      reads this, cooEdges, outDegrees, inDegrees
    {
      Allocated() && ZeroDegrees() && InRange(Read(), nV)
    }

    /** Allocation for the header's counts, with the lines of the file in front of the edge buffer. */
    constructor (nV: nat, options: Options, lines: seq<Edge>)
      requires InRange(lines, nV)
      ensures Loaded() && this.nV == nV && this.options == options && Read() == lines
      ensures nE == (if options.directedToUndirected || options.storedUndirected then 2 * |lines| else |lines|)
      ensures cooEdges.Length == outEdges.Length == inEdges.Length == nE
      ensures fresh(cooEdges) && fresh(outOffsets) && fresh(outEdges) && fresh(outDegrees)
      ensures fresh(inOffsets) && fresh(inEdges) && fresh(inDegrees)
    {
      this.nV := nV;
      this.options := options;
      var size := if options.Mirrors() then 2 * |lines| else |lines|;
      nE := size;
      cooEdges := new Edge[size](k => if 0 <= k < |lines| then lines[k] else Edge(0, 0));
      outOffsets := new nat[nV + 1](_ => 0);
      inOffsets := new nat[nV + 1](_ => 0);
      outEdges := new int[size](_ => 0);
      inEdges := new int[size](_ => 0);
      outDegrees := new nat[nV](_ => 0);
      inDegrees := new nat[nV](_ => 0);
      new;
      assert Read() == lines;
    }

    /** Mirror, remove duplicates, relabel. */
    method Prepare(labels: seq<int>)
      requires Loaded() && ValidLabels(labels, nV)
      modifies this`nE, cooEdges
      ensures nE <= old(nE)
      ensures cooEdges[..nE] == Prepared(old(Read()), options, nV, labels)
    {
      ghost var read := Read();
      CleanInRange(read, options, nV);
      if options.directedToUndirected || options.storedUndirected {
        nE := MirrorInPlace(cooEdges, nE);
      }
      if options.directedToUndirected {
        nE := SortAndUnique(cooEdges, nE);
      }
      assert cooEdges[..nE] == Clean(read, options);
      if options.randomize {
        RelabelInPlace(cooEdges, nE, labels);
      }
    }

    /** Count the degrees and, if asked for, keep only the edges that run up in the degree order. */
    method CountAndOrient()
      requires Allocated() && ZeroDegrees() && InRange(cooEdges[..nE], nV)
      modifies this`nE, this`cooEdges, this`outDegrees, this`inDegrees, outDegrees, inDegrees
      ensures Allocated() && nE <= old(nE)
      ensures cooEdges == old(cooEdges) || fresh(cooEdges)
      ensures outDegrees == old(outDegrees) || fresh(outDegrees)
      ensures inDegrees == old(inDegrees) || fresh(inDegrees)
      ensures cooEdges[..nE] == OrientedIf(old(cooEdges[..nE]), options, nV)
      ensures DegreesCount()
    {
      CountAll();
      if options.directedByDegree {
        OrientAndRecount();
      }
    }

    /** The second list and the second count, in fresh arrays. */
    method OrientAndRecount()
      requires Allocated() && DegreesCount() && InRange(cooEdges[..nE], nV)
      modifies this`nE, this`cooEdges, this`outDegrees, this`inDegrees
      ensures Allocated() && nE <= old(nE)
      ensures fresh(cooEdges) && fresh(outDegrees) && fresh(inDegrees)
      ensures cooEdges[..nE] == Oriented(old(cooEdges[..nE]), Degrees(old(cooEdges[..nE]), nV))
      ensures DegreesCount()
    {
      cooEdges, nE := OrientByDegree(cooEdges, nE, outDegrees);
      outDegrees := new nat[nV](_ => 0);
      inDegrees := new nat[nV](_ => 0);
      CountAll();
    }

    method CountAll()
      requires Allocated() && ZeroDegrees() && InRange(cooEdges[..nE], nV)
      modifies outDegrees, inDegrees
      ensures DegreesCount()
    {
      CountDegrees(cooEdges, nE, false, outDegrees);
      if options.incoming {
        CountDegrees(cooEdges, nE, true, inDegrees);
      }
    }

    method SortIfAsked()
      requires Allocated() && DegreesCount()
      modifies cooEdges
      ensures cooEdges[..nE] == SortedIf(old(cooEdges[..nE]), options)
      ensures DegreesCount()
    {
      ghost var oriented := cooEdges[..nE];
      if options.sort && (!options.directedToUndirected || options.randomize) {
        SortInPlace(cooEdges, nE);
        forall v | 0 <= v < nV
          ensures |Row(cooEdges[..nE], v)| == |Row(oriented, v)|
          ensures |Row(Transposed(cooEdges[..nE]), v)| == |Row(Transposed(oriented), v)|
        {
          RowOfSort(oriented, v);
          RowOfTransposeLength(oriented, v);
        }
        assert Degrees(cooEdges[..nE], nV) == Degrees(oriented, nV);
        assert Degrees(Transposed(cooEdges[..nE]), nV) == Degrees(Transposed(oriented), nV);
      }
    }

    method BuildRows()
      requires Allocated() && DegreesCount() && InRange(cooEdges[..nE], nV)
      modifies outOffsets, outEdges, inOffsets, inEdges
      ensures IsCsr(cooEdges[..nE], nV, outOffsets[..], outEdges[..nE])
      ensures options.incoming ==> IsCsr(Transposed(cooEdges[..nE]), nV, inOffsets[..], inEdges[..nE])
    {
      ghost var list := cooEdges[..nE];
      BuildOffsets(list, nV, outDegrees, outOffsets);
      Scatter(cooEdges, nE, false, nV, outOffsets, outEdges);
      if options.incoming {
        BuildOffsets(Transposed(list), nV, inDegrees, inOffsets);
        Scatter(cooEdges, nE, true, nV, inOffsets, inEdges);
      }
    }

    /** The whole conversion; `labels` is the shuffle that the randomization draws. */
    method COOtoCSR(labels: seq<int>)
      requires Loaded() && ValidLabels(labels, nV)
      modifies this, cooEdges, outOffsets, outEdges, outDegrees, inOffsets, inEdges, inDegrees
      ensures Allocated() && DegreesCount()
      ensures cooEdges[..nE] == Final(old(Read()), options, nV, labels)
      ensures IsCsr(cooEdges[..nE], nV, outOffsets[..], outEdges[..nE])
      ensures options.incoming ==> IsCsr(Transposed(cooEdges[..nE]), nV, inOffsets[..], inEdges[..nE])
    {
      ghost var read := Read();
      PreparedInRange(read, options, nV, labels);
      Prepare(labels);
      CountAndOrient();
      SortInRange(cooEdges[..nE], nV);
      SortIfAsked();
      BuildRows();
    }
  }
}
