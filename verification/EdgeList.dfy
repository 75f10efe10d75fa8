/**
 * Edges as pairs of vertices, in the lexicographic order by which std::sort and std::unique treat them
 * (xlib/src/Graph/GraphStd.cpp, lines 198-199 and 309).
 */
module EdgeList {
  import Permutation

  datatype Edge = Edge(src: int, dst: int)

  predicate Less(a: Edge, b: Edge) {
    a.src < b.src || (a.src == b.src && a.dst < b.dst)
  }

  predicate Sorted(s: seq<Edge>) {
    forall i, j :: 0 <= i < j < |s| ==> !Less(s[j], s[i])
  }

  predicate StrictlySorted(s: seq<Edge>) {
    forall i, j :: 0 <= i < j < |s| ==> Less(s[i], s[j])
  }

  /** Insertion behind everything that is not larger. */
  function Insert(s: seq<Edge>, e: Edge): (r: seq<Edge>)
    ensures multiset(r) == multiset(s) + multiset{e}
  {
    if s == [] || !Less(e, s[|s| - 1]) then s + [e]
    else
      assert s == s[..|s| - 1] + [s[|s| - 1]];
      Insert(s[..|s| - 1], e) + [s[|s| - 1]]
  }

  /** What std::sort leaves: the order is total, so only one arrangement is sorted. */
  function Sort(s: seq<Edge>): (r: seq<Edge>)
    ensures multiset(r) == multiset(s)
  {
    if s == [] then []
    else
      assert s == s[..|s| - 1] + [s[|s| - 1]];
      Insert(Sort(s[..|s| - 1]), s[|s| - 1])
  }

  lemma {:induction false} InsertSorts(s: seq<Edge>, e: Edge)
    requires Sorted(s)
    ensures Sorted(Insert(s, e))
  {
    if s != [] && Less(e, s[|s| - 1]) {
      var front, last := s[..|s| - 1], s[|s| - 1];
      InsertSorts(front, e);
      var r := Insert(front, e);
      forall x | x in r ensures !Less(last, x) {
        assert x in multiset(r);
        assert x in front || x == e;
      }
    } else {
      forall i | 0 <= i < |s| ensures !Less(e, s[i]) {
        assert !Less(s[|s| - 1], s[i]);
      }
    }
  }

  lemma {:induction false} SortSorts(s: seq<Edge>)
    ensures Sorted(Sort(s))
  {
    if s != [] {
      SortSorts(s[..|s| - 1]);
      InsertSorts(Sort(s[..|s| - 1]), s[|s| - 1]);
    }
  }

  lemma {:induction false} LastIsLargest(s: seq<Edge>, e: Edge)
    requires Sorted(s) && e in multiset(s)
    ensures s != [] && !Less(s[|s| - 1], e)
  {
    var i :| 0 <= i < |s| && s[i] == e;
  }

  lemma {:induction false} SortedIsUnique(s: seq<Edge>, t: seq<Edge>)
    requires Sorted(s) && Sorted(t) && multiset(s) == multiset(t)
    ensures s == t
  {
    if s == [] {
      assert |multiset(t)| == 0;
    } else {
      var s', t' := s[..|s| - 1], t[..|t| - 1];
      var a := s[|s| - 1];
      assert s == s' + [a];
      LastIsLargest(t, a);
      assert t == t' + [t[|t| - 1]];
      LastIsLargest(s, t[|t| - 1]);
      assert t[|t| - 1] == a;
      assert multiset(s') == multiset(s) - multiset{a};
      assert multiset(t') == multiset(t) - multiset{a};
      SortedIsUnique(s', t');
    }
  }

  /** Whatever the sorting algorithm, its result is Sort. */
  lemma {:induction false} AnySortIsSort(s: seq<Edge>, t: seq<Edge>)
    requires Sorted(t) && multiset(t) == multiset(s)
    ensures t == Sort(s)
  {
    SortSorts(s);
    SortedIsUnique(t, Sort(s));
  }

  lemma {:induction false} SortKeepsElements(s: seq<Edge>, e: Edge)
    ensures e in Sort(s) <==> e in s
  {
    assert e in Sort(s) <==> e in multiset(Sort(s));
    assert e in s <==> e in multiset(s);
  }

  /** What std::unique keeps: the first of every group of equal neighbours. */
  function Unique(s: seq<Edge>): seq<Edge> {
    if |s| <= 1 then s
    else if s[|s| - 1] == s[|s| - 2] then Unique(s[..|s| - 1])
    else Unique(s[..|s| - 1]) + [s[|s| - 1]]
  }

  lemma {:induction false} UniqueKeepsElements(s: seq<Edge>, e: Edge)
    ensures e in Unique(s) <==> e in s
    ensures |Unique(s)| <= |s|
    ensures s != [] ==> Unique(s) != [] && Unique(s)[|Unique(s)| - 1] == s[|s| - 1]
  {
    if |s| > 1 {
      var front := s[..|s| - 1];
      UniqueKeepsElements(front, e);
      assert s == front + [s[|s| - 1]];
      assert s[|s| - 2] in front;
    }
  }

  lemma {:induction false} UniqueIsStrict(s: seq<Edge>)
    requires Sorted(s)
    ensures StrictlySorted(Unique(s))
  {
    if |s| > 1 {
      var front, last := s[..|s| - 1], s[|s| - 1];
      UniqueIsStrict(front);
      if last != s[|s| - 2] {
        forall x | x in Unique(front) ensures Less(x, last) {
          UniqueKeepsElements(front, x);
          var i :| 0 <= i < |front| && front[i] == x;
          assert !Less(last, s[i]) && !Less(s[|s| - 2], s[i]) && !Less(last, s[|s| - 2]);
        }
      }
    }
  }

  lemma {:induction false} StrictIsDistinct(s: seq<Edge>)
    requires StrictlySorted(s)
    ensures Permutation.Distinct(s)
  {
  }
}
