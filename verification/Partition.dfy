/** Cardinalities of sets cut into pieces. */
module Partition {

  lemma {:induction false} Pick<T>(s: set<T>) returns (x: T)
    requires s != {}
    ensures x in s
  {
    x :| x in s;
  }

  lemma {:induction false} SubsetSize<T>(a: set<T>, b: set<T>)
    requires a <= b
    ensures |a| <= |b|
    ensures a != b ==> |a| < |b|
  {
    assert b == a + (b - a);
    assert a != b ==> b - a != {};
  }

  function Union<T>(parts: seq<set<T>>): set<T> {
    if parts == [] then {} else Union(parts[..|parts| - 1]) + parts[|parts| - 1]
  }

  function SizeSum<T>(parts: seq<set<T>>): nat {
    if parts == [] then 0 else SizeSum(parts[..|parts| - 1]) + |parts[|parts| - 1]|
  }

  predicate PairwiseDisjoint<T>(parts: seq<set<T>>) {
    forall i, j :: 0 <= i < j < |parts| ==> parts[i] !! parts[j]
  }

  lemma {:induction false} InUnion<T>(parts: seq<set<T>>, x: T)
    ensures x in Union(parts) <==> exists i :: 0 <= i < |parts| && x in parts[i]
  {
    if parts != [] {
      var front := parts[..|parts| - 1];
      InUnion(front, x);
      if x in Union(parts) && x !in parts[|parts| - 1] {
        var i :| 0 <= i < |front| && x in front[i];
        assert x in parts[i];
      }
      if i :| 0 <= i < |parts| && x in parts[i] && i < |parts| - 1 {
        assert x in front[i];
      }
    }
  }

  lemma {:induction false} DisjointUnionSize<T>(parts: seq<set<T>>)
    requires PairwiseDisjoint(parts)
    ensures |Union(parts)| == SizeSum(parts)
  {
    if parts != [] {
      var front, last := parts[..|parts| - 1], parts[|parts| - 1];
      DisjointUnionSize(front);
      forall x | x in Union(front) ensures x !in last {
        InUnion(front, x);
        var i :| 0 <= i < |front| && x in front[i];
        assert parts[i] !! last;
      }
      assert Union(front) !! last;
    }
  }

  /** Pairwise disjoint parts that cover a set add up to its size. */
  lemma {:induction false} PartitionSize<T>(parts: seq<set<T>>, whole: set<T>)
    requires PairwiseDisjoint(parts)
    requires forall i :: 0 <= i < |parts| ==> parts[i] <= whole
    requires forall x :: x in whole ==> exists i :: 0 <= i < |parts| && x in parts[i]
    ensures SizeSum(parts) == |whole|
  {
    DisjointUnionSize(parts);
    forall x | x in Union(parts) ensures x in whole {
      InUnion(parts, x);
      var i :| 0 <= i < |parts| && x in parts[i];
      assert parts[i] <= whole;
    }
    forall x | x in whole ensures x in Union(parts) {
      InUnion(parts, x);
    }
    assert Union(parts) == whole;
  }
}
