/** Duplicate-free sequences and rearrangements. */
module Permutation {

  predicate Distinct<T(==)>(s: seq<T>) {
    forall i, j :: 0 <= i < j < |s| ==> s[i] != s[j]
  }

  function Elements<T>(s: seq<T>): set<T> {
    set x | x in s
  }

  function Range(n: nat): (r: set<nat>)
    ensures forall i: nat :: i in r <==> i < n
    ensures |r| == n
  {
    if n == 0 then {} else Range(n - 1) + {n - 1}
  }

  lemma {:induction false} DistinctSize<T>(s: seq<T>)
    requires Distinct(s)
    ensures |Elements(s)| == |s|
  {
    if s != [] {
      var front, last := s[..|s| - 1], s[|s| - 1];
      DistinctSize(front);
      assert s == front + [last];
      assert last !in front;
      assert Elements(s) == Elements(front) + {last};
    }
  }

  lemma {:induction false} SubsetOfSameSize<T>(a: set<T>, b: set<T>)
    requires a <= b && |a| == |b|
    ensures a == b
  {
    assert |b - a| == 0;
    assert b - a == {};
  }

  /** A duplicate-free list of n numbers below n lists them all. */
  lemma {:induction false} InjectionIsOnto(p: seq<nat>, i: nat)
    requires Distinct(p) && (forall k :: 0 <= k < |p| ==> p[k] < |p|)
    requires i < |p|
    ensures i in p
  {
    DistinctSize(p);
    assert Elements(p) <= Range(|p|);
    SubsetOfSameSize(Elements(p), Range(|p|));
    assert i in Range(|p|);
  }

  /** The places that remain, renumbered, when the last one is taken out. */
  function WithoutLast(p: seq<nat>): (r: seq<nat>)
    requires p != [] && Distinct(p)
    ensures |r| == |p| - 1
  {
    var hole := p[|p| - 1];
    seq(|p| - 1, k requires 0 <= k < |p| - 1 => if p[k] <= hole then p[k] else p[k] - 1)
  }

  lemma {:induction false} WithoutLastDistinct(p: seq<nat>)
    requires p != [] && Distinct(p)
    ensures Distinct(WithoutLast(p))
  {
    var n := |p| - 1;
    forall i, j | 0 <= i < j < n ensures WithoutLast(p)[i] != WithoutLast(p)[j] {
      assert p[i] != p[j] && p[i] != p[n] && p[j] != p[n];
    }
  }

  /** Putting every entry of e at its own place of q rearranges e into q. */
  lemma {:induction false} Rearranged<T>(e: seq<T>, q: seq<T>, p: seq<nat>)
    requires |e| == |q| == |p| && Distinct(p)
    requires forall k :: 0 <= k < |p| ==> p[k] < |q| && q[p[k]] == e[k]
    ensures multiset(q) == multiset(e)
  {
    if |e| > 0 {
      var n := |e| - 1;
      var hole := p[n];
      var front, q', p' := e[..n], q[..hole] + q[hole + 1..], WithoutLast(p);
      WithoutLastDistinct(p);
      forall k | 0 <= k < n ensures p'[k] < |q'| && q'[p'[k]] == front[k] {
        assert p[k] != hole;
      }
      Rearranged(front, q', p');
      assert e == front + [e[n]];
      assert q == q[..hole] + [q[hole]] + q[hole + 1..];
    }
  }

  /** Duplicate-free lists of the same elements are rearrangements of each other. */
  lemma {:induction false} SameElements<T>(s: seq<T>, t: seq<T>)
    requires Distinct(s) && Distinct(t) && Elements(s) == Elements(t)
    ensures multiset(s) == multiset(t)
  {
    forall x ensures multiset(s)[x] == multiset(t)[x] {
      DistinctCount(s, x);
      DistinctCount(t, x);
      assert x in s <==> x in Elements(s);
      assert x in t <==> x in Elements(t);
    }
  }

  lemma {:induction false} DistinctCount<T>(s: seq<T>, x: T)
    requires Distinct(s)
    ensures multiset(s)[x] == if x in s then 1 else 0
  {
    if s != [] {
      var front, last := s[..|s| - 1], s[|s| - 1];
      assert s == front + [last];
      assert last !in front;
      DistinctCount(front, x);
    }
  }
}
