/** Sums over sequences. */
module Sums {

  function SumOf<T>(s: seq<T>, f: T -> int): int {
    if s == [] then 0 else SumOf(s[..|s| - 1], f) + f(s[|s| - 1])
  }

  lemma {:induction false} SumAppend<T>(s: seq<T>, t: seq<T>, f: T -> int)
    ensures SumOf(s + t, f) == SumOf(s, f) + SumOf(t, f)
  {
    if t == [] {
      assert s + t == s;
    } else {
      assert (s + t)[..|s + t| - 1] == s + t[..|t| - 1];
      SumAppend(s, t[..|t| - 1], f);
    }
  }

  lemma {:induction false} SumEqual<T>(s: seq<T>, f: T -> int, g: T -> int)
    requires forall x :: x in s ==> f(x) == g(x)
    ensures SumOf(s, f) == SumOf(s, g)
  {
    if s != [] {
      SumEqual(s[..|s| - 1], f, g);
    }
  }

  /** Taking one entry out. */
  lemma {:induction false} SumWithout<T>(s: seq<T>, k: nat, f: T -> int)
    requires k < |s|
    ensures SumOf(s, f) == SumOf(s[..k] + s[k + 1..], f) + f(s[k])
    ensures multiset(s) == multiset(s[..k] + s[k + 1..]) + multiset{s[k]}
  {
    CutAround(s, k);
    SumAppend(s[..k] + [s[k]], s[k + 1..], f);
    SumOfExtension(s[..k], s[k], f);
    SumAppend(s[..k], s[k + 1..], f);
  }

  lemma {:induction false} CutAround<T>(s: seq<T>, k: nat)
    requires k < |s|
    ensures s == (s[..k] + [s[k]]) + s[k + 1..]
  {
  }

  lemma {:induction false} SumOfExtension<T>(s: seq<T>, x: T, f: T -> int)
    ensures SumOf(s + [x], f) == SumOf(s, f) + f(x)
  {
    assert (s + [x])[..|s|] == s;
  }

  /** A sum does not depend on the order. */
  lemma {:induction false} SumOfRearranged<T>(s: seq<T>, t: seq<T>, f: T -> int)
    requires multiset(s) == multiset(t)
    ensures SumOf(s, f) == SumOf(t, f)
    decreases |s|
  {
    if s == [] {
      assert |multiset(t)| == 0;
    } else {
      var last := s[|s| - 1];
      assert s == s[..|s| - 1] + [last];
      assert last in multiset(t);
      var k :| 0 <= k < |t| && t[k] == last;
      SumWithout(t, k, f);
      assert multiset(s[..|s| - 1]) == multiset(s) - multiset{last};
      assert multiset(t[..k] + t[k + 1..]) == multiset(t) - multiset{last};
      SumOfRearranged(s[..|s| - 1], t[..k] + t[k + 1..], f);
    }
  }

  lemma {:induction false} SumOfSlice<T>(s: seq<T>, from: nat, to: nat, f: T -> int)
    requires from <= to < |s|
    ensures SumOf(s[from..to + 1], f) == SumOf(s[from..to], f) + f(s[to])
  {
    assert s[from..to + 1] == s[from..to] + [s[to]];
    SumOfExtension(s[from..to], s[to], f);
  }

  lemma {:induction false} SumOfPrefix<T>(s: seq<T>, from: nat, to: nat, f: T -> int)
    requires from <= to <= |s|
    ensures SumOf(s[..to], f) == SumOf(s[..from], f) + SumOf(s[from..to], f)
  {
    assert s[..to] == s[..from] + s[from..to];
    SumAppend(s[..from], s[from..to], f);
  }
}
