/**
 * The operator of the triangle count, run by every thread on its own box
 * (hornetsnest/src/Static/TriangleCounting/triangle2.cu, lines 75-124): a merge loop for the balanced
 * kernel and a binary search per entry of u for the imbalanced one.
 */
module Intersection {
  import opened Order

  function Common(a: seq<int>, b: seq<int>): set<int> {
    set x | x in a && x in b
  }

  lemma {:induction false} HeadsEqual(a: seq<int>, b: seq<int>)
    requires StrictlyIncreasing(a) && StrictlyIncreasing(b)
    requires a != [] && b != [] && a[0] == b[0]
    ensures |Common(a, b)| == 1 + |Common(a[1..], b[1..])|
  {
    assert a == [a[0]] + a[1..] && b == [b[0]] + b[1..];
    assert Common(a, b) == {a[0]} + Common(a[1..], b[1..]);
  }

  lemma {:induction false} FirstHeadSmaller(a: seq<int>, b: seq<int>)
    requires StrictlyIncreasing(a) && StrictlyIncreasing(b)
    requires a != [] && (b != [] ==> a[0] < b[0])
    ensures Common(a, b) == Common(a[1..], b)
  {
    assert a == [a[0]] + a[1..];
  }

  lemma {:induction false} CommonIsSymmetric(a: seq<int>, b: seq<int>)
    ensures Common(a, b) == Common(b, a)
  {
  }

  /** What is left to count, both ends inclusive. */
  ghost function Left(u: seq<int>, v: seq<int>, ui: int, uiEnd: int, vi: int, viEnd: int): nat
    requires 0 <= ui <= uiEnd + 1 <= |u| && 0 <= vi <= viEnd + 1 <= |v|
  {
    |Common(u[ui..uiEnd + 1], v[vi..viEnd + 1])|
  }

  lemma {:induction false} NextEntries(u: seq<int>, v: seq<int>, ui: int, uiEnd: int, vi: int, viEnd: int)
    requires StrictlyIncreasing(u) && StrictlyIncreasing(v)
    requires 0 <= ui <= uiEnd < |u| && 0 <= vi <= viEnd < |v|
    ensures u[ui] == v[vi] ==> Left(u, v, ui, uiEnd, vi, viEnd) == 1 + Left(u, v, ui + 1, uiEnd, vi + 1, viEnd)
    ensures u[ui] < v[vi] ==> Left(u, v, ui, uiEnd, vi, viEnd) == Left(u, v, ui + 1, uiEnd, vi, viEnd)
    ensures v[vi] < u[ui] ==> Left(u, v, ui, uiEnd, vi, viEnd) == Left(u, v, ui, uiEnd, vi + 1, viEnd)
  {
    var a, b := u[ui..uiEnd + 1], v[vi..viEnd + 1];
    assert a[1..] == u[ui + 1..uiEnd + 1] && b[1..] == v[vi + 1..viEnd + 1];
    if u[ui] == v[vi] {
      HeadsEqual(a, b);
    } else if u[ui] < v[vi] {
      FirstHeadSmaller(a, b);
    } else {
      CommonIsSymmetric(a, b);
      FirstHeadSmaller(b, a);
      CommonIsSymmetric(a, b[1..]);
    }
  }

  lemma {:induction false} NothingLeft(u: seq<int>, v: seq<int>, ui: int, uiEnd: int, vi: int, viEnd: int)
    requires 0 <= ui <= uiEnd + 1 <= |u| && 0 <= vi <= viEnd + 1 <= |v|
    ensures ui == uiEnd + 1 || vi == viEnd + 1 ==> Left(u, v, ui, uiEnd, vi, viEnd) == 0
  {
  }

  /** The merge loop, with both ends of each slice inclusive. */
  method CountByMerge(u: seq<int>, v: seq<int>, uiBegin: int, uiEnd: int, viBegin: int, viEnd: int)
    returns (count: nat)
    requires StrictlyIncreasing(u) && StrictlyIncreasing(v)
    requires 0 <= uiBegin <= uiEnd + 1 <= |u| && 0 <= viBegin <= viEnd + 1 <= |v|
    ensures count == |Common(u[uiBegin..uiEnd + 1], v[viBegin..viEnd + 1])|
  {
    count := 0;
    var ui, vi := uiBegin, viBegin;
    ghost var all := Left(u, v, ui, uiEnd, vi, viEnd);
    while vi <= viEnd && ui <= uiEnd
      invariant uiBegin <= ui <= uiEnd + 1 && viBegin <= vi <= viEnd + 1
      invariant count + Left(u, v, ui, uiEnd, vi, viEnd) == all
      decreases uiEnd - ui + viEnd - vi
    {
      NextEntries(u, v, ui, uiEnd, vi, viEnd);
      var compEquals := u[ui] == v[vi];
      count := count + if compEquals then 1 else 0;
      var comp1 := u[ui] >= v[vi];
      var comp2 := u[ui] <= v[vi];
      var uiBound := ui == uiEnd;
      var viBound := vi == viEnd;
      if (uiBound && comp2) || (viBound && comp1) {
        NothingLeft(u, v, if comp2 then ui + 1 else ui, uiEnd, if comp1 then vi + 1 else vi, viEnd);
        assert count == all;
        break;
      }
      if (comp1 && !viBound) || uiBound {
        vi := vi + 1;
      }
      if (comp2 && !uiBound) || viBound {
        ui := ui + 1;
      }
    }
    if vi > viEnd || ui > uiEnd {
      NothingLeft(u, v, ui, uiEnd, vi, viEnd);
    }
  }

  /** One binary search, in the slice of v. */
  method Search(v: seq<int>, searchVal: int, viBegin: int, viEnd: int) returns (count: nat)
    requires StrictlyIncreasing(v) && 0 <= viBegin <= viEnd + 1 <= |v|
    ensures count == if searchVal in v[viBegin..viEnd + 1] then 1 else 0
  {
    count := 0;
    ghost var b := v[viBegin..viEnd + 1];
    var viLow := 0;
    var viHigh := viEnd - viBegin;
    while viLow <= viHigh
      invariant 0 <= viLow <= viHigh + 1 <= |b| && count == 0
      invariant forall k :: 0 <= k < viLow ==> b[k] < searchVal
      invariant forall k :: viHigh < k < |b| ==> searchVal < b[k]
    {
      var viMid := (viLow + viHigh) / 2;
      var comp := v[viBegin + viMid] - searchVal;
      assert v[viBegin + viMid] == b[viMid];
      if comp == 0 {
        count := count + 1;
        break;
      }
      if comp > 0 {
        viHigh := viMid - 1;
      } else if comp < 0 {
        viLow := viMid + 1;
      }
    }
  }

  /** One binary search per entry of the slice of u. */
  method CountBySearch(u: seq<int>, v: seq<int>, uiBegin: int, uiEnd: int, viBegin: int, viEnd: int)
    returns (count: nat)
    requires StrictlyIncreasing(u) && StrictlyIncreasing(v)
    requires 0 <= uiBegin <= uiEnd + 1 <= |u| && 0 <= viBegin <= viEnd + 1 <= |v|
    ensures count == |Common(u[uiBegin..uiEnd + 1], v[viBegin..viEnd + 1])|
  {
    count := 0;
    var ui := uiBegin;
    ghost var b := v[viBegin..viEnd + 1];
    while ui <= uiEnd
      invariant uiBegin <= ui <= uiEnd + 1
      invariant count == |Common(u[uiBegin..ui], b)|
    {
      AddEntry(u[uiBegin..ui + 1], b);
      assert u[uiBegin..ui + 1][..ui - uiBegin] == u[uiBegin..ui];
      var found := Search(v, u[ui], viBegin, viEnd);
      count := count + found;
      ui := ui + 1;
    }
  }

  /** Appending an entry to the first list adds it exactly when the second list has it. */
  lemma {:induction false} AddEntry(a: seq<int>, b: seq<int>)
    requires a != [] && StrictlyIncreasing(a)
    ensures var front := a[..|a| - 1];
            |Common(a, b)| == |Common(front, b)| + if a[|a| - 1] in b then 1 else 0
  {
    var front, last := a[..|a| - 1], a[|a| - 1];
    assert a == front + [last];
    assert Common(a, b) == Common(front, b) + (if last in b then {last} else {});
  }
}
