/**
 * Merging and cutting a merge into pieces (xlib/include/Host/impl/Algorithm.i.hpp, lines 177-202 and
 * 327-352).  Elements carry a tag beside the key that is compared, so that stability can be seen.
 */
module MergePath {

  datatype Elem = Elem(key: int, tag: int)

  predicate Sorted(s: seq<Elem>) {
    forall i, j :: 0 <= i < j < |s| ==> s[i].key <= s[j].key
  }

  /** The forward merge; on a tie the left list goes first. */
  function Merged(a: seq<Elem>, b: seq<Elem>): (r: seq<Elem>)
    ensures |r| == |a| + |b|
  {
    if a == [] then b
    else if b == [] then a
    else if a[0].key <= b[0].key then [a[0]] + Merged(a[1..], b)
    else [b[0]] + Merged(a, b[1..])
  }

  // ---------------------------------------------------------------------------------------------
  // Merging

  /** What has been written and the merge of what is left form the whole merge. */
  predicate HeadOk(a: seq<Elem>, b: seq<Elem>, i: int, j: int, head: seq<Elem>)
    requires 0 <= i <= |a| && 0 <= j <= |b|
  {
    head + Merged(a[i..], b[j..]) == Merged(a, b)
  }

  lemma {:induction false} StepLeft(a: seq<Elem>, b: seq<Elem>, i: nat, j: nat, head: seq<Elem>)
    requires i < |a| && j < |b| && a[i].key <= b[j].key && HeadOk(a, b, i, j, head)
    ensures HeadOk(a, b, i + 1, j, head + [a[i]])
  {
    assert a[i..][1..] == a[i + 1..];
    assert head + ([a[i]] + Merged(a[i + 1..], b[j..])) == (head + [a[i]]) + Merged(a[i + 1..], b[j..]);
  }

  lemma {:induction false} StepRight(a: seq<Elem>, b: seq<Elem>, i: nat, j: nat, head: seq<Elem>)
    requires i < |a| && j < |b| && a[i].key > b[j].key && HeadOk(a, b, i, j, head)
    ensures HeadOk(a, b, i, j + 1, head + [b[j]])
  {
    assert b[j..][1..] == b[j + 1..];
    assert head + ([b[j]] + Merged(a[i..], b[j + 1..])) == (head + [b[j]]) + Merged(a[i..], b[j + 1..]);
  }

  lemma {:induction false} HeadStart(a: seq<Elem>, b: seq<Elem>)
    ensures HeadOk(a, b, 0, 0, [])
  {
    assert a[0..] == a && b[0..] == b;
  }

  lemma {:induction false} HeadEnd(a: seq<Elem>, b: seq<Elem>, i: nat, j: nat, head: seq<Elem>)
    requires i <= |a| && j <= |b| && HeadOk(a, b, i, j, head)
    ensures j == |b| ==> head + a[i..] == Merged(a, b)
    ensures i == |a| ==> head + b[j..] == Merged(a, b)
  {
  }

  method Merge(left: seq<Elem>, right: seq<Elem>, merge: array<Elem>)
    requires merge.Length == |left| + |right|
    modifies merge
    ensures merge[..] == Merged(left, right)
  {
    var i, j, k := 0, 0, 0;
    HeadStart(left, right);
    while i < |left| && j < |right|
      invariant 0 <= i <= |left| && 0 <= j <= |right| && k == i + j
      invariant HeadOk(left, right, i, j, merge[..k])
    {
      ghost var head := merge[..k];
      if left[i].key <= right[j].key {
        StepLeft(left, right, i, j, head);
        merge[k] := left[i];
        i := i + 1;
      } else {
        StepRight(left, right, i, j, head);
        merge[k] := right[j];
        j := j + 1;
      }
      assert merge[..k + 1] == head + [merge[k]];
      k := k + 1;
    }
    HeadEnd(left, right, i, j, merge[..k]);
    if i < |left| {
      CopyRest(left, i, merge, k);
    } else {
      CopyRest(right, j, merge, k);
    }
  }

  method CopyRest(s: seq<Elem>, from: nat, merge: array<Elem>, k: nat)
    requires from <= |s| && k + |s| - from == merge.Length
    modifies merge
    ensures merge[..] == old(merge[..k]) + s[from..]
  {
    for p := from to |s|
      invariant merge[..k + p - from] == old(merge[..k]) + s[from..p]
    {
      ghost var done := merge[..k + p - from];
      merge[k + p - from] := s[p];
      assert merge[..k + p - from + 1] == done + [s[p]];
    }
    assert merge[..merge.Length] == merge[..];
  }

  /** The backward merge; on a tie the right list goes last. */
  function MergedBack(a: seq<Elem>, b: seq<Elem>): (r: seq<Elem>)
    ensures |r| == |a| + |b|
  {
    if a == [] then b
    else if b == [] then a
    else if a[|a| - 1].key <= b[|b| - 1].key then MergedBack(a, b[..|b| - 1]) + [b[|b| - 1]]
    else MergedBack(a[..|a| - 1], b) + [a[|a| - 1]]
  }

  /** The tail holds what the merge of the first i + 1 and j + 1 elements still lacks. */
  predicate TailOk(a: seq<Elem>, b: seq<Elem>, i: int, j: int, tail: seq<Elem>)
    requires -1 <= i < |a| && -1 <= j < |b|
  {
    MergedBack(a[..i + 1], b[..j + 1]) + tail == MergedBack(a, b)
  }

  lemma {:induction false} BackLeft(a: seq<Elem>, b: seq<Elem>, i: nat, j: nat, tail: seq<Elem>)
    requires i < |a| && j < |b| && a[i].key > b[j].key && TailOk(a, b, i, j, tail)
    ensures TailOk(a, b, i - 1, j, [a[i]] + tail)
  {
    assert a[..i + 1][..i] == a[..i];
    assert MergedBack(a[..i], b[..j + 1]) + ([a[i]] + tail) == MergedBack(a[..i + 1], b[..j + 1]) + tail;
  }

  lemma {:induction false} BackRight(a: seq<Elem>, b: seq<Elem>, i: nat, j: nat, tail: seq<Elem>)
    requires i < |a| && j < |b| && a[i].key <= b[j].key && TailOk(a, b, i, j, tail)
    ensures TailOk(a, b, i, j - 1, [b[j]] + tail)
  {
    assert b[..j + 1][..j] == b[..j];
    assert MergedBack(a[..i + 1], b[..j]) + ([b[j]] + tail) == MergedBack(a[..i + 1], b[..j + 1]) + tail;
  }

  method Put(left: array<Elem>, k: nat, x: Elem)
    requires k < left.Length
    modifies left
    ensures left[k..] == [x] + old(left[k + 1..])
    ensures forall m :: 0 <= m < k ==> left[m] == old(left[m])
  {
    left[k] := x;
  }

  /** What is left of the left list still stands at the front, and the merged tail behind place k. */
  ghost predicate BackOk(left: array<Elem>, a: seq<Elem>, right: seq<Elem>, i: int, j: int, k: int, tail: seq<Elem>)
    requires -1 <= i < |a| && -1 <= j < |right|
    reads left
  {
    && left.Length == |a| + |right| && k == i + j + 1
    && (forall m :: 0 <= m <= i ==> left[m] == a[m])
    && tail == left[k + 1..] && TailOk(a, right, i, j, tail)
  }

  method PutRight(left: array<Elem>, ghost a: seq<Elem>, right: seq<Elem>, ghost i: nat, j: nat, k: nat,
                  ghost tail: seq<Elem>)
    requires i < |a| && j < |right| && BackOk(left, a, right, i, j, k, tail) && a[i].key <= right[j].key
    modifies left
    ensures BackOk(left, a, right, i, j - 1, k - 1, [right[j]] + tail)
  {
    BackRight(a, right, i, j, tail);
    Put(left, k, right[j]);
  }

  method PutLeft(left: array<Elem>, ghost a: seq<Elem>, ghost right: seq<Elem>, i: nat, ghost j: nat, k: nat,
                 ghost tail: seq<Elem>)
    requires i < |a| && j < |right| && BackOk(left, a, right, i, j, k, tail) && a[i].key > right[j].key
    modifies left
    ensures BackOk(left, a, right, i - 1, j, k - 1, [a[i]] + tail)
  {
    BackLeft(a, right, i, j, tail);
    Put(left, k, left[i]);
  }

  /** The merge into the tail of the left buffer never overwrites an element that is still needed. */
  method InplaceMerge(left: array<Elem>, sizeLeft: nat, right: seq<Elem>)
    requires left.Length == sizeLeft + |right|
    modifies left
    ensures left[..] == MergedBack(old(left[..sizeLeft]), right)
  {
    ghost var a := left[..sizeLeft];
    var i, j, k := sizeLeft - 1, |right| - 1, sizeLeft + |right| - 1;
    assert a[..i + 1] == a && right[..j + 1] == right;
    ghost var tail: seq<Elem> := [];
    while i >= 0 && j >= 0
      invariant -1 <= i < sizeLeft && -1 <= j < |right| && k == i + j + 1
      invariant BackOk(left, a, right, i, j, k, tail)
      decreases i + j
    {
      if left[i].key <= right[j].key {
        PutRight(left, a, right, i, j, k, tail);
        tail := [right[j]] + tail;
        j := j - 1;
      } else {
        PutLeft(left, a, right, i, j, k, tail);
        tail := [a[i]] + tail;
        i := i - 1;
      }
      k := k - 1;
    }
    DrainRight(left, a, right, i, j);
  }

  /** The second loop: what is left of the right list goes to the front. */
  method DrainRight(left: array<Elem>, ghost a: seq<Elem>, right: seq<Elem>, ghost i: int, j0: int)
    requires left.Length == |a| + |right| && -1 <= i < |a| && -1 <= j0 < |right| && (i == -1 || j0 == -1)
    requires forall m :: 0 <= m <= i ==> left[m] == a[m]
    requires TailOk(a, right, i, j0, left[i + j0 + 2..])
    modifies left
    ensures left[..] == MergedBack(a, right)
  {
    var j := j0;
    if j0 == -1 {
      assert left[..] == a[..i + 1] + left[i + j0 + 2..];
      assert right[..j0 + 1] == [];
    } else {
      assert a[..i + 1] == [];
    }
    while j >= 0
      invariant -1 <= j <= j0
      invariant j0 >= 0 ==> right[..j + 1] + left[j + 1..] == MergedBack(a, right)
      invariant j0 == -1 ==> left[..] == MergedBack(a, right)
    {
      ghost var tail := left[j + 1..];
      left[j] := right[j];
      assert left[j..] == [right[j]] + tail;
      assert right[..j + 1] + tail == right[..j] + ([right[j]] + tail);
      j := j - 1;
    }
    assert j0 >= 0 ==> left[..] == right[..j + 1] + left[j + 1..];
  }

  // ---------------------------------------------------------------------------------------------
  // What the merge is

  lemma {:induction false} MergedKeepsElements(a: seq<Elem>, b: seq<Elem>)
    ensures multiset(Merged(a, b)) == multiset(a) + multiset(b)
    decreases |a| + |b|
  {
    if a != [] && b != [] {
      assert a == [a[0]] + a[1..] && b == [b[0]] + b[1..];
      if a[0].key <= b[0].key {
        MergedKeepsElements(a[1..], b);
      } else {
        MergedKeepsElements(a, b[1..]);
      }
    }
  }

  lemma {:induction false} HeadIsSmallest(a: seq<Elem>, b: seq<Elem>, h: Elem, rest: seq<Elem>)
    requires multiset(rest) == multiset(a) + multiset(b)
    requires (forall i :: 0 <= i < |a| ==> h.key <= a[i].key) && forall i :: 0 <= i < |b| ==> h.key <= b[i].key
    ensures forall k :: 0 <= k < |rest| ==> h.key <= rest[k].key
  {
    forall k | 0 <= k < |rest| ensures h.key <= rest[k].key {
      assert rest[k] in multiset(rest);
      assert rest[k] in a || rest[k] in b;
    }
  }

  lemma {:induction false} MergedIsSorted(a: seq<Elem>, b: seq<Elem>)
    requires Sorted(a) && Sorted(b)
    ensures Sorted(Merged(a, b))
    decreases |a| + |b|
  {
    if a != [] && b != [] {
      if a[0].key <= b[0].key {
        MergedIsSorted(a[1..], b);
        MergedKeepsElements(a[1..], b);
        HeadIsSmallest(a[1..], b, a[0], Merged(a[1..], b));
      } else {
        MergedIsSorted(a, b[1..]);
        MergedKeepsElements(a, b[1..]);
        HeadIsSmallest(a, b[1..], b[0], Merged(a, b[1..]));
      }
    }
  }

  /** The elements with a given key, in order. */
  function OfKey(s: seq<Elem>, key: int): seq<Elem> {
    if s == [] then [] else (if s[0].key == key then [s[0]] else []) + OfKey(s[1..], key)
  }

  lemma {:induction false} NoneOfKey(s: seq<Elem>, key: int)
    requires forall i :: 0 <= i < |s| ==> s[i].key > key
    ensures OfKey(s, key) == []
  {
    if s != [] {
      NoneOfKey(s[1..], key);
    }
  }

  lemma {:induction false} OfKeyOfCons(h: Elem, t: seq<Elem>, key: int)
    ensures OfKey([h] + t, key) == (if h.key == key then [h] else []) + OfKey(t, key)
  {
    assert ([h] + t)[1..] == t;
  }

  lemma {:induction false} Associate(p: seq<Elem>, q: seq<Elem>, r: seq<Elem>)
    ensures p + (q + r) == (p + q) + r
  {
  }

  lemma {:induction false} StableLeft(a: seq<Elem>, b: seq<Elem>, key: int)
    requires a != [] && b != [] && a[0].key <= b[0].key
    requires OfKey(Merged(a[1..], b), key) == OfKey(a[1..], key) + OfKey(b, key)
    ensures OfKey(Merged(a, b), key) == OfKey(a, key) + OfKey(b, key)
  {
    OfKeyOfCons(a[0], Merged(a[1..], b), key);
    Associate(if a[0].key == key then [a[0]] else [], OfKey(a[1..], key), OfKey(b, key));
  }

  lemma {:induction false} StableRight(a: seq<Elem>, b: seq<Elem>, key: int)
    requires Sorted(a) && a != [] && b != [] && a[0].key > b[0].key
    requires OfKey(Merged(a, b[1..]), key) == OfKey(a, key) + OfKey(b[1..], key)
    ensures OfKey(Merged(a, b), key) == OfKey(a, key) + OfKey(b, key)
  {
    OfKeyOfCons(b[0], Merged(a, b[1..]), key);
    NothingBefore(OfKey(b[1..], key));
    if b[0].key == key {
      NoneOfKey(a, key);
      NothingBefore(OfKey(b, key));
    } else {
      NothingBefore(OfKey(a, key) + OfKey(b[1..], key));
    }
  }

  lemma {:induction false} NothingBefore(s: seq<Elem>)
    ensures [] + s == s
  {
  }

  /** Stability: equal keys keep their order, those of the left list first. */
  lemma {:induction false} MergedIsStable(a: seq<Elem>, b: seq<Elem>, key: int)
    requires Sorted(a) && Sorted(b)
    ensures OfKey(Merged(a, b), key) == OfKey(a, key) + OfKey(b, key)
    decreases |a| + |b|
  {
    if a != [] && b != [] {
      if a[0].key <= b[0].key {
        MergedIsStable(a[1..], b, key);
        StableLeft(a, b, key);
      } else {
        MergedIsStable(a, b[1..], key);
        StableRight(a, b, key);
      }
    }
  }

  // ---------------------------------------------------------------------------------------------
  // Cutting the merge

  /** The merge is the merge of what lies before the cut, followed by the merge of what lies behind it. */
  predicate CutsMerge(a: seq<Elem>, b: seq<Elem>, x: int, y: int)
    requires 0 <= x <= |a| && 0 <= y <= |b|
  {
    Merged(a, b) == Merged(a[..x], b[..y]) + Merged(a[x..], b[y..])
  }

  /** Taking x elements of a and y of b is a prefix of the merge. */
  predicate Splits(a: seq<Elem>, b: seq<Elem>, x: int, y: int) {
    && 0 <= x <= |a| && 0 <= y <= |b|
    && (x == 0 || y == |b| || a[x - 1].key <= b[y].key)
    && (y == 0 || x == |a| || b[y - 1].key < a[x].key)
  }
  lemma {:induction false} SplitCutsMerge(a: seq<Elem>, b: seq<Elem>, x: int, y: int)
    requires Sorted(a) && Sorted(b) && Splits(a, b, x, y)
    ensures CutsMerge(a, b, x, y)
    decreases |a| + |b|
  {
    if (x == 0 && y == 0) || a == [] || b == [] {
      CutAtEdge(a, b, x, y);
    } else if a[0].key <= b[0].key {
      FirstIsTaken(a, b, x, y);
      SplitCutsMerge(a[1..], b, x - 1, y);
      CutLeft(a, b, x, y);
    } else {
      FirstIsTaken(a, b, x, y);
      SplitCutsMerge(a, b[1..], x, y - 1);
      CutRight(a, b, x, y);
    }
  }

  lemma {:induction false} CutAtEdge(a: seq<Elem>, b: seq<Elem>, x: int, y: int)
    requires 0 <= x <= |a| && 0 <= y <= |b| && ((x == 0 && y == 0) || a == [] || b == [])
    ensures CutsMerge(a, b, x, y)
  {
    assert a[..x] + a[x..] == a && b[..y] + b[y..] == b;
    if x == 0 && y == 0 {
      assert a[x..] == a && b[y..] == b;
    }
  }

  /** A cut that takes anything takes the first element of the merge, and the rest still splits. */
  lemma {:induction false} FirstIsTaken(a: seq<Elem>, b: seq<Elem>, x: int, y: int)
    requires Sorted(a) && Sorted(b) && Splits(a, b, x, y) && a != [] && b != [] && x + y > 0
    ensures a[0].key <= b[0].key ==> x > 0 && Splits(a[1..], b, x - 1, y)
    ensures a[0].key > b[0].key ==> y > 0 && Splits(a, b[1..], x, y - 1)
    ensures Sorted(a[1..]) && Sorted(b[1..])
  {
  }

  lemma {:induction false} CutLeft(a: seq<Elem>, b: seq<Elem>, x: int, y: int)
    requires 0 < x <= |a| && 0 <= y <= |b| && b != [] && a[0].key <= b[0].key
    requires CutsMerge(a[1..], b, x - 1, y)
    ensures CutsMerge(a, b, x, y)
  {
    FrontTakesLeft(a, b, x, y);
    Reassociate(a[0], Merged(a[1..][..x - 1], b[..y]), Merged(a[x..], b[y..]));
  }

  lemma {:induction false} CutRight(a: seq<Elem>, b: seq<Elem>, x: int, y: int)
    requires 0 <= x <= |a| && 0 < y <= |b| && a != [] && a[0].key > b[0].key
    requires CutsMerge(a, b[1..], x, y - 1)
    ensures CutsMerge(a, b, x, y)
  {
    FrontTakesRight(a, b, x, y);
    Reassociate(b[0], Merged(a[..x], b[1..][..y - 1]), Merged(a[x..], b[y..]));
  }

  lemma {:induction false} Reassociate(h: Elem, p: seq<Elem>, q: seq<Elem>)
    ensures [h] + (p + q) == ([h] + p) + q
  {
  }

  /** The prefix merge starts with the same element as the whole merge. */
  lemma {:induction false} FrontTakesLeft(a: seq<Elem>, b: seq<Elem>, x: int, y: int)
    requires 0 < x <= |a| && 0 <= y <= |b| && b != [] && a[0].key <= b[0].key
    ensures Merged(a[..x], b[..y]) == [a[0]] + Merged(a[1..][..x - 1], b[..y])
    ensures a[1..][x - 1..] == a[x..]
  {
    assert a[1..][..x - 1] == a[..x][1..];
    if y == 0 {
      assert a[..x] == [a[0]] + a[..x][1..];
    }
  }

  lemma {:induction false} FrontTakesRight(a: seq<Elem>, b: seq<Elem>, x: int, y: int)
    requires 0 <= x <= |a| && 0 < y <= |b| && a != [] && a[0].key > b[0].key
    ensures Merged(a[..x], b[..y]) == [b[0]] + Merged(a[..x], b[1..][..y - 1])
    ensures b[1..][y - 1..] == b[y..]
  {
    assert b[1..][..y - 1] == b[..y][1..];
    if x == 0 {
      assert b[..y] == [b[0]] + b[..y][1..];
    }
  }

  lemma {:induction false} Ends(s: seq<Elem>)
    requires s != []
    ensures s[..|s|] == s && s[|s|..] == [] && s[|s| - 1..] == [s[|s| - 1]]
  {
  }

  /** The largest element goes last; on a tie it is the right one. */
  lemma {:induction false} LastFromRight(a: seq<Elem>, b: seq<Elem>)
    requires Sorted(a) && Sorted(b) && a != [] && b != [] && a[|a| - 1].key <= b[|b| - 1].key
    ensures Merged(a, b) == Merged(a, b[..|b| - 1]) + [b[|b| - 1]]
  {
    Ends(a);
    Ends(b);
    SplitCutsMerge(a, b, |a|, |b| - 1);
  }

  lemma {:induction false} LastFromLeft(a: seq<Elem>, b: seq<Elem>)
    requires Sorted(a) && Sorted(b) && a != [] && b != [] && a[|a| - 1].key > b[|b| - 1].key
    ensures Merged(a, b) == Merged(a[..|a| - 1], b) + [a[|a| - 1]]
  {
    Ends(a);
    Ends(b);
    SplitCutsMerge(a, b, |a| - 1, |b|);
  }

  /** The backward merge gives the same stable result. */
  lemma {:induction false} BackwardIsForward(a: seq<Elem>, b: seq<Elem>)
    requires Sorted(a) && Sorted(b)
    ensures MergedBack(a, b) == Merged(a, b)
    decreases |a| + |b|
  {
    if a != [] && b != [] {
      if a[|a| - 1].key <= b[|b| - 1].key {
        BackwardIsForward(a, b[..|b| - 1]);
        LastFromRight(a, b);
      } else {
        BackwardIsForward(a[..|a| - 1], b);
        LastFromLeft(a, b);
      }
    }
  }

  /** On one diagonal, a cut further along a than a splitting one does not split. */
  lemma {:induction false} LaterDoesNotSplit(a: seq<Elem>, b: seq<Elem>, x: int, y: int, x': int, y': int)
    requires Sorted(a) && Sorted(b) && Splits(a, b, x, y) && x + y == x' + y'
    requires x < x' <= |a| && 0 <= y'
    ensures !Splits(a, b, x', y')
  {
    assert b[y'].key <= b[y - 1].key < a[x].key <= a[x' - 1].key;
  }

  lemma {:induction false} SplitIsUnique(a: seq<Elem>, b: seq<Elem>, x: int, y: int, x': int, y': int)
    requires Sorted(a) && Sorted(b) && Splits(a, b, x, y) && Splits(a, b, x', y') && x + y == x' + y'
    ensures x == x'
  {
    if x < x' {
      LaterDoesNotSplit(a, b, x, y, x', y');
    } else if x' < x {
      LaterDoesNotSplit(a, b, x', y', x, y);
    }
  }

  /** If the entry at the pivot goes first, so does every entry before it. */
  lemma {:induction false} PivotGoesFirst(a: seq<Elem>, b: seq<Elem>, diagonal: int, lo: nat, pivot: nat)
    requires Sorted(a) && Sorted(b) && lo <= pivot < |a| && lo < diagonal <= lo + |b| && pivot < diagonal
    requires a[pivot].key <= b[diagonal - pivot - 1].key
    ensures forall p :: lo <= p <= pivot ==> a[p].key <= b[diagonal - p - 1].key
  {
  }

  /** If the entry at the pivot does not go first, neither does any entry behind it. */
  lemma {:induction false} PivotGoesLater(a: seq<Elem>, b: seq<Elem>, diagonal: int, pivot: nat, hi: nat)
    requires Sorted(a) && Sorted(b) && pivot < hi <= |a| && hi <= diagonal <= pivot + |b|
    requires a[pivot].key > b[diagonal - pivot - 1].key
    ensures forall p :: pivot <= p < hi ==> a[p].key > b[diagonal - p - 1].key
  {
  }

  /** The binary search for the cut on one diagonal. */
  method MergePathSearch(a: seq<Elem>, b: seq<Elem>, diagonal: int) returns (x: int, y: int)
    requires Sorted(a) && Sorted(b)
    ensures 0 <= diagonal <= |a| + |b| ==> x + y == diagonal && Splits(a, b, x, y)
    ensures diagonal > |a| + |b| ==> x == |a| && y == |b|
    ensures diagonal < 0 ==> x == 0 && y == diagonal
  {
    var xMin := if diagonal - |b| >= 0 then diagonal - |b| else 0;
    var xMax := if diagonal <= |a| then diagonal else |a|;
    ghost var lo, hi := xMin, xMax;
    while xMin < xMax
      invariant lo <= xMin && xMax <= hi
      invariant lo <= hi ==> xMin <= xMax
      invariant lo > hi ==> xMin == lo && xMax == hi
      invariant forall p :: lo <= p < xMin && p < hi ==> a[p].key <= b[diagonal - p - 1].key
      invariant forall p :: xMax <= p < hi && lo <= p ==> a[p].key > b[diagonal - p - 1].key
    {
      var pivot := (xMax + xMin) / 2;
      if a[pivot].key <= b[diagonal - pivot - 1].key {
        PivotGoesFirst(a, b, diagonal, lo, pivot);
        xMin := pivot + 1;
      } else {
        PivotGoesLater(a, b, diagonal, pivot, hi);
        xMax := pivot;
      }
    }
    if lo <= hi {
      SearchEnds(a, b, diagonal, lo, hi, xMin);
    }
    x := if xMin <= |a| then xMin else |a|;
    y := diagonal - xMin;
  }

  /** Where everything before keeps left and everything behind does not, the cut splits. */
  lemma {:induction false} SearchEnds(a: seq<Elem>, b: seq<Elem>, diagonal: int, lo: int, hi: int, x: int)
    requires lo == if diagonal - |b| >= 0 then diagonal - |b| else 0
    requires hi == if diagonal <= |a| then diagonal else |a|
    requires lo <= x <= hi
    requires forall p :: lo <= p < x ==> a[p].key <= b[diagonal - p - 1].key
    requires forall p :: x <= p < hi ==> a[p].key > b[diagonal - p - 1].key
    ensures Splits(a, b, x, diagonal - x)
  {
  }

  // ---------------------------------------------------------------------------------------------
  // Merging piece by piece

  /** The number of elements of a among the first d of the merge. */
  function Cut(a: seq<Elem>, b: seq<Elem>, d: nat): (x: nat)
    requires d <= |a| + |b|
    ensures x <= |a| && x <= d && d - x <= |b|
    decreases d
  {
    if d == 0 then 0
    else if a == [] then 0
    else if b == [] then d
    else if a[0].key <= b[0].key then 1 + Cut(a[1..], b, d - 1)
    else Cut(a, b[1..], d - 1)
  }

  lemma {:induction false} CutSplits(a: seq<Elem>, b: seq<Elem>, d: nat)
    requires Sorted(a) && Sorted(b) && d <= |a| + |b|
    ensures Splits(a, b, Cut(a, b, d), d - Cut(a, b, d))
    decreases d
  {
    if d > 0 && a != [] && b != [] {
      if a[0].key <= b[0].key {
        CutSplits(a[1..], b, d - 1);
      } else {
        CutSplits(a, b[1..], d - 1);
      }
    }
  }

  /** The search returns the cut of the merge. */
  lemma {:induction false} SearchFindsCut(a: seq<Elem>, b: seq<Elem>, d: nat, x: int, y: int)
    requires Sorted(a) && Sorted(b) && d <= |a| + |b| && x + y == d && Splits(a, b, x, y)
    ensures x == Cut(a, b, d)
    ensures Merged(a, b)[..d] == Merged(a[..x], b[..y])
  {
    CutSplits(a, b, d);
    SplitIsUnique(a, b, x, y, Cut(a, b, d), d - Cut(a, b, d));
    SplitCutsMerge(a, b, x, y);
  }

  lemma {:induction false} CutIsMonotone(a: seq<Elem>, b: seq<Elem>, d: nat, e: nat)
    requires d <= e <= |a| + |b|
    ensures Cut(a, b, d) <= Cut(a, b, e) && d - Cut(a, b, d) <= e - Cut(a, b, e)
    decreases d
  {
    if d > 0 && a != [] && b != [] {
      if a[0].key <= b[0].key {
        CutIsMonotone(a[1..], b, d - 1, e - 1);
      } else {
        CutIsMonotone(a, b[1..], d - 1, e - 1);
      }
    }
  }

  /** Increasing diagonals from 0. */
  predicate Diagonals(ds: seq<nat>, n: nat) {
    && |ds| > 0 && ds[0] == 0
    && (forall i :: 0 <= i < |ds| ==> ds[i] <= n)
    && forall i, j :: 0 <= i <= j < |ds| ==> ds[i] <= ds[j]
  }

  /** The merge of the elements between two diagonals. */
  function Piece(a: seq<Elem>, b: seq<Elem>, d: nat, e: nat): seq<Elem>
    requires d <= e <= |a| + |b|
  {
    CutIsMonotone(a, b, d, e);
    var x, x' := Cut(a, b, d), Cut(a, b, e);
    Merged(a[x..x'], b[d - x..e - x'])
  }

  /** The pieces between consecutive diagonals, one after the other. */
  function Pieces(a: seq<Elem>, b: seq<Elem>, ds: seq<nat>): seq<Elem>
    requires Diagonals(ds, |a| + |b|)
    decreases |ds|
  {
    var n := |ds| - 1;
    if n == 0 then [] else Pieces(a, b, ds[..n]) + Piece(a, b, ds[n - 1], ds[n])
  }

  /** The merge up to one diagonal is the merge up to an earlier one and the piece between them. */
  lemma {:induction false} PrefixPiece(a: seq<Elem>, b: seq<Elem>, d: nat, e: nat)
    requires Sorted(a) && Sorted(b) && d <= e <= |a| + |b|
    ensures Merged(a, b)[..e] == Merged(a, b)[..d] + Piece(a, b, d, e)
  {
    var x, x' := CutsInOrder(a, b, d, e);
    PieceBetween(a, b, x, d, x', e);
    BetweenSplits(a, b, x, d, x', e);
  }

  lemma {:induction false} PieceBetween(a: seq<Elem>, b: seq<Elem>, x: int, d: nat, x': int, e: nat)
    requires d <= e <= |a| + |b| && x == Cut(a, b, d) && x' == Cut(a, b, e)
    ensures x <= x' && d - x <= e - x' && Piece(a, b, d, e) == Merged(a[x..x'], b[d - x..e - x'])
  {
    CutIsMonotone(a, b, d, e);
  }

  lemma {:induction false} CutsInOrder(a: seq<Elem>, b: seq<Elem>, d: nat, e: nat) returns (x: nat, x': nat)
    requires Sorted(a) && Sorted(b) && d <= e <= |a| + |b|
    ensures x == Cut(a, b, d) && x' == Cut(a, b, e) && x <= x' && d - x <= e - x'
    ensures Splits(a, b, x, d - x) && Splits(a, b, x', e - x')
  {
    CutSplits(a, b, d);
    CutSplits(a, b, e);
    CutIsMonotone(a, b, d, e);
    x, x' := Cut(a, b, d), Cut(a, b, e);
  }

  lemma {:induction false} BetweenSplits(a: seq<Elem>, b: seq<Elem>, x: int, d: int, x': int, e: int)
    requires Sorted(a) && Sorted(b) && Splits(a, b, x, d - x) && Splits(a, b, x', e - x')
    requires x <= x' && d - x <= e - x'
    ensures Merged(a, b)[..e] == Merged(a, b)[..d] + Merged(a[x..x'], b[d - x..e - x'])
  {
    var y, y' := d - x, e - x';
    SplitIsPrefix(a, b, x, y, d);
    SplitIsPrefix(a, b, x', y', e);
    SplitOfPrefix(a, b, x, y, x', y');
  }

  lemma {:induction false} SplitIsPrefix(a: seq<Elem>, b: seq<Elem>, x: int, y: int, d: int)
    requires Sorted(a) && Sorted(b) && Splits(a, b, x, y) && d == x + y
    ensures Merged(a, b)[..d] == Merged(a[..x], b[..y])
  {
    SplitCutsMerge(a, b, x, y);
  }

  lemma {:induction false} PartsOfPrefix(s: seq<Elem>, x: int, x': int)
    requires 0 <= x <= x' <= |s|
    ensures s[..x'][..x] == s[..x] && s[..x'][x..] == s[x..x']
  {
  }

  lemma {:induction false} SplitsInPrefix(a: seq<Elem>, b: seq<Elem>, x: int, y: int, x': int, y': int)
    requires Sorted(a) && Sorted(b) && Splits(a, b, x, y) && x <= x' <= |a| && y <= y' <= |b|
    ensures Sorted(a[..x']) && Sorted(b[..y']) && Splits(a[..x'], b[..y'], x, y)
  {
  }

  lemma {:induction false} SplitOfPrefix(a: seq<Elem>, b: seq<Elem>, x: int, y: int, x': int, y': int)
    requires Sorted(a) && Sorted(b) && Splits(a, b, x, y) && x <= x' <= |a| && y <= y' <= |b|
    ensures Merged(a[..x'], b[..y']) == Merged(a[..x], b[..y]) + Merged(a[x..x'], b[y..y'])
  {
    SplitsInPrefix(a, b, x, y, x', y');
    SplitCutsMerge(a[..x'], b[..y'], x, y);
    PartsOfPrefix(a, x, x');
    PartsOfPrefix(b, y, y');
  }

  /** Merging the pieces between any increasing diagonals and concatenating them gives the merge. */
  lemma {:induction false} PiecesFormMerge(a: seq<Elem>, b: seq<Elem>, ds: seq<nat>)
    requires Sorted(a) && Sorted(b) && Diagonals(ds, |a| + |b|)
    ensures Pieces(a, b, ds) == Merged(a, b)[..ds[|ds| - 1]]
    ensures ds[|ds| - 1] == |a| + |b| ==> Pieces(a, b, ds) == Merged(a, b)
    decreases |ds|
  {
    var n := |ds| - 1;
    if n > 0 {
      PiecesFormMerge(a, b, ds[..n]);
      PrefixPiece(a, b, ds[n - 1], ds[n]);
    }
  }
}
