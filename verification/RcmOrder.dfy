/**
 * What the relabelling produces (externals/cub-1.8.0/experimental/sparse_matrix.h, lines 1115-1182): the
 * Cuthill-McKee order, and from it alone a bijection, contiguous components and breadth-first levels.
 */
module RcmOrder {
  import opened Distance
  import opened Order
  import opened Rcm
  import Permutation

  /** The labels first..end-1 form one closed run in Cuthill-McKee order from its seed. */
  ghost predicate ComponentOk(g: Digraph, deg: seq<nat>, labels: seq<int>, par: seq<int>, c: Component) {
    && |labels| == |par| == |deg| == |g|
    && 0 <= c.first < c.end && 0 <= c.seed < |g| && labels[c.seed] == c.first
    && (forall p :: 0 <= p < |g| && c.first <= labels[p] < c.end ==>
          forall w :: w in g[p] ==> LabelledBefore(labels, w, c.end))
    && (forall v :: 0 <= v < |g| && c.first < labels[v] < c.end ==> ParentIn(g, labels, par, c, v))
    && (forall u, v ::
          (0 <= u < |g| && 0 <= v < |g| && c.first < labels[u] < labels[v] < c.end) ==> Precedes(deg, par, u, v))
  }

  predicate LabelledBefore(labels: seq<int>, w: int, end: int) {
    0 <= w < |labels| && 0 <= labels[w] < end
  }

  /** par[v] is the smallest label in the run of a vertex with an edge to v. */
  ghost predicate ParentIn(g: Digraph, labels: seq<int>, par: seq<int>, c: Component, v: int)
    requires |labels| == |par| == |g| && 0 <= v < |g|
  {
    && c.first <= par[v] < labels[v]
    && (exists p :: 0 <= p < |g| && labels[p] == par[v] && v in g[p])
    && forall p :: 0 <= p < |g| && c.first <= labels[p] < c.end && v in g[p] ==> par[v] <= labels[p]
  }

  /** The seed has the lowest degree (then id) of everything that is still unlabelled. */
  ghost predicate SeedIsLowest(deg: seq<nat>, labels: seq<int>, c: Component)
    requires |labels| == |deg| && 0 <= c.seed < |deg|
  {
    forall w :: 0 <= w < |deg| && (labels[w] == -1 || labels[w] >= c.first) ==> !Before(deg, w, c.seed)
  }

  /** The runs are contiguous from label 0 to `end`, and each is in order. */
  ghost predicate RunsOk(g: Digraph, deg: seq<nat>, labels: seq<int>, par: seq<int>, comps: seq<Component>, end: int)
    decreases |comps|
  {
    && |labels| == |par| == |deg| == |g|
    && if comps == [] then end == 0
       else
         var c := comps[|comps| - 1];
         && c.end == end && ComponentOk(g, deg, labels, par, c) && SeedIsLowest(deg, labels, c)
         && RunsOk(g, deg, labels, par, comps[..|comps| - 1], c.first)
  }

  /** A complete Cuthill-McKee labelling. */
  ghost predicate CuthillMcKee(g: Digraph, deg: seq<nat>, labels: seq<int>, par: seq<int>, comps: seq<Component>) {
    && ValidGraph(g) && RunsOk(g, deg, labels, par, comps, |g|)
    && (forall v :: 0 <= v < |g| ==> 0 <= labels[v] < |g|)
    && (forall v, w :: 0 <= v < w < |g| ==> labels[v] != labels[w])
  }

  // ---------------------------------------------------------------------------------------------
  // From the state of the algorithm

  /** A run that has emptied its queue is complete. */
  lemma {:induction false} FinishedRun(g: Digraph, deg: seq<nat>, s: State, c: Component)
    requires Inv(g, deg, s, c) && s.q == [] && c.end == s.next
    ensures ComponentOk(g, deg, s.labels, s.par, c)
  {
    forall v | 0 <= v < |g| && c.first < s.labels[v] < c.end ensures ParentIn(g, s.labels, s.par, c, v) {
      assert ParentOk(g, s, c, v);
    }
    forall p, w | 0 <= p < |g| && c.first <= s.labels[p] < c.end && w in g[p]
      ensures LabelledBefore(s.labels, w, c.end)
    {
      assert Settled(s, c, p, w);
    }
  }

  /** Later runs only label what was unlabelled, with larger labels. */
  ghost predicate Extends(before: seq<int>, parBefore: seq<int>, after: seq<int>, parAfter: seq<int>, next: int) {
    && |before| == |after| == |parBefore| == |parAfter|
    && (forall v :: 0 <= v < |before| && before[v] != -1 ==> after[v] == before[v] && parAfter[v] == parBefore[v])
    && (forall v :: 0 <= v < |before| && before[v] == -1 ==> after[v] == -1 || after[v] >= next)
  }

  lemma {:induction false} ExtensionKeepsParent(g: Digraph, before: seq<int>, parBefore: seq<int>, after: seq<int>,
          parAfter: seq<int>, c: Component, next: int, v: int)
    requires |before| == |g| && Extends(before, parBefore, after, parAfter, next)
    requires 0 <= c.first < c.end <= next && 0 <= v < |g| && c.first < after[v] < c.end
    requires ParentIn(g, before, parBefore, c, v)
    ensures ParentIn(g, after, parAfter, c, v)
  {
    var p :| 0 <= p < |g| && before[p] == parBefore[v] && v in g[p];
    assert after[p] == parAfter[v];
  }

  lemma {:induction false} ExtensionKeepsComponent(g: Digraph, deg: seq<nat>, before: seq<int>, parBefore: seq<int>,
          after: seq<int>, parAfter: seq<int>, c: Component, next: int)
    requires ComponentOk(g, deg, before, parBefore, c) && c.end <= next
    requires Extends(before, parBefore, after, parAfter, next)
    ensures ComponentOk(g, deg, after, parAfter, c)
  {
    forall v | 0 <= v < |g| && c.first < after[v] < c.end ensures ParentIn(g, after, parAfter, c, v) {
      ExtensionKeepsParent(g, before, parBefore, after, parAfter, c, next, v);
    }
    forall p, w | 0 <= p < |g| && c.first <= after[p] < c.end && w in g[p]
      ensures LabelledBefore(after, w, c.end)
    {
      assert LabelledBefore(before, w, c.end);
    }
    forall u, v | 0 <= u < |g| && 0 <= v < |g| && c.first < after[u] < after[v] < c.end
      ensures Precedes(deg, parAfter, u, v)
    {
      assert Precedes(deg, parBefore, u, v);
    }
  }

  lemma {:induction false} ExtensionKeepsSeed(deg: seq<nat>, before: seq<int>, parBefore: seq<int>, after: seq<int>,
          parAfter: seq<int>, c: Component, next: int)
    requires |before| == |deg| && 0 <= c.seed < |deg| && c.first <= next
    requires Extends(before, parBefore, after, parAfter, next) && SeedIsLowest(deg, before, c)
    ensures SeedIsLowest(deg, after, c)
  {
    forall w | 0 <= w < |deg| && (after[w] == -1 || after[w] >= c.first) ensures !Before(deg, w, c.seed) {
      assert before[w] == -1 || before[w] >= c.first;
    }
  }

  lemma {:induction false} RunAt(g: Digraph, deg: seq<nat>, labels: seq<int>, par: seq<int>, comps: seq<Component>,
          end: int, k: int)
    requires RunsOk(g, deg, labels, par, comps, end) && 0 <= k < |comps|
    ensures ComponentOk(g, deg, labels, par, comps[k]) && SeedIsLowest(deg, labels, comps[k])
    ensures comps[k].end <= end
    decreases |comps|
  {
    var m := |comps| - 1;
    if k < m {
      RunAt(g, deg, labels, par, comps[..m], comps[m].first, k);
    }
  }

  lemma {:induction false} RunsAreOrdered(g: Digraph, deg: seq<nat>, labels: seq<int>, par: seq<int>,
          comps: seq<Component>, end: int, k: int, l: int)
    requires RunsOk(g, deg, labels, par, comps, end) && 0 <= k < l < |comps|
    ensures comps[k].end <= comps[l].first
    decreases |comps|
  {
    var m := |comps| - 1;
    if l < m {
      RunsAreOrdered(g, deg, labels, par, comps[..m], comps[m].first, k, l);
    } else {
      RunAt(g, deg, labels, par, comps[..m], comps[m].first, k);
    }
  }

  lemma {:induction false} ExtensionKeepsRuns(g: Digraph, deg: seq<nat>, before: seq<int>, parBefore: seq<int>,
          comps: seq<Component>, end: int, after: seq<int>, parAfter: seq<int>, next: int)
    requires RunsOk(g, deg, before, parBefore, comps, end) && end <= next
    requires Extends(before, parBefore, after, parAfter, next)
    ensures RunsOk(g, deg, after, parAfter, comps, end)
    decreases |comps|
  {
    if comps != [] {
      var c := comps[|comps| - 1];
      ExtensionKeepsComponent(g, deg, before, parBefore, after, parAfter, c, next);
      ExtensionKeepsSeed(deg, before, parBefore, after, parAfter, c, next);
      ExtensionKeepsRuns(g, deg, before, parBefore, comps[..|comps| - 1], c.first, after, parAfter, next);
    }
  }

  /** One more finished run. */
  lemma {:induction false} AddRun(g: Digraph, deg: seq<nat>, before: seq<int>, parBefore: seq<int>,
          comps: seq<Component>, after: seq<int>, parAfter: seq<int>, c: Component)
    requires RunsOk(g, deg, before, parBefore, comps, c.first)
    requires Extends(before, parBefore, after, parAfter, c.first)
    requires ComponentOk(g, deg, after, parAfter, c) && SeedIsLowest(deg, after, c)
    ensures RunsOk(g, deg, after, parAfter, comps + [c], c.end)
  {
    ExtensionKeepsRuns(g, deg, before, parBefore, comps, c.first, after, parAfter, c.first);
    assert (comps + [c])[..|comps|] == comps;
  }

  // ---------------------------------------------------------------------------------------------
  // Consequences

  /** The labels are a bijection onto 0..n-1. */
  lemma {:induction false} EveryLabelIsUsed(g: Digraph, deg: seq<nat>, labels: seq<int>, par: seq<int>,
          comps: seq<Component>, l: nat)
    returns (v: nat)
    requires CuthillMcKee(g, deg, labels, par, comps) && l < |g|
    ensures v < |g| && labels[v] == l
  {
    var p: seq<nat> := seq(|g|, k requires 0 <= k < |g| => labels[k]);
    Permutation.InjectionIsOnto(p, l);
    v :| 0 <= v < |p| && p[v] == l;
  }

  /**
   * Where a run begins: no vertex that had no label then has a smaller degree, nor the same degree and a smaller id.
   */
  lemma {:induction false} SeedComesFirst(g: Digraph, deg: seq<nat>, labels: seq<int>, par: seq<int>,
          comps: seq<Component>, k: nat, w: nat)
    requires CuthillMcKee(g, deg, labels, par, comps) && k < |comps|
    requires w < |g| && labels[w] >= comps[k].first
    ensures 0 <= comps[k].seed < |deg| && labels[comps[k].seed] == comps[k].first
    ensures deg[comps[k].seed] < deg[w] || (deg[comps[k].seed] == deg[w] && comps[k].seed <= w)
  {
    RunAt(g, deg, labels, par, comps, |g|, k);
    assert !Before(deg, w, comps[k].seed);
  }

  /** The parent of a vertex: the first one labelled, in its run, of those with an edge to it. */
  lemma {:induction false} ParentIsEarliest(g: Digraph, deg: seq<nat>, labels: seq<int>, par: seq<int>,
          comps: seq<Component>, k: nat, v: nat) returns (p: nat)
    requires CuthillMcKee(g, deg, labels, par, comps) && k < |comps|
    requires v < |g| && comps[k].first < labels[v] < comps[k].end
    ensures p < |g| && labels[p] == par[v] && comps[k].first <= labels[p] < labels[v] && v in g[p]
    ensures forall u :: 0 <= u < |g| && comps[k].first <= labels[u] < comps[k].end && v in g[u] ==>
              labels[p] <= labels[u]
  {
    RunAt(g, deg, labels, par, comps, |g|, k);
    assert ParentIn(g, labels, par, comps[k], v);
    p :| 0 <= p < |g| && labels[p] == par[v] && v in g[p];
  }

  /**
   * The order of the labels of two vertices of one run, other than its seed: by the label of the parent, then by the
   * degree, then by the id.
   */
  lemma {:induction false} LabelsFollowDegrees(g: Digraph, deg: seq<nat>, labels: seq<int>, par: seq<int>,
          comps: seq<Component>, k: nat, u: nat, v: nat)
    requires CuthillMcKee(g, deg, labels, par, comps) && k < |comps| && u < |g| && v < |g|
    requires comps[k].first < labels[u] < comps[k].end && comps[k].first < labels[v] < comps[k].end
    ensures labels[u] < labels[v] <==>
      || par[u] < par[v]
      || (par[u] == par[v] && deg[u] < deg[v])
      || (par[u] == par[v] && deg[u] == deg[v] && u < v)
  {
    RunAt(g, deg, labels, par, comps, |g|, k);
    if labels[u] < labels[v] {
      assert Precedes(deg, par, u, v);
    } else if u != v {
      assert Precedes(deg, par, v, u);
    }
  }

  /** The number of steps from the seed to v along the parents. */
  ghost function Depth(g: Digraph, deg: seq<nat>, labels: seq<int>, par: seq<int>, c: Component, v: int): nat
    requires ComponentOk(g, deg, labels, par, c) && 0 <= v < |g| && c.first <= labels[v] < c.end
    decreases labels[v]
  {
    if labels[v] == c.first then 0
    else
      assert ParentIn(g, labels, par, c, v);
      var p :| 0 <= p < |g| && labels[p] == par[v] && v in g[p];
      1 + Depth(g, deg, labels, par, c, p)
  }

  /** The parent that Depth follows. */
  lemma {:induction false} DepthStep(g: Digraph, deg: seq<nat>, labels: seq<int>, par: seq<int>, c: Component, v: int)
    returns (p: int)
    requires ComponentOk(g, deg, labels, par, c) && 0 <= v < |g| && c.first < labels[v] < c.end
    ensures 0 <= p < |g| && labels[p] == par[v] && v in g[p] && c.first <= labels[p] < labels[v]
    ensures Depth(g, deg, labels, par, c, v) == 1 + Depth(g, deg, labels, par, c, p)
  {
    assert ParentIn(g, labels, par, c, v);
    p :| 0 <= p < |g| && labels[p] == par[v] && v in g[p]
         && Depth(g, deg, labels, par, c, v) == 1 + Depth(g, deg, labels, par, c, p);
  }

  ghost predicate Injective(labels: seq<int>) {
    forall v, w :: 0 <= v < w < |labels| && labels[v] != -1 ==> labels[v] != labels[w]
  }

  /** Depths follow the labels. */
  lemma {:induction false} DepthFollowsLabel(g: Digraph, deg: seq<nat>, labels: seq<int>, par: seq<int>, c: Component,
          u: int, v: int)
    requires ComponentOk(g, deg, labels, par, c) && Injective(labels)
    requires 0 <= u < |g| && 0 <= v < |g| && c.first <= labels[u] <= labels[v] < c.end
    ensures Depth(g, deg, labels, par, c, u) <= Depth(g, deg, labels, par, c, v)
    decreases labels[v]
  {
    if u != v && labels[u] != c.first {
      assert Precedes(deg, par, u, v);
      var p := DepthStep(g, deg, labels, par, c, u);
      var q := DepthStep(g, deg, labels, par, c, v);
      DepthFollowsLabel(g, deg, labels, par, c, p, q);
    }
  }

  /** An edge of the run leads at most one level down. */
  lemma {:induction false} EdgeDescendsOneLevel(g: Digraph, deg: seq<nat>, labels: seq<int>, par: seq<int>,
          c: Component, u: int, w: int)
    requires ComponentOk(g, deg, labels, par, c) && Injective(labels)
    requires 0 <= u < |g| && 0 <= w < |g| && c.first <= labels[u] < c.end && c.first <= labels[w] < c.end
    requires w in g[u]
    ensures Depth(g, deg, labels, par, c, w) <= Depth(g, deg, labels, par, c, u) + 1
  {
    if labels[w] != c.first {
      assert ParentIn(g, labels, par, c, w);
      var p := DepthStep(g, deg, labels, par, c, w);
      DepthFollowsLabel(g, deg, labels, par, c, p, u);
    }
  }

  lemma {:induction false} DepthIsReached(g: Digraph, deg: seq<nat>, labels: seq<int>, par: seq<int>, c: Component,
          v: int)
    requires ComponentOk(g, deg, labels, par, c) && ValidGraph(g) && Injective(labels)
    requires 0 <= v < |g| && c.first <= labels[v] < c.end
    ensures Within(g, c.seed, v, Depth(g, deg, labels, par, c, v))
    decreases labels[v]
  {
    if labels[v] != c.first {
      var p := DepthStep(g, deg, labels, par, c, v);
      DepthIsReached(g, deg, labels, par, c, p);
      WithinStep(g, c.seed, p, v, Depth(g, deg, labels, par, c, p));
    }
  }

  /** What was labelled before the run leads nowhere else. */
  ghost predicate ClosedBelow(g: Digraph, labels: seq<int>, first: int)
    requires |labels| == |g|
  {
    forall p, w :: 0 <= p < |g| && 0 <= w < |g| && labels[p] < first && w in g[p] ==> labels[w] < first
  }

  /** No walk from the seed leaves the run upwards, and none reaches a vertex of it before its depth. */
  lemma {:induction false} WalksStayInRun(g: Digraph, deg: seq<nat>, labels: seq<int>, par: seq<int>, c: Component,
          v: int, k: nat)
    requires ComponentOk(g, deg, labels, par, c) && ValidGraph(g) && Injective(labels)
    requires ClosedBelow(g, labels, c.first) && Within(g, c.seed, v, k)
    ensures labels[v] < c.end
    ensures c.first <= labels[v] ==> Depth(g, deg, labels, par, c, v) <= k
    decreases k
  {
    if k > 0 {
      if Within(g, c.seed, v, k - 1) {
        WalksStayInRun(g, deg, labels, par, c, v, k - 1);
      } else {
        var u :| 0 <= u < |g| && Within(g, c.seed, u, k - 1) && v in g[u];
        WalksStayInRun(g, deg, labels, par, c, u, k - 1);
        if c.first <= labels[u] && c.first <= labels[v] {
          EdgeDescendsOneLevel(g, deg, labels, par, c, u, v);
        }
      }
    }
  }

  lemma {:induction false} RunOfLabel(g: Digraph, deg: seq<nat>, labels: seq<int>, par: seq<int>,
          comps: seq<Component>, end: int, l: int) returns (k: nat)
    requires RunsOk(g, deg, labels, par, comps, end) && 0 <= l < end
    ensures k < |comps| && comps[k].first <= l < comps[k].end
    decreases |comps|
  {
    var m := |comps| - 1;
    if comps[m].first <= l {
      k := m;
    } else {
      k := RunOfLabel(g, deg, labels, par, comps[..m], comps[m].first, l);
    }
  }

  lemma {:induction false} EdgeStaysInRun(g: Digraph, deg: seq<nat>, labels: seq<int>, par: seq<int>, c: Component,
          p: int, w: int)
    requires ComponentOk(g, deg, labels, par, c) && 0 <= p < |g| && c.first <= labels[p] < c.end && w in g[p]
    ensures 0 <= w < |g| && labels[w] < c.end
  {
    assert LabelledBefore(labels, w, c.end);
  }

  lemma {:induction false} EdgeStaysBelow(g: Digraph, deg: seq<nat>, labels: seq<int>, par: seq<int>,
          comps: seq<Component>, k: nat, p: int, w: int)
    requires CuthillMcKee(g, deg, labels, par, comps) && k < |comps|
    requires 0 <= p < |g| && labels[p] < comps[k].first && w in g[p]
    ensures 0 <= w < |g| && labels[w] < comps[k].first
  {
    var j := RunOfLabel(g, deg, labels, par, comps, |g|, labels[p]);
    RunAt(g, deg, labels, par, comps, |g|, j);
    EdgeStaysInRun(g, deg, labels, par, comps[j], p, w);
    EarlierRunEndsBefore(g, deg, labels, par, comps, j, k);
  }

  /** A run that holds a label below the start of run k ends before it. */
  lemma {:induction false} EarlierRunEndsBefore(g: Digraph, deg: seq<nat>, labels: seq<int>, par: seq<int>,
          comps: seq<Component>, j: nat, k: nat)
    requires RunsOk(g, deg, labels, par, comps, |g|) && j < |comps| && k < |comps|
    requires comps[j].first < comps[k].first
    ensures comps[j].end <= comps[k].first
  {
    RunAt(g, deg, labels, par, comps, |g|, k);
    if j < k {
      RunsAreOrdered(g, deg, labels, par, comps, |g|, j, k);
    } else if k < j {
      RunsAreOrdered(g, deg, labels, par, comps, |g|, k, j);
    }
  }

  lemma {:induction false} RunsAreClosedBelow(g: Digraph, deg: seq<nat>, labels: seq<int>, par: seq<int>,
          comps: seq<Component>, k: nat)
    requires CuthillMcKee(g, deg, labels, par, comps) && k < |comps|
    ensures ClosedBelow(g, labels, comps[k].first)
  {
    forall p, w | 0 <= p < |g| && 0 <= w < |g| && labels[p] < comps[k].first && w in g[p]
      ensures labels[w] < comps[k].first
    {
      EdgeStaysBelow(g, deg, labels, par, comps, k, p, w);
    }
  }

  /** Each run labels exactly what its seed reaches among the vertices not labelled before. */
  lemma {:induction false} RunIsWhatTheSeedReaches(g: Digraph, deg: seq<nat>, labels: seq<int>, par: seq<int>,
          comps: seq<Component>, k: nat, v: int)
    requires CuthillMcKee(g, deg, labels, par, comps) && k < |comps| && 0 <= v < |g|
    ensures comps[k].first <= labels[v] < comps[k].end
       <==> comps[k].first <= labels[v] && Reachable(g, comps[k].seed, v)
  {
    var c := comps[k];
    RunAt(g, deg, labels, par, comps, |g|, k);
    RunsAreClosedBelow(g, deg, labels, par, comps, k);
    if c.first <= labels[v] < c.end {
      DepthIsReached(g, deg, labels, par, c, v);
    }
    if d: nat :| Within(g, c.seed, v, d) {
      WalksStayInRun(g, deg, labels, par, c, v, d);
    }
  }

  /** The depth of a vertex is its distance from the seed. */
  lemma {:induction false} DepthIsDistance(g: Digraph, deg: seq<nat>, labels: seq<int>, par: seq<int>,
          comps: seq<Component>, k: nat, v: int)
    requires CuthillMcKee(g, deg, labels, par, comps) && k < |comps|
    requires 0 <= v < |g| && comps[k].first <= labels[v] < comps[k].end
    ensures ComponentOk(g, deg, labels, par, comps[k])
    ensures IsDistance(g, comps[k].seed, v, Depth(g, deg, labels, par, comps[k], v))
  {
    var c := comps[k];
    RunAt(g, deg, labels, par, comps, |g|, k);
    RunsAreClosedBelow(g, deg, labels, par, comps, k);
    DepthIsReached(g, deg, labels, par, c, v);
    forall d: nat | Within(g, c.seed, v, d) ensures Depth(g, deg, labels, par, c, v) <= d {
      WalksStayInRun(g, deg, labels, par, c, v, d);
    }
  }

  /** Within a run, labels never decrease the distance from the seed. */
  lemma {:induction false} LabelsFollowDistance(g: Digraph, deg: seq<nat>, labels: seq<int>, par: seq<int>,
          comps: seq<Component>, k: nat, u: int, v: int, d: nat, e: nat)
    requires CuthillMcKee(g, deg, labels, par, comps) && k < |comps| && 0 <= u < |g| && 0 <= v < |g|
    requires comps[k].first <= labels[u] <= labels[v] < comps[k].end
    requires IsDistance(g, comps[k].seed, u, d) && IsDistance(g, comps[k].seed, v, e)
    ensures d <= e
  {
    DepthIsDistance(g, deg, labels, par, comps, k, u);
    DepthIsDistance(g, deg, labels, par, comps, k, v);
    DepthFollowsLabel(g, deg, labels, par, comps[k], u, v);
  }

  lemma {:induction false} ReachableTransitive(g: Digraph, s: int, u: int, v: int)
    requires ValidGraph(g) && Reachable(g, s, u) && Reachable(g, u, v)
    ensures Reachable(g, s, v)
  {
    var d: nat :| Within(g, s, u, d);
    var e: nat :| Within(g, u, v, e);
    WithinTransitive(g, s, u, v, d, e);
  }

  lemma {:induction false} ReachableSymmetric(g: Digraph, s: int, v: int)
    requires ValidGraph(g) && SymmetricGraph(g) && 0 <= s < |g| && Reachable(g, s, v)
    ensures Reachable(g, v, s)
  {
    var d: nat :| Within(g, s, v, d);
    WithinSymmetric(g, s, v, d);
  }

  /** For a symmetric pattern the runs are the connected components. */
  lemma {:induction false} RunsAreConnectedComponents(g: Digraph, deg: seq<nat>, labels: seq<int>, par: seq<int>,
          comps: seq<Component>, k: nat, u: int, v: int)
    requires CuthillMcKee(g, deg, labels, par, comps) && SymmetricGraph(g) && k < |comps|
    requires 0 <= u < |g| && 0 <= v < |g| && comps[k].first <= labels[u] < comps[k].end
    ensures comps[k].first <= labels[v] < comps[k].end <==> Reachable(g, u, v)
  {
    var seed := comps[k].seed;
    RunAt(g, deg, labels, par, comps, |g|, k);
    RunIsWhatTheSeedReaches(g, deg, labels, par, comps, k, u);
    RunIsWhatTheSeedReaches(g, deg, labels, par, comps, k, v);
    ReachableSymmetric(g, seed, u);
    if comps[k].first <= labels[v] < comps[k].end {
      ReachableTransitive(g, u, seed, v);
    }
    if Reachable(g, u, v) {
      ReachableTransitive(g, seed, u, v);
      SeedReachesUpwards(g, deg, labels, par, comps, k, v);
    }
  }

  /** In a symmetric pattern the seed reaches nothing that was labelled before. */
  lemma {:induction false} SeedReachesUpwards(g: Digraph, deg: seq<nat>, labels: seq<int>, par: seq<int>,
          comps: seq<Component>, k: nat, v: int)
    requires CuthillMcKee(g, deg, labels, par, comps) && SymmetricGraph(g) && k < |comps|
    requires 0 <= v < |g| && Reachable(g, comps[k].seed, v)
    ensures comps[k].first <= labels[v]
  {
    RunAt(g, deg, labels, par, comps, |g|, k);
    RunsAreClosedBelow(g, deg, labels, par, comps, k);
    ReachableSymmetric(g, comps[k].seed, v);
    var d: nat :| Within(g, v, comps[k].seed, d);
    if labels[v] < comps[k].first {
      StaysBelow(g, labels, comps[k].first, v, comps[k].seed, d);
    }
  }

  lemma {:induction false} StaysBelow(g: Digraph, labels: seq<int>, first: int, s: int, v: int, k: nat)
    requires ValidGraph(g) && |labels| == |g| && 0 <= s < |g| && labels[s] < first
    requires ClosedBelow(g, labels, first) && Within(g, s, v, k)
    ensures labels[v] < first
    decreases k
  {
    if k > 0 {
      if Within(g, s, v, k - 1) {
        StaysBelow(g, labels, first, s, v, k - 1);
      } else {
        var u :| 0 <= u < |g| && Within(g, s, u, k - 1) && v in g[u];
        StaysBelow(g, labels, first, s, u, k - 1);
      }
    }
  }
}
