/** Walks and distances in a directed graph given by the neighbours of every vertex. */
module Distance {

  type Digraph = seq<set<int>>

  predicate ValidGraph(g: Digraph) {
    forall v :: 0 <= v < |g| ==> forall w :: w in g[v] ==> 0 <= w < |g|
  }

  /** A walk of at most k edges leads from s to v. */
  ghost predicate Within(g: Digraph, s: int, v: int, k: nat)
    decreases k
  {
    && 0 <= v < |g|
    && if k == 0 then v == s
       else Within(g, s, v, k - 1) || exists u :: 0 <= u < |g| && Within(g, s, u, k - 1) && v in g[u]
  }

  ghost predicate Reachable(g: Digraph, s: int, v: int) {
    exists k: nat :: Within(g, s, v, k)
  }

  /** The shortest walk from s to v has d edges. */
  ghost predicate IsDistance(g: Digraph, s: int, v: int, d: nat) {
    Within(g, s, v, d) && forall k: nat :: Within(g, s, v, k) ==> d <= k
  }

  lemma {:induction false} WithinStep(g: Digraph, s: int, u: int, v: int, k: nat)
    requires ValidGraph(g) && Within(g, s, u, k) && v in g[u]
    ensures Within(g, s, v, k + 1)
  {
  }

  lemma {:induction false} WithinMonotone(g: Digraph, s: int, v: int, k: nat, l: nat)
    requires Within(g, s, v, k) && k <= l
    ensures Within(g, s, v, l)
    decreases l - k
  {
    if k < l {
      WithinMonotone(g, s, v, k, l - 1);
    }
  }

  lemma {:induction false} WithinTransitive(g: Digraph, s: int, m: int, v: int, k: nat, l: nat)
    requires ValidGraph(g) && Within(g, s, m, k) && Within(g, m, v, l)
    ensures Within(g, s, v, k + l)
    decreases l
  {
    if l > 0 {
      if Within(g, m, v, l - 1) {
        WithinTransitive(g, s, m, v, k, l - 1);
        WithinMonotone(g, s, v, k + l - 1, k + l);
      } else {
        var u :| 0 <= u < |g| && Within(g, m, u, l - 1) && v in g[u];
        WithinTransitive(g, s, m, u, k, l - 1);
        WithinStep(g, s, u, v, k + l - 1);
      }
    }
  }

  predicate SymmetricGraph(g: Digraph) {
    forall v :: 0 <= v < |g| ==> forall w :: w in g[v] ==> 0 <= w < |g| && v in g[w]
  }

  lemma {:induction false} WithinSymmetric(g: Digraph, s: int, v: int, k: nat)
    requires ValidGraph(g) && SymmetricGraph(g) && 0 <= s < |g| && Within(g, s, v, k)
    ensures Within(g, v, s, k)
    decreases k
  {
    if k > 0 {
      if Within(g, s, v, k - 1) {
        WithinSymmetric(g, s, v, k - 1);
        WithinMonotone(g, v, s, k - 1, k);
      } else {
        var u :| 0 <= u < |g| && Within(g, s, u, k - 1) && v in g[u];
        WithinSymmetric(g, s, u, k - 1);
        assert Within(g, v, v, 0);
        WithinStep(g, v, v, u, 0);
        WithinTransitive(g, v, u, s, 1, k - 1);
      }
    }
  }
}
