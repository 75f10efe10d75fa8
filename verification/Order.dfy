/** The orders that several parts share. */
module Order {

  /** Strictly increasing lists: what sorted, duplicate-free adjacency lists are. */
  predicate StrictlyIncreasing(s: seq<int>) {
    forall i, j :: 0 <= i < j < |s| ==> s[i] < s[j]
  }

  /** Lower degree first, then lower id. */
  predicate Before(deg: seq<nat>, a: int, b: int)
    requires 0 <= a < |deg| && 0 <= b < |deg|
  {
    deg[a] < deg[b] || (deg[a] == deg[b] && a < b)
  }
}
