/**
 * Drawing an index with a probability proportional to its weight, for integral weights
 * (xlib/include/Host/impl/Numeric.i.hpp, lines 639-686).  The uniform draw is a parameter.
 */
module WeightedDraw {
  import Permutation

  /** The sum of the first n weights. */
  function Upto(weights: seq<nat>, n: nat): nat
    requires n <= |weights|
  {
    if n == 0 then 0 else Upto(weights, n - 1) + weights[n - 1]
  }

  function Total(weights: seq<nat>): nat {
    Upto(weights, |weights|)
  }

  /** The index that owns a draw. */
  ghost predicate Owns(weights: seq<nat>, i: nat, draw: nat) {
    i < |weights| && Upto(weights, i) <= draw < Upto(weights, i + 1)
  }

  lemma {:induction false} UptoIsMonotone(weights: seq<nat>, i: nat, j: nat)
    requires i <= j <= |weights|
    ensures Upto(weights, i) <= Upto(weights, j)
  {
    if i < j {
      UptoIsMonotone(weights, i, j - 1);
    }
  }

  lemma {:induction false} OwnerIsUnique(weights: seq<nat>, i: nat, j: nat, draw: nat)
    requires Owns(weights, i, draw) && Owns(weights, j, draw)
    ensures i == j
  {
    if i < j {
      UptoIsMonotone(weights, i + 1, j);
    } else if j < i {
      UptoIsMonotone(weights, j + 1, i);
    }
  }

  /** Larger draws belong to later indices. */
  lemma {:induction false} OwnersFollowDraws(weights: seq<nat>, i: nat, j: nat, draw: nat, later: nat)
    requires Owns(weights, i, draw) && Owns(weights, j, later) && draw <= later
    ensures i <= j
  {
    if j < i {
      UptoIsMonotone(weights, j + 1, i);
    }
  }

  class WeightedRandomGenerator {
    const size: nat
    const cumulative: array<nat>

    ghost predicate Valid(weights: seq<nat>)
      reads this, cumulative
    {
      && size == |weights| && cumulative.Length == size + 1
      && forall i :: 0 <= i <= size ==> cumulative[i] == Upto(weights, i)
    }

    constructor (weights: seq<nat>)
      ensures Valid(weights) && fresh(cumulative)
    {
      var table := new nat[|weights| + 1](_ => 0);
      for i := 1 to |weights| + 1
        invariant forall j {:trigger table[j]} :: 0 <= j < i ==> table[j] == Upto(weights, j)
      {
        table[i] := table[i - 1] + weights[i - 1];
      }
      size := |weights|;
      cumulative := table;
    }

    /** std::upper_bound over the table without its last entry. */
    method UpperBound(ghost weights: seq<nat>, value: nat) returns (it: nat)
      requires Valid(weights)
      ensures it <= size
      ensures forall k :: 0 <= k < it ==> cumulative[k] <= value
      ensures forall k :: it <= k < size ==> value < cumulative[k]
    {
      var count := size;
      it := 0;
      while count > 0
        invariant it + count <= size
        invariant forall k :: 0 <= k < it ==> cumulative[k] <= value
        invariant forall k :: it + count <= k < size ==> value < cumulative[k]
      {
        var step := count / 2;
        var middle := it + step;
        if value < cumulative[middle] {
          forall k | middle <= k < size ensures value < cumulative[k] {
            UptoIsMonotone(weights, middle, k);
          }
          count := step;
        } else {
          forall k | 0 <= k <= middle ensures cumulative[k] <= value {
            UptoIsMonotone(weights, k, middle);
          }
          it := middle + 1;
          count := count - (step + 1);
        }
      }
    }

    /** The index drawn by `value`, a uniform draw below the total. */
    method Get(ghost weights: seq<nat>, value: nat) returns (index: nat)
      requires Valid(weights) && value < Total(weights)
      ensures Owns(weights, index, value) && weights[index] > 0
    {
      var it := UpperBound(weights, value);
      assert cumulative[0] == 0 && size > 0;
      assert it > 0;
      index := it - 1;
      assert cumulative[index] <= value;
      assert it < size ==> value < cumulative[it];
    }
  }

  // ---------------------------------------------------------------------------------------------
  // The distribution

  /** The draws below the total that an index owns. */
  ghost function Draws(weights: seq<nat>, i: nat): set<nat> {
    set v | v in Permutation.Range(Total(weights)) && Owns(weights, i, v)
  }

  function Between(a: nat, b: nat): (r: set<nat>)
    requires a <= b
    ensures forall v: nat :: v in r <==> a <= v < b
    ensures |r| == b - a
  {
    if a == b then {} else Between(a, b - 1) + {b - 1}
  }

  /** Every draw has exactly one owner, and exactly weights[i] draws belong to i. */
  lemma {:induction false} DrawsFollowTheWeights(weights: seq<nat>, i: nat)
    requires i < |weights|
    ensures |Draws(weights, i)| == weights[i]
  {
    UptoIsMonotone(weights, i + 1, |weights|);
    assert Draws(weights, i) == Between(Upto(weights, i), Upto(weights, i + 1));
  }

  lemma {:induction false} EveryDrawHasAnOwner(weights: seq<nat>, n: nat, draw: nat) returns (i: nat)
    requires n <= |weights| && draw < Upto(weights, n)
    ensures i < n && Owns(weights, i, draw)
  {
    if Upto(weights, n - 1) <= draw {
      i := n - 1;
    } else {
      i := EveryDrawHasAnOwner(weights, n - 1, draw);
    }
  }
}
