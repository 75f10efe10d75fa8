/**
 * The integer part of the statistics (xlib/include/Host/impl/Statistics.i.hpp, lines 45-86): the number under
 * the square root of the standard deviation, and the fraction behind the Gini coefficient.
 */
module Statistics {
  import opened Sums

  function Sum(x: seq<int>): int {
    if x == [] then 0 else Sum(x[..|x| - 1]) + x[|x| - 1]
  }

  function SumOfSquares(x: seq<int>): int {
    if x == [] then 0 else SumOfSquares(x[..|x| - 1]) + x[|x| - 1] * x[|x| - 1]
  }

  /** Every value times its place, counted from one. */
  function RankSum(x: seq<int>): int {
    if x == [] then 0 else RankSum(x[..|x| - 1]) + |x| * x[|x| - 1]
  }

  predicate Sorted(x: seq<int>) {
    forall i, j :: 0 <= i < j < |x| ==> x[i] <= x[j]
  }

  predicate AllEqual(x: seq<int>) {
    forall i, j :: 0 <= i < j < |x| ==> x[i] == x[j]
  }

  // ---------------------------------------------------------------------------------------------
  // Standard deviation

  method Radicand(x: seq<int>) returns (r: int)
    ensures r == |x| * SumOfSquares(x) - Sum(x) * Sum(x)
    ensures 2 * r == AllSquares(x) && r >= 0
    ensures r == 0 <==> AllEqual(x)
  {
    var sum, sum2 := 0, 0;
    for it := 0 to |x|
      invariant sum == Sum(x[..it]) && sum2 == SumOfSquares(x[..it])
    {
      assert x[..it + 1][..it] == x[..it];
      sum := sum + x[it];
      sum2 := sum2 + x[it] * x[it];
    }
    assert x[..|x|] == x;
    r := |x| * sum2 - sum * sum;
    VariationIsRadicand(x);
    VariationIsSquares(x);
    NoVariationWhenEqual(x);
  }

  function Square(x: int): (r: int)
    ensures r >= 0
    ensures r == 0 <==> x == 0
  {
    assert x < 0 ==> x * x == (-x) * (-x) && (-x) * (-x) > 0;
    x * x
  }

  /** The squared distances of all values from c. */
  function Spread(x: seq<int>, c: int): (r: int)
    ensures r >= 0
  {
    if x == [] then 0 else Spread(x[..|x| - 1], c) + Square(x[|x| - 1] - c)
  }

  lemma {:induction false} SpreadIsZero(x: seq<int>, c: int)
    ensures Spread(x, c) == 0 <==> forall k :: 0 <= k < |x| ==> x[k] == c
  {
    if x != [] {
      SpreadIsZero(x[..|x| - 1], c);
      assert forall k :: 0 <= k < |x| - 1 ==> x[..|x| - 1][k] == x[k];
    }
  }

  lemma {:induction false} SpreadExpands(x: seq<int>, c: int)
    ensures Spread(x, c) == SumOfSquares(x) - 2 * c * Sum(x) + |x| * c * c
  {
    if x != [] {
      var front, last := x[..|x| - 1], x[|x| - 1];
      SpreadExpands(front, c);
      SquareOfDifference(last, c);
      Collect(SumOfSquares(front), Sum(front), last, |front|, c);
    }
  }

  lemma {:induction false} SquareOfDifference(a: int, c: int)
    ensures Square(a - c) == a * a - 2 * c * a + c * c
  {
  }

  lemma {:induction false} Collect(q: int, s: int, a: int, n: int, c: int)
    ensures (q - 2 * c * s + n * c * c) + (a * a - 2 * c * a + c * c) == (q + a * a) - 2 * c * (s + a) + (n + 1) * c * c
  {
    assert (n + 1) * c * c == n * c * c + c * c;
    assert 2 * c * (s + a) == 2 * c * s + 2 * c * a;
  }

  lemma {:induction false} RadicandStep(n: int, q: int, s: int, a: int)
    ensures (n + 1) * (q + a * a) - (s + a) * (s + a) == (n * q - s * s) + (q - 2 * a * s + n * a * a)
  {
    assert (n + 1) * (q + a * a) == n * q + n * a * a + q + a * a;
    assert (s + a) * (s + a) == s * s + 2 * a * s + a * a;
  }

  /** The radicand, value by value: each adds its squared distances from all values before it. */
  function Variation(x: seq<int>): (r: int)
    ensures r >= 0
  {
    if x == [] then 0 else Variation(x[..|x| - 1]) + Spread(x[..|x| - 1], x[|x| - 1])
  }

  lemma {:induction false} VariationIsRadicand(x: seq<int>)
    ensures Variation(x) == |x| * SumOfSquares(x) - Sum(x) * Sum(x)
  {
    if x != [] {
      var front, last := x[..|x| - 1], x[|x| - 1];
      VariationIsRadicand(front);
      RadicandStep(|front|, SumOfSquares(front), Sum(front), last);
      SpreadExpands(front, last);
    }
  }

  lemma {:induction false} NoVariationWhenEqual(x: seq<int>)
    ensures Variation(x) == 0 <==> AllEqual(x)
  {
    if x != [] {
      var front, last := x[..|x| - 1], x[|x| - 1];
      NoVariationWhenEqual(front);
      SpreadIsZero(front, last);
      assert x == front + [last];
    }
  }

  /** The squared distances of c from all values, as a sum over the values. */
  function SquaresFrom(x: seq<int>, c: int): int {
    SumOf(x, (a: int) => (c - a) * (c - a))
  }

  /** The squared distances of all pairs of values, each pair in both directions. */
  function AllSquares(x: seq<int>): int {
    SumOf(x, (c: int) => SquaresFrom(x, c))
  }

  lemma {:induction false} SquaresAreSpread(x: seq<int>, c: int)
    ensures SquaresFrom(x, c) == Spread(x, c)
  {
    if x != [] {
      SquaresAreSpread(x[..|x| - 1], c);
      SquareIsEven(c, x[|x| - 1]);
    }
  }

  lemma {:induction false} SquareIsEven(c: int, a: int)
    ensures (c - a) * (c - a) == (a - c) * (a - c) == Square(a - c)
  {
  }

  lemma {:induction false} OneMoreSquare(x: seq<int>, a: int, y: seq<int>)
    ensures SumOf(y, (c: int) => SquaresFrom(x + [a], c))
         == SumOf(y, (c: int) => SquaresFrom(x, c)) + SquaresFrom(y, a)
  {
    if y != [] {
      var c := y[|y| - 1];
      OneMoreSquare(x, a, y[..|y| - 1]);
      SumOfExtension(x, a, (b: int) => (c - b) * (c - b));
      SquareIsEven(c, a);
    }
  }

  lemma {:induction false} SquaresOfOneMore(x: seq<int>, a: int)
    ensures AllSquares(x + [a]) == AllSquares(x) + 2 * SquaresFrom(x, a)
  {
    SumOfExtension(x, a, (c: int) => SquaresFrom(x + [a], c));
    OneMoreSquare(x, a, x);
    SumOfExtension(x, a, (b: int) => (a - b) * (a - b));
  }

  lemma {:induction false} VariationIsSquares(x: seq<int>)
    ensures 2 * Variation(x) == AllSquares(x)
  {
    if x != [] {
      var front, last := x[..|x| - 1], x[|x| - 1];
      assert x == front + [last];
      VariationIsSquares(front);
      SquaresOfOneMore(front, last);
      SquaresAreSpread(front, last);
    }
  }

  // ---------------------------------------------------------------------------------------------
  // Gini coefficient

  function Insert(x: seq<int>, a: int): (r: seq<int>)
    ensures multiset(r) == multiset(x) + multiset{a}
  {
    if x == [] || x[|x| - 1] <= a then x + [a]
    else
      assert x == x[..|x| - 1] + [x[|x| - 1]];
      Insert(x[..|x| - 1], a) + [x[|x| - 1]]
  }

  lemma {:induction false} AppendSorts(x: seq<int>, a: int)
    requires Sorted(x) && forall k :: 0 <= k < |x| ==> x[k] <= a
    ensures Sorted(x + [a])
  {
  }

  lemma {:induction false} InsertSorts(x: seq<int>, a: int)
    requires Sorted(x)
    ensures Sorted(Insert(x, a))
  {
    if x != [] && x[|x| - 1] > a {
      var front, last := x[..|x| - 1], x[|x| - 1];
      InsertSorts(front, a);
      var r := Insert(front, a);
      forall k | 0 <= k < |r| ensures r[k] <= last {
        assert r[k] in multiset(front) + multiset{a};
      }
      AppendSorts(r, last);
    } else {
      AppendSorts(x, a);
    }
  }

  /** What std::sort leaves. */
  function Sort(x: seq<int>): (r: seq<int>)
    ensures multiset(r) == multiset(x) && |r| == |x| && Sorted(r)
  {
    if x == [] then []
    else
      assert x == x[..|x| - 1] + [x[|x| - 1]];
      var s := Sort(x[..|x| - 1]);
      InsertSorts(s, x[|x| - 1]);
      var r := Insert(s, x[|x| - 1]);
      assert |r| == |multiset(r)| == |multiset(x)| == |x|;
      r
  }

  /** How far the values stay below c, together. */
  function Shortfall(x: seq<int>, c: int): int {
    if x == [] then 0 else Shortfall(x[..|x| - 1], c) + (c - x[|x| - 1])
  }

  lemma {:induction false} ShortfallExpands(x: seq<int>, c: int)
    ensures Shortfall(x, c) == |x| * c - Sum(x)
  {
    if x != [] {
      ShortfallExpands(x[..|x| - 1], c);
      OneMore(|x| - 1, c);
    }
  }

  lemma {:induction false} OneMore(n: int, c: int)
    ensures (n + 1) * c == n * c + c
  {
  }

  lemma {:induction false} ShortfallOfMaximum(x: seq<int>, c: int)
    requires forall k :: 0 <= k < |x| ==> x[k] <= c
    ensures Shortfall(x, c) >= 0
    ensures Shortfall(x, c) == 0 <==> forall k :: 0 <= k < |x| ==> x[k] == c
  {
    if x != [] {
      var front := x[..|x| - 1];
      ShortfallOfMaximum(front, c);
      assert forall k :: 0 <= k < |front| ==> front[k] == x[k];
    }
  }

  lemma {:induction false} ExcessStep(n: int, r: int, s: int, a: int)
    ensures 2 * (r + (n + 1) * a) - (n + 2) * (s + a) == (2 * r - (n + 1) * s) + (n * a - s)
  {
    assert (n + 1) * a == n * a + a;
    assert (n + 2) * (s + a) == (n + 1) * s + s + n * a + 2 * a;
  }

  /** What the ranked sum has beyond the even share: each value adds how far all before it stay below it. */
  function Excess(x: seq<int>): int {
    if x == [] then 0 else Excess(x[..|x| - 1]) + Shortfall(x[..|x| - 1], x[|x| - 1])
  }

  lemma {:induction false} ExcessExpands(x: seq<int>)
    ensures Excess(x) == 2 * RankSum(x) - (|x| + 1) * Sum(x)
  {
    if x != [] {
      var front, last := x[..|x| - 1], x[|x| - 1];
      ExcessExpands(front);
      ShortfallExpands(front, last);
      ExcessStep(|front|, RankSum(front), Sum(front), last);
    }
  }

  /** Among sorted values, those with a large rank weigh at least their share; exactly that if all are equal. */
  lemma {:induction false} RankSumIsLarge(x: seq<int>)
    requires Sorted(x)
    ensures Excess(x) >= 0
    ensures Excess(x) == 0 <==> AllEqual(x)
  {
    if x != [] {
      var front, last := x[..|x| - 1], x[|x| - 1];
      RankSumIsLarge(front);
      ShortfallOfMaximum(front, last);
      assert x == front + [last];
    }
  }

  /** Only the last value is not zero. */
  predicate OneHoldsAll(x: seq<int>) {
    forall k :: 0 <= k < |x| - 1 ==> x[k] == 0
  }

  lemma {:induction false} SumOfNonNegative(x: seq<int>)
    requires forall k :: 0 <= k < |x| ==> x[k] >= 0
    ensures Sum(x) >= 0
    ensures Sum(x) == 0 <==> forall k :: 0 <= k < |x| ==> x[k] == 0
  {
    if x != [] {
      SumOfNonNegative(x[..|x| - 1]);
      assert forall k :: 0 <= k < |x| - 1 ==> x[..|x| - 1][k] == x[k];
    }
  }

  /** What the ranked sum lacks if all values had the highest rank. */
  function Slack(x: seq<int>): int {
    if x == [] then 0 else Slack(x[..|x| - 1]) + Sum(x[..|x| - 1])
  }

  lemma {:induction false} SlackStep(n: int, s: int, a: int)
    ensures (n + 1) * (s + a) == n * s + s + (n + 1) * a
  {
  }

  lemma {:induction false} SlackExpands(x: seq<int>)
    ensures Slack(x) == |x| * Sum(x) - RankSum(x)
  {
    if x != [] {
      SlackExpands(x[..|x| - 1]);
      SlackStep(|x| - 1, Sum(x[..|x| - 1]), x[|x| - 1]);
    }
  }

  /** No rank is above the number of values; the bound is met if all but the last value are zero. */
  lemma {:induction false} RankSumIsSmall(x: seq<int>)
    requires forall k :: 0 <= k < |x| ==> x[k] >= 0
    ensures Slack(x) >= 0
    ensures Slack(x) == 0 <==> OneHoldsAll(x)
  {
    if x != [] {
      var front := x[..|x| - 1];
      RankSumIsSmall(front);
      SumOfNonNegative(front);
      assert forall k :: 0 <= k < |front| ==> front[k] == x[k];
    }
  }

  lemma {:induction false} SumAppend(x: seq<int>, a: int)
    ensures Sum(x + [a]) == Sum(x) + a
  {
    assert (x + [a])[..|x|] == x;
  }

  lemma {:induction false} SumOfInsert(x: seq<int>, a: int)
    ensures Sum(Insert(x, a)) == Sum(x) + a
  {
    if x == [] || x[|x| - 1] <= a {
      SumAppend(x, a);
    } else {
      SumOfInsert(x[..|x| - 1], a);
      SumAppend(Insert(x[..|x| - 1], a), x[|x| - 1]);
    }
  }

  lemma {:induction false} SumOfSort(x: seq<int>)
    ensures Sum(Sort(x)) == Sum(x)
  {
    if x != [] {
      SumOfSort(x[..|x| - 1]);
      SumOfInsert(Sort(x[..|x| - 1]), x[|x| - 1]);
    }
  }

  /** The difference of two fractions that the code forms, for n values. */
  function Difference(numerator: int, denom: int, n: nat): real
    requires n > 0 && denom != 0
  {
    2.0 * numerator as real / (n * denom) as real - (n as real + 1.0) / n as real
  }

  /** The two fractions over one denominator. */
  lemma {:induction false} OneFraction(numerator: real, denom: real, n: real)
    requires n > 0.0 && denom != 0.0
    ensures n * denom != 0.0
    ensures 2.0 * numerator / (n * denom) - (n + 1.0) / n == (2.0 * numerator - (n + 1.0) * denom) / (n * denom)
  {
    assert (n + 1.0) / n == (n + 1.0) * denom / (n * denom);
  }

  lemma {:induction false} ProductAsReal(a: int, b: int)
    ensures (a * b) as real == a as real * b as real
  {
  }

  lemma {:induction false} DifferenceIsFraction(numerator: int, denom: int, n: nat)
    requires n > 0 && denom != 0
    ensures Difference(numerator, denom, n) == (2 * numerator - (n + 1) * denom) as real / (n * denom) as real
  {
    OneFraction(numerator as real, denom as real, n as real);
    ProductAsReal(n + 1, denom);
    ProductAsReal(n, denom);
  }

  /** The exact coefficient, before it is cut off at zero. */
  function Gini(x: seq<int>): real
    requires x != [] && Sum(x) != 0
  {
    Difference(RankSum(Sort(x)), Sum(x), |x|)
  }

  method RankedSums(tmp: seq<int>) returns (numerator: int, denom: int)
    ensures numerator == RankSum(tmp) && denom == Sum(tmp)
  {
    numerator, denom := 0, 0;
    for i := 0 to |tmp|
      invariant numerator == RankSum(tmp[..i]) && denom == Sum(tmp[..i])
    {
      assert tmp[..i + 1][..i] == tmp[..i];
      numerator := numerator + (i + 1) * tmp[i];
      denom := denom + tmp[i];
    }
    assert tmp[..|tmp|] == tmp;
  }

  method GiniCoefficient(x: seq<int>) returns (result: real)
    requires x != [] && Sum(x) != 0
    ensures result == if Gini(x) < 0.0 then 0.0 else Gini(x)
  {
    var size := |x|;
    var tmp := Sort(x);
    var numerator, denom := RankedSums(tmp);
    SumOfSort(x);
    result := Difference(numerator, denom, size);
    if result < 0.0 {
      result := 0.0;
    }
  }

  lemma {:induction false} Quotient(p: real, q: real, n: real)
    requires q > 0.0 && n >= 1.0 && 0.0 <= p <= (n - 1.0) * q
    ensures n * q != 0.0
    ensures 0.0 <= p / (n * q) <= (n - 1.0) / n
    ensures p / (n * q) == 0.0 <==> p == 0.0
    ensures p / (n * q) == (n - 1.0) / n <==> p == (n - 1.0) * q
  {
    var g := p / (n * q);
    assert n * q > 0.0;
    assert g * (n * q) == p;
    assert (n - 1.0) / n * (n * q) == (n - 1.0) * q;
  }

  lemma {:induction false} IntegerQuotient(p: int, q: int, n: nat)
    requires q > 0 && n > 0 && 0 <= p <= (n - 1) * q
    ensures 0.0 <= p as real / (n * q) as real <= (n - 1) as real / n as real
    ensures p as real / (n * q) as real == 0.0 <==> p == 0
    ensures p as real / (n * q) as real == (n - 1) as real / n as real <==> p == (n - 1) * q
  {
    ProductAsReal(n - 1, q);
    ProductAsReal(n, q);
    Quotient(p as real, q as real, n as real);
  }

  lemma {:induction false} DifferenceIsBetween(r: int, d: int, n: nat)
    requires d > 0 && n > 0 && 0 <= 2 * r - (n + 1) * d <= (n - 1) * d
    ensures 0.0 <= Difference(r, d, n) <= (n - 1) as real / n as real
    ensures Difference(r, d, n) == 0.0 <==> 2 * r - (n + 1) * d == 0
    ensures Difference(r, d, n) == (n - 1) as real / n as real <==> 2 * r - (n + 1) * d == (n - 1) * d
  {
    DifferenceIsFraction(r, d, n);
    IntegerQuotient(2 * r - (n + 1) * d, d, n);
  }

  lemma {:induction false} SameElements(x: seq<int>, y: seq<int>)
    requires multiset(x) == multiset(y) && AllEqual(x)
    ensures AllEqual(y)
  {
    forall k | 0 <= k < |y| ensures x != [] && y[k] == x[0] {
      assert y[k] in multiset(x);
    }
  }

  lemma {:induction false} EqualWhenSorted(x: seq<int>)
    ensures AllEqual(Sort(x)) <==> AllEqual(x)
  {
    if AllEqual(x) {
      SameElements(x, Sort(x));
    } else if AllEqual(Sort(x)) {
      SameElements(Sort(x), x);
    }
  }

  lemma {:induction false} BothBounds(r: int, n: int, d: int)
    ensures (n - 1) * d - (2 * r - (n + 1) * d) == 2 * (n * d - r)
  {
    assert (n + 1) * d == n * d + d && (n - 1) * d == n * d - d;
  }

  /** The bounds for n values in ascending order with sum d. */
  lemma {:induction false} RankSumIsBetween(s: seq<int>, n: nat, d: int)
    requires Sorted(s) && n == |s| && d == Sum(s) && forall k :: 0 <= k < |s| ==> s[k] >= 0
    ensures 0 <= 2 * RankSum(s) - (n + 1) * d <= (n - 1) * d
    ensures 2 * RankSum(s) - (n + 1) * d == 0 <==> AllEqual(s)
    ensures 2 * RankSum(s) - (n + 1) * d == (n - 1) * d <==> OneHoldsAll(s)
  {
    RankSumIsLarge(s);
    RankSumIsSmall(s);
    ExcessExpands(s);
    SlackExpands(s);
    BothBounds(RankSum(s), n, d);
  }

  lemma {:induction false} SortKeepsSigns(x: seq<int>)
    requires forall k :: 0 <= k < |x| ==> x[k] >= 0
    ensures forall k :: 0 <= k < |Sort(x)| ==> Sort(x)[k] >= 0
  {
    forall k | 0 <= k < |Sort(x)| ensures Sort(x)[k] >= 0 {
      assert Sort(x)[k] in multiset(x);
    }
  }

  /** The same bounds for values in any order. */
  lemma {:induction false} RanksAreBetween(x: seq<int>)
    requires forall k :: 0 <= k < |x| ==> x[k] >= 0
    ensures 0 <= 2 * RankSum(Sort(x)) - (|x| + 1) * Sum(x) <= (|x| - 1) * Sum(x)
    ensures 2 * RankSum(Sort(x)) - (|x| + 1) * Sum(x) == 0 <==> AllEqual(x)
    ensures 2 * RankSum(Sort(x)) - (|x| + 1) * Sum(x) == (|x| - 1) * Sum(x) <==> OneHoldsAll(Sort(x))
  {
    SortKeepsSigns(x);
    SumOfSort(x);
    RankSumIsBetween(Sort(x), |x|, Sum(x));
    EqualWhenSorted(x);
  }

  /**
   * For non-negative values that are not all zero the coefficient lies between zero and (n - 1) / n, so the cut
   * at zero never changes it.
   */
  lemma {:induction false} GiniIsBetween(x: seq<int>)
    requires x != [] && Sum(x) > 0 && forall k :: 0 <= k < |x| ==> x[k] >= 0
    ensures 0.0 <= Gini(x) <= (|x| - 1) as real / |x| as real
  {
    RanksAreBetween(x);
    DifferenceIsBetween(RankSum(Sort(x)), Sum(x), |x|);
  }

  /** It is zero exactly when all values are equal, and at the upper end exactly when one holds the whole sum. */
  lemma {:induction false} GiniAtTheEnds(x: seq<int>)
    requires x != [] && Sum(x) > 0 && forall k :: 0 <= k < |x| ==> x[k] >= 0
    ensures Gini(x) == 0.0 <==> AllEqual(x)
    ensures Gini(x) == (|x| - 1) as real / |x| as real <==> OneHoldsAll(Sort(x))
  {
    RanksAreBetween(x);
    DifferenceIsBetween(RankSum(Sort(x)), Sum(x), |x|);
  }

  // ---------------------------------------------------------------------------------------------
  // The coefficient as a mean difference

  /** The distance of a from b. */
  function Gap(a: int, b: int): int {
    if a <= b then b - a else a - b
  }

  /** The distances of c from all values, together. */
  function GapsFrom(x: seq<int>, c: int): int {
    SumOf(x, (a: int) => Gap(c, a))
  }

  /** The distances of all pairs of values, each pair in both directions. */
  function AllGaps(x: seq<int>): int {
    SumOf(x, (c: int) => GapsFrom(x, c))
  }

  lemma {:induction false} GapsBelowMaximum(x: seq<int>, c: int)
    requires forall k :: 0 <= k < |x| ==> x[k] <= c
    ensures GapsFrom(x, c) == Shortfall(x, c)
  {
    if x != [] {
      GapsBelowMaximum(x[..|x| - 1], c);
    }
  }

  /** One more value adds its distances twice: from the others to it, and from it to the others. */
  lemma {:induction false} OneMoreFrom(x: seq<int>, a: int, y: seq<int>)
    ensures SumOf(y, (c: int) => GapsFrom(x + [a], c)) == SumOf(y, (c: int) => GapsFrom(x, c)) + GapsFrom(y, a)
  {
    if y != [] {
      var c := y[|y| - 1];
      OneMoreFrom(x, a, y[..|y| - 1]);
      SumOfExtension(x, a, (b: int) => Gap(c, b));
    }
  }

  lemma {:induction false} OneMoreValue(x: seq<int>, a: int)
    ensures AllGaps(x + [a]) == AllGaps(x) + 2 * GapsFrom(x, a)
  {
    var f := (c: int) => GapsFrom(x + [a], c);
    SumOfExtension(x, a, f);
    OneMoreFrom(x, a, x);
    SumOfExtension(x, a, (b: int) => Gap(a, b));
  }

  lemma {:induction false} GapsOfSorted(x: seq<int>)
    requires Sorted(x)
    ensures AllGaps(x) == 2 * Excess(x)
  {
    if x != [] {
      var front, last := x[..|x| - 1], x[|x| - 1];
      assert x == front + [last];
      GapsOfSorted(front);
      OneMoreValue(front, last);
      GapsBelowMaximum(front, last);
    }
  }

  lemma {:induction false} GapsRearranged(x: seq<int>, y: seq<int>)
    requires multiset(x) == multiset(y)
    ensures AllGaps(x) == AllGaps(y)
  {
    var f, g := (c: int) => GapsFrom(x, c), (c: int) => GapsFrom(y, c);
    forall c | c in x ensures f(c) == g(c) {
      SumOfRearranged(x, y, (a: int) => Gap(c, a));
    }
    SumEqual(x, f, g);
    SumOfRearranged(x, y, g);
  }

  lemma {:induction false} FractionDoubled(p: int, q: int)
    requires q != 0
    ensures p as real / q as real == (2 * p) as real / (2 * q) as real
  {
  }

  lemma {:induction false} CountTimesSum(n: nat, s: int)
    requires n > 0 && s != 0
    ensures n * s != 0 && 2 * n * s == 2 * (n * s) != 0
  {
  }

  lemma {:induction false} DifferenceDoubled(r: int, d: int, n: nat, e: int)
    requires n > 0 && d != 0 && e == 2 * r - (n + 1) * d
    ensures 2 * n * d != 0 && Difference(r, d, n) == (2 * e) as real / (2 * n * d) as real
  {
    DifferenceIsFraction(r, d, n);
    CountTimesSum(n, d);
    FractionDoubled(e, n * d);
  }

  lemma {:induction false} ExcessOfSort(x: seq<int>)
    ensures Excess(Sort(x)) == 2 * RankSum(Sort(x)) - (|x| + 1) * Sum(x)
  {
    SumOfSort(x);
    ExcessExpands(Sort(x));
  }

  /** For any values: the coefficient is the sum of all distances over 2 n times the sum of the values. */
  lemma {:induction false} GiniIsMeanDifference(x: seq<int>)
    requires x != [] && Sum(x) != 0
    ensures 2 * |x| * Sum(x) != 0
    ensures Gini(x) == AllGaps(x) as real / (2 * |x| * Sum(x)) as real
  {
    GapsOfSorted(Sort(x));
    GapsRearranged(x, Sort(x));
    ExcessOfSort(x);
    DifferenceDoubled(RankSum(Sort(x)), Sum(x), |x|, Excess(Sort(x)));
  }
}
