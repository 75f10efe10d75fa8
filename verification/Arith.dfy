/** Facts about products, quotients and remainders. */
module Arith {

  lemma {:induction false} MulMonotone(a: int, b: int, m: int)
    requires m >= 0
    ensures a <= b ==> a * m <= b * m
  {
    if a <= b {
      assert (b - a) * m >= 0;
    }
  }

  lemma {:induction false} DivIsNatural(x: nat, m: nat)
    requires m > 0
    ensures 0 <= x / m && 0 <= x % m < m
  {
  }

  lemma {:induction false} DivIsBelow(x: nat, m: nat, q: nat)
    requires m > 0 && x < q * m
    ensures x / m < q
  {
    assert x == (x / m) * m + x % m;
    MulMonotone(q, x / m, m);
  }

  lemma {:induction false} DivMonotone(x: nat, y: nat, m: nat)
    requires m > 0 && x <= y
    ensures x / m <= y / m
  {
    assert x == (x / m) * m + x % m;
    assert y == (y / m) * m + y % m;
    MulMonotone(y / m + 1, x / m, m);
  }

  lemma {:induction false} DivModUnique(x: int, m: int, q: int, r: int)
    requires 0 <= r < m && x == q * m + r
    ensures x / m == q && x % m == r
  {
    assert x == (x / m) * m + x % m;
    MulMonotone(x / m + 1, q, m);
    MulMonotone(q + 1, x / m, m);
  }

  function Pow2(n: nat): (p: nat)
    ensures p > 0
  {
    if n == 0 then 1 else 2 * Pow2(n - 1)
  }

  lemma {:induction false} Pow2Adds(a: nat, b: nat)
    ensures Pow2(a + b) == Pow2(a) * Pow2(b)
  {
    if b > 0 {
      Pow2Adds(a, b - 1);
      assert Pow2(a) * Pow2(b) == 2 * (Pow2(a) * Pow2(b - 1));
    }
  }

  lemma {:induction false} Pow2Monotone(a: nat, b: nat)
    requires a <= b
    ensures Pow2(a) <= Pow2(b)
  {
    if a < b {
      Pow2Monotone(a, b - 1);
    }
  }
}
