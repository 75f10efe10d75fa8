/**
 * Conversion between 32-bit and 16-bit floating-point words (externals/cub-1.8.0/test/half.h, lines
 * 64-176; sections 3.4 and 4.3.1 of IEEE 754-2008).
 *
 * Words are integers: a shift to the right is a division by a power of two, a 32-bit shift to the left a
 * product modulo 2^32, and an OR of disjoint bit fields a sum.  Values are exact integers in units of the
 * smallest positive binary32 number, 2^-149.
 */
module HalfFloat {
  import opened Arith

  const WORD: int := 0x1_0000_0000
  const FLOAT_SIGN: int := 0x8000_0000
  const FLOAT_INF: int := 0x7f80_0000
  const HALF_SIGN: int := 0x8000
  const HALF_INF: int := 0x7c00

  // ---------------------------------------------------------------------------------------------
  // The values of the words

  function FloatExp(m: int): int {
    m / 0x80_0000
  }

  function FloatFrac(m: int): int {
    m % 0x80_0000
  }

  /** The value of a finite binary32 magnitude, in units of 2^-149. */
  function FloatValue(m: int): int
    requires 0 <= m < FLOAT_INF
  {
    if FloatExp(m) == 0 then FloatFrac(m) else (0x80_0000 + FloatFrac(m)) * Pow2(FloatExp(m) - 1)
  }

  /** The exponent; subnormal numbers share that of the smallest normal ones. */
  function HalfExp(h: int): nat
    requires 0 <= h
  {
    if h / 1024 == 0 then 1 else h / 1024
  }

  function HalfSignificand(h: int): int {
    if h / 1024 == 0 then h else 1024 + h % 1024
  }

  /** The distance to the next number. */
  function Ulp(h: int): int
    requires 0 <= h
  {
    Pow2(HalfExp(h) + 124)
  }

  /**
   * The value of a binary16 magnitude, in units of 2^-149.  Infinity stands for the first number beyond
   * the range, 2^16, as the rounding rule wants it.
   */
  function HalfValue(h: int): int
    requires 0 <= h <= HALF_INF
  {
    HalfSignificand(h) * Ulp(h)
  }

  function Abs(x: int): int {
    if x >= 0 then x else -x
  }

  /** h is the magnitude nearest to the value v; of two equally near ones it is the even one. */
  ghost predicate Nearest(v: int, h: int) {
    0 <= h <= HALF_INF && forall w :: 0 <= w <= HALF_INF && w != h ==> Beats(v, h, w)
  }

  /** h is nearer to v than w, or as near and even. */
  predicate Beats(v: int, h: int, w: int)
    requires 0 <= h <= HALF_INF && 0 <= w <= HALF_INF
  {
    var dh, dw := Abs(HalfValue(h) - v), Abs(HalfValue(w) - v);
    dh < dw || (dh == dw && h % 2 == 0)
  }

  // ---------------------------------------------------------------------------------------------
  // The binary16 numbers in order

  lemma {:induction false} NextSignificand(h: int)
    requires 0 <= h
    ensures h % 1024 == 1023 && h / 1024 > 0 ==>
      HalfExp(h + 1) == HalfExp(h) + 1 && HalfSignificand(h) == 2047 && HalfSignificand(h + 1) == 1024
    ensures h % 1024 != 1023 || h / 1024 == 0 ==>
      HalfExp(h + 1) == HalfExp(h) && HalfSignificand(h + 1) == HalfSignificand(h) + 1
  {
  }

  lemma {:induction false} NextHalf(h: int)
    requires 0 <= h < HALF_INF
    ensures HalfValue(h + 1) == HalfValue(h) + Ulp(h)
  {
    NextSignificand(h);
    NextProduct(HalfSignificand(h), HalfExp(h) + 124);
  }

  lemma {:induction false} NextProduct(f: int, e: nat)
    ensures (f + 1) * Pow2(e) == f * Pow2(e) + Pow2(e)
    ensures f == 2047 ==> 1024 * Pow2(e + 1) == f * Pow2(e) + Pow2(e)
  {
  }

  lemma {:induction false} HalvesIncrease(h: int, w: int)
    requires 0 <= h < w <= HALF_INF
    ensures HalfValue(h) + Ulp(h) <= HalfValue(w) && HalfValue(h) < HalfValue(w)
    decreases w - h
  {
    if w == h + 1 {
      NextHalf(h);
    } else {
      HalvesIncrease(h, w - 1);
      NextHalf(w - 1);
    }
  }

  /** Nothing outside two neighbours is nearer to a value between them. */
  lemma {:induction false} NeighboursAreNearest(v: int, h: int, w: int)
    requires 0 <= h < HALF_INF && 0 <= w <= HALF_INF && w != h && w != h + 1
    requires HalfValue(h) <= v < HalfValue(h + 1)
    ensures Abs(HalfValue(h) - v) < Abs(HalfValue(w) - v) || w > h + 1
    ensures Abs(HalfValue(h + 1) - v) < Abs(HalfValue(w) - v) || w < h
  {
    if w < h {
      HalvesIncrease(w, h);
    } else {
      HalvesIncrease(h + 1, w);
    }
  }

  lemma {:induction false} OneSideIsNearest(v: int, h: int, r: int, w: int)
    requires 0 <= h < HALF_INF && 0 <= w <= HALF_INF && w != h && w != h + 1
    requires HalfValue(h) <= v < HalfValue(h + 1) && (r == h || r == h + 1)
    requires Abs(HalfValue(r) - v) <= Abs(HalfValue(h) - v) && Abs(HalfValue(r) - v) <= Abs(HalfValue(h + 1) - v)
    ensures Beats(v, r, w)
  {
    NeighboursAreNearest(v, h, w);
  }

  /** A value between two neighbours, and the rule that picks one of them. */
  lemma {:induction false} RoundBetween(v: int, h: int, up: bool)
    requires 0 <= h < HALF_INF && HalfValue(h) <= v < HalfValue(h) + Ulp(h)
    requires up <==> 2 * (v - HalfValue(h)) > Ulp(h) || (2 * (v - HalfValue(h)) == Ulp(h) && h % 2 == 1)
    ensures Nearest(v, if up then h + 1 else h)
  {
    NextHalf(h);
    var r := if up then h + 1 else h;
    forall w | 0 <= w <= HALF_INF && w != r ensures Beats(v, r, w) {
      if w == h || w == h + 1 {
        NearerOfTwo(v, HalfValue(h), HalfValue(h + 1), h, up);
      } else {
        OneSideIsNearest(v, h, r, w);
      }
    }
  }

  /** Of two neighbours x and y, at the places h and h + 1, the rule picks the one that beats the other. */
  lemma {:induction false} NearerOfTwo(v: int, x: int, y: int, h: int, up: bool)
    requires x <= v < y && (up <==> 2 * (v - x) > y - x || (2 * (v - x) == y - x && h % 2 == 1))
    ensures up ==> Abs(y - v) < Abs(x - v) || (Abs(y - v) == Abs(x - v) && (h + 1) % 2 == 0)
    ensures !up ==> Abs(x - v) < Abs(y - v) || (Abs(y - v) == Abs(x - v) && h % 2 == 0)
  {
  }

  lemma {:induction false} RoundBeyond(v: int)
    requires v >= HalfValue(HALF_INF)
    ensures Nearest(v, HALF_INF)
  {
    forall w | 0 <= w <= HALF_INF && w != HALF_INF ensures Beats(v, HALF_INF, w) {
      HalvesIncrease(w, HALF_INF);
    }
  }

  lemma {:induction false} Middle(x: int, y: int, z: int, v: int)
    requires x < y < z
    ensures Abs(x - v) == Abs(z - v) ==> Abs(y - v) < Abs(x - v)
  {
  }

  /** The rule determines the result. */
  lemma {:induction false} NearestIsUnique(v: int, h: int, w: int)
    requires Nearest(v, h) && Nearest(v, w)
    ensures h == w
  {
    if h < w {
      OddBetween(v, h, w);
    } else if w < h {
      OddBetween(v, w, h);
    }
  }

  /** Two different numbers never beat each other: they would be even, and an odd one lies between them. */
  lemma {:induction false} NotBoth(v: int, h: int, w: int)
    requires 0 <= h < w <= HALF_INF && Beats(v, h, w) && (h + 1 < w ==> Beats(v, h, h + 1))
    ensures !Beats(v, w, h)
  {
    if h + 1 < w {
      HalvesIncrease(h, h + 1);
      HalvesIncrease(h + 1, w);
      Middle(HalfValue(h), HalfValue(h + 1), HalfValue(w), v);
    }
  }

  lemma {:induction false} OddBetween(v: int, h: int, w: int)
    requires 0 <= h < w <= HALF_INF && Nearest(v, h)
    ensures !Nearest(v, w)
  {
    assert Beats(v, h, w) && (h + 1 < w ==> Beats(v, h, h + 1));
    NotBoth(v, h, w);
  }

  // ---------------------------------------------------------------------------------------------
  // Float to half

  lemma {:induction false} CancelFactor(a: int, b: int, p: int)
    requires p > 0
    ensures (a * p > b * p <==> a > b) && (a * p == b * p <==> a == b)
  {
    MulMonotone(a, b, p);
    MulMonotone(b + 1, a, p);
    MulMonotone(a + 1, b, p);
  }

  lemma {:induction false} SomePowers()
    ensures Pow2(13) == 8192 && Pow2(24) == 0x100_0000 && Pow2(31) == FLOAT_SIGN && Pow2(32) == WORD
  {
    assert Pow2(8) == 256;
    Pow2Adds(5, 8);
    assert Pow2(5) == 32;
    Pow2Adds(8, 8);
    Pow2Adds(16, 8);
    Pow2Adds(23, 8);
    Pow2Adds(10, 13);
    Pow2Adds(5, 5);
    assert Pow2(32) == 2 * Pow2(31);
  }

  lemma {:induction false} ProductMod(x: nat, m: nat, p: nat)
    requires m > 0 && p > 0
    ensures m * p > 0 && x * p % (m * p) == (x % m) * p
  {
    var q, r := x / m, x % m;
    assert x == q * m + r;
    assert x * p == q * (m * p) + r * p;
    MulMonotone(r + 1, m, p);
    assert (r + 1) * p == r * p + p;
    DivModUnique(x * p, m * p, q, r * p);
  }

  /** Shifting left by 32 - n in a 32-bit word keeps just the n lowest bits, on top. */
  lemma {:induction false} ShiftKeepsLowBits(x: nat, n: nat)
    requires 1 <= n <= 31
    ensures x * Pow2(32 - n) % WORD == (x % Pow2(n)) * Pow2(32 - n)
    ensures (x % Pow2(n)) * Pow2(32 - n) > FLOAT_SIGN <==> 2 * (x % Pow2(n)) > Pow2(n)
    ensures (x % Pow2(n)) * Pow2(32 - n) == FLOAT_SIGN <==> 2 * (x % Pow2(n)) == Pow2(n)
  {
    SomePowers();
    Pow2Adds(n, 32 - n);
    Pow2Adds(n - 1, 32 - n);
    ProductMod(x, Pow2(n), Pow2(32 - n));
    CancelFactor(x % Pow2(n), Pow2(n - 1), Pow2(32 - n));
  }

  lemma {:induction false} ProductSplit(x: nat, p: nat, s: nat)
    requires p > 0
    ensures x * s == (x / p) * (p * s) + (x % p) * s
  {
    assert x == (x / p) * p + x % p;
  }

  /** The rounding rule with a common factor taken out. */
  lemma {:induction false} RoundScaled(v: int, h: int, r: int, n: nat, p: int, up: bool)
    requires 0 <= h < HALF_INF && p > 0 && 0 <= r < Pow2(n)
    requires v == HalfValue(h) + r * p && Ulp(h) == Pow2(n) * p
    requires up <==> 2 * r > Pow2(n) || (2 * r == Pow2(n) && h % 2 == 1)
    ensures Nearest(v, if up then h + 1 else h)
  {
    ScaledRule(r, Pow2(n), p);
    RoundBetween(v, h, up);
  }

  lemma {:induction false} ScaledRule(r: nat, m: nat, p: int)
    requires r < m && p > 0
    ensures 0 <= r * p < m * p
    ensures (2 * (r * p) > m * p <==> 2 * r > m) && (2 * (r * p) == m * p <==> 2 * r == m)
  {
    CancelFactor(m, r, p);
    CancelFactor(2 * r, m, p);
    assert 2 * r * p == 2 * (r * p);
  }

  /** The truncated half of a float in the normal range. */
  lemma {:induction false} NormalTruncation(m: int) returns (h: int)
    requires 0 <= m < FLOAT_INF && 113 <= FloatExp(m) <= 142
    ensures var x, e := 0x80_0000 + FloatFrac(m), FloatExp(m);
            && h == x / 8192 + (e - 113) * 1024 && 1024 <= x / 8192 < 2048 && 0 <= h < HALF_INF
            && FloatValue(m) == HalfValue(h) + (x % 8192) * Pow2(e - 1) && Ulp(h) == 8192 * Pow2(e - 1)
  {
    var x, e := 0x80_0000 + FloatFrac(m), FloatExp(m);
    h := x / 8192 + (e - 113) * 1024;
    DivModUnique(h, 1024, e - 112, x / 8192 - 1024);
    ThirteenMore(e - 1);
    ProductSplit(x, 8192, Pow2(e - 1));
  }

  lemma {:induction false} ThirteenMore(e: nat)
    ensures Pow2(e + 13) == 8192 * Pow2(e)
  {
    SomePowers();
    Pow2Adds(e, 13);
  }

  /** The truncated half of a float below the normal range. */
  lemma {:induction false} SubnormalTruncation(m: int) returns (h: int)
    requires 0 <= m < FLOAT_INF && 102 <= FloatExp(m) <= 112
    ensures var x, e := 0x80_0000 + FloatFrac(m), FloatExp(m);
            && h == x / Pow2(126 - e) && 0 <= h < 1024
            && FloatValue(m) == HalfValue(h) + (x % Pow2(126 - e)) * Pow2(e - 1)
            && Ulp(h) == Pow2(126 - e) * Pow2(e - 1)
  {
    var x, e := 0x80_0000 + FloatFrac(m), FloatExp(m);
    var p := Pow2(126 - e);
    h := x / p;
    SubnormalBound(x, 126 - e);
    DivModUnique(h, 1024, 0, h);
    Pow2Adds(126 - e, e - 1);
    ProductSplit(x, p, Pow2(e - 1));
  }

  lemma {:induction false} BelowProduct(x: nat, p: nat)
    requires x < 0x100_0000 && p >= 16384
    ensures 0 <= x / p < 1024
  {
    DivIsNatural(x, p);
    DivIsBelow(x, p, 1024);
  }

  lemma {:induction false} SubnormalBound(x: nat, n: nat)
    requires x < 0x100_0000 && n >= 14
    ensures 0 <= x / Pow2(n) < 1024
  {
    SomePowers();
    Pow2Monotone(14, n);
    assert Pow2(14) == 2 * Pow2(13);
    BelowProduct(x, Pow2(n));
  }

  lemma {:induction false} ProductBound(x: nat, y: nat, p: nat, q: nat)
    requires x < y && 0 < p <= q
    ensures 0 <= x * p < y * q
  {
    MulMonotone(x + 1, y, p);
    MulMonotone(p, q, y);
    assert (x + 1) * p == x * p + p;
    assert p * y == y * p && q * y == y * q;
  }

  lemma {:induction false} TinyBound(m: int, n: nat)
    requires 0 <= m < FLOAT_INF && FloatExp(m) <= 101 && n >= 125
    ensures 0 <= FloatValue(m) && 2 * FloatValue(m) < Pow2(n)
  {
    SomePowers();
    var e := FloatExp(m);
    if e > 0 {
      Pow2Adds(24, e - 1);
      ProductBound(0x80_0000 + FloatFrac(m), 0x100_0000, Pow2(e - 1), Pow2(e - 1));
      assert 2 * FloatValue(m) < Pow2(24 + (e - 1) + 1);
      Pow2Monotone(24 + e, n);
    } else {
      Pow2Monotone(24, n);
    }
  }

  /** Anything below half of the smallest binary16 number is nearest to zero. */
  lemma {:induction false} TinyIsZero(m: int)
    requires 0 <= m < FLOAT_INF && FloatExp(m) <= 101
    ensures Nearest(FloatValue(m), 0)
  {
    TinyBound(m, HalfExp(0) + 124);
    RoundBetween(FloatValue(m), 0, false);
  }

  /** Anything from 2^16 on is nearest to the end of the range. */
  lemma {:induction false} HugeIsInfinite(m: int)
    requires 0 <= m < FLOAT_INF && FloatExp(m) >= 143
    ensures Nearest(FloatValue(m), HALF_INF)
  {
    SomePowers();
    Pow2Monotone(142, FloatExp(m) - 1);
    Pow2Adds(142, 13);
    assert HalfValue(HALF_INF) == 1024 * Pow2(155);
    MulMonotone(0x80_0000, 0x80_0000 + FloatFrac(m), Pow2(FloatExp(m) - 1));
    RoundBeyond(FloatValue(m));
  }

  /** What the conversion promises: the sign, infinity, the canonical NaN, and the nearest finite value. */
  ghost predicate IsHalfOf(a: int, h: int)
    requires 0 <= a < WORD
  {
    var sign, m := a / FLOAT_SIGN, a % FLOAT_SIGN;
    if m > FLOAT_INF then h == 0x7fff
    else if m == FLOAT_INF then h == sign * HALF_SIGN + HALF_INF
    else h / HALF_SIGN == sign && Nearest(FloatValue(m), h % HALF_SIGN)
  }

  /** The fields of a float as the shifts and masks extract them. */
  lemma {:induction false} FloatFields(a: int)
    requires 0 <= a < WORD
    ensures a / 0x1_0000 / HALF_SIGN % 2 == a / FLOAT_SIGN && 0 <= a / FLOAT_SIGN <= 1
    ensures a / 0x80_0000 % 256 == FloatExp(a % FLOAT_SIGN)
    ensures a % 0x80_0000 == FloatFrac(a % FLOAT_SIGN)
    ensures a % FLOAT_SIGN == FloatExp(a % FLOAT_SIGN) * 0x80_0000 + FloatFrac(a % FLOAT_SIGN)
  {
  }

  method HalfFromFloat(a: int) returns (ir: int)
    requires 0 <= a < WORD
    ensures 0 <= ir < 0x1_0000 && IsHalfOf(a, ir)
  {
    ghost var sign, m := a / FLOAT_SIGN, a % FLOAT_SIGN;
    FloatFields(a);
    ir := a / 0x1_0000 / HALF_SIGN % 2 * HALF_SIGN;
    var expBits := a / 0x80_0000 % 256 * 0x80_0000;
    if expBits == FLOAT_INF {
      if a % FLOAT_SIGN == FLOAT_INF {
        ir := ir + HALF_INF;
      } else {
        ir := 0x7fff;
      }
    } else if expBits >= 0x3300_0000 {
      var shift := a / 0x80_0000 % 256 - 127;
      if shift > 15 {
        HugeIsInfinite(m);
        ir := ir + HALF_INF;
      } else {
        ir := RoundMantissa(a, ir, shift, m, sign);
        DivModUnique(ir, HALF_SIGN, sign, ir - sign * HALF_SIGN);
      }
    } else {
      TinyIsZero(m);
    }
  }

  /** h is the float cut off after n bits below the last place of the half. */
  predicate Truncated(m: int, h: int, n: nat)
    requires 0 <= m < FLOAT_INF && FloatExp(m) >= 1
  {
    var x, p := 0x80_0000 + FloatFrac(m), Pow2(FloatExp(m) - 1);
    && 1 <= n <= 31 && 0 <= h < HALF_INF
    && FloatValue(m) == HalfValue(h) + (x % Pow2(n)) * p && Ulp(h) == Pow2(n) * p
  }

  /** The rounding step: the bits cut off decide, and the last bit kept in a tie. */
  lemma {:induction false} RoundTruncated(m: int, h: int, n: nat, up: bool)
    requires 0 <= m < FLOAT_INF && FloatExp(m) >= 1 && Truncated(m, h, n)
    requires var rest := (0x80_0000 + FloatFrac(m)) * Pow2(32 - n) % WORD;
             up <==> rest > FLOAT_SIGN || (rest == FLOAT_SIGN && h % 2 == 1)
    ensures Nearest(FloatValue(m), if up then h + 1 else h)
  {
    var x := 0x80_0000 + FloatFrac(m);
    ShiftKeepsLowBits(x, n);
    RoundScaled(FloatValue(m), h, x % Pow2(n), n, Pow2(FloatExp(m) - 1), up);
  }

  method Truncate(ir0: int, ia0: int, shift: int, ghost m: int) returns (ir: int, ia: int, ghost h: int, ghost n: nat)
    requires 0 <= m < FLOAT_INF && shift == FloatExp(m) - 127 && -25 <= shift <= 15
    requires ia0 == 0x80_0000 + FloatFrac(m)
    ensures Truncated(m, h, n) && ir == ir0 + h && ia == ia0 * Pow2(32 - n) % WORD
  {
    SomePowers();
    if shift < -14 {
      h := SubnormalTruncation(m);
      n := -1 - shift;
      ir := ir0 + ia0 / Pow2(-1 - shift);
      ia := ia0 * Pow2(32 - (-1 - shift)) % WORD;
    } else {
      h := NormalTruncation(m);
      n := 13;
      ir := ir0 + ia0 / Pow2(24 - 11);
      ia := ia0 * Pow2(32 - (24 - 11)) % WORD;
      ir := ir + (14 + shift) * 1024;
    }
  }

  lemma {:induction false} SignKeepsParity(sign: int, h: int)
    ensures (sign * HALF_SIGN + h) % 2 == h % 2
  {
    DivModUnique(sign * HALF_SIGN + h, 2, sign * 0x4000 + h / 2, h % 2);
  }

  method RoundMantissa(a: int, ir0: int, shift: int, ghost m: int, ghost sign: int) returns (ir: int)
    requires 0 <= a < WORD && m == a % FLOAT_SIGN < FLOAT_INF && sign == a / FLOAT_SIGN
    requires ir0 == sign * HALF_SIGN && shift == FloatExp(m) - 127 && -25 <= shift <= 15
    ensures ir0 <= ir <= ir0 + HALF_INF && Nearest(FloatValue(m), ir - ir0)
  {
    var ia := a % 0x80_0000 + 0x80_0000;
    assert a % 0x80_0000 == FloatFrac(m);
    ghost var h, n;
    ir, ia, h, n := Truncate(ir0, ia, shift, m);
    RoundTruncated(m, h, n, ia > FLOAT_SIGN || (ia == FLOAT_SIGN && h % 2 == 1));
    SignKeepsParity(sign, h);
    if ia > FLOAT_SIGN || (ia == FLOAT_SIGN && ir % 2 == 1) {
      ir := ir + 1;
    }
  }

  // ---------------------------------------------------------------------------------------------
  // Half to float

  /** What the conversion promises: the sign, infinity, NaN, and exactly the same finite value. */
  ghost predicate IsFloatOf(h: int, f: int)
    requires 0 <= h < 0x1_0000
  {
    var sign, m := h / HALF_SIGN, h % HALF_SIGN;
    && 0 <= f < WORD
    && if m > HALF_INF then f == 0x7fff_ffff
       else if m == HALF_INF then f == sign * FLOAT_SIGN + FLOAT_INF
       else f / FLOAT_SIGN == sign && f % FLOAT_SIGN < FLOAT_INF && FloatValue(f % FLOAT_SIGN) == HalfValue(m)
  }

  /** The float with exponent field e and fraction 8192 * k. */
  lemma {:induction false} WidenedValue(e: int, k: int)
    requires 1 <= e <= 254 && 0 <= k < 1024
    ensures 0 <= e * 0x80_0000 + k * 8192 < FLOAT_INF
    ensures FloatValue(e * 0x80_0000 + k * 8192) == (1024 + k) * Pow2(e + 12)
  {
    DivModUnique(e * 0x80_0000 + k * 8192, 0x80_0000, e, k * 8192);
    ThirteenMore(e - 1);
    assert (0x80_0000 + k * 8192) * Pow2(e - 1) == (1024 + k) * (8192 * Pow2(e - 1));
  }

  /** The three fields of a half. */
  lemma {:induction false} Fields(h: int)
    requires 0 <= h < 0x1_0000
    ensures h / 0x8000 % 2 == h / HALF_SIGN && 0 <= h / HALF_SIGN <= 1
    ensures h / 0x400 % 32 == h % HALF_SIGN / 1024 && h % 0x400 == h % HALF_SIGN % 1024
  {
  }

  /** A float assembled from three fields is the half if it has the same value. */
  lemma {:induction false} AssembledIsFloatOf(h: int, e: int, k: int)
    requires 0 <= h < 0x1_0000 && h % HALF_SIGN < HALF_INF && 1 <= e <= 254 && 0 <= k < 1024
    requires (1024 + k) * Pow2(e + 12) == HalfValue(h % HALF_SIGN)
    ensures IsFloatOf(h, h / HALF_SIGN * FLOAT_SIGN + e * 0x80_0000 + k * 8192)
  {
    Fields(h);
    WidenedValue(e, k);
    DivModUnique(h / HALF_SIGN * FLOAT_SIGN + e * 0x80_0000 + k * 8192, FLOAT_SIGN, h / HALF_SIGN,
                 e * 0x80_0000 + k * 8192);
  }

  lemma {:induction false} ZeroIsFloatOf(h: int)
    requires 0 <= h < 0x1_0000 && h % HALF_SIGN == 0
    ensures IsFloatOf(h, h / HALF_SIGN * FLOAT_SIGN)
  {
  }

  lemma {:induction false} SpecialIsFloatOf(h: int)
    requires 0 <= h < 0x1_0000 && h % HALF_SIGN / 1024 == 31
    ensures h % HALF_SIGN % 1024 == 0 ==> IsFloatOf(h, FLOAT_INF + h / HALF_SIGN * FLOAT_SIGN)
    ensures h % HALF_SIGN % 1024 != 0 ==> IsFloatOf(h, 0x7fff_ffff)
  {
  }

  method FloatFromHalf(h: int) returns (f: int)
    requires 0 <= h < 0x1_0000
    ensures IsFloatOf(h, f)
  {
    var sign := h / 0x8000 % 2;
    var exp := h / 0x400 % 32;
    var mantissa := h % 0x400;
    Fields(h);
    f := 0;
    if exp > 0 && exp < 31 {
      exp := exp + 112;
      AssembledIsFloatOf(h, exp, mantissa);
      f := sign * FLOAT_SIGN + exp * 0x80_0000 + mantissa * 8192;
    } else if exp == 0 {
      if mantissa != 0 {
        exp := exp + 113;
        exp, mantissa := Normalize(exp, mantissa);
        AssembledIsFloatOf(h, exp, mantissa);
        f := sign * FLOAT_SIGN + exp * 0x80_0000 + mantissa * 8192;
      } else {
        ZeroIsFloatOf(h);
        if sign != 0 {
          f := FLOAT_SIGN;
        } else {
          f := 0;
        }
      }
    } else if exp == 31 {
      SpecialIsFloatOf(h);
      if mantissa != 0 {
        f := 0x7fff_ffff;
      } else {
        f := FLOAT_INF + sign * FLOAT_SIGN;
      }
    }
  }

  /** A subnormal mantissa is shifted until its leading bit is in place; the exponent makes up for it. */
  method Normalize(exp0: int, mantissa0: int) returns (exp: int, mantissa: int)
    requires exp0 == 113 && 0 < mantissa0 < 1024
    ensures 103 <= exp <= 113 && 0 <= mantissa < 1024
    ensures (1024 + mantissa) * Pow2(exp + 12) == mantissa0 * Pow2(exp0 + 12)
  {
    exp, mantissa := exp0, mantissa0;
    ghost var s := 0;
    while mantissa / 1024 % 2 == 0
      invariant 0 <= s <= 10 && exp == 113 - s && mantissa == mantissa0 * Pow2(s) && mantissa < 2048
      invariant mantissa >= Pow2(s)
      decreases 2048 - mantissa
    {
      DoublePower(mantissa0, s);
      TenIsEnough(s, mantissa);
      mantissa := mantissa * 2;
      exp := exp - 1;
      s := s + 1;
    }
    Regroup(mantissa0, s, exp0 + 12);
    assert mantissa == 1024 + mantissa % 1024;
    mantissa := mantissa % 1024;
  }

  lemma {:induction false} DoublePower(m: int, s: nat)
    ensures m * Pow2(s + 1) == m * Pow2(s) * 2
  {
    assert Pow2(s + 1) == 2 * Pow2(s);
  }

  lemma {:induction false} Regroup(m: int, s: nat, n: nat)
    requires s <= n
    ensures m * Pow2(s) * Pow2(n - s) == m * Pow2(n)
  {
    Pow2Adds(s, n - s);
  }

  lemma {:induction false} TenIsEnough(s: nat, mantissa: int)
    requires s <= 10 && Pow2(s) <= mantissa < 1024
    ensures s < 10
  {
    Pow2Adds(5, 5);
    assert Pow2(5) == 32;
  }

  /** Converting a half to a float and back gives the same half, unless it is a NaN. */
  lemma {:induction false} RoundTrip(h: int, f: int, h': int)
    requires 0 <= h < 0x1_0000 && h % HALF_SIGN <= HALF_INF && 0 <= h' < 0x1_0000
    requires IsFloatOf(h, f) && IsHalfOf(f, h')
    ensures h' == h
  {
    var sign, m := h / HALF_SIGN, h % HALF_SIGN;
    if m == HALF_INF {
      DivModUnique(f, FLOAT_SIGN, sign, FLOAT_INF);
    } else {
      NearestToItself(m);
      NearestIsUnique(HalfValue(m), m, h' % HALF_SIGN);
    }
  }

  lemma {:induction false} NearestToItself(m: int)
    requires 0 <= m <= HALF_INF
    ensures Nearest(HalfValue(m), m)
  {
    forall w | 0 <= w <= HALF_INF && w != m ensures Beats(HalfValue(m), m, w) {
      if w < m {
        HalvesIncrease(w, m);
      } else {
        HalvesIncrease(m, w);
      }
    }
  }

  /** All NaNs become the canonical one. */
  lemma {:induction false} NaNsAreCanonical(h: int, f: int, h': int)
    requires 0 <= h < 0x1_0000 && h % HALF_SIGN > HALF_INF
    requires IsFloatOf(h, f) && IsHalfOf(f, h')
    ensures f == 0x7fff_ffff && h' == 0x7fff
  {
  }

  lemma {:induction false} HalfOfFields(h: int, e: int, k: int)
    requires 1 <= e <= 31 && 0 <= k < 1024 && h == e * 1024 + k <= HALF_INF
    ensures 0 <= h <= HALF_INF && HalfValue(h) == (1024 + k) * Pow2(e + 124)
  {
    DivModUnique(h, 1024, e, k);
  }

  /**
   * The two scales agree: every normal half is a float with the same fraction and an exponent 112 larger, and so is the
   * first number beyond the halves.
   */
  lemma {:induction false} ScalesAgree(e: int, k: int)
    requires 1 <= e <= 31 && 0 <= k < 1024 && (e == 31 ==> k == 0)
    ensures 0 <= e * 1024 + k <= HALF_INF && 0 <= (e + 112) * 0x80_0000 + k * 8192 < FLOAT_INF
    ensures HalfValue(e * 1024 + k) == FloatValue((e + 112) * 0x80_0000 + k * 8192)
  {
    HalfOfFields(e * 1024 + k, e, k);
    WidenedValue(e + 112, k);
  }

  /** Below the normal halves they are evenly spaced from zero. */
  lemma {:induction false} SubnormalsAreEven(h: int)
    requires 0 <= h <= 1024
    ensures HalfValue(h) == h * HalfValue(1)
  {
  }

  // ---------------------------------------------------------------------------------------------
  // Where rounding changes sides

  /** Overflow begins half-way between the largest half and the first number beyond, which includes that point. */
  lemma {:induction false} Overflow(v: int, h: int, max: int)
    requires v >= 0 && Nearest(v, h) && max == 0x7bff
    ensures h == 0x7c00 <==> 2 * v >= HalfValue(max) + HalfValue(max + 1)
  {
    HalvesIncrease(max, max + 1);
    if h == max + 1 {
      assert Beats(v, h, max);
    } else {
      assert Beats(v, h, max + 1);
      if h < max {
        HalvesIncrease(h, max);
      }
    }
  }

  /** Underflow ends half-way between zero and the smallest half; that point still becomes zero. */
  lemma {:induction false} Underflow(v: int, h: int, min: int)
    requires v >= 0 && Nearest(v, h) && min == 1
    ensures h == 0 <==> 2 * v <= HalfValue(min)
  {
    HalvesIncrease(min - 1, min);
    if h == 0 {
      assert Beats(v, h, min);
    } else {
      assert Beats(v, h, min - 1);
      if h > min {
        HalvesIncrease(min, h);
      }
    }
  }

  /** Half-way between two neighbours the even one is taken, elsewhere between them the nearer one. */
  lemma {:induction false} BetweenNeighbours(v: int, h: int, r: int)
    requires 0 <= h < 0x7c00 && HalfValue(h) <= v <= HalfValue(h + 1) && Nearest(v, r)
    ensures r == h || r == h + 1
    ensures 2 * v < HalfValue(h) + HalfValue(h + 1) ==> r == h
    ensures 2 * v > HalfValue(h) + HalfValue(h + 1) ==> r == h + 1
    ensures 2 * v == HalfValue(h) + HalfValue(h + 1) ==> r % 2 == 0
  {
    HalvesIncrease(h, h + 1);
    if r != h {
      assert Beats(v, r, h);
    }
    if r != h + 1 {
      assert Beats(v, r, h + 1);
    }
    if r < h {
      HalvesIncrease(r, h);
    } else if r > h + 1 {
      HalvesIncrease(h + 1, r);
    }
  }

  /** What is no finite number: infinities keep their sign, and every NaN, of either sign, becomes the same word. */
  lemma {:induction false} SpecialFloats(a: int, h: int)
    requires 0 <= a < 0x1_0000_0000 && IsHalfOf(a, h)
    ensures a == 0x7f80_0000 ==> h == 0x7c00
    ensures a == 0xff80_0000 ==> h == 0xfc00
    ensures 0x7f80_0000 < a < 0x8000_0000 || 0xff80_0000 < a ==> h == 0x7fff
  {
  }

  lemma {:induction false} SpecialHalves(h: int, f: int)
    requires 0 <= h < 0x1_0000 && IsFloatOf(h, f)
    ensures h == 0x7c00 ==> f == 0x7f80_0000
    ensures h == 0xfc00 ==> f == 0xff80_0000
    ensures 0x7c00 < h < 0x8000 || 0xfc00 < h ==> f == 0x7fff_ffff
  {
  }
}
