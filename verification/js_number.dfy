/**
 * JavaScript numbers are IEEE 754 binary64 values. This module models the one
 * place the core depends on that: the product of two integral numbers is
 * rounded to the nearest representable binary64 value before it is converted
 * with `BigInt`. Only non-negative integers are modelled.
 */
module JsNumber {

  /** Bits in a binary64 significand, counting the implicit leading bit. */
  const SignificandBits: nat := 53

  function Pow2(e: nat): (r: nat)
    ensures r >= 1
  {
    if e == 0 then 1 else 2 * Pow2(e - 1)
  }

  lemma {:induction false} Pow2Monotone(a: nat, b: nat)
    requires a <= b
    ensures Pow2(a) <= Pow2(b)
  {
    if a < b {
      Pow2Monotone(a, b - 1);
    }
  }

  lemma {:induction false} Pow2Add(a: nat, b: nat)
    ensures Pow2(a + b) == Pow2(a) * Pow2(b)
  {
    if b > 0 {
      Pow2Add(a, b - 1);
      assert Pow2(a + b) == 2 * Pow2(a + b - 1);
    }
  }

  /** The binary exponent of x: the e with 2^e <= x < 2^(e+1). */
  function Exponent(x: nat): (e: nat)
    requires x >= 1
    ensures Pow2(e) <= x < Pow2(e + 1)
  {
    if x == 1 then 0 else 1 + Exponent(x / 2)
  }

  /** The exponent is the only e that brackets x between 2^e and 2^(e+1). */
  lemma ExponentUnique(x: nat, e: nat)
    requires Pow2(e) <= x < Pow2(e + 1)
    ensures Exponent(x) == e
  {
    var d := Exponent(x);
    if d < e {
      Pow2Monotone(d + 1, e);
    } else if e < d {
      Pow2Monotone(e + 1, d);
    }
  }

  lemma ExponentAtLeast(x: nat, k: nat)
    requires x >= Pow2(k)
    ensures Exponent(x) >= k
  {
    var e := Exponent(x);
    if e < k {
      Pow2Monotone(e + 1, k);
    }
  }

  /**
   * The distance between consecutive binary64 values around x: 1 below 2^53,
   * and 2^(Exponent(x) - 52) from there on.
   */
  function Ulp(x: nat): (u: nat)
    ensures u >= 1
    ensures x < Pow2(SignificandBits) ==> u == 1
  {
    if x < Pow2(SignificandBits) then 1
    else
      ExponentAtLeast(x, SignificandBits);
      Pow2(Exponent(x) - (SignificandBits - 1))
  }

  /** x % u, with the bounds the rounding needs. */
  function Rem(x: nat, u: nat): (r: nat)
    requires u >= 1
    ensures r < u && r <= x
    ensures u == 1 ==> r == 0
  {
    x % u
  }

  /** Whether x / u is even. */
  predicate EvenQuotient(x: nat, u: nat)
    requires u >= 1
  {
    (x / u) % 2 == 0
  }

  /** |a - b| on integers. */
  function Dist(a: int, b: int): nat {
    if a <= b then b - a else a - b
  }

  /**
   * The multiple of u nearest to x; on a tie, the one whose quotient by u is
   * even. x - rem and x - rem + u are the multiples of u on either side of x.
   */
  function RoundToMultiple(x: nat, u: nat): (r: nat)
    requires u >= 1
    ensures exists q: nat :: r == q * u
    ensures x - u / 2 <= r <= x + u / 2
    ensures u == 1 ==> r == x
    ensures 2 * Dist(x, r) == u ==> exists h: nat :: r == (2 * h) * u
  {
    var rem := Rem(x, u);
    var k := x / u;
    assert x - rem == k * u;
    assert x - rem + u == (k + 1) * u;
    if 2 * rem < u then x - rem
    else if 2 * rem == u && EvenQuotient(x, u) then
      assert k == 2 * (k / 2);
      x - rem
    else
      assert 2 * rem == u ==> k + 1 == 2 * ((k + 1) / 2);
      x - rem + u
  }

  /** RoundToMultiple picks x - rem or x - rem + u, the nearer of the two. */
  lemma RoundToMultipleCases(x: nat, u: nat)
    requires u >= 1
    ensures var rem := Rem(x, u); var r := RoundToMultiple(x, u);
      (r == x - rem && 2 * rem <= u) || (r == x - rem + u && 2 * rem >= u)
  {
  }

  /** No multiple of u is closer to x than RoundToMultiple(x, u). */
  lemma RoundToMultipleNearest(x: nat, u: nat, q: nat)
    requires u >= 1
    ensures Dist(x, RoundToMultiple(x, u)) <= Dist(x, q * u)
  {
    RoundToMultipleCases(x, u);
    MultipleOutside(x, u, q);
    NearerOfTwo(x, x - Rem(x, u), u, q * u, RoundToMultiple(x, u));
  }

  /** A multiple of u lies at or below x - Rem(x, u), or at or above the next multiple. */
  lemma MultipleOutside(x: nat, u: nat, q: nat)
    requires u >= 1
    ensures q * u <= x - Rem(x, u) || x - Rem(x, u) + u <= q * u
  {
    var k := x / u;
    assert x - Rem(x, u) == k * u;
    if q <= k {
      MulMonotone(q, k, u);
    } else {
      MulMonotone(k + 1, q, u);
    }
  }

  /**
   * With x between lo and lo + u, a point r no farther from x than either end
   * is no farther than any m outside the open interval.
   */
  lemma NearerOfTwo(x: int, lo: int, u: int, m: int, r: int)
    requires lo <= x < lo + u
    requires (r == lo && 2 * (x - lo) <= u) || (r == lo + u && 2 * (x - lo) >= u)
    requires m <= lo || lo + u <= m
    ensures Dist(x, r) <= Dist(x, m)
  {
  }

  lemma {:induction false} MulMonotone(a: nat, b: nat, u: nat)
    requires a <= b
    ensures a * u <= b * u
  {
    assert b * u == a * u + (b - a) * u;
  }

  /**
   * The integer value of the binary64 number nearest to x, ties to even.
   * Overflow to Infinity (x near 2^1024) is not modelled.
   */
  function RoundToDouble(x: nat): (r: nat)
    ensures exists q: nat :: r == q * Ulp(x)
    ensures 2 * Dist(x, r) == Ulp(x) ==> exists h: nat :: r == (2 * h) * Ulp(x)
    ensures x - Ulp(x) / 2 <= r <= x + Ulp(x) / 2
    ensures x < Pow2(SignificandBits) ==> r == x
  {
    RoundToMultiple(x, Ulp(x))
  }

  /** No binary64 value spaced Ulp(x) apart is closer to x than RoundToDouble(x). */
  lemma RoundToDoubleNearest(x: nat, q: nat)
    ensures Dist(x, RoundToDouble(x)) <= Dist(x, q * Ulp(x))
  {
    RoundToMultipleNearest(x, Ulp(x), q);
  }
}
