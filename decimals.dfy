/**
 * The arithmetic the loan calculator performs on Python `Decimal` values,
 * idealised as exact rational (`real`) arithmetic: integer powers and
 * quantisation to whole cents.
 */
module Decimals {

  /** `x ** n` for a natural exponent, by repeated multiplication. */
  function Pow(x: real, n: nat): real {
    if n == 0 then 1.0 else x * Pow(x, n - 1)
  }

  /** Powers of a positive base are positive. */
  lemma {:induction false} PowPositive(x: real, n: nat)
    requires x > 0.0
    ensures Pow(x, n) > 0.0
  {
    if n > 0 {
      PowPositive(x, n - 1);
      assert Pow(x, n) == x * Pow(x, n - 1);
    }
  }

  /** Positive powers of a base above one exceed one. */
  lemma {:induction false} PowAboveOne(x: real, n: nat)
    requires x > 1.0 && n > 0
    ensures Pow(x, n) > 1.0
  {
    if n > 1 {
      PowAboveOne(x, n - 1);
      assert Pow(x, n) == x * Pow(x, n - 1);
      assert (x - 1.0) * Pow(x, n - 1) > 0.0;
    }
  }

  /** `x ** k` for any integer exponent: a negative exponent is the reciprocal of the positive power. */
  function IntPow(x: real, k: int): (r: real)
    requires x > 0.0
  {
    if k >= 0 then Pow(x, k) else PowPositive(x, -k); 1.0 / Pow(x, -k)
  }

  /** A negative power of a base above one is a number strictly between zero and one whose product with the positive power is one. */
  lemma NegativePower(x: real, m: nat)
    requires x > 1.0 && m > 0
    ensures IntPow(x, -(m as int)) * Pow(x, m) == 1.0
    ensures 0.0 < IntPow(x, -(m as int)) < 1.0
  {
    PowAboveOne(x, m);
    var p := Pow(x, m);
    assert IntPow(x, -(m as int)) == 1.0 / p;
  }

  /** Powers of a base above one grow strictly with the exponent. */
  lemma {:induction false} PowStrictlyIncreasing(x: real, m: nat, n: nat)
    requires x > 1.0 && m < n
    ensures Pow(x, m) < Pow(x, n)
  {
    PowPositive(x, n - 1);
    assert Pow(x, n) == x * Pow(x, n - 1);
    assert (x - 1.0) * Pow(x, n - 1) > 0.0;
    if m < n - 1 {
      PowStrictlyIncreasing(x, m, n - 1);
    }
  }

  /** Bernoulli's inequality, (1 + y)^n >= 1 + n*y for y >= 0. */
  lemma {:induction false} Bernoulli(y: real, n: nat)
    requires y >= 0.0
    ensures Pow(1.0 + y, n) >= 1.0 + n as real * y
  {
    if n > 0 {
      Bernoulli(y, n - 1);
      var p := Pow(1.0 + y, n - 1);
      var k := (n - 1) as real;
      assert p >= 1.0 + k * y;
      assert y * p >= y;
      calc {
        Pow(1.0 + y, n);
        (1.0 + y) * p;
        p + y * p;
      >= 1.0 + k * y + y;
        { assert n as real == k + 1.0; }
        1.0 + n as real * y;
      }
    }
  }

  /** A whole number of cents. */
  predicate IsCents(x: real) {
    (x * 100.0).Floor as real == x * 100.0
  }

  /**
   * The integer nearest to `x`, ties going to the even neighbour
   * (the ROUND_HALF_EVEN rounding of Python's default decimal context).
   */
  function RoundHalfEven(x: real): (n: int)
    ensures -0.5 <= n as real - x <= 0.5
    ensures (n as real - x == 0.5 || x - n as real == 0.5) ==> n % 2 == 0
  {
    var f := x.Floor;
    var frac := x - f as real;
    if frac < 0.5 then f
    else if frac > 0.5 then f + 1
    else if f % 2 == 0 then f
    else f + 1
  }

  /** The two properties of RoundHalfEven determine it: no other integer has both. */
  lemma RoundHalfEvenUnique(x: real, m: int)
    requires -0.5 <= m as real - x <= 0.5
    requires (m as real - x == 0.5 || x - m as real == 0.5) ==> m % 2 == 0
    ensures m == RoundHalfEven(x)
  {
  }

  /** Rounding to the nearest integer never reverses the order of its inputs. */
  lemma RoundHalfEvenMonotone(x: real, y: real)
    requires x <= y
    ensures RoundHalfEven(x) <= RoundHalfEven(y)
  {
  }

  /** `Decimal(v).quantize(Decimal('0.01'))`: `v` rounded to whole cents, ties to an even cent. */
  function Quantize(v: real): (r: real)
    ensures IsCents(r)
    ensures -0.005 <= r - v <= 0.005
    ensures (r - v == 0.005 || v - r == 0.005) ==> (r * 100.0).Floor % 2 == 0
  {
    var cents := RoundHalfEven(v * 100.0);
    assert cents as real / 100.0 * 100.0 == cents as real;
    assert (cents as real / 100.0 - v == 0.005 || v - cents as real / 100.0 == 0.005) ==>
      (cents as real - v * 100.0 == 0.5 || v * 100.0 - cents as real == 0.5);
    cents as real / 100.0
  }

  /** A value that already is a whole number of cents is left unchanged by quantisation. */
  lemma QuantizeFixesCents(v: real)
    requires IsCents(v)
    ensures Quantize(v) == v
  {
    var c := (v * 100.0).Floor;
    assert c as real == v * 100.0;
    RoundHalfEvenUnique(v * 100.0, c);
  }

  /** Quantising twice is quantising once. */
  lemma QuantizeIdempotent(v: real)
    ensures Quantize(Quantize(v)) == Quantize(v)
  {
    QuantizeFixesCents(Quantize(v));
  }

  /** Quantisation preserves order. */
  lemma QuantizeMonotone(v: real, w: real)
    requires v <= w
    ensures Quantize(v) <= Quantize(w)
  {
    RoundHalfEvenMonotone(v * 100.0, w * 100.0);
  }

  /** The sum of two whole-cent amounts is a whole-cent amount. */
  lemma CentsSum(a: real, b: real)
    requires IsCents(a) && IsCents(b)
    ensures IsCents(a + b)
  {
    var ca, cb := (a * 100.0).Floor, (b * 100.0).Floor;
    assert (a + b) * 100.0 == (ca + cb) as real;
  }
}
