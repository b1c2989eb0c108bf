/**
 * Properties of the two closed-form formulas of the loan calculator, the
 * annuity payment and the interest part of payment k, over exact reals.
 * Every lemma here is stated so that the schedule lemmas in
 * ScheduleProperties can use it as a linear fact about the formulas.
 */
module AnnuityProperties {
  import opened Decimals
  import opened Mortgage

  /** `(rate/12 + 1)^n`: the split formula's growth factor raised to the n-th power. */
  function Growth(rate: real, n: nat): real {
    Pow(rate / 12.0 + 1.0, n)
  }

  lemma GrowthMonotone(rate: real, m: nat, n: nat)
    requires rate > 0.0 && m < n
    ensures 1.0 <= Growth(rate, m) < Growth(rate, n)
  {
    PowStrictlyIncreasing(rate / 12.0 + 1.0, m, n);
    if m > 0 {
      PowAboveOne(rate / 12.0 + 1.0, m);
    }
  }

  /** A number whose product with `g - 1`, for some g above one, is a product of two positive numbers is positive. */
  lemma SignFromScaled(x: real, g: real, c: real, d: real)
    requires g > 1.0 && c > 0.0 && d > 0.0 && x * (g - 1.0) == c * d
    ensures x > 0.0
  {
    assert c * d > 0.0;
  }

  // ---------------------------------------------------------------------
  // The interest part of payment k
  // ---------------------------------------------------------------------

  /** The interest formula multiplied out by its denominator. */
  lemma InterestPortionCrossMultiplied(principal: real, rate: real, count: nat, k: nat)
    requires rate > 0.0 && count > 0
    ensures InterestPortion(principal, rate, count, k) * (rate / 12.0 + 1.0) * (Growth(rate, count) - 1.0)
      == principal * (rate / 12.0) * (Growth(rate, count + 1) - Growth(rate, k))
  {
    PowAboveOne(rate / 12.0 + 1.0, count);
  }

  /**
   * For payment k >= 1 the interest part, times `q^count - 1`, is
   * `P*i*(q^count - q^(k-1))` with `i = rate/12` and `q = i + 1`: the
   * formula with its common factor q cancelled, whatever the compounding.
   */
  lemma InterestPortionClosedForm(principal: real, rate: real, count: nat, k: nat)
    requires rate > 0.0 && count > 0 && k >= 1
    ensures InterestPortion(principal, rate, count, k) * (Growth(rate, count) - 1.0) ==
      principal * (rate / 12.0) * (Growth(rate, count) - Growth(rate, k - 1))
  {
    InterestPortionCrossMultiplied(principal, rate, count, k);
    assert Growth(rate, count + 1) == (rate / 12.0 + 1.0) * Growth(rate, count);
    assert Growth(rate, k) == (rate / 12.0 + 1.0) * Growth(rate, k - 1);
    assert (rate / 12.0 + 1.0) * (InterestPortion(principal, rate, count, k) * (Growth(rate, count) - 1.0)) ==
      (rate / 12.0 + 1.0) * (principal * (rate / 12.0) * (Growth(rate, count) - Growth(rate, k - 1)));
  }

  /** The first payment's interest is one month's interest on the principal, whatever the compounding. */
  lemma FirstInterest(principal: real, rate: real, count: nat)
    requires rate > 0.0 && count > 0
    ensures InterestPortion(principal, rate, count, 1) == principal * rate / 12.0
  {
    InterestPortionClosedForm(principal, rate, count, 1);
    GrowthMonotone(rate, 0, count);
    assert Growth(rate, 0) == 1.0;
    assert (InterestPortion(principal, rate, count, 1) - principal * (rate / 12.0)) * (Growth(rate, count) - 1.0) == 0.0;
  }

  /** The interest part is positive for payments 1..count, whatever the compounding. */
  lemma InterestPortionPositive(principal: real, rate: real, count: nat, k: nat)
    requires principal > 0.0 && rate > 0.0 && 1 <= k <= count
    ensures InterestPortion(principal, rate, count, k) > 0.0
  {
    InterestPortionClosedForm(principal, rate, count, k);
    GrowthMonotone(rate, k - 1, count);
    GrowthMonotone(rate, 0, count);
    var interest, total, unpaid := InterestPortion(principal, rate, count, k), Growth(rate, count),
      Growth(rate, count) - Growth(rate, k - 1);
    var monthly := principal * (rate / 12.0);
    SignFromScaled(interest, total, monthly, unpaid);
  }

  /** A later payment carries strictly less interest, whatever the compounding. */
  lemma InterestPortionDecreasing(principal: real, rate: real, count: nat, j: nat, k: nat)
    requires principal > 0.0 && rate > 0.0 && count > 0 && 1 <= j < k
    ensures InterestPortion(principal, rate, count, k) < InterestPortion(principal, rate, count, j)
  {
    InterestPortionClosedForm(principal, rate, count, j);
    InterestPortionClosedForm(principal, rate, count, k);
    GrowthMonotone(rate, j - 1, k - 1);
    GrowthMonotone(rate, 0, count);
    var earlier, later := InterestPortion(principal, rate, count, j), InterestPortion(principal, rate, count, k);
    var total, growth := Growth(rate, count), Growth(rate, k - 1) - Growth(rate, j - 1);
    var monthly := principal * (rate / 12.0);
    assert (earlier - later) * (total - 1.0) == earlier * (total - 1.0) - later * (total - 1.0);
    SignFromScaled(earlier - later, total, monthly, growth);
  }

  // ---------------------------------------------------------------------
  // The payment, and the principal part of payment k, with monthly compounding
  // ---------------------------------------------------------------------

  /** With 12 periods a year the payment, times `q^count - 1`, is `P*i*q^count`, with the split's i and q. */
  lemma PaymentClosedForm(principal: real, rate: real, count: nat)
    requires principal > 0.0 && rate > 0.0 && count > 0
    ensures AnnuityPayment(principal, rate, 12, count) * (Growth(rate, count) - 1.0) ==
      principal * (rate / 12.0) * Growth(rate, count)
  {
    NegativePower(1.0 + rate / 12.0, count);
    assert 1.0 + rate / 12.0 == rate / 12.0 + 1.0;
    assert IntPow(1.0 + rate / 12.0, -(count as int)) * Growth(rate, count) == 1.0;
    assert AnnuityPayment(principal, rate, 12, count) * (1.0 - IntPow(1.0 + rate / 12.0, -(count as int)))
      == principal * rate / 12.0;
    assert AnnuityPayment(principal, rate, 12, count) * (1.0 - IntPow(1.0 + rate / 12.0, -(count as int)))
      * Growth(rate, count) == principal * (rate / 12.0) * Growth(rate, count);
  }

  /** With 12 periods a year the principal part of payment k >= 1, times `q^count - 1`, is `P*i*q^(k-1)`. */
  lemma PrincipalPortionClosedForm(principal: real, rate: real, count: nat, k: nat)
    requires principal > 0.0 && rate > 0.0 && count > 0 && k >= 1
    ensures (AnnuityPayment(principal, rate, 12, count) - InterestPortion(principal, rate, count, k))
      * (Growth(rate, count) - 1.0) == principal * (rate / 12.0) * Growth(rate, k - 1)
  {
    PaymentClosedForm(principal, rate, count);
    InterestPortionClosedForm(principal, rate, count, k);
  }

  /** With 12 periods a year every payment reduces the balance, the ones past the last included. */
  lemma PrincipalPortionPositive(principal: real, rate: real, count: nat, k: nat)
    requires principal > 0.0 && rate > 0.0 && count > 0 && k >= 1
    ensures AnnuityPayment(principal, rate, 12, count) - InterestPortion(principal, rate, count, k) > 0.0
  {
    PrincipalPortionClosedForm(principal, rate, count, k);
    GrowthMonotone(rate, 0, count);
    PowPositive(rate / 12.0 + 1.0, k - 1);
    var part := AnnuityPayment(principal, rate, 12, count) - InterestPortion(principal, rate, count, k);
    var total, growth := Growth(rate, count), Growth(rate, k - 1);
    var monthly := principal * (rate / 12.0);
    SignFromScaled(part, total, monthly, growth);
  }

  // ---------------------------------------------------------------------
  // The balance, with monthly compounding
  // ---------------------------------------------------------------------

  /** `P*(q^count - q^k) / (q^count - 1)`: what is still owed after k of `count` monthly payments. */
  function Remaining(principal: real, rate: real, count: nat, k: nat): real
    requires rate > 0.0 && count > 0
  {
    GrowthMonotone(rate, 0, count);
    principal * (Growth(rate, count) - Growth(rate, k)) / (Growth(rate, count) - 1.0)
  }

  /** Before any payment the whole principal is owed; after the last one nothing is. */
  lemma RemainingEnds(principal: real, rate: real, count: nat)
    requires rate > 0.0 && count > 0
    ensures Remaining(principal, rate, count, 0) == principal
    ensures Remaining(principal, rate, count, count) == 0.0
  {
    GrowthMonotone(rate, 0, count);
    assert Growth(rate, 0) == 1.0;
  }

  /** Remaining times its denominator. */
  lemma RemainingCrossMultiplied(principal: real, rate: real, count: nat, k: nat)
    requires rate > 0.0 && count > 0
    ensures Remaining(principal, rate, count, k) * (Growth(rate, count) - 1.0)
      == principal * (Growth(rate, count) - Growth(rate, k))
  {
    GrowthMonotone(rate, 0, count);
  }

  /** With 12 periods a year, payment k takes the amount owed from `Remaining(k-1)` to `Remaining(k)`. */
  lemma RemainingStep(principal: real, rate: real, count: nat, k: nat)
    requires principal > 0.0 && rate > 0.0 && count > 0 && k >= 1
    ensures Remaining(principal, rate, count, k - 1)
      - (AnnuityPayment(principal, rate, 12, count) - InterestPortion(principal, rate, count, k))
      == Remaining(principal, rate, count, k)
  {
    PrincipalPortionClosedForm(principal, rate, count, k);
    RemainingCrossMultiplied(principal, rate, count, k - 1);
    RemainingCrossMultiplied(principal, rate, count, k);
    GrowthMonotone(rate, 0, count);
    assert Growth(rate, k) == (rate / 12.0 + 1.0) * Growth(rate, k - 1);
    assert (Remaining(principal, rate, count, k - 1)
      - (AnnuityPayment(principal, rate, 12, count) - InterestPortion(principal, rate, count, k))
      - Remaining(principal, rate, count, k)) * (Growth(rate, count) - 1.0) == 0.0;
  }

  // ---------------------------------------------------------------------
  // The payment repays the principal
  // ---------------------------------------------------------------------

  /** The value today of `amount` paid at the end of each of periods 1..m, discounted by factor `q`. */
  function PresentValue(amount: real, q: real, m: nat): real
    requires q > 0.0
  {
    if m == 0 then 0.0 else PowPositive(q, m); PresentValue(amount, q, m - 1) + amount / Pow(q, m)
  }

  /** One step of the discounted sum, in the closed form multiplied out: from m - 1 payments to m. */
  lemma GeometricStep(amount: real, q: real, value: real, power: real, next: real, nextPower: real)
    requires q > 1.0 && power > 0.0
    requires value * (q - 1.0) * power == amount * (power - 1.0)
    requires nextPower == q * power && next == value + amount / nextPower
    ensures next * (q - 1.0) * nextPower == amount * (nextPower - 1.0)
  {
    assert amount / nextPower * nextPower == amount;
    assert next * (q - 1.0) * nextPower == q * (value * (q - 1.0) * power) + amount * (q - 1.0);
  }

  /** The geometric sum: m payments, discounted, times `(q - 1) * q^m`, are `amount * (q^m - 1)`. */
  lemma {:induction false} PresentValueClosedForm(amount: real, q: real, m: nat)
    requires q > 1.0
    ensures PresentValue(amount, q, m) * (q - 1.0) * Pow(q, m) == amount * (Pow(q, m) - 1.0)
  {
    if m > 0 {
      PresentValueClosedForm(amount, q, m - 1);
      PowPositive(q, m - 1);
      var value, power := PresentValue(amount, q, m - 1), Pow(q, m - 1);
      var next, nextPower := PresentValue(amount, q, m), Pow(q, m);
      GeometricStep(amount, q, value, power, next, nextPower);
    }
  }

  /** Cancels a positive common factor: `x * c == y * c` with `c > 0` gives `x == y`. */
  lemma CancelPositive(x: real, y: real, c: real)
    requires c > 0.0 && x * c == y * c
    ensures x == y
  {
    assert (x - y) * c == 0.0;
  }

  /**
   * The payment repays the loan: the `count` payments, discounted at the
   * per-period rate `rate/periods`, are worth exactly the principal. This
   * holds for every number of periods a year.
   */
  lemma PaymentRepaysPrincipal(principal: real, rate: real, periods: nat, count: nat)
    requires principal > 0.0 && rate > 0.0 && periods > 0 && count > 0
    ensures PresentValue(AnnuityPayment(principal, rate, periods, count), 1.0 + rate / periods as real, count)
      == principal
  {
    var i := rate / periods as real;
    var payment := AnnuityPayment(principal, rate, periods, count);
    NegativePower(1.0 + i, count);
    PresentValueClosedForm(payment, 1.0 + i, count);
    var value, power, discount :=
      PresentValue(payment, 1.0 + i, count), Pow(1.0 + i, count), IntPow(1.0 + i, -(count as int));
    assert discount * power == 1.0;
    assert payment * (1.0 - discount) == principal * i;
    assert value * i * power == payment * (power - 1.0);
    assert payment * (power - 1.0) == payment * (1.0 - discount) * power;
    assert i * power > 0.0;
    CancelPositive(value, principal, i * power);
  }
}
