/**
 * What the loan calculator promises about its schedule and its summary
 * values: the running totals, a zero balance after the last payment with
 * monthly compounding, monotone totals, one schedule per set of terms
 * whatever the term unit, and the rounded summaries.
 */
module ScheduleProperties {
  import opened Wrappers
  import opened Decimals
  import opened Mortgage
  import opened AnnuityProperties

  // ---------------------------------------------------------------------
  // Running totals
  // ---------------------------------------------------------------------

  /** Sum of the interest parts of entries 1..k. */
  ghost function InterestPaid(s: seq<Installment>, k: nat): real
    requires k < |s|
  {
    if k == 0 then 0.0 else InterestPaid(s, k - 1) + s[k].interest
  }

  /** Sum of the principal parts of entries 1..k. */
  ghost function PrincipalPaid(s: seq<Installment>, k: nat): real
    requires k < |s|
  {
    if k == 0 then 0.0 else PrincipalPaid(s, k - 1) + s[k].principal
  }

  /**
   * The running totals are the sums of the parts paid so far: the interest
   * total is the interest paid, and the balance is the principal less the
   * principal paid.
   */
  lemma {:induction false} RunningTotals(loan: Loan, s: seq<Installment>, k: nat)
    requires loan.ValidTerms() && loan.IsSchedulePrefix(s) && k < |s|
    ensures s[k].totalInterest == InterestPaid(s, k)
    ensures s[k].balance == loan.principal - PrincipalPaid(s, k)
  {
    if k > 0 {
      RunningTotals(loan, s, k - 1);
      assert loan.Follows(s[k - 1], s[k], k);
    }
  }

  /** After k payments, the interest paid plus the principal repaid is k payments. */
  lemma {:induction false} PaidSoFar(loan: Loan, s: seq<Installment>, k: nat)
    requires loan.ValidTerms() && loan.IsSchedulePrefix(s) && k < |s|
    ensures s[k].totalInterest + (loan.principal - s[k].balance) == k as real * loan.PeriodicPayment()
  {
    if k > 0 {
      PaidSoFar(loan, s, k - 1);
      assert loan.Follows(s[k - 1], s[k], k);
      var before, payment := (k - 1) as real, loan.PeriodicPayment();
      assert before * payment + payment == (before + 1.0) * payment;
    }
  }

  /** The first entry is one month's interest on the principal, for every compounding. */
  lemma FirstInstallment(loan: Loan, s: seq<Installment>)
    requires loan.ValidTerms() && loan.IsSchedulePrefix(s) && |s| >= 2
    ensures s[1].number == 1 && s[1].payment == loan.PeriodicPayment()
    ensures s[1].interest == loan.principal * loan.interest / 12.0
    ensures s[1].totalInterest == s[1].interest
    ensures s[1].balance == loan.principal - s[1].principal
  {
    assert loan.Follows(s[0], s[1], 1);
    var principal, rate, count := loan.principal, loan.interest, loan.PaymentCount();
    FirstInterest(principal, rate, count);
  }

  // ---------------------------------------------------------------------
  // Monotone totals
  // ---------------------------------------------------------------------

  /** The interest total strictly increases along payments 1..N, for every compounding. */
  lemma {:induction false} TotalInterestIncreasing(loan: Loan, s: seq<Installment>, j: nat, k: nat)
    requires loan.ValidTerms() && loan.IsSchedule(s) && j < k < |s|
    ensures s[j].totalInterest < s[k].totalInterest
  {
    assert loan.Follows(s[k - 1], s[k], k);
    var principal, rate, count := loan.principal, loan.interest, loan.PaymentCount();
    InterestPortionPositive(principal, rate, count, k);
    if j < k - 1 {
      TotalInterestIncreasing(loan, s, j, k - 1);
    }
  }

  /** The interest part of an entry strictly decreases along payments 1..N, for every compounding. */
  lemma InterestDecreasing(loan: Loan, s: seq<Installment>, j: nat, k: nat)
    requires loan.ValidTerms() && loan.IsSchedulePrefix(s) && 1 <= j < k < |s|
    ensures s[k].interest < s[j].interest
    ensures k <= loan.PaymentCount() ==> 0.0 < s[k].interest
  {
    assert loan.Follows(s[j - 1], s[j], j);
    assert loan.Follows(s[k - 1], s[k], k);
    var principal, rate, count := loan.principal, loan.interest, loan.PaymentCount();
    InterestPortionDecreasing(principal, rate, count, j, k);
    if k <= count {
      InterestPortionPositive(principal, rate, count, k);
    }
  }

  /** With monthly compounding every entry after the first repays some principal. */
  lemma PrincipalPartPositive(loan: Loan, s: seq<Installment>, k: nat)
    requires loan.ValidTerms() && loan.compounded == "monthly"
    requires loan.IsSchedulePrefix(s) && 1 <= k < |s|
    ensures s[k].principal > 0.0
  {
    assert loan.Follows(s[k - 1], s[k], k);
    assert loan.nPeriods == 12;
    var principal, rate, count := loan.principal, loan.interest, loan.PaymentCount();
    PrincipalPortionPositive(principal, rate, count, k);
  }

  /** With monthly compounding the balance strictly decreases along the schedule. */
  lemma {:induction false} BalanceDecreasing(loan: Loan, s: seq<Installment>, j: nat, k: nat)
    requires loan.ValidTerms() && loan.compounded == "monthly"
    requires loan.IsSchedulePrefix(s) && j < k < |s|
    ensures s[k].balance < s[j].balance
  {
    assert loan.Follows(s[k - 1], s[k], k);
    PrincipalPartPositive(loan, s, k);
    if j < k - 1 {
      BalanceDecreasing(loan, s, j, k - 1);
    }
  }

  // ---------------------------------------------------------------------
  // Closure
  // ---------------------------------------------------------------------

  /** How much the payment at rate/12 exceeds the loan's payment at rate/n over the same N periods. */
  function PaymentGap(loan: Loan): real
    requires loan.ValidTerms()
  {
    AnnuityPayment(loan.principal, loan.interest, 12, loan.PaymentCount()) - loan.PeriodicPayment()
  }

  /**
   * For every compounding the balance after k payments is the monthly closed
   * form `Remaining(k)` plus k times the gap between the payment at rate/12
   * and the loan's payment at rate/n: the split always uses rate/12.
   */
  lemma {:induction false} BalanceGeneralForm(loan: Loan, s: seq<Installment>, k: nat)
    requires loan.ValidTerms() && loan.IsSchedulePrefix(s) && k < |s|
    ensures s[k].balance == Remaining(loan.principal, loan.interest, loan.PaymentCount(), k)
      + k as real * PaymentGap(loan)
  {
    var principal, rate, count := loan.principal, loan.interest, loan.PaymentCount();
    if k == 0 {
      RemainingEnds(principal, rate, count);
    } else {
      BalanceGeneralForm(loan, s, k - 1);
      assert loan.Follows(s[k - 1], s[k], k);
      RemainingStep(principal, rate, count, k);
      var before, after := (k - 1) as real, k as real;
      var gap := PaymentGap(loan);
      var owedBefore, owed := Remaining(principal, rate, count, k - 1), Remaining(principal, rate, count, k);
      var interestK := InterestPortion(principal, rate, count, k);
      assert s[k - 1].balance == owedBefore + before * gap;
      assert owedBefore - (AnnuityPayment(principal, rate, 12, count) - interestK) == owed;
      assert s[k].balance == s[k - 1].balance - (loan.PeriodicPayment() - interestK);
      assert after * gap == before * gap + gap;
    }
  }

  /**
   * For every compounding the balance after the last payment is N times the
   * gap between the payment at rate/12 and the loan's payment: zero exactly
   * when the two payments agree.
   */
  lemma FinalBalance(loan: Loan, s: seq<Installment>)
    requires loan.ValidTerms() && loan.IsSchedule(s)
    ensures s[loan.PaymentCount()].balance ==
      loan.PaymentCount() as real * PaymentGap(loan)
  {
    var principal, rate, count := loan.principal, loan.interest, loan.PaymentCount();
    BalanceGeneralForm(loan, s, count);
    RemainingEnds(principal, rate, count);
  }

  /** With monthly compounding the balance after k payments is `Remaining(k)`, the closed form. */
  lemma BalanceClosedForm(loan: Loan, s: seq<Installment>, k: nat)
    requires loan.ValidTerms() && loan.compounded == "monthly"
    requires loan.IsSchedulePrefix(s) && k < |s|
    ensures s[k].balance == Remaining(loan.principal, loan.interest, loan.PaymentCount(), k)
  {
    BalanceGeneralForm(loan, s, k);
    assert loan.nPeriods == 12;
    var paid, gap := k as real, PaymentGap(loan);
    assert gap == 0.0;
    assert paid * gap == 0.0;
  }

  /**
   * Amortisation closure: with monthly compounding the balance after the last
   * payment is exactly zero, the principal parts add up to the principal, and
   * the interest total is all payments less the principal.
   */
  lemma ScheduleCloses(loan: Loan, s: seq<Installment>)
    requires loan.ValidTerms() && loan.compounded == "monthly" && loan.IsSchedule(s)
    ensures s[loan.PaymentCount()].balance == 0.0
    ensures PrincipalPaid(s, loan.PaymentCount()) == loan.principal
    ensures s[loan.PaymentCount()].totalInterest ==
      loan.PaymentCount() as real * loan.PeriodicPayment() - loan.principal
  {
    var principal, rate, count := loan.principal, loan.interest, loan.PaymentCount();
    BalanceClosedForm(loan, s, count);
    RemainingEnds(principal, rate, count);
    RunningTotals(loan, s, count);
    PaidSoFar(loan, s, count);
  }

  /** With monthly compounding the balance stays between zero and the principal. */
  lemma BalanceBounds(loan: Loan, s: seq<Installment>, k: nat)
    requires loan.ValidTerms() && loan.compounded == "monthly" && loan.IsSchedule(s) && k < |s|
    ensures 0.0 <= s[k].balance <= loan.principal
  {
    ScheduleCloses(loan, s);
    if 0 < k {
      BalanceDecreasing(loan, s, 0, k);
    }
    if k < loan.PaymentCount() {
      BalanceDecreasing(loan, s, k, loan.PaymentCount());
    }
  }

  /**
   * The split does not close when compounding is not monthly: 12 at rate 1
   * for 1 year compounded annually pays 24 once, of which the split counts 1
   * as interest, leaving a balance of -11.
   */
  lemma AnnualSplitDoesNotClose(loan: Loan)
    requires loan.Valid() && loan.compounded == "annually"
    requires loan.principal == 12.0 && loan.interest == 1.0 && loan.term == 1
    ensures loan.PeriodicPayment() == 24.0
    ensures loan.rows[1].interest == 1.0
    ensures loan.rows[1].balance == -11.0
  {
    assert loan.nPeriods == 1;
    assert Pow(2.0, 1) == 2.0;
    assert IntPow(2.0, -1) == 0.5;
    FirstInstallment(loan, loan.rows);
  }

  // ---------------------------------------------------------------------
  // One schedule per set of terms
  // ---------------------------------------------------------------------

  /** Two schedules of the same loan agree up to entry k. */
  lemma {:induction false} SchedulesAgree(loan: Loan, s: seq<Installment>, t: seq<Installment>, k: nat)
    requires loan.ValidTerms() && loan.IsSchedulePrefix(s) && loan.IsSchedulePrefix(t)
    requires k < |s| && k < |t|
    ensures s[k] == t[k]
  {
    if k > 0 {
      SchedulesAgree(loan, s, t, k - 1);
      assert loan.Follows(s[k - 1], s[k], k);
      assert loan.Follows(t[k - 1], t[k], k);
    }
  }

  /** A loan has exactly one schedule. */
  lemma ScheduleUnique(loan: Loan, s: seq<Installment>, t: seq<Installment>)
    requires loan.ValidTerms() && loan.IsSchedule(s) && loan.IsSchedule(t)
    ensures s == t
  {
    forall k | 0 <= k < |s|
      ensures s[k] == t[k]
    {
      SchedulesAgree(loan, s, t, k);
    }
  }

  /**
   * Two loans with the same principal, rate, term and compounding have the
   * same schedule and the same summary values, whatever their term units.
   */
  lemma SameTermsSameLoan(a: Loan, b: Loan)
    requires a.Valid() && b.Valid()
    requires a.principal == b.principal && a.interest == b.interest
    requires a.term == b.term && a.compounded == b.compounded
    ensures a.rows == b.rows
    ensures a.MonthlyPayment() == b.MonthlyPayment()
    ensures a.Apr() == b.Apr() && a.Apy() == b.Apy()
    ensures a.TotalPrincipal() == b.TotalPrincipal()
    ensures a.TotalInterest() == b.TotalInterest() && a.TotalPaid() == b.TotalPaid()
  {
    assert a.nPeriods == b.nPeriods && a.PaymentCount() == b.PaymentCount();
    assert a.PeriodicPayment() == b.PeriodicPayment();
    forall k | 1 <= k < |a.rows|
      ensures b.Follows(a.rows[k - 1], a.rows[k], k)
    {
      assert a.Follows(a.rows[k - 1], a.rows[k], k);
    }
    assert b.IsSchedule(a.rows);
    ScheduleUnique(b, a.rows, b.rows);
  }

  // ---------------------------------------------------------------------
  // Summary values
  // ---------------------------------------------------------------------

  /** Dividing by a positive number keeps bounds. */
  lemma QuotientBounds(x: real, lo: real, hi: real, p: real)
    requires p > 0.0 && lo <= x <= hi
    ensures lo / p <= x / p <= hi / p
  {
    var q, ql, qh := x / p, lo / p, hi / p;
    assert q * p == x && ql * p == lo && qh * p == hi;
    assert (q - ql) * p >= 0.0;
    assert (qh - q) * p >= 0.0;
  }

  /** `(p*r + e) / p`, as a percentage, is `r` as a percentage plus `e / p` as one. */
  lemma PercentageSplit(p: real, r: real, e: real, x: real)
    requires p > 0.0 && x == p * r + e
    ensures x / p * 100.0 == r * 100.0 + e / p * 100.0
  {
    assert x / p == r + e / p;
  }

  /** APR is the nominal rate as a percentage, off by at most two roundings to cents. */
  lemma AprNearNominal(loan: Loan)
    requires loan.ValidTerms()
    ensures -0.005 - 0.5 / loan.principal <= loan.Apr() - loan.interest * 100.0 <= 0.005 + 0.5 / loan.principal
  {
    var principal, rate := loan.principal, loan.interest;
    var simple := loan.SimpleInterest(1);
    assert principal * rate * 1 as real == principal * rate;
    var error := simple - principal * rate;
    var scaled := 100.0 * error;
    assert error / principal * 100.0 == scaled / principal;
    QuotientBounds(scaled, -0.5, 0.5, principal);
    assert -0.5 / principal == -(0.5 / principal);
    PercentageSplit(principal, rate, error, simple);
  }

  /** The effective annual rate is at least the nominal rate, and equals it with annual compounding. */
  lemma EffectiveRateAtLeastNominal(loan: Loan)
    requires loan.ValidTerms()
    ensures loan.EffectiveAnnualRate() >= loan.interest
    ensures loan.compounded == "annually" ==> loan.EffectiveAnnualRate() == loan.interest
  {
    var n := loan.nPeriods;
    Bernoulli(loan.interest / n as real, n);
    assert n as real * (loan.interest / n as real) == loan.interest;
    if loan.compounded == "annually" {
      assert n == 1;
      assert Pow(1.0 + loan.interest, 1) == 1.0 + loan.interest;
    }
  }

  /**
   * With monthly compounding everything paid is N payments: the rounded total
   * paid is within a cent of it, and the rounded interest total within half a
   * cent of N payments less the principal.
   */
  lemma TotalsMatchPayments(loan: Loan)
    requires loan.Valid() && loan.compounded == "monthly"
    ensures -0.01 <= loan.TotalPaid() - loan.PaymentCount() as real * loan.PeriodicPayment() <= 0.01
    ensures -0.005 <= loan.TotalInterest()
                      - (loan.PaymentCount() as real * loan.PeriodicPayment() - loan.principal) <= 0.005
  {
    ScheduleCloses(loan, loan.rows);
  }

  /**
   * The 200000 at 6% example, compounded monthly, for any term (the examples
   * use 15 and 30 years): first interest 1000.00, interest total after it
   * 1000.00, total principal 200000.00, APR 6.00, APY 6.17.
   */
  lemma ReferenceLoan(loan: Loan)
    requires loan.Valid() && loan.compounded == "monthly"
    requires loan.principal == 200000.0 && loan.interest == 0.06
    ensures loan.rows[1].interest == 1000.0 && loan.rows[1].totalInterest == 1000.0
    ensures loan.TotalPrincipal() == 200000.0
    ensures loan.Apr() == 6.0
    ensures loan.Apy() == 6.17
  {
    FirstInstallment(loan, loan.rows);
    QuantizeFixesCents(200000.0);
    QuantizeFixesCents(12000.0);
    assert loan.SimpleInterest(1) == 12000.0;
    QuantizeFixesCents(6.0);
    assert loan.nPeriods == 12;
    assert Pow(1.005, 2) == 1.010025;
    assert Pow(1.005, 4) == 1.010025 * 1.010025 by {
      assert Pow(1.005, 4) == 1.005 * (1.005 * Pow(1.005, 2));
    }
    assert Pow(1.005, 12) == 4348632317396990233762642401.0 / 4096000000000000000000000000.0;
  }

  /**
   * The examples' loan, `Loan(principal=200000, interest=.06, term=30)`, built
   * with the default term unit and compounding ("years", "monthly"): its
   * schedule closes and it has the example figures.
   */
  method ExampleLoan() returns (loan: Loan)
    ensures loan.Valid() && loan.termUnit == "years" && loan.compounded == "monthly"
    ensures loan.PaymentCount() == 360 && loan.rows[360].balance == 0.0
    ensures loan.rows[1].interest == 1000.0 && loan.rows[1].totalInterest == 1000.0
    ensures loan.TotalPrincipal() == 200000.0 && loan.Apr() == 6.0 && loan.Apy() == 6.17
  {
    assert CheckArguments(200000.0, 0.06, 30, "years", "monthly") == Success(12);
    var r := NewLoan(200000.0, 0.06, 30);
    loan := r.value;
    ScheduleCloses(loan, loan.rows);
    ReferenceLoan(loan);
  }
}
