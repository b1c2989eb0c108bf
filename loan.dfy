/**
 * The fixed-rate amortisation calculator: loan terms and their validation,
 * the periodic payment, the closed-form split of a payment into interest and
 * principal, the schedule built by one forward pass, and the rounded summary
 * values. Decimal arithmetic is idealised as exact `real` arithmetic.
 */
module Mortgage {
  import opened Wrappers
  import opened Decimals

  /** One row of the schedule: payment number, the payment and its split, and the running totals. */
  datatype Installment = Installment(
    number: nat,
    payment: real,
    interest: real,
    principal: real,
    totalInterest: real,
    balance: real)

  /** What `schedule` returns: the whole list, one entry of it, or the IndexError of an index out of range. */
  datatype ScheduleView = Whole(entries: seq<Installment>) | Entry(entry: Installment) | IndexOutOfRange

  /** Why a loan could not be constructed, in the order the checks are made. */
  datatype LoanError =
    | PrincipalNotPositive  // "Principal must be positive value"
    | RateOutOfRange        // "Interest rate must be between zero and one"
    | TermNotPositive       // "Term must be a positive number"
    | UnknownTermUnit       // "term_unit can be either days, months, or years"
    | UnknownCompounding    // "Compounding can occur daily, monthly, or annually"
    | DivisionUndefined     // decimal InvalidOperation: 0/0 in the payment formula at a zero rate

  const TERM_UNITS: set<string> := {"days", "months", "years"}

  /** Compounding periods per year, by compounding name. */
  const PERIODS: map<string, nat> := map["daily" := 365, "monthly" := 12, "annually" := 1]

  /**
   * The constructor's assertions, checked in order, and the periods lookup:
   * the first failing check decides the error.
   */
  function CheckArguments(principal: real, interest: real, term: int, termUnit: string, compounded: string)
    : (r: Result<nat, LoanError>)
    ensures r.Success? <==>
      principal > 0.0 && 0.0 <= interest <= 1.0 && term > 0 &&
      termUnit in TERM_UNITS && compounded in PERIODS
    ensures r.Success? ==> r.value == PERIODS[compounded] && r.value in {365, 12, 1}
    ensures r == Failure(PrincipalNotPositive) <==> principal <= 0.0
    ensures r == Failure(RateOutOfRange) <==> principal > 0.0 && !(0.0 <= interest <= 1.0)
    ensures r == Failure(TermNotPositive) <==> principal > 0.0 && 0.0 <= interest <= 1.0 && term <= 0
    ensures r == Failure(UnknownTermUnit) <==>
      principal > 0.0 && 0.0 <= interest <= 1.0 && term > 0 && termUnit !in TERM_UNITS
    ensures r == Failure(UnknownCompounding) <==>
      principal > 0.0 && 0.0 <= interest <= 1.0 && term > 0 && termUnit in TERM_UNITS &&
      compounded !in PERIODS
    ensures r != Failure(DivisionUndefined)
  {
    if principal <= 0.0 then Failure(PrincipalNotPositive)
    else if !(0.0 <= interest <= 1.0) then Failure(RateOutOfRange)
    else if term <= 0 then Failure(TermNotPositive)
    else if termUnit !in TERM_UNITS then Failure(UnknownTermUnit)
    else if compounded !in PERIODS then Failure(UnknownCompounding)
    else Success(PERIODS[compounded])
  }

  /**
   * The periodic payment `P*(r/n) / (1 - (1 + r/n)^(-count))` that repays
   * `principal` over `count` periods at annual rate `rate` compounded `periods` times a year.
   */
  function AnnuityPayment(principal: real, rate: real, periods: nat, count: nat): (r: real)
    requires principal > 0.0 && rate > 0.0 && periods > 0 && count > 0
    ensures r > 0.0
  {
    var n := periods as real;
    var discount := IntPow(1.0 + rate / n, -(count as int));
    NegativePower(1.0 + rate / n, count);
    principal * rate / n / (1.0 - discount)
  }

  /**
   * The interest part of payment `number` of `count`, by the closed form
   * `P*i*(i1^(count+1) - i1^number) / (i1*(i1^count - 1))` with
   * `i = rate/12` and `i1 = i + 1`, whatever the compounding.
   */
  function InterestPortion(principal: real, rate: real, count: nat, number: nat): real
    requires rate > 0.0 && count > 0
  {
    var i := rate / 12.0;
    var i1 := i + 1.0;
    PowAboveOne(i1, count);
    var numerator := principal * i * (Pow(i1, count + 1) - Pow(i1, number));
    var denominator := i1 * (Pow(i1, count) - 1.0);
    numerator / denominator
  }

  /** Simple interest `principal * rate * years`, rounded to cents. */
  function SimpleInterestOn(principal: real, rate: real, years: int): (r: real)
    ensures IsCents(r) && -0.005 <= r - principal * rate * years as real <= 0.005
  {
    Quantize(principal * rate * years as real)
  }

  /** A loan: its validated terms and the schedule built once, at construction. */
  class Loan {
    const principal: real
    const interest: real
    const term: nat
    const termUnit: string
    const compounded: string
    const nPeriods: nat
    var rows: seq<Installment>

    /**
     * What every constructed loan satisfies: its arguments passed the checks,
     * `nPeriods` is the lookup of `compounded`, and the rate is not zero
     * (a zero rate makes construction fail in the payment formula).
     */
    predicate ValidTerms()
      ensures ValidTerms() ==> CheckArguments(principal, interest, term, termUnit, compounded) == Success(nPeriods)
      ensures ValidTerms() ==> nPeriods in {365, 12, 1} && PaymentCount() >= term > 0
    {
      && principal > 0.0 && 0.0 < interest <= 1.0 && term > 0
      && termUnit in TERM_UNITS && compounded in PERIODS && nPeriods == PERIODS[compounded]
    }

    ghost predicate Valid()
      reads this
    {
      ValidTerms() && IsSchedule(rows)
    }

    /** The number of scheduled payments, `term * n_periods`. */
    function PaymentCount(): nat {
      term * nPeriods
    }

    /** The unrounded periodic payment. */
    function PeriodicPayment(): (r: real)
      requires ValidTerms()
      ensures r > 0.0
    {
      AnnuityPayment(principal, interest, nPeriods, PaymentCount())
    }

    /** Splits `amount` into the interest of payment `number` and the rest, which goes to principal. */
    function SplitPayment(number: nat, amount: real): (r: (real, real))
      requires ValidTerms()
      ensures r.0 + r.1 == amount
      ensures r.0 == InterestPortion(principal, interest, PaymentCount(), number)
    {
      var interestPayment := InterestPortion(principal, interest, PaymentCount(), number);
      (interestPayment, amount - interestPayment)
    }

    /** The synthetic entry 0: nothing paid yet, the whole principal outstanding. */
    function Origination(): Installment {
      Installment(0, 0.0, 0.0, 0.0, 0.0, principal)
    }

    /** Entry `k` of a schedule, given entry `k - 1`: payment `k` split, and both totals carried forward. */
    ghost predicate Follows(prev: Installment, cur: Installment, k: nat)
      requires ValidTerms()
    {
      && cur.number == k
      && cur.payment == PeriodicPayment()
      && cur.interest == InterestPortion(principal, interest, PaymentCount(), k)
      && cur.interest + cur.principal == cur.payment
      && cur.totalInterest == prev.totalInterest + cur.interest
      && cur.balance == prev.balance - cur.principal
    }

    /** `s` starts at the origination entry and every later entry follows the one before it. */
    ghost predicate IsSchedulePrefix(s: seq<Installment>)
      requires ValidTerms()
    {
      && |s| >= 1
      && s[0] == Origination()
      && forall k :: 1 <= k < |s| ==> Follows(s[k - 1], s[k], k)
    }

    /** A complete schedule: entries 0 through `PaymentCount()`. */
    ghost predicate IsSchedule(s: seq<Installment>)
      requires ValidTerms()
    {
      IsSchedulePrefix(s) && |s| == PaymentCount() + 1
    }

    /** Builds the schedule by one forward pass over payments 1..N. */
    method Amortize() returns (s: seq<Installment>)
      requires ValidTerms()
      ensures IsSchedule(s)
    {
      s := [Origination()];
      var totalInterest := 0.0;
      var balance := principal;
      for paymentNumber := 1 to PaymentCount() + 1
        invariant |s| == paymentNumber
        invariant IsSchedulePrefix(s)
        invariant totalInterest == s[paymentNumber - 1].totalInterest
        invariant balance == s[paymentNumber - 1].balance
      {
        var split := SplitPayment(paymentNumber, PeriodicPayment());
        var interestPayment, principalPayment := split.0, split.1;
        totalInterest := totalInterest + interestPayment;
        balance := balance - principalPayment;
        var installment := Installment(paymentNumber, PeriodicPayment(), interestPayment,
                                       principalPayment, totalInterest, balance);
        s := s + [installment];
      }
    }

    /** Builds a loan from arguments that pass the checks at a non-zero rate. */
    constructor (principal: real, interest: real, term: int, termUnit: string, compounded: string)
      requires CheckArguments(principal, interest, term, termUnit, compounded).Success?
      requires interest != 0.0
      ensures this.principal == principal && this.interest == interest && this.term == term
      ensures this.termUnit == termUnit && this.compounded == compounded
      ensures this.nPeriods == PERIODS[compounded]
      ensures Valid()
    {
      this.principal := principal;
      this.interest := interest;
      this.term := term;
      this.termUnit := termUnit;
      this.compounded := compounded;
      this.nPeriods := PERIODS[compounded];
      new;
      rows := Amortize();
    }

    /**
     * `schedule(nth_payment)`: the whole schedule when the argument is falsy
     * (absent, which the default 0 stands for, or 0), otherwise the list entry at that index, where a negative
     * index counts from the end and one out of range raises IndexError.
     */
    function Schedule(nthPayment: int := 0): (r: ScheduleView)
      reads this
      requires Valid()
      ensures nthPayment == 0 ==> r == Whole(rows) && IsSchedule(r.entries)
      ensures r.Entry? <==> nthPayment != 0 && -(PaymentCount() + 1) <= nthPayment <= PaymentCount()
      ensures r == IndexOutOfRange <==> nthPayment < -(PaymentCount() + 1) || nthPayment > PaymentCount()
      ensures r.Entry? && nthPayment > 0 ==> r.entry == rows[nthPayment] && r.entry.number == nthPayment
      ensures r.Entry? && nthPayment < 0 ==>
        r.entry == rows[PaymentCount() + 1 + nthPayment] && r.entry.number == PaymentCount() + 1 + nthPayment
      ensures r.Entry? && r.entry.number > 0 ==> r.entry.payment == PeriodicPayment()
    {
      if nthPayment == 0 then Whole(rows)
      else if 0 < nthPayment < |rows| then
        assert Follows(rows[nthPayment - 1], rows[nthPayment], nthPayment);
        Entry(rows[nthPayment])
      else if -|rows| <= nthPayment < 0 then
        var k := |rows| + nthPayment;
        assert k > 0 ==> Follows(rows[k - 1], rows[k], k);
        Entry(rows[k])
      else IndexOutOfRange
    }

    /** The periodic payment rounded to cents. */
    function MonthlyPayment(): (r: real)
      requires ValidTerms()
      ensures IsCents(r) && -0.005 <= r - PeriodicPayment() <= 0.005
    {
      Quantize(PeriodicPayment())
    }

    /** Simple interest on the principal over `t` years, rounded to cents. */
    function SimpleInterest(t: int): real
      requires ValidTerms()
    {
      SimpleInterestOn(principal, interest, t)
    }

    /** APR: one year's rounded simple interest as a percentage of the principal, rounded to cents. */
    function Apr(): (r: real)
      requires ValidTerms()
      ensures IsCents(r) && -0.005 <= r - SimpleInterest(1) / principal * 100.0 <= 0.005
    {
      Quantize(SimpleInterest(1) / principal * 100.0)
    }

    /** The effective annual rate `(1 + r/n)^n - 1`, exact. */
    function EffectiveAnnualRate(): real
      requires ValidTerms()
    {
      Pow(1.0 + interest / nPeriods as real, nPeriods) - 1.0
    }

    /** APY: the effective annual rate as a percentage, rounded to cents. */
    function Apy(): (r: real)
      requires ValidTerms()
      ensures IsCents(r) && -0.005 <= r - EffectiveAnnualRate() * 100.0 <= 0.005
    {
      Quantize(EffectiveAnnualRate() * 100.0)
    }

    /** The principal rounded to cents. */
    function TotalPrincipal(): (r: real)
      requires ValidTerms()
      ensures IsCents(r) && -0.005 <= r - principal <= 0.005
    {
      Quantize(principal)
    }

    /** The running interest total of the last entry, rounded to cents. */
    function TotalInterest(): (r: real)
      reads this
      requires Valid()
      ensures IsCents(r) && -0.005 <= r - rows[PaymentCount()].totalInterest <= 0.005
    {
      Quantize(rows[PaymentCount()].totalInterest)
    }

    /** The sum of the two rounded totals (not the rounding of their sum). */
    function TotalPaid(): (r: real)
      reads this
      requires Valid()
      ensures IsCents(r)
      ensures -0.01 <= r - (principal + rows[PaymentCount()].totalInterest) <= 0.01
    {
      CentsSum(TotalPrincipal(), TotalInterest());
      TotalPrincipal() + TotalInterest()
    }
  }

  /**
   * `Loan(principal, interest, term, term_unit, compounded)`: fails on the first
   * violated check, fails at a zero rate in the payment formula, and otherwise
   * yields a fresh loan with its schedule built.
   */
  method NewLoan(principal: real, interest: real, term: int,
                 termUnit: string := "years", compounded: string := "monthly")
    returns (r: Result<Loan, LoanError>)
    ensures CheckArguments(principal, interest, term, termUnit, compounded).Failure? ==>
      r == Failure(CheckArguments(principal, interest, term, termUnit, compounded).error)
    ensures CheckArguments(principal, interest, term, termUnit, compounded).Success? && interest == 0.0 ==>
      r == Failure(DivisionUndefined)
    ensures CheckArguments(principal, interest, term, termUnit, compounded).Success? && interest != 0.0 ==>
      && r.Success? && fresh(r.value) && r.value.Valid()
      && r.value.principal == principal && r.value.interest == interest && r.value.term == term
      && r.value.termUnit == termUnit && r.value.compounded == compounded
      && r.value.nPeriods == CheckArguments(principal, interest, term, termUnit, compounded).value
  {
    var checked := CheckArguments(principal, interest, term, termUnit, compounded);
    if checked.Failure? {
      return Failure(checked.error);
    }
    if interest == 0.0 {
      return Failure(DivisionUndefined);
    }
    var loan := new Loan(principal, interest, term, termUnit, compounded);
    return Success(loan);
  }
}
