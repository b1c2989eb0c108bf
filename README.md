# Fixed-rate mortgage calculator, modelled in Dafny

This project models the `Loan` class of the `mortgage` package. The class is
a fixed-rate, fully amortising loan calculator. For a principal, an annual
rate, a term and a compounding frequency it does four things:

- it validates its arguments;
- it computes the annuity payment;
- it builds the schedule of installments in one forward pass, where entry 0
  is the origination and entries 1..N are the payments;
- it reports summary values rounded to cents.

Python `Decimal` arithmetic is idealised as exact `real` arithmetic.

## Modules

- `Wrappers` (`wrappers.dfy`): the `Result` type. Construction can fail, and
  `Result` carries that failure.
- `Decimals` (`decimals.dfy`): the numeric operations the source uses.
  - `Pow` computes natural powers. `IntPow` computes integer powers, where a
    negative exponent gives the reciprocal.
  - `Quantize` is `quantize(Decimal('0.01'))`. It rounds to cents with
    ROUND_HALF_EVEN, the default rounding of Python's decimal context.
- `Mortgage` (`loan.dfy`), the counterpart of `mortgage/loan.py`:
  - the `Installment` record;
  - the construction errors, and `CheckArguments`, which applies the
    constructor's assertions in their order;
  - the payment formula, and the closed-form interest part used by
    `split_payment`;
  - the class `Loan`. Its validated terms are `const` fields. Its schedule is
    the field `rows`, which the constructor fills by calling the loop method
    `Amortize`.
  - `Amortize` is proved against the ghost predicate `IsSchedule`. Entry 0 is
    the origination, and entry k follows entry k-1 by the split of payment k
    and the two running totals.
- `AnnuityProperties` (`annuity_properties.dfy`): algebraic facts about the
  two closed forms. They are stated multiplied out by their denominators:
  - the interest part times `q^N - 1`;
  - the payment times `q^N - 1`;
  - the outstanding amount `Remaining(k)`, and the fact that payment k takes
    it from `Remaining(k-1)` to `Remaining(k)`;
  - the payment's present value, which equals the principal.
- `ScheduleProperties` (`schedule_properties.dfy`): properties of the schedule
  and of the summaries:
  - the running totals;
  - closure, meaning a zero balance after the last monthly payment;
  - monotone totals, and the uniqueness of the schedule;
  - independence from `term_unit`;
  - the example figures of the 200000-at-6% loan.

## Model

| member | source | states |
|---|---|---|
| Decimals.RoundHalfEven | mortgage/loan.py:59 | the result is the integer nearest to its input; a tie goes to the even neighbour |
| Decimals.RoundHalfEvenUnique | mortgage/loan.py:59 | only one integer is nearest-with-ties-to-even, so the rounding is determined by those two properties |
| Decimals.RoundHalfEvenMonotone | mortgage/loan.py:59 | rounding preserves order |
| Decimals.Quantize | mortgage/loan.py:57-59 | `_quantize` returns a whole number of cents, within half a cent of its input; at a tie the result is an even number of cents |
| Decimals.QuantizeFixesCents | mortgage/loan.py:57-59 | an amount already in whole cents is unchanged |
| Decimals.QuantizeIdempotent | mortgage/loan.py:57-59 | quantising twice is quantising once |
| Decimals.QuantizeMonotone | mortgage/loan.py:57-59 | quantising preserves order |
| Decimals.CentsSum | mortgage/loan.py:175 | a sum of two whole-cent amounts is whole cents, so `total_paid` is quantised as well |
| Decimals.Bernoulli | mortgage/loan.py:135 | `(1+y)^n >= 1 + n*y`, used to bound the APY |
| Mortgage.CheckArguments | mortgage/loan.py:30-43 | construction succeeds iff principal > 0, 0 <= rate <= 1, term > 0, the term unit is days/months/years and the compounding is daily/monthly/annually; each failure names the first failing assertion, in source order; periods are 365/12/1 |
| Mortgage.AnnuityPayment | mortgage/loan.py:77-84 | the payment formula is defined (no division by zero) and positive for any positive principal and rate |
| Mortgage.NewLoan | mortgage/loan.py:28-52 | `Loan(principal, interest, term, term_unit='years', compounded='monthly')`, with those defaults: a failing check gives its error; a zero rate passes the checks but fails in the payment formula; otherwise the result is a fresh loan holding exactly the given terms, with `n_periods` from the lookup and a complete schedule |
| Mortgage.Loan.constructor | mortgage/loan.py:45-51 | the fields hold the given terms, `n_periods` is the lookup of the compounding name, and the schedule is built |
| Mortgage.Loan.ValidTerms | mortgage/loan.py:30-50 | a constructed loan passed `CheckArguments` with its own `n_periods`, which is 365, 12 or 1, and it has at least `term` payments |
| Mortgage.Loan.PeriodicPayment | mortgage/loan.py:77-84 | the unrounded payment of a constructed loan is positive |
| Mortgage.Loan.SplitPayment | mortgage/loan.py:218-243 | the two parts add up to the amount exactly, and the interest part is the closed form for payment `number` |
| Mortgage.Loan.Amortize | mortgage/loan.py:245-271 | the loop builds a complete schedule: N+1 entries, entry 0 the origination `(0, 0, 0, 0, 0, principal)`, and entry k numbered k, paying the unrounded payment, split by `split_payment`, with both running totals carried forward |
| Mortgage.Loan.Schedule | mortgage/loan.py:61-75 | no argument (the default 0, standing for `None`) or 0 gives the whole schedule; 1..N give entry k, numbered k; -(N+1)..-1 count from the end; any other index is an IndexError |
| Mortgage.Loan.MonthlyPayment | mortgage/loan.py:86-97 | whole cents, within half a cent of the unrounded payment |
| Mortgage.SimpleInterestOn | mortgage/loan.py:99-101 | whole cents, within half a cent of principal * rate * years |
| Mortgage.Loan.Apr | mortgage/loan.py:103-119 | whole cents, within half a cent of the rounded one-year simple interest as a percentage of the principal |
| Mortgage.Loan.Apy | mortgage/loan.py:121-136 | whole cents, within half a cent of `((1 + r/n)^n - 1) * 100` |
| Mortgage.Loan.TotalPrincipal | mortgage/loan.py:138-149 | whole cents, within half a cent of the principal |
| Mortgage.Loan.TotalInterest | mortgage/loan.py:151-162 | whole cents, within half a cent of entry N's running interest total |
| Mortgage.Loan.TotalPaid | mortgage/loan.py:164-175 | whole cents, within one cent of principal plus entry N's interest total (two roundings) |
| AnnuityProperties.InterestPortionClosedForm | mortgage/loan.py:232-239 | with the common factor i1 cancelled: interest(k) * (q^N - 1) == P*i*(q^N - q^(k-1)), for every compounding |
| AnnuityProperties.FirstInterest | mortgage/loan.py:232-239 | payment 1's interest is P*rate/12, for every compounding |
| AnnuityProperties.InterestPortionPositive | mortgage/loan.py:236-239 | the interest part is positive for payments 1..N |
| AnnuityProperties.InterestPortionDecreasing | mortgage/loan.py:236-239 | the interest part strictly decreases with the payment number |
| AnnuityProperties.PaymentClosedForm | mortgage/loan.py:83 | with 12 periods a year, payment * (q^N - 1) == P*i*q^N, with the split's q = 1 + rate/12 |
| AnnuityProperties.PrincipalPortionClosedForm | mortgage/loan.py:83 | with 12 periods a year, (payment - interest(k)) * (q^N - 1) == P*i*q^(k-1) |
| AnnuityProperties.PrincipalPortionPositive | mortgage/loan.py:242 | with 12 periods a year every payment's principal part is positive |
| AnnuityProperties.RemainingEnds | mortgage/loan.py:251 | the closed-form amount owed is the principal before any payment and zero after payment N |
| AnnuityProperties.RemainingStep | mortgage/loan.py:261 | with 12 periods a year, payment k's principal part takes the amount owed from `Remaining(k-1)` to `Remaining(k)` |
| AnnuityProperties.PresentValueClosedForm | mortgage/loan.py:83 | the geometric sum of m discounted payments, multiplied out |
| AnnuityProperties.PaymentRepaysPrincipal | mortgage/loan.py:83 | for every compounding, the N payments discounted at rate/n per period are worth exactly the principal |
| ScheduleProperties.RunningTotals | mortgage/loan.py:253-261 | entry k's interest total is the sum of interest parts 1..k, and its balance is the principal less principal parts 1..k |
| ScheduleProperties.PaidSoFar | mortgage/loan.py:253-263 | after k payments, interest total + principal repaid == k * payment |
| ScheduleProperties.FirstInstallment | mortgage/loan.py:255-267 | entry 1 is numbered 1 and pays the payment; its interest is P*rate/12 and equals its interest total |
| ScheduleProperties.TotalInterestIncreasing | mortgage/loan.py:260 | the interest total strictly increases along the schedule, for every compounding |
| ScheduleProperties.InterestDecreasing | mortgage/loan.py:257-264 | the interest of an entry strictly decreases along the schedule, and is positive up to entry N |
| ScheduleProperties.PrincipalPartPositive | mortgage/loan.py:257-265 | with monthly compounding every entry repays some principal |
| ScheduleProperties.BalanceDecreasing | mortgage/loan.py:261 | with monthly compounding the balance strictly decreases along the schedule |
| ScheduleProperties.BalanceGeneralForm | mortgage/loan.py:253-261 | for every compounding, entry k's balance is the monthly closed form P*(q^N - q^k)/(q^N - 1) plus k times the gap between the payment at rate/12 and the loan's payment |
| ScheduleProperties.FinalBalance | mortgage/loan.py:233 | for every compounding, the balance of entry N is N times that gap, so it is zero exactly when the two payments agree |
| ScheduleProperties.BalanceClosedForm | mortgage/loan.py:253-261 | the loop invariant: with monthly compounding entry k's balance is P*(q^N - q^k)/(q^N - 1) |
| ScheduleProperties.ScheduleCloses | mortgage/loan.py:255-261 | with monthly compounding the balance of entry N is exactly 0, the principal parts sum to the principal, and the interest total is N payments less the principal |
| ScheduleProperties.BalanceBounds | mortgage/loan.py:261 | with monthly compounding every balance lies between 0 and the principal |
| ScheduleProperties.AnnualSplitDoesNotClose | mortgage/loan.py:233 | the split uses rate/12 whatever the compounding: 12 at rate 1 for 1 year, compounded annually, pays 24, of which 1 counts as interest, and ends at balance -11 |
| ScheduleProperties.SchedulesAgree | mortgage/loan.py:245-271 | two schedules of the same loan agree entry by entry |
| ScheduleProperties.ScheduleUnique | mortgage/loan.py:245-271 | a loan has exactly one schedule |
| ScheduleProperties.SameTermsSameLoan | mortgage/loan.py:28-51 | `term_unit` affects nothing: two loans with equal principal, rate, term and compounding have the same schedule and the same summary values |
| ScheduleProperties.AprNearNominal | mortgage/loan.py:117-119 | the APR is the rate as a percentage, up to half a cent plus 0.5/P from the two roundings, whatever the compounding |
| ScheduleProperties.EffectiveRateAtLeastNominal | mortgage/loan.py:135 | the effective annual rate is at least the rate, and equals it with annual compounding |
| ScheduleProperties.TotalsMatchPayments | mortgage/loan.py:162-175 | with monthly compounding the rounded total paid is within a cent of N payments, and the rounded interest total within half a cent of N payments less the principal |
| ScheduleProperties.ExampleLoan | tests/test_loan.py:11-13 | `Loan(principal=200000, interest=.06, term=30)` with the default term unit and compounding gets "years" and "monthly", 360 payments and a final balance of exactly 0, and has the figures of `ReferenceLoan` |
| ScheduleProperties.ReferenceLoan | tests/test_loan.py:32-81 | for 200000 at 0.06, compounded monthly and of any term: payment 1's interest and interest total are 1000, the total principal is 200000.00, the APR is 6.00 and the APY 6.17 |

## Behaviour worth knowing

The model follows the code in each of these cases.

- **A zero rate.** There is no zero-rate special case, such as a flat
  payment `P / N` with no interest. A zero rate passes the assertion at
  `mortgage/loan.py:34`. Then `mortgage/loan.py:83` divides 0 by 0, which
  Python's decimal module rejects with `InvalidOperation`. `NewLoan` returns
  `DivisionUndefined` for it, so every constructed loan has a positive rate.
- **Rounding.** Ties are not rounded up. `quantize` at `mortgage/loan.py:59`
  uses the decimal context's default, ROUND_HALF_EVEN, so `Quantize` rounds
  a tie to the even cent.
- **APR.** The APR ignores the compounding. `apr` never reads `n_periods`,
  so compounding more often than annually does not change it.
  `AprNearNominal` shows that it stays within two roundings of the nominal
  rate for every compounding.
- **Closure.** `split_payment` always uses rate/12, but the payment uses
  rate/n.
  - `FinalBalance` gives the last balance for every compounding: N times the
    gap between the payment at rate/12 and the loan's payment.
  - With monthly compounding the gap is zero, so the schedule closes and the
    balance falls throughout (`ScheduleCloses`, `BalanceDecreasing`).
  - `AnnualSplitDoesNotClose` gives an annual loan whose balance goes
    negative.

## Left out

- `summarize`, `__repr__` and the `currency` argument: printing and formatting only.
- `interest_to_principle` and `years_to_pay`: they return Python floats via
  `round` and `float()`, which is floating-point presentation.
- The float round trip `Decimal(interest * 100) / 100` at `mortgage/loan.py:46`:
  the rate is taken as an exact real.
- Decimal's finite 28-digit precision: arithmetic is exact over the reals, so
  closure holds exactly here. In Python it holds up to the context's rounding.
- The example figures that need `1.005^360` or `1.005^180`:
  - for the 30-year loan, the payment 1199.10, the interest total 231676.38,
    and the splits at payments 5, 10 and 360;
  - for the 15-year loan in the docstrings (`mortgage/loan.py:160`, `173` and
    `229-230`), the interest total 103788.46, the total paid 303788.46, and
    the split of payment 180.

  Only the figures that need no such power are proved, in `ReferenceLoan`
  and `ExampleLoan`. The sign of `FinalBalance`'s gap under daily compounding is
  not proved either.
- Python's duck typing: the arguments are typed (`real` principal and rate,
  `int` term, strings for the unit and the compounding name), so a call with
  arguments of other types is not modelled.
- `Mortgage.Loan.SplitPayment`: the payment number is a natural number. The
  source also accepts a negative number, giving a negative exponent there;
  the schedule only ever passes 1..N.
- noxfile.py and setup.py: build, test-runner and packaging configuration with no logic.
