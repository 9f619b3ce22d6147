/**
 * `calculateCreditDetails`: the monthly annuity payment for a loan of
 * `totalAmount` over `termMonths` months at the yearly effective rate
 * `effectiveInterestRate` (percent), and the total interest paid, each
 * rounded to cents with `Math.round(x * 100) / 100`. Arithmetic is exact;
 * the IEEE-754 result NaN of 0/0 is the `None` case of an `Option`.
 */
module CreditCalc {
  import opened Records

  /** `x` to the natural power `n`. */
  function Pow(x: real, n: nat): real {
    if n == 0 then 1.0 else x * Pow(x, n - 1)
  }

  lemma {:induction false} PowPositive(x: real, n: nat)
    requires x > 0.0
    ensures Pow(x, n) > 0.0
  {
    if n > 0 {
      PowPositive(x, n - 1);
    }
  }

  /** A base above one raised to a positive power stays above one; a base in (0, 1) stays below. */
  lemma {:induction false} PowNotOne(x: real, n: nat)
    requires x > 0.0 && x != 1.0 && n >= 1
    ensures Pow(x, n) > 0.0 && Pow(x, n) != 1.0
    ensures x > 1.0 ==> Pow(x, n) > 1.0
    ensures x < 1.0 ==> Pow(x, n) < 1.0
  {
    PowPositive(x, n);
    if n > 1 {
      PowNotOne(x, n - 1);
      var p := Pow(x, n - 1);
      if x > 1.0 {
        assert x * p > 1.0 * p;
      } else {
        assert x * p < 1.0 * p;
      }
    }
  }

  /** The monthly rate `r = rate / 100 / 12`. */
  function MonthlyInterest(rate: real): real {
    rate / 100.0 / 12.0
  }

  /** `Math.round(x * 100) / 100`: `Math.round` rounds halves up. */
  function Round2(x: real): real {
    ((100.0 * x + 0.5).Floor as real) / 100.0
  }

  /** A whole number of cents. */
  predicate IsCents(x: real) {
    (100.0 * x).Floor as real == 100.0 * x
  }

  /** Rounding to cents lands on a cent within half a cent of `x`, and moves nothing that is already a cent. */
  lemma Round2Bounds(x: real)
    ensures IsCents(Round2(x))
    ensures x - 0.005 < Round2(x) <= x + 0.005
    ensures IsCents(x) ==> Round2(x) == x
  {
    Round2IsCents(x);
    Round2Near(x);
    if IsCents(x) {
      Round2KeepsCents(x);
    }
  }

  lemma Round2IsCents(x: real)
    ensures IsCents(Round2(x))
  {
    var k := (100.0 * x + 0.5).Floor;
    var y := Round2(x);
    assert y == k as real / 100.0;
    assert 100.0 * y == k as real;
    assert (k as real).Floor == k;
  }

  lemma Round2Near(x: real)
    ensures x - 0.005 < Round2(x) <= x + 0.005
  {
    var k := (100.0 * x + 0.5).Floor;
    assert k as real <= 100.0 * x + 0.5 < k as real + 1.0;
  }

  lemma Round2KeepsCents(x: real)
    requires IsCents(x)
    ensures Round2(x) == x
  {
    var j := (100.0 * x).Floor;
    assert (100.0 * x + 0.5).Floor == j;
  }

  /** `1 − 1/x` for x = (1+r)^n: never zero, and (1 − 1/x)·x = x − 1. */
  lemma Reciprocal(x: real)
    requires x > 0.0 && x != 1.0
    ensures 1.0 - 1.0 / x != 0.0
    ensures (1.0 - 1.0 / x) * x == x - 1.0
    ensures x > 1.0 ==> 1.0 - 1.0 / x > 0.0
  {
    assert (1.0 / x) * x == 1.0;
  }

  /**
   * The denominator `1 − (1+r)^−n`. For a negative term the power has the
   * positive exponent −n, so the denominator changes sign.
   */
  function Discount(r: real, n: int): (d: real)
    requires n != 0 && r != 0.0 && r > -1.0
    ensures d != 0.0
    ensures n >= 1 ==> d * Pow(1.0 + r, n) == Pow(1.0 + r, n) - 1.0
    ensures n >= 1 && r > 0.0 ==> d > 0.0
    ensures n < 0 && r > 0.0 ==> d < 0.0
  {
    if n >= 1 then
      PowNotOne(1.0 + r, n);
      Reciprocal(Pow(1.0 + r, n));
      1.0 - 1.0 / Pow(1.0 + r, n)
    else
      PowNotOne(1.0 + r, -n);
      1.0 - Pow(1.0 + r, -n)
  }

  /** The unrounded payment `P·r / (1 − (1+r)^−n)`. */
  function Payment(principal: real, n: int, r: real): real
    requires n != 0 && r != 0.0 && r > -1.0
  {
    principal * r / Discount(r, n)
  }

  /** A negative term gives a negative monthly payment at a positive rate. */
  lemma NegativeTermPayment(principal: real, n: int, r: real)
    requires n < 0 && r > 0.0 && principal > 0.0
    ensures Payment(principal, n, r) < 0.0
  {
    var d := Discount(r, n);
    assert principal * r > 0.0 by {
      MulPos(principal, r);
    }
    assert (principal * r / d) * d == principal * r;
  }

  /**
   * The payment solves the annuity equation m·(1 − (1+r)^−n) = P·r, and it
   * is the only value that does.
   */
  lemma AnnuityEquation(principal: real, n: int, r: real, m: real)
    requires n != 0 && r != 0.0 && r > -1.0
    ensures Payment(principal, n, r) * Discount(r, n) == principal * r
    ensures m * Discount(r, n) == principal * r ==> m == Payment(principal, n, r)
  {
    var d := Discount(r, n);
    assert (principal * r / d) * d == principal * r;
  }

  /** m·((1+r)^n − 1) = P·r·(1+r)^n */
  lemma PaymentTimesGrowth(principal: real, n: nat, r: real)
    requires n >= 1 && r != 0.0 && r > -1.0
    ensures Payment(principal, n, r) * (Pow(1.0 + r, n) - 1.0) == principal * r * Pow(1.0 + r, n)
  {
    var d, x, m := Discount(r, n), Pow(1.0 + r, n), Payment(principal, n, r);
    AnnuityEquation(principal, n, r, m);
    calc {
      m * (x - 1.0);
      m * (d * x);
      (m * d) * x;
      principal * r * x;
    }
  }

  /** The loan balance after `k` monthly payments of `m`: interest is added, then the payment subtracted. */
  function Balance(principal: real, r: real, m: real, k: nat): real {
    if k == 0 then principal else Balance(principal, r, m, k - 1) * (1.0 + r) - m
  }

  /** r·B(k) = r·P·(1+r)^k − m·((1+r)^k − 1) */
  lemma {:induction false} BalanceClosedForm(principal: real, r: real, m: real, k: nat)
    ensures r * Balance(principal, r, m, k) == r * principal * Pow(1.0 + r, k) - m * (Pow(1.0 + r, k) - 1.0)
  {
    if k > 0 {
      BalanceClosedForm(principal, r, m, k - 1);
      var b, p := Balance(principal, r, m, k - 1), Pow(1.0 + r, k - 1);
      calc {
        r * Balance(principal, r, m, k);
        r * (b * (1.0 + r) - m);
        (r * b) * (1.0 + r) - r * m;
        (r * principal * p - m * (p - 1.0)) * (1.0 + r) - r * m;
        r * principal * ((1.0 + r) * p) - m * ((1.0 + r) * p - 1.0);
      }
    }
  }

  /** Paying the computed amount every month leaves nothing owed after exactly `n` months. */
  lemma PaysOff(principal: real, n: nat, r: real)
    requires n >= 1 && r != 0.0 && r > -1.0
    ensures Balance(principal, r, Payment(principal, n, r), n) == 0.0
  {
    var m := Payment(principal, n, r);
    PaymentTimesGrowth(principal, n, r);
    BalanceClosedForm(principal, r, m, n);
    assert r * Balance(principal, r, m, n) == 0.0;
  }

  lemma MulPos(a: real, b: real)
    requires a > 0.0 && b > 0.0
    ensures a * b > 0.0
  {
  }

  lemma PositiveFactor(a: real, b: real)
    requires a * b > 0.0 && b > 0.0
    ensures a > 0.0
  {
  }

  lemma GrowthStep(r: real, p: real, k: real)
    requires r > 0.0 && p > 0.0 && k >= 0.0 && p - 1.0 <= k * (r * p)
    ensures (1.0 + r) * p - 1.0 < (k + 1.0) * (r * ((1.0 + r) * p))
  {
    var q := r * p;
    MulPos(r, q);
    MulPos(k + 1.0, r * q);
    assert (1.0 + r) * p == p + q;
    assert r * ((1.0 + r) * p) == q + r * q;
    assert (k + 1.0) * (q + r * q) == (k + 1.0) * q + (k + 1.0) * (r * q);
  }

  /** (1+r)^n − 1 < n·r·(1+r)^n for r > 0 and n ≥ 1 */
  lemma {:induction false} PowGrowth(r: real, n: nat)
    requires r > 0.0
    ensures Pow(1.0 + r, n) - 1.0 <= (n as real) * (r * Pow(1.0 + r, n))
    ensures n >= 1 ==> Pow(1.0 + r, n) - 1.0 < (n as real) * (r * Pow(1.0 + r, n))
  {
    if n > 0 {
      PowGrowth(r, n - 1);
      PowPositive(1.0 + r, n - 1);
      GrowthStep(r, Pow(1.0 + r, n - 1), (n - 1) as real);
    }
  }

  lemma InterestAlgebra(principal: real, r: real, k: real, x: real, m: real)
    requires principal > 0.0 && x > 1.0
    requires m * (x - 1.0) == principal * r * x && x - 1.0 < k * (r * x)
    ensures m * k - principal > 0.0
  {
    MulPos(principal, k * (r * x) - (x - 1.0));
    assert (m * k - principal) * (x - 1.0) == principal * (k * (r * x) - (x - 1.0));
    PositiveFactor(m * k - principal, x - 1.0);
  }

  /** At a positive rate the borrower pays back more than was lent: the interest is positive. */
  lemma InterestPositive(principal: real, n: nat, r: real)
    requires n >= 1 && r > 0.0 && principal > 0.0
    ensures Payment(principal, n, r) * (n as real) - principal > 0.0
  {
    PowNotOne(1.0 + r, n);
    PowGrowth(r, n);
    PaymentTimesGrowth(principal, n, r);
    InterestAlgebra(principal, r, n as real, Pow(1.0 + r, n), Payment(principal, n, r));
  }

  datatype CreditDetails = CreditDetails(monthlyRate: real, totalInterest: real)

  /**
   * The formula as written. With r = 0 numerator and denominator are both
   * zero and the payment is NaN. With a term of 0 the denominator
   * `1 − (1+r)^0` is zero: the payment is an infinity (NaN for a zero
   * amount) and the interest `∞·0 − P` is NaN. `None` stands for these
   * results that are not finite numbers. Otherwise, negative terms
   * included, the payment and the interest, each rounded to cents.
   */
  function CalculateCreditDetails(totalAmount: real, termMonths: int, effectiveInterestRate: real): (d: Option<CreditDetails>)
    requires MonthlyInterest(effectiveInterestRate) > -1.0
    ensures d.None? <==> effectiveInterestRate == 0.0 || termMonths == 0
    ensures d.Some? ==> var m := Payment(totalAmount, termMonths, MonthlyInterest(effectiveInterestRate));
      && IsCents(d.value.monthlyRate) && m - 0.005 < d.value.monthlyRate <= m + 0.005
      && IsCents(d.value.totalInterest)
      && var i := m * (termMonths as real) - totalAmount;
         i - 0.005 < d.value.totalInterest <= i + 0.005
  {
    var r := MonthlyInterest(effectiveInterestRate);
    if r == 0.0 || termMonths == 0 then None
    else
      var m := Payment(totalAmount, termMonths, r);
      Round2Bounds(m);
      Round2Bounds(m * (termMonths as real) - totalAmount);
      Some(CreditDetails(Round2(m), Round2(m * (termMonths as real) - totalAmount)))
  }

  /** What the credit form checks before computing: three non-empty strings (a non-empty string is truthy). */
  predicate FormFilled(totalAmount: string, termMonths: string, effectiveInterestRate: string) {
    totalAmount != "" && termMonths != "" && effectiveInterestRate != ""
  }

  /** The form's guard lets the rate "0" through, and the formula then yields NaN. */
  lemma ZeroRateReachesNaN()
    ensures FormFilled("10000", "12", "0")
    ensures CalculateCreditDetails(10000.0, 12, 0.0).None?
  {
  }

  /** The term "0" passes the same guard, and the formula then has no finite value. */
  lemma ZeroTermReachesNaN()
    ensures FormFilled("10000", "0", "5")
    ensures CalculateCreditDetails(10000.0, 0, 5.0).None?
  {
  }

  /**
   * The formula with the zero-rate case it lacks: at r = 0 the payment is
   * the principal spread evenly and there is no interest. A term of 0
   * still has no value.
   */
  function CalculateCreditDetailsSafe(totalAmount: real, termMonths: int, effectiveInterestRate: real): (d: Option<CreditDetails>)
    requires MonthlyInterest(effectiveInterestRate) > -1.0
    ensures d.None? <==> termMonths == 0
    ensures effectiveInterestRate != 0.0 ==>
      d == CalculateCreditDetails(totalAmount, termMonths, effectiveInterestRate)
    ensures effectiveInterestRate == 0.0 && d.Some? ==>
      var m := totalAmount / (termMonths as real);
      && m * (termMonths as real) == totalAmount
      && IsCents(d.value.monthlyRate) && m - 0.005 < d.value.monthlyRate <= m + 0.005
      && d.value.totalInterest == 0.0
  {
    var r := MonthlyInterest(effectiveInterestRate);
    if termMonths == 0 then None
    else if r == 0.0 then
      var m := totalAmount / (termMonths as real);
      Round2Bounds(m);
      Round2Bounds(0.0);
      Some(CreditDetails(Round2(m), Round2(m * (termMonths as real) - totalAmount)))
    else
      CalculateCreditDetails(totalAmount, termMonths, effectiveInterestRate)
  }

  /** The monthly payment that clears a loan of `principal` in `n` months at the monthly rate `r`. */
  function PayoffRate(principal: real, n: nat, r: real): real
    requires n >= 1 && r > -1.0
  {
    if r == 0.0 then principal / (n as real) else Payment(principal, n, r)
  }

  /**
   * The preview the credit form should show: details only for a term of at
   * least one month, and then a monthly rate within half a cent of the
   * payment that clears the loan in exactly that many months.
   */
  function CreditPreview(totalAmount: real, termMonths: int, effectiveInterestRate: real): (d: Option<CreditDetails>)
    requires MonthlyInterest(effectiveInterestRate) > -1.0
    ensures d.Some? <==> termMonths >= 1
    ensures d.Some? ==>
      var r := MonthlyInterest(effectiveInterestRate);
      var m := PayoffRate(totalAmount, termMonths, r);
      && Balance(totalAmount, r, m, termMonths) == 0.0
      && IsCents(d.value.monthlyRate) && m - 0.005 < d.value.monthlyRate <= m + 0.005
      && IsCents(d.value.totalInterest)
  {
    if termMonths < 1 then None
    else
      var r := MonthlyInterest(effectiveInterestRate);
      var d := CalculateCreditDetailsSafe(totalAmount, termMonths, effectiveInterestRate);
      if r == 0.0 then
        ZeroRatePaysOff(totalAmount, termMonths);
        d
      else
        PaysOff(totalAmount, termMonths, r);
        d
  }

  /** With no interest, the even payment also pays the loan off in `n` months. */
  lemma ZeroRatePaysOff(principal: real, n: nat)
    requires n >= 1
    ensures Balance(principal, 0.0, principal / (n as real), n) == 0.0
  {
    ZeroRateBalance(principal, principal / (n as real), n);
  }

  lemma {:induction false} ZeroRateBalance(principal: real, m: real, k: nat)
    ensures Balance(principal, 0.0, m, k) == principal - (k as real) * m
  {
    if k > 0 {
      ZeroRateBalance(principal, m, k - 1);
    }
  }
}
