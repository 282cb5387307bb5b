/**
 * The equal-instalment (annuity) payment both loan estimators use:
 * `P * r * (1 + r)^n / ((1 + r)^n - 1)` for a monthly rate `r` over `n`
 * months, with the proof that those `n` payments repay the principal.
 */
module Annuity {

  /** `x^n` for a whole exponent (`Math.pow` with an integer power). */
  function Pow(x: real, n: nat): real {
    if n == 0 then 1.0 else x * Pow(x, n - 1)
  }

  /** Every power of a base above one is at least one, and above one for a positive exponent. */
  lemma {:induction false} PowAboveOne(x: real, n: nat)
    requires x > 1.0
    ensures Pow(x, n) >= 1.0
    ensures n >= 1 ==> Pow(x, n) > 1.0
  {
    if n > 0 {
      PowAboveOne(x, n - 1);
      assert x * Pow(x, n - 1) >= Pow(x, n - 1);
    }
  }

  /** What an estimator shows: the monthly payment and the yearly rate in percent. */
  datatype Estimate = Estimate(monthly: real, totalRate: real)

  /** The estimate the calculators fall back to when an input rules the formula out. */
  const NoEstimate := Estimate(0.0, 0.0)

  /** The monthly payment that repays `principal` at monthly rate `r` in `n` equal instalments. */
  function Payment(principal: real, r: real, n: nat): (pay: real)
    requires r > 0.0 && n >= 1
    ensures pay * (Pow(1.0 + r, n) - 1.0) == principal * r * Pow(1.0 + r, n)
    ensures principal > 0.0 ==> pay > 0.0
  {
    PowAboveOne(1.0 + r, n);
    var q := Pow(1.0 + r, n);
    assert q - 1.0 > 0.0;
    assert principal > 0.0 ==> principal * r * q > 0.0;
    assert principal * r * q / (q - 1.0) * (q - 1.0) == principal * r * q;
    principal * r * q / (q - 1.0)
  }

  /** The outstanding balance after `k` months: interest accrues, then the instalment is paid. */
  function Balance(principal: real, r: real, pay: real, k: nat): real {
    if k == 0 then principal else Balance(principal, r, pay, k - 1) * (1.0 + r) - pay
  }

  /**
   * One month of the closed form: if it holds for balance `b` after
   * growth `p`, it holds for the next balance `bk` after growth `q`.
   */
  lemma ClosedFormStep(principal: real, r: real, pay: real, p: real, b: real, q: real, bk: real)
    requires r * b == r * principal * p - pay * (p - 1.0)
    requires bk == b * (1.0 + r) - pay && q == (1.0 + r) * p
    ensures r * bk == r * principal * q - pay * (q - 1.0)
  {
    calc {
      r * bk;
      (r * b) * (1.0 + r) - r * pay;
      (r * principal * p - pay * (p - 1.0)) * (1.0 + r) - r * pay;
      (r * principal * p) * (1.0 + r) - pay * ((p - 1.0) * (1.0 + r)) - r * pay;
      { assert (p - 1.0) * (1.0 + r) == q - 1.0 - r; }
      (r * principal * p) * (1.0 + r) - pay * (q - 1.0 - r) - r * pay;
      r * principal * q - pay * (q - 1.0);
    }
  }

  /**
   * The balance in closed form, scaled by the rate: the grown principal
   * less the grown instalments, `r * B(k) == r * P * q^k - pay * (q^k - 1)`.
   */
  lemma {:induction false} BalanceClosedForm(principal: real, r: real, pay: real, k: nat)
    ensures r * Balance(principal, r, pay, k) == r * principal * Pow(1.0 + r, k) - pay * (Pow(1.0 + r, k) - 1.0)
  {
    if k > 0 {
      BalanceClosedForm(principal, r, pay, k - 1);
      ClosedFormNext(principal, r, pay, k);
    }
  }

  /** The closed form carries over from one month to the next. */
  lemma ClosedFormNext(principal: real, r: real, pay: real, k: nat)
    requires k > 0
    requires r * Balance(principal, r, pay, k - 1) ==
      r * principal * Pow(1.0 + r, k - 1) - pay * (Pow(1.0 + r, k - 1) - 1.0)
    ensures r * Balance(principal, r, pay, k) == r * principal * Pow(1.0 + r, k) - pay * (Pow(1.0 + r, k) - 1.0)
  {
    var p, b := Pow(1.0 + r, k - 1), Balance(principal, r, pay, k - 1);
    var q, bk := Pow(1.0 + r, k), Balance(principal, r, pay, k);
    assert q == (1.0 + r) * p;
    assert bk == b * (1.0 + r) - pay;
    ClosedFormStep(principal, r, pay, p, b, q, bk);
  }

  /** Arithmetic of the last month: the annuity instalment cancels the grown principal exactly. */
  lemma NothingOwed(principal: real, r: real, q: real, pay: real, b: real)
    requires r > 0.0
    requires pay * (q - 1.0) == principal * r * q
    requires r * b == r * principal * q - pay * (q - 1.0)
    ensures b == 0.0
  {
    assert r * b == 0.0;
  }

  /** Paying the annuity instalment every month leaves nothing owed after the last month. */
  lemma Amortises(principal: real, r: real, n: nat)
    requires r > 0.0 && n >= 1
    ensures Balance(principal, r, Payment(principal, r, n), n) == 0.0
  {
    var pay := Payment(principal, r, n);
    BalanceClosedForm(principal, r, pay, n);
    NothingOwed(principal, r, Pow(1.0 + r, n), pay, Balance(principal, r, pay, n));
  }

  /** Paying less each month never leaves less owed, and after a month leaves strictly more. */
  lemma {:induction false} BalanceAntitone(principal: real, r: real, pay: real, more: real, k: nat)
    requires r > 0.0 && pay <= more
    ensures Balance(principal, r, pay, k) >= Balance(principal, r, more, k)
    ensures k >= 1 && pay < more ==> Balance(principal, r, pay, k) > Balance(principal, r, more, k)
  {
    if k > 0 {
      BalanceAntitone(principal, r, pay, more, k - 1);
      var x := Balance(principal, r, pay, k - 1);
      var y := Balance(principal, r, more, k - 1);
      assert (x - y) * (1.0 + r) >= 0.0;
    }
  }

  /** An instalment under the annuity payment leaves a balance after the last month. */
  lemma SmallerPaymentLeavesDebt(principal: real, r: real, n: nat, pay: real)
    requires r > 0.0 && n >= 1
    requires pay < Payment(principal, r, n)
    ensures Balance(principal, r, pay, n) > 0.0
  {
    Amortises(principal, r, n);
    BalanceAntitone(principal, r, pay, Payment(principal, r, n), n);
  }

  /** What a payment line shows: a dash, or the instalment rounded to whole dirhams. */
  datatype Shown = Dash | Amount(whole: int)

  /** A positive instalment is shown rounded half up; anything else as a dash. */
  function ShowMonthly(monthly: real): (s: Shown)
    ensures s.Dash? <==> monthly <= 0.0
    ensures s.Amount? ==> -0.5 < s.whole as real - monthly <= 0.5
  {
    if monthly > 0.0 then Amount((monthly + 0.5).Floor) else Dash
  }
}
