/**
 * The EIBOR dashboard: the daily-change indicator, the static rate table
 * with its highlighted 3-month row, and the interest estimator fed by it.
 */
module EiborDashboard {
  import opened Wrappers
  import opened Annuity

  // ---------------------------------------------------------------------
  // Fixed-point formatting (`Number.prototype.toFixed(4)`)
  // ---------------------------------------------------------------------

  /** The decimal digit for `d`. */
  function DigitChar(d: nat): char
    requires d < 10
  {
    ('0' as int + d) as char
  }

  /** The value of a decimal digit character. */
  function DigitValue(c: char): nat {
    if '0' <= c <= '9' then (c - '0') as nat else 0
  }

  /** Whether `c` is a decimal digit. */
  predicate IsDigit(c: char) {
    '0' <= c <= '9'
  }

  /** The decimal numeral of `n`, without leading zeros. */
  function NatToString(n: nat): (s: string)
    ensures |s| >= 1
    ensures forall i :: 0 <= i < |s| ==> IsDigit(s[i])
    ensures s[0] == '0' <==> n == 0
  {
    if n < 10 then [DigitChar(n)] else NatToString(n / 10) + [DigitChar(n % 10)]
  }

  /** The number a string of decimal digits denotes. */
  function ParseNat(s: string): nat {
    if s == [] then 0 else ParseNat(s[..|s| - 1]) * 10 + DigitValue(s[|s| - 1])
  }

  /** Reading a numeral back gives the number it was written from. */
  lemma {:induction false} ParseNatToString(n: nat)
    ensures ParseNat(NatToString(n)) == n
  {
    if n >= 10 {
      var s := NatToString(n);
      assert s[..|s| - 1] == NatToString(n / 10);
      assert DigitValue(s[|s| - 1]) == n % 10;
      ParseNatToString(n / 10);
    }
  }

  /** `k` zero digits. */
  function Zeros(k: nat): (z: string)
    ensures |z| == k
    ensures forall i :: 0 <= i < k ==> z[i] == '0'
  {
    if k == 0 then [] else Zeros(k - 1) + "0"
  }

  /** A run of zeros denotes 0. */
  lemma {:induction false} ParseZeros(k: nat)
    ensures ParseNat(Zeros(k)) == 0
  {
    if k > 0 {
      assert Zeros(k)[..k - 1] == Zeros(k - 1);
      ParseZeros(k - 1);
    }
  }

  /** `10^k`. */
  function Pow10(k: nat): nat {
    if k == 0 then 1 else 10 * Pow10(k - 1)
  }

  /**
   * The digits of `n` padded to at least five, so that the last four are
   * the fraction: the numeral `toFixed(4)` splits at its decimal point.
   */
  function Padded(n: nat): (m: string)
    ensures |m| >= 5
    ensures ParseNat(m) == n
    ensures forall i :: 0 <= i < |m| ==> IsDigit(m[i])
    ensures |m| > 5 ==> m[0] != '0'
  {
    var digits := NatToString(n);
    if |digits| <= 4 then
      var z := Zeros(5 - |digits|);
      ZerosBefore(5 - |digits|, n);
      assert forall i :: 0 <= i < |z| ==> (z + digits)[i] == z[i];
      assert forall i :: |z| <= i < |z| + |digits| ==> (z + digits)[i] == digits[i - |z|];
      z + digits
    else
      ParseNatToString(n);
      digits
  }

  /** Leading zeros do not change the number a numeral denotes. */
  lemma ZerosBefore(k: nat, n: nat)
    ensures ParseNat(Zeros(k) + NatToString(n)) == n
  {
    ParseNatToString(n);
    ParseZeros(k);
    ParseNatSplit(Zeros(k), NatToString(n));
    ZeroTimes(ParseNat(Zeros(k)), Pow10(|NatToString(n)|));
  }

  /** Zero times anything is zero. */
  lemma ZeroTimes(z: int, p: int)
    requires z == 0
    ensures z * p == 0
  {
  }

  /**
   * The text `toFixed(4)` writes for a magnitude: the magnitude scaled by
   * 10^4 and rounded half up, its digits with a point before the last four.
   */
  function FixedMagnitude(magnitude: real): (body: string)
    requires magnitude >= 0.0
    ensures |body| >= 6 && body[|body| - 5] == '.'
    ensures forall i :: 0 <= i < |body| && i != |body| - 5 ==> IsDigit(body[i])
    ensures |body| > 6 ==> body[0] != '0'
  {
    var n := (magnitude * 10000.0 + 0.5).Floor;
    assert n >= 0;
    var m := Padded(n as nat);
    var body := WithPoint(m);
    assert forall i :: 0 <= i < |body| - 5 ==> body[i] == m[i];
    assert forall i :: |body| - 4 <= i < |body| ==> body[i] == m[i - 1];
    body
  }

  /**
   * `x.toFixed(4)`: a minus sign when `x` is negative, then the magnitude's
   * text. The whole part has at least one digit and no leading zero.
   */
  function ToFixed4(x: real): (s: string)
    ensures x < 0.0 <==> |s| > 0 && s[0] == '-'
    ensures |s| >= 6 && s[|s| - 5] == '.'
    ensures x >= 0.0 ==> IsDigit(s[0])
    ensures forall i :: |s| - 4 <= i < |s| ==> IsDigit(s[i])
    ensures forall i :: (if x < 0.0 then 1 else 0) <= i < |s| - 5 ==> IsDigit(s[i])
    ensures (if x < 0.0 then 1 else 0) < |s| - 5
    ensures var w := if x < 0.0 then 1 else 0; w + 1 < |s| - 5 ==> s[w] != '0'
  {
    if x < 0.0 then "-" + FixedMagnitude(-x) else FixedMagnitude(x)
  }

  /** A negative value is formatted as a minus sign before its magnitude's text. */
  lemma ToFixed4Negative(x: real)
    requires x < 0.0
    ensures ToFixed4(x) == "-" + ToFixed4(-x)
  {
  }

  /** A numeral with a decimal point put before its last four digits. */
  function WithPoint(m: string): (s: string)
    requires |m| >= 5
    ensures |s| == |m| + 1
    ensures s[..|s| - 5] == m[..|m| - 4]
    ensures s[|s| - 5] == '.'
    ensures s[|s| - 4..] == m[|m| - 4..]
  {
    m[..|m| - 4] + "." + m[|m| - 4..]
  }

  /** The digits of a formatted magnitude denote it rounded to four decimals. */
  lemma ToFixed4Value(x: real)
    requires x >= 0.0
    ensures var s := ToFixed4(x);
      ParseNat(s[..|s| - 5]) * 10000 + ParseNat(s[|s| - 4..]) == (x * 10000.0 + 0.5).Floor
  {
    var m := Padded((x * 10000.0 + 0.5).Floor as nat);
    FormattedMagnitude(x);
    PointedValue(m);
  }

  /** A magnitude is formatted as its rounded, padded digits with the point inserted. */
  lemma FormattedMagnitude(x: real)
    requires x >= 0.0
    ensures ToFixed4(x) == WithPoint(Padded((x * 10000.0 + 0.5).Floor as nat))
  {
  }

  /** The digits on both sides of the point denote the numeral, the whole part scaled by 10^4. */
  lemma PointedValue(m: string)
    requires |m| >= 5
    ensures var s := WithPoint(m);
      ParseNat(s[..|s| - 5]) * 10000 + ParseNat(s[|s| - 4..]) == ParseNat(m)
  {
    var whole, fraction := m[..|m| - 4], m[|m| - 4..];
    assert m == whole + fraction;
    ParseNatSplit(whole, fraction);
    assert Pow10(|fraction|) == 10 * Pow10(3) == 10000;
  }

  /** Appending a digit to both the whole numeral and its tail shifts the head once more. */
  lemma ShiftDigit(x: int, p: int, y: int, d: int, q: int)
    requires q == x * p + y
    ensures q * 10 + d == x * (10 * p) + (y * 10 + d)
  {
  }

  /** A numeral read in two parts: the head shifted by the tail's length, plus the tail. */
  lemma {:induction false} ParseNatSplit(a: string, b: string)
    ensures ParseNat(a + b) == ParseNat(a) * Pow10(|b|) + ParseNat(b)
  {
    if b != [] {
      var c := b[..|b| - 1];
      var d := DigitValue(b[|b| - 1]);
      assert (a + b)[..|a + b| - 1] == a + c;
      assert (a + b)[|a + b| - 1] == b[|b| - 1];
      var q := ParseNat(a + c);
      assert ParseNat(a + b) == q * 10 + d;
      ParseNatSplit(a, c);
      var x, p, y := ParseNat(a), Pow10(|c|), ParseNat(c);
      assert ParseNat(b) == y * 10 + d;
      assert Pow10(|b|) == 10 * p;
      ShiftDigit(x, p, y, d, q);
    } else {
      assert a + b == a;
    }
  }

  // ---------------------------------------------------------------------
  // Daily-change indicator
  // ---------------------------------------------------------------------

  /** The three looks of the change cell: flat, up with a plus, down with the value's own sign. */
  datatype Indicator = Flat(text: string) | Up(text: string) | Down(text: string)

  /** `ChangeIndicator`: zero is flat, a rise is shown with a plus, a fall as formatted. */
  function ChangeIndicator(change: real): (ind: Indicator)
    ensures ind.Flat? <==> change == 0.0
    ensures ind.Up? <==> change > 0.0
    ensures ind.Down? <==> change < 0.0
    ensures ind.Flat? ==> ind.text == "0.0000"
    ensures ind.Up? ==> |ind.text| >= 7 && ind.text[0] == '+' && IsDigit(ind.text[1])
    ensures ind.Down? ==> |ind.text| >= 7 && ind.text[0] == '-'
    ensures !ind.Flat? ==> ind.text[|ind.text| - 5] == '.'
    ensures ind.Up? ==> ind.text[1..] == ToFixed4(change)
    ensures ind.Down? ==> ind.text[1..] == ToFixed4(-change)
  {
    if change == 0.0 then Flat("0.0000")
    else if change > 0.0 then Up("+" + ToFixed4(change))
    else
      ToFixed4Negative(change);
      Down(ToFixed4(change))
  }

  // ---------------------------------------------------------------------
  // The rate table and the estimator
  // ---------------------------------------------------------------------

  /** One row of the dashboard's rate table. */
  datatype TableRate = TableRate(tenor: string, rate: real, change: real, highlighted: bool)

  /** The static rates the dashboard shows. */
  const Table: seq<TableRate> := [
    TableRate("Overnight", 5.2400, 0.0000, false),
    TableRate("1 Month", 5.1250, -0.0050, false),
    TableRate("3 Month", 4.9310, -0.0120, true),
    TableRate("6 Month", 4.7680, 0.0030, false),
    TableRate("1 Year", 4.6150, -0.0080, false)]

  /** The rate of the first highlighted row (`find(r => r.highlighted)?.rate`). */
  function HighlightedRate(rows: seq<TableRate>): (r: Option<real>)
    ensures r.None? <==> forall i :: 0 <= i < |rows| ==> !rows[i].highlighted
    ensures r.Some? ==>
      exists i :: (0 <= i < |rows| && rows[i].highlighted && rows[i].rate == r.value &&
                   forall j :: 0 <= j < i ==> !rows[j].highlighted)
  {
    if rows == [] then None
    else if rows[0].highlighted then Some(rows[0].rate)
    else
      var r := HighlightedRate(rows[1..]);
      assert forall i :: 1 <= i < |rows| ==> rows[1..][i - 1] == rows[i];
      r
  }

  /** `threeMonthRate`: the highlighted rate, or 4.931 when no row is highlighted. */
  function ThreeMonthRate(): real {
    HighlightedRate(Table).GetOr(4.931)
  }

  /** Exactly one row is highlighted, the 3-month one, so the estimator's base rate is 4.931. */
  lemma ThreeMonthRateIsHighlighted()
    ensures forall i :: 0 <= i < |Table| ==> (Table[i].highlighted <==> i == 2)
    ensures Table[2].tenor == "3 Month"
    ensures ThreeMonthRate() == Table[2].rate == 4.931
  {
    assert !Table[0].highlighted && !Table[1].highlighted && Table[2].highlighted;
  }

  /** The estimator's term: always twelve months. */
  const EstimatorMonths: nat := 12

  /**
   * The estimator: an unreadable or zero amount or spread counts as 0;
   * without a positive amount and rate there is no estimate, otherwise
   * the annuity instalment over twelve months.
   */
  function InterestEstimate(baseRate: real, loanAmount: Option<real>, spread: Option<real>): (e: Estimate)
    ensures e.monthly > 0.0 <==> loanAmount.GetOr(0.0) > 0.0 && baseRate + spread.GetOr(0.0) > 0.0
    ensures e.monthly <= 0.0 ==> e == NoEstimate
    ensures e.monthly > 0.0 ==> e.totalRate == baseRate + spread.GetOr(0.0)
  {
    var principal := loanAmount.GetOr(0.0);
    var totalRate := baseRate + spread.GetOr(0.0);
    var monthlyRate := totalRate / 100.0 / 12.0;
    if principal <= 0.0 || monthlyRate <= 0.0 then NoEstimate
    else Estimate(Payment(principal, monthlyRate, EstimatorMonths), totalRate)
  }

  /** A shown estimate repays the loan amount in twelve instalments. */
  lemma InterestEstimateRepays(baseRate: real, loanAmount: Option<real>, spread: Option<real>)
    requires InterestEstimate(baseRate, loanAmount, spread).monthly > 0.0
    ensures var e := InterestEstimate(baseRate, loanAmount, spread);
      Balance(loanAmount.value, e.totalRate / 1200.0, e.monthly, EstimatorMonths) == 0.0
  {
    var totalRate := baseRate + spread.GetOr(0.0);
    assert totalRate / 100.0 / 12.0 == totalRate / 1200.0;
    Amortises(loanAmount.value, totalRate / 1200.0, EstimatorMonths);
  }
}
