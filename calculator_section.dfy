/**
 * The home-page loan calculator: the eligible amount from the yearly
 * turnover, the live EIBOR rates merged over built-in defaults, and the
 * monthly-payment estimate.
 */
module CalculatorSection {
  import opened Wrappers
  import opened Annuity

  // ---------------------------------------------------------------------
  // Eligible amount
  // ---------------------------------------------------------------------

  /** The most the calculator will lend, in AED. */
  const Cap: real := 3000000.0

  /** One eighth of the yearly turnover, capped at 3,000,000 AED. */
  function EligibleAmount(turnover: real): (amount: real)
    ensures amount <= Cap && amount <= turnover / 8.0
    ensures turnover <= 24000000.0 ==> amount == turnover / 8.0
    ensures turnover >= 24000000.0 ==> amount == Cap
  {
    if turnover / 8.0 < Cap then turnover / 8.0 else Cap
  }

  /** A larger turnover never lowers the eligible amount. */
  lemma EligibleMonotone(t1: real, t2: real)
    requires t1 <= t2
    ensures EligibleAmount(t1) <= EligibleAmount(t2)
  {
  }

  // ---------------------------------------------------------------------
  // Latest rate per tenor
  // ---------------------------------------------------------------------

  /** A row of the rates query: `tenor` and `rate` (rows arrive newest first). */
  datatype RateRow = RateRow(tenor: string, rate: real)

  /** What the rates query gives back: rows, `null`, or an exception. */
  datatype RatesQuery = Threw | Answer(data: Option<seq<RateRow>>)

  /** Some row of `rows` is for tenor `t`. */
  predicate Mentions(rows: seq<RateRow>, t: string) {
    exists i :: 0 <= i < |rows| && rows[i].tenor == t
  }

  /** The rate of the first row for tenor `t` whose rate is not zero. */
  function FirstNonZero(rows: seq<RateRow>, t: string): (r: Option<real>)
    ensures r.Some? ==> r.value != 0.0
  {
    if rows == [] then None
    else if rows[0].tenor == t && rows[0].rate != 0.0 then Some(rows[0].rate)
    else FirstNonZero(rows[1..], t)
  }

  /**
   * The rates the scan keeps: for every tenor the rows mention, the first
   * non-zero rate for it, or 0 when all its rows have rate 0.
   */
  function Latest(rows: seq<RateRow>): (m: map<string, real>) {
    map t | t in (set i | 0 <= i < |rows| :: rows[i].tenor) :: FirstNonZero(rows, t).GetOr(0.0)
  }

  /** Appending a row changes the first non-zero rate only where there was none. */
  lemma {:induction false} FirstNonZeroSnoc(rows: seq<RateRow>, row: RateRow, t: string)
    ensures FirstNonZero(rows + [row], t) ==
      if FirstNonZero(rows, t).Some? then FirstNonZero(rows, t)
      else if row.tenor == t && row.rate != 0.0 then Some(row.rate)
      else None
  {
    if rows != [] {
      assert (rows + [row])[1..] == rows[1..] + [row];
      FirstNonZeroSnoc(rows[1..], row, t);
    }
  }

  /** A row whose rate is not zero and that no earlier non-zero row of its tenor precedes sets that tenor. */
  lemma {:induction false} FirstRowWins(rows: seq<RateRow>, i: nat)
    requires i < |rows| && rows[i].rate != 0.0
    requires forall j :: 0 <= j < i && rows[j].tenor == rows[i].tenor ==> rows[j].rate == 0.0
    ensures rows[i].tenor in Latest(rows) && Latest(rows)[rows[i].tenor] == rows[i].rate
  {
    FirstNonZeroAt(rows, i);
  }

  /** The first non-zero rate for a tenor is the one at its first non-zero row. */
  lemma {:induction false} FirstNonZeroAt(rows: seq<RateRow>, i: nat)
    requires i < |rows| && rows[i].rate != 0.0
    requires forall j :: 0 <= j < i && rows[j].tenor == rows[i].tenor ==> rows[j].rate == 0.0
    ensures FirstNonZero(rows, rows[i].tenor) == Some(rows[i].rate)
  {
    if i > 0 {
      forall j | 0 <= j < i - 1 && rows[1..][j].tenor == rows[1..][i - 1].tenor
        ensures rows[1..][j].rate == 0.0
      {
        assert rows[1..][j] == rows[j + 1];
      }
      FirstNonZeroAt(rows[1..], i - 1);
    }
  }

  /** A tenor whose rows all have rate 0 ends at 0: a zero never counts as set. */
  lemma {:induction false} AllZeroGivesZero(rows: seq<RateRow>, t: string)
    requires forall j :: 0 <= j < |rows| && rows[j].tenor == t ==> rows[j].rate == 0.0
    ensures FirstNonZero(rows, t) == None
  {
    if rows != [] {
      forall j | 0 <= j < |rows[1..]| && rows[1..][j].tenor == t
        ensures rows[1..][j].rate == 0.0
      {
        assert rows[1..][j] == rows[j + 1];
      }
      AllZeroGivesZero(rows[1..], t);
    }
  }

  /** A tenor with a non-zero rate is a tenor the rows mention. */
  lemma {:induction false} FirstNonZeroMentions(rows: seq<RateRow>, t: string)
    ensures FirstNonZero(rows, t).Some? ==> Mentions(rows, t)
  {
    if rows != [] && !(rows[0].tenor == t && rows[0].rate != 0.0) {
      FirstNonZeroMentions(rows[1..], t);
      if FirstNonZero(rows[1..], t).Some? {
        var i :| 0 <= i < |rows[1..]| && rows[1..][i].tenor == t;
        assert rows[i + 1].tenor == t;
      }
    }
  }

  /** Appending a row mentions its tenor besides those mentioned before. */
  lemma MentionsSnoc(rows: seq<RateRow>, row: RateRow, t: string)
    ensures Mentions(rows + [row], t) <==> Mentions(rows, t) || row.tenor == t
  {
    if Mentions(rows, t) {
      var i :| 0 <= i < |rows| && rows[i].tenor == t;
      assert (rows + [row])[i] == rows[i];
    }
    if row.tenor == t {
      assert (rows + [row])[|rows|] == row;
    }
    if Mentions(rows + [row], t) && row.tenor != t {
      var i :| 0 <= i < |rows + [row]| && (rows + [row])[i].tenor == t;
      assert rows[i] == (rows + [row])[i];
    }
  }

  /** The keys of `Latest` are the tenors the rows mention. */
  lemma LatestKeys(rows: seq<RateRow>, t: string)
    ensures t in Latest(rows) <==> Mentions(rows, t)
  {
    if Mentions(rows, t) {
      var i :| 0 <= i < |rows| && rows[i].tenor == t;
      assert t in (set i | 0 <= i < |rows| :: rows[i].tenor);
    }
  }

  /**
   * The `for` loop over the rows: a tenor's entry is written when it is
   * missing or holds 0 (`!latest[tenor]`), so the first non-zero rate per
   * tenor wins and a zero is overwritten by the rows after it.
   */
  method LatestPerTenor(rows: seq<RateRow>) returns (latest: map<string, real>)
    ensures latest == Latest(rows)
  {
    latest := map[];
    var i := 0;
    while i < |rows|
      invariant 0 <= i <= |rows|
      invariant forall t :: t in latest <==> Mentions(rows[..i], t)
      invariant forall t :: t in latest ==> latest[t] == FirstNonZero(rows[..i], t).GetOr(0.0)
    {
      var row := rows[i];
      assert rows[..i + 1] == rows[..i] + [row];
      forall t
        ensures Mentions(rows[..i + 1], t) <==> Mentions(rows[..i], t) || row.tenor == t
        ensures FirstNonZero(rows[..i], t).Some? ==> Mentions(rows[..i], t)
        ensures FirstNonZero(rows[..i + 1], t) ==
          if FirstNonZero(rows[..i], t).Some? then FirstNonZero(rows[..i], t)
          else if row.tenor == t && row.rate != 0.0 then Some(row.rate)
          else None
      {
        MentionsSnoc(rows[..i], row, t);
        FirstNonZeroSnoc(rows[..i], row, t);
        FirstNonZeroMentions(rows[..i], t);
      }
      if !(row.tenor in latest && latest[row.tenor] != 0.0) {
        latest := latest[row.tenor := row.rate];
      }
      i := i + 1;
    }
    assert rows[..i] == rows;
    forall t
      ensures t in latest <==> t in Latest(rows)
    {
      LatestKeys(rows, t);
    }
  }

  // ---------------------------------------------------------------------
  // The calculator's rates and estimate
  // ---------------------------------------------------------------------

  /** The EIBOR tenors the calculator offers. */
  datatype CalcTenor = ThreeMonth | SixMonth {
    function Key(): string {
      match this
      case ThreeMonth => "3_month"
      case SixMonth => "6_month"
    }
  }

  /** The rates shown before any data arrives. */
  const DefaultRates: map<string, real> := map["3_month" := 3.5556, "6_month" := 3.6764]

  /** The base rates the calculator holds, by tenor key. */
  class Calculator {
    var eiborRates: map<string, real>

    /** Both offered tenors always have a rate. */
    predicate Valid()
      reads this
    {
      ThreeMonth.Key() in eiborRates && SixMonth.Key() in eiborRates
    }

    constructor ()
      ensures Valid() && eiborRates == DefaultRates
    {
      eiborRates := DefaultRates;
    }

    /** The base rate for the chosen tenor. */
    function BaseRate(tenor: CalcTenor): real
      requires Valid()
      reads this
    {
      eiborRates[tenor.Key()]
    }

    /**
     * `fetchRates`: when the query gives a non-empty list, the latest rate
     * per tenor is merged over the current rates (`{...prev, ...latest}`);
     * an empty list, `null` or an exception leaves them as they were.
     */
    method FetchRates(q: RatesQuery)
      requires Valid()
      modifies this
      ensures Valid()
      ensures q.Answer? && q.data.Some? && |q.data.value| > 0 ==> eiborRates == old(eiborRates) + Latest(q.data.value)
      ensures !(q.Answer? && q.data.Some? && |q.data.value| > 0) ==> eiborRates == old(eiborRates)
    {
      if q.Answer? && q.data.Some? && |q.data.value| > 0 {
        var latest := LatestPerTenor(q.data.value);
        eiborRates := eiborRates + latest;
      }
    }
  }

  /** After a merge, a tenor the rows mention takes its scanned rate; any other keeps its rate. */
  lemma MergeTakesFetched(prev: map<string, real>, rows: seq<RateRow>, t: string)
    requires t in prev
    ensures t in prev + Latest(rows)
    ensures Mentions(rows, t) ==> (prev + Latest(rows))[t] == FirstNonZero(rows, t).GetOr(0.0)
    ensures !Mentions(rows, t) ==> (prev + Latest(rows))[t] == prev[t]
  {
    if Mentions(rows, t) {
      var i :| 0 <= i < |rows| && rows[i].tenor == t;
      assert t in Latest(rows);
    }
  }

  /** `parseFloat(spread) || 0`: an unreadable or zero spread counts as 0. */
  function SpreadOrZero(spread: Option<real>): real {
    spread.GetOr(0.0)
  }

  /** `parseInt(months) || 12`: an unreadable or zero tenure counts as 12 months. */
  function MonthsOrTwelve(months: Option<int>): (n: int)
    ensures n != 0
  {
    if months.None? || months.value == 0 then 12 else months.value
  }

  /**
   * `loanEstimate`: the yearly rate is the base rate plus the spread; when
   * the principal, the monthly rate or the tenure is not positive there is
   * no estimate, otherwise the annuity instalment over the tenure.
   */
  function LoanEstimate(principal: real, baseRate: real, spread: Option<real>, months: Option<int>): (e: Estimate)
    ensures e.monthly > 0.0 <==>
      principal > 0.0 && baseRate + SpreadOrZero(spread) > 0.0 && MonthsOrTwelve(months) > 0
    ensures e.monthly <= 0.0 ==> e == NoEstimate
    ensures e.monthly > 0.0 ==> e.totalRate == baseRate + SpreadOrZero(spread)
  {
    var totalRate := baseRate + SpreadOrZero(spread);
    var n := MonthsOrTwelve(months);
    var monthlyRate := totalRate / 100.0 / 12.0;
    if principal <= 0.0 || monthlyRate <= 0.0 || n <= 0 then NoEstimate
    else Estimate(Payment(principal, monthlyRate, n), totalRate)
  }

  /** A shown estimate repays the eligible amount in the chosen number of months. */
  lemma EstimateRepays(principal: real, baseRate: real, spread: Option<real>, months: Option<int>)
    requires LoanEstimate(principal, baseRate, spread, months).monthly > 0.0
    ensures var e := LoanEstimate(principal, baseRate, spread, months);
      Balance(principal, e.totalRate / 1200.0, e.monthly, MonthsOrTwelve(months) as nat) == 0.0
  {
    var totalRate := baseRate + SpreadOrZero(spread);
    assert totalRate / 100.0 / 12.0 == totalRate / 1200.0;
    Amortises(principal, totalRate / 1200.0, MonthsOrTwelve(months) as nat);
  }

  /** The defaults give the 3-month estimate for 5,000,000 turnover, a 2% spread and 12 months a positive instalment. */
  lemma DefaultEstimateShown()
    ensures LoanEstimate(EligibleAmount(5000000.0), DefaultRates["3_month"], Some(2.0), Some(12)).monthly > 0.0
  {
  }
}
