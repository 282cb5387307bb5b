/**
 * The EIBOR ingestion job: it takes the structured payload scraped from the
 * central bank's EIBOR page, turns it into one row per published tenor for
 * the latest date, and upserts the rows into the `eibor_rates` table, keyed
 * by `(rate_date, tenor)`.
 *
 * The scrape, the clock, the date parser and the database are not modelled:
 * the scrape's reply, today's date, a date parser and the store's own fault
 * are parameters.
 */
module EiborIngest {
  import opened Wrappers

  // ---------------------------------------------------------------------
  // Data model
  // ---------------------------------------------------------------------

  /** The six EIBOR tenors, with the canonical keys stored in the `tenor` column. */
  datatype Tenor = Overnight | OneWeek | OneMonth | ThreeMonth | SixMonth | OneYear {
    function Key(): string {
      match this
      case Overnight => "overnight"
      case OneWeek => "1_week"
      case OneMonth => "1_month"
      case ThreeMonth => "3_month"
      case SixMonth => "6_month"
      case OneYear => "1_year"
    }

    /** Position of the tenor in the fixed order the job lists them in. */
    function Index(): nat {
      match this
      case Overnight => 0
      case OneWeek => 1
      case OneMonth => 2
      case ThreeMonth => 3
      case SixMonth => 4
      case OneYear => 5
    }
  }

  /** The tenors in the job's fixed order. */
  const Tenors: seq<Tenor> := [Overnight, OneWeek, OneMonth, ThreeMonth, SixMonth, OneYear]

  /** Distinct tenors have distinct keys and distinct positions. */
  lemma TenorKeysDistinct(a: Tenor, b: Tenor)
    ensures a.Key() == b.Key() <==> a == b
    ensures a.Index() == b.Index() <==> a == b
    ensures a.Index() < 6 && Tenors[a.Index()] == a
  {
  }

  /** Each tenor sits in the fixed order at its position, and only there. */
  lemma TenorAt(a: Tenor, i: nat)
    requires i < 6
    ensures a.Index() < 6 && Tenors[a.Index()] == a
    ensures Tenors[i] == a <==> i == a.Index()
  {
  }

  /** A calendar date, stored as `YYYY-MM-DD`. */
  datatype Date = Date(year: int, month: int, day: int)

  /**
   * The JSON object the extraction service returns: the latest date as
   * free text and, per tenor, the latest and the previous rate. A missing
   * or `null` field is `None`.
   */
  datatype Extracted = Extracted(
    latestDate: Option<string>,
    overnight: Option<real>,
    oneWeek: Option<real>,
    oneMonth: Option<real>,
    threeMonths: Option<real>,
    sixMonths: Option<real>,
    oneYear: Option<real>,
    prevOvernight: Option<real>,
    prevOneWeek: Option<real>,
    prevOneMonth: Option<real>,
    prevThreeMonths: Option<real>,
    prevSixMonths: Option<real>,
    prevOneYear: Option<real>)

  /** The parsed body of the scrape reply: `data.json` and the top-level `json`. */
  datatype ScrapeBody = ScrapeBody(dataJson: Option<Extracted>, json: Option<Extracted>)

  /**
   * What the `fetch` to the extraction service gives back: a network
   * failure (the promise rejects), or a reply with its `ok` flag, its
   * status and its body, `None` when the body is not JSON.
   */
  datatype FetchResult =
    | NetworkError(message: string)
    | Reply(ok: bool, status: int, body: Option<ScrapeBody>)

  /** One tenor slot of the payload: the tenor and its latest and previous rates. */
  datatype Slot = Slot(tenor: Tenor, rate: Option<real>, prev: Option<real>)

  /** One row of the `eibor_rates` table. */
  datatype Row = Row(rateDate: Date, tenor: Tenor, rate: real, previousRate: Option<real>, dailyChange: real)

  /** The table's key: `(rate_date, tenor)`. */
  type Key = (Date, Tenor)

  function KeyOf(r: Row): Key {
    (r.rateDate, r.tenor)
  }

  /** Why a run fails; each becomes a `{success: false, error}` reply with status 500. */
  datatype Failure =
    | NotConfigured              // FIRECRAWL_API_KEY is unset or empty
    | Unreachable(message: string)   // the fetch itself rejected
    | BodyNotJson                // `scrapeResponse.json()` threw
    | ScrapeFailed(status: int)  // the extraction service answered with a non-ok status
    | NotExtracted               // no payload, or no `latest_date` in it
    | UpsertFailed(message: string)  // the database refused the batch

  /** The job's reply. */
  datatype Response =
    | Preflight                  // the CORS answer to an OPTIONS request
    | Success(date: Date, ratesCount: nat, rates: seq<Row>)
    | Failed(status: int, error: Failure)

  // ---------------------------------------------------------------------
  // From payload to batch (pure)
  // ---------------------------------------------------------------------

  /** `scrapeData?.data?.json || scrapeData?.json`: the nested payload wins when present. */
  function ExtractPayload(body: ScrapeBody): (r: Option<Extracted>)
    ensures r.Some? <==> body.dataJson.Some? || body.json.Some?
    ensures body.dataJson.Some? ==> r == body.dataJson
    ensures body.dataJson.None? ==> r == body.json
  {
    if body.dataJson.Some? then body.dataJson else body.json
  }

  /** `!extracted.latest_date` is false: the field is present and not the empty string. */
  predicate HasLatestDate(e: Extracted) {
    e.latestDate.Some? && e.latestDate.value != ""
  }

  /** `parseDate`: the parsed date when the text parses, today's date otherwise. */
  function ResolveDate(parsed: Option<Date>, today: Date): (d: Date)
    ensures parsed.Some? ==> d == parsed.value
    ensures parsed.None? ==> d == today
  {
    parsed.GetOr(today)
  }

  /** The `tenorData` table: the six slots in the fixed order. */
  function Slots(e: Extracted): (r: seq<Slot>)
    ensures |r| == 6
    ensures forall i :: 0 <= i < 6 ==> r[i].tenor == Tenors[i]
  {
    [ Slot(Overnight, e.overnight, e.prevOvernight),
      Slot(OneWeek, e.oneWeek, e.prevOneWeek),
      Slot(OneMonth, e.oneMonth, e.prevOneMonth),
      Slot(ThreeMonth, e.threeMonths, e.prevThreeMonths),
      Slot(SixMonth, e.sixMonths, e.prevSixMonths),
      Slot(OneYear, e.oneYear, e.prevOneYear) ]
  }

  /** The latest rate the payload holds for tenor `t`. */
  function LatestRate(e: Extracted, t: Tenor): Option<real> {
    Slots(e)[t.Index()].rate
  }

  /** The previous rate the payload holds for tenor `t`. */
  function PreviousRate(e: Extracted, t: Tenor): Option<real> {
    Slots(e)[t.Index()].prev
  }

  /** `x * 10^6` is a whole number: `x` has at most six decimals. */
  predicate SixDecimals(x: real) {
    (x * 1000000.0).Floor as real == x * 1000000.0
  }

  /**
   * `parseFloat(x.toFixed(6))`: `x` rounded to six decimals, halves away
   * from zero (toFixed rounds the magnitude and then puts the sign back).
   */
  function Round6(x: real): real {
    if x >= 0.0 then (x * 1000000.0 + 0.5).Floor as real / 1000000.0
    else -((-x * 1000000.0 + 0.5).Floor as real / 1000000.0)
  }

  /** Rounding half up to a whole number moves by at most a half, and not at all on whole numbers. */
  lemma RoundHalfUp(y: real)
    ensures -0.5 < (y + 0.5).Floor as real - y <= 0.5
    ensures y.Floor as real == y ==> (y + 0.5).Floor as real == y
  {
    var f := (y + 0.5).Floor;
    assert f as real <= y + 0.5 < f as real + 1.0;
    if y.Floor as real == y {
      var k := y.Floor;
      assert f <= k;
      assert f >= k;
    }
  }

  /** A whole multiple of a millionth stays one when negated. */
  lemma SixDecimalsNeg(x: real)
    requires SixDecimals(x)
    ensures SixDecimals(-x)
  {
    var k := (x * 1000000.0).Floor;
    assert -x * 1000000.0 == (-k) as real;
  }

  /** Round6 on a non-negative change: rounding half up of the scaled magnitude. */
  lemma Round6NonNegative(x: real)
    requires x >= 0.0
    ensures SixDecimals(Round6(x))
    ensures -0.0000005 <= Round6(x) - x <= 0.0000005
    ensures SixDecimals(x) ==> Round6(x) == x
    ensures Round6(x) >= 0.0
  {
    var y := x * 1000000.0;
    RoundHalfUp(y);
    var n := (y + 0.5).Floor;
    assert Round6(x) == n as real / 1000000.0;
    assert Round6(x) * 1000000.0 == n as real;
    assert n >= 0;
  }

  /**
   * The rounded change has at most six decimals, lies within half a
   * millionth of the exact one, keeps its sign and is exact when the
   * change already has six decimals.
   */
  lemma Round6Spec(x: real)
    ensures SixDecimals(Round6(x))
    ensures -0.0000005 <= Round6(x) - x <= 0.0000005
    ensures SixDecimals(x) ==> Round6(x) == x
    ensures x >= 0.0 ==> Round6(x) >= 0.0
    ensures x <= 0.0 ==> Round6(x) <= 0.0
  {
    if x >= 0.0 {
      Round6NonNegative(x);
    } else {
      Round6NonNegative(-x);
      assert Round6(x) == -Round6(-x);
      SixDecimalsNeg(Round6(-x));
      if SixDecimals(x) {
        SixDecimalsNeg(x);
      }
    }
  }

  /** Rounding treats a change and its negation alike. */
  lemma Round6Symmetric(x: real)
    ensures Round6(-x) == -Round6(x)
  {
    if x == 0.0 {
      assert (0.5).Floor == 0;
    }
  }

  /** `daily_change`: the rounded difference when a previous rate exists, else 0. */
  function DailyChange(rate: real, prev: Option<real>): (c: real)
    ensures prev.None? ==> c == 0.0
    ensures prev.Some? ==> SixDecimals(c) && -0.0000005 <= c - (rate - prev.value) <= 0.0000005
    ensures prev.Some? && SixDecimals(rate - prev.value) ==> c == rate - prev.value
  {
    if prev.Some? then
      Round6Spec(rate - prev.value);
      Round6(rate - prev.value)
    else 0.0
  }

  /** The row the job writes for one slot whose latest rate is present. */
  function ToRow(s: Slot, date: Date): (r: Row)
    requires s.rate.Some?
    ensures r.rateDate == date && r.tenor == s.tenor && r.rate == s.rate.value
    ensures r.previousRate == s.prev
    ensures r.dailyChange == DailyChange(s.rate.value, s.prev)
  {
    Row(date, s.tenor, s.rate.value, s.prev, DailyChange(s.rate.value, s.prev))
  }

  /**
   * `tenorData.filter(t => t.rate != null).map(...)`: one row per slot
   * whose latest rate is present, in slot order.
   */
  function BuildBatch(slots: seq<Slot>, date: Date): (b: seq<Row>)
    ensures |b| <= |slots|
    ensures forall k :: 0 <= k < |b| ==> b[k].rateDate == date
  {
    if slots == [] then []
    else (if slots[0].rate.Some? then [ToRow(slots[0], date)] else []) + BuildBatch(slots[1..], date)
  }

  /** Every row of a batch is the row of a present slot, and every present slot has its row. */
  lemma {:induction false} BuildBatchRows(slots: seq<Slot>, date: Date)
    ensures forall k :: 0 <= k < |BuildBatch(slots, date)| ==>
      exists i :: 0 <= i < |slots| && slots[i].rate.Some? && BuildBatch(slots, date)[k] == ToRow(slots[i], date)
    ensures forall i :: 0 <= i < |slots| && slots[i].rate.Some? ==> ToRow(slots[i], date) in BuildBatch(slots, date)
  {
    if slots != [] {
      BuildBatchRows(slots[1..], date);
      var b := BuildBatch(slots, date);
      var head := if slots[0].rate.Some? then [ToRow(slots[0], date)] else [];
      var rest := BuildBatch(slots[1..], date);
      assert b == head + rest;
      forall k | 0 <= k < |b|
        ensures exists i :: 0 <= i < |slots| && slots[i].rate.Some? && b[k] == ToRow(slots[i], date)
      {
        if k < |head| {
          assert b[k] == ToRow(slots[0], date);
        } else {
          assert b[k] == rest[k - |head|];
          var i :| 0 <= i < |slots[1..]| && slots[1..][i].rate.Some? && rest[k - |head|] == ToRow(slots[1..][i], date);
          assert slots[i + 1] == slots[1..][i];
          assert slots[i + 1].rate.Some? && b[k] == ToRow(slots[i + 1], date);
        }
      }
      forall i | 0 <= i < |slots| && slots[i].rate.Some?
        ensures ToRow(slots[i], date) in b
      {
        if i > 0 {
          assert slots[i] == slots[1..][i - 1];
          assert ToRow(slots[i], date) in rest;
        } else {
          assert ToRow(slots[i], date) in head;
        }
      }
      assert forall k :: 0 <= k < |b| ==>
        exists i :: 0 <= i < |slots| && slots[i].rate.Some? && b[k] == ToRow(slots[i], date);
    } else {
      assert |BuildBatch(slots, date)| == 0;
    }
  }

  /** The slot a batch row was made from. */
  lemma {:induction false} RowSource(slots: seq<Slot>, date: Date, k: nat) returns (i: nat)
    requires k < |BuildBatch(slots, date)|
    ensures i < |slots| && slots[i].rate.Some? && BuildBatch(slots, date)[k] == ToRow(slots[i], date)
  {
    var head := if slots[0].rate.Some? then [ToRow(slots[0], date)] else [];
    var rest := BuildBatch(slots[1..], date);
    assert BuildBatch(slots, date) == head + rest;
    if k < |head| {
      i := 0;
    } else {
      var j := RowSource(slots[1..], date, k - |head|);
      i := j + 1;
      assert slots[1..][j] == slots[i];
    }
  }

  /** Slots listed with strictly increasing tenor positions. */
  predicate InTenorOrder(slots: seq<Slot>) {
    forall i, j :: 0 <= i < j < |slots| ==> slots[i].tenor.Index() < slots[j].tenor.Index()
  }

  /** A batch built from slots in tenor order is itself in tenor order. */
  lemma {:induction false} BuildBatchOrdered(slots: seq<Slot>, date: Date)
    requires InTenorOrder(slots)
    ensures forall i, j :: 0 <= i < j < |BuildBatch(slots, date)| ==>
      BuildBatch(slots, date)[i].tenor.Index() < BuildBatch(slots, date)[j].tenor.Index()
  {
    if slots != [] {
      BuildBatchOrdered(slots[1..], date);
      var b := BuildBatch(slots, date);
      var rest := BuildBatch(slots[1..], date);
      if slots[0].rate.Some? {
        assert b == [ToRow(slots[0], date)] + rest;
        forall j | 1 <= j < |b| ensures b[0].tenor.Index() < b[j].tenor.Index() {
          assert b[j] == rest[j - 1];
          var i := RowSource(slots[1..], date, j - 1);
          assert slots[1..][i] == slots[i + 1];
        }
      } else {
        assert b == rest;
      }
    }
  }

  /** The batch the job builds from a payload, dated `date`. */
  function Batch(e: Extracted, date: Date): seq<Row> {
    BuildBatch(Slots(e), date)
  }

  /**
   * The batch has at most six rows, all dated `date`, in the fixed tenor
   * order, so no tenor appears twice.
   */
  lemma BatchShape(e: Extracted, date: Date)
    ensures |Batch(e, date)| <= 6
    ensures forall k :: 0 <= k < |Batch(e, date)| ==> Batch(e, date)[k].rateDate == date
    ensures forall i, j :: 0 <= i < j < |Batch(e, date)| ==>
      Batch(e, date)[i].tenor.Index() < Batch(e, date)[j].tenor.Index()
    ensures forall i, j :: 0 <= i < j < |Batch(e, date)| ==> Batch(e, date)[i].tenor != Batch(e, date)[j].tenor
  {
    assert InTenorOrder(Slots(e));
    BuildBatchOrdered(Slots(e), date);
  }

  /** A tenor has a row in the batch exactly when the payload's latest rate for it is present. */
  lemma BatchCoversPresentTenors(e: Extracted, date: Date, t: Tenor)
    ensures LatestRate(e, t).Some? <==> exists k :: 0 <= k < |Batch(e, date)| && Batch(e, date)[k].tenor == t
  {
    if LatestRate(e, t).Some? {
      PresentTenorHasRow(e, date, t);
    }
    if exists k :: 0 <= k < |Batch(e, date)| && Batch(e, date)[k].tenor == t {
      var k :| 0 <= k < |Batch(e, date)| && Batch(e, date)[k].tenor == t;
      RowTenorIsPresent(e, date, k);
    }
  }

  /** A tenor whose latest rate is present has its row in the batch. */
  lemma PresentTenorHasRow(e: Extracted, date: Date, t: Tenor)
    requires LatestRate(e, t).Some?
    ensures exists k :: 0 <= k < |Batch(e, date)| && Batch(e, date)[k].tenor == t
  {
    var slots := Slots(e);
    var b := Batch(e, date);
    assert b == BuildBatch(slots, date);
    BuildBatchRows(slots, date);
    TenorAt(t, 0);
    var row := ToRow(slots[t.Index()], date);
    assert row in b;
    var k :| 0 <= k < |b| && b[k] == row;
    assert b[k].tenor == t;
  }

  /** The tenor of every batch row has its latest rate present. */
  lemma RowTenorIsPresent(e: Extracted, date: Date, k: nat)
    requires k < |Batch(e, date)|
    ensures LatestRate(e, Batch(e, date)[k].tenor).Some?
  {
    var slots := Slots(e);
    var b := Batch(e, date);
    var i := RowSource(slots, date, k);
    assert b[k].tenor == Tenors[i];
    TenorAt(Tenors[i], i);
  }

  /**
   * Each row carries the payload's latest and previous rate for its tenor
   * and the daily change derived from them.
   */
  lemma BatchRowValues(e: Extracted, date: Date, k: nat)
    requires k < |Batch(e, date)|
    ensures LatestRate(e, Batch(e, date)[k].tenor) == Some(Batch(e, date)[k].rate)
    ensures Batch(e, date)[k].previousRate == PreviousRate(e, Batch(e, date)[k].tenor)
    ensures Batch(e, date)[k].dailyChange == DailyChange(Batch(e, date)[k].rate, PreviousRate(e, Batch(e, date)[k].tenor))
  {
    var slots := Slots(e);
    var i := RowSource(slots, date, k);
    TenorAt(Tenors[i], i);
  }

  /**
   * Everything the job does between the scrape and the write: check the
   * reply, pick the payload, resolve the date and build the batch.
   */
  function Prepare(reply: FetchResult, parse: string -> Option<Date>, today: Date): (r: Result<(Date, seq<Row>), Failure>)
    ensures r.Ok? <==>
      && reply.Reply? && reply.ok && reply.body.Some?
      && ExtractPayload(reply.body.value).Some?
      && HasLatestDate(ExtractPayload(reply.body.value).value)
    ensures r.Ok? ==>
      var e := ExtractPayload(reply.body.value).value;
      var parsed := parse(e.latestDate.value);
      && r.value.0 == (if parsed.Some? then parsed.value else today)
      && r.value.1 == Batch(e, r.value.0)
    ensures reply.NetworkError? ==> r == Err(Unreachable(reply.message))
    ensures reply.Reply? && reply.body.None? ==> r == Err(BodyNotJson)
    ensures reply.Reply? && reply.body.Some? && !reply.ok ==> r == Err(ScrapeFailed(reply.status))
    ensures
      && reply.Reply? && reply.body.Some? && reply.ok
      && (ExtractPayload(reply.body.value).None? || !HasLatestDate(ExtractPayload(reply.body.value).value))
      ==> r == Err(NotExtracted)
    ensures r.Err? ==> r.error.Unreachable? || r.error == BodyNotJson || r.error.ScrapeFailed? || r.error == NotExtracted
  {
    match reply
    case NetworkError(m) => Err(Unreachable(m))
    case Reply(ok, status, body) =>
      if body.None? then Err(BodyNotJson)
      else if !ok then Err(ScrapeFailed(status))
      else
        match ExtractPayload(body.value)
        case None => Err(NotExtracted)
        case Some(e) =>
          if !HasLatestDate(e) then Err(NotExtracted)
          else
            var date := ResolveDate(parse(e.latestDate.value), today);
            Ok((date, Batch(e, date)))
  }

  /** A sample payload dated "12 March 2025", with no 1-week rate and a previous 3-month rate only. */
  const MarchPayload: Extracted :=
    Extracted(Some("12 March 2025"), Some(5.24), None, Some(5.10), Some(4.93), Some(4.77), Some(4.62),
              None, None, None, Some(4.942), None, None)

  /** The sample's batch: five rows, no `1_week`, the 3-month change 4.93 - 4.942. */
  lemma MarchBatch(d: Date)
    ensures Batch(MarchPayload, d) == [
      Row(d, Overnight, 5.24, None, 0.0),
      Row(d, OneMonth, 5.10, None, 0.0),
      Row(d, ThreeMonth, 4.93, Some(4.942), -0.012),
      Row(d, SixMonth, 4.77, None, 0.0),
      Row(d, OneYear, 4.62, None, 0.0)]
  {
    assert SixDecimals(4.93 - 4.942) by {
      assert (4.93 - 4.942) * 1000000.0 == -12000.0;
    }
    assert DailyChange(4.93, Some(4.942)) == -0.012;
    var slots := Slots(MarchPayload);
    assert BuildBatch(slots[5..], d) == [Row(d, OneYear, 4.62, None, 0.0)];
    assert BuildBatch(slots[4..], d) == [Row(d, SixMonth, 4.77, None, 0.0)] + BuildBatch(slots[5..], d);
    assert BuildBatch(slots[3..], d) == [Row(d, ThreeMonth, 4.93, Some(4.942), -0.012)] + BuildBatch(slots[4..], d);
    assert BuildBatch(slots[2..], d) == [Row(d, OneMonth, 5.10, None, 0.0)] + BuildBatch(slots[3..], d);
    assert BuildBatch(slots[1..], d) == BuildBatch(slots[2..], d);
  }

  /**
   * An ok reply carrying the sample payload, whose date text parses, is
   * prepared into that date and five rows, none of them for `1_week`.
   */
  lemma TwelveMarchReply(parse: string -> Option<Date>)
    requires parse("12 March 2025") == Some(Date(2025, 3, 12))
    ensures
      var r := Prepare(Reply(true, 200, Some(ScrapeBody(Some(MarchPayload), None))), parse, Date(2026, 1, 1));
      && r.Ok? && r.value.0 == Date(2025, 3, 12)
      && |r.value.1| == 5
      && (forall k :: 0 <= k < 5 ==> r.value.1[k].tenor != OneWeek)
      && r.value.1[2] == Row(Date(2025, 3, 12), ThreeMonth, 4.93, Some(4.942), -0.012)
  {
    MarchBatch(Date(2025, 3, 12));
  }

  // ---------------------------------------------------------------------
  // The upsert into the `eibor_rates` table
  // ---------------------------------------------------------------------

  /** No two rows of a batch share a `(rate_date, tenor)` key. */
  predicate DistinctKeys(batch: seq<Row>) {
    forall i, j :: 0 <= i < j < |batch| ==> KeyOf(batch[i]) != KeyOf(batch[j])
  }

  /** The table after writing `batch` row by row into `m`, each row replacing the one under its key. */
  function Applied(m: map<Key, Row>, batch: seq<Row>): map<Key, Row> {
    if batch == [] then m
    else Applied(m, batch[..|batch| - 1])[KeyOf(batch[|batch| - 1]) := batch[|batch| - 1]]
  }

  /** The last row of `batch` with key `k`, if any. */
  function LastWithKey(batch: seq<Row>, k: Key): (r: Option<Row>)
    ensures r.Some? ==> r.value in batch && KeyOf(r.value) == k
    ensures r.None? ==> forall i :: 0 <= i < |batch| ==> KeyOf(batch[i]) != k
  {
    if batch == [] then None
    else if KeyOf(batch[|batch| - 1]) == k then Some(batch[|batch| - 1])
    else LastWithKey(batch[..|batch| - 1], k)
  }

  /**
   * After the write, a key written by the batch holds the batch's last row
   * for it; every other key is exactly as before.
   */
  lemma {:induction false} AppliedAt(m: map<Key, Row>, batch: seq<Row>, k: Key)
    ensures LastWithKey(batch, k).Some? ==> k in Applied(m, batch) && Applied(m, batch)[k] == LastWithKey(batch, k).value
    ensures LastWithKey(batch, k).None? ==> (k in Applied(m, batch) <==> k in m)
    ensures LastWithKey(batch, k).None? && k in m ==> Applied(m, batch)[k] == m[k]
  {
    if batch != [] {
      AppliedAt(m, batch[..|batch| - 1], k);
    }
  }

  /** In a batch without repeated keys, each row is the last (and only) one with its key. */
  lemma {:induction false} LastWithKeyDistinct(batch: seq<Row>, i: nat)
    requires DistinctKeys(batch) && i < |batch|
    ensures LastWithKey(batch, KeyOf(batch[i])) == Some(batch[i])
  {
    var n := |batch| - 1;
    if i < n {
      assert KeyOf(batch[i]) != KeyOf(batch[n]);
      assert batch[..n][i] == batch[i];
      LastWithKeyDistinct(batch[..n], i);
    }
  }

  /**
   * Upserting a batch with distinct keys stores exactly its rows under
   * their keys, adds no other key and leaves all other keys unchanged.
   */
  lemma UpsertEffect(m: map<Key, Row>, batch: seq<Row>)
    requires DistinctKeys(batch)
    ensures forall i :: 0 <= i < |batch| ==> KeyOf(batch[i]) in Applied(m, batch) && Applied(m, batch)[KeyOf(batch[i])] == batch[i]
    ensures forall k :: k in Applied(m, batch) ==> k in m || exists i :: 0 <= i < |batch| && KeyOf(batch[i]) == k
    ensures forall k :: k in m && (forall i :: 0 <= i < |batch| ==> KeyOf(batch[i]) != k) ==>
      k in Applied(m, batch) && Applied(m, batch)[k] == m[k]
  {
    forall i | 0 <= i < |batch|
      ensures KeyOf(batch[i]) in Applied(m, batch) && Applied(m, batch)[KeyOf(batch[i])] == batch[i]
    {
      LastWithKeyDistinct(batch, i);
      AppliedAt(m, batch, KeyOf(batch[i]));
    }
    forall k | k in Applied(m, batch)
      ensures k in m || exists i :: 0 <= i < |batch| && KeyOf(batch[i]) == k
    {
      AppliedAt(m, batch, k);
      var last := LastWithKey(batch, k);
      if last.Some? {
        var i :| 0 <= i < |batch| && batch[i] == last.value;
      }
    }
    forall k | k in m && (forall i :: 0 <= i < |batch| ==> KeyOf(batch[i]) != k)
      ensures k in Applied(m, batch) && Applied(m, batch)[k] == m[k]
    {
      AppliedAt(m, batch, k);
      assert LastWithKey(batch, k).None?;
    }
  }

  /** Repeating the same upsert leaves the table as the first one left it. */
  lemma UpsertIdempotent(m: map<Key, Row>, batch: seq<Row>)
    ensures Applied(Applied(m, batch), batch) == Applied(m, batch)
  {
    var once := Applied(m, batch);
    var twice := Applied(once, batch);
    forall k | true
      ensures k in twice <==> k in once
      ensures k in twice ==> twice[k] == once[k]
    {
      AppliedAt(m, batch, k);
      AppliedAt(once, batch, k);
    }
  }

  /** The row stored under each key is the row for that key: the table's own invariant. */
  ghost predicate KeysMatch(m: map<Key, Row>) {
    forall k :: k in m ==> KeyOf(m[k]) == k
  }

  /** Writing a batch keeps every row under its own key. */
  lemma {:induction false} AppliedKeysMatch(m: map<Key, Row>, batch: seq<Row>)
    requires KeysMatch(m)
    ensures KeysMatch(Applied(m, batch))
  {
    if batch != [] {
      AppliedKeysMatch(m, batch[..|batch| - 1]);
    }
  }

  /** The `eibor_rates` table: at most one row per `(rate_date, tenor)`. */
  class RateStore {
    var rows: map<Key, Row>

    ghost predicate Valid()
      reads this
    {
      KeysMatch(rows)
    }

    constructor ()
      ensures Valid() && rows == map[]
    {
      rows := map[];
    }

    /**
     * `upsert(batch, { onConflict: "rate_date,tenor" })`, one statement
     * and so all-or-nothing. The database refuses the whole batch when
     * `fault` says it fails (connection, permissions, ...) or when two of
     * its rows share a key (PostgreSQL's "ON CONFLICT DO UPDATE command
     * cannot affect row a second time"); otherwise every row is written
     * under its key.
     */
    method Upsert(batch: seq<Row>, fault: Option<string>) returns (err: Option<string>)
      requires Valid()
      modifies this
      ensures Valid()
      ensures err.None? <==> fault.None? && DistinctKeys(batch)
      ensures fault.Some? ==> err == fault
      ensures err.None? ==> rows == Applied(old(rows), batch)
      ensures err.Some? ==> rows == old(rows)
    {
      if fault.Some? {
        return fault;
      }
      var distinct := HasDistinctKeys(batch);
      if !distinct {
        return Some("ON CONFLICT DO UPDATE command cannot affect row a second time");
      }
      var i := 0;
      while i < |batch|
        invariant 0 <= i <= |batch|
        invariant rows == Applied(old(rows), batch[..i])
      {
        assert batch[..i + 1][..i] == batch[..i];
        rows := rows[KeyOf(batch[i]) := batch[i]];
        i := i + 1;
      }
      assert batch[..i] == batch;
      AppliedKeysMatch(old(rows), batch);
      err := None;
    }
  }

  /** Whether no two rows of `batch` share a key. */
  method HasDistinctKeys(batch: seq<Row>) returns (d: bool)
    ensures d <==> DistinctKeys(batch)
  {
    var seen: set<Key> := {};
    var j := 0;
    while j < |batch|
      invariant 0 <= j <= |batch|
      invariant DistinctKeys(batch[..j])
      invariant seen == set i | 0 <= i < j :: KeyOf(batch[i])
    {
      if KeyOf(batch[j]) in seen {
        return false;
      }
      seen := seen + {KeyOf(batch[j])};
      j := j + 1;
    }
    assert batch[..j] == batch;
    return true;
  }

  // ---------------------------------------------------------------------
  // The request handler
  // ---------------------------------------------------------------------

  /** `!firecrawlKey` is false: the key is set and not empty. */
  predicate Configured(firecrawlKey: Option<string>) {
    firecrawlKey.Some? && firecrawlKey.value != ""
  }

  /** A batch built by the job never repeats a `(rate_date, tenor)` key. */
  lemma BatchKeysDistinct(e: Extracted, date: Date)
    ensures DistinctKeys(Batch(e, date))
  {
    BatchShape(e, date);
  }

  /**
   * The handler. An OPTIONS request is answered at once. Otherwise the
   * key is checked before anything else, the extraction service is called
   * (`fetched` says whether it was), and the prepared batch is upserted;
   * every failure becomes a status-500 reply and leaves the table as it
   * was.
   */
  method Handle(
    requestMethod: string, firecrawlKey: Option<string>, reply: FetchResult,
    parse: string -> Option<Date>, today: Date, fault: Option<string>, store: RateStore)
    returns (resp: Response, fetched: bool)
    requires store.Valid()
    modifies store
    ensures store.Valid()
    ensures fetched <==> requestMethod != "OPTIONS" && Configured(firecrawlKey)
    ensures requestMethod == "OPTIONS" ==> resp == Preflight
    ensures requestMethod != "OPTIONS" && !Configured(firecrawlKey) ==> resp == Failed(500, NotConfigured)
    ensures fetched && Prepare(reply, parse, today).Err? ==> resp == Failed(500, Prepare(reply, parse, today).error)
    ensures fetched && Prepare(reply, parse, today).Ok? && fault.Some? ==> resp == Failed(500, UpsertFailed(fault.value))
    ensures fetched && Prepare(reply, parse, today).Ok? && fault.None? ==>
      resp == Success(Prepare(reply, parse, today).value.0, |Prepare(reply, parse, today).value.1|, Prepare(reply, parse, today).value.1)
    ensures resp.Success? ==> store.rows == Applied(old(store.rows), resp.rates)
    ensures !resp.Success? ==> store.rows == old(store.rows)
  {
    fetched := false;
    if requestMethod == "OPTIONS" {
      return Preflight, fetched;
    }
    if !Configured(firecrawlKey) {
      return Failed(500, NotConfigured), fetched;
    }
    fetched := true;
    var prepared := Prepare(reply, parse, today);
    if prepared.Err? {
      return Failed(500, prepared.error), fetched;
    }
    var (date, batch) := prepared.value;
    var e := ExtractPayload(reply.body.value).value;
    BatchKeysDistinct(e, date);
    var err := store.Upsert(batch, fault);
    if err.Some? {
      return Failed(500, UpsertFailed(err.value)), fetched;
    }
    resp := Success(date, |batch|, batch);
  }
}
