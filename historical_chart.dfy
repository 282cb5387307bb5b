/**
 * The six-month chart of the 3-month EIBOR: the rows the query asks the
 * `eibor_rates` table for, the chart points made from them, the chart's
 * state while loading, what is drawn for how many points, and the padded
 * y-axis bounds.
 */
module HistoricalChart {
  import opened Wrappers
  import opened EiborIngest

  // ---------------------------------------------------------------------
  // The history query
  // ---------------------------------------------------------------------

  /** Calendar order on dates (`rate_date` compared as `YYYY-MM-DD`). */
  predicate DateLe(a: Date, b: Date) {
    a.year < b.year || (a.year == b.year && (a.month < b.month || (a.month == b.month && a.day <= b.day)))
  }

  /** A row of the history query: `rate` and `rate_date`. */
  datatype HistoryRow = HistoryRow(rate: real, rateDate: Date)

  /**
   * What the query promises about its rows: each is a stored 3-month rate
   * dated `fromDate` or later, every such stored rate is among them, and
   * they come in ascending date order.
   */
  ghost predicate Requested(table: map<Key, Row>, fromDate: Date, rows: seq<HistoryRow>) {
    && (forall i :: 0 <= i < |rows| ==>
          DateLe(fromDate, rows[i].rateDate) &&
          (rows[i].rateDate, ThreeMonth) in table && table[(rows[i].rateDate, ThreeMonth)].rate == rows[i].rate)
    && (forall k :: k in table && k.1 == ThreeMonth && DateLe(fromDate, k.0) ==>
          exists i :: 0 <= i < |rows| && rows[i].rateDate == k.0)
    && (forall i, j :: 0 <= i < j < |rows| ==> DateLe(rows[i].rateDate, rows[j].rateDate))
  }

  /** What the query gives back: rows or an error, or an exception. */
  datatype HistoryQuery = Threw | Answer(error: Option<string>, rates: Option<seq<HistoryRow>>)

  // ---------------------------------------------------------------------
  // Chart points
  // ---------------------------------------------------------------------

  /** A point of the chart: the date, the rate and the axis label for the date. */
  datatype ChartPoint = ChartPoint(date: Date, rate: real, axisLabel: string)

  /** `rates.map(...)`: one point per row, in order; `labelOf` gives the date's short display form. */
  function ToPoints(rows: seq<HistoryRow>, labelOf: Date -> string): (points: seq<ChartPoint>)
    ensures |points| == |rows|
  {
    seq(|rows|, i requires 0 <= i < |rows| => ChartPoint(rows[i].rateDate, rows[i].rate, labelOf(rows[i].rateDate)))
  }

  /** The rows a list of points was made from. */
  function RowsOf(points: seq<ChartPoint>): (rows: seq<HistoryRow>)
    ensures |rows| == |points|
  {
    seq(|points|, i requires 0 <= i < |points| => HistoryRow(points[i].rate, points[i].date))
  }

  /** The mapping loses nothing: the points give back exactly the rows, in order. */
  lemma PointsKeepRows(rows: seq<HistoryRow>, labelOf: Date -> string)
    ensures RowsOf(ToPoints(rows, labelOf)) == rows
  {
    var back := RowsOf(ToPoints(rows, labelOf));
    forall i | 0 <= i < |rows|
      ensures back[i] == rows[i]
    {
    }
  }

  /**
   * The points of a query answer are the stored 3-month rates from
   * `fromDate` on, every such stored date among them, in ascending date order.
   */
  lemma PointsFollowQuery(table: map<Key, Row>, fromDate: Date, rows: seq<HistoryRow>, labelOf: Date -> string)
    requires Requested(table, fromDate, rows)
    ensures var points := ToPoints(rows, labelOf);
      && (forall i :: 0 <= i < |points| ==>
            DateLe(fromDate, points[i].date) && (points[i].date, ThreeMonth) in table &&
            table[(points[i].date, ThreeMonth)].rate == points[i].rate)
      && (forall i, j :: 0 <= i < j < |points| ==> DateLe(points[i].date, points[j].date))
      && (forall k :: k in table && k.1 == ThreeMonth && DateLe(fromDate, k.0) ==>
            exists i :: 0 <= i < |points| && points[i].date == k.0)
  {
    var points := ToPoints(rows, labelOf);
    forall k | k in table && k.1 == ThreeMonth && DateLe(fromDate, k.0)
      ensures exists i :: 0 <= i < |points| && points[i].date == k.0
    {
      var i :| 0 <= i < |rows| && rows[i].rateDate == k.0;
      assert points[i].date == k.0;
    }
  }

  // ---------------------------------------------------------------------
  // The chart's state
  // ---------------------------------------------------------------------

  /** The chart component's state: its points and whether the fetch is still running. */
  class Chart {
    var data: seq<ChartPoint>
    var loading: bool

    constructor ()
      ensures data == [] && loading
    {
      data := [];
      loading := true;
    }

    /**
     * `fetchHistory`: on an answer without error and with rows the points
     * replace `data`; an error, missing rows or an exception leave `data`
     * as it was. Loading ends on every path (`finally`).
     */
    method FetchHistory(q: HistoryQuery, labelOf: Date -> string)
      modifies this
      ensures !loading
      ensures q.Answer? && q.error.None? && q.rates.Some? ==> data == ToPoints(q.rates.value, labelOf)
      ensures !(q.Answer? && q.error.None? && q.rates.Some?) ==> data == old(data)
    {
      if q.Threw? {
        loading := false;
        return;
      }
      if q.error.Some? || q.rates.None? {
        loading := false;
        return;
      }
      data := ToPoints(q.rates.value, labelOf);
      loading := false;
    }
  }

  // ---------------------------------------------------------------------
  // What is drawn
  // ---------------------------------------------------------------------

  /** The least rate among the points. */
  function MinRate(points: seq<ChartPoint>): (m: real)
    requires |points| > 0
    ensures forall i :: 0 <= i < |points| ==> m <= points[i].rate
    ensures exists i :: 0 <= i < |points| && points[i].rate == m
  {
    if |points| == 1 then points[0].rate
    else
      var rest := MinRate(points[1..]);
      assert forall i :: 1 <= i < |points| ==> points[i] == points[1..][i - 1];
      if points[0].rate <= rest then points[0].rate else rest
  }

  /** The greatest rate among the points. */
  function MaxRate(points: seq<ChartPoint>): (m: real)
    requires |points| > 0
    ensures forall i :: 0 <= i < |points| ==> points[i].rate <= m
    ensures exists i :: 0 <= i < |points| && points[i].rate == m
  {
    if |points| == 1 then points[0].rate
    else
      var rest := MaxRate(points[1..]);
      assert forall i :: 1 <= i < |points| ==> points[i] == points[1..][i - 1];
      if points[0].rate >= rest then points[0].rate else rest
  }

  /** The padding added below the least and above the greatest rate. */
  const Padding: real := 0.05

  /** `Math.floor((min - 0.05) * 100) / 100`: the padded minimum, rounded down to a hundredth. */
  function YMin(points: seq<ChartPoint>): real
    requires |points| > 0
  {
    ((MinRate(points) - Padding) * 100.0).Floor as real / 100.0
  }

  /** `Math.ceil((max + 0.05) * 100) / 100`: the padded maximum, rounded up to a hundredth. */
  function YMax(points: seq<ChartPoint>): real
    requires |points| > 0
  {
    -((-((MaxRate(points) + Padding) * 100.0)).Floor as real) / 100.0
  }

  /**
   * The axis leaves at least the padding below the least rate and above
   * the greatest, by less than a hundredth more, so every rate lies
   * strictly inside it and the range is never empty.
   */
  lemma AxisBounds(points: seq<ChartPoint>)
    requires |points| > 0
    ensures YMin(points) <= MinRate(points) - Padding < YMin(points) + 0.01
    ensures YMax(points) - 0.01 < MaxRate(points) + Padding <= YMax(points)
    ensures YMin(points) < YMax(points)
    ensures forall i :: 0 <= i < |points| ==> YMin(points) < points[i].rate < YMax(points)
  {
    var lo := (MinRate(points) - Padding) * 100.0;
    var hi := (MaxRate(points) + Padding) * 100.0;
    assert lo.Floor as real <= lo < lo.Floor as real + 1.0;
    assert (-hi).Floor as real <= -hi < (-hi).Floor as real + 1.0;
  }

  /** What the component draws. */
  datatype View = Nothing | Limited | Plot(yMin: real, yMax: real, dots: bool)

  /** Limits of the drawing rules: below this many points, only a message; below the other, dots too. */
  const MinPlotted: nat := 5
  const MaxDotted: nat := 30

  /**
   * Nothing while loading or without points; the limited-data message for
   * fewer than five points; otherwise the plot over the padded axis, with
   * dots while there are fewer than thirty points.
   */
  function Render(loading: bool, data: seq<ChartPoint>): (v: View)
    ensures v.Nothing? <==> loading || |data| == 0
    ensures v.Limited? <==> !loading && 0 < |data| < MinPlotted
    ensures v.Plot? ==> |data| >= MinPlotted && (v.dots <==> |data| < MaxDotted)
    ensures v.Plot? ==> v.yMin == YMin(data) && v.yMax == YMax(data)
    ensures v.Plot? ==> forall i :: 0 <= i < |data| ==> v.yMin < data[i].rate < v.yMax
  {
    if loading || |data| == 0 then Nothing
    else if |data| < MinPlotted then Limited
    else
      AxisBounds(data);
      Plot(YMin(data), YMax(data), |data| < MaxDotted)
  }
}
