/**
 * The timestamps of a forecast: `n` consecutive hours, the first one hour
 * after the last point of the series the model was fitted on, paired with the
 * model's predicted values to give the rows that are billed. pandas cannot
 * hold an hour past 2262-04-11 23:47, so such a forecast is an error.
 */
module Forecast {
  import opened Outcomes
  import opened TimeSeries
  import opened Hourly
  import opened Calendar

  /**
   * The forecast hours; None for an empty series, which has no last
   * timestamp, and when the first or the last forecast hour lies outside the
   * instants pandas can hold.
   */
  function FutureTimestamps(series: seq<Point>, n: nat): (r: Option<seq<int>>)
    ensures series == [] ==> r.None?
    ensures series != [] ==> var last := series[|series| - 1].time;
      (r.None? <==> !InstantInRange(last + 60) || (n > 0 && !InstantInRange(last + 60 * n)))
    ensures r.Some? ==> |r.value| == n && forall k :: 0 <= k < n ==> InstantInRange(r.value[k])
  {
    if series == [] then None
    else
      var last := series[|series| - 1].time;
      if !InstantInRange(last + 60) || (n > 0 && !InstantInRange(last + 60 * n)) then None
      else Some(seq(n, k requires 0 <= k < n => last + 60 * (k + 1)))
  }

  /**
   * The last hour pandas can hold is 2262-04-11 23:00: a series ending at
   * 22:00 that day has a one-hour forecast, one ending at 23:00 has none.
   */
  lemma ForecastPastRange()
    ensures FutureTimestamps([Point(ToMinutes(DateTime(2262, 4, 11, 22, 0)), 0.0)], 1).Some?
    ensures FutureTimestamps([Point(ToMinutes(DateTime(2262, 4, 11, 23, 0)), 0.0)], 1) == None
  {
    assert DayNumber(DateTime(2262, 4, 11, 22, 0)) == 106751;
    assert DayNumber(DateTime(2262, 4, 11, 23, 0)) == 106751;
  }

  /**
   * The forecast hours run contiguously, 60 minutes apart, starting one hour
   * after the series' last timestamp, so each lies after every point of a
   * series in time order.
   */
  lemma FutureTimestampsSpec(series: seq<Point>, n: nat)
    requires FutureTimestamps(series, n).Some?
    ensures var r := FutureTimestamps(series, n).value;
      (n > 0 ==> r[0] == series[|series| - 1].time + 60) &&
      (forall k :: 0 < k < n ==> r[k] == r[k - 1] + 60) &&
      (Sorted(series) ==> forall k, i :: 0 <= k < n && 0 <= i < |series| ==> series[i].time < r[k])
  {
  }

  /**
   * When the last point of the series is on the hour, so is every forecast
   * hour, and the hours of the day follow on from the last point's hour.
   */
  lemma {:induction false} FutureHoursOfDay(series: seq<Point>, n: nat, k: nat)
    requires FutureTimestamps(series, n).Some? && series[|series| - 1].time % 60 == 0 && k < n
    ensures var t := FutureTimestamps(series, n).value[k];
      t % 60 == 0 && HourOfDay(t) == (HourOfDay(series[|series| - 1].time) + k + 1) % 24
  {
    var last := series[|series| - 1].time;
    var q := last / 60;
    assert last == 60 * q;
    var t := last + 60 * (k + 1);
    assert t == 60 * (q + k + 1);
    assert t / 60 == q + k + 1;
    assert (q + k + 1) % 24 == (q % 24 + k + 1) % 24 by {
      var a := q / 24;
      assert q == 24 * a + q % 24;
      assert q + k + 1 == 24 * a + (q % 24 + k + 1);
    }
  }

  /**
   * Differencing drops the first point of a series and keeps its last, so a
   * series of two or more hours gives the same forecast hours whether or not
   * the gate differenced it; a single hour differences to nothing, which has
   * no forecast hours.
   */
  lemma DifferencingKeepsForecastStart(hourly: seq<Point>, n: nat)
    ensures |hourly| >= 2 ==> FutureTimestamps(Difference(hourly), n) == FutureTimestamps(hourly, n)
    ensures |hourly| == 1 ==> FutureTimestamps(Difference(hourly), n) == None
  {
  }

  /** The same start hour for the series the gate hands to the forecaster. */
  lemma GateKeepsForecastStart(readings: seq<Point>, pValue: seq<Point> -> real, n: nat)
    requires |HourlySeries(readings)| >= 2
    ensures FutureTimestamps(PrepareHourly(readings, pValue).0, n) == FutureTimestamps(HourlySeries(readings), n)
  {
    DifferencingKeepsForecastStart(HourlySeries(readings), n);
  }

  /** The forecast rows: each forecast hour with the model's predicted kVAh for it. */
  function ForecastRows(series: seq<Point>, predicted: seq<real>): (r: Option<seq<Point>>)
    ensures r.None? <==> FutureTimestamps(series, |predicted|).None?
    ensures r.Some? ==> |r.value| == |predicted|
    ensures r.Some? ==> forall k :: 0 <= k < |predicted| ==>
      r.value[k].value == predicted[k] && r.value[k].time == FutureTimestamps(series, |predicted|).value[k]
  {
    match FutureTimestamps(series, |predicted|)
    case None => None
    case Some(times) => Some(seq(|predicted|, k requires 0 <= k < |predicted| => Point(times[k], predicted[k])))
  }
}
