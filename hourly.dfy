/**
 * Turning the selected meter readings into an hourly consumption series: the
 * absolute change between successive readings (the first reading has none),
 * summed per clock hour, and then differenced once more when the stationarity
 * test says the hourly series is not stationary.
 */
module Hourly {
  import opened Outcomes
  import opened TimeSeries

  // ------------------------------------------------------------ differencing

  /**
   * First-order differencing with the undefined first entry dropped: each row
   * after the first, stamped with its own time, holding its value minus the
   * previous row's value.
   */
  function Difference(s: seq<Point>): (d: seq<Point>)
    ensures |d| == if s == [] then 0 else |s| - 1
    ensures forall i :: 0 <= i < |d| ==> d[i].time == s[i + 1].time
    ensures forall i :: 0 <= i < |d| ==> d[i].value == s[i + 1].value - s[i].value
  {
    if |s| <= 1 then []
    else seq(|s| - 1, i requires 0 <= i < |s| - 1 => Point(s[i + 1].time, s[i + 1].value - s[i].value))
  }

  function Abs(x: real): (y: real)
    ensures y >= 0.0 && (y == x || y == -x)
  {
    if x < 0.0 then -x else x
  }

  /** The magnitude of a point's value. */
  function Size(p: Point): real
  {
    Abs(p.value)
  }

  /** The magnitude of each value, times unchanged. */
  function Magnitudes(s: seq<Point>): (r: seq<Point>)
    ensures |r| == |s|
    ensures forall i :: 0 <= i < |s| ==> r[i] == Point(s[i].time, Abs(s[i].value))
  {
    seq(|s|, i requires 0 <= i < |s| => Point(s[i].time, Abs(s[i].value)))
  }

  /** The consumption deltas: absolute differences of successive readings. */
  function AbsDeltas(s: seq<Point>): (r: seq<Point>)
    ensures |r| == if s == [] then 0 else |s| - 1
    ensures forall i :: 0 <= i < |r| ==> r[i].time == s[i + 1].time && r[i].value >= 0.0
  {
    Magnitudes(Difference(s))
  }

  /**
   * n readings give n - 1 deltas (none for an empty selection), each stamped
   * with the later reading's time, none negative, each the size of the step
   * between the two readings.
   */
  lemma AbsDeltasSpec(s: seq<Point>)
    ensures |AbsDeltas(s)| == if s == [] then 0 else |s| - 1
    ensures forall i :: 0 <= i < |AbsDeltas(s)| ==>
      AbsDeltas(s)[i].time == s[i + 1].time && AbsDeltas(s)[i].value >= 0.0 &&
      (AbsDeltas(s)[i].value == s[i + 1].value - s[i].value || AbsDeltas(s)[i].value == s[i].value - s[i + 1].value)
  {
    var d := Difference(s);
    var m := AbsDeltas(s);
    forall i | 0 <= i < |m|
      ensures m[i].time == s[i + 1].time && m[i].value == Abs(s[i + 1].value - s[i].value)
    {
      assert m[i] == Point(d[i].time, Abs(d[i].value));
    }
  }

  /**
   * Differencing loses nothing but the starting level: the first value plus
   * the first k differences gives back the k-th value.
   */
  lemma {:induction false} DifferenceReconstructs(s: seq<Point>, k: nat)
    requires k < |s|
    ensures s[0].value + Sum(Difference(s)[..k]) == s[k].value
  {
    var d := Difference(s);
    if k == 0 {
      assert d[..0] == [];
    } else {
      DifferenceReconstructs(s, k - 1);
      assert d[..k][..k - 1] == d[..k - 1];
      assert d[k - 1].value == s[k].value - s[k - 1].value;
    }
  }

  /**
   * For readings of a meter that never runs backwards, the deltas add up to
   * the last reading minus the first.
   */
  lemma DeltasTelescope(s: seq<Point>)
    requires s != []
    requires forall i :: 0 < i < |s| ==> s[i - 1].value <= s[i].value
    ensures Sum(AbsDeltas(s)) == s[|s| - 1].value - s[0].value
  {
    var d := Difference(s);
    assert SumBy(d, Value) == SumBy(d, Size) by {
      RisingDeltas(s);
    }
    assert Sum(AbsDeltas(s)) == SumBy(d, Size) by {
      MagnitudesSum(d);
    }
    assert Sum(d) == s[|s| - 1].value - s[0].value by {
      DifferenceReconstructs(s, |s| - 1);
      assert d[..|s| - 1] == d;
    }
  }

  /** When readings never go down, every difference is its own magnitude. */
  lemma RisingDeltas(s: seq<Point>)
    requires forall i :: 0 < i < |s| ==> s[i - 1].value <= s[i].value
    ensures SumBy(Difference(s), Value) == SumBy(Difference(s), Size)
  {
    var d := Difference(s);
    forall p | p in d
      ensures Value(p) == Size(p)
    {
      var i :| 0 <= i < |d| && d[i] == p;
      assert s[i].value <= s[i + 1].value;
    }
    SumByCongruent(d, Value, Size);
  }

  lemma {:induction false} MagnitudesSum(s: seq<Point>)
    ensures Sum(Magnitudes(s)) == SumBy(s, Size)
  {
    if s != [] {
      MagnitudesSum(s[..|s| - 1]);
      assert Magnitudes(s)[..|s| - 1] == Magnitudes(s[..|s| - 1]);
    }
  }

  // ------------------------------------------------------------ hourly bins

  function MinTime(s: seq<Point>): (t: int)
    requires s != []
    ensures forall i :: 0 <= i < |s| ==> t <= s[i].time
    ensures exists i :: 0 <= i < |s| && s[i].time == t
  {
    if |s| == 1 then s[0].time
    else
      var m := MinTime(s[1..]);
      assert forall i :: 1 <= i < |s| ==> s[i] == s[1..][i - 1];
      if s[0].time <= m then s[0].time else m
  }

  function MaxTime(s: seq<Point>): (t: int)
    requires s != []
    ensures forall i :: 0 <= i < |s| ==> s[i].time <= t
    ensures exists i :: 0 <= i < |s| && s[i].time == t
  {
    if |s| == 1 then s[0].time
    else
      var m := MaxTime(s[1..]);
      assert forall i :: 1 <= i < |s| ==> s[i] == s[1..][i - 1];
      if s[0].time >= m then s[0].time else m
  }

  /** A row's value when it falls in the clock hour starting at `t`, else 0. */
  function InHour(t: int): Point -> real
  {
    (p: Point) => if HourStart(p.time) == t then p.value else 0.0
  }

  /** The sum of the deltas that fall in the clock hour starting at `t`. */
  function HourSum(d: seq<Point>, t: int): real
  {
    SumBy(d, InHour(t))
  }

  /** `n` consecutive hourly bins starting at `lo`, each holding its hour's sum. */
  function Bins(d: seq<Point>, lo: int, n: nat): (r: seq<Point>)
    ensures |r| == n
    ensures forall k :: 0 <= k < n ==> r[k].time == lo + 60 * k
    ensures forall k :: 0 <= k < n ==> r[k].value == HourSum(d, r[k].time)
  {
    seq(n, k requires 0 <= k < n => Point(lo + 60 * k, HourSum(d, lo + 60 * k)))
  }

  /**
   * Hourly resampling with summation: one bin per clock hour from the hour of
   * the earliest delta to the hour of the latest, labelled by the hour's start.
   */
  function Resample(d: seq<Point>): (r: seq<Point>)
    ensures forall k :: 0 <= k < |r| ==> r[k].value == HourSum(d, r[k].time)
  {
    if d == [] then []
    else
      var lo := HourStart(MinTime(d));
      var hi := HourStart(MaxTime(d));
      HourStartMonotone(MinTime(d), MaxTime(d));
      Bins(d, lo, (hi - lo) / 60 + 1)
  }

  /** Two hour starts lie a whole number of hours apart. */
  lemma HoursBetween(lo: int, h: int)
    requires lo % 60 == 0 && h % 60 == 0 && lo <= h
    ensures (h - lo) / 60 >= 0 && lo + 60 * ((h - lo) / 60) == h
  {
    assert (h - lo) % 60 == 0;
  }

  lemma OnTheHour(lo: int, k: int)
    requires lo % 60 == 0
    ensures (lo + 60 * k) % 60 == 0
  {
    assert lo + 60 * k == 60 * (lo / 60 + k);
  }

  /**
   * The bins run hour by hour, 60 minutes apart and each on the hour, from
   * the hour of the earliest delta to the hour of the latest; an empty
   * selection gives no bins.
   */
  lemma ResampleShape(d: seq<Point>)
    ensures d == [] <==> Resample(d) == []
    ensures d != [] ==>
      var r := Resample(d);
      r[0].time == HourStart(MinTime(d)) && r[|r| - 1].time == HourStart(MaxTime(d)) &&
      (forall k :: 0 <= k < |r| ==> r[k].time % 60 == 0) &&
      (forall k :: 0 < k < |r| ==> r[k].time == r[k - 1].time + 60)
  {
    if d != [] {
      var lo := HourStart(MinTime(d));
      var hi := HourStart(MaxTime(d));
      HourStartMonotone(MinTime(d), MaxTime(d));
      HoursBetween(lo, hi);
      var n := (hi - lo) / 60 + 1;
      assert Resample(d) == Bins(d, lo, n);
      BinsOnTheHour(d, lo, n);
    }
  }

  /** Bins starting on an hour boundary are all on hour boundaries. */
  lemma BinsOnTheHour(d: seq<Point>, lo: int, n: nat)
    requires lo % 60 == 0
    ensures forall k :: 0 <= k < n ==> Bins(d, lo, n)[k].time % 60 == 0
  {
    var r := Bins(d, lo, n);
    forall k | 0 <= k < n
      ensures r[k].time % 60 == 0
    {
      OnTheHour(lo, k);
    }
  }

  /** Every delta has the bin of its own hour. */
  lemma ResampleCovers(d: seq<Point>)
    ensures forall i :: 0 <= i < |d| ==>
      exists k :: 0 <= k < |Resample(d)| && Resample(d)[k].time == HourStart(d[i].time)
  {
    if d != [] {
      var lo := HourStart(MinTime(d));
      var hi := HourStart(MaxTime(d));
      HourStartMonotone(MinTime(d), MaxTime(d));
      HoursBetween(lo, hi);
      var r := Resample(d);
      forall i | 0 <= i < |d|
        ensures exists k :: 0 <= k < |r| && r[k].time == HourStart(d[i].time)
      {
        var h := HourStart(d[i].time);
        HourStartMonotone(MinTime(d), d[i].time);
        HourStartMonotone(d[i].time, MaxTime(d));
        HoursBetween(lo, h);
        var k := (h - lo) / 60;
        assert r[k].time == h;
      }
    }
  }

  /** Each bin holds exactly the sum of the deltas in its hour; an hour without deltas holds 0. */
  lemma ResampleBinValues(d: seq<Point>)
    ensures forall k :: 0 <= k < |Resample(d)| ==> Resample(d)[k].value == HourSum(d, Resample(d)[k].time)
    ensures forall k :: 0 <= k < |Resample(d)| && (forall p :: p in d ==> HourStart(p.time) != Resample(d)[k].time) ==>
      Resample(d)[k].value == 0.0
  {
    var r := Resample(d);
    forall k | 0 <= k < |r| && (forall p :: p in d ==> HourStart(p.time) != r[k].time)
      ensures r[k].value == 0.0
    {
      SumByZero(d, InHour(r[k].time));
    }
  }

  /** Deltas that are never negative give bins that are never negative. */
  lemma ResampleNonNegative(d: seq<Point>)
    requires forall p :: p in d ==> p.value >= 0.0
    ensures forall k :: 0 <= k < |Resample(d)| ==> Resample(d)[k].value >= 0.0
  {
    var r := Resample(d);
    forall k | 0 <= k < |r|
      ensures r[k].value >= 0.0
    {
      SumByNonNegative(d, InHour(r[k].time));
    }
  }

  /** A row's value when its hour falls in the n hours starting at `lo`, else 0. */
  function InHours(lo: int, n: nat): Point -> real
  {
    (p: Point) => if lo <= HourStart(p.time) < lo + 60 * n then p.value else 0.0
  }

  lemma {:induction false} BinsSum(d: seq<Point>, lo: int, n: nat)
    requires lo % 60 == 0
    ensures Sum(Bins(d, lo, n)) == SumBy(d, InHours(lo, n))
  {
    if n == 0 {
      SumByZero(d, InHours(lo, 0));
    } else {
      BinsSum(d, lo, n - 1);
      var m := lo + 60 * (n - 1);
      assert Bins(d, lo, n)[..n - 1] == Bins(d, lo, n - 1);
      assert m % 60 == 0;
      forall p | p in d
        ensures InHours(lo, n)(p) == InHours(lo, n - 1)(p) + InHour(m)(p)
      {
        var h := HourStart(p.time);
        if m <= h < m + 60 {
          assert h == m by {
            if h != m {
              HourStartsApart(m, h);
            }
          }
        }
      }
      SumByAdd(d, InHours(lo, n), InHours(lo, n - 1), InHour(m));
    }
  }

  /** Resampling conserves the total: the bins add up to the sum of all deltas. */
  lemma ResampleConserves(d: seq<Point>)
    ensures Sum(Resample(d)) == Sum(d)
  {
    if d != [] {
      var lo, n := FirstHour(d), HourCount(d);
      ResampleWindow(d);
      BinsSum(d, lo, n);
      InHoursIsValue(d, lo, n);
    }
  }

  /** The hour of the earliest delta. */
  function FirstHour(d: seq<Point>): int
    requires d != []
  {
    HourStart(MinTime(d))
  }

  /** The number of hours from the earliest delta's to the latest's. */
  function HourCount(d: seq<Point>): int
    requires d != []
  {
    (HourStart(MaxTime(d)) - FirstHour(d)) / 60 + 1
  }

  /** The bins of a non-empty selection span exactly the hours of all its deltas. */
  lemma ResampleWindow(d: seq<Point>)
    requires d != []
    ensures FirstHour(d) % 60 == 0 && HourCount(d) >= 1
    ensures Resample(d) == Bins(d, FirstHour(d), HourCount(d))
    ensures forall i :: 0 <= i < |d| ==> FirstHour(d) <= HourStart(d[i].time) < FirstHour(d) + 60 * HourCount(d)
  {
    var lo := HourStart(MinTime(d));
    var hi := HourStart(MaxTime(d));
    HourStartMonotone(MinTime(d), MaxTime(d));
    HoursBetween(lo, hi);
    assert lo + 60 * HourCount(d) == hi + 60;
    forall i | 0 <= i < |d|
      ensures lo <= HourStart(d[i].time) <= hi
    {
      HourStartMonotone(MinTime(d), d[i].time);
      HourStartMonotone(d[i].time, MaxTime(d));
    }
  }

  /** When every delta falls in the n hours from `lo`, summing over those hours sums every delta. */
  lemma InHoursIsValue(d: seq<Point>, lo: int, n: nat)
    requires forall i :: 0 <= i < |d| ==> lo <= HourStart(d[i].time) < lo + 60 * n
    ensures SumBy(d, InHours(lo, n)) == Sum(d)
  {
    forall p | p in d
      ensures InHours(lo, n)(p) == Value(p)
    {
      var i :| 0 <= i < |d| && d[i] == p;
    }
    SumByCongruent(d, InHours(lo, n), Value);
  }

  // ------------------------------------------------------------ the gate

  /** The significance level of the stationarity test. */
  const AdfThreshold: real := 0.05

  /**
   * Stationary when the test's p-value is strictly below the threshold of
   * 0.05; a p-value of exactly 0.05 counts as not stationary.
   */
  predicate Stationary(hourly: seq<Point>, pValue: seq<Point> -> real)
  {
    pValue(hourly) < AdfThreshold
  }

  /** The hourly consumption series of a selection of readings. */
  function HourlySeries(readings: seq<Point>): (r: seq<Point>)
    ensures forall k :: 0 <= k < |r| ==> r[k].value >= 0.0
  {
    var d := AbsDeltas(readings);
    assert forall p :: p in d ==> p.value >= 0.0;
    ResampleNonNegative(d);
    Resample(d)
  }

  /**
   * The pair the preparation returns: the series to forecast from (the hourly
   * series, differenced once when it is not stationary) and the hourly series.
   */
  function PrepareHourly(readings: seq<Point>, pValue: seq<Point> -> real): (r: (seq<Point>, seq<Point>))
    ensures r.1 == HourlySeries(readings)
    ensures r.0 == r.1 <==> Stationary(r.1, pValue) || r.1 == []
    ensures |r.0| == if Stationary(r.1, pValue) || r.1 == [] then |r.1| else |r.1| - 1
  {
    var hourly := HourlySeries(readings);
    if !Stationary(hourly, pValue) then (Difference(hourly), hourly) else (hourly, hourly)
  }

  /**
   * The gate differences at most once and always hands back the raw hourly
   * series second. When the test finds the series stationary the first result
   * is that series unchanged; otherwise it is one row shorter, keeps the
   * later rows' times, and with the first hourly value it rebuilds every
   * hourly value.
   */
  lemma GateSpec(readings: seq<Point>, pValue: seq<Point> -> real)
    ensures var (first, second) := PrepareHourly(readings, pValue);
      second == HourlySeries(readings) &&
      (Stationary(second, pValue) ==> first == second) &&
      (!Stationary(second, pValue) && second != [] ==>
        |first| == |second| - 1 &&
        (forall i :: 0 <= i < |first| ==> first[i].time == second[i + 1].time) &&
        forall k :: 0 <= k < |second| ==> second[0].value + Sum(first[..k]) == second[k].value)
  {
    var (first, second) := PrepareHourly(readings, pValue);
    if !Stationary(second, pValue) && second != [] {
      forall k | 0 <= k < |second|
        ensures second[0].value + Sum(first[..k]) == second[k].value
      {
        DifferenceReconstructs(second, k);
      }
    }
  }

  /**
   * The hourly series holds the consumption of the selection: no bin is
   * negative, and the bins add up to the sum of the deltas.
   */
  lemma HourlySeriesSpec(readings: seq<Point>)
    ensures forall k :: 0 <= k < |HourlySeries(readings)| ==> HourlySeries(readings)[k].value >= 0.0
    ensures Sum(HourlySeries(readings)) == Sum(AbsDeltas(readings))
  {
    var d := AbsDeltas(readings);
    AbsDeltasSpec(readings);
    forall p | p in d
      ensures p.value >= 0.0
    {
      var i :| 0 <= i < |d| && d[i] == p;
    }
    ResampleNonNegative(d);
    ResampleConserves(d);
  }

  // ------------------------------------------------------------ the frame

  /** The delta column as a column of the frame: undefined on the first row. */
  function DeltaColumn(rows: seq<Point>): (c: seq<Option<real>>)
    ensures |c| == |rows|
    ensures forall i :: 0 < i < |rows| ==> c[i] == Some(AbsDeltas(rows)[i - 1].value)
    ensures rows != [] ==> c[0] == None
  {
    if rows == [] then []
    else [None] + seq(|rows| - 1, i requires 0 <= i < |rows| - 1 => Some(AbsDeltas(rows)[i].value))
  }

  /**
   * The selected readings as a frame whose columns can be added to: the
   * preparation step adds the delta column to the frame it is given.
   */
  class ReadingFrame {
    var rows: seq<Point>
    var kvahDiff: Option<seq<Option<real>>>

    constructor(rows: seq<Point>)
      ensures this.rows == rows && kvahDiff == None
    {
      this.rows := rows;
      kvahDiff := None;
    }

    /**
     * Adds the delta column to this frame, leaving the readings as they are,
     * and returns the series to forecast from and the hourly series.
     */
    method PrepareHourlyData(pValue: seq<Point> -> real) returns (first: seq<Point>, hourly: seq<Point>)
      modifies this
      ensures rows == old(rows)
      ensures kvahDiff == Some(DeltaColumn(rows))
      ensures (first, hourly) == PrepareHourly(rows, pValue)
    {
      kvahDiff := Some(DeltaColumn(rows));
      // Dropping the undefined first entry of the new column leaves the deltas.
      hourly := Resample(AbsDeltas(rows));
      if !Stationary(hourly, pValue) {
        first := Difference(hourly);
      } else {
        first := hourly;
      }
    }
  }
}
