/**
 * Selecting the readings of a date range: the rows whose timestamp lies
 * between the two bounds, both included, in their original order; no rows at
 * all is reported as None. Both bounds are dates, read as "%Y-%m-%d", so each
 * stands for 00:00 of its day.
 */
module RangeFilter {
  import opened Outcomes
  import opened TimeSeries
  import opened Calendar

  predicate InRange(p: Point, lo: int, hi: int)
  {
    lo <= p.time <= hi
  }

  /** The rows of `s` inside [lo, hi], in the order they appear in `s`. */
  function Keep(s: seq<Point>, lo: int, hi: int): (r: seq<Point>)
    ensures |r| <= |s|
    ensures forall i :: 0 <= i < |r| ==> InRange(r[i], lo, hi)
  {
    if s == [] then []
    else Keep(s[..|s| - 1], lo, hi) + (if InRange(s[|s| - 1], lo, hi) then [s[|s| - 1]] else [])
  }

  /** The mask selection of the source: None when no row is selected. */
  function FilterByTime(s: seq<Point>, lo: int, hi: int): (r: Option<seq<Point>>)
    ensures r.None? <==> forall i :: 0 <= i < |s| ==> !InRange(s[i], lo, hi)
    ensures r.Some? ==> r.value == Keep(s, lo, hi) && r.value != []
    ensures r.Some? ==> forall p :: p in r.value <==> p in s && InRange(p, lo, hi)
  {
    var kept := Keep(s, lo, hi);
    KeepMembers(s, lo, hi);
    assert kept != [] ==> kept[0] in kept;
    if kept == [] then None else Some(kept)
  }

  datatype FilterError = BadStartDate | BadEndDate

  /**
   * The readings between 00:00 of `startDate` and 00:00 of `endDate`, both
   * included; a bound that does not parse as "%Y-%m-%d", or whose midnight
   * pandas cannot hold, is an error.
   */
  function FilterDataByDate(s: seq<Point>, startDate: string, endDate: string): (r: Result<Option<seq<Point>>, FilterError>)
    ensures ParseDate(startDate).None? ==> r == Failure(BadStartDate)
    ensures ParseDate(startDate).Some? && ParseDate(endDate).None? ==> r == Failure(BadEndDate)
    ensures ParseDate(startDate).Some? && ParseDate(endDate).Some? ==>
      r == Success(FilterByTime(s, ToMinutes(ParseDate(startDate).value), ToMinutes(ParseDate(endDate).value)))
  {
    match ParseDate(startDate)
    case None => Failure(BadStartDate)
    case Some(start) =>
      match ParseDate(endDate)
      case None => Failure(BadEndDate)
      case Some(end) => Success(FilterByTime(s, ToMinutes(start), ToMinutes(end)))
  }

  /** A bound before 1677-09-22 or after 2262-04-11 is an error, not an empty selection. */
  lemma OutOfRangeBoundsRejected(s: seq<Point>)
    ensures FilterDataByDate(s, "1600-01-01", "2024-01-02") == Failure(BadStartDate)
    ensures FilterDataByDate(s, "2024-01-01", "2262-04-12") == Failure(BadEndDate)
  {
    ParseDateFields("1600-01-01");
    assert DayNumber(DateTime(1600, 1, 1, 0, 0)) == -135140;
    ParseDateFields("2024-01-01");
    assert DayNumber(DateTime(2024, 1, 1, 0, 0)) == 19723;
    DateAfterRange();
  }

  /** Keeping distributes over concatenation, so the kept rows stay in their original order. */
  lemma {:induction false} KeepAppend(a: seq<Point>, b: seq<Point>, lo: int, hi: int)
    ensures Keep(a + b, lo, hi) == Keep(a, lo, hi) + Keep(b, lo, hi)
    decreases |b|
  {
    if b == [] {
      assert a + b == a;
    } else {
      var b' := b[..|b| - 1];
      assert (a + b)[..|a + b| - 1] == a + b';
      assert (a + b)[|a + b| - 1] == b[|b| - 1];
      KeepAppend(a, b', lo, hi);
    }
  }

  /** A row is kept exactly when it is a row of `s` inside the bounds. */
  lemma {:induction false} KeepMembers(s: seq<Point>, lo: int, hi: int)
    ensures forall p :: p in Keep(s, lo, hi) <==> p in s && InRange(p, lo, hi)
  {
    if s != [] {
      var s' := s[..|s| - 1];
      KeepMembers(s', lo, hi);
      assert s == s' + [s[|s| - 1]];
    }
  }

  /** Keeping loses no row of the range and adds none: counts are preserved, row by row. */
  lemma {:induction false} KeepCounts(s: seq<Point>, lo: int, hi: int)
    ensures forall p :: multiset(Keep(s, lo, hi))[p] == if InRange(p, lo, hi) then multiset(s)[p] else 0
  {
    if s != [] {
      var s' := s[..|s| - 1];
      KeepCounts(s', lo, hi);
      assert s == s' + [s[|s| - 1]];
    }
  }

  /** Rows that are all inside the bounds are kept as they are. */
  lemma {:induction false} KeepAllInRange(s: seq<Point>, lo: int, hi: int)
    requires forall i :: 0 <= i < |s| ==> InRange(s[i], lo, hi)
    ensures Keep(s, lo, hi) == s
  {
    if s != [] {
      KeepAllInRange(s[..|s| - 1], lo, hi);
      assert s == s[..|s| - 1] + [s[|s| - 1]];
    }
  }

  /** Filtering a filtered result again with the same bounds returns the same rows. */
  lemma FilterIdempotent(s: seq<Point>, lo: int, hi: int)
    requires FilterByTime(s, lo, hi).Some?
    ensures FilterByTime(FilterByTime(s, lo, hi).value, lo, hi) == FilterByTime(s, lo, hi)
  {
    var kept := Keep(s, lo, hi);
    KeepMembers(s, lo, hi);
    forall i | 0 <= i < |kept|
      ensures InRange(kept[i], lo, hi)
    {
      assert kept[i] in kept;
    }
    KeepAllInRange(kept, lo, hi);
  }

  /** A sorted input gives a sorted selection. */
  lemma {:induction false} KeepSorted(s: seq<Point>, lo: int, hi: int)
    requires Sorted(s)
    ensures Sorted(Keep(s, lo, hi))
  {
    if s != [] {
      var s' := s[..|s| - 1];
      var last := s[|s| - 1];
      assert Sorted(s');
      KeepSorted(s', lo, hi);
      KeepMembers(s', lo, hi);
      var k := Keep(s', lo, hi);
      var r := Keep(s, lo, hi);
      if InRange(last, lo, hi) {
        forall i, j | 0 <= i < j < |r|
          ensures r[i].time <= r[j].time
        {
          if j == |r| - 1 {
            assert r[i] == k[i];
            assert k[i] in s';
            var m :| 0 <= m < |s'| && s'[m] == k[i];
            assert s[m] == k[i];
          } else {
            assert r[i] == k[i] && r[j] == k[j];
          }
        }
      }
    }
  }

  /**
   * The end bound is midnight of the end date: a row stamped on the end date
   * is selected only when it is stamped exactly 00:00 (and is not before the
   * start bound); a reading later that day is never selected.
   */
  lemma EndDateExcludesLaterReadings(s: seq<Point>, startDate: string, endDate: string, reading: DateTime)
    requires ValidDateTime(reading)
    requires ParseDate(startDate).Some? && ParseDate(endDate) == Some(Midnight(reading))
    ensures FilterDataByDate(s, startDate, endDate).Success?
    ensures var r := FilterDataByDate(s, startDate, endDate).value;
      forall p :: p in s && p.time == ToMinutes(reading) ==>
        (r.Some? && p in r.value <==>
         reading.hour == 0 && reading.minute == 0 && ToMinutes(ParseDate(startDate).value) <= p.time)
  {
    var start, end := ParseDate(startDate).value, ParseDate(endDate).value;
    MinutesAfterMidnight(reading);
    KeepMembers(s, ToMinutes(start), ToMinutes(end));
    forall p | p in s && p.time == ToMinutes(reading) && reading.hour == 0 && reading.minute == 0 &&
               ToMinutes(start) <= p.time
      ensures FilterByTime(s, ToMinutes(start), ToMinutes(end)).Some?
    {
      var i :| 0 <= i < |s| && s[i] == p;
      assert InRange(s[i], ToMinutes(start), ToMinutes(end));
    }
  }

  /** Every reading on the start date, at any time, is within the lower bound. */
  lemma StartDateIncludesWholeDay(startDate: string, reading: DateTime)
    requires ValidDateTime(reading)
    requires ParseDate(startDate).Some? && Midnight(reading) == ParseDate(startDate).value
    ensures ToMinutes(ParseDate(startDate).value) <= ToMinutes(reading)
  {
    MinutesAfterMidnight(reading);
  }
}
