/**
 * Calendar arithmetic and the two fixed date formats the pipeline parses:
 * "DD-MM-YYYY HH:MM" for meter readings and "YYYY-MM-DD" for the bounds of a
 * date range. A date-time becomes a timestamp in whole minutes since
 * 1970-01-01 00:00 (proleptic Gregorian calendar, no time zone).
 *
 * The field grammar is the one of the strptime directives: %d, %m, %H and %M
 * take one or two digits, %d also a space followed by a digit from 1 to 9,
 * %Y exactly four digits, a space in the format matches one or more
 * whitespace characters, and the whole string must be consumed. A
 * date-time pandas cannot hold as a nanosecond count is rejected as well.
 */
module Calendar {
  import opened Outcomes
  import opened TimeSeries

  datatype DateTime = DateTime(year: int, month: int, day: int, hour: int, minute: int)

  predicate IsLeapYear(y: int)
  {
    y % 4 == 0 && (y % 100 != 0 || y % 400 == 0)
  }

  function DaysInMonth(y: int, m: int): (n: int)
    requires 1 <= m <= 12
    ensures 28 <= n <= 31
    ensures n == 29 <==> m == 2 && IsLeapYear(y)
  {
    if m == 2 then (if IsLeapYear(y) then 29 else 28)
    else if m == 4 || m == 6 || m == 9 || m == 11 then 30
    else 31
  }

  function YearLength(y: int): int
  {
    if IsLeapYear(y) then 366 else 365
  }

  /** A calendar date-time that Python's datetime accepts (years 1 to 9999). */
  predicate ValidDateTime(dt: DateTime)
  {
    1 <= dt.year <= 9999 && 1 <= dt.month <= 12 && 1 <= dt.day <= DaysInMonth(dt.year, dt.month) &&
    0 <= dt.hour < 24 && 0 <= dt.minute < 60
  }

  /** Days from 0001-01-01 to 1 January of year `y`. */
  function DaysBeforeYear(y: int): int
  {
    365 * (y - 1) + (y - 1) / 4 - (y - 1) / 100 + (y - 1) / 400
  }

  /** Days from 1 January of year `y` to the first day of month `m`. */
  function DaysBeforeMonth(y: int, m: int): (n: int)
    requires 1 <= m <= 13
    ensures n >= 0
  {
    if m == 1 then 0 else DaysBeforeMonth(y, m - 1) + DaysInMonth(y, m - 1)
  }

  /** The day number of 1970-01-01 counted from 0001-01-01. */
  const EpochDay: int := 719162

  /** Days since 1970-01-01 of the date part of `dt` (negative before 1970). */
  function DayNumber(dt: DateTime): int
    requires 1 <= dt.month <= 12
  {
    DaysBeforeYear(dt.year) + DaysBeforeMonth(dt.year, dt.month) + dt.day - 1 - EpochDay
  }

  /** The same date at 00:00. */
  function Midnight(dt: DateTime): (r: DateTime)
    ensures ValidDateTime(dt) ==> ValidDateTime(r)
  {
    DateTime(dt.year, dt.month, dt.day, 0, 0)
  }

  /**
   * The timestamp of a date-time; its hour of the day and its minute of the
   * hour are the date-time's own.
   */
  function ToMinutes(dt: DateTime): (t: int)
    requires ValidDateTime(dt)
    ensures HourOfDay(t) == dt.hour
    ensures HourStart(t) == t - dt.minute
  {
    var t := DayNumber(dt) * 1440 + dt.hour * 60 + dt.minute;
    ClockArithmetic(DayNumber(dt), dt.hour, dt.minute);
    t
  }

  /** A date-time lies 60 * hour + minute minutes after midnight of its own day. */
  lemma MinutesAfterMidnight(dt: DateTime)
    requires ValidDateTime(dt)
    ensures ToMinutes(dt) == ToMinutes(Midnight(dt)) + 60 * dt.hour + dt.minute
    ensures ToMinutes(Midnight(dt)) <= ToMinutes(dt) < ToMinutes(Midnight(dt)) + 1440
  {
  }

  lemma ClockArithmetic(days: int, h: int, m: int)
    requires 0 <= h < 24 && 0 <= m < 60
    ensures (days * 1440 + h * 60 + m) / 60 == days * 24 + h
    ensures ((days * 1440 + h * 60 + m) / 60) % 24 == h
  {
    var t := days * 1440 + h * 60 + m;
    assert t == (days * 24 + h) * 60 + m;
    assert (days * 24 + h) * 24 == days * 24 * 24 + h * 24;
  }

  /** Strict chronological order of date-times, field by field. */
  predicate Before(a: DateTime, b: DateTime)
  {
    a.year < b.year ||
    (a.year == b.year && (a.month < b.month ||
    (a.month == b.month && (a.day < b.day ||
    (a.day == b.day && (a.hour < b.hour ||
    (a.hour == b.hour && a.minute < b.minute)))))))
  }

  /** Consecutive years start one year-length apart. */
  lemma YearStep(y: int)
    ensures DaysBeforeYear(y + 1) == DaysBeforeYear(y) + YearLength(y)
  {
    LeapStep4(y);
    LeapStep100(y);
    LeapStep400(y);
  }

  /** Among the years 1 to y there is one more multiple of 4 than among 1 to y - 1 exactly when y is one. */
  lemma LeapStep4(y: int)
    ensures y / 4 - (y - 1) / 4 == if y % 4 == 0 then 1 else 0
  {
  }

  lemma LeapStep100(y: int)
    ensures y / 100 - (y - 1) / 100 == if y % 100 == 0 then 1 else 0
  {
  }

  lemma LeapStep400(y: int)
    ensures y / 400 - (y - 1) / 400 == if y % 400 == 0 then 1 else 0
  {
  }

  lemma {:induction false} DaysBeforeMonthMonotone(y: int, m: int, m': int)
    requires 1 <= m <= m' <= 13
    ensures DaysBeforeMonth(y, m) + (if m < m' then DaysInMonth(y, m) else 0) <= DaysBeforeMonth(y, m')
    decreases m' - m
  {
    if m < m' - 1 {
      DaysBeforeMonthMonotone(y, m, m' - 1);
    }
  }

  lemma YearOfMonths(y: int)
    ensures DaysBeforeMonth(y, 13) == YearLength(y)
  {
    var feb := DaysInMonth(y, 2);
    assert DaysBeforeMonth(y, 2) == 31;
    assert DaysBeforeMonth(y, 3) == 31 + feb;
    assert DaysBeforeMonth(y, 4) == 62 + feb;
    assert DaysBeforeMonth(y, 5) == 92 + feb;
    assert DaysBeforeMonth(y, 6) == 123 + feb;
    assert DaysBeforeMonth(y, 7) == 153 + feb;
    assert DaysBeforeMonth(y, 8) == 184 + feb;
    assert DaysBeforeMonth(y, 9) == 215 + feb;
    assert DaysBeforeMonth(y, 10) == 245 + feb;
    assert DaysBeforeMonth(y, 11) == 276 + feb;
    assert DaysBeforeMonth(y, 12) == 306 + feb;
  }

  lemma {:induction false} DaysBeforeYearMonotone(y: int, y': int)
    requires y < y'
    ensures DaysBeforeYear(y) + YearLength(y) <= DaysBeforeYear(y')
    decreases y' - y
  {
    YearStep(y);
    if y + 1 < y' {
      DaysBeforeYearMonotone(y + 1, y');
    }
  }

  /** A strictly earlier date has a strictly smaller day number. */
  lemma DayNumberOrdered(a: DateTime, b: DateTime)
    requires ValidDateTime(a) && ValidDateTime(b)
    requires a.year < b.year || (a.year == b.year && (a.month < b.month || (a.month == b.month && a.day < b.day)))
    ensures DayNumber(a) < DayNumber(b)
  {
    if a.year < b.year {
      DaysBeforeMonthMonotone(a.year, a.month, 13);
      YearOfMonths(a.year);
      DaysBeforeYearMonotone(a.year, b.year);
    } else if a.month < b.month {
      DaysBeforeMonthMonotone(a.year, a.month, b.month);
    }
  }

  /**
   * Timestamps keep chronological order: an earlier date-time gets a smaller
   * timestamp, so sorting by timestamp is sorting by date-time, and two
   * different date-times never share a timestamp.
   */
  lemma ToMinutesOrdered(a: DateTime, b: DateTime)
    requires ValidDateTime(a) && ValidDateTime(b)
    ensures Before(a, b) <==> ToMinutes(a) < ToMinutes(b)
    ensures a == b <==> ToMinutes(a) == ToMinutes(b)
  {
    if a.year != b.year || a.month != b.month || a.day != b.day {
      if Before(a, b) {
        DayNumberOrdered(a, b);
      } else {
        DayNumberOrdered(b, a);
      }
    }
  }

  /**
   * pandas stores an instant as a signed 64-bit count of nanoseconds since
   * 1970-01-01 00:00, the lowest value being reserved for "not a time"; a
   * date-time outside that count is an out-of-bounds error when parsed.
   */
  const MinNanos: int := -0x7FFF_FFFF_FFFF_FFFF
  const MaxNanos: int := 0x7FFF_FFFF_FFFF_FFFF
  const NanosPerMinute: int := 60_000_000_000

  /** A timestamp whose nanosecond count pandas can hold. */
  predicate InstantInRange(t: int)
  {
    MinNanos <= t * NanosPerMinute <= MaxNanos
  }

  /** A date-time pandas can hold: a calendar date-time whose nanosecond count fits. */
  predicate Representable(dt: DateTime)
  {
    ValidDateTime(dt) && InstantInRange(ToMinutes(dt))
  }

  /** The first and last whole minutes in the range, 1677-09-21 00:13 and 2262-04-11 23:47. */
  const FirstInstant := DateTime(1677, 9, 21, 0, 13)
  const LastInstant := DateTime(2262, 4, 11, 23, 47)

  /**
   * In calendar terms, the representable date-times are those from
   * 1677-09-21 00:13 to 2262-04-11 23:47; at midnight, the dates from
   * 1677-09-22 to 2262-04-11.
   */
  lemma RepresentableRange(dt: DateTime)
    requires ValidDateTime(dt)
    ensures Representable(dt) <==> !Before(dt, FirstInstant) && !Before(LastInstant, dt)
  {
    assert ToMinutes(FirstInstant) == -153722867 by {
      assert DayNumber(FirstInstant) == -106752;
    }
    assert ToMinutes(LastInstant) == 153722867 by {
      assert DayNumber(LastInstant) == 106751;
    }
    ToMinutesOrdered(dt, FirstInstant);
    ToMinutesOrdered(LastInstant, dt);
  }

  // ---------------------------------------------------------------- parsing

  predicate IsDigit(c: char)
  {
    '0' <= c <= '9'
  }

  /**
   * The ASCII characters a `\s` of a str pattern matches, which are those
   * `str.isspace` holds for: space, tab, line feed, vertical tab, form feed,
   * carriage return and the four separators U+001C to U+001F.
   */
  predicate IsSpace(c: char)
  {
    c == ' ' || c == '\t' || c == '\n' || c == '\r' || c == '\U{B}' || c == '\U{C}' ||
    c == '\U{1C}' || c == '\U{1D}' || c == '\U{1E}' || c == '\U{1F}'
  }

  function DigitValue(c: char): (d: int)
    requires IsDigit(c)
    ensures 0 <= d <= 9
  {
    c as int - '0' as int
  }

  /**
   * A %d, %m, %H or %M field at position `i`: one digit, or two when a second
   * digit follows. The value and the position after the field are returned.
   */
  function ReadShort(s: string, i: nat): (r: Option<(int, nat)>)
    ensures r.Some? ==> i < r.value.1 <= i + 2 && r.value.1 <= |s| && 0 <= r.value.0 <= 99
    ensures r.Some? <==> i < |s| && IsDigit(s[i])
  {
    if i < |s| && IsDigit(s[i]) then
      if i + 1 < |s| && IsDigit(s[i + 1]) then Some((10 * DigitValue(s[i]) + DigitValue(s[i + 1]), i + 2))
      else Some((DigitValue(s[i]), i + 1))
    else None
  }

  /**
   * A %d field at position `i`: a short field, or a space followed by a digit
   * from 1 to 9, the form strptime also accepts for a day.
   */
  function ReadDay(s: string, i: nat): (r: Option<(int, nat)>)
    ensures r.Some? ==> i < r.value.1 <= i + 2 && r.value.1 <= |s| && 0 <= r.value.0 <= 99
    ensures r.Some? <==> i < |s| && (IsDigit(s[i]) || (s[i] == ' ' && i + 1 < |s| && '1' <= s[i + 1] <= '9'))
    ensures r.Some? && s[i] == ' ' ==> r.value == (DigitValue(s[i + 1]), i + 2)
    ensures r.Some? && s[i] != ' ' ==> r == ReadShort(s, i)
  {
    if i + 1 < |s| && s[i] == ' ' && '1' <= s[i + 1] <= '9' then Some((DigitValue(s[i + 1]), i + 2))
    else ReadShort(s, i)
  }

  /** A %Y field at position `i`: exactly four digits. */
  function ReadYear(s: string, i: nat): (r: Option<(int, nat)>)
    ensures r.Some? ==> r.value.1 == i + 4 <= |s| && 0 <= r.value.0 <= 9999
  {
    if i + 4 <= |s| && IsDigit(s[i]) && IsDigit(s[i + 1]) && IsDigit(s[i + 2]) && IsDigit(s[i + 3]) then
      Some((1000 * DigitValue(s[i]) + 100 * DigitValue(s[i + 1]) + 10 * DigitValue(s[i + 2]) + DigitValue(s[i + 3]), i + 4))
    else None
  }

  /** The literal character `c` at position `i`. */
  function ReadChar(s: string, i: nat, c: char): (r: Option<nat>)
    ensures r.Some? <==> i < |s| && s[i] == c
    ensures r.Some? ==> r.value == i + 1
  {
    if i < |s| && s[i] == c then Some(i + 1) else None
  }

  /** The position after the run of whitespace starting at `i`. */
  function SkipSpaces(s: string, i: nat): (j: nat)
    requires i <= |s|
    ensures i <= j <= |s|
    ensures forall k :: i <= k < j ==> IsSpace(s[k])
    ensures j < |s| ==> !IsSpace(s[j])
    decreases |s| - i
  {
    if i < |s| && IsSpace(s[i]) then SkipSpaces(s, i + 1) else i
  }

  /** A space of the format: one or more whitespace characters. */
  function ReadSpaces(s: string, i: nat): (r: Option<nat>)
    ensures r.Some? ==> i < r.value <= |s|
    ensures r.Some? <==> i < |s| && IsSpace(s[i])
  {
    if i < |s| && IsSpace(s[i]) then Some(SkipSpaces(s, i + 1)) else None
  }

  /**
   * The fields read become a date-time when each lies in its range, the day
   * exists in the month and pandas can hold the instant.
   */
  function Checked(dt: DateTime): (r: Option<DateTime>)
    ensures r.Some? <==> Representable(dt)
    ensures r.Some? ==> r.value == dt
  {
    if Representable(dt) then Some(dt) else None
  }

  /** Parses a reading's date and time with the format "%d-%m-%Y %H:%M". */
  function ParseReadingTime(s: string): (r: Option<DateTime>)
    ensures r.Some? ==> Representable(r.value)
  {
    var (day, i1) :- ReadDay(s, 0);
    var i2 :- ReadChar(s, i1, '-');
    var (month, i3) :- ReadShort(s, i2);
    var i4 :- ReadChar(s, i3, '-');
    var (year, i5) :- ReadYear(s, i4);
    var i6 :- ReadSpaces(s, i5);
    var (hour, i7) :- ReadShort(s, i6);
    var i8 :- ReadChar(s, i7, ':');
    var (minute, i9) :- ReadShort(s, i8);
    if i9 == |s| then Checked(DateTime(year, month, day, hour, minute)) else None
  }

  /** Parses a range bound with the format "%Y-%m-%d"; the time is midnight. */
  function ParseDate(s: string): (r: Option<DateTime>)
    ensures r.Some? ==> Representable(r.value) && r.value.hour == 0 && r.value.minute == 0
  {
    var (year, i1) :- ReadYear(s, 0);
    var i2 :- ReadChar(s, i1, '-');
    var (month, i3) :- ReadShort(s, i2);
    var i4 :- ReadChar(s, i3, '-');
    var (day, i5) :- ReadDay(s, i4);
    if i5 == |s| then Checked(DateTime(year, month, day, 0, 0)) else None
  }

  /** A ten-character "YYYY-MM-DD" text reads its three fields and is then checked. */
  lemma ParseDateFields(s: string)
    requires |s| == 10 && s[4] == '-' && s[7] == '-'
    requires forall i :: 0 <= i < 10 && i != 4 && i != 7 ==> IsDigit(s[i])
    ensures ParseDate(s) == Checked(DateTime(
      1000 * DigitValue(s[0]) + 100 * DigitValue(s[1]) + 10 * DigitValue(s[2]) + DigitValue(s[3]),
      10 * DigitValue(s[5]) + DigitValue(s[6]), 10 * DigitValue(s[8]) + DigitValue(s[9]), 0, 0))
  {
    assert ReadYear(s, 0).Some? && ReadYear(s, 0).value.1 == 4;
    assert ReadShort(s, 5).Some? && ReadShort(s, 5).value.1 == 7;
    assert ReadDay(s, 8).Some? && ReadDay(s, 8).value.1 == 10;
  }

  /** 1677-09-21 is the last date before the range: its midnight precedes 00:12:43 that day. */
  lemma DateBeforeRange()
    ensures ParseDate("1677-09-21") == None
  {
    ParseDateFields("1677-09-21");
    assert DayNumber(DateTime(1677, 9, 21, 0, 0)) == -106752;
  }

  /** 1677-09-22 is the first date in the range. */
  lemma FirstDateInRange()
    ensures ParseDate("1677-09-22") == Some(DateTime(1677, 9, 22, 0, 0))
  {
    ParseDateFields("1677-09-22");
    assert DayNumber(DateTime(1677, 9, 22, 0, 0)) == -106751;
  }

  /** 2262-04-11 is the last date in the range. */
  lemma LastDateInRange()
    ensures ParseDate("2262-04-11") == Some(DateTime(2262, 4, 11, 0, 0))
  {
    ParseDateFields("2262-04-11");
    assert DayNumber(DateTime(2262, 4, 11, 0, 0)) == 106751;
  }

  /** 2262-04-12 is the first date after the range. */
  lemma DateAfterRange()
    ensures ParseDate("2262-04-12") == None
  {
    ParseDateFields("2262-04-12");
    assert DayNumber(DateTime(2262, 4, 12, 0, 0)) == 106752;
  }

  /** A range bound's day may be a space and one digit from 1 to 9, but not a space and 0, nor a tab and a digit. */
  lemma DateSpacedDay()
    ensures ParseDate("2024-01- 5") == Some(DateTime(2024, 1, 5, 0, 0))
    ensures ParseDate("2024-01- 0") == None
    ensures ParseDate("2024-01-\t5") == None
  {
    var s := "2024-01- 5";
    assert ReadYear(s, 0) == Some((2024, 4));
    assert ReadShort(s, 5) == Some((1, 7));
    assert ReadDay(s, 8) == Some((5, 10));
    assert DayNumber(DateTime(2024, 1, 5, 0, 0)) == 19727;
    assert ReadDay("2024-01- 0", 8) == None;
    assert ReadDay("2024-01-\t5", 8) == None;
  }

  // ------------------------------------------------------------- formatting

  function DigitChar(d: int): (c: char)
    requires 0 <= d <= 9
    ensures IsDigit(c) && DigitValue(c) == d
  {
    ('0' as int + d) as char
  }

  /** A number below 100 written with two digits. */
  function Pad2(n: int): (s: string)
    requires 0 <= n <= 99
    ensures |s| == 2 && IsDigit(s[0]) && IsDigit(s[1])
    ensures 10 * DigitValue(s[0]) + DigitValue(s[1]) == n
  {
    [DigitChar(n / 10), DigitChar(n % 10)]
  }

  /** A number below 10000 written with four digits. */
  function Pad4(n: int): (s: string)
    requires 0 <= n <= 9999
    ensures |s| == 4 && IsDigit(s[0]) && IsDigit(s[1]) && IsDigit(s[2]) && IsDigit(s[3])
    ensures 1000 * DigitValue(s[0]) + 100 * DigitValue(s[1]) + 10 * DigitValue(s[2]) + DigitValue(s[3]) == n
  {
    Pad2(n / 100) + Pad2(n % 100)
  }

  /** A reading's date-time in the form "DD-MM-YYYY HH:MM". */
  function FormatReadingTime(dt: DateTime): (s: string)
    requires ValidDateTime(dt)
    ensures |s| == 16
  {
    Pad2(dt.day) + "-" + Pad2(dt.month) + "-" + Pad4(dt.year) + " " + Pad2(dt.hour) + ":" + Pad2(dt.minute)
  }

  /** A date in the form "YYYY-MM-DD". */
  function FormatDate(dt: DateTime): (s: string)
    requires ValidDateTime(dt)
    ensures |s| == 10
  {
    Pad4(dt.year) + "-" + Pad2(dt.month) + "-" + Pad2(dt.day)
  }

  /** Every representable date-time written in the reading format parses back to itself. */
  lemma ReadingTimeRoundTrip(dt: DateTime)
    requires Representable(dt)
    ensures ParseReadingTime(FormatReadingTime(dt)) == Some(dt)
  {
    ReadingTimeFields(dt);
  }

  /** The reading format's fields read back as the date-time's own, which are then checked. */
  lemma ReadingTimeFields(dt: DateTime)
    requires ValidDateTime(dt)
    ensures ParseReadingTime(FormatReadingTime(dt)) == Checked(dt)
  {
    var s := FormatReadingTime(dt);
    var d, mo, y, h, mi := Pad2(dt.day), Pad2(dt.month), Pad4(dt.year), Pad2(dt.hour), Pad2(dt.minute);
    assert s[0] == d[0] && s[1] == d[1] && s[2] == '-';
    assert s[3] == mo[0] && s[4] == mo[1] && s[5] == '-';
    assert s[6] == y[0] && s[7] == y[1] && s[8] == y[2] && s[9] == y[3] && s[10] == ' ';
    assert s[11] == h[0] && s[12] == h[1] && s[13] == ':';
    assert s[14] == mi[0] && s[15] == mi[1];
    assert ReadDay(s, 0) == Some((dt.day, 2));
    assert ReadShort(s, 3) == Some((dt.month, 5));
    assert ReadYear(s, 6) == Some((dt.year, 10));
    assert SkipSpaces(s, 11) == 11;
    assert ReadShort(s, 11) == Some((dt.hour, 13));
    assert ReadShort(s, 14) == Some((dt.minute, 16));
  }

  /** Every date written as "YYYY-MM-DD" whose midnight is representable parses back to that midnight. */
  lemma DateRoundTrip(dt: DateTime)
    requires ValidDateTime(dt) && Representable(Midnight(dt))
    ensures ParseDate(FormatDate(dt)) == Some(Midnight(dt))
  {
    DateFields(dt);
  }

  /** The date format's fields read back as the date's own, which are then checked at midnight. */
  lemma DateFields(dt: DateTime)
    requires ValidDateTime(dt)
    ensures ParseDate(FormatDate(dt)) == Checked(Midnight(dt))
  {
    var s := FormatDate(dt);
    var y, mo, d := Pad4(dt.year), Pad2(dt.month), Pad2(dt.day);
    assert s[0] == y[0] && s[1] == y[1] && s[2] == y[2] && s[3] == y[3] && s[4] == '-';
    assert s[5] == mo[0] && s[6] == mo[1] && s[7] == '-';
    assert s[8] == d[0] && s[9] == d[1];
    assert ReadYear(s, 0) == Some((dt.year, 4));
    assert ReadShort(s, 5) == Some((dt.month, 7));
    assert ReadDay(s, 8) == Some((dt.day, 10));
  }
}
