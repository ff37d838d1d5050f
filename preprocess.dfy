/**
 * Loading the meter readings: each record's "Date" and "Description" strings
 * are joined with a space and parsed as "%d-%m-%Y %H:%M", the rows are put in
 * order of that date-time, and the "kVAh" value is coerced to a number, with
 * anything missing or non-numeric becoming 0.
 */
module Preprocess {
  import opened Outcomes
  import opened TimeSeries
  import opened Calendar

  /** A JSON value in the "kVAh" field of a record. */
  datatype RawValue = Number(x: real) | Text(s: string) | Null

  /** One record of the meter-reading feed. */
  datatype RawRecord = RawRecord(date: string, description: string, kvah: RawValue)

  datatype PreprocessError =
    | NoDateColumn       // an empty feed gives a frame without a "Date" column
    | BadDateTime(row: nat) // the first record whose date and time do not match the format, or lie out of bounds

  // ------------------------------------------------------------ numbers

  predicate AllDigits(s: string)
  {
    forall k :: 0 <= k < |s| ==> IsDigit(s[k])
  }

  /** The value of a string of decimal digits. */
  function DigitsValue(s: string): (n: nat)
    requires AllDigits(s)
  {
    if s == [] then 0 else 10 * DigitsValue(s[..|s| - 1]) + DigitValue(s[|s| - 1]) as nat
  }

  function Pow10(k: nat): (p: nat)
    ensures p >= 1
  {
    if k == 0 then 1 else 10 * Pow10(k - 1)
  }

  /** The position of the first '.' in `s`, or |s| when there is none. */
  function PointPosition(s: string): (k: nat)
    ensures k <= |s|
    ensures forall j :: 0 <= j < k ==> s[j] != '.'
    ensures k < |s| ==> s[k] == '.'
  {
    if s == [] then 0
    else if s[0] == '.' then 0
    else 1 + PointPosition(s[1..])
  }

  /**
   * An unsigned decimal: digits, optionally followed by a point and more
   * digits, with at least one digit in all.
   */
  function ParseUnsigned(s: string): (r: Option<real>)
    ensures r.Some? ==> r.value >= 0.0
  {
    var k := PointPosition(s);
    var whole := s[..k];
    var fraction := if k < |s| then s[k + 1..] else "";
    if AllDigits(whole) && AllDigits(fraction) && |whole| + |fraction| > 0 then
      Some(Decimal(whole, fraction))
    else None
  }

  /** The value of the decimal with whole part `whole` and fractional digits `fraction`. */
  function Decimal(whole: string, fraction: string): (x: real)
    requires AllDigits(whole) && AllDigits(fraction)
    ensures x >= 0.0
  {
    DigitsValue(whole) as real + DigitsValue(fraction) as real / Pow10(|fraction|) as real
  }

  /** A decimal with an optional sign; None when the text is not a number. */
  function ParseNumber(s: string): (r: Option<real>)
    ensures r.Some? ==> |s| > 0
    ensures r.Some? && r.value < 0.0 ==> s[0] == '-'
  {
    if |s| > 0 && s[0] == '-' then
      match ParseUnsigned(s[1..])
      case Some(x) => Some(-x)
      case None => None
    else if |s| > 0 && s[0] == '+' then ParseUnsigned(s[1..])
    else ParseUnsigned(s)
  }

  /** The kVAh value after numeric coercion, with a missing or unparsable value replaced by 0. */
  function Coerce(v: RawValue): (x: real)
    ensures v.Number? ==> x == v.x
    ensures v.Null? ==> x == 0.0
    ensures v.Text? ==> x == (if ParseNumber(v.s).Some? then ParseNumber(v.s).value else 0.0)
  {
    match v
    case Number(x) => x
    case Text(s) => (match ParseNumber(s) case Some(x) => x case None => 0.0)
    case Null => 0.0
  }

  /** A natural number written in decimal, without leading zeros. */
  function NatToString(n: nat): (s: string)
    ensures |s| > 0 && AllDigits(s)
  {
    if n < 10 then [DigitChar(n)] else NatToString(n / 10) + [DigitChar(n % 10)]
  }

  lemma {:induction false} NatToStringValue(n: nat)
    ensures DigitsValue(NatToString(n)) == n
  {
    var s := NatToString(n);
    if n >= 10 {
      NatToStringValue(n / 10);
      assert s[..|s| - 1] == NatToString(n / 10);
    } else {
      assert s[..0] == [];
    }
  }

  /** A plain run of digits reads as its decimal value. */
  lemma DigitsParse(s: string)
    requires |s| > 0 && AllDigits(s)
    ensures ParseUnsigned(s) == Some(DigitsValue(s) as real)
  {
    var k := PointPosition(s);
    assert k == |s| by {
      NoPointInDigits(s);
    }
    assert s[..k] == s;
    var fraction: string := "";
    assert DigitsValue(fraction) as real / Pow10(|fraction|) as real == 0.0 by {
      assert DigitsValue(fraction) == 0 && Pow10(|fraction|) == 1;
    }
  }

  lemma {:induction false} NoPointInDigits(s: string)
    requires AllDigits(s)
    ensures PointPosition(s) == |s|
  {
    if s != [] {
      assert IsDigit(s[0]);
      NoPointInDigits(s[1..]);
    }
  }

  /** A whole number written in decimal, with or without a minus sign, reads back as itself. */
  lemma WholeNumberRoundTrip(n: nat)
    ensures ParseNumber(NatToString(n)) == Some(n as real)
    ensures ParseNumber("-" + NatToString(n)) == Some(-(n as real))
  {
    var s := NatToString(n);
    NatToStringValue(n);
    DigitsParse(s);
    assert IsDigit(s[0]);
    SignedNumber(s, n as real);
  }

  /** Scanning for the point passes over a run of digits. */
  lemma {:induction false} PointAfterDigits(w: string, t: string)
    requires AllDigits(w)
    ensures PointPosition(w + t) == |w| + PointPosition(t)
  {
    if w == [] {
      assert w + t == t;
    } else {
      assert IsDigit(w[0]);
      assert (w + t)[1..] == w[1..] + t;
      PointAfterDigits(w[1..], t);
    }
  }

  /**
   * Digits, a point and digits, with at least one digit in all, read as the
   * decimal they write.
   */
  lemma DecimalValue(w: string, f: string)
    requires AllDigits(w) && AllDigits(f) && |w| + |f| > 0
    ensures ParseUnsigned(w + "." + f) == Some(Decimal(w, f))
    ensures ParseNumber(w + "." + f) == Some(Decimal(w, f))
  {
    var s := w + "." + f;
    assert ParseUnsigned(s) == Some(Decimal(w, f)) by {
      assert s == w + ("." + f);
      PointAfterDigits(w, "." + f);
      assert PointPosition("." + f) == 0;
      assert s[..|w|] == w && s[|w| + 1..] == f;
    }
    assert s[0] != '-' && s[0] != '+' by {
      if w != [] {
        assert s[0] == w[0] && IsDigit(w[0]);
      } else {
        assert s[0] == '.';
      }
    }
  }

  /**
   * A text that reads as an unsigned number and does not start with a sign
   * reads as that number, as its negation after a minus sign, and as itself
   * after a plus sign.
   */
  lemma SignedNumber(u: string, x: real)
    requires ParseUnsigned(u) == Some(x) && |u| > 0 && u[0] != '-' && u[0] != '+'
    ensures ParseNumber(u) == Some(x)
    ensures ParseNumber("-" + u) == Some(-x)
    ensures ParseNumber("+" + u) == Some(x)
  {
    assert ("-" + u)[0] == '-' && ("-" + u)[1..] == u;
    assert ("+" + u)[0] == '+' && ("+" + u)[1..] == u;
  }

  /**
   * `u` is the text of an unsigned decimal with value `x`: digits `w`, or
   * digits `w`, a point and digits `f`, with at least one digit in all.
   */
  ghost predicate DecimalText(u: string, x: real)
  {
    exists w, f :: AllDigits(w) && AllDigits(f) && |w| + |f| > 0 && x == Decimal(w, f) &&
                   ((u == w && f == "") || u == w + "." + f)
  }

  /** `s` is the text of a number with value `x`: a decimal text, or one after a sign. */
  ghost predicate NumberText(s: string, x: real)
  {
    || DecimalText(s, x)
    || (|s| > 0 && s[0] == '-' && DecimalText(s[1..], -x))
    || (|s| > 0 && s[0] == '+' && DecimalText(s[1..], x))
  }

  /** What the unsigned reading accepts is a decimal text, and the value is that decimal's. */
  lemma UnsignedIsDecimalText(u: string, x: real)
    requires ParseUnsigned(u) == Some(x)
    ensures DecimalText(u, x)
  {
    var k := PointPosition(u);
    var w := u[..k];
    var f := if k < |u| then u[k + 1..] else "";
    assert AllDigits(w) && AllDigits(f) && |w| + |f| > 0 && x == Decimal(w, f) by {
      assert ParseUnsigned(u) == Some(Decimal(w, f));
    }
    if k < |u| {
      SplitAtPoint(u, k);
    } else {
      assert u == w;
    }
  }

  /** A text is its part before a point, the point, and its part after it. */
  lemma SplitAtPoint(u: string, k: nat)
    requires k < |u| && u[k] == '.'
    ensures u == u[..k] + "." + u[k + 1..]
  {
    assert u == u[..k] + [u[k]] + u[k + 1..];
  }

  /** A decimal text is read by the unsigned reading as its value, and does not start with a sign. */
  lemma DecimalTextIsUnsigned(u: string, x: real)
    requires DecimalText(u, x)
    ensures ParseUnsigned(u) == Some(x) && |u| > 0 && u[0] != '-' && u[0] != '+'
  {
    var w, f :| AllDigits(w) && AllDigits(f) && |w| + |f| > 0 && x == Decimal(w, f) &&
                ((u == w && f == "") || u == w + "." + f);
    if u == w + "." + f {
      PointedDecimal(w, f);
    } else {
      PlainDecimal(w, f);
    }
  }

  lemma PointedDecimal(w: string, f: string)
    requires AllDigits(w) && AllDigits(f) && |w| + |f| > 0
    ensures var u := w + "." + f;
      ParseUnsigned(u) == Some(Decimal(w, f)) && |u| > 0 && u[0] != '-' && u[0] != '+'
  {
    DecimalValue(w, f);
    var u := w + "." + f;
    if w != [] {
      assert u[0] == w[0] && IsDigit(w[0]);
    } else {
      assert u[0] == '.';
    }
  }

  lemma PlainDecimal(w: string, f: string)
    requires AllDigits(w) && |w| > 0 && f == ""
    ensures ParseUnsigned(w) == Some(Decimal(w, f)) && w[0] != '-' && w[0] != '+'
  {
    DigitsParse(w);
    assert Decimal(w, f) == DigitsValue(w) as real by {
      assert DigitsValue(f) == 0 && Pow10(|f|) == 1;
    }
    assert IsDigit(w[0]);
  }

  /**
   * The numeric reading accepts exactly the number texts: an optional sign,
   * then digits with at most one point and at least one digit; and the value
   * is the decimal's, negated after a minus sign. Every other text is None,
   * which the coercion turns into 0.
   */
  lemma ParseNumberExactly(s: string, x: real)
    ensures ParseNumber(s) == Some(x) <==> NumberText(s, x)
  {
    if ParseNumber(s) == Some(x) {
      ParsedIsNumberText(s, x);
    }
    if NumberText(s, x) {
      NumberTextParses(s, x);
    }
  }

  lemma ParsedIsNumberText(s: string, x: real)
    requires ParseNumber(s) == Some(x)
    ensures NumberText(s, x)
  {
    if |s| > 0 && s[0] == '-' {
      assert ParseUnsigned(s[1..]) == Some(-x);
      UnsignedIsDecimalText(s[1..], -x);
    } else if |s| > 0 && s[0] == '+' {
      UnsignedIsDecimalText(s[1..], x);
    } else {
      UnsignedIsDecimalText(s, x);
    }
  }

  lemma NumberTextParses(s: string, x: real)
    requires NumberText(s, x)
    ensures ParseNumber(s) == Some(x)
  {
    if DecimalText(s, x) {
      DecimalTextIsUnsigned(s, x);
    } else if |s| > 0 && s[0] == '-' && DecimalText(s[1..], -x) {
      DecimalTextIsUnsigned(s[1..], -x);
    } else {
      DecimalTextIsUnsigned(s[1..], x);
    }
  }

  /** A decimal text is read as its value. */
  lemma CoerceDecimal()
    ensures Coerce(Text("12.5")) == 12.5
  {
    var s := "12.5";
    assert PointPosition(s) == 2;
    assert s[..2] == "12" && s[3..] == "5";
    assert "12"[..1] == "1" && "1"[..0] == "";
    assert "5"[..0] == "";
  }

  /** A signed fraction without a whole part is read as its value. */
  lemma CoerceSignedFraction()
    ensures Coerce(Text("-.5")) == -0.5
  {
    var t := ".5";
    assert "-.5"[1..] == t;
    assert PointPosition(t) == 0;
    assert t[..0] == "" && t[1..] == "5";
    assert "5"[..0] == "";
  }

  /** Empty and non-numeric texts, and a null, become 0. */
  lemma CoerceToZero()
    ensures Coerce(Text("")) == 0.0
    ensures Coerce(Text("n/a")) == 0.0
    ensures Coerce(Text("1.2.3")) == 0.0
    ensures Coerce(Null) == 0.0
  {
    assert PointPosition("") == 0;
    var u := "n/a";
    assert PointPosition(u) == 3;
    assert !IsDigit(u[..3][0]);
    var w := "1.2.3";
    assert PointPosition(w) == 1;
    assert w[2..] == "2.3" && !IsDigit(w[2..][1]);
  }

  // ------------------------------------------------------------ ordering

  /** Inserts `p` in front of the first row that is not earlier than it. */
  function InsertByTime(p: Point, s: seq<Point>): (r: seq<Point>)
    ensures multiset(r) == multiset(s) + multiset{p}
    ensures |r| == |s| + 1
  {
    if s == [] then [p]
    else if p.time <= s[0].time then [p] + s
    else
      assert s == [s[0]] + s[1..];
      [s[0]] + InsertByTime(p, s[1..])
  }

  /** A row no later than every row of a sorted sequence can go in front of it. */
  lemma SortedCons(x: Point, t: seq<Point>)
    requires Sorted(t)
    requires forall i :: 0 <= i < |t| ==> x.time <= t[i].time
    ensures Sorted([x] + t)
  {
    var r := [x] + t;
    forall i, j | 0 <= i < j < |r|
      ensures r[i].time <= r[j].time
    {
      assert r[j] == t[j - 1];
      if i > 0 {
        assert r[i] == t[i - 1];
      }
    }
  }

  /** Insertion keeps every row of the result at or after a bound that holds for `p` and `s`. */
  lemma {:induction false} InsertByTimeBound(p: Point, s: seq<Point>, b: int)
    requires b <= p.time
    requires forall i :: 0 <= i < |s| ==> b <= s[i].time
    ensures forall i :: 0 <= i < |InsertByTime(p, s)| ==> b <= InsertByTime(p, s)[i].time
  {
    if s != [] && p.time > s[0].time {
      InsertByTimeBound(p, s[1..], b);
      var r := InsertByTime(p, s);
      assert r == [s[0]] + InsertByTime(p, s[1..]);
      forall i | 0 <= i < |r|
        ensures b <= r[i].time
      {
        if i > 0 {
          assert r[i] == InsertByTime(p, s[1..])[i - 1];
        }
      }
    }
  }

  lemma {:induction false} InsertByTimeSorted(p: Point, s: seq<Point>)
    requires Sorted(s)
    ensures Sorted(InsertByTime(p, s))
  {
    if s == [] {
    } else if p.time <= s[0].time {
      SortedCons(p, s);
    } else {
      var tail := s[1..];
      SortedTail(s);
      InsertByTimeSorted(p, tail);
      InsertByTimeBound(p, tail, s[0].time);
      SortedCons(s[0], InsertByTime(p, tail));
      assert InsertByTime(p, s) == [s[0]] + InsertByTime(p, tail);
    }
  }

  /** Rows in order of time; rows with equal times are all kept. */
  function SortByTime(s: seq<Point>): (r: seq<Point>)
    ensures multiset(r) == multiset(s)
    ensures |r| == |s|
  {
    if s == [] then []
    else
      assert s == [s[0]] + s[1..];
      InsertByTime(s[0], SortByTime(s[1..]))
  }

  /** The sort puts the rows in non-decreasing order of time. */
  lemma {:induction false} SortByTimeSorted(s: seq<Point>)
    ensures Sorted(SortByTime(s))
  {
    if s != [] {
      SortByTimeSorted(s[1..]);
      InsertByTimeSorted(s[0], SortByTime(s[1..]));
    }
  }

  /** No two different rows share a timestamp (equal rows may repeat). */
  predicate TimesDetermineRows(s: seq<Point>)
  {
    forall p, q :: p in s && q in s && p.time == q.time ==> p == q
  }

  /**
   * Two time-ordered arrangements of the same rows are the same sequence when
   * no two different rows share a timestamp.
   */
  lemma {:induction false} SortedArrangementUnique(a: seq<Point>, b: seq<Point>)
    requires Sorted(a) && Sorted(b) && multiset(a) == multiset(b)
    requires TimesDetermineRows(a)
    ensures a == b
    decreases |a|
  {
    if a == [] {
      assert |b| == |multiset(b)| == 0;
    } else {
      SameFirstRow(a, b);
      TailMultiset(a, b);
      SortedTail(a);
      SortedTail(b);
      assert TimesDetermineRows(a[1..]) by {
        forall p | p in a[1..]
          ensures p in a
        {
        }
      }
      SortedArrangementUnique(a[1..], b[1..]);
      assert a == [a[0]] + a[1..] && b == [b[0]] + b[1..];
    }
  }

  /** Both arrangements start with the earliest row, which is one row when times determine rows. */
  lemma SameFirstRow(a: seq<Point>, b: seq<Point>)
    requires a != [] && Sorted(a) && Sorted(b) && multiset(a) == multiset(b)
    requires TimesDetermineRows(a)
    ensures b != [] && a[0] == b[0]
  {
    assert |b| == |multiset(b)| == |a|;
    assert a[0] in multiset(b) && b[0] in multiset(a);
    var i :| 0 <= i < |a| && a[i] == b[0];
    var j :| 0 <= j < |b| && b[j] == a[0];
    assert a[0].time <= a[i].time && b[0].time <= b[j].time;
  }

  /** Removing the same first row from equal multisets leaves equal multisets. */
  lemma TailMultiset(a: seq<Point>, b: seq<Point>)
    requires a != [] && b != [] && a[0] == b[0] && multiset(a) == multiset(b)
    ensures multiset(a[1..]) == multiset(b[1..])
  {
    assert a == [a[0]] + a[1..] && b == [b[0]] + b[1..];
    assert multiset(a) == multiset{a[0]} + multiset(a[1..]);
    assert multiset(b) == multiset{a[0]} + multiset(b[1..]);
    assert multiset(a[1..]) == multiset(a) - multiset{a[0]};
    assert multiset(b[1..]) == multiset(b) - multiset{a[0]};
  }

  lemma SortedTail(a: seq<Point>)
    requires a != [] && Sorted(a)
    ensures Sorted(a[1..])
  {
    var t := a[1..];
    forall x, y | 0 <= x < y < |t|
      ensures t[x].time <= t[y].time
    {
      assert t[x] == a[x + 1] && t[y] == a[y + 1];
    }
  }

  /**
   * Every sort by time, stable or not, returns the rows the model's sort
   * returns, as long as no two different rows share a timestamp.
   */
  lemma SortByTimeUnique(s: seq<Point>, r: seq<Point>)
    requires Sorted(r) && multiset(r) == multiset(s)
    requires TimesDetermineRows(s)
    ensures r == SortByTime(s)
  {
    SortByTimeSorted(s);
    assert TimesDetermineRows(r) by {
      forall p | p in r
        ensures p in s
      {
        assert p in multiset(r);
      }
    }
    SortedArrangementUnique(r, SortByTime(s));
  }

  /**
   * Rows already in time order, with no two different rows at the same
   * timestamp, come out of any sort unchanged.
   */
  lemma SortByTimeKeepsSorted(s: seq<Point>)
    requires Sorted(s) && TimesDetermineRows(s)
    ensures SortByTime(s) == s
  {
    SortByTimeUnique(s, s);
  }

  // ------------------------------------------------------------ loading

  /** The date-time of a record, from its "Date" and "Description" joined by a space. */
  function RecordTime(rec: RawRecord): (r: Option<DateTime>)
    ensures r.Some? ==> ValidDateTime(r.value)
  {
    ParseReadingTime(rec.date + " " + rec.description)
  }

  /** The index of the first absent date-time, if any. */
  function FirstNone(times: seq<Option<DateTime>>): (r: Option<nat>)
    ensures r.None? <==> forall i :: 0 <= i < |times| ==> times[i].Some?
    ensures r.Some? ==> r.value < |times| && times[r.value].None? &&
                        forall i :: 0 <= i < r.value ==> times[i].Some?
  {
    if times == [] then None
    else if times[0].None? then Some(0)
    else
      assert forall i :: 1 <= i < |times| ==> times[i] == times[1..][i - 1];
      match FirstNone(times[1..])
      case None => None
      case Some(i) => Some(i + 1)
  }

  /** The parsed date-time of every record, in feed order. */
  function RecordTimes(records: seq<RawRecord>): (times: seq<Option<DateTime>>)
    ensures |times| == |records|
    ensures forall i :: 0 <= i < |records| ==> times[i] == RecordTime(records[i])
  {
    seq(|records|, i requires 0 <= i < |records| => RecordTime(records[i]))
  }

  /** The index of the first record whose date-time does not parse, if any. */
  function FirstBadRecord(records: seq<RawRecord>): (r: Option<nat>)
    ensures r.None? <==> forall i :: 0 <= i < |records| ==> RecordTime(records[i]).Some?
    ensures r.Some? ==> r.value < |records| && RecordTime(records[r.value]).None? &&
                        forall i :: 0 <= i < r.value ==> RecordTime(records[i]).Some?
  {
    FirstNone(RecordTimes(records))
  }

  /** Each record as a row: its timestamp and its coerced kVAh value. */
  function ToRows(records: seq<RawRecord>): (rows: seq<Point>)
    requires forall i :: 0 <= i < |records| ==> RecordTime(records[i]).Some?
    ensures |rows| == |records|
    ensures forall i :: 0 <= i < |records| ==>
      rows[i] == Point(ToMinutes(RecordTime(records[i]).value), Coerce(records[i].kvah))
  {
    seq(|records|, i requires 0 <= i < |records| =>
      Point(ToMinutes(RecordTime(records[i]).value), Coerce(records[i].kvah)))
  }

  /** The loaded, ordered, coerced readings, or the reason loading fails. */
  function LoadAndPreprocess(records: seq<RawRecord>): (r: Result<seq<Point>, PreprocessError>)
    ensures records == [] ==> r == Failure(NoDateColumn)
    ensures r.Success? ==> |r.value| == |records| && Sorted(r.value)
  {
    if records == [] then Failure(NoDateColumn)
    else
      match FirstBadRecord(records)
      case Some(i) => Failure(BadDateTime(i))
      case None =>
        SortByTimeSorted(ToRows(records));
        Success(SortByTime(ToRows(records)))
  }

  /**
   * Loading succeeds exactly when the feed is non-empty and every record's
   * date-time matches the format; it then yields one row per record, in
   * non-decreasing time order, each row holding its record's timestamp and
   * coerced kVAh value. A failure names the first record that does not parse.
   */
  lemma LoadAndPreprocessSpec(records: seq<RawRecord>)
    ensures records == [] ==> LoadAndPreprocess(records) == Failure(NoDateColumn)
    ensures LoadAndPreprocess(records).Success? <==>
      records != [] && forall i :: 0 <= i < |records| ==> RecordTime(records[i]).Some?
    ensures LoadAndPreprocess(records).Failure? && records != [] ==>
      exists i :: 0 <= i < |records| && LoadAndPreprocess(records).error == BadDateTime(i) &&
                  RecordTime(records[i]).None? && forall j :: 0 <= j < i ==> RecordTime(records[j]).Some?
    ensures LoadAndPreprocess(records).Success? ==>
      var rows := LoadAndPreprocess(records).value;
      Sorted(rows) && multiset(rows) == multiset(ToRows(records))
  {
    if LoadAndPreprocess(records).Success? {
      SortByTimeSorted(ToRows(records));
    }
    if LoadAndPreprocess(records).Failure? && records != [] {
      var i := FirstBadRecord(records).value;
      assert LoadAndPreprocess(records).error == BadDateTime(i);
    }
  }

  /** A reading in the format parses to its date-time. */
  lemma ReadingFormatAccepted()
    ensures ParseReadingTime("15-01-2024 10:30") == Some(DateTime(2024, 1, 15, 10, 30))
  {
    var s := "15-01-2024 10:30";
    assert ReadDay(s, 0) == Some((15, 2));
    assert ReadShort(s, 3) == Some((1, 5));
    assert ReadYear(s, 6) == Some((2024, 10));
    assert SkipSpaces(s, 11) == 11;
    assert ReadShort(s, 11) == Some((10, 13));
    assert ReadShort(s, 14) == Some((30, 16));
  }

  /** Any run of whitespace separates the date from the time, the ASCII separators U+001C to U+001F included. */
  lemma ReadingFormatOtherWhitespace()
    ensures ParseReadingTime("15-01-2024\t\U{1C}10:30") == Some(DateTime(2024, 1, 15, 10, 30))
  {
    var s := "15-01-2024\t\U{1C}10:30";
    assert ReadDay(s, 0) == Some((15, 2));
    assert ReadShort(s, 3) == Some((1, 5));
    assert ReadYear(s, 6) == Some((2024, 10));
    assert SkipSpaces(s, 11) == 12;
    assert ReadShort(s, 12) == Some((10, 14));
    assert ReadShort(s, 15) == Some((30, 17));
  }

  /** Single-digit day, month and hour fields are accepted as strptime accepts them. */
  lemma ReadingFormatShortFields()
    ensures ParseReadingTime("5-1-2024 7:05") == Some(DateTime(2024, 1, 5, 7, 5))
  {
    var s := "5-1-2024 7:05";
    assert ReadDay(s, 0) == Some((5, 1));
    assert ReadShort(s, 2) == Some((1, 3));
    assert ReadYear(s, 4) == Some((2024, 8));
    assert SkipSpaces(s, 9) == 9;
    assert ReadShort(s, 9) == Some((7, 10));
    assert ReadShort(s, 11) == Some((5, 13));
  }

  /** A day written as a space and one digit is accepted, as strptime's %d accepts it. */
  lemma ReadingFormatSpacedDay()
    ensures ParseReadingTime(" 5-01-2024 10:30") == Some(DateTime(2024, 1, 5, 10, 30))
  {
    var s := " 5-01-2024 10:30";
    assert ReadDay(s, 0) == Some((5, 2));
    assert ReadShort(s, 3) == Some((1, 5));
    assert ReadYear(s, 6) == Some((2024, 10));
    assert SkipSpaces(s, 11) == 11;
    assert ReadShort(s, 11) == Some((10, 13));
    assert ReadShort(s, 14) == Some((30, 16));
  }

  /** A date written year first does not match the reading format. */
  lemma ReadingFormatRejectsIsoDate()
    ensures ParseReadingTime("2024-01-15 10:30") == None
  {
    var s := "2024-01-15 10:30";
    assert ReadDay(s, 0) == Some((20, 2));
    assert s[2] == '2';
  }

  /** A day that the month does not have is rejected. */
  lemma ReadingFormatRejectsMissingDay()
    ensures ParseReadingTime("31-02-2024 10:30") == None
  {
    var s := "31-02-2024 10:30";
    assert ReadDay(s, 0) == Some((31, 2));
    assert ReadShort(s, 3) == Some((2, 5));
    assert ReadYear(s, 6) == Some((2024, 10));
    assert SkipSpaces(s, 11) == 11;
    assert ReadShort(s, 11) == Some((10, 13));
    assert ReadShort(s, 14) == Some((30, 16));
  }

  /** A date without a time is rejected. */
  lemma ReadingFormatRejectsDateOnly()
    ensures ParseReadingTime("15-01-2024") == None
  {
    var s := "15-01-2024";
    assert ReadDay(s, 0) == Some((15, 2));
    assert ReadShort(s, 3) == Some((1, 5));
    assert ReadYear(s, 6) == Some((2024, 10));
  }
}
