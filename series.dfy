/**
 * The time-indexed series that flows between the stages of the pipeline.
 * A point is a timestamp, in whole minutes since 1970-01-01 00:00, and a value
 * (a meter reading, a consumption delta or a forecast, all in kVAh).
 */
module TimeSeries {

  datatype Point = Point(time: int, value: real)

  /** The first minute of the clock hour that holds minute `t` (a floor to the hour). */
  function HourStart(t: int): (s: int)
    ensures s <= t < s + 60
    ensures s % 60 == 0
  {
    t / 60 * 60
  }

  /** The hour of the day, 0 to 23, of minute `t`. */
  function HourOfDay(t: int): (h: int)
    ensures 0 <= h < 24
  {
    (t / 60) % 24
  }

  /** Flooring to the hour keeps the order of timestamps and leaves an hour start in place. */
  lemma HourStartMonotone(a: int, b: int)
    requires a <= b
    ensures HourStart(a) <= HourStart(b)
    ensures HourStart(HourStart(a)) == HourStart(a)
  {
    assert a / 60 <= b / 60;
  }

  /** Every later hour start lies at least an hour further on. */
  lemma HourStartsApart(a: int, b: int)
    requires a % 60 == 0 && b % 60 == 0 && a < b
    ensures a + 60 <= b
  {
  }

  predicate Sorted(s: seq<Point>)
  {
    forall i, j :: 0 <= i < j < |s| ==> s[i].time <= s[j].time
  }

  /** The sum of `f` over the points of `s`, added up from the first point to the last. */
  function SumBy(s: seq<Point>, f: Point -> real): real
  {
    if s == [] then 0.0 else SumBy(s[..|s| - 1], f) + f(s[|s| - 1])
  }

  function Value(p: Point): real
  {
    p.value
  }

  /** The sum of the values of a series. */
  function Sum(s: seq<Point>): real
  {
    SumBy(s, Value)
  }

  lemma {:induction false} SumByAppend(a: seq<Point>, b: seq<Point>, f: Point -> real)
    ensures SumBy(a + b, f) == SumBy(a, f) + SumBy(b, f)
    decreases |b|
  {
    if b == [] {
      assert a + b == a;
    } else {
      var b' := b[..|b| - 1];
      assert (a + b)[..|a + b| - 1] == a + b';
      SumByAppend(a, b', f);
    }
  }

  /** A sum depends only on the multiset of points, not on their order. */
  lemma {:induction false} SumByPermutation(a: seq<Point>, b: seq<Point>, f: Point -> real)
    requires multiset(a) == multiset(b)
    ensures SumBy(a, f) == SumBy(b, f)
    decreases |a|
  {
    if a == [] {
      assert |b| == |multiset(b)| == 0;
    } else {
      var x := a[|a| - 1];
      var a' := a[..|a| - 1];
      assert a == a' + [x];
      assert x in multiset(b);
      var j :| 0 <= j < |b| && b[j] == x;
      var b' := b[..j] + b[j + 1..];
      RemoveOne(a', b, j);
      SumByPermutation(a', b', f);
      SumByRemove(b, j, f);
    }
  }

  /** Taking the same point out of two equal multisets leaves equal multisets. */
  lemma RemoveOne(a': seq<Point>, b: seq<Point>, j: nat)
    requires j < |b| && multiset(a' + [b[j]]) == multiset(b)
    ensures multiset(a') == multiset(b[..j] + b[j + 1..])
  {
    var x := b[j];
    assert b == b[..j] + [x] + b[j + 1..];
    assert multiset(b) == multiset(b[..j]) + multiset{x} + multiset(b[j + 1..]);
    assert multiset(b[..j] + b[j + 1..]) == multiset(b[..j]) + multiset(b[j + 1..]);
    assert multiset(a' + [x]) == multiset(a') + multiset{x};
    assert multiset(a') == multiset(b) - multiset{x};
  }

  /** A sum is the sum without one point plus that point's summand. */
  lemma SumByRemove(b: seq<Point>, j: nat, f: Point -> real)
    requires j < |b|
    ensures SumBy(b, f) == SumBy(b[..j] + b[j + 1..], f) + f(b[j])
  {
    var x := b[j];
    assert b == b[..j] + [x] + b[j + 1..];
    SumByAppend(b[..j] + [x], b[j + 1..], f);
    SumByAppend(b[..j], [x], f);
    SumByAppend(b[..j], b[j + 1..], f);
    assert SumBy([x], f) == f(x) by {
      assert [x][..0] == [];
    }
  }

  /** Two summands that agree on every point of `s` give the same sum. */
  lemma {:induction false} SumByCongruent(s: seq<Point>, f: Point -> real, g: Point -> real)
    requires forall p :: p in s ==> f(p) == g(p)
    ensures SumBy(s, f) == SumBy(s, g)
  {
    if s != [] {
      SumByCongruent(s[..|s| - 1], f, g);
    }
  }

  /** Sums are additive in the summand. */
  lemma {:induction false} SumByAdd(s: seq<Point>, f: Point -> real, g: Point -> real, h: Point -> real)
    requires forall p :: p in s ==> f(p) == g(p) + h(p)
    ensures SumBy(s, f) == SumBy(s, g) + SumBy(s, h)
  {
    if s != [] {
      SumByAdd(s[..|s| - 1], f, g, h);
    }
  }

  /** A summand that is never negative gives a sum that is never negative. */
  lemma {:induction false} SumByNonNegative(s: seq<Point>, f: Point -> real)
    requires forall p :: p in s ==> f(p) >= 0.0
    ensures SumBy(s, f) >= 0.0
  {
    if s != [] {
      SumByNonNegative(s[..|s| - 1], f);
    }
  }

  /** A summand that is zero on every point of `s` gives zero. */
  lemma {:induction false} SumByZero(s: seq<Point>, f: Point -> real)
    requires forall p :: p in s ==> f(p) == 0.0
    ensures SumBy(s, f) == 0.0
  {
    if s != [] {
      SumByZero(s[..|s| - 1], f);
    }
  }
}
