/**
 * The billing engine (billing.py, calculate_energy_bill): a forecast series, one
 * point per forecast hour whose value is the predicted kVAh, and a tariff table
 * become eight charge figures.  The tariff table is the key-to-rate map that the
 * rate file holds; reading that file is not part of this model.
 */
module Billing {
  import opened Outcomes
  import opened TimeSeries

  /** The five time-of-day intervals of the tariff, named after their labels. */
  datatype TodInterval = Hours0To6 | Hours22To24 | Hours6To9And12To18 | Hours9To12 | Hours18To22

  /** The intervals in the order in which the source lists them. */
  const TodIntervals: seq<TodInterval> :=
    [Hours0To6, Hours22To24, Hours6To9And12To18, Hours9To12, Hours18To22]

  /**
   * The clock hours an interval stands for, as its label reads: "0-6" is
   * [0, 6), "6-9 & 12-18" is [6, 9) together with [12, 18), and so on.
   */
  predicate Covers(b: TodInterval, hour: int)
  {
    match b
    case Hours0To6 => 0 <= hour < 6
    case Hours22To24 => 22 <= hour < 24
    case Hours6To9And12To18 => 6 <= hour < 9 || 12 <= hour < 18
    case Hours9To12 => 9 <= hour < 12
    case Hours18To22 => 18 <= hour < 22
  }

  /**
   * The if/elif chain that picks the accumulator a forecast row is added to;
   * None when no branch fires.  Although the chain tests 22-24 before the
   * morning and afternoon hours, the intervals are disjoint, so every hour of
   * the day lands in exactly the interval whose label covers it.
   */
  function Classify(hour: int): (r: Option<TodInterval>)
    ensures r.Some? <==> 0 <= hour < 24
    ensures forall b :: r == Some(b) <==> Covers(b, hour)
  {
    if 0 <= hour < 6 then Some(Hours0To6)
    else if 22 <= hour < 24 then Some(Hours22To24)
    else if 6 <= hour < 9 || 12 <= hour < 18 then Some(Hours6To9And12To18)
    else if 9 <= hour < 12 then Some(Hours9To12)
    else if 18 <= hour < 22 then Some(Hours18To22)
    else None
  }

  /** The number of hours below `n` that interval `b` covers. */
  function CoveredHours(b: TodInterval, n: nat): nat
  {
    if n == 0 then 0 else CoveredHours(b, n - 1) + (if Covers(b, n - 1) then 1 else 0)
  }

  /** The number of hours below `n` that lie in [lo, hi). */
  function Span(n: nat, lo: nat, hi: nat): nat
    requires lo <= hi
  {
    if n <= lo then 0 else if n >= hi then hi - lo else n - lo
  }

  lemma {:induction false} CoveredHoursBySpan(b: TodInterval, n: nat)
    ensures CoveredHours(b, n) ==
      match b
      case Hours0To6 => Span(n, 0, 6)
      case Hours22To24 => Span(n, 22, 24)
      case Hours6To9And12To18 => Span(n, 6, 9) + Span(n, 12, 18)
      case Hours9To12 => Span(n, 9, 12)
      case Hours18To22 => Span(n, 18, 22)
  {
    if n > 0 {
      CoveredHoursBySpan(b, n - 1);
    }
  }

  /** The five intervals split the 24 hours of the day 6 + 2 + 9 + 3 + 4, with no hour twice. */
  lemma IntervalsPartitionDay()
    ensures forall hour, b1, b2 :: Covers(b1, hour) && Covers(b2, hour) ==> b1 == b2
    ensures forall hour, b :: Covers(b, hour) ==> 0 <= hour < 24
    ensures forall hour :: 0 <= hour < 24 ==>
      Covers(Hours0To6, hour) || Covers(Hours22To24, hour) || Covers(Hours6To9And12To18, hour) ||
      Covers(Hours9To12, hour) || Covers(Hours18To22, hour)
    ensures CoveredHours(Hours0To6, 24) == 6
    ensures CoveredHours(Hours22To24, 24) == 2
    ensures CoveredHours(Hours6To9And12To18, 24) == 9
    ensures CoveredHours(Hours9To12, 24) == 3
    ensures CoveredHours(Hours18To22, 24) == 4
  {
    CoveredHoursBySpan(Hours0To6, 24);
    CoveredHoursBySpan(Hours22To24, 24);
    CoveredHoursBySpan(Hours6To9And12To18, 24);
    CoveredHoursBySpan(Hours9To12, 24);
    CoveredHoursBySpan(Hours18To22, 24);
  }

  // ---------------------------------------------------------------------------
  // The tariff table

  const RatePerKva := "rate_per_kva"
  const WheelingChargeRate := "wheeling_charge_rate"
  const RatePerKwh := "rate_per_kWh"
  const FacRate := "fac_rate"
  const ElectricityDutyRate := "electricity_duty_rate"
  const TaxOnSaleRate := "tax_on_sale_rate"

  /** The key "tod_charge_" followed by the interval's label. */
  function TodRateKey(b: TodInterval): string
  {
    match b
    case Hours0To6 => "tod_charge_0-6"
    case Hours22To24 => "tod_charge_22-24"
    case Hours6To9And12To18 => "tod_charge_6-9 & 12-18"
    case Hours9To12 => "tod_charge_9-12"
    case Hours18To22 => "tod_charge_18-22"
  }

  /** The eleven keys the engine reads, in the order in which it reads them. */
  const RateKeys: seq<string> :=
    [RatePerKva, WheelingChargeRate, RatePerKwh,
     TodRateKey(Hours0To6), TodRateKey(Hours22To24), TodRateKey(Hours6To9And12To18),
     TodRateKey(Hours9To12), TodRateKey(Hours18To22),
     FacRate, ElectricityDutyRate, TaxOnSaleRate]

  /** Every key the engine reads is in the table. */
  predicate HasRates(rates: map<string, real>)
  {
    forall k :: k in RateKeys ==> k in rates
  }

  /** The first of `keys` that `rates` lacks: the lookup that raises a key error. */
  function FirstMissing(rates: map<string, real>, keys: seq<string>): (r: Option<string>)
    ensures r.None? <==> forall k :: k in keys ==> k in rates
    ensures r.Some? ==> exists i :: 0 <= i < |keys| && keys[i] == r.value && r.value !in rates &&
                                   forall j :: 0 <= j < i ==> keys[j] in rates
  {
    if keys == [] then None
    else if keys[0] !in rates then Some(keys[0])
    else
      var r := FirstMissing(rates, keys[1..]);
      assert forall k :: k in keys ==> k == keys[0] || k in keys[1..];
      if r.Some? then
        var i :| 0 < i + 1 <= |keys[1..]| && keys[1..][i] == r.value && r.value !in rates &&
                 forall j :: 0 <= j < i ==> keys[1..][j] in rates;
        assert keys[i + 1] == r.value;
        r
      else r
  }

  datatype BillingError = MissingRate(key: string)

  /** The eleven rates, once each has been looked up in the table. */
  datatype Tariff = Tariff(
    ratePerKva: real,
    wheelingChargeRate: real,
    ratePerKwh: real,
    tod0To6: real,
    tod22To24: real,
    tod6To9And12To18: real,
    tod9To12: real,
    tod18To22: real,
    facRate: real,
    electricityDutyRate: real,
    taxOnSaleRate: real)
  {
    /** The rate stored under TodRateKey(b). */
    function TodRate(b: TodInterval): real
    {
      match b
      case Hours0To6 => tod0To6
      case Hours22To24 => tod22To24
      case Hours6To9And12To18 => tod6To9And12To18
      case Hours9To12 => tod9To12
      case Hours18To22 => tod18To22
    }
  }

  /** A tariff agrees with the table on each of the five named time-of-day keys, so on all of them. */
  lemma TodRatesByCases(tariff: Tariff, rates: map<string, real>)
    requires forall b :: TodRateKey(b) in rates
    requires tariff.tod0To6 == rates[TodRateKey(Hours0To6)]
    requires tariff.tod22To24 == rates[TodRateKey(Hours22To24)]
    requires tariff.tod6To9And12To18 == rates[TodRateKey(Hours6To9And12To18)]
    requires tariff.tod9To12 == rates[TodRateKey(Hours9To12)]
    requires tariff.tod18To22 == rates[TodRateKey(Hours18To22)]
    ensures forall b :: tariff.TodRate(b) == rates[TodRateKey(b)]
  {
    forall b
      ensures tariff.TodRate(b) == rates[TodRateKey(b)]
    {
      match b
      case Hours0To6 =>
      case Hours22To24 =>
      case Hours6To9And12To18 =>
      case Hours9To12 =>
      case Hours18To22 =>
    }
  }

  /**
   * The rate lookups of the engine: the rates under the eleven keys, or the
   * error for the first key read that the table lacks.
   */
  function ReadTariff(rates: map<string, real>): (r: Result<Tariff, BillingError>)
    ensures r.Success? <==> HasRates(rates)
    ensures r.Failure? ==>
      exists i :: 0 <= i < |RateKeys| && RateKeys[i] == r.error.key && r.error.key !in rates &&
                  forall j :: 0 <= j < i ==> RateKeys[j] in rates
    ensures r.Success? ==>
      && r.value.ratePerKva == rates[RatePerKva]
      && r.value.wheelingChargeRate == rates[WheelingChargeRate]
      && r.value.ratePerKwh == rates[RatePerKwh]
      && (forall b :: r.value.TodRate(b) == rates[TodRateKey(b)])
      && r.value.facRate == rates[FacRate]
      && r.value.electricityDutyRate == rates[ElectricityDutyRate]
      && r.value.taxOnSaleRate == rates[TaxOnSaleRate]
  {
    match FirstMissing(rates, RateKeys)
    case Some(k) => Failure(MissingRate(k))
    case None =>
      var tariff := Tariff(
        rates[RatePerKva], rates[WheelingChargeRate], rates[RatePerKwh],
        rates[TodRateKey(Hours0To6)], rates[TodRateKey(Hours22To24)],
        rates[TodRateKey(Hours6To9And12To18)], rates[TodRateKey(Hours9To12)],
        rates[TodRateKey(Hours18To22)],
        rates[FacRate], rates[ElectricityDutyRate], rates[TaxOnSaleRate]);
      TodRatesByCases(tariff, rates);
      Success(tariff)
  }

  // ---------------------------------------------------------------------------
  // The charges

  /** The eight figures the engine returns. */
  datatype Bill = Bill(
    totalCharges: real,
    demandCharges: real,
    wheelingCharges: real,
    energyCharges: real,
    todCharges: real,
    fac: real,
    electricityDuty: real,
    taxOnSale: real)

  /** What a forecast point adds to the accumulator of interval `b`. */
  function Portion(b: TodInterval): Point -> real
  {
    (p: Point) => if Classify(HourOfDay(p.time)) == Some(b) then p.value else 0.0
  }

  /** The predicted kVAh of the points whose hour of day falls in interval `b`. */
  function IntervalTotal(forecast: seq<Point>, b: TodInterval): real
  {
    SumBy(forecast, Portion(b))
  }

  /** An accumulator per interval. */
  predicate Complete(totals: map<TodInterval, real>)
  {
    forall b: TodInterval :: b in totals
  }

  /** A map with a value for each of the five named intervals has an accumulator per interval. */
  lemma CompleteByCases(totals: map<TodInterval, real>)
    requires Hours0To6 in totals && Hours22To24 in totals && Hours6To9And12To18 in totals
    requires Hours9To12 in totals && Hours18To22 in totals
    ensures Complete(totals)
  {
    forall b: TodInterval
      ensures b in totals
    {
      match b
      case Hours0To6 =>
      case Hours22To24 =>
      case Hours6To9And12To18 =>
      case Hours9To12 =>
      case Hours18To22 =>
    }
  }

  /** Interval total times the interval's rate, added up over `intervals` in order. */
  function TodSum(totals: map<TodInterval, real>, tariff: Tariff, intervals: seq<TodInterval>): real
    requires Complete(totals)
  {
    if intervals == [] then 0.0
    else
      var b := intervals[|intervals| - 1];
      TodSum(totals, tariff, intervals[..|intervals| - 1]) + totals[b] * tariff.TodRate(b)
  }

  /** The charge over the intervals is each interval total times its own rate. */
  lemma TodSumByInterval(totals: map<TodInterval, real>, tariff: Tariff)
    requires Complete(totals)
    ensures TodSum(totals, tariff, TodIntervals) ==
      totals[Hours0To6] * tariff.tod0To6 + totals[Hours22To24] * tariff.tod22To24 +
      totals[Hours6To9And12To18] * tariff.tod6To9And12To18 + totals[Hours9To12] * tariff.tod9To12 +
      totals[Hours18To22] * tariff.tod18To22
  {
    var s := TodIntervals;
    var s4, s3, s2, s1: seq<TodInterval> :=
      [Hours0To6, Hours22To24, Hours6To9And12To18, Hours9To12],
      [Hours0To6, Hours22To24, Hours6To9And12To18],
      [Hours0To6, Hours22To24],
      [Hours0To6];
    assert s[..4] == s4 && s4[..3] == s3 && s3[..2] == s2 && s2[..1] == s1 && s1[..0] == [];
    assert TodSum(totals, tariff, s1) == totals[Hours0To6] * tariff.tod0To6;
    assert TodSum(totals, tariff, s2) == TodSum(totals, tariff, s1) + totals[Hours22To24] * tariff.tod22To24;
    assert TodSum(totals, tariff, s3) ==
      TodSum(totals, tariff, s2) + totals[Hours6To9And12To18] * tariff.tod6To9And12To18;
    assert TodSum(totals, tariff, s4) == TodSum(totals, tariff, s3) + totals[Hours9To12] * tariff.tod9To12;
    assert TodSum(totals, tariff, s) == TodSum(totals, tariff, s4) + totals[Hours18To22] * tariff.tod18To22;
  }

  /** The charge formulas, given the predicted total and the per-interval totals. */
  function Charges(total: real, totals: map<TodInterval, real>, tariff: Tariff, totalHours: int): Bill
    requires totalHours > 0 && Complete(totals)
  {
    var demandCharges := total / totalHours as real * 2.0 * tariff.ratePerKva;
    var wheelingCharges := total * tariff.wheelingChargeRate;
    var energyCharges := total * tariff.ratePerKwh;
    var todCharges := TodSum(totals, tariff, TodIntervals);
    var fac := total * tariff.facRate;
    var electricityDuty :=
      (demandCharges + wheelingCharges + energyCharges + todCharges + fac) * tariff.electricityDutyRate;
    var taxOnSale := total * tariff.taxOnSaleRate;
    Bill(demandCharges + wheelingCharges + energyCharges + todCharges + fac + electricityDuty + taxOnSale,
         demandCharges, wheelingCharges, energyCharges, todCharges, fac, electricityDuty, taxOnSale)
  }

  /** The accumulators after the whole forecast has been bucketed. */
  function IntervalTotals(forecast: seq<Point>): (totals: map<TodInterval, real>)
    ensures Complete(totals)
    ensures forall b :: totals[b] == IntervalTotal(forecast, b)
  {
    var totals := map[
      Hours0To6 := IntervalTotal(forecast, Hours0To6),
      Hours22To24 := IntervalTotal(forecast, Hours22To24),
      Hours6To9And12To18 := IntervalTotal(forecast, Hours6To9And12To18),
      Hours9To12 := IntervalTotal(forecast, Hours9To12),
      Hours18To22 := IntervalTotal(forecast, Hours18To22)];
    CompleteByCases(totals);
    totals
  }

  /** The bill for a forecast once every rate has been read. */
  function BillFor(forecast: seq<Point>, tariff: Tariff, totalHours: int): Bill
    requires totalHours > 0
  {
    Charges(Sum(forecast), IntervalTotals(forecast), tariff, totalHours)
  }

  /** What calculate_energy_bill returns, or the key error it raises. */
  function EnergyBill(forecast: seq<Point>, rates: map<string, real>, totalHours: int): (r: Result<Bill, BillingError>)
    requires totalHours > 0
    ensures r.Success? <==> HasRates(rates)
    ensures r.Failure? ==> r.error.key in RateKeys && r.error.key !in rates
  {
    match ReadTariff(rates)
    case Failure(e) => Failure(e)
    case Success(tariff) => Success(BillFor(forecast, tariff, totalHours))
  }

  /** Adding one more row to the forecast adds its kVAh to the one interval its hour falls in. */
  lemma IntervalTotalStep(forecast: seq<Point>, i: nat, b: TodInterval)
    requires i < |forecast|
    ensures IntervalTotal(forecast[..i + 1], b) ==
      IntervalTotal(forecast[..i], b) +
      (if Classify(HourOfDay(forecast[i].time)) == Some(b) then forecast[i].value else 0.0)
  {
    assert forecast[..i + 1][..i] == forecast[..i];
  }

  /** The charge over the intervals reads the accumulators only. */
  lemma {:induction false} TodSumAgrees(t1: map<TodInterval, real>, t2: map<TodInterval, real>,
                                        tariff: Tariff, intervals: seq<TodInterval>)
    requires Complete(t1) && Complete(t2)
    requires forall b :: t1[b] == t2[b]
    ensures TodSum(t1, tariff, intervals) == TodSum(t2, tariff, intervals)
  {
    if intervals != [] {
      TodSumAgrees(t1, t2, tariff, intervals[..|intervals| - 1]);
    }
  }

  /**
   * The bucketing loop of calculate_energy_bill: one accumulator per interval,
   * kept in a map as the source keeps them in a dictionary, and each forecast
   * row added to the accumulator its if/elif chain selects.
   */
  method AccumulateByInterval(forecast: seq<Point>) returns (totals: map<TodInterval, real>)
    ensures Complete(totals)
    ensures forall b :: totals[b] == IntervalTotal(forecast, b)
  {
    totals :=
      map[Hours0To6 := 0.0, Hours22To24 := 0.0, Hours6To9And12To18 := 0.0, Hours9To12 := 0.0, Hours18To22 := 0.0];
    CompleteByCases(totals);
    var i := 0;
    while i < |forecast|
      invariant 0 <= i <= |forecast|
      invariant Complete(totals)
      invariant forall b :: totals[b] == IntervalTotal(forecast[..i], b)
    {
      forall b {
        IntervalTotalStep(forecast, i, b);
      }
      var hour := HourOfDay(forecast[i].time);
      var kvah := forecast[i].value;
      if 0 <= hour < 6 {
        totals := totals[Hours0To6 := totals[Hours0To6] + kvah];
      } else if 22 <= hour < 24 {
        totals := totals[Hours22To24 := totals[Hours22To24] + kvah];
      } else if 6 <= hour < 9 || 12 <= hour < 18 {
        totals := totals[Hours6To9And12To18 := totals[Hours6To9And12To18] + kvah];
      } else if 9 <= hour < 12 {
        totals := totals[Hours9To12 := totals[Hours9To12] + kvah];
      } else if 18 <= hour < 22 {
        totals := totals[Hours18To22 := totals[Hours18To22] + kvah];
      }
      i := i + 1;
    }
    assert forecast[..i] == forecast;
  }

  /**
   * calculate_energy_bill.  `totalHours` is what the caller passes, the number
   * of forecast rows, which the request handler has already checked to be
   * positive.  A rate missing from the table is the key error the source raises.
   */
  method CalculateEnergyBill(forecast: seq<Point>, rates: map<string, real>, totalHours: int)
    returns (r: Result<Bill, BillingError>)
    requires totalHours > 0
    ensures r == EnergyBill(forecast, rates, totalHours)
  {
    var read := ReadTariff(rates);
    if read.Failure? {
      return Failure(read.error);
    }
    var bill := ComputeCharges(forecast, read.value, totalHours);
    r := Success(bill);
  }

  /** The body of calculate_energy_bill once every rate has been found. */
  method ComputeCharges(forecast: seq<Point>, tariff: Tariff, totalHours: int) returns (bill: Bill)
    requires totalHours > 0
    ensures bill == BillFor(forecast, tariff, totalHours)
  {
    var total := Sum(forecast);
    var demandCharges := total / totalHours as real * 2.0 * tariff.ratePerKva;
    var wheelingCharges := total * tariff.wheelingChargeRate;
    var energyCharges := total * tariff.ratePerKwh;

    var totals := AccumulateByInterval(forecast);
    TodSumAgrees(totals, IntervalTotals(forecast), tariff, TodIntervals);

    var todCharges := TodSum(totals, tariff, TodIntervals);
    var fac := total * tariff.facRate;
    var electricityDuty :=
      (demandCharges + wheelingCharges + energyCharges + todCharges + fac) * tariff.electricityDutyRate;
    var taxOnSale := total * tariff.taxOnSaleRate;
    var totalCharges := demandCharges + wheelingCharges + energyCharges + todCharges + fac + electricityDuty + taxOnSale;
    bill := Bill(totalCharges, demandCharges, wheelingCharges, energyCharges, todCharges,
                 fac, electricityDuty, taxOnSale);
    ghost var spec := Charges(total, IntervalTotals(forecast), tariff, totalHours);
    assert spec.todCharges == todCharges && spec.electricityDuty == electricityDuty;
    assert spec.totalCharges == totalCharges && spec.demandCharges == demandCharges;
    assert spec.wheelingCharges == wheelingCharges && spec.energyCharges == energyCharges;
    assert spec.fac == fac && spec.taxOnSale == taxOnSale;
  }
}
