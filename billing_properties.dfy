/**
 * What the billing engine promises about its figures, proved of EnergyBill,
 * the function that CalculateEnergyBill is verified to compute.
 */
module BillingProperties {
  import opened Outcomes
  import opened TimeSeries
  import opened Billing

  /**
   * Conservation: every forecast row lands in exactly one interval, so the five
   * interval totals add up to the predicted total, nothing lost and nothing
   * counted twice.
   */
  lemma {:induction false} IntervalTotalsConserve(forecast: seq<Point>)
    ensures IntervalTotal(forecast, Hours0To6) + IntervalTotal(forecast, Hours22To24) +
            IntervalTotal(forecast, Hours6To9And12To18) + IntervalTotal(forecast, Hours9To12) +
            IntervalTotal(forecast, Hours18To22) == Sum(forecast)
  {
    if forecast != [] {
      IntervalTotalsConserve(forecast[..|forecast| - 1]);
      var p := forecast[|forecast| - 1];
      assert Classify(HourOfDay(p.time)).Some?;
    }
  }

  /**
   * The bill fails exactly when a rate is missing, naming the first key read
   * that is missing; otherwise it is the bill for the rates the table holds.
   */
  lemma EnergyBillReadsRates(forecast: seq<Point>, rates: map<string, real>, totalHours: int)
    requires totalHours > 0
    ensures EnergyBill(forecast, rates, totalHours).Failure? <==> exists k :: k in RateKeys && k !in rates
    ensures EnergyBill(forecast, rates, totalHours).Failure? ==>
      var k := EnergyBill(forecast, rates, totalHours).error.key;
      exists i :: 0 <= i < |RateKeys| && RateKeys[i] == k && k !in rates &&
                  forall j :: 0 <= j < i ==> RateKeys[j] in rates
    ensures EnergyBill(forecast, rates, totalHours).Success? ==>
      ReadTariff(rates).Success? &&
      EnergyBill(forecast, rates, totalHours).value == BillFor(forecast, ReadTariff(rates).value, totalHours)
  {
  }

  /**
   * How the eight figures are made from the forecast and the rates: demand is
   * twice the average predicted kVAh per hour at the kVA rate; wheeling,
   * energy, fuel adjustment and tax are the predicted total at their rates;
   * the time-of-day charge weighs each interval's total by its own rate; the
   * duty is levied on the five charges before it and not on the tax; and the
   * total is the sum of the other seven.
   */
  lemma BillComposition(forecast: seq<Point>, tariff: Tariff, totalHours: int)
    requires totalHours > 0
    ensures
      var bill := BillFor(forecast, tariff, totalHours);
      var total := Sum(forecast);
      && bill.demandCharges == total / totalHours as real * 2.0 * tariff.ratePerKva
      && bill.wheelingCharges == total * tariff.wheelingChargeRate
      && bill.energyCharges == total * tariff.ratePerKwh
      && bill.todCharges ==
           IntervalTotal(forecast, Hours0To6) * tariff.tod0To6 +
           IntervalTotal(forecast, Hours22To24) * tariff.tod22To24 +
           IntervalTotal(forecast, Hours6To9And12To18) * tariff.tod6To9And12To18 +
           IntervalTotal(forecast, Hours9To12) * tariff.tod9To12 +
           IntervalTotal(forecast, Hours18To22) * tariff.tod18To22
      && bill.fac == total * tariff.facRate
      && bill.electricityDuty ==
           (bill.demandCharges + bill.wheelingCharges + bill.energyCharges + bill.todCharges + bill.fac) *
           tariff.electricityDutyRate
      && bill.taxOnSale == total * tariff.taxOnSaleRate
      && bill.totalCharges ==
           bill.demandCharges + bill.wheelingCharges + bill.energyCharges + bill.todCharges +
           bill.fac + bill.electricityDuty + bill.taxOnSale
  {
    TodSumByInterval(IntervalTotals(forecast), tariff);
  }

  /** With one rate for all five intervals, the time-of-day charge is the predicted total at that rate. */
  lemma TodChargesAtUniformRate(forecast: seq<Point>, tariff: Tariff, totalHours: int, rate: real)
    requires totalHours > 0
    requires forall b :: tariff.TodRate(b) == rate
    ensures BillFor(forecast, tariff, totalHours).todCharges == Sum(forecast) * rate
  {
    var totals := IntervalTotals(forecast);
    var tod := TodSum(totals, tariff, TodIntervals);
    assert BillFor(forecast, tariff, totalHours).todCharges == tod;
    assert tod == TotalOver(totals, TodIntervals) * rate by {
      TodSumAtUniformRate(totals, tariff, TodIntervals, rate);
    }
    assert TotalOver(totals, TodIntervals) == Sum(forecast) by {
      TotalOverIntervals(totals);
      IntervalTotalsConserve(forecast);
    }
  }

  lemma TotalOverIntervals(totals: map<TodInterval, real>)
    requires Complete(totals)
    ensures TotalOver(totals, TodIntervals) ==
      totals[Hours0To6] + totals[Hours22To24] + totals[Hours6To9And12To18] + totals[Hours9To12] +
      totals[Hours18To22]
  {
    var s := TodIntervals;
    var s4, s3, s2, s1: seq<TodInterval> :=
      [Hours0To6, Hours22To24, Hours6To9And12To18, Hours9To12],
      [Hours0To6, Hours22To24, Hours6To9And12To18],
      [Hours0To6, Hours22To24],
      [Hours0To6];
    assert s[..4] == s4 && s4[..3] == s3 && s3[..2] == s2 && s2[..1] == s1 && s1[..0] == [];
    assert TotalOver(totals, s1) == totals[Hours0To6];
    assert TotalOver(totals, s2) == TotalOver(totals, s1) + totals[Hours22To24];
    assert TotalOver(totals, s3) == TotalOver(totals, s2) + totals[Hours6To9And12To18];
    assert TotalOver(totals, s4) == TotalOver(totals, s3) + totals[Hours9To12];
    assert TotalOver(totals, s) == TotalOver(totals, s4) + totals[Hours18To22];
  }

  /** The accumulators of `intervals`, added up. */
  function TotalOver(totals: map<TodInterval, real>, intervals: seq<TodInterval>): real
    requires Complete(totals)
  {
    if intervals == [] then 0.0
    else TotalOver(totals, intervals[..|intervals| - 1]) + totals[intervals[|intervals| - 1]]
  }

  lemma {:induction false} TodSumAtUniformRate(totals: map<TodInterval, real>, tariff: Tariff,
                                               intervals: seq<TodInterval>, rate: real)
    requires Complete(totals)
    requires forall b :: tariff.TodRate(b) == rate
    ensures TodSum(totals, tariff, intervals) == TotalOver(totals, intervals) * rate
  {
    if intervals != [] {
      var prefix, b := intervals[..|intervals| - 1], intervals[|intervals| - 1];
      TodSumAtUniformRate(totals, tariff, prefix, rate);
      assert TotalOver(totals, prefix) * rate + totals[b] * rate == (TotalOver(totals, prefix) + totals[b]) * rate;
    }
  }

  /** The interval totals depend on which rows there are, not on their order. */
  lemma IntervalTotalIgnoresOrder(a: seq<Point>, a': seq<Point>, b: TodInterval)
    requires multiset(a) == multiset(a')
    ensures IntervalTotal(a, b) == IntervalTotal(a', b)
  {
    SumByPermutation(a, a', Portion(b));
  }

  /** Reordering the forecast rows leaves every figure of the bill unchanged. */
  lemma BillIgnoresRowOrder(a: seq<Point>, a': seq<Point>, rates: map<string, real>, totalHours: int)
    requires totalHours > 0
    requires multiset(a) == multiset(a')
    ensures EnergyBill(a, rates, totalHours) == EnergyBill(a', rates, totalHours)
  {
    if HasRates(rates) {
      SumByPermutation(a, a', Value);
      forall b {
        IntervalTotalIgnoresOrder(a, a', b);
      }
      TodSumAgrees(IntervalTotals(a), IntervalTotals(a'), ReadTariff(rates).value, TodIntervals);
    }
  }

  /**
   * The tax on sale is outside the duty base: changing its rate changes the tax
   * and the total by the same amount and no other figure.
   */
  lemma TaxOutsideDutyBase(forecast: seq<Point>, tariff: Tariff, totalHours: int, rate: real)
    requires totalHours > 0
    ensures
      var before := BillFor(forecast, tariff, totalHours);
      var after := BillFor(forecast, tariff.(taxOnSaleRate := rate), totalHours);
      && after.electricityDuty == before.electricityDuty
      && after.taxOnSale - before.taxOnSale == after.totalCharges - before.totalCharges
      && after == before.(taxOnSale := after.taxOnSale, totalCharges := after.totalCharges)
  {
    var tariff' := tariff.(taxOnSaleRate := rate);
    var totals := IntervalTotals(forecast);
    assert TodSum(totals, tariff', TodIntervals) == TodSum(totals, tariff, TodIntervals) by {
      TodSumSameRates(totals, tariff, tariff', TodIntervals);
    }
    assert BillFor(forecast, tariff, totalHours) == Charges(Sum(forecast), totals, tariff, totalHours);
    assert BillFor(forecast, tariff', totalHours) == Charges(Sum(forecast), totals, tariff', totalHours);
  }

  /** The charge over the intervals reads the time-of-day rates only. */
  lemma {:induction false} TodSumSameRates(totals: map<TodInterval, real>, t1: Tariff, t2: Tariff,
                                           intervals: seq<TodInterval>)
    requires Complete(totals)
    requires forall b :: t1.TodRate(b) == t2.TodRate(b)
    ensures TodSum(totals, t1, intervals) == TodSum(totals, t2, intervals)
  {
    if intervals != [] {
      TodSumSameRates(totals, t1, t2, intervals[..|intervals| - 1]);
    }
  }

  /** A series of equal values adds up to that value times its length. */
  lemma {:induction false} SumOfEqualValues(s: seq<Point>, v: real)
    requires forall i :: 0 <= i < |s| ==> s[i].value == v
    ensures Sum(s) == |s| as real * v
  {
    if s != [] {
      SumOfEqualValues(s[..|s| - 1], v);
    }
  }

  /** One forecast row per hour of a day, 10 kVAh each. */
  function ExampleForecast(): (forecast: seq<Point>)
    ensures |forecast| == 24
    ensures forall i :: 0 <= i < 24 ==> forecast[i].value == 10.0 && HourOfDay(forecast[i].time) == i
  {
    seq(24, h => Point(h * 60, 10.0))
  }

  function ExampleRates(): map<string, real>
  {
    map[RatePerKva := 100.0, WheelingChargeRate := 1.0, RatePerKwh := 5.0,
        TodRateKey(Hours0To6) := 0.1, TodRateKey(Hours22To24) := 0.1,
        TodRateKey(Hours6To9And12To18) := 0.1, TodRateKey(Hours9To12) := 0.1,
        TodRateKey(Hours18To22) := 0.1,
        FacRate := 0.02, ElectricityDutyRate := 0.05, TaxOnSaleRate := 0.02]
  }

  /**
   * The worked example: 240 kVAh over 24 hours gives demand 2000, wheeling 240,
   * energy 1200, time of day 24, fuel adjustment 4.8, duty 5% of 3468.8,
   * tax 4.8 and a total of 3647.04.
   */
  lemma WorkedExample()
    ensures EnergyBill(ExampleForecast(), ExampleRates(), 24) ==
      Success(Bill(3647.04, 2000.0, 240.0, 1200.0, 24.0, 4.8, 173.44, 4.8))
  {
    var tariff := Tariff(100.0, 1.0, 5.0, 0.1, 0.1, 0.1, 0.1, 0.1, 0.02, 0.05, 0.02);
    ExampleTariff();
    ExampleBill(tariff);
  }

  /** The example table holds every rate, and reading it gives the example tariff. */
  lemma ExampleTariff()
    ensures ReadTariff(ExampleRates()) == Success(Tariff(100.0, 1.0, 5.0, 0.1, 0.1, 0.1, 0.1, 0.1, 0.02, 0.05, 0.02))
  {
    var rates := ExampleRates();
    assert HasRates(rates);
  }

  /** The example forecast priced at the example tariff. */
  lemma ExampleBill(tariff: Tariff)
    requires tariff == Tariff(100.0, 1.0, 5.0, 0.1, 0.1, 0.1, 0.1, 0.1, 0.02, 0.05, 0.02)
    ensures BillFor(ExampleForecast(), tariff, 24) == Bill(3647.04, 2000.0, 240.0, 1200.0, 24.0, 4.8, 173.44, 4.8)
  {
    var forecast := ExampleForecast();
    SumOfEqualValues(forecast, 10.0);
    TodChargesAtUniformRate(forecast, tariff, 24, 0.1);
    BillComposition(forecast, tariff, 24);
  }
}
