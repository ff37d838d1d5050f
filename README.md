# Energy bill forecasting backend: the deterministic pipeline in Dafny

The backend loads cumulative kVAh meter readings and selects a date range.
It turns the readings into an hourly consumption series and differences that
series once when a stationarity test rejects it. A seasonal model forecasts
the next hours. The forecast is then priced with a time-of-day tariff.

This project models every deterministic stage of that pipeline. The two
statistical steps are not modelled: they enter as parameters, a p-value
function for the stationarity test and a sequence of predicted values for the
forecaster. The model then proves the properties the code promises.

Timestamps are whole minutes since 1970-01-01 00:00. Truncating to the hour
is `t / 60 * 60` and the hour of the day is `(t / 60) % 24`. Dafny's
division floors, as pandas' does. kVAh values and rates are reals.

| file | module | what it models |
|---|---|---|
| `outcomes.dfy` | `Outcomes` | `Option` (a `None` return) and `Result` (a raised error) |
| `series.dfy` | `TimeSeries` | the time-stamped point, hour truncation, sums over a series and their algebra (append, permutation, congruence, additivity, sign) |
| `calendar.dfy` | `Calendar` | the proleptic Gregorian calendar, timestamps of date-times, and the two fixed formats (`%d-%m-%Y %H:%M`, `%Y-%m-%d`) with strptime's field grammar |
| `preprocess.dfy` | `Preprocess` | `load_and_preprocess_data`: parse the date-times, sort by them, coerce kVAh with bad or missing values becoming 0 |
| `range_filter.dfy` | `RangeFilter` | `filter_data_by_date`: an inclusive mask between two midnights, `None` when nothing is selected |
| `hourly.dfy` | `Hourly` | `prepare_hourly_data`: absolute deltas, hourly resampling by sum, the one-shot differencing gate, and the delta column added to the caller's frame |
| `forecast.dfy` | `Forecast` | the forecast timestamps of `sarima_forecast` and the rows handed to billing |
| `billing.dfy` | `Billing` | `calculate_energy_bill`: reading the tariff, the bucketing loop, the charge formulas |
| `billing_properties.dfy` | `BillingProperties` | what the bill is: composition, conservation, uniform rates, order independence, duty base, worked example |

Imperative parts of the source are modelled as methods. The bucketing loop of
`calculate_energy_bill` is the method `AccumulateByInterval`. It uses a `while`
loop with invariants over a map of accumulators, as the source updates a
dictionary. The method's `ensures` ties each accumulator to `IntervalTotal`.
`prepare_hourly_data` writes a new column into the frame it is given. This is
`ReadingFrame.PrepareHourlyData`, which `modifies` the frame. Everything else
in the source is vectorised expressions, so it is modelled as functions with
lemmas.

Four behaviours of the code that a reader might not expect, and that the
model keeps:
- Sorting keeps duplicate timestamps. The sorted readings are therefore in
  non-decreasing order, not strictly increasing, and the model proves
  non-decreasing order and a permutation.
- The hourly resampling sums into a bin for every hour between the first and
  the last delta, so an hour without readings is present with the value 0
  (`ResampleShape`, `ResampleBinValues`).
- The range filter returns `None` for an empty selection and does not compare
  the two bounds; only the request handler compares them.
- The forecast hours start after the last point of the series that was
  fitted, which is the differenced series when the gate differenced.
  `GateKeepsForecastStart` shows that this is the same hour as after the
  undifferenced series whenever the hourly series has two or more hours.

## Model

| member | source | states |
|---|---|---|
| `Billing.Classify` | Bill-Pred-Backend-main/billing.py:19-28 | the if/elif chain picks an interval exactly for hours 0-23, and the interval it picks is the one whose label covers the hour, so the order of the tests never matters |
| `Billing.IntervalsPartitionDay` | Bill-Pred-Backend-main/billing.py:19-28 | no hour is covered by two intervals; only hours 0-23 are covered; every one of them is covered; the intervals hold 6, 2, 9, 3 and 4 hours |
| `Billing.FirstMissing` | Bill-Pred-Backend-main/billing.py:8-34 | none is missing exactly when every key is present; otherwise it gives the first absent key in reading order |
| `Billing.ReadTariff` | Bill-Pred-Backend-main/billing.py:8-34 | reading the eleven rates succeeds exactly when all keys are present; a failure names the first missing key the code would look up (its KeyError); on success every tariff field is the table's value for its key |
| `Billing.IntervalTotals` | Bill-Pred-Backend-main/billing.py:13-28 | holds an accumulator for each of the five intervals, each the sum of the kVAh of the rows whose hour falls in that interval |
| `Billing.Charges` | Bill-Pred-Backend-main/billing.py:4-48 | the eight figures from the predicted total and the five interval totals: demand is total ÷ hours × 2 × the kVA rate; wheeling, energy, fuel adjustment and tax are the total at their rates; time of day is the interval totals at their rates; duty is levied on the first five charges; the total adds all seven (stated for the whole bill by `BillComposition`) |
| `Billing.BillFor` | Bill-Pred-Backend-main/billing.py:4-48 | the bill for a forecast once every rate is read: the charge formulas applied to the forecast's total and its interval totals (its figures are stated by `BillComposition`) |
| `Billing.EnergyBill` | Bill-Pred-Backend-main/billing.py:3-48 | succeeds exactly when every rate key is in the table; a failure names a key the engine reads that the table lacks |
| `Billing.AccumulateByInterval` | Bill-Pred-Backend-main/billing.py:13-28 | the dictionary-updating loop ends with every interval's accumulator equal to the sum of its rows' kVAh |
| `Billing.ComputeCharges` | Bill-Pred-Backend-main/billing.py:4-48 | the step-by-step computation yields the bill `BillFor` defines |
| `Billing.CalculateEnergyBill` | Bill-Pred-Backend-main/billing.py:3-48 | the whole function, including the missing-rate error, yields `EnergyBill` |
| `BillingProperties.EnergyBillReadsRates` | Bill-Pred-Backend-main/billing.py:3-48 | the bill fails exactly when a rate key is missing and names the first missing key read; otherwise it is the bill for the tariff read from the table |
| `BillingProperties.BillComposition` | Bill-Pred-Backend-main/billing.py:4-36 | demand = total / hours × 2 × kVA rate; wheeling, energy, fuel adjustment and tax are the total at their rates; time-of-day is Σ interval total × its rate; duty is levied on demand + wheeling + energy + time-of-day + fuel adjustment; the total is the sum of the other seven figures |
| `Billing.TodSumByInterval` | Bill-Pred-Backend-main/billing.py:30 | the time-of-day sum over the interval list is the five interval totals, each times its own rate |
| `BillingProperties.IntervalTotalsConserve` | Bill-Pred-Backend-main/billing.py:4-28 | the five interval totals add up to the predicted total: no kVAh is lost or counted twice |
| `BillingProperties.TodSumAtUniformRate` | Bill-Pred-Backend-main/billing.py:30 | with a single rate for every interval, the time-of-day sum is the sum of the totals at that rate |
| `BillingProperties.TodChargesAtUniformRate` | Bill-Pred-Backend-main/billing.py:30 | with a single rate r for all five intervals, the time-of-day charge is the predicted total × r |
| `BillingProperties.TodSumSameRates` | Bill-Pred-Backend-main/billing.py:30 | the time-of-day charge depends on the time-of-day rates alone |
| `BillingProperties.IntervalTotalIgnoresOrder` | Bill-Pred-Backend-main/billing.py:15-28 | an interval total depends only on the multiset of forecast rows |
| `BillingProperties.BillIgnoresRowOrder` | Bill-Pred-Backend-main/billing.py:4-36 | permuting the forecast rows leaves the whole result unchanged, error or bill |
| `BillingProperties.TaxOutsideDutyBase` | Bill-Pred-Backend-main/billing.py:33-36 | changing the tax-on-sale rate changes the tax and the total by the same amount and leaves the duty and every other figure as it was |
| `BillingProperties.WorkedExample` | Bill-Pred-Backend-main/billing.py:4-48 | 24 hourly rows of 10 kVAh at the example tariff give demand 2000, wheeling 240, energy 1200, time of day 24, fuel adjustment 4.8, duty 173.44, tax 4.8, total 3647.04 |
| `Calendar.ToMinutes` | Bill-Pred-Backend-main/forecasting.py:23 | a date-time's timestamp has that date-time's hour of day, and its hour start lies its minutes earlier |
| `Calendar.ToMinutesOrdered` | Bill-Pred-Backend-main/forecasting.py:23-24 | timestamps preserve chronological order in both directions and are injective, so sorting on them is sorting by date-time |
| `Calendar.MinutesAfterMidnight` | Bill-Pred-Backend-main/forecasting.py:37-41 | a date-time lies hour × 60 + minute after 00:00 of its own day, within that day |
| `Calendar.RepresentableRange` | Bill-Pred-Backend-main/forecasting.py:37-38 | a date-time fits pandas' signed 64-bit nanosecond count exactly when it lies from 1677-09-21 00:13 to 2262-04-11 23:47 |
| `Calendar.ParseReadingTime` | Bill-Pred-Backend-main/forecasting.py:23 | whatever `%d-%m-%Y %H:%M` accepts is a valid calendar date-time that pandas can hold; any other instant is an error |
| `Calendar.ReadingTimeRoundTrip` | Bill-Pred-Backend-main/forecasting.py:23 | every representable date-time written as DD-MM-YYYY HH:MM parses back to itself |
| `Calendar.ReadDay` | Bill-Pred-Backend-main/forecasting.py:23 | a day field is one or two digits, or a space followed by a digit from 1 to 9, as in strptime's `%d` pattern |
| `Calendar.ParseDate` | Bill-Pred-Backend-main/forecasting.py:37-38 | whatever `%Y-%m-%d` accepts is a valid date at 00:00 that pandas can hold; any other date is an error |
| `Calendar.DateRoundTrip` | Bill-Pred-Backend-main/forecasting.py:37-38 | every date written as YYYY-MM-DD whose midnight pandas can hold parses back to that midnight |
| `Calendar.DateSpacedDay` | Bill-Pred-Backend-main/forecasting.py:37-38 | the bound "2024-01- 5" reads as 2024-01-05, while a space before 0, or a tab before the digit, is rejected |
| `Calendar.DateBeforeRange` | Bill-Pred-Backend-main/forecasting.py:37-38 | "1677-09-21" is rejected, because its midnight precedes the earliest instant pandas can hold |
| `Calendar.FirstDateInRange` | Bill-Pred-Backend-main/forecasting.py:37-38 | "1677-09-22" is the first date accepted |
| `Calendar.LastDateInRange` | Bill-Pred-Backend-main/forecasting.py:37-38 | "2262-04-11" is the last date accepted |
| `Calendar.DateAfterRange` | Bill-Pred-Backend-main/forecasting.py:37-38 | "2262-04-12" is rejected |
| `Preprocess.ReadingFormatAccepted` | Bill-Pred-Backend-main/forecasting.py:23 | "15-01-2024 10:30" parses to 2024-01-15 10:30 |
| `Preprocess.ReadingFormatShortFields` | Bill-Pred-Backend-main/forecasting.py:23 | single-digit day, month and hour fields are accepted, as strptime accepts them |
| `Preprocess.ReadingFormatSpacedDay` | Bill-Pred-Backend-main/forecasting.py:23 | a day written as a space and one digit is accepted |
| `Preprocess.ReadingFormatOtherWhitespace` | Bill-Pred-Backend-main/forecasting.py:23 | a tab and a U+001C separator between date and time are accepted, as `\s+` accepts them |
| `Preprocess.ReadingFormatRejectsIsoDate` | Bill-Pred-Backend-main/forecasting.py:23 | a year-first date fails to parse |
| `Preprocess.ReadingFormatRejectsMissingDay` | Bill-Pred-Backend-main/forecasting.py:23 | 31 February fails to parse |
| `Preprocess.ReadingFormatRejectsDateOnly` | Bill-Pred-Backend-main/forecasting.py:23 | a date without a time fails to parse |
| `Preprocess.ParseNumber` | Bill-Pred-Backend-main/forecasting.py:27 | a text that reads as a number is non-empty, and it reads as a negative number only when it starts with a minus sign |
| `Preprocess.ParseNumberExactly` | Bill-Pred-Backend-main/forecasting.py:27-28 | a text reads as x exactly when it is an optional sign followed by digits w, or by digits w, a point and digits f, with at least one digit in all, and x is w + f ÷ 10^|f|, negated after a minus sign; every other text reads as nothing, so the coercion gives it 0 |
| `Preprocess.UnsignedIsDecimalText` | Bill-Pred-Backend-main/forecasting.py:27 | whatever the unsigned reading accepts is digits with at most one point, and its value is that decimal's |
| `Preprocess.DecimalTextIsUnsigned` | Bill-Pred-Backend-main/forecasting.py:27 | every such decimal text is accepted with its value and does not start with a sign |
| `Preprocess.Coerce` | Bill-Pred-Backend-main/forecasting.py:27-28 | a number is kept, a null becomes 0, and a text becomes its numeric value or 0 when it is not a number |
| `Preprocess.DigitsParse` | Bill-Pred-Backend-main/forecasting.py:27 | every non-empty run of digits reads as its decimal value |
| `Preprocess.DecimalValue` | Bill-Pred-Backend-main/forecasting.py:27 | for all digit strings w and f, not both empty, "w.f" reads as w + f ÷ 10^|f| (so "12." and ".5" are numbers) |
| `Preprocess.SignedNumber` | Bill-Pred-Backend-main/forecasting.py:27 | any unsigned number text reads the same after a plus sign and as its negation after a minus sign |
| `Preprocess.WholeNumberRoundTrip` | Bill-Pred-Backend-main/forecasting.py:27 | a whole number in decimal, with or without a minus sign, is read as itself |
| `Preprocess.CoerceDecimal` | Bill-Pred-Backend-main/forecasting.py:27 | the text "12.5" is read as 12.5 |
| `Preprocess.CoerceSignedFraction` | Bill-Pred-Backend-main/forecasting.py:27 | the text "-.5" is read as −0.5 |
| `Preprocess.CoerceToZero` | Bill-Pred-Backend-main/forecasting.py:27-28 | "", "n/a", "1.2.3" and a null all become 0 |
| `Preprocess.InsertByTime` | Bill-Pred-Backend-main/forecasting.py:24 | insertion adds exactly the one row |
| `Preprocess.InsertByTimeSorted` | Bill-Pred-Backend-main/forecasting.py:24 | inserting into rows in time order keeps them in time order |
| `Preprocess.SortByTime` | Bill-Pred-Backend-main/forecasting.py:24 | sorting is a permutation of the rows |
| `Preprocess.SortByTimeSorted` | Bill-Pred-Backend-main/forecasting.py:24 | the sorted rows are in non-decreasing time order |
| `Preprocess.SortedArrangementUnique` | Bill-Pred-Backend-main/forecasting.py:24 | two time-ordered arrangements of the same rows are equal when no two different rows share a timestamp |
| `Preprocess.SortByTimeUnique` | Bill-Pred-Backend-main/forecasting.py:24 | any sort by time, stable or not, returns the model's rows when no two different rows share a timestamp |
| `Preprocess.SortByTimeKeepsSorted` | Bill-Pred-Backend-main/forecasting.py:24 | rows already in time order, with no two different rows at one timestamp, come out of any sort unchanged |
| `Preprocess.FirstBadRecord` | Bill-Pred-Backend-main/forecasting.py:23 | none exactly when every record's date and time parse; otherwise the first record that does not parse |
| `Preprocess.ToRows` | Bill-Pred-Backend-main/forecasting.py:22-28 | one row per record, holding the record's timestamp and coerced kVAh |
| `Preprocess.LoadAndPreprocess` | Bill-Pred-Backend-main/forecasting.py:21-30 | an empty feed fails for want of a Date column; a successful load has one row per record, in non-decreasing time order |
| `Preprocess.LoadAndPreprocessSpec` | Bill-Pred-Backend-main/forecasting.py:21-30 | an empty feed fails (no Date column); loading succeeds exactly when every record's date-time parses; a failure names the first bad record; a success is the records' rows, sorted and a permutation |
| `RangeFilter.Keep` | Bill-Pred-Backend-main/forecasting.py:41-42 | never more rows than the input, and every kept row lies within the bounds |
| `RangeFilter.FilterByTime` | Bill-Pred-Backend-main/forecasting.py:41-47 | None exactly when no row lies within the bounds; otherwise the non-empty selection, whose rows are exactly the input rows within the bounds |
| `RangeFilter.FilterDataByDate` | Bill-Pred-Backend-main/forecasting.py:32-47 | a start or end bound that is not `%Y-%m-%d`, or whose midnight pandas cannot hold, is an error, start checked first; with both bounds valid, the result is the selection between 00:00 of the start date and 00:00 of the end date |
| `RangeFilter.KeepMembers` | Bill-Pred-Backend-main/forecasting.py:41-42 | a row is selected exactly when it is an input row with start ≤ time ≤ end |
| `RangeFilter.KeepCounts` | Bill-Pred-Backend-main/forecasting.py:41-42 | each in-range row is selected as often as it occurs, and no other row is |
| `RangeFilter.KeepAppend` | Bill-Pred-Backend-main/forecasting.py:41-42 | selection distributes over concatenation, so the selected rows keep their input order |
| `RangeFilter.KeepAllInRange` | Bill-Pred-Backend-main/forecasting.py:41-42 | rows all within the bounds are kept as they are |
| `RangeFilter.KeepSorted` | Bill-Pred-Backend-main/forecasting.py:41-42 | a time-ordered input gives a time-ordered selection |
| `RangeFilter.FilterIdempotent` | Bill-Pred-Backend-main/forecasting.py:41-42 | filtering a filtered result with the same bounds returns it unchanged |
| `RangeFilter.EndDateExcludesLaterReadings` | Bill-Pred-Backend-main/forecasting.py:37-41 | a row stamped on the end date is selected exactly when it is stamped 00:00 and not before the start bound |
| `RangeFilter.StartDateIncludesWholeDay` | Bill-Pred-Backend-main/forecasting.py:37-41 | every time on the start date is at or after the lower bound |
| `RangeFilter.OutOfRangeBoundsRejected` | Bill-Pred-Backend-main/forecasting.py:37-38 | a start bound of 1600-01-01 or an end bound of 2262-04-12 is an error rather than a selection |
| `Hourly.Difference` | Bill-Pred-Backend-main/forecasting.py:58 | differencing drops one row and stamps each difference with the later row's time |
| `Hourly.Magnitudes` | Bill-Pred-Backend-main/forecasting.py:54 | each value becomes its magnitude, timestamps unchanged |
| `Hourly.AbsDeltas` | Bill-Pred-Backend-main/forecasting.py:54-55 | n readings give n − 1 deltas (none for no readings), each stamped with the later reading's time and never negative |
| `Hourly.AbsDeltasSpec` | Bill-Pred-Backend-main/forecasting.py:54-55 | n readings give n − 1 deltas (0 for none), each stamped with the later reading's time, ≥ 0, and equal to the step between the two readings in one direction or the other |
| `Hourly.DifferenceReconstructs` | Bill-Pred-Backend-main/forecasting.py:58 | the first value plus the first k differences gives back the k-th value (differencing is inverted by a running sum) |
| `Hourly.DeltasTelescope` | Bill-Pred-Backend-main/forecasting.py:54-55 | for a meter that never runs backwards, the deltas add up to the last reading minus the first |
| `Hourly.Resample` | Bill-Pred-Backend-main/forecasting.py:55 | each bin holds the sum of the deltas whose time falls in the bin's hour |
| `Hourly.ResampleShape` | Bill-Pred-Backend-main/forecasting.py:55 | no deltas give no bins; otherwise the bins run from the hour of the earliest delta to the hour of the latest, each on the hour and 60 minutes after the one before |
| `Hourly.ResampleCovers` | Bill-Pred-Backend-main/forecasting.py:55 | every delta's hour has a bin |
| `Hourly.ResampleBinValues` | Bill-Pred-Backend-main/forecasting.py:55 | each bin holds the sum of the deltas whose time truncates to its hour, and an hour without deltas holds 0 |
| `Hourly.ResampleNonNegative` | Bill-Pred-Backend-main/forecasting.py:55 | non-negative deltas give non-negative bins |
| `Hourly.BinsSum` | Bill-Pred-Backend-main/forecasting.py:55 | n consecutive bins add up to the deltas whose hours fall in those n hours |
| `Hourly.ResampleConserves` | Bill-Pred-Backend-main/forecasting.py:55 | the hourly bins add up to the sum of all deltas |
| `Hourly.HourlySeries` | Bill-Pred-Backend-main/forecasting.py:54-55 | no hourly bin is negative |
| `Hourly.HourlySeriesSpec` | Bill-Pred-Backend-main/forecasting.py:54-55 | the hourly series is never negative and adds up to the total of the deltas |
| `Hourly.Stationary` | Bill-Pred-Backend-main/forecasting.py:49-51 | a plain definition, with no contract of its own: stationary when the p-value is strictly below 0.05; what the gate does with it is stated by `PrepareHourly` and `GateSpec` |
| `Hourly.PrepareHourly` | Bill-Pred-Backend-main/forecasting.py:53-62 | the second result is the hourly series; the first equals it exactly when the series is stationary or empty, and is otherwise one row shorter |
| `Hourly.GateSpec` | Bill-Pred-Backend-main/forecasting.py:49-62 | the second result is always the raw hourly series; a stationary series (p < 0.05) is passed on unchanged; otherwise the first result is the once-differenced series, one row shorter, keeping the later rows' times, and it rebuilds every hourly value from the first |
| `Hourly.DeltaColumn` | Bill-Pred-Backend-main/forecasting.py:54 | the added column has one entry per row, undefined on the first row and the delta of the row on every later row |
| `Hourly.ReadingFrame.constructor` | Bill-Pred-Backend-main/forecasting.py:53 | a frame holds the selected readings and no delta column |
| `Hourly.ReadingFrame.PrepareHourlyData` | Bill-Pred-Backend-main/forecasting.py:53-62 | adds the delta column to the frame in place, leaves its readings unchanged, and returns the pair the gate defines |
| `Forecast.FutureTimestamps` | Bill-Pred-Backend-main/forecasting.py:70 | there are no forecast hours for an empty series, nor when the first or the last forecast hour lies outside what pandas can hold (`date_range` raises there); otherwise there are exactly n, all of them representable |
| `Forecast.FutureTimestampsSpec` | Bill-Pred-Backend-main/forecasting.py:70 | the forecast hours start one hour after the last point, run 60 minutes apart, and all lie after a time-ordered series |
| `Forecast.ForecastPastRange` | Bill-Pred-Backend-main/forecasting.py:70 | a series ending 2262-04-11 22:00 has a one-hour forecast; one ending at 23:00 that day has none |
| `Forecast.FutureHoursOfDay` | Bill-Pred-Backend-main/forecasting.py:70 | after a series ending on the hour, every forecast timestamp is on the hour and the k-th falls at hour (last hour + k + 1) mod 24 |
| `Forecast.DifferencingKeepsForecastStart` | Bill-Pred-Backend-main/forecasting.py:70 | differencing a series of two or more hours leaves the forecast hours unchanged; a one-hour series differences to nothing, which has none |
| `Forecast.GateKeepsForecastStart` | Bill-Pred-Backend-main/forecasting.py:57-70 | for an hourly series of two or more hours, whichever branch the gate takes, the forecast hours follow the last hourly bin |
| `Forecast.ForecastRows` | Bill-Pred-Backend-main/forecasting.py:72-77 | no rows exactly when there are no forecast hours; otherwise one row per predicted value, stamped with the matching forecast hour |

## Left out

- Network and web layer. `fetch_data_from_api`, the request handler, its input checks and the shared result cache are I/O and shared state. The model starts from the records as a value. The handler's check that the horizon is positive appears only as a precondition of the billing step.
- Billing.CalculateEnergyBill: `totalHours > 0` is required. The caller passes the number of forecast rows, and the handler has already checked the horizon to be positive. A zero would be a division by zero in the source.
- `get_billing_rates` reads a JSON file. The rate table is a parameter, a map from key to rate.
- The stationarity test (`adfuller`) is a parameter giving a p-value for a series. The threshold 0.05 and the strict comparison are modelled. The test's own failures on very short series are not.
- SARIMAX fitting, forecasting and the confidence-interval columns are left out. Predicted values are a parameter of `Forecast.ForecastRows`. That lower ≤ predicted ≤ upper is not claimed, because those bounds come from the statistics library. Fitting errors are not modelled.
- Floating point. kVAh and rates are exact reals, so rounding, NaN and infinities are not modelled. A JSON number is taken as it is.
- Preprocess.Coerce: pandas' numeric parser also accepts exponents, "inf"/"nan", surrounding whitespace and booleans. The model accepts only an optional sign, digits and an optional decimal point, and sends every other text to 0.
- Preprocess.SortByTime: the source's sort is not stable. The model sorts stably. `SortByTimeUnique` shows that every sort by time gives the model's rows when no two different rows share a timestamp; the order among different rows with equal timestamps is not modelled.
- Calendar.ParseReadingTime and Calendar.ParseDate: non-ASCII digits and whitespace, which Python's `\d` and `\s` match, are not modelled. The range bounds follow strptime's grammar, which the request handler also applies; older pandas releases rejected a bound such as "2024-01- 5" that the model accepts.
- Preprocess.LoadAndPreprocess: a record missing its Date or Description field is not modelled. A record is always a pair of strings and a kVAh value.
- The frame's other columns (Date, Description) and the index bookkeeping of `set_index` are not modelled. Rows carry only their timestamp and kVAh value.
- Debug printing in `filter_data_by_date` is left out.
- Hourly.ReadingFrame.PrepareHourlyData: the frame is a fresh copy made by the selection. Aliasing with the loaded frame is not modelled.
