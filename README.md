# Home battery savings estimator — a verified model

The "rendement thuisbatterij" page estimates what a home battery would save a
Flemish household. The household uploads the quarter-hour meter export of its
grid operator (Fluvius). Each CSV row holds a date, a time, a register
("Afname …" for offtake, "Injectie …" for injection) and a volume in kWh.

The page then:

- merges the rows into one record per quarter hour, in time order;
- simulates a battery through that series. Injection that would go to the grid charges the battery first. Offtake from the grid is served from the battery first. Charging and discharging are limited by the battery's power and by the range between its reserve and its capacity;
- computes the Flemish capacity tariff, which is charged on the rolling 12-month mean of monthly peaks. Each monthly peak is at least 2.5 kW. The tariff is computed once without the battery and once with it;
- turns the differences into a yearly saving and a payback time.

This project models that core (`app.js`) in Dafny and proves what it
promises. The modules are:

- `Util`: an option type, `Math.max`/`Math.min`, and sums and counts over sequences.
- `JsText`: the JavaScript string operations the code uses (`trim`, `split`, `replace` of the first match, `toLowerCase`, `startsWith`).
- `JsNumber`: `Number(text)` for decimal text and `num`.
- `Ordering`: sorting under a strict total order.
- `Timestamps`: `parseFluviusDate`, what `new Date(...)` keeps of its arguments, and `monthKey`.
- `Aggregation`: `parseFluviusRows`.
- `Battery`: `simulateBattery`.
- `Tariff`: `capacityTariff`, including `rollingAvg`.
- `Savings`: the click handler that validates the form and computes the savings and the payback time.

The loops of the source are methods with loop invariants. Each method is
proved equal to a specification function, and the properties are proved as
lemmas about those functions:

- `ParseFluviusRows` equals `Aggregate`/`Anomalies`.
- `SimulateBattery` equals `Run`.
- `CapacityTariff` equals `TariffOf`.
- `RollingAvg` equals `RollingAverages`.
- `Analyse` equals `AnalysisOf`.

Energy and money are `real` numbers.

## Model

| member | source | states |
|---|---|---|
| JsNumber.Num | app.js:12-15 | blank or white-space-only text gives 0; a non-empty string of decimal digits gives the number those digits write; any other text gives its finite numeric value, or 0 when it is not a number |
| JsNumber.ParseNumber | app.js:13 | `Number` reads blank or white-space-only text as 0 |
| JsNumber.NumRoundTrip | app.js:12-15 | `num` of a natural number's decimal text is that number; `num("")` is 0 |
| JsNumber.NumNegated | app.js:12-15 | a leading minus before a number negates it |
| JsNumber.ParseNumberDecimal | app.js:12-15 | `digits.digits` is read as whole part plus decimal fraction |
| JsNumber.DigitsOrder | app.js:124 | for digit strings of equal length, equal text means equal value and string order is numeric order |
| JsNumber.NoMinusNotNegative | app.js:13 | text without a minus sign never reads as a negative number |
| JsNumber.ParseNumberRejects | app.js:12-15 | text whose first non-blank character cannot start a number is not a number |
| JsText.Split | app.js:29-30 | `split` gives at least one piece, no piece contains the separator, and joining the pieces back gives the text |
| JsText.SplitJoin | app.js:29-30 | splitting joined separator-free pieces gives back those pieces |
| JsText.Trim | app.js:29-30 | `trim` removes only white space, and only from the two ends: the result is a slice of the text with nothing but white space before and after it; the result neither starts nor ends with white space |
| JsText.ReplaceFirstChangesFirst | app.js:51 | `replace(",", ".")` changes only the first comma and leaves text without a comma unchanged |
| JsText.TextBeforeIsStrictTotalOrder | app.js:124 | the default string order of `sort` (character by character, a prefix first) is irreflexive, transitive and total |
| Timestamps.BeforeIsStrictTotalOrder | app.js:68 | comparing timestamps is a strict total order, so sorting them is well defined |
| Timestamps.ParseFluviusDate | app.js:28-33 | the date is unreadable exactly when its day, month or year piece reads as 0 or not a number; a readable date has a year of at least 100 (two-digit years become 1900 + y), a month of at least 1 and a day of at least 0 |
| Timestamps.DateFromParts | app.js:29-32 | from the split pieces: no timestamp exactly when a date piece is falsy; with separator-free pieces the year is at least 100, the month at least 1 and the day at least 0 |
| Timestamps.ParseFormatted | app.js:28-33 | a date written `DD-MM-YYYY` with time `HH:MM:SS` is parsed back to exactly that moment |
| Timestamps.NewDate | app.js:32 | `new Date` truncates every argument toward zero; a truncated year from 0 to 99 becomes 1900 plus it, so no date has a year from 0 to 99, and any other year is kept; the month is the truncated month index plus one |
| Timestamps.TwoDigitYear | app.js:32 | a year 1 to 99 is read as 1901 to 1999, as `new Date` does |
| Timestamps.MissingDateRejected | app.js:29-31 | without a date cell the row has no timestamp |
| Timestamps.ZeroFieldRejected | app.js:31 | a day, month or year of 0 makes the date unreadable |
| Timestamps.TextDateRejected | app.js:29-31 | a date that starts with a letter is unreadable |
| Timestamps.MissingTimeIsMidnight | app.js:30-32 | without a time cell the timestamp is midnight of that day |
| Timestamps.SecondsOptional | app.js:30-32 | a time `HH:MM` without seconds has 0 seconds |
| Timestamps.MonthKeyOf | app.js:34-38 | for a year and month of at least 0, the key cut at its first dash gives the year's text before it and the month's text padded with zeros to at least two characters after it |
| Timestamps.MonthKeyFields | app.js:34-38 | the key `${y}-${m}` cut at its first dash gives the year's digits and the month's digits, the month padded to at least two |
| Timestamps.MonthBeforeIsStrictTotalOrder | app.js:124 | sorting month keys as strings uses a strict total order |
| Timestamps.MonthKeyOrder | app.js:34-38 | for years 1000 to 9999 and months 1 to 12, two keys are equal exactly when year and month are, and string order on keys is (year, month) order |
| Timestamps.MonthKeyMonotone | app.js:34-38 | for years 1000 to 9999: a later timestamp never has an earlier month key, and an earlier month key means an earlier timestamp |
| Timestamps.ShortYearSortsLate | app.js:124 | outside four-digit years string order is not time order: "1000-01" sorts before "999-12" |
| Aggregation.Field | app.js:45-46 | the `??` chain picks the first column name the row has, and nothing only when it has none |
| Aggregation.ChannelOf | app.js:64-65 | the register is offtake exactly when its first 6 characters lower-case to "afname"; it is injection exactly when it is not offtake and its first 8 characters lower-case to "injectie"; otherwise neither |
| Aggregation.ChannelIgnoresCase | app.js:64-65 | lower-casing the register does not change its channel |
| Aggregation.VolumeValue | app.js:50-53 | a missing or blank volume counts as 0 kWh |
| Aggregation.VolumeDecimalComma | app.js:51-53 | a volume with a decimal comma is read as whole part plus fraction |
| Aggregation.VolumeNegativeKept | app.js:51-53 | a negative volume is kept negative when read |
| Aggregation.VolumeOnlyFirstComma | app.js:51-53 | a volume with two commas is not a number and counts as 0 |
| Aggregation.VolumeNotANumber | app.js:52-53 | a volume that starts with a letter counts as 0 |
| Aggregation.NoDateColumnIsAnomaly | app.js:45-56 | a row without any date column is an anomaly |
| Aggregation.StampList | app.js:58-61 | the map's key list has no duplicates |
| Aggregation.StampListHolds | app.js:58-61 | the key list holds exactly the quarter hours some row has |
| Aggregation.AggregateIsMergedSeries | app.js:58-68 | the series is strictly ascending in time, has one record for every quarter hour some row has and none for any other, and each record holds the offtake and injection totals of that quarter hour's rows |
| Aggregation.ParseFluviusRows | app.js:40-70 | the loop over the rows with its map and key list gives the merged series and the number of undated rows |
| Aggregation.Absorb | app.js:58-65 | creating the quarter hour when it is new and adding the volume to its channel keeps the map and key list equal to the merge of the readings with this one appended |
| Aggregation.ReadInto | app.js:55-65 | one row keeps the map and key list equal to the merge of the rows read so far, and keeps the anomaly count |
| Aggregation.InOrder | app.js:68 | listing the map's records by sorted key gives the merged series |
| Aggregation.AggregateOrderIndependent | app.js:40-70 | readings in any order give the same series and the same anomaly count |
| Aggregation.RowOrderIrrelevant | app.js:40-70 | the raw rows in any order give the same series and the same anomaly count |
| Aggregation.AnomalyChangesNothing | app.js:55-56 | an undated row adds one anomaly and changes no record |
| Aggregation.UnrecognisedRegisterKeepsQuarter | app.js:58-65 | a dated row with an unknown register creates its quarter hour and changes no total |
| Aggregation.MergedSnoc | app.js:62-65 | a row adds its volume to its own quarter hour's total for its channel and changes no other record |
| Aggregation.NoStampNoSum | app.js:58-65 | a quarter hour that no row has collects nothing |
| Aggregation.CountsBounded | app.js:40-70 | records plus anomalies never exceed the number of rows |
| Aggregation.EmptyIffAllAnomalies | app.js:40-70 | the series is empty exactly when every row is an anomaly |
| Battery.LimitsOf | app.js:73-81 | inputs that pass the form's checks give a battery with reserve below capacity and positive per-quarter limits, whose starting charge lies between reserve and capacity |
| Battery.InitialInRange | app.js:77-78 | the battery starts half way between reserve and capacity, inside that range |
| Battery.Run | app.js:86-106 | the run records one entry per quarter hour |
| Battery.SimulateBattery | app.js:72-109 | the loop gives the totals and per-quarter record of the run through the series |
| Battery.Step | app.js:87-102 | for a sane battery in range: offtake and injection are clamped at 0; the battery lowers them by at most the power limit and never below 0; the charge changes by exactly the energy moved and stays between reserve and capacity |
| Battery.StepQuarter | app.js:87-102 | the loop body's clamps, `Math.min`/`Math.max` and branch on injection compute exactly `Step` |
| Battery.StepPriority | app.js:94-102 | injection takes priority: while injecting the offtake is untouched and the battery only charges; discharging happens only without injection; an idle quarter hour changes nothing |
| Battery.StepGreedy | app.js:95-101 | injection is left over only when the power limit or the capacity stops the battery; offtake is left over only when the power limit or the reserve stops it |
| Battery.RunInvariant | app.js:83-106 | over the run: the state of charge stays in range; the totals without the battery are the sums of the clamped series; the battery never raises either total; the stored energy changes by injection absorbed minus offtake supplied |
| Battery.EnergyBalance | app.js:83-106 | the energy the battery gained over the run (end charge minus start charge, negative when it ends lower) equals injection absorbed minus offtake supplied |
| Battery.SavingBounded | app.js:83-106 | the offtake saved is at most the injection absorbed plus the usable charge at the start |
| Battery.PerQuarterRecord | app.js:105 | entry i has quarter hour i's time stamp and clamped offtake, and an offtake after the battery between 0 and that |
| Battery.PerQuarterSums | app.js:104-105 | both offtake totals are the sums of the per-quarter record |
| Battery.IdleRunChangesNothing | app.js:86-106 | a series with no offtake and no injection leaves the battery at its start charge and both new totals at 0 |
| Tariff.MonthPeak | app.js:116-121 | a month's peak starts at 0 and is never negative |
| Tariff.MonthPeakIsMaximum | app.js:116-122 | a month's peak is the largest quarter-hour power (kWh × 4) in that month, or 0 when none is larger |
| Tariff.NoMonthNoPeak | app.js:120-126 | a month with no quarter hours has peak 0 |
| Tariff.MonthPeakMonotone | app.js:116-122 | lower offtake in every quarter hour never raises a month's peak |
| Tariff.RecordPeak | app.js:116-121 | one quarter hour raises its month's two peaks to its powers and records a new month, keeping both maps and the month list equal to the peaks and months of the record so far |
| Tariff.MonthList | app.js:120-121 | the months are recorded without duplicates |
| Tariff.MonthListHolds | app.js:116-124 | the months listed are exactly those some quarter hour falls in |
| Tariff.MonthsAndPeaks | app.js:124-126 | months are strictly ascending and are exactly the months present; each month's peak is at least 2.5 kW and at least every quarter-hour power of that month |
| Tariff.WindowOfMonth | app.js:131-132 | month i's window is the last 12 months up to i, or all months so far when there are fewer |
| Tariff.RollingAvg | app.js:128-137 | the loop gives each month's mean over its window |
| Tariff.RollingAveragesBetween | app.js:128-137 | rolling averages stay within any bounds that hold for all peaks |
| Tariff.ConstantPeaks | app.js:128-137 | constant peaks P give rolling averages of exactly P |
| Tariff.RollingMonotone | app.js:128-137 | lower peaks give rolling averages that are lower or equal, month by month |
| Tariff.CapCostIsRateTimesSum | app.js:142-145 | the capacity cost is the sum of the rolling averages times the monthly rate |
| Tariff.MaxPeak | app.js:151-152 | `Math.max(...peaks, 0)` is at least 0, bounds every peak, and is 0 or one of the peaks |
| Tariff.CapacityTariff | app.js:111-155 | the loop over the per-quarter record, the sorted months and the two cost sums give `TariffOf`, the tariff result defined from the months and their peaks |
| Tariff.Charge | app.js:139-154 | rolling averages, costs and highest peaks of the two peak series make up the tariff result |
| Tariff.CostAtLeastMinimum | app.js:112-145 | at a non-negative rate both capacity costs are at least months × 2.5 kW × monthly rate |
| Tariff.MaxMonthPeakZeroIffNoMonths | app.js:151-153 | the highest monthly peak is 0 exactly when there are no months, and at least 2.5 kW otherwise |
| Tariff.CapCostNotIncreased | app.js:116-152 | at a non-negative rate, if no quarter hour's offtake grows, the capacity cost and the highest monthly peak do not grow |
| Tariff.BatteryNeverRaisesCapacityCost | app.js:72-152 | for any sane battery and non-negative rate, the cost with the battery is at most the cost without, and so is the highest monthly peak |
| Savings.PaybackOf | app.js:246 | payback is a number of years exactly when saving and investment are positive; it is then positive and years × saving = investment, otherwise it is `Infinity` |
| Savings.Analyse | app.js:210-246 | the handler gives the "no data" warning, the sizes warning, the reserve warning or the results, exactly as `AnalysisOf` decides from the rows and the numbers read from the form |
| Savings.ResultsIffValid | app.js:212-234 | results appear exactly when there are rows and the form passes both checks; the warning for missing data appears exactly when there are no rows |
| Savings.Evaluate | app.js:238-246 | the energy saving is avoided offtake at the import price minus avoided injection at the injection price; the total adds the capacity saving; payback is a number of years exactly when total saving and investment are positive |
| Savings.EnergySavingOfAnalysis | app.js:236-240 | for any result of the handler, the energy saving is the offtake avoided at the price spread minus the energy the battery gained over the run (end charge minus start charge) at the injection price |
| Savings.BalancedSaving | app.js:238-240 | whenever the stored energy equals injection absorbed minus offtake supplied, the priced saving equals that spread-minus-stored value |
| Savings.CapacitySavingNotNegative | app.js:236-243 | at a non-negative capacity rate the capacity saving of any result is at least 0, and the battery never raises the highest monthly peak |

## Left out

- File upload, CSV parsing by Papa Parse, the page's DOM, the formatting helpers (`euro`, `euro2`, `kwhFmt`, `kwFmt`, `setHTML`, `setText`) and the rendering of results. They are I/O. A parsed CSV row is a map from header to cell text, and the form is a record of its field texts.
- Floating point: every quantity is an exact real. Rounding, overflow to `Infinity` and the order dependence of floating-point sums are not modelled. Because of this, sums do not depend on row order here.
- JsNumber.ParseNumber: models `Number(text)` for blank text and optionally signed decimal text (`12`, `1.5`, `.5`, `-3`) only. Exponents (`1e3`), hexadecimal, binary and octal literals (`0x1F`, `0b101`, `0o17`) and `Infinity` are read as not a number, so `num` gives 0 where JavaScript gives a value; for `Infinity` JavaScript's `num` gives 0 as well. The same gap decides which dates are readable: a date piece such as `1e1` or `0x1F` makes the row an anomaly here, while JavaScript reads a date from it, and a piece `Infinity` gives JavaScript an Invalid Date, which is truthy and is merged under a NaN key, while here the row is an anomaly. White space is the set `trim` removes; numeric separators (`1_000`) are not a number in JavaScript either.
- Timestamps.NewDate: `new Date(y, m, d, …)` is modelled by its argument truncation and the 0–99 → 1900+ year rule. Rolling over out-of-range fields (month 13, day 32, minute 75), time zones and daylight-saving gaps are not modelled. A timestamp is its six calendar fields, compared lexicographically, in place of `getTime()`.
- Timestamps.MonthKeyMonotone: months are the `"YYYY-MM"` text the source builds and are sorted as strings, as the source does. Agreement with calendar order is proved only for years 1000 to 9999 and months 1 to 12; outside that range the string order differs (`ShortYearSortsLate`). Characters compare by code point, which equals the UTF-16 order of JavaScript for these ASCII keys.
- Ordering.Sort: the built-in `Array.prototype.sort` is modelled by an insertion sort with the same result, a strictly ascending permutation. Sorting the map's values by `ts` is modelled as sorting the distinct keys and looking each value up.
- Aggregation.ParseFluviusRows: the `Map` is a Dafny `map` plus a key list in insertion order.
- Aggregation.ChannelOf: `toLowerCase` is modelled for ASCII letters only.
- A volume cell that is not a string (a number from dynamic typing) is not modelled, since the CSV parser delivers text.
- Battery.SimulateBattery: `x || 0` on the merged totals is the identity here, because a total is always a finite number in this model.
- Tariff.CapacityTariff: the months are the union of the keys of both peak maps. Both maps receive every month, so the model keeps one key list. `q.impKwh || 0` is the identity, as above.
- Savings.PaybackOf: `Infinity` is the constructor `Never`.
