/**
 * `capacityTariff`: the Flemish capacity charge on the monthly peak. Per
 * calendar month the highest quarter-hour offtake is turned into a power
 * (kWh per quarter hour times 4), floored at 2.5 kW; the charge for a month
 * is the average of the last twelve monthly peaks (fewer at the start of the
 * series) times a twelfth of the yearly rate. Computed for the offtake
 * without and with the battery.
 */
module Tariff {
  import opened Util
  import opened Ordering
  import opened Timestamps
  import opened Battery
  import Aggregation

  /** The minimum monthly peak the tariff charges, in kW. */
  const MIN_PEAK_KW: real := 2.5

  /** What `capacityTariff` returns. */
  datatype TariffResult = TariffResult(months: seq<MonthKey>, capCost0: real, capCost1: real,
                                       maxMonthPeak0: real, maxMonthPeak1: real, monthsCount: nat)

  // ---------------------------------------------------------------------
  // Monthly peaks
  // ---------------------------------------------------------------------

  /** The power of one quarter hour: its energy times 4. */
  function QuarterPower(f: QuarterImport -> real, e: QuarterImport): real {
    f(e) * 4.0
  }

  /**
   * The value the month map holds for month `m`: the highest quarter-hour
   * power of that month, starting from 0, so never negative even when every
   * power of the month is.
   */
  function MonthPeak(pq: seq<QuarterImport>, m: MonthKey, f: QuarterImport -> real): (r: real)
    ensures r >= 0.0
  {
    if pq == [] then 0.0
    else
      var e := pq[|pq| - 1];
      var prev := MonthPeak(pq[..|pq| - 1], m, f);
      if MonthKeyOf(e.ts) == m then Max(prev, QuarterPower(f, e)) else prev
  }

  /** Some quarter hour of the record lies in month `m`. */
  ghost predicate HasMonth(pq: seq<QuarterImport>, m: MonthKey) {
    exists i :: 0 <= i < |pq| && MonthKeyOf(pq[i].ts) == m
  }

  /**
   * The month peak is the maximum of 0 and the powers of the month's quarter
   * hours: it bounds every one of them and is 0 or one of them (that it is at
   * least 0 is `MonthPeak`'s own contract).
   */
  lemma {:induction false} MonthPeakIsMaximum(pq: seq<QuarterImport>, m: MonthKey, f: QuarterImport -> real)
    ensures var p := MonthPeak(pq, m, f);
      && (forall i :: 0 <= i < |pq| && MonthKeyOf(pq[i].ts) == m ==> QuarterPower(f, pq[i]) <= p)
      && (p == 0.0 || exists i :: 0 <= i < |pq| && MonthKeyOf(pq[i].ts) == m && QuarterPower(f, pq[i]) == p)
  {
    if pq != [] {
      var init := pq[..|pq| - 1];
      MonthPeakIsMaximum(init, m, f);
      var p := MonthPeak(pq, m, f);
      var prev := MonthPeak(init, m, f);
      assert forall i :: 0 <= i < |init| ==> init[i] == pq[i];
      if prev != 0.0 && p == prev {
        var i :| 0 <= i < |init| && MonthKeyOf(init[i].ts) == m && QuarterPower(f, init[i]) == prev;
        assert pq[i] == init[i];
      }
    }
  }

  /** A month without quarter hours has peak 0. */
  lemma {:induction false} NoMonthNoPeak(pq: seq<QuarterImport>, m: MonthKey, f: QuarterImport -> real)
    requires !HasMonth(pq, m)
    ensures MonthPeak(pq, m, f) == 0.0
  {
    if pq != [] {
      var init := pq[..|pq| - 1];
      assert !HasMonth(init, m) by {
        forall i | 0 <= i < |init| ensures MonthKeyOf(init[i].ts) != m {
          assert init[i] == pq[i];
        }
      }
      NoMonthNoPeak(init, m, f);
    }
  }

  /** One more quarter hour raises the peak of its own month to its power if that is higher, and no other. */
  lemma MonthPeakSnoc(pq: seq<QuarterImport>, e: QuarterImport, m: MonthKey, f: QuarterImport -> real)
    ensures MonthPeak(pq + [e], m, f)
         == if MonthKeyOf(e.ts) == m then Max(MonthPeak(pq, m, f), QuarterPower(f, e)) else MonthPeak(pq, m, f)
  {
    assert (pq + [e])[..|pq|] == pq;
  }

  /** A lower offtake in every quarter hour gives a lower or equal peak in every month. */
  lemma {:induction false} MonthPeakMonotone(pq: seq<QuarterImport>, m: MonthKey)
    requires forall i :: 0 <= i < |pq| ==> pq[i].impNewKwh <= pq[i].impKwh
    ensures MonthPeak(pq, m, NewImport) <= MonthPeak(pq, m, OldImport)
  {
    if pq != [] {
      var init := pq[..|pq| - 1];
      assert forall i :: 0 <= i < |init| ==> init[i] == pq[i];
      MonthPeakMonotone(init, m);
    }
  }

  /** The distinct months of the record, in order of first appearance (the key order of the month maps). */
  function MonthList(pq: seq<QuarterImport>): (ks: seq<MonthKey>)
    ensures Distinct(ks)
  {
    if pq == [] then []
    else
      var prev := MonthList(pq[..|pq| - 1]);
      var m := MonthKeyOf(pq[|pq| - 1].ts);
      if m !in prev then prev + [m] else prev
  }

  /** The month list holds exactly the months some quarter hour lies in. */
  lemma {:induction false} MonthListHolds(pq: seq<QuarterImport>)
    ensures forall m :: m in MonthList(pq) <==> HasMonth(pq, m)
  {
    if pq != [] {
      var init := pq[..|pq| - 1];
      MonthListHolds(init);
      assert pq == init + [pq[|pq| - 1]];
      forall m ensures HasMonth(pq, m) <==> HasMonth(init, m) || MonthKeyOf(pq[|pq| - 1].ts) == m {
        HasMonthSnoc(init, pq[|pq| - 1], m);
      }
    }
  }

  /** One more quarter hour adds its own month and no other. */
  lemma HasMonthSnoc(pq: seq<QuarterImport>, e: QuarterImport, m: MonthKey)
    ensures HasMonth(pq + [e], m) <==> HasMonth(pq, m) || MonthKeyOf(e.ts) == m
  {
    var pq' := pq + [e];
    if HasMonth(pq, m) {
      var i :| 0 <= i < |pq| && MonthKeyOf(pq[i].ts) == m;
      assert pq'[i] == pq[i];
    }
    if MonthKeyOf(e.ts) == m {
      assert pq'[|pq|] == e;
    }
    if HasMonth(pq', m) && MonthKeyOf(e.ts) != m {
      var i :| 0 <= i < |pq'| && MonthKeyOf(pq'[i].ts) == m;
      assert i < |pq| && pq'[i] == pq[i];
    }
  }

  lemma MonthListSnoc(pq: seq<QuarterImport>, e: QuarterImport)
    ensures MonthList(pq + [e])
         == if MonthKeyOf(e.ts) !in MonthList(pq) then MonthList(pq) + [MonthKeyOf(e.ts)] else MonthList(pq)
  {
    assert (pq + [e])[..|pq|] == pq;
  }

  /** The months of the record in chronological order. */
  function Months(pq: seq<QuarterImport>): (months: seq<MonthKey>)
    ensures |months| == |MonthList(pq)|
  {
    MonthBeforeIsStrictTotalOrder();
    Sort(MonthList(pq), MonthBefore)
  }

  /** The charged peak of each month, floored at the minimum peak. */
  function Peaks(pq: seq<QuarterImport>, months: seq<MonthKey>, f: QuarterImport -> real): (peaks: seq<real>)
    ensures |peaks| == |months|
  {
    seq(|months|, k requires 0 <= k < |months| => Max(MIN_PEAK_KW, MonthPeak(pq, months[k], f)))
  }

  /**
   * The months are strictly ascending (sorted, no duplicates) and are exactly
   * the months of the record; every charged peak is at least the minimum peak
   * and at least every quarter-hour power of its month.
   */
  lemma MonthsAndPeaks(pq: seq<QuarterImport>, f: QuarterImport -> real)
    ensures StrictlyAscending(Months(pq), MonthBefore)
    ensures forall m :: m in Months(pq) <==> HasMonth(pq, m)
    ensures var months := Months(pq); var peaks := Peaks(pq, months, f);
      forall k, i :: 0 <= k < |months| && 0 <= i < |pq| && MonthKeyOf(pq[i].ts) == months[k] ==>
        MIN_PEAK_KW <= peaks[k] && QuarterPower(f, pq[i]) <= peaks[k]
  {
    MonthBeforeIsStrictTotalOrder();
    MonthListHolds(pq);
    var months := Months(pq);
    forall m ensures m in months <==> m in MonthList(pq) {
      assert m in months <==> m in multiset(months);
      assert m in MonthList(pq) <==> m in multiset(MonthList(pq));
    }
    forall k | 0 <= k < |months| {
      MonthPeakIsMaximum(pq, months[k], f);
    }
  }

  // ---------------------------------------------------------------------
  // Rolling average and cost
  // ---------------------------------------------------------------------

  /** The first month of the window ending at month `i`: at most twelve months back. */
  function WindowStart(i: nat): (start: nat)
    ensures start <= i && i + 1 - start == if i < 12 then i + 1 else 12
  {
    if i >= 11 then i - 11 else 0
  }

  /** The arithmetic mean of a non-empty sequence, summed from the front. */
  function Mean(s: seq<real>): real
    requires s != []
  {
    Sum(Id, s) / |s| as real
  }

  /** The average of the peaks of each month's window. */
  function RollingAverages(peaks: seq<real>): (avgs: seq<real>)
    ensures |avgs| == |peaks|
  {
    seq(|peaks|, i requires 0 <= i < |peaks| => Mean(peaks[WindowStart(i)..i + 1]))
  }

  /** `rollingAvg(peaks)`: one average per month, over the window ending there. */
  method RollingAvg(peaks: seq<real>) returns (out: seq<real>)
    ensures out == RollingAverages(peaks)
  {
    out := [];
    for i := 0 to |peaks|
      invariant |out| == i
      invariant forall k :: 0 <= k < i ==> out[k] == Mean(peaks[WindowStart(k)..k + 1])
    {
      var start := if i - 11 > 0 then i - 11 else 0;
      var slice := peaks[start..i + 1];
      var avg := Sum(Id, slice) / |slice| as real;
      out := out + [avg];
    }
  }

  /** Summing the twelfth of the yearly rate times each month's average. */
  function CapCost(avgs: seq<real>, rateMonth: real): real {
    Sum(MonthCharge(rateMonth), avgs)
  }

  function MonthCharge(rateMonth: real): real -> real {
    avg => avg * rateMonth
  }

  /** The cost is the monthly rate times the sum of the averages. */
  lemma {:induction false} CapCostIsRateTimesSum(avgs: seq<real>, rateMonth: real)
    ensures CapCost(avgs, rateMonth) == Sum(Id, avgs) * rateMonth
  {
    if avgs != [] {
      CapCostIsRateTimesSum(avgs[..|avgs| - 1], rateMonth);
    }
  }

  /** `Math.max(...peaks, 0)`. */
  function MaxPeak(peaks: seq<real>): (r: real)
    ensures r >= 0.0 && forall k :: 0 <= k < |peaks| ==> peaks[k] <= r
    ensures r == 0.0 || exists k :: 0 <= k < |peaks| && peaks[k] == r
  {
    if peaks == [] then 0.0
    else
      var init := peaks[..|peaks| - 1];
      var prev := MaxPeak(init);
      assert forall k :: 0 <= k < |init| ==> init[k] == peaks[k];
      Max(prev, peaks[|peaks| - 1])
  }

  /** The capacity tariff of a per-quarter record at a yearly rate. */
  function TariffOf(pq: seq<QuarterImport>, capRateYearIncl: real): TariffResult {
    var months := Months(pq);
    TariffFrom(months, Peaks(pq, months, OldImport), Peaks(pq, months, NewImport), capRateYearIncl)
  }

  /** The result for given months and charged peaks without and with the battery. */
  function TariffFrom(months: seq<MonthKey>, peaks0: seq<real>, peaks1: seq<real>, capRateYearIncl: real): TariffResult {
    var rateMonth := capRateYearIncl / 12.0;
    TariffResult(months, CapCost(RollingAverages(peaks0), rateMonth), CapCost(RollingAverages(peaks1), rateMonth),
                 MaxPeak(peaks0), MaxPeak(peaks1), |months|)
  }

  // ---------------------------------------------------------------------
  // The imperative tariff computation
  // ---------------------------------------------------------------------

  /** The two month maps and their key order hold the month peaks of the quarter hours read so far. */
  ghost predicate TracksPeaks(by0: map<MonthKey, real>, by1: map<MonthKey, real>, keys: seq<MonthKey>,
                              pq: seq<QuarterImport>) {
    && keys == MonthList(pq)
    && (forall m :: m in by0 <==> m in keys)
    && (forall m :: m in by1 <==> m in keys)
    && (forall m :: m in by0 ==> by0[m] == MonthPeak(pq, m, OldImport))
    && (forall m :: m in by1 ==> by1[m] == MonthPeak(pq, m, NewImport))
  }

  /**
   * `capacityTariff(perQuarter, capRateYearIncl)`: the month maps are filled in
   * one pass, then the months are sorted and the peaks, rolling averages and
   * costs computed.
   */
  method CapacityTariff(perQuarter: seq<QuarterImport>, capRateYearIncl: real) returns (res: TariffResult)
    ensures res == TariffOf(perQuarter, capRateYearIncl)
  {
    var byMonth0: map<MonthKey, real> := map[];
    var byMonth1: map<MonthKey, real> := map[];
    var keys: seq<MonthKey> := [];
    for i := 0 to |perQuarter|
      invariant TracksPeaks(byMonth0, byMonth1, keys, perQuarter[..i])
    {
      assert perQuarter[..i + 1] == perQuarter[..i] + [perQuarter[i]];
      byMonth0, byMonth1, keys := RecordPeak(byMonth0, byMonth1, keys, perQuarter[i], perQuarter[..i]);
    }
    assert perQuarter[..|perQuarter|] == perQuarter;
    var months := SortedMonths(byMonth0, byMonth1, keys, perQuarter);
    var peaks0 := PeaksFrom(months, byMonth0, perQuarter, OldImport);
    var peaks1 := PeaksFrom(months, byMonth1, perQuarter, NewImport);
    res := Charge(months, peaks0, peaks1, capRateYearIncl);
  }

  /** The second half of `capacityTariff`: rolling averages, costs and highest peaks of the charged peaks. */
  method Charge(months: seq<MonthKey>, peaks0: seq<real>, peaks1: seq<real>, capRateYearIncl: real)
      returns (res: TariffResult)
    ensures res == TariffFrom(months, peaks0, peaks1, capRateYearIncl)
  {
    var avg12_0 := RollingAvg(peaks0);
    var avg12_1 := RollingAvg(peaks1);
    var rateMonth := capRateYearIncl / 12.0;
    var capCost0 := CapCost(avg12_0, rateMonth);
    var capCost1 := CapCost(avg12_1, rateMonth);
    res := TariffResult(months, capCost0, capCost1, MaxPeak(peaks0), MaxPeak(peaks1), |months|);
  }

  /** One quarter hour: its month gets a map entry on first sight, and its power raises the month's peak in each map. */
  method RecordPeak(by0: map<MonthKey, real>, by1: map<MonthKey, real>, keys: seq<MonthKey>, q: QuarterImport,
                    ghost pq: seq<QuarterImport>)
      returns (by0': map<MonthKey, real>, by1': map<MonthKey, real>, keys': seq<MonthKey>)
    requires TracksPeaks(by0, by1, keys, pq)
    ensures TracksPeaks(by0', by1', keys', pq + [q])
  {
    var mk := MonthKeyOf(q.ts);
    var p0 := q.impKwh * 4.0;
    var p1 := q.impNewKwh * 4.0;
    keys' := if mk in by0 then keys else keys + [mk];
    by0' := by0[mk := Max(if mk in by0 then by0[mk] else 0.0, p0)];
    by1' := by1[mk := Max(if mk in by1 then by1[mk] else 0.0, p1)];
    MonthListSnoc(pq, q);
    if mk !in by0 {
      MonthListHolds(pq);
      NoMonthNoPeak(pq, mk, OldImport);
      NoMonthNoPeak(pq, mk, NewImport);
    }
    forall m ensures MonthPeak(pq + [q], m, OldImport)
                  == if mk == m then Max(MonthPeak(pq, m, OldImport), p0) else MonthPeak(pq, m, OldImport)
    {
      MonthPeakSnoc(pq, q, m, OldImport);
    }
    forall m ensures MonthPeak(pq + [q], m, NewImport)
                  == if mk == m then Max(MonthPeak(pq, m, NewImport), p1) else MonthPeak(pq, m, NewImport)
    {
      MonthPeakSnoc(pq, q, m, NewImport);
    }
  }

  /** `months.map(m => Math.max(minPeakKw, byMonth.get(m) ?? 0))`. */
  method PeaksFrom(months: seq<MonthKey>, byMonth: map<MonthKey, real>, ghost pq: seq<QuarterImport>,
                   ghost f: QuarterImport -> real) returns (peaks: seq<real>)
    requires forall m :: m in months ==> m in byMonth && byMonth[m] == MonthPeak(pq, m, f)
    ensures peaks == Peaks(pq, months, f)
  {
    peaks := seq(|months|, k requires 0 <= k < |months| =>
                   Max(MIN_PEAK_KW, if months[k] in byMonth then byMonth[months[k]] else 0.0));
  }

  /** The map keys in chronological order; each is a key of both maps. */
  method SortedMonths(by0: map<MonthKey, real>, by1: map<MonthKey, real>, keys: seq<MonthKey>,
                      ghost pq: seq<QuarterImport>) returns (months: seq<MonthKey>)
    requires TracksPeaks(by0, by1, keys, pq)
    ensures months == Months(pq)
    ensures forall m :: m in months ==> m in by0 && by0[m] == MonthPeak(pq, m, OldImport)
                                        && m in by1 && by1[m] == MonthPeak(pq, m, NewImport)
  {
    MonthBeforeIsStrictTotalOrder();
    months := Sort(keys, MonthBefore);
    forall m | m in months ensures m in keys {
      assert m in multiset(months);
    }
  }

  // ---------------------------------------------------------------------
  // Properties of the tariff
  // ---------------------------------------------------------------------

  /** A window holds the month itself and the up to eleven months before it. */
  lemma WindowOfMonth(peaks: seq<real>, i: nat)
    requires i < |peaks|
    ensures var w := peaks[WindowStart(i)..i + 1];
      && |w| == (if i < 12 then i + 1 else 12)
      && w[|w| - 1] == peaks[i]
      && RollingAverages(peaks)[i] == Mean(w)
  {
  }

  /** Bounds on every term bound the sum. */
  lemma {:induction false} SumBetween(s: seq<real>, lo: real, hi: real)
    requires forall k :: 0 <= k < |s| ==> lo <= s[k] <= hi
    ensures |s| as real * lo <= Sum(Id, s) <= |s| as real * hi
  {
    if s != [] {
      var init := s[..|s| - 1];
      assert forall k :: 0 <= k < |init| ==> init[k] == s[k];
      SumBetween(init, lo, hi);
      OneMore(|init| as real, lo);
      OneMore(|init| as real, hi);
    }
  }

  lemma OneMore(n: real, x: real)
    ensures (n + 1.0) * x == n * x + x
  {
  }

  /** The mean lies between any bounds of its terms. */
  lemma MeanBetween(s: seq<real>, lo: real, hi: real)
    requires s != [] && forall k :: 0 <= k < |s| ==> lo <= s[k] <= hi
    ensures lo <= Mean(s) <= hi
  {
    SumBetween(s, lo, hi);
    Quotient(Sum(Id, s), |s| as real, lo);
    Quotient(Sum(Id, s), |s| as real, hi);
  }

  /** Comparing `x` with `n` copies of `c` compares its `n`th part with `c`. */
  lemma Quotient(x: real, n: real, c: real)
    requires n > 0.0
    ensures x >= n * c ==> x / n >= c
    ensures x <= n * c ==> x / n <= c
  {
    assert x / n - c == (x - n * c) / n;
  }

  /** Every rolling average lies between bounds of the peaks; constant peaks average to themselves. */
  lemma RollingAveragesBetween(peaks: seq<real>, lo: real, hi: real)
    requires forall k :: 0 <= k < |peaks| ==> lo <= peaks[k] <= hi
    ensures forall i :: 0 <= i < |peaks| ==> lo <= RollingAverages(peaks)[i] <= hi
  {
    forall i | 0 <= i < |peaks| ensures lo <= RollingAverages(peaks)[i] <= hi {
      var w := peaks[WindowStart(i)..i + 1];
      assert forall k :: 0 <= k < |w| ==> w[k] == peaks[WindowStart(i) + k];
      MeanBetween(w, lo, hi);
    }
  }

  /** Peaks that are the same every month average to that same peak. */
  lemma ConstantPeaks(peaks: seq<real>, p: real)
    requires forall k :: 0 <= k < |peaks| ==> peaks[k] == p
    ensures forall i :: 0 <= i < |peaks| ==> RollingAverages(peaks)[i] == p
  {
    RollingAveragesBetween(peaks, p, p);
  }

  /** Pointwise lower terms give a lower sum. */
  lemma {:induction false} SumMonotone(a: seq<real>, b: seq<real>)
    requires |a| == |b| && forall k :: 0 <= k < |a| ==> a[k] <= b[k]
    ensures Sum(Id, a) <= Sum(Id, b)
  {
    if a != [] {
      var ia, ib := a[..|a| - 1], b[..|b| - 1];
      assert forall k :: 0 <= k < |ia| ==> ia[k] == a[k] && ib[k] == b[k];
      SumMonotone(ia, ib);
    }
  }

  /** Pointwise lower peaks give pointwise lower rolling averages. */
  lemma RollingMonotone(a: seq<real>, b: seq<real>)
    requires |a| == |b| && forall k :: 0 <= k < |a| ==> a[k] <= b[k]
    ensures forall i :: 0 <= i < |a| ==> RollingAverages(a)[i] <= RollingAverages(b)[i]
  {
    forall i | 0 <= i < |a| ensures RollingAverages(a)[i] <= RollingAverages(b)[i] {
      var wa, wb := a[WindowStart(i)..i + 1], b[WindowStart(i)..i + 1];
      assert Sum(Id, wa) <= Sum(Id, wb) by {
        assert forall k :: 0 <= k < |wa| ==> wa[k] == a[WindowStart(i) + k] && wb[k] == b[WindowStart(i) + k];
        SumMonotone(wa, wb);
      }
      Divide(Sum(Id, wa), Sum(Id, wb), |wa| as real);
    }
  }

  /** Dividing by a positive number keeps the order. */
  lemma Divide(x: real, y: real, n: real)
    requires x <= y && n > 0.0
    ensures x / n <= y / n
  {
    assert y / n - x / n == (y - x) / n;
  }

  /** The cost of charging the minimum peak in each of `n` months. */
  function MinimumCost(n: nat, capRateYearIncl: real): real {
    n as real * (MIN_PEAK_KW * (capRateYearIncl / 12.0))
  }

  /** At a rate that is not negative, every month costs at least the minimum peak's share. */
  lemma CostAtLeastMinimum(pq: seq<QuarterImport>, capRateYearIncl: real)
    requires capRateYearIncl >= 0.0
    ensures var t := TariffOf(pq, capRateYearIncl);
      t.capCost0 >= MinimumCost(t.monthsCount, capRateYearIncl) && t.capCost1 >= MinimumCost(t.monthsCount, capRateYearIncl)
  {
    var months := Months(pq);
    CostFloor(Peaks(pq, months, OldImport), capRateYearIncl);
    CostFloor(Peaks(pq, months, NewImport), capRateYearIncl);
  }

  /** Peaks at least the minimum cost at least the minimum cost of their months. */
  lemma CostFloor(peaks: seq<real>, capRateYearIncl: real)
    requires capRateYearIncl >= 0.0 && forall k :: 0 <= k < |peaks| ==> MIN_PEAK_KW <= peaks[k]
    ensures CapCost(RollingAverages(peaks), capRateYearIncl / 12.0) >= MinimumCost(|peaks|, capRateYearIncl)
  {
    RollingAveragesBetween(peaks, MIN_PEAK_KW, MaxPeak(peaks));
    CapCostAtLeast(RollingAverages(peaks), MIN_PEAK_KW, capRateYearIncl / 12.0);
  }

  /** Averages at least `lo` cost at least `lo` times the monthly rate each. */
  lemma {:induction false} CapCostAtLeast(avgs: seq<real>, lo: real, rateMonth: real)
    requires rateMonth >= 0.0 && forall k :: 0 <= k < |avgs| ==> lo <= avgs[k]
    ensures CapCost(avgs, rateMonth) >= |avgs| as real * (lo * rateMonth)
  {
    if avgs != [] {
      var init := avgs[..|avgs| - 1];
      assert forall k :: 0 <= k < |init| ==> init[k] == avgs[k];
      CapCostAtLeast(init, lo, rateMonth);
      Scale(lo, avgs[|avgs| - 1], rateMonth);
    }
  }

  /** Pointwise lower averages cost no more. */
  lemma {:induction false} CapCostMonotone(a: seq<real>, b: seq<real>, rateMonth: real)
    requires rateMonth >= 0.0
    requires |a| == |b| && forall k :: 0 <= k < |a| ==> a[k] <= b[k]
    ensures CapCost(a, rateMonth) <= CapCost(b, rateMonth)
  {
    if a != [] {
      var ia, ib := a[..|a| - 1], b[..|b| - 1];
      assert forall k :: 0 <= k < |ia| ==> ia[k] == a[k] && ib[k] == b[k];
      CapCostMonotone(ia, ib, rateMonth);
      Scale(a[|a| - 1], b[|b| - 1], rateMonth);
    }
  }

  /** Scaling by a factor that is not negative keeps the order. */
  lemma Scale(x: real, y: real, c: real)
    requires x <= y && c >= 0.0
    ensures x * c <= y * c
  {
    assert (y - x) * c >= 0.0;
  }

  /** The highest month peak is 0 exactly when there are no months; otherwise it is one of the peaks and at least the minimum. */
  lemma MaxMonthPeakZeroIffNoMonths(pq: seq<QuarterImport>, capRateYearIncl: real)
    ensures var t := TariffOf(pq, capRateYearIncl);
      && (t.maxMonthPeak0 == 0.0 <==> t.monthsCount == 0)
      && (t.maxMonthPeak1 == 0.0 <==> t.monthsCount == 0)
      && (t.monthsCount > 0 ==> t.maxMonthPeak0 >= MIN_PEAK_KW && t.maxMonthPeak1 >= MIN_PEAK_KW)
  {
    var months := Months(pq);
    var peaks0 := Peaks(pq, months, OldImport);
    var peaks1 := Peaks(pq, months, NewImport);
    if months != [] {
      assert peaks0[0] >= MIN_PEAK_KW && peaks1[0] >= MIN_PEAK_KW;
    }
  }

  /**
   * Lower offtake never costs more: when every quarter hour's offtake after
   * the battery is at most its offtake before, the capacity cost with the
   * battery is at most the cost without (at a rate that is not negative).
   */
  lemma CapCostNotIncreased(pq: seq<QuarterImport>, capRateYearIncl: real)
    requires capRateYearIncl >= 0.0
    requires forall i :: 0 <= i < |pq| ==> pq[i].impNewKwh <= pq[i].impKwh
    ensures TariffOf(pq, capRateYearIncl).capCost1 <= TariffOf(pq, capRateYearIncl).capCost0
    ensures TariffOf(pq, capRateYearIncl).maxMonthPeak1 <= TariffOf(pq, capRateYearIncl).maxMonthPeak0
  {
    var months := Months(pq);
    var peaks0 := Peaks(pq, months, OldImport);
    var peaks1 := Peaks(pq, months, NewImport);
    PeaksMonotone(pq, months);
    TariffMonotone(months, peaks1, peaks0, capRateYearIncl);
  }

  /** Pointwise lower peaks with the battery give a cost and a highest peak no higher than without. */
  lemma TariffMonotone(months: seq<MonthKey>, peaks1: seq<real>, peaks0: seq<real>, capRateYearIncl: real)
    requires capRateYearIncl >= 0.0
    requires |peaks1| == |peaks0| && forall k :: 0 <= k < |peaks1| ==> peaks1[k] <= peaks0[k]
    ensures var t := TariffFrom(months, peaks0, peaks1, capRateYearIncl);
      t.capCost1 <= t.capCost0 && t.maxMonthPeak1 <= t.maxMonthPeak0
  {
    CostMonotone(peaks1, peaks0, capRateYearIncl / 12.0);
    MaxPeakMonotone(peaks1, peaks0);
  }

  /** Lower offtake in every quarter hour gives lower or equal charged peaks in every month. */
  lemma PeaksMonotone(pq: seq<QuarterImport>, months: seq<MonthKey>)
    requires forall i :: 0 <= i < |pq| ==> pq[i].impNewKwh <= pq[i].impKwh
    ensures forall k :: 0 <= k < |months| ==> Peaks(pq, months, NewImport)[k] <= Peaks(pq, months, OldImport)[k]
  {
    forall k | 0 <= k < |months| ensures Peaks(pq, months, NewImport)[k] <= Peaks(pq, months, OldImport)[k] {
      MonthPeakMonotone(pq, months[k]);
    }
  }

  /** Pointwise lower peaks cost no more. */
  lemma CostMonotone(a: seq<real>, b: seq<real>, rateMonth: real)
    requires rateMonth >= 0.0
    requires |a| == |b| && forall k :: 0 <= k < |a| ==> a[k] <= b[k]
    ensures CapCost(RollingAverages(a), rateMonth) <= CapCost(RollingAverages(b), rateMonth)
  {
    RollingMonotone(a, b);
    CapCostMonotone(RollingAverages(a), RollingAverages(b), rateMonth);
  }

  /** Pointwise lower peaks have a highest peak no higher. */
  lemma MaxPeakMonotone(a: seq<real>, b: seq<real>)
    requires |a| == |b| && forall k :: 0 <= k < |a| ==> a[k] <= b[k]
    ensures MaxPeak(a) <= MaxPeak(b)
  {
    if MaxPeak(a) != 0.0 {
      var k :| 0 <= k < |a| && a[k] == MaxPeak(a);
      assert b[k] <= MaxPeak(b);
    }
  }

  /** With a battery the capacity cost never goes up. */
  lemma BatteryNeverRaisesCapacityCost(l: Limits, rows: seq<Aggregation.Quarter>, capRateYearIncl: real)
    requires Sane(l) && capRateYearIncl >= 0.0
    ensures var t := TariffOf(Run(l, rows).perQuarter, capRateYearIncl);
      t.capCost1 <= t.capCost0 && t.maxMonthPeak1 <= t.maxMonthPeak0
  {
    PerQuarterRecord(l, rows);
    CapCostNotIncreased(Run(l, rows).perQuarter, capRateYearIncl);
  }
}
