/**
 * The "Bereken" handler: reads the form, checks the battery sizes, runs the
 * simulation and the capacity tariff on the uploaded series and turns the
 * differences into a yearly saving and a payback time.
 */
module Savings {
  import opened JsNumber
  import opened Battery
  import opened Tariff
  import Aggregation

  /** `invest / totalSaving` years, or `Infinity` when the battery never pays for itself. */
  datatype Payback = Years(years: real) | Never

  datatype Savings = Savings(energySaving: real, capSaving: real, totalSaving: real, payback: Payback)

  /** The text of the form's input fields. */
  datatype Form = Form(cap: string, reserve: string, chkw: string, diskw: string, invest: string,
                       pImport: string, pInject: string, capRateYear: string)

  /** What a click on "Bereken" ends in: one of the two warnings, or the results. */
  datatype Analysis =
    | NoData
    | BadSizes
    | BadReserve
    | Done(sim: Simulation, cap: TariffResult, savings: Savings)

  /** The energy bill: offtake at the import price minus injection at the injection price. */
  function EnergyCost(imp: real, inj: real, pImport: real, pInject: real): real {
    imp * pImport - inj * pInject
  }

  /** The payback time: a number of years only when both the saving and the investment are positive. */
  function PaybackOf(invest: real, totalSaving: real): (p: Payback)
    ensures p.Years? <==> totalSaving > 0.0 && invest > 0.0
    ensures p.Years? ==> p.years > 0.0 && p.years * totalSaving == invest
  {
    if totalSaving > 0.0 && invest > 0.0 then Years(invest / totalSaving) else Never
  }

  /**
   * The savings of a simulation and its capacity tariff at the given prices:
   * the two energy bills differ by the avoided offtake at the import price
   * less the avoided injection at the injection price, and the total adds
   * the capacity saving.
   */
  function Evaluate(sim: Simulation, cap: TariffResult, pImport: real, pInject: real, invest: real): (r: Savings)
    ensures r.energySaving == (sim.imp0 - sim.imp1) * pImport - (sim.inj0 - sim.inj1) * pInject
    ensures r.totalSaving == r.energySaving + (cap.capCost0 - cap.capCost1)
    ensures r.payback.Years? <==> r.totalSaving > 0.0 && invest > 0.0
  {
    var energySaving := EnergyCost(sim.imp0, sim.inj0, pImport, pInject) - EnergyCost(sim.imp1, sim.inj1, pImport, pInject);
    PricedDifference(sim.imp0, sim.inj0, sim.imp1, sim.inj1, pImport, pInject);
    var capSaving := cap.capCost0 - cap.capCost1;
    var totalSaving := energySaving + capSaving;
    Savings(energySaving, capSaving, totalSaving, PaybackOf(invest, totalSaving))
  }

  /** The numbers the handler reads from the form, each through `num`. */
  datatype Inputs = Inputs(capKwh: real, reservePct: real, chKw: real, disKw: real, invest: real,
                           pImport: real, pInject: real, capRateYearIncl: real)

  function ReadForm(form: Form): Inputs {
    Inputs(Num(form.cap), Num(form.reserve), Num(form.chkw), Num(form.diskw), Num(form.invest),
           Num(form.pImport), Num(form.pInject), Num(form.capRateYear))
  }

  /** The handler's outcome for the parsed rows and the numbers of the form. */
  function AnalysisOf(rows: seq<Aggregation.Quarter>, inp: Inputs): Analysis {
    if |rows| == 0 then NoData
    else if inp.capKwh <= 0.0 || inp.chKw <= 0.0 || inp.disKw <= 0.0 then BadSizes
    else if inp.reservePct < 0.0 || inp.reservePct >= 100.0 then BadReserve
    else
      var l := LimitsOf(inp.capKwh, inp.reservePct, inp.chKw, inp.disKw);
      var sim := Outcome(l, Run(l, rows));
      var cap := TariffOf(sim.perQuarter, inp.capRateYearIncl);
      Done(sim, cap, Evaluate(sim, cap, inp.pImport, inp.pInject, inp.invest))
  }

  /** The click handler without its output to the page. */
  method Analyse(rows: seq<Aggregation.Quarter>, form: Form) returns (a: Analysis)
    ensures a == AnalysisOf(rows, ReadForm(form))
  {
    if |rows| == 0 {
      return NoData;
    }
    var capKwh := Num(form.cap);
    var reservePct := Num(form.reserve);
    var chKw := Num(form.chkw);
    var disKw := Num(form.diskw);
    var invest := Num(form.invest);
    var pImport := Num(form.pImport);
    var pInject := Num(form.pInject);
    var capRateYearIncl := Num(form.capRateYear);
    if capKwh <= 0.0 || chKw <= 0.0 || disKw <= 0.0 {
      return BadSizes;
    }
    if reservePct < 0.0 || reservePct >= 100.0 {
      return BadReserve;
    }
    var sim := SimulateBattery(rows, capKwh, reservePct, chKw, disKw);
    var cap := CapacityTariff(sim.perQuarter, capRateYearIncl);
    a := Done(sim, cap, Evaluate(sim, cap, pImport, pInject, invest));
  }

  // ---------------------------------------------------------------------
  // Properties
  // ---------------------------------------------------------------------

  /**
   * The results appear exactly when there are rows and the form passes both
   * checks; the battery simulated then is a sane one.
   */
  lemma ResultsIffValid(rows: seq<Aggregation.Quarter>, inp: Inputs)
    ensures AnalysisOf(rows, inp).Done? <==> |rows| > 0 && Validated(inp.capKwh, inp.reservePct, inp.chKw, inp.disKw)
    ensures AnalysisOf(rows, inp).NoData? <==> |rows| == 0
    ensures AnalysisOf(rows, inp).Done? ==> Sane(LimitsOf(inp.capKwh, inp.reservePct, inp.chKw, inp.disKw))
  {
    if AnalysisOf(rows, inp).Done? {
      assert Validated(inp.capKwh, inp.reservePct, inp.chKw, inp.disKw);
    }
  }

  /**
   * The energy saving of a run seen from the battery: the offtake it avoided
   * valued at the spread between the import and the injection price, less the
   * energy it holds beyond its starting charge valued at the injection price
   * (that energy could have been injected instead).
   */
  function BatteryValue(l: Limits, st: State, pImport: real, pInject: real): real {
    (st.imp0 - st.imp1) * (pImport - pInject) - (st.soc - InitialSoc(l)) * pInject
  }

  /**
   * The energy saving of a result is the battery's value of its run: the
   * energy balance the run keeps (`Battery.RunInvariant`) turns the two
   * priced bills into avoided offtake and stored energy.
   */
  lemma EnergySavingOfAnalysis(rows: seq<Aggregation.Quarter>, inp: Inputs)
    requires AnalysisOf(rows, inp).Done?
    ensures var l := LimitsOf(inp.capKwh, inp.reservePct, inp.chKw, inp.disKw);
      AnalysisOf(rows, inp).savings.energySaving == BatteryValue(l, Run(l, rows), inp.pImport, inp.pInject)
  {
    var l := LimitsOf(inp.capKwh, inp.reservePct, inp.chKw, inp.disKw);
    DoneParts(rows, inp);
    EnergyBalance(l, rows);
    BalancedSaving(l, Run(l, rows), AnalysisOf(rows, inp).cap, inp.pImport, inp.pInject, inp.invest);
  }

  /** Evaluating the outcome of a state that keeps the energy balance gives the battery's value of that state. */
  lemma BalancedSaving(l: Limits, st: State, cap: TariffResult, pImport: real, pInject: real, invest: real)
    requires st.soc - InitialSoc(l) == (st.inj0 - st.inj1) - (st.imp0 - st.imp1)
    ensures Evaluate(Outcome(l, st), cap, pImport, pInject, invest).energySaving == BatteryValue(l, st, pImport, pInject)
  {
    Regroup(st.imp0 - st.imp1, st.inj0 - st.inj1, st.soc - InitialSoc(l), pImport, pInject);
  }

  /** A result is the outcome of the run on the sane battery of the form, evaluated at the form's prices. */
  lemma DoneParts(rows: seq<Aggregation.Quarter>, inp: Inputs)
    requires AnalysisOf(rows, inp).Done?
    ensures var l := LimitsOf(inp.capKwh, inp.reservePct, inp.chKw, inp.disKw);
      var a := AnalysisOf(rows, inp);
      && Sane(l)
      && a.sim == Outcome(l, Run(l, rows))
      && a.savings == Evaluate(a.sim, a.cap, inp.pImport, inp.pInject, inp.invest)
  {
    assert Validated(inp.capKwh, inp.reservePct, inp.chKw, inp.disKw);
  }

  /** The difference of two energy bills is the priced difference of the flows. */
  lemma PricedDifference(imp0: real, inj0: real, imp1: real, inj1: real, pImport: real, pInject: real)
    ensures EnergyCost(imp0, inj0, pImport, pInject) - EnergyCost(imp1, inj1, pImport, pInject)
         == (imp0 - imp1) * pImport - (inj0 - inj1) * pInject
  {
  }

  /** Avoided offtake and injection priced apart, regrouped around the energy stored (injection absorbed less offtake covered). */
  lemma Regroup(saved: real, absorbed: real, stored: real, pImport: real, pInject: real)
    requires stored == absorbed - saved
    ensures saved * pImport - absorbed * pInject == saved * (pImport - pInject) - stored * pInject
  {
  }

  /** At a capacity rate that is not negative the capacity saving of a result is never negative. */
  lemma CapacitySavingNotNegative(rows: seq<Aggregation.Quarter>, inp: Inputs)
    requires inp.capRateYearIncl >= 0.0
    requires AnalysisOf(rows, inp).Done?
    ensures AnalysisOf(rows, inp).savings.capSaving >= 0.0
    ensures AnalysisOf(rows, inp).cap.maxMonthPeak1 <= AnalysisOf(rows, inp).cap.maxMonthPeak0
  {
    var l := LimitsOf(inp.capKwh, inp.reservePct, inp.chKw, inp.disKw);
    assert Sane(l) by {
      ResultsIffValid(rows, inp);
    }
    BatteryNeverRaisesCapacityCost(l, rows, inp.capRateYearIncl);
  }
}
