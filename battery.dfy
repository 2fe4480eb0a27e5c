/**
 * `simulateBattery`: a home battery walked through the merged quarter-hour
 * series. Injection that would go to the grid charges the battery first;
 * otherwise offtake from the grid is served from the battery first. The run
 * reports the offtake and injection totals without and with the battery, and
 * per quarter hour the offtake before and after.
 */
module Battery {
  import opened Util
  import opened Timestamps
  import opened Aggregation

  /** Length of one metering interval in hours (a quarter hour). */
  const DT_H: real := 0.25

  /** The battery's energy limits, all in kWh: reserve floor, capacity, and what one quarter hour can charge or discharge. */
  datatype Limits = Limits(minSoc: real, maxSoc: real, maxCh: real, maxDis: real)

  /** What the input form lets through: positive capacity and powers, a reserve from 0 up to (not including) 100 percent. */
  predicate Validated(capKwh: real, reservePct: real, chKw: real, disKw: real) {
    capKwh > 0.0 && chKw > 0.0 && disKw > 0.0 && 0.0 <= reservePct < 100.0
  }

  /** A battery whose reserve lies below its capacity and that can move energy both ways. */
  predicate Sane(l: Limits) {
    0.0 <= l.minSoc < l.maxSoc && l.maxCh > 0.0 && l.maxDis > 0.0
  }

  predicate InRange(l: Limits, soc: real) {
    l.minSoc <= soc <= l.maxSoc
  }

  /**
   * The limits of a battery of `capKwh` kWh with a reserve of `reservePct`
   * percent and the given powers in kW. Inputs that pass the form's checks
   * give a sane battery whose starting charge lies in range.
   */
  function LimitsOf(capKwh: real, reservePct: real, chKw: real, disKw: real): (l: Limits)
    ensures Validated(capKwh, reservePct, chKw, disKw) ==> Sane(l) && InRange(l, InitialSoc(l))
  {
    var l := Limits(capKwh * (reservePct / 100.0), capKwh, chKw * DT_H, disKw * DT_H);
    assert Validated(capKwh, reservePct, chKw, disKw) ==> reservePct / 100.0 < 1.0;
    l
  }

  /** The state of charge at the start: half way between the reserve and the capacity (the reserve itself if there is no room). */
  function InitialSoc(l: Limits): real {
    l.minSoc + 0.5 * Max(0.0, l.maxSoc - l.minSoc)
  }

  /** What one quarter hour does: the clamped offtake and injection, both after the battery, and the new state of charge. */
  datatype StepResult = StepResult(imp: real, inj: real, impNew: real, injNew: real, soc: real)

  /**
   * One quarter hour starting at state of charge `soc`. From a state of
   * charge in range: the offtake and injection are clamped at zero, the
   * battery lowers at most one of them, by no more than the quarter-hour power
   * allows, and the state of charge moves by exactly what was charged or
   * discharged and stays in range (so the clamps on the new state of charge
   * never take effect).
   */
  function Step(l: Limits, soc: real, q: Quarter): (s: StepResult)
    ensures Sane(l) && InRange(l, soc) ==>
      && s.imp >= 0.0 && s.inj >= 0.0
      && (q.importKwh >= 0.0 ==> s.imp == q.importKwh) && (q.importKwh < 0.0 ==> s.imp == 0.0)
      && (q.injectieKwh >= 0.0 ==> s.inj == q.injectieKwh) && (q.injectieKwh < 0.0 ==> s.inj == 0.0)
      && 0.0 <= s.impNew <= s.imp && 0.0 <= s.injNew <= s.inj
      && s.inj - s.injNew <= l.maxCh && s.imp - s.impNew <= l.maxDis
      && s.soc == soc + (s.inj - s.injNew) - (s.imp - s.impNew)
      && InRange(l, s.soc)
  {
    var imp := Max(0.0, q.importKwh);
    var inj := Max(0.0, q.injectieKwh);
    if inj > 0.0 then
      var charge := Min(Min(inj, l.maxCh), l.maxSoc - soc);
      StepResult(imp, inj, imp, inj - charge, Min(l.maxSoc, soc + charge))
    else if imp > 0.0 then
      var discharge := Min(Min(imp, l.maxDis), soc - l.minSoc);
      StepResult(imp, inj, imp - discharge, inj, Max(l.minSoc, soc - discharge))
    else
      StepResult(imp, inj, imp, inj, soc)
  }

  /** One entry of the per-quarter record: the quarter hour, its offtake without and with the battery. */
  datatype QuarterImport = QuarterImport(ts: Timestamp, impKwh: real, impNewKwh: real)

  /** The running state of the simulation loop. */
  datatype State = State(soc: real, imp0: real, inj0: real, imp1: real, inj1: real, perQuarter: seq<QuarterImport>)

  function Initial(l: Limits): State {
    State(InitialSoc(l), 0.0, 0.0, 0.0, 0.0, [])
  }

  /** The state after one more quarter hour. */
  function Advance(l: Limits, st: State, q: Quarter): State {
    var s := Step(l, st.soc, q);
    State(s.soc, st.imp0 + s.imp, st.inj0 + s.inj, st.imp1 + s.impNew, st.inj1 + s.injNew,
          st.perQuarter + [QuarterImport(q.ts, s.imp, s.impNew)])
  }

  /** The state after the given quarter hours, in order. */
  function Run(l: Limits, rows: seq<Quarter>): (st: State)
    ensures |st.perQuarter| == |rows|
  {
    if rows == [] then Initial(l) else Advance(l, Run(l, rows[..|rows| - 1]), rows[|rows| - 1])
  }

  /** What `simulateBattery` returns. */
  datatype Simulation = Simulation(imp0: real, inj0: real, imp1: real, inj1: real,
                                   perQuarter: seq<QuarterImport>, reserveKwh: real)

  function Outcome(l: Limits, st: State): Simulation {
    Simulation(st.imp0, st.inj0, st.imp1, st.inj1, st.perQuarter, l.minSoc)
  }

  /** `simulateBattery(rows, capKwh, reservePct, chKw, disKw)`. */
  method SimulateBattery(rows: seq<Quarter>, capKwh: real, reservePct: real, chKw: real, disKw: real)
      returns (sim: Simulation)
    ensures sim == Outcome(LimitsOf(capKwh, reservePct, chKw, disKw), Run(LimitsOf(capKwh, reservePct, chKw, disKw), rows))
  {
    var reserveKwh := capKwh * (reservePct / 100.0);
    var minSoc := reserveKwh;
    var maxSoc := capKwh;
    var usable := Max(0.0, maxSoc - minSoc);
    var soc := minSoc + 0.5 * usable;
    var maxCh := chKw * DT_H;
    var maxDis := disKw * DT_H;
    ghost var l := Limits(minSoc, maxSoc, maxCh, maxDis);
    var imp0, inj0, imp1, inj1 := 0.0, 0.0, 0.0, 0.0;
    var perQuarter: seq<QuarterImport> := [];
    for i := 0 to |rows|
      invariant Run(l, rows[..i]) == State(soc, imp0, inj0, imp1, inj1, perQuarter)
    {
      var r := rows[i];
      assert Run(l, rows[..i + 1]) == Advance(l, State(soc, imp0, inj0, imp1, inj1, perQuarter), r) by {
        assert rows[..i + 1][..i] == rows[..i];
      }
      var imp, inj, impNew, injNew, soc' := StepQuarter(minSoc, maxSoc, maxCh, maxDis, soc, r);
      soc := soc';
      imp0, inj0 := imp0 + imp, inj0 + inj;
      imp1, inj1 := imp1 + impNew, inj1 + injNew;
      perQuarter := perQuarter + [QuarterImport(r.ts, imp, impNew)];
    }
    assert rows[..|rows|] == rows;
    sim := Simulation(imp0, inj0, imp1, inj1, perQuarter, reserveKwh);
  }

  /** The body of the simulation loop: one quarter hour from state of charge `soc`. */
  method StepQuarter(minSoc: real, maxSoc: real, maxCh: real, maxDis: real, soc: real, r: Quarter)
      returns (imp: real, inj: real, impNew: real, injNew: real, soc': real)
    ensures StepResult(imp, inj, impNew, injNew, soc') == Step(Limits(minSoc, maxSoc, maxCh, maxDis), soc, r)
  {
    imp := Max(0.0, r.importKwh);
    inj := Max(0.0, r.injectieKwh);
    impNew, injNew, soc' := imp, inj, soc;
    if inj > 0.0 {
      var charge := Min(Min(inj, maxCh), maxSoc - soc);
      injNew := inj - charge;
      soc' := Min(maxSoc, soc + charge);
    } else if imp > 0.0 {
      var discharge := Min(Min(imp, maxDis), soc - minSoc);
      impNew := imp - discharge;
      soc' := Max(minSoc, soc - discharge);
    }
  }

  // ---------------------------------------------------------------------
  // One quarter hour
  // ---------------------------------------------------------------------

  /** The run starts half way between reserve and capacity, inside the range. */
  lemma InitialInRange(l: Limits)
    requires Sane(l)
    ensures InRange(l, InitialSoc(l))
    ensures InitialSoc(l) == (l.minSoc + l.maxSoc) / 2.0
  {
  }

  /**
   * Injection has priority: when the quarter hour injects, the offtake is
   * left alone and the battery only charges; a quarter hour with neither
   * leaves everything as it was.
   */
  lemma StepPriority(l: Limits, soc: real, q: Quarter)
    requires Sane(l) && InRange(l, soc)
    ensures var s := Step(l, soc, q);
      && (s.inj > 0.0 ==> s.impNew == s.imp && s.soc >= soc)
      && (s.impNew < s.imp ==> s.inj == 0.0 && s.soc < soc)
      && (s.inj == 0.0 && s.imp == 0.0 ==> s.impNew == 0.0 && s.injNew == 0.0 && s.soc == soc)
  {
  }

  /** The battery absorbs as much injection as it can: what is left is injected only when the power or the room ran out. */
  lemma StepGreedy(l: Limits, soc: real, q: Quarter)
    requires Sane(l) && InRange(l, soc)
    ensures var s := Step(l, soc, q);
      && (s.injNew > 0.0 ==> s.inj - s.injNew == l.maxCh || s.soc == l.maxSoc)
      && (s.inj == 0.0 && s.impNew > 0.0 ==> s.imp - s.impNew == l.maxDis || s.soc == l.minSoc)
  {
  }

  // ---------------------------------------------------------------------
  // The whole run
  // ---------------------------------------------------------------------

  /** Offtake clamped at zero, as the simulation reads it. */
  function ClampedImport(q: Quarter): real {
    Max(0.0, q.importKwh)
  }

  /** Injection clamped at zero, as the simulation reads it. */
  function ClampedInjectie(q: Quarter): real {
    Max(0.0, q.injectieKwh)
  }

  /**
   * The invariants of the run: the state of charge stays between reserve and
   * capacity; the totals without the battery are the sums of the clamped
   * series; the battery never increases offtake or injection; and the energy
   * it holds changed by exactly what it absorbed minus what it supplied.
   */
  lemma {:induction false} RunInvariant(l: Limits, rows: seq<Quarter>)
    requires Sane(l)
    ensures var st := Run(l, rows);
      && InRange(l, st.soc)
      && st.imp0 == Sum(ClampedImport, rows) && st.inj0 == Sum(ClampedInjectie, rows)
      && 0.0 <= st.imp1 <= st.imp0 && 0.0 <= st.inj1 <= st.inj0
      && st.soc - InitialSoc(l) == (st.inj0 - st.inj1) - (st.imp0 - st.imp1)
  {
    if rows != [] {
      var init := rows[..|rows| - 1];
      var q := rows[|rows| - 1];
      RunInvariant(l, init);
    } else {
      InitialInRange(l);
    }
  }

  /** The energy the battery holds beyond its starting charge is what it absorbed minus what it supplied. */
  lemma EnergyBalance(l: Limits, rows: seq<Quarter>)
    requires Sane(l)
    ensures Run(l, rows).soc - InitialSoc(l)
         == (Run(l, rows).inj0 - Run(l, rows).inj1) - (Run(l, rows).imp0 - Run(l, rows).imp1)
  {
    RunInvariant(l, rows);
  }

  /** The offtake the battery saves is bounded by what it absorbed plus the usable charge it started with. */
  lemma SavingBounded(l: Limits, rows: seq<Quarter>)
    requires Sane(l)
    ensures var st := Run(l, rows);
      st.imp0 - st.imp1 <= (st.inj0 - st.inj1) + (InitialSoc(l) - l.minSoc)
  {
    RunInvariant(l, rows);
  }

  /**
   * One entry per quarter hour, in order: its time stamp, its clamped offtake
   * and its offtake after the battery, never more and never negative.
   */
  lemma {:induction false} PerQuarterRecord(l: Limits, rows: seq<Quarter>)
    requires Sane(l)
    ensures var pq := Run(l, rows).perQuarter;
      && |pq| == |rows|
      && forall i :: 0 <= i < |rows| ==>
           pq[i].ts == rows[i].ts && pq[i].impKwh == ClampedImport(rows[i]) && 0.0 <= pq[i].impNewKwh <= pq[i].impKwh
  {
    if rows != [] {
      var init := rows[..|rows| - 1];
      PerQuarterRecord(l, init);
      RunInvariant(l, init);
    }
  }

  /** The offtake with the battery is the sum of the per-quarter record. */
  lemma {:induction false} PerQuarterSums(l: Limits, rows: seq<Quarter>)
    ensures Run(l, rows).imp1 == Sum(NewImport, Run(l, rows).perQuarter)
    ensures Run(l, rows).imp0 == Sum(OldImport, Run(l, rows).perQuarter)
  {
    if rows != [] {
      var init := rows[..|rows| - 1];
      PerQuarterSums(l, init);
      var pq := Run(l, init).perQuarter;
      var e := Run(l, rows).perQuarter[|rows| - 1];
      SumSnoc(NewImport, pq, e);
      SumSnoc(OldImport, pq, e);
    }
  }

  function OldImport(e: QuarterImport): real {
    e.impKwh
  }

  function NewImport(e: QuarterImport): real {
    e.impNewKwh
  }

  /** A series without offtake or injection leaves the battery and both totals untouched. */
  lemma {:induction false} IdleRunChangesNothing(l: Limits, rows: seq<Quarter>)
    requires Sane(l)
    requires forall i :: 0 <= i < |rows| ==> rows[i].importKwh <= 0.0 && rows[i].injectieKwh <= 0.0
    ensures Run(l, rows).soc == InitialSoc(l)
    ensures Run(l, rows).imp1 == 0.0 && Run(l, rows).inj1 == 0.0
  {
    if rows != [] {
      var init := rows[..|rows| - 1];
      assert forall i :: 0 <= i < |init| ==> init[i] == rows[i];
      IdleRunChangesNothing(l, init);
    }
  }
}
