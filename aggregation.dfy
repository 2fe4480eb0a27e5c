/**
 * `parseFluviusRows`: raw rows of a Fluvius quarter-hour export (one register
 * per row) are merged into one record per quarter hour, with the offtake
 * ("Afname") and injection ("Injectie") volumes summed, in chronological order.
 * Rows without a readable date are counted as anomalies.
 */
module Aggregation {
  import opened Util
  import opened JsText
  import opened JsNumber
  import opened Ordering
  import opened Timestamps

  /** A parsed CSV row: header name to cell text; a column absent from the row is absent from the map. */
  type RawRow = map<string, string>

  /** `r[n0] ?? r[n1] ?? ...`: the cell of the first of the alternative column names the row has. */
  function Field(r: RawRow, names: seq<string>): (v: Option<string>)
    ensures v.None? <==> forall i :: 0 <= i < |names| ==> names[i] !in r
    ensures v.Some? ==> exists i :: 0 <= i < |names| && names[i] in r && v.value == r[names[i]]
                                    && forall j :: 0 <= j < i ==> names[j] !in r
  {
    if names == [] then None
    else if names[0] in r then Some(r[names[0]])
    else
      var v := Field(r, names[1..]);
      assert forall i :: 1 <= i < |names| ==> names[i] == names[1..][i - 1];
      v
  }

  /** Header variants under which exports name the start date and start time of a quarter hour. */
  const DateColumns: seq<string> := ["Van (datum)", "Van(datum)", "Van datum", "Van"]
  const TimeColumns: seq<string> := ["Van (tijdstip)", "Van(tijdstip)", "Van tijdstip", "Van tijd"]

  /** The quarter hour a row belongs to, `None` when its date cannot be read. */
  function RowStamp(r: RawRow): Option<Timestamp> {
    ParseFluviusDate(Field(r, DateColumns), Field(r, TimeColumns))
  }

  /** The trimmed register name, "" when the row has no register column. */
  function RowRegister(r: RawRow): string {
    Trim(if "Register" in r then r["Register"] else "")
  }

  /** Which total a row adds to: offtake, injection, or neither (an unrecognised register). */
  datatype Channel = Afname | Injectie | Unrecognised

  /**
   * Case-insensitive prefix match of the register name, offtake checked
   * first: a register counts as offtake when its first six characters spell
   * "afname" in any letter case, otherwise as injection when its first eight
   * spell "injectie".
   */
  function ChannelOf(register: string): (c: Channel)
    ensures c == Afname <==> |register| >= 6 && forall k :: 0 <= k < 6 ==> LowerChar(register[k]) == "afname"[k]
    ensures c == Injectie <==>
      && !(|register| >= 6 && forall k :: 0 <= k < 6 ==> LowerChar(register[k]) == "afname"[k])
      && |register| >= 8 && forall k :: 0 <= k < 8 ==> LowerChar(register[k]) == "injectie"[k]
  {
    var lower := ToLower(register);
    LowerPrefix(register, "afname");
    LowerPrefix(register, "injectie");
    if StartsWith(lower, "afname") then Afname
    else if StartsWith(lower, "injectie") then Injectie
    else Unrecognised
  }

  /** The lower-cased text starts with `word` exactly when its first characters lower-case to `word`. */
  lemma LowerPrefix(s: string, word: string)
    ensures StartsWith(ToLower(s), word) <==> |s| >= |word| && forall k :: 0 <= k < |word| ==> LowerChar(s[k]) == word[k]
  {
    var lower := ToLower(s);
    if |s| >= |word| && forall k :: 0 <= k < |word| ==> LowerChar(s[k]) == word[k] {
      assert lower[..|word|] == word;
    }
  }

  function RowChannel(r: RawRow): Channel {
    ChannelOf(RowRegister(r))
  }

  /**
   * The kWh of a volume cell: a missing or blank cell is 0, otherwise the first
   * decimal comma becomes a point and a value that is not a finite number is 0.
   */
  function VolumeValue(cell: Option<string>): (v: real)
    ensures cell.None? ==> v == 0.0
    ensures cell.Some? && Trim(cell.value) == [] ==> v == 0.0
  {
    if cell.None? || Trim(cell.value) == [] then 0.0
    else Num(ReplaceFirst(cell.value, ',', '.'))
  }

  function RowVolume(r: RawRow): real {
    VolumeValue(if "Volume" in r then Some(r["Volume"]) else None)
  }

  /** What the merger reads from one row: its quarter hour, its channel and its kWh. */
  datatype Reading = Reading(stamp: Option<Timestamp>, channel: Channel, kwh: real)

  function ReadRow(r: RawRow): Reading {
    Reading(RowStamp(r), RowChannel(r), RowVolume(r))
  }

  /** The readings of all rows, in row order. */
  function Readings(raw: seq<RawRow>): (rds: seq<Reading>)
    ensures |rds| == |raw|
  {
    MapSeq(ReadRow, raw)
  }

  /** One quarter hour of the merged series. */
  datatype Quarter = Quarter(ts: Timestamp, importKwh: real, injectieKwh: real)

  // ---------------------------------------------------------------------
  // Specification: what the merged series holds
  // ---------------------------------------------------------------------

  /** What reading `rd` adds to the `c` total of quarter hour `t`. */
  function Contribution(rd: Reading, t: Timestamp, c: Channel): real {
    if rd.stamp == Some(t) && rd.channel == c then rd.kwh else 0.0
  }

  /** Contribution to the `c` total of quarter hour `t`, as a function of the reading. */
  function ContributionTo(t: Timestamp, c: Channel): Reading -> real {
    rd => Contribution(rd, t, c)
  }

  /** The `c` total of quarter hour `t` over all readings. */
  function ChannelSum(rds: seq<Reading>, t: Timestamp, c: Channel): real {
    Sum(ContributionTo(t, c), rds)
  }

  /** The record of quarter hour `t`: the offtake and injection totals of its rows. */
  function Merged(rds: seq<Reading>, t: Timestamp): Quarter {
    Quarter(t, ChannelSum(rds, t, Afname), ChannelSum(rds, t, Injectie))
  }

  /** A row without a readable date. */
  predicate IsAnomaly(rd: Reading) {
    rd.stamp.None?
  }

  /** The number of rows without a readable date. */
  function Anomalies(rds: seq<Reading>): (n: nat)
    ensures n <= |rds|
  {
    Count(IsAnomaly, rds)
  }

  /** Some row has quarter hour `t`. */
  ghost predicate HasStamp(rds: seq<Reading>, t: Timestamp) {
    exists i :: 0 <= i < |rds| && rds[i].stamp == Some(t)
  }

  /** The distinct quarter hours of the rows, in order of first appearance (the order `Map` keeps). */
  function StampList(rds: seq<Reading>): (ks: seq<Timestamp>)
    ensures Distinct(ks)
  {
    if rds == [] then []
    else
      var prev := StampList(rds[..|rds| - 1]);
      var s := rds[|rds| - 1].stamp;
      if s.Some? && s.value !in prev then prev + [s.value] else prev
  }

  /** The key list holds exactly the quarter hours that some row has. */
  lemma {:induction false} StampListHolds(rds: seq<Reading>)
    ensures forall t :: t in StampList(rds) <==> HasStamp(rds, t)
  {
    if rds != [] {
      var init := rds[..|rds| - 1];
      var s := rds[|rds| - 1].stamp;
      StampListHolds(init);
      forall t ensures HasStamp(rds, t) <==> HasStamp(init, t) || s == Some(t) {
        if HasStamp(init, t) {
          var i :| 0 <= i < |init| && init[i].stamp == Some(t);
          assert rds[i] == init[i];
        }
        if HasStamp(rds, t) && s != Some(t) {
          var i :| 0 <= i < |rds| && rds[i].stamp == Some(t);
          assert init[i] == rds[i];
        }
      }
    }
  }

  /** The records of the given quarter hours, in the given order. */
  function MergeAll(rds: seq<Reading>, ts: seq<Timestamp>): (qs: seq<Quarter>)
    ensures |qs| == |ts|
    ensures forall k :: 0 <= k < |ts| ==> qs[k] == Merged(rds, ts[k])
  {
    seq(|ts|, k requires 0 <= k < |ts| => Merged(rds, ts[k]))
  }

  /** The time stamps of a series of records. */
  function Stamps(qs: seq<Quarter>): (ts: seq<Timestamp>)
    ensures |ts| == |qs|
    ensures forall k :: 0 <= k < |qs| ==> ts[k] == qs[k].ts
  {
    seq(|qs|, k requires 0 <= k < |qs| => qs[k].ts)
  }

  /**
   * The merged series: one record per distinct readable quarter hour, strictly
   * ascending in time, each holding the totals of its rows.
   */
  function Aggregate(rds: seq<Reading>): (rows: seq<Quarter>)
    ensures |rows| == |StampList(rds)|
  {
    BeforeIsStrictTotalOrder();
    MergeAll(rds, Sort(StampList(rds), Before))
  }

  /**
   * The merged series is strictly ascending in time, has a record for every
   * quarter hour some row has and for no other, and each record holds the
   * totals of its quarter hour.
   */
  lemma AggregateIsMergedSeries(rds: seq<Reading>)
    ensures var rows := Aggregate(rds);
      && StrictlyAscending(Stamps(rows), Before)
      && (forall k :: 0 <= k < |rows| ==> HasStamp(rds, rows[k].ts) && rows[k] == Merged(rds, rows[k].ts))
      && (forall t :: HasStamp(rds, t) ==> exists k :: 0 <= k < |rows| && rows[k].ts == t)
  {
    BeforeIsStrictTotalOrder();
    var keys := StampList(rds);
    StampListHolds(rds);
    var sorted := Sort(keys, Before);
    assert forall t :: t in sorted <==> t in keys by {
      forall t ensures t in sorted <==> t in keys {
        assert t in sorted <==> t in multiset(sorted);
        assert t in keys <==> t in multiset(keys);
      }
    }
    var rows := MergeAll(rds, sorted);
    assert Stamps(rows) == sorted;
  }

  // ---------------------------------------------------------------------
  // The imperative parser
  // ---------------------------------------------------------------------

  /**
   * `parseFluviusRows`: the rows are read one at a time into a map from
   * quarter hour to record (created at zero on first sight), then the records
   * are listed in chronological order.
   */
  method ParseFluviusRows(rawRows: seq<RawRow>) returns (rows: seq<Quarter>, anomalies: nat)
    ensures rows == Aggregate(Readings(rawRows))
    ensures anomalies == Anomalies(Readings(rawRows))
  {
    var out: map<Timestamp, Quarter> := map[];
    var keys: seq<Timestamp> := [];
    anomalies := 0;
    ghost var rds: seq<Reading> := [];
    for i := 0 to |rawRows|
      invariant rds == Readings(rawRows[..i])
      invariant Tracks(out, keys, rds)
      invariant anomalies == Anomalies(rds)
    {
      MapSeqSnoc(ReadRow, rawRows, i);
      var rd := ReadRow(rawRows[i]);
      out, keys, anomalies := ReadInto(out, keys, anomalies, rd, rds);
      rds := rds + [rd];
    }
    assert rawRows[..|rawRows|] == rawRows;
    rows := InOrder(out, keys, rds);
  }

  /** One row of the loop: a dated row goes into the map, an undated one is counted. */
  method ReadInto(out: map<Timestamp, Quarter>, keys: seq<Timestamp>, anomalies: nat, rd: Reading,
                  ghost rds: seq<Reading>)
      returns (out': map<Timestamp, Quarter>, keys': seq<Timestamp>, anomalies': nat)
    requires Tracks(out, keys, rds) && anomalies == Anomalies(rds)
    ensures Tracks(out', keys', rds + [rd]) && anomalies' == Anomalies(rds + [rd])
  {
    CountSnoc(IsAnomaly, rds, rd);
    if rd.stamp.None? {
      anomalies' := anomalies + 1;
      out', keys' := out, keys;
      TracksAnomaly(out, keys, rds, rd);
    } else {
      anomalies' := anomalies;
      out', keys' := Absorb(out, keys, rd.stamp.value, rd.channel, rd.kwh, rds);
    }
  }

  /** The records of the map, sorted by quarter hour. */
  method InOrder(out: map<Timestamp, Quarter>, keys: seq<Timestamp>, ghost rds: seq<Reading>) returns (rows: seq<Quarter>)
    requires Tracks(out, keys, rds)
    ensures rows == Aggregate(rds)
  {
    BeforeIsStrictTotalOrder();
    var sorted := Sort(keys, Before);
    SortedKeys(out, keys, rds, sorted);
    rows := ListInOrder(out, sorted, rds);
  }

  /** The records of the map listed in the order of the given keys. */
  method ListInOrder(out: map<Timestamp, Quarter>, sorted: seq<Timestamp>, ghost rds: seq<Reading>)
      returns (rows: seq<Quarter>)
    requires forall t :: t in sorted ==> t in out && out[t] == Merged(rds, t)
    ensures rows == MergeAll(rds, sorted)
  {
    rows := [];
    for j := 0 to |sorted|
      invariant |rows| == j && forall k :: 0 <= k < j ==> rows[k] == Merged(rds, sorted[k])
    {
      rows := rows + [out[sorted[j]]];
    }
  }

  /**
   * One dated row: its quarter hour gets a record at zero on first sight, then
   * the volume is added to the offtake or injection total its register names.
   */
  method Absorb(out: map<Timestamp, Quarter>, keys: seq<Timestamp>, key: Timestamp, channel: Channel, val: real,
                ghost rds: seq<Reading>)
      returns (out': map<Timestamp, Quarter>, keys': seq<Timestamp>)
    requires Tracks(out, keys, rds)
    ensures Tracks(out', keys', rds + [Reading(Some(key), channel, val)])
  {
    out', keys' := out, keys;
    if key !in out' {
      out' := out'[key := Quarter(key, 0.0, 0.0)];
      keys' := keys' + [key];
    }
    var row := out'[key];
    ghost var base := row;
    if channel == Afname {
      row := row.(importKwh := row.importKwh + val);
    } else if channel == Injectie {
      row := row.(injectieKwh := row.injectieKwh + val);
    }
    assert row == Credit(base, Reading(Some(key), channel, val));
    out' := out'[key := row];
    TracksStep(out, keys, rds, Reading(Some(key), channel, val), out', keys');
  }

  /** Listing the records by the sorted keys lists the merged series. */
  lemma SortedKeys(out: map<Timestamp, Quarter>, keys: seq<Timestamp>, rds: seq<Reading>, sorted: seq<Timestamp>)
    requires Tracks(out, keys, rds)
    requires IsStrictTotalOrder(Before) && Distinct(keys) && sorted == Sort(keys, Before)
    ensures forall t :: t in sorted ==> t in out && out[t] == Merged(rds, t)
    ensures Aggregate(rds) == MergeAll(rds, sorted)
  {
    forall t | t in sorted ensures t in out && out[t] == Merged(rds, t) {
      assert t in multiset(sorted);
    }
  }

  /** The map and its key list hold exactly the quarter hours of the readings so far, each with its totals. */
  ghost predicate Tracks(out: map<Timestamp, Quarter>, keys: seq<Timestamp>, rds: seq<Reading>) {
    && keys == StampList(rds)
    && (forall t :: t in out <==> t in keys)
    && (forall t :: t in out ==> out[t] == Merged(rds, t))
  }

  /** A record with the reading's kWh added to the total of the reading's channel. */
  function Credit(q: Quarter, rd: Reading): Quarter {
    if rd.channel == Afname then q.(importKwh := q.importKwh + rd.kwh)
    else if rd.channel == Injectie then q.(injectieKwh := q.injectieKwh + rd.kwh)
    else q
  }

  /** Reading one more row credits its channel in the record of its own quarter hour and changes no other record. */
  lemma MergedSnoc(rds: seq<Reading>, rd: Reading, t: Timestamp)
    ensures Merged(rds + [rd], t) == if rd.stamp == Some(t) then Credit(Merged(rds, t), rd) else Merged(rds, t)
  {
    SumSnoc(ContributionTo(t, Afname), rds, rd);
    SumSnoc(ContributionTo(t, Injectie), rds, rd);
  }

  /** Reading one more row adds its quarter hour to the key list on first sight. */
  lemma StampListSnoc(rds: seq<Reading>, rd: Reading)
    ensures StampList(rds + [rd])
         == if rd.stamp.Some? && rd.stamp.value !in StampList(rds) then StampList(rds) + [rd.stamp.value] else StampList(rds)
  {
    assert (rds + [rd])[..|rds|] == rds;
  }

  /** A row without a readable date changes no record and no key. */
  lemma TracksAnomaly(out: map<Timestamp, Quarter>, keys: seq<Timestamp>, rds: seq<Reading>, rd: Reading)
    requires Tracks(out, keys, rds) && rd.stamp.None?
    ensures Tracks(out, keys, rds + [rd])
  {
    StampListSnoc(rds, rd);
    forall t | t in out ensures out[t] == Merged(rds + [rd], t) {
      MergedSnoc(rds, rd, t);
    }
  }

  /** A dated row creates its record at zero if needed and credits its channel; no other record changes. */
  lemma TracksStep(out0: map<Timestamp, Quarter>, keys0: seq<Timestamp>, rds: seq<Reading>, rd: Reading,
                   out: map<Timestamp, Quarter>, keys: seq<Timestamp>)
    requires Tracks(out0, keys0, rds) && rd.stamp.Some?
    requires var key := rd.stamp.value;
      && keys == (if key in out0 then keys0 else keys0 + [key])
      && out == out0[key := Credit(if key in out0 then out0[key] else Quarter(key, 0.0, 0.0), rd)]
    ensures Tracks(out, keys, rds + [rd])
  {
    var key := rd.stamp.value;
    StampListSnoc(rds, rd);
    assert out[key] == Merged(rds + [rd], key) by {
      MergedSnoc(rds, rd, key);
      if key !in out0 {
        StampListHolds(rds);
        NoStampNoSum(rds, key);
      }
    }
    forall t | t in out && t != key ensures out[t] == Merged(rds + [rd], t) {
      MergedSnoc(rds, rd, t);
    }
  }

  /** A quarter hour no row has collects nothing. */
  lemma {:induction false} NoStampNoSum(rds: seq<Reading>, t: Timestamp)
    requires !HasStamp(rds, t)
    ensures Merged(rds, t) == Quarter(t, 0.0, 0.0)
  {
    if rds != [] {
      var init := rds[..|rds| - 1];
      assert !HasStamp(init, t) by {
        forall i | 0 <= i < |init| ensures init[i].stamp != Some(t) {
          assert init[i] == rds[i];
        }
      }
      NoStampNoSum(init, t);
    }
  }

  // ---------------------------------------------------------------------
  // Properties of the merged series
  // ---------------------------------------------------------------------

  /**
   * Row order is irrelevant: readings that are a permutation of each other give
   * the same merged series and the same anomaly count.
   */
  lemma AggregateOrderIndependent(a: seq<Reading>, b: seq<Reading>)
    requires multiset(a) == multiset(b)
    ensures Aggregate(a) == Aggregate(b)
    ensures Anomalies(a) == Anomalies(b)
  {
    CountPermutation(IsAnomaly, a, b);
    StampListHolds(a);
    StampListHolds(b);
    forall t ensures HasStamp(a, t) <==> HasStamp(b, t) {
      if HasStamp(a, t) {
        var i :| 0 <= i < |a| && a[i].stamp == Some(t);
        assert a[i] in multiset(b);
      }
      if HasStamp(b, t) {
        var i :| 0 <= i < |b| && b[i].stamp == Some(t);
        assert b[i] in multiset(a);
      }
    }
    BeforeIsStrictTotalOrder();
    var sa, sb := Sort(StampList(a), Before), Sort(StampList(b), Before);
    forall t ensures t in sa <==> t in sb {
      assert t in sa <==> t in multiset(sa);
      assert t in sb <==> t in multiset(sb);
      assert t in StampList(a) <==> t in multiset(StampList(a));
      assert t in StampList(b) <==> t in multiset(StampList(b));
    }
    AscendingUnique(sa, sb, Before);
    forall t ensures Merged(a, t) == Merged(b, t) {
      SumPermutation(ContributionTo(t, Afname), a, b);
      SumPermutation(ContributionTo(t, Injectie), a, b);
    }
  }

  /** `parseFluviusRows` does not depend on the order of the raw rows. */
  lemma RowOrderIrrelevant(a: seq<RawRow>, b: seq<RawRow>)
    requires multiset(a) == multiset(b)
    ensures Aggregate(Readings(a)) == Aggregate(Readings(b))
    ensures Anomalies(Readings(a)) == Anomalies(Readings(b))
  {
    MapSeqPermutation(ReadRow, a, b);
    AggregateOrderIndependent(Readings(a), Readings(b));
  }

  /** Without a readable date a row counts as an anomaly and changes no record. */
  lemma AnomalyChangesNothing(rds: seq<Reading>, rd: Reading)
    requires rd.stamp.None?
    ensures Aggregate(rds + [rd]) == Aggregate(rds)
    ensures Anomalies(rds + [rd]) == Anomalies(rds) + 1
  {
    StampListSnoc(rds, rd);
    CountSnoc(IsAnomaly, rds, rd);
    forall t ensures Merged(rds + [rd], t) == Merged(rds, t) {
      MergedSnoc(rds, rd, t);
    }
  }

  /**
   * A dated row whose register is neither offtake nor injection is not an
   * anomaly: its quarter hour gets a record, but no total changes.
   */
  lemma UnrecognisedRegisterKeepsQuarter(rds: seq<Reading>, rd: Reading)
    requires rd.stamp.Some? && rd.channel == Unrecognised
    ensures rd.stamp.value in StampList(rds + [rd])
    ensures forall t :: Merged(rds + [rd], t) == Merged(rds, t)
    ensures Anomalies(rds + [rd]) == Anomalies(rds)
  {
    StampListSnoc(rds, rd);
    CountSnoc(IsAnomaly, rds, rd);
    forall t ensures Merged(rds + [rd], t) == Merged(rds, t) {
      MergedSnoc(rds, rd, t);
    }
  }

  /** Every readable row yields at most one record (rows of the same quarter hour share one), every other row one anomaly. */
  lemma {:induction false} CountsBounded(rds: seq<Reading>)
    ensures |Aggregate(rds)| + Anomalies(rds) <= |rds|
  {
    StampListBound(rds);
  }

  lemma {:induction false} StampListBound(rds: seq<Reading>)
    ensures |StampList(rds)| + Anomalies(rds) <= |rds|
  {
    if rds != [] {
      StampListBound(rds[..|rds| - 1]);
    }
  }

  /** The series is empty exactly when every row is an anomaly. */
  lemma EmptyIffAllAnomalies(rds: seq<Reading>)
    ensures |Aggregate(rds)| == 0 <==> Anomalies(rds) == |rds|
  {
    StampListHolds(rds);
    CountAll(IsAnomaly, rds);
    if Anomalies(rds) != |rds| {
      var i :| 0 <= i < |rds| && !IsAnomaly(rds[i]);
      assert HasStamp(rds, rds[i].stamp.value);
    } else if StampList(rds) != [] {
      HeadIsElement(StampList(rds));
      assert false;
    }
  }

  // ---------------------------------------------------------------------
  // Reading the cells of one row
  // ---------------------------------------------------------------------

  /** A digit string contains no comma. */
  lemma DigitsHaveNoComma(ds: string)
    requires AllDigits(ds)
    ensures ',' !in ds
  {
  }

  /** The first comma becomes a point. */
  lemma CommaToPoint(pre: string, rest: string)
    requires ',' !in pre
    ensures ReplaceFirst(pre + [','] + rest, ',', '.') == pre + ['.'] + rest
  {
    var cell := pre + [','] + rest;
    IndexOfAfter(pre, ',', [','] + rest);
    assert cell == pre + ([','] + rest);
    assert cell[..|pre|] == pre && cell[|pre| + 1..] == rest;
  }

  /** A volume with a decimal comma, as the exports write it, is read as whole part plus fraction. */
  lemma VolumeDecimalComma(ds: string, fs: string)
    requires ds != [] && AllDigits(ds) && AllDigits(fs)
    ensures VolumeValue(Some(ds + [','] + fs)) == DigitsValue(ds) as real + FracValue(fs)
  {
    var cell := ds + [','] + fs;
    assert cell[0] == ds[0];
    TrimKeepsFirst(cell);
    DigitsHaveNoComma(ds);
    CommaToPoint(ds, fs);
    ParseNumberDecimal(ds, fs);
  }

  /** A minus sign in front of a cell that starts with a digit negates its volume: nothing clamps it while the rows are read. */
  lemma VolumeNegated(cell: string)
    requires cell != [] && IsDigit(cell[0])
    ensures VolumeValue(Some(['-'] + cell)) == -VolumeValue(Some(cell))
  {
    TrimKeepsFirst(cell);
    TrimKeepsFirst(['-'] + cell);
    ReplaceFirstCons('-', cell, ',', '.');
    var w := ReplaceFirst(cell, ',', '.');
    ReplaceFirstKeepsFirst(cell, ',', '.');
    NumNegated(w);
  }

  /** A negative volume with a decimal comma is read as the negated decimal value. */
  lemma VolumeNegativeKept(ds: string, fs: string)
    requires ds != [] && AllDigits(ds) && AllDigits(fs)
    ensures VolumeValue(Some(['-'] + (ds + [','] + fs))) == -(DigitsValue(ds) as real + FracValue(fs))
  {
    var cell := ds + [','] + fs;
    assert cell[0] == ds[0];
    VolumeNegated(cell);
    VolumeDecimalComma(ds, fs);
  }

  /** Only the first comma is replaced: a cell with two commas is not a number, so its volume is 0. */
  lemma VolumeOnlyFirstComma(ds: string, fs: string, gs: string)
    requires ds != [] && AllDigits(ds) && AllDigits(fs) && AllDigits(gs)
    ensures VolumeValue(Some(ds + [','] + (fs + [','] + gs))) == 0.0
  {
    var rest := fs + [','] + gs;
    assert !AllDigits(rest) by {
      assert rest[|fs|] == ',';
    }
    var cell := ds + [','] + rest;
    assert cell[0] == ds[0];
    TrimKeepsFirst(cell);
    DigitsHaveNoComma(ds);
    CommaToPoint(ds, rest);
    assert rest[|rest| - 1] == ',' || IsDigit(rest[|rest| - 1]);
    ParseNumberBadFraction(ds, rest);
  }

  /** A cell that starts with a letter is not a number, so its volume is 0. */
  lemma VolumeNotANumber(v: string)
    requires v != [] && ('a' <= v[0] <= 'z' || 'A' <= v[0] <= 'Z')
    ensures VolumeValue(Some(v)) == 0.0
  {
    TrimKeepsFirst(v);
    var w := ReplaceFirst(v, ',', '.');
    ReplaceFirstKeepsFirst(v, ',', '.');
    TrimKeepsFirst(w);
    ParseNumberRejects(w);
  }

  /** A row without any of the date columns is an anomaly, whatever else it holds. */
  lemma NoDateColumnIsAnomaly(r: RawRow)
    requires forall i :: 0 <= i < |DateColumns| ==> DateColumns[i] !in r
    ensures IsAnomaly(ReadRow(r))
  {
    assert RowStamp(r).None? by {
      MissingDateRejected(Field(r, TimeColumns));
    }
  }

  /** The register name is matched without regard to letter case. */
  lemma ChannelIgnoresCase(register: string)
    ensures ChannelOf(ToLower(register)) == ChannelOf(register)
  {
    assert ToLower(ToLower(register)) == ToLower(register);
  }
}
