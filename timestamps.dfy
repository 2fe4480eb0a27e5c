/**
 * Quarter-hour timestamps: `parseFluviusDate` (a day-month-year date and an
 * hour:minute[:second] time into a local date), their chronological order,
 * and `monthKey`, the calendar month a timestamp falls in.
 */
module Timestamps {
  import opened Util
  import opened JsText
  import opened JsNumber
  import opened Ordering

  /** A local calendar date and time, as the fields of the `Date` that `new Date(...)` builds. */
  datatype Timestamp = Timestamp(year: int, month: int, day: int, hour: int, minute: int, second: int)

  /** Chronological order: lexicographic on (year, month, day, hour, minute, second). */
  predicate Before(a: Timestamp, b: Timestamp) {
    || a.year < b.year
    || (a.year == b.year && a.month < b.month)
    || (a.year == b.year && a.month == b.month && a.day < b.day)
    || (a.year == b.year && a.month == b.month && a.day == b.day && a.hour < b.hour)
    || (a.year == b.year && a.month == b.month && a.day == b.day && a.hour == b.hour && a.minute < b.minute)
    || (a.year == b.year && a.month == b.month && a.day == b.day && a.hour == b.hour && a.minute == b.minute
        && a.second < b.second)
  }

  lemma BeforeIsStrictTotalOrder()
    ensures IsStrictTotalOrder(Before)
  {
  }

  // ---------------------------------------------------------------------
  // parseFluviusDate
  // ---------------------------------------------------------------------

  /** `String(v)` of a cell that may be absent: JavaScript renders `undefined` as "undefined". */
  function JsString(v: Option<string>): string {
    if v.Some? then v.value else "undefined"
  }

  /** `Number` of the i-th piece of a split, `None` (NaN or undefined) when there is no such piece. */
  function PartNumber(parts: seq<string>, i: nat): Option<real> {
    if i < |parts| then ParseNumber(parts[i]) else None
  }

  /** JavaScript truthiness of a number: defined, not NaN and not zero. */
  predicate Truthy(v: Option<real>) {
    v.Some? && v.value != 0.0
  }

  /** `x || 0`. */
  function OrZero(v: Option<real>): real {
    if Truthy(v) then v.value else 0.0
  }

  /**
   * The fields of `new Date(year, monthIndex, day, hours, minutes, seconds)`:
   * every argument is truncated toward zero and a year from 0 to 99 means
   * 1900 to 1999. The month is reported 1-based, as `getMonth() + 1`.
   */
  function NewDate(year: real, monthIndex: real, day: real, hours: real, minutes: real, seconds: real): (d: Timestamp)
    ensures 0 <= Trunc(year) <= 99 ==> d.year == 1900 + Trunc(year)
    ensures !(0 <= Trunc(year) <= 99) ==> d.year == Trunc(year)
    ensures !(0 <= d.year <= 99)
    ensures d.month == Trunc(monthIndex) + 1
    ensures d.day == Trunc(day) && d.hour == Trunc(hours) && d.minute == Trunc(minutes) && d.second == Trunc(seconds)
  {
    var y := Trunc(year);
    Timestamp(if 0 <= y <= 99 then 1900 + y else y, Trunc(monthIndex) + 1, Trunc(day), Trunc(hours), Trunc(minutes),
              Trunc(seconds))
  }

  /**
   * `parseFluviusDate(d, t)`: the date is split on "-" into day, month and year,
   * the time on ":" into hour, minute and second. A day, month or year that is
   * missing, not a number or zero gives `None` (null); a missing time part is 0.
   */
  function ParseFluviusDate(d: Option<string>, t: Option<string>): (r: Option<Timestamp>)
    ensures var parts := Split(Trim(JsString(d)), '-');
      r.None? <==> !Truthy(PartNumber(parts, 0)) || !Truthy(PartNumber(parts, 1)) || !Truthy(PartNumber(parts, 2))
    ensures r.Some? ==> r.value.year >= 100 && r.value.month >= 1 && r.value.day >= 0
  {
    DateFromParts(Split(Trim(JsString(d)), '-'), Split(Trim(JsString(t)), ':'))
  }

  /** The pieces of a split on "-" hold no minus sign, so none is read as a negative number. */
  lemma PiecesNotNegative(parts: seq<string>)
    requires forall k :: 0 <= k < |parts| ==> '-' !in parts[k]
    ensures forall i :: PartNumber(parts, i).Some? ==> PartNumber(parts, i).value >= 0.0
  {
    forall i: nat | PartNumber(parts, i).Some? {
      NoMinusNotNegative(parts[i]);
    }
  }

  /**
   * The timestamp the split date pieces (day, month, year) and time pieces
   * stand for; date pieces without a minus sign give a year of at least 100
   * and a month of at least 1.
   */
  function DateFromParts(dateParts: seq<string>, timeParts: seq<string>): (r: Option<Timestamp>)
    ensures r.None? <==>
      !Truthy(PartNumber(dateParts, 0)) || !Truthy(PartNumber(dateParts, 1)) || !Truthy(PartNumber(dateParts, 2))
    ensures (forall k :: 0 <= k < |dateParts| ==> '-' !in dateParts[k]) && r.Some? ==>
      r.value.year >= 100 && r.value.month >= 1 && r.value.day >= 0
  {
    var r := DateFromNumbers(PartNumber(dateParts, 0), PartNumber(dateParts, 1), PartNumber(dateParts, 2),
                             OrZero(PartNumber(timeParts, 0)), OrZero(PartNumber(timeParts, 1)),
                             OrZero(PartNumber(timeParts, 2)));
    if forall k :: 0 <= k < |dateParts| ==> '-' !in dateParts[k] then
      PiecesNotNegative(dateParts);
      r
    else
      r
  }

  /**
   * A missing, non-numeric or zero day, month or year gives `None`; otherwise
   * `new Date` with the month made 0-based and the time fields already defaulted.
   */
  function DateFromNumbers(dd: Option<real>, mm: Option<real>, yyyy: Option<real>,
                           hh: real, mi: real, ss: real): (r: Option<Timestamp>)
    ensures r.None? <==> !Truthy(dd) || !Truthy(mm) || !Truthy(yyyy)
    ensures r.Some? && dd.value >= 0.0 && mm.value >= 0.0 && yyyy.value >= 0.0 ==>
      r.value.year >= 100 && r.value.month >= 1 && r.value.day >= 0
  {
    if !Truthy(dd) || !Truthy(mm) || !Truthy(yyyy) then None
    else Some(NewDate(yyyy.value, mm.value - 1.0, dd.value, hh, mi, ss))
  }

  // ---------------------------------------------------------------------
  // Rendering, the inverse of parsing
  // ---------------------------------------------------------------------

  /** Timestamps the meter export can write: four-digit-or-longer years, positive day and month. */
  predicate Renderable(ts: Timestamp) {
    ts.year >= 100 && ts.month >= 1 && ts.day >= 1 && ts.hour >= 0 && ts.minute >= 0 && ts.second >= 0
  }

  /** "dd-mm-yyyy". */
  function FormatDate(ts: Timestamp): string
    requires ts.year >= 0 && ts.month >= 0 && ts.day >= 0
  {
    Join([Pad2(ts.day), Pad2(ts.month), ShowNat(ts.year)], '-')
  }

  /** "HH:MM:SS". */
  function FormatTime(ts: Timestamp): string
    requires ts.hour >= 0 && ts.minute >= 0 && ts.second >= 0
  {
    Join([Pad2(ts.hour), Pad2(ts.minute), Pad2(ts.second)], ':')
  }

  /** The last character of joined parts is the last character of the last part. */
  lemma {:induction false} JoinEnds(parts: seq<string>, sep: char)
    requires |parts| >= 1 && forall k :: 0 <= k < |parts| ==> parts[k] != []
    ensures var j := Join(parts, sep); j != [] && j[0] == parts[0][0]
    ensures var j := Join(parts, sep); var last := parts[|parts| - 1]; j[|j| - 1] == last[|last| - 1]
  {
    if |parts| > 1 {
      JoinEnds(parts[1..], sep);
    }
  }

  /** Digit fields joined by a non-digit separator are trimmed and split back into the same fields. */
  lemma SplitDigitFields(fields: seq<string>, sep: char)
    requires |fields| >= 1
    requires forall k :: 0 <= k < |fields| ==> fields[k] != [] && AllDigits(fields[k])
    requires !IsDigit(sep)
    ensures Split(Trim(Join(fields, sep)), sep) == fields
  {
    JoinEnds(fields, sep);
    var j := Join(fields, sep);
    var last := fields[|fields| - 1];
    assert IsDigit(j[0]) && IsDigit(j[|j| - 1]) by {
      assert IsDigit(fields[0][0]) && IsDigit(last[|last| - 1]);
    }
    TrimUntouched(j);
    assert forall k :: 0 <= k < |fields| ==> sep !in fields[k];
    SplitJoin(fields, sep);
  }

  /** The three pieces of a rendered date, each read back as its number. */
  lemma DateParts(ts: Timestamp)
    requires ts.year >= 0 && ts.month >= 0 && ts.day >= 0
    ensures var parts := Split(Trim(FormatDate(ts)), '-');
      && PartNumber(parts, 0) == Some(ts.day as real)
      && PartNumber(parts, 1) == Some(ts.month as real)
      && PartNumber(parts, 2) == Some(ts.year as real)
  {
    var fields := [Pad2(ts.day), Pad2(ts.month), ShowNat(ts.year)];
    assert FormatDate(ts) == Join(fields, '-');
    SplitDigitFields(fields, '-');
    var parts := Split(Trim(FormatDate(ts)), '-');
    assert parts == fields;
    ParseNumberDigits(Pad2(ts.day));
    ParseNumberDigits(Pad2(ts.month));
    ParseNumberDigits(ShowNat(ts.year));
  }

  /** The three pieces of a rendered time, each read back as its number. */
  lemma TimeParts(ts: Timestamp)
    requires ts.hour >= 0 && ts.minute >= 0 && ts.second >= 0
    ensures var parts := Split(Trim(FormatTime(ts)), ':');
      && PartNumber(parts, 0) == Some(ts.hour as real)
      && PartNumber(parts, 1) == Some(ts.minute as real)
      && PartNumber(parts, 2) == Some(ts.second as real)
    ensures var parts := Split(Trim(FormatTime(ts)), ':');
      && OrZero(PartNumber(parts, 0)) == ts.hour as real
      && OrZero(PartNumber(parts, 1)) == ts.minute as real
      && OrZero(PartNumber(parts, 2)) == ts.second as real
  {
    var fields := [Pad2(ts.hour), Pad2(ts.minute), Pad2(ts.second)];
    assert FormatTime(ts) == Join(fields, ':');
    SplitDigitFields(fields, ':');
    var parts := Split(Trim(FormatTime(ts)), ':');
    assert parts == fields;
    ParseNumberDigits(Pad2(ts.hour));
    ParseNumberDigits(Pad2(ts.minute));
    ParseNumberDigits(Pad2(ts.second));
  }

  /** `new Date` on whole-number arguments with a year of 100 or more keeps them as they are. */
  lemma NewDateOfInts(ts: Timestamp)
    requires ts.year >= 100
    ensures NewDate(ts.year as real, (ts.month - 1) as real, ts.day as real,
                    ts.hour as real, ts.minute as real, ts.second as real) == ts
  {
    TruncOfInt(ts.year);
    TruncOfInt(ts.month - 1);
    TruncOfInt(ts.day);
    TruncOfInt(ts.hour);
    TruncOfInt(ts.minute);
    TruncOfInt(ts.second);
  }

  /** The numbers of a renderable timestamp's fields build that timestamp. */
  lemma DateFromFields(ts: Timestamp)
    requires Renderable(ts)
    ensures DateFromNumbers(Some(ts.day as real), Some(ts.month as real), Some(ts.year as real),
                            ts.hour as real, ts.minute as real, ts.second as real) == Some(ts)
  {
    assert ts.month as real - 1.0 == (ts.month - 1) as real;
    NewDateOfInts(ts);
  }

  /** Reading back a rendered date and time gives the timestamp: parsing inverts rendering. */
  lemma ParseFormatted(ts: Timestamp)
    requires Renderable(ts)
    ensures ParseFluviusDate(Some(FormatDate(ts)), Some(FormatTime(ts))) == Some(ts)
  {
    DateParts(ts);
    TimeParts(ts);
    DateFromFields(ts);
  }

  /** Whole numbers with a year from 1 to 99 build a date in 1901 to 1999. */
  lemma DateFromTwoDigitYear(ts: Timestamp)
    requires 1 <= ts.year <= 99 && ts.month >= 1 && ts.day >= 1
    ensures DateFromNumbers(Some(ts.day as real), Some(ts.month as real), Some(ts.year as real),
                            ts.hour as real, ts.minute as real, ts.second as real)
         == Some(ts.(year := 1900 + ts.year))
  {
    assert ts.month as real - 1.0 == (ts.month - 1) as real;
    TruncOfInt(ts.year);
    TruncOfInt(ts.month - 1);
    TruncOfInt(ts.day);
    TruncOfInt(ts.hour);
    TruncOfInt(ts.minute);
    TruncOfInt(ts.second);
  }

  /** A two-digit year is read as a year of the twentieth century, as `new Date` does. */
  lemma TwoDigitYear(ts: Timestamp)
    requires 1 <= ts.year <= 99 && ts.month >= 1 && ts.day >= 1 && ts.hour >= 0 && ts.minute >= 0 && ts.second >= 0
    ensures ParseFluviusDate(Some(FormatDate(ts)), Some(FormatTime(ts))) == Some(ts.(year := 1900 + ts.year))
  {
    DateParts(ts);
    TimeParts(ts);
    DateFromTwoDigitYear(ts);
  }

  /** The text of an absent cell, "undefined", has nothing to trim. */
  lemma UndefinedTrimmed()
    ensures Trim(JsString(None)) == JsString(None)
  {
    TrimUntouched(JsString(None));
  }

  /** `Number("undefined")` is NaN. */
  lemma UndefinedIsNaN()
    ensures ParseNumber(JsString(None)).None?
  {
    UndefinedTrimmed();
    ParseNumberRejects(JsString(None));
  }

  /** "undefined" contains neither separator, so it splits into itself. */
  lemma UndefinedSplit(sep: char)
    requires sep == '-' || sep == ':'
    ensures Split(Trim(JsString(None)), sep) == [JsString(None)]
  {
    var u := JsString(None);
    assert sep !in u by {
      forall k | 0 <= k < |u| ensures u[k] != sep {
      }
    }
    SplitNoSeparator(u, sep);
    UndefinedTrimmed();
  }

  /** A row without a date cell has no timestamp. */
  lemma MissingDateRejected(t: Option<string>)
    ensures ParseFluviusDate(None, t) == None
  {
    UndefinedSplit('-');
    UndefinedIsNaN();
  }

  /** A day, month or year of zero is rejected (`!dd`), whatever the time says. */
  lemma ZeroFieldRejected(ts: Timestamp, t: Option<string>)
    requires ts.year >= 0 && ts.month >= 0 && ts.day >= 0
    requires ts.day == 0 || ts.month == 0 || ts.year == 0
    ensures ParseFluviusDate(Some(FormatDate(ts)), t) == None
  {
    var dateParts := Split(Trim(JsString(Some(FormatDate(ts)))), '-');
    assert !Truthy(PartNumber(dateParts, 0)) || !Truthy(PartNumber(dateParts, 1)) || !Truthy(PartNumber(dateParts, 2)) by {
      DateParts(ts);
    }
  }

  /** A date cell that starts with a letter (a header or a note) has no timestamp. */
  lemma TextDateRejected(d: string, t: Option<string>)
    requires d != [] && ('a' <= d[0] <= 'z' || 'A' <= d[0] <= 'Z')
    ensures ParseFluviusDate(Some(d), t) == None
  {
    var dateParts := Split(Trim(JsString(Some(d))), '-');
    var piece := dateParts[0];
    assert Trim(piece) != [] && Trim(piece)[0] == d[0] by {
      TrimKeepsFirst(d);
      SplitFirstPiece(Trim(d), '-');
      TrimKeepsFirst(piece);
    }
    assert PartNumber(dateParts, 0) == None by {
      ParseNumberRejects(piece);
    }
  }

  /** Without a time cell the timestamp is midnight of the date. */
  lemma MissingTimeIsMidnight(ts: Timestamp)
    requires Renderable(ts)
    ensures ParseFluviusDate(Some(FormatDate(ts)), None) == Some(ts.(hour := 0, minute := 0, second := 0))
  {
    var dateParts := Split(Trim(FormatDate(ts)), '-');
    var timeParts := Split(Trim(JsString(None)), ':');
    assert PartNumber(timeParts, 0) == None && PartNumber(timeParts, 1) == None
        && PartNumber(timeParts, 2) == None by {
      UndefinedSplit(':');
      UndefinedIsNaN();
    }
    DateParts(ts);
    MidnightFromParts(ts, dateParts, timeParts);
  }

  /** Date pieces that read as a renderable day, month and year, with no time pieces, give midnight of that day. */
  lemma MidnightFromParts(ts: Timestamp, dateParts: seq<string>, timeParts: seq<string>)
    requires Renderable(ts)
    requires && PartNumber(dateParts, 0) == Some(ts.day as real)
             && PartNumber(dateParts, 1) == Some(ts.month as real)
             && PartNumber(dateParts, 2) == Some(ts.year as real)
    requires PartNumber(timeParts, 0) == None && PartNumber(timeParts, 1) == None && PartNumber(timeParts, 2) == None
    ensures DateFromParts(dateParts, timeParts) == Some(ts.(hour := 0, minute := 0, second := 0))
  {
    DateFromFields(ts.(hour := 0, minute := 0, second := 0));
  }

  /** The two pieces of "HH:MM", each read back as its number, and no third piece. */
  lemma ShortTimeParts(ts: Timestamp)
    requires ts.hour >= 0 && ts.minute >= 0
    ensures var parts := Split(Trim(Join([Pad2(ts.hour), Pad2(ts.minute)], ':')), ':');
      && PartNumber(parts, 0) == Some(ts.hour as real)
      && PartNumber(parts, 1) == Some(ts.minute as real)
      && PartNumber(parts, 2) == None
  {
    var fields := [Pad2(ts.hour), Pad2(ts.minute)];
    SplitDigitFields(fields, ':');
    ParseNumberDigits(Pad2(ts.hour));
    ParseNumberDigits(Pad2(ts.minute));
  }

  /** "HH:MM" without seconds reads the seconds as 0. */
  lemma SecondsOptional(ts: Timestamp)
    requires Renderable(ts)
    ensures ParseFluviusDate(Some(FormatDate(ts)), Some(Join([Pad2(ts.hour), Pad2(ts.minute)], ':')))
         == Some(ts.(second := 0))
  {
    var timeParts := Split(Trim(JsString(Some(Join([Pad2(ts.hour), Pad2(ts.minute)], ':')))), ':');
    assert OrZero(PartNumber(timeParts, 0)) == ts.hour as real
        && OrZero(PartNumber(timeParts, 1)) == ts.minute as real
        && OrZero(PartNumber(timeParts, 2)) == 0.0 by {
      ShortTimeParts(ts);
    }
    DateParts(ts);
    DateFromFields(ts.(second := 0));
  }

  // ---------------------------------------------------------------------
  // monthKey
  // ---------------------------------------------------------------------

  /** The `"YYYY-MM"` text `monthKey` builds; the month maps are keyed by it and the months sorted as strings. */
  type MonthKey = string

  /** `monthKey(date)`: the year, a dash and the 1-based month padded to two digits. */
  function MonthKeyOf(ts: Timestamp): (k: MonthKey)
    ensures ts.year >= 0 && ts.month >= 0 ==>
      var i := IndexOf(k, '-');
      && i < |k| && k[..i] == IntText(ts.year) && k[i + 1..] == PadStart(IntText(ts.month), 2, '0')
  {
    var y, m := IntText(ts.year), PadStart(IntText(ts.month), 2, '0');
    if ts.year >= 0 then
      CutAtDash(y, m);
      y + "-" + m
    else
      y + "-" + m
  }

  /** Cut at its first dash, the month key of a timestamp gives back the year and the month. */
  lemma MonthKeyFields(ts: Timestamp)
    requires ts.year >= 0 && ts.month >= 0
    ensures var k := MonthKeyOf(ts);
      var i := IndexOf(k, '-');
      && i < |k| && |k| - (i + 1) >= 2
      && AllDigits(k[..i]) && DigitsValue(k[..i]) == ts.year
      && AllDigits(k[i + 1..]) && DigitsValue(k[i + 1..]) == ts.month
  {
    KeyFields(ts.year, ts.month);
  }

  /** Cutting `"<year>-<month>"` at its first dash gives the two numbers back. */
  lemma KeyFields(year: nat, month: nat)
    ensures var k := IntText(year) + "-" + PadStart(IntText(month), 2, '0');
      var i := IndexOf(k, '-');
      && i < |k| && |k| - (i + 1) >= 2
      && AllDigits(k[..i]) && DigitsValue(k[..i]) == year
      && AllDigits(k[i + 1..]) && DigitsValue(k[i + 1..]) == month
  {
    PaddedMonth(month);
    CutAtDash(ShowNat(year), Pad2(month));
  }

  /** The padded text of a month is its two-digit rendering. */
  lemma PaddedMonth(month: nat)
    ensures PadStart(IntText(month), 2, '0') == Pad2(month)
  {
    if month < 10 {
      assert ShowNat(month) == [DigitChar(month)];
    }
  }

  /** A text `y-m` whose `y` is all digits has its first dash right after `y`. */
  lemma CutAtDash(y: string, m: string)
    requires AllDigits(y)
    ensures var k := y + "-" + m;
      IndexOf(k, '-') == |y| && k[..|y|] == y && k[|y| + 1..] == m
  {
    var k := y + "-" + m;
    assert k == y + (['-'] + m);
    DigitsExclude(y, '-');
    IndexOfAfter(y, '-', ['-'] + m);
  }

  /** The order `Array.prototype.sort` gives month keys: string order. */
  predicate MonthBefore(a: MonthKey, b: MonthKey) {
    TextBefore(a, b)
  }

  lemma MonthBeforeIsStrictTotalOrder()
    ensures IsStrictTotalOrder(MonthBefore)
  {
    TextBeforeIsStrictTotalOrder();
  }

  /** Years from 1000 to 9999 are written with four digits. */
  lemma FourDigitYear(y: int)
    requires 1000 <= y <= 9999
    ensures |ShowNat(y)| == 4
  {
    assert |ShowNat(y / 1000)| == 1;
    assert |ShowNat(y / 100)| == 2;
    assert |ShowNat(y / 10)| == 3;
  }

  /** A month from 1 to 12 is written with exactly two digits. */
  lemma TwoDigitMonth(m: int)
    requires 1 <= m <= 12
    ensures PadStart(IntText(m), 2, '0') == Pad2(m) && |Pad2(m)| == 2
  {
    if m < 10 {
      assert ShowNat(m) == [DigitChar(m)];
    } else {
      assert |ShowNat(m / 10)| == 1;
    }
  }

  /** Texts `y-m` with equal-width parts are equal exactly when both parts are. */
  lemma KeyEqual(ya: string, ma: string, yb: string, mb: string)
    requires |ya| == |yb| && |ma| == |mb|
    ensures ya + "-" + ma == yb + "-" + mb <==> ya == yb && ma == mb
  {
    var ka, kb := ya + "-" + ma, yb + "-" + mb;
    if ka == kb {
      assert ka[..|ya|] == ya && kb[..|yb|] == yb;
      assert ka[|ya| + 1..] == ma && kb[|yb| + 1..] == mb;
    }
  }

  /** Texts `y-m` with equal-width parts compare by the first parts, then by the second. */
  lemma KeyBefore(ya: string, ma: string, yb: string, mb: string)
    requires |ya| == |yb| && |ma| == |mb|
    ensures TextBefore(ya + "-" + ma, yb + "-" + mb) <==> TextBefore(ya, yb) || (ya == yb && TextBefore(ma, mb))
  {
    TextBeforeAppend(ya + "-", yb + "-", ma, mb);
    TextBeforeAppend(ya, yb, "-", "-");
    TextBeforeIrreflexive("-");
    KeyEqual(ya, [], yb, []);
    assert ya + "-" + [] == ya + "-" && yb + "-" + [] == yb + "-";
  }

  /** Keys of equal-width year and month digits compare by year, then by month. */
  lemma KeyOrder(ya: string, ma: string, yb: string, mb: string)
    requires AllDigits(ya) && AllDigits(yb) && AllDigits(ma) && AllDigits(mb)
    requires |ya| == |yb| && |ma| == |mb|
    ensures ya + "-" + ma == yb + "-" + mb <==> DigitsValue(ya) == DigitsValue(yb) && DigitsValue(ma) == DigitsValue(mb)
    ensures TextBefore(ya + "-" + ma, yb + "-" + mb)
        <==> DigitsValue(ya) < DigitsValue(yb) || (DigitsValue(ya) == DigitsValue(yb) && DigitsValue(ma) < DigitsValue(mb))
  {
    KeyEqual(ya, ma, yb, mb);
    KeyBefore(ya, ma, yb, mb);
    DigitsOrder(ya, yb);
    DigitsOrder(ma, mb);
  }

  /** The key of a timestamp with a four-digit year and a month from 1 to 12. */
  lemma KeyOfFourDigitYear(ts: Timestamp)
    requires 1000 <= ts.year <= 9999 && 1 <= ts.month <= 12
    ensures MonthKeyOf(ts) == ShowNat(ts.year) + "-" + Pad2(ts.month)
    ensures |ShowNat(ts.year)| == 4 && |Pad2(ts.month)| == 2
  {
    FourDigitYear(ts.year);
    TwoDigitMonth(ts.month);
  }

  /**
   * For years from 1000 to 9999 and months from 1 to 12 the month key names
   * one calendar month, and string order on keys is chronological order on
   * months: what sorting the keys as strings relies on.
   */
  lemma MonthKeyOrder(a: Timestamp, b: Timestamp)
    requires 1000 <= a.year <= 9999 && 1 <= a.month <= 12
    requires 1000 <= b.year <= 9999 && 1 <= b.month <= 12
    ensures MonthKeyOf(a) == MonthKeyOf(b) <==> a.year == b.year && a.month == b.month
    ensures MonthBefore(MonthKeyOf(a), MonthKeyOf(b)) <==> a.year < b.year || (a.year == b.year && a.month < b.month)
  {
    KeyOfFourDigitYear(a);
    KeyOfFourDigitYear(b);
    KeyOrder(ShowNat(a.year), Pad2(a.month), ShowNat(b.year), Pad2(b.month));
  }

  /** For four-digit years a later timestamp never falls in an earlier month, and an earlier month holds only earlier timestamps. */
  lemma MonthKeyMonotone(a: Timestamp, b: Timestamp)
    requires 1000 <= a.year <= 9999 && 1 <= a.month <= 12
    requires 1000 <= b.year <= 9999 && 1 <= b.month <= 12
    ensures Before(a, b) ==> !MonthBefore(MonthKeyOf(b), MonthKeyOf(a))
    ensures MonthBefore(MonthKeyOf(a), MonthKeyOf(b)) ==> Before(a, b)
  {
    MonthKeyOrder(a, b);
    MonthKeyOrder(b, a);
  }

  /** Below year 1000 the string order is not chronological: December 999 sorts after January 1000. */
  lemma ShortYearSortsLate()
    ensures MonthBefore(MonthKeyOf(Timestamp(1000, 1, 1, 0, 0, 0)), MonthKeyOf(Timestamp(999, 12, 1, 0, 0, 0)))
  {
    var y1000, y999 := ShowNat(1000), ShowNat(999);
    assert y1000[0] == '1' by {
      assert ShowNat(10) == ShowNat(1) + [DigitChar(0)];
      assert ShowNat(100) == ShowNat(10) + [DigitChar(0)];
      assert y1000 == ShowNat(100) + [DigitChar(0)];
    }
    assert y999[0] == '9' by {
      assert ShowNat(99) == ShowNat(9) + [DigitChar(9)];
      assert y999 == ShowNat(99) + [DigitChar(9)];
    }
    FirstCharDecides(y1000 + "-" + PadStart(IntText(1), 2, '0'), y999 + "-" + PadStart(IntText(12), 2, '0'));
  }

  /** A smaller first character puts a text first. */
  lemma FirstCharDecides(a: string, b: string)
    requires a != [] && b != [] && a[0] < b[0]
    ensures TextBefore(a, b)
  {
  }
}
