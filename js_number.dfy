/**
 * JavaScript's `Number(string)` for the decimal notation a meter export uses,
 * `num` (app.js), the integer truncation `new Date` applies to its arguments,
 * and a decimal renderer that serves as the parser's inverse in the lemmas.
 */
module JsNumber {
  import opened Util
  import opened JsText

  predicate IsDigit(c: char) { '0' <= c <= '9' }

  predicate AllDigits(s: string) { forall i :: 0 <= i < |s| ==> IsDigit(s[i]) }

  function DigitValue(c: char): nat
    requires IsDigit(c)
  {
    c as int - '0' as int
  }

  /** The value of a string of decimal digits, read left to right. */
  function DigitsValue(ds: string): nat
    requires AllDigits(ds)
  {
    if ds == [] then 0 else 10 * DigitsValue(ds[..|ds| - 1]) + DigitValue(ds[|ds| - 1])
  }

  function Pow10(n: nat): (r: nat)
    ensures r >= 1
  {
    if n == 0 then 1 else 10 * Pow10(n - 1)
  }

  /** The value of the digits after a decimal point. */
  function FracValue(fs: string): (r: real)
    requires AllDigits(fs)
    ensures 0.0 <= r
  {
    DigitsValue(fs) as real / Pow10(|fs|) as real
  }

  /**
   * An unsigned decimal literal `digits[.digits]`, `.digits` or `digits.`;
   * `None` stands for NaN.
   */
  function ParseUnsigned(u: string): (r: Option<real>)
    ensures r.Some? ==> r.value >= 0.0
  {
    var i := IndexOf(u, '.');
    var whole := u[..i];
    var frac := if i < |u| then u[i + 1..] else [];
    if AllDigits(whole) && AllDigits(frac) && (whole != [] || frac != []) then
      Some(DigitsValue(whole) as real + FracValue(frac))
    else
      None
  }

  /** A trimmed numeric string: empty is 0, otherwise an optional sign and an unsigned literal. */
  function ParseTrimmed(t: string): (r: Option<real>)
    ensures t == [] ==> r == Some(0.0)
  {
    if t == [] then Some(0.0)
    else if t[0] == '-' then
      match ParseUnsigned(t[1..])
      case Some(v) => Some(-v)
      case None => None
    else if t[0] == '+' then ParseUnsigned(t[1..])
    else ParseUnsigned(t)
  }

  /**
   * `Number(s)` on a string: white space is trimmed, the empty string is 0, an
   * optional sign precedes an unsigned decimal literal. `Some(v)` is a finite
   * result; `None` is NaN (anything else, including the forms left out of the model).
   */
  function ParseNumber(s: string): (r: Option<real>)
    ensures Trim(s) == [] ==> r == Some(0.0)
  {
    ParseTrimmed(Trim(s))
  }

  /**
   * `num(x)` (app.js): `Number(x)` when finite, otherwise 0. An empty or blank
   * field is 0 and a field of plain digits is its decimal value.
   */
  function Num(s: string): (r: real)
    ensures ParseNumber(s).None? ==> r == 0.0
    ensures ParseNumber(s).Some? ==> r == ParseNumber(s).value
    ensures Trim(s) == [] ==> r == 0.0
    ensures s != [] && AllDigits(s) ==> r == DigitsValue(s) as real
  {
    if s != [] && AllDigits(s) then
      ParseNumberDigits(s);
      ParseNumber(s).value
    else
      match ParseNumber(s)
      case Some(v) => v
      case None => 0.0
  }

  /** Truncation toward zero (`ToIntegerOrInfinity` on a finite number). */
  function Trunc(x: real): (r: int)
    ensures x >= 0.0 ==> r >= 0 && r as real <= x < r as real + 1.0
    ensures x < 0.0 ==> r <= 0 && r as real - 1.0 < x <= r as real
  {
    if x >= 0.0 then x.Floor else -((-x).Floor)
  }

  lemma TruncOfInt(n: int)
    ensures Trunc(n as real) == n
  {
  }

  // ---------------------------------------------------------------------
  // Rendering numbers (the inverse used by the round-trip lemmas)
  // ---------------------------------------------------------------------

  function DigitChar(d: nat): (c: char)
    requires d < 10
    ensures IsDigit(c) && DigitValue(c) == d
  {
    ('0' as int + d) as char
  }

  /** The shortest decimal rendering of `n`; reading it back gives `n`. */
  function ShowNat(n: nat): (s: string)
    ensures s != [] && AllDigits(s)
    ensures DigitsValue(s) == n
  {
    if n < 10 then [DigitChar(n)]
    else
      var prefix := ShowNat(n / 10);
      var s := prefix + [DigitChar(n % 10)];
      assert s[..|s| - 1] == prefix;
      s
  }

  /** `n.toString()` of an integer. */
  function IntText(n: int): string
    decreases if n < 0 then 1 else 0
  {
    if n < 0 then ['-'] + IntText(-n) else ShowNat(n)
  }

  /** A digit string holds no other character. */
  lemma DigitsExclude(ds: string, c: char)
    requires AllDigits(ds) && !IsDigit(c)
    ensures c !in ds
  {
    forall k | 0 <= k < |ds| ensures ds[k] != c {
      assert IsDigit(ds[k]);
    }
  }

  /**
   * Digit strings of equal length are equal exactly when their values are, and
   * the string order puts the one with the smaller value first.
   */
  lemma {:induction false} DigitsOrder(a: string, b: string)
    requires AllDigits(a) && AllDigits(b) && |a| == |b|
    ensures a == b <==> DigitsValue(a) == DigitsValue(b)
    ensures TextBefore(a, b) <==> DigitsValue(a) < DigitsValue(b)
  {
    if a == [] {
      assert b == [];
    } else {
      var a', b' := a[..|a| - 1], b[..|b| - 1];
      var x, y := a[|a| - 1], b[|b| - 1];
      assert a == a' + [x] && b == b' + [y];
      DigitsOrder(a', b');
      TextBeforeAppend(a', b', [x], [y]);
      assert TextBefore([x], [y]) <==> x < y;
      assert DigitsValue(a) == 10 * DigitsValue(a') + DigitValue(x);
      assert DigitsValue(b) == 10 * DigitsValue(b') + DigitValue(y);
      if a == b {
        assert a' == b' && x == y;
      } else if a' == b' {
        assert x != y;
      }
    }
  }

  /** A leading zero does not change the value of a digit string. */
  lemma {:induction false} LeadingZero(ds: string)
    requires AllDigits(ds)
    ensures AllDigits(['0'] + ds) && DigitsValue(['0'] + ds) == DigitsValue(ds)
  {
    if ds != [] {
      LeadingZero(ds[..|ds| - 1]);
      assert (['0'] + ds)[..|ds|] == ['0'] + ds[..|ds| - 1];
    }
  }

  /** Two-digit rendering as in "03" or "00"; reading it back gives `n`. */
  function Pad2(n: nat): (s: string)
    ensures |s| >= 2 && AllDigits(s)
    ensures DigitsValue(s) == n
  {
    if n < 10 then
      LeadingZero([DigitChar(n)]);
      ['0', DigitChar(n)]
    else
      ShowNat(n)
  }

  // ---------------------------------------------------------------------
  // What `Number` makes of decimal renderings
  // ---------------------------------------------------------------------

  /** In a digit string followed by a point, the first point is the one after the digits. */
  lemma PointAfterDigits(ds: string, rest: string)
    requires AllDigits(ds)
    requires rest == [] || rest[0] == '.'
    ensures IndexOf(ds + rest, '.') == |ds|
  {
    var u := ds + rest;
    var i := IndexOf(u, '.');
    assert forall k :: 0 <= k < |ds| ==> u[k] == ds[k] && u[k] != '.';
    assert |ds| < |u| ==> u[|ds|] == '.';
  }

  /** A digit string containing no point is read whole. */
  lemma ParseUnsignedDigits(ds: string)
    requires ds != [] && AllDigits(ds)
    ensures ParseUnsigned(ds) == Some(DigitsValue(ds) as real)
  {
    PointAfterDigits(ds, []);
    assert ds + [] == ds;
    assert ds[..|ds|] == ds;
  }

  /** `digits.digits` is read as the whole part plus the fraction. */
  lemma {:induction false} ParseUnsignedDecimal(ds: string, fs: string)
    requires ds != [] && AllDigits(ds) && AllDigits(fs)
    ensures ParseUnsigned(ds + ['.'] + fs) == Some(DigitsValue(ds) as real + FracValue(fs))
  {
    var u := ds + (['.'] + fs);
    assert u == ds + ['.'] + fs;
    PointAfterDigits(ds, ['.'] + fs);
    assert u[..|ds|] == ds;
    assert u[|ds| + 1..] == fs;
  }

  /** `Number` reads a plain digit string as its decimal value. */
  lemma ParseNumberDigits(ds: string)
    requires ds != [] && AllDigits(ds)
    ensures ParseNumber(ds) == Some(DigitsValue(ds) as real)
  {
    TrimUntouched(ds);
    ParseUnsignedDigits(ds);
  }

  /** `digits.rest` is NaN when `rest` holds anything but digits. */
  lemma {:induction false} ParseUnsignedBadFraction(ds: string, rest: string)
    requires AllDigits(ds) && !AllDigits(rest)
    ensures ParseUnsigned(ds + ['.'] + rest).None?
  {
    var u := ds + (['.'] + rest);
    assert u == ds + ['.'] + rest;
    PointAfterDigits(ds, ['.'] + rest);
    assert u[|ds| + 1..] == rest;
  }

  /** `Number` gives NaN for `digits.rest` when `rest` holds anything but digits. */
  lemma {:induction false} ParseNumberBadFraction(ds: string, rest: string)
    requires ds != [] && AllDigits(ds) && !AllDigits(rest)
    requires rest != [] && !IsWhiteSpace(rest[|rest| - 1])
    ensures ParseNumber(ds + ['.'] + rest).None?
  {
    var u := ds + ['.'] + rest;
    assert u[0] == ds[0] && u[|u| - 1] == rest[|rest| - 1];
    TrimUntouched(u);
    ParseUnsignedBadFraction(ds, rest);
  }

  /** `Number` reads `digits.digits` as the whole part plus the fraction. */
  lemma {:induction false} ParseNumberDecimal(ds: string, fs: string)
    requires ds != [] && AllDigits(ds) && AllDigits(fs)
    ensures ParseNumber(ds + ['.'] + fs) == Some(DigitsValue(ds) as real + FracValue(fs))
  {
    var u := ds + ['.'] + fs;
    assert u[0] == ds[0];
    assert u[|u| - 1] == '.' || u[|u| - 1] == fs[|fs| - 1];
    TrimUntouched(u);
    ParseUnsignedDecimal(ds, fs);
  }

  /** A leading minus negates the unsigned literal after it. */
  lemma {:induction false} ParseTrimmedMinus(u: string)
    ensures ParseTrimmed(['-'] + u) == (match ParseUnsigned(u) case Some(v) => Some(-v) case None => None)
  {
    assert (['-'] + u)[1..] == u;
  }

  /** `num` keeps a leading minus: before text that starts with a digit it negates the value (NaN stays 0). */
  lemma NumNegated(w: string)
    requires w != [] && IsDigit(w[0])
    ensures Num(['-'] + w) == -Num(w)
  {
    var t := Trim(w);
    assert ParseNumber(w) == ParseUnsigned(t) by {
      TrimKeepsFirst(w);
    }
    assert ParseNumber(['-'] + w) == (match ParseUnsigned(t) case Some(v) => Some(-v) case None => None) by {
      TrimCons('-', w);
      ParseTrimmedMinus(t);
    }
  }

  /** Text without a minus sign is never read as a negative number. */
  lemma NoMinusNotNegative(s: string)
    requires '-' !in s
    ensures ParseNumber(s).Some? ==> ParseNumber(s).value >= 0.0
  {
    var t := Trim(s);
    if t != [] {
      var i, j :| 0 <= i <= j <= |s| && t == s[i..j];
      assert t[0] == s[i];
    }
  }

  /** Text that starts (after trimming) with anything but a digit, a point or a sign is NaN. */
  lemma ParseNumberRejects(s: string)
    requires Trim(s) != []
    requires var c := Trim(s)[0]; !IsDigit(c) && c != '.' && c != '-' && c != '+'
    ensures ParseNumber(s).None?
  {
    var t := Trim(s);
    var i := IndexOf(t, '.');
    assert i > 0;
    assert t[..i][0] == t[0];
  }

  /** `num` round trip: the rendering of a natural number is read back exactly; blank is 0. */
  lemma NumRoundTrip(n: nat)
    ensures Num(ShowNat(n)) == n as real
    ensures Num("") == 0.0
  {
    ParseNumberDigits(ShowNat(n));
  }
}
