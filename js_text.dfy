/**
 * The JavaScript string operations the meter-data parser relies on:
 * `trim`, `split` with a one-character separator, `indexOf`, `replace` of the
 * first occurrence of a character, and `toLowerCase` restricted to ASCII.
 */
module JsText {

  /** JavaScript's WhiteSpace and LineTerminator characters (what `trim` and `Number` strip). */
  predicate IsWhiteSpace(c: char) {
    || c == '\t' || c == '\n' || c == '\U{B}' || c == '\U{C}' || c == '\r' || c == ' '
    || c == '\U{A0}' || c == '\U{1680}' || ('\U{2000}' <= c <= '\U{200A}')
    || c == '\U{2028}' || c == '\U{2029}' || c == '\U{202F}' || c == '\U{205F}'
    || c == '\U{3000}' || c == '\U{FEFF}'
  }

  /** Drops leading white space: the result is a suffix of `s` and what was dropped is all white space. */
  function TrimStart(s: string): (r: string)
    ensures |r| <= |s| && r == s[|s| - |r|..]
    ensures forall i :: 0 <= i < |s| - |r| ==> IsWhiteSpace(s[i])
    ensures r == [] || !IsWhiteSpace(r[0])
  {
    if s != [] && IsWhiteSpace(s[0]) then TrimStart(s[1..]) else s
  }

  /** Drops trailing white space: the result is a prefix of `s` and what was dropped is all white space. */
  function TrimEnd(s: string): (r: string)
    ensures |r| <= |s| && r == s[..|r|]
    ensures forall i :: |r| <= i < |s| ==> IsWhiteSpace(s[i])
    ensures r == [] || !IsWhiteSpace(r[|r| - 1])
  {
    if s != [] && IsWhiteSpace(s[|s| - 1]) then TrimEnd(s[..|s| - 1]) else s
  }

  /**
   * `String.prototype.trim`: the middle of `s` between white space dropped at
   * either end, neither starting nor ending with white space.
   */
  function Trim(s: string): (r: string)
    ensures exists i, j ::
              && 0 <= i <= j <= |s| && r == s[i..j]
              && (forall k :: 0 <= k < i ==> IsWhiteSpace(s[k]))
              && (forall k :: j <= k < |s| ==> IsWhiteSpace(s[k]))
    ensures r == [] || (!IsWhiteSpace(r[0]) && !IsWhiteSpace(r[|r| - 1]))
  {
    var t := TrimStart(s);
    var r := TrimEnd(t);
    var i := |s| - |t|;
    assert r == s[i..i + |r|];
    assert forall k :: i + |r| <= k < |s| ==> s[k] == t[k - i];
    r
  }

  /** A string that neither starts nor ends with white space is left alone by `trim`. */
  lemma TrimUntouched(s: string)
    requires s != [] && !IsWhiteSpace(s[0]) && !IsWhiteSpace(s[|s| - 1])
    ensures Trim(s) == s
  {
  }

  /** `trim` keeps a first character that is not white space. */
  lemma TrimKeepsFirst(s: string)
    requires s != [] && !IsWhiteSpace(s[0])
    ensures Trim(s) != [] && Trim(s)[0] == s[0]
  {
    assert TrimStart(s) == s;
  }

  /** Trailing white space is trimmed the same with or without a character in front. */
  lemma {:induction false} TrimEndCons(c: char, s: string)
    requires s != [] && !IsWhiteSpace(s[0])
    ensures TrimEnd([c] + s) == [c] + TrimEnd(s)
  {
    var t := [c] + s;
    if IsWhiteSpace(s[|s| - 1]) {
      var init := s[..|s| - 1];
      assert init != [] && init[0] == s[0];
      assert t[..|t| - 1] == [c] + init;
      TrimEndCons(c, init);
    }
  }

  /** Trimming text behind a leading character that is not white space trims only the text. */
  lemma TrimCons(c: char, s: string)
    requires !IsWhiteSpace(c) && s != [] && !IsWhiteSpace(s[0])
    ensures Trim([c] + s) == [c] + Trim(s)
  {
    assert TrimStart([c] + s) == [c] + s;
    assert TrimStart(s) == s;
    TrimEndCons(c, s);
  }

  /** `s.indexOf(c)`, with `|s|` standing for "not found" (-1 in JavaScript). */
  function IndexOf(s: string, c: char): (i: nat)
    ensures i <= |s|
    ensures c !in s[..i]
    ensures i < |s| ==> s[i] == c
  {
    if s == [] then 0
    else if s[0] == c then 0
    else 1 + IndexOf(s[1..], c)
  }

  /** The first occurrence of `c` is right after a prefix that does not contain it. */
  lemma IndexOfAfter(pre: string, c: char, rest: string)
    requires c !in pre
    requires rest == [] || rest[0] == c
    ensures IndexOf(pre + rest, c) == |pre|
  {
    var u := pre + rest;
    assert u[..|pre|] == pre;
    assert |pre| < |u| ==> u[|pre|] == c;
  }

  /** `s.replace(from, to)` with a one-character pattern: only the FIRST occurrence is replaced. */
  function ReplaceFirst(s: string, from: char, to: char): (r: string)
    ensures |r| == |s|
  {
    var i := IndexOf(s, from);
    if i == |s| then s else s[..i] + [to] + s[i + 1..]
  }

  /** Only the first occurrence changes: text without the pattern is kept, otherwise everything but that one character is. */
  lemma ReplaceFirstChangesFirst(s: string, from: char, to: char)
    ensures from !in s ==> ReplaceFirst(s, from, to) == s
    ensures from in s ==> var i := IndexOf(s, from);
      && from !in s[..i] && s[i] == from
      && ReplaceFirst(s, from, to) == s[..i] + [to] + s[i + 1..]
  {
  }

  /** A first character that is not the pattern is kept. */
  lemma ReplaceFirstKeepsFirst(s: string, from: char, to: char)
    requires s != [] && s[0] != from
    ensures ReplaceFirst(s, from, to)[0] == s[0]
  {
    var i := IndexOf(s, from);
    if i < |s| {
      assert i > 0;
      assert (s[..i] + [to] + s[i + 1..])[0] == s[..i][0];
    }
  }

  /** A first character that is not the pattern stays in front of the replacement. */
  lemma ReplaceFirstCons(c: char, s: string, from: char, to: char)
    requires c != from
    ensures ReplaceFirst([c] + s, from, to) == [c] + ReplaceFirst(s, from, to)
  {
    var t := [c] + s;
    var i := IndexOf(s, from);
    assert IndexOf(t, from) == i + 1 by {
      assert t[1..] == s;
    }
    if i < |s| {
      assert t[..i + 1] == [c] + s[..i];
      assert t[i + 2..] == s[i + 1..];
    }
  }

  /** Inverse of `Split`: the parts glued back together with the separator in between. */
  function Join(parts: seq<string>, sep: char): string
    requires |parts| >= 1
  {
    if |parts| == 1 then parts[0] else parts[0] + [sep] + Join(parts[1..], sep)
  }

  /**
   * `s.split(sep)` for a one-character separator: the pieces between separators,
   * always at least one (an empty string splits into one empty piece).
   */
  function Split(s: string, sep: char): (parts: seq<string>)
    ensures |parts| >= 1
    ensures forall k :: 0 <= k < |parts| ==> sep !in parts[k]
    ensures Join(parts, sep) == s
  {
    if s == [] then [[]]
    else
      var rest := Split(s[1..], sep);
      if s[0] == sep then [[]] + rest
      else [[s[0]] + rest[0]] + rest[1..]
  }

  /** The first piece of a split starts with the first character, when that is not the separator. */
  lemma SplitFirstPiece(s: string, sep: char)
    requires s != [] && s[0] != sep
    ensures Split(s, sep)[0] != [] && Split(s, sep)[0][0] == s[0]
  {
  }

  /** A piece without a separator, followed by a separator, is split off as the first part. */
  lemma {:induction false} SplitPiece(a: string, sep: char, b: string)
    requires sep !in a
    ensures Split(a + [sep] + b, sep) == [a] + Split(b, sep)
  {
    var s := a + [sep] + b;
    if a == [] {
      assert s == [sep] + b && s[1..] == b;
    } else {
      assert s[0] == a[0] && s[0] != sep;
      assert s[1..] == a[1..] + [sep] + b;
      var rest := Split(s[1..], sep);
      assert rest == [a[1..]] + Split(b, sep) by {
        SplitPiece(a[1..], sep, b);
      }
      assert Split(s, sep) == [[a[0]] + rest[0]] + rest[1..];
      assert [a[0]] + a[1..] == a;
    }
  }

  /** A string without the separator splits into itself alone. */
  lemma {:induction false} SplitNoSeparator(a: string, sep: char)
    requires sep !in a
    ensures Split(a, sep) == [a]
  {
    if a != [] {
      SplitNoSeparator(a[1..], sep);
      assert [a[0]] + a[1..] == a;
    }
  }

  /** Round trip: splitting joined parts that contain no separator gives the parts back. */
  lemma {:induction false} SplitJoin(parts: seq<string>, sep: char)
    requires |parts| >= 1
    requires forall k :: 0 <= k < |parts| ==> sep !in parts[k]
    ensures Split(Join(parts, sep), sep) == parts
  {
    if |parts| == 1 {
      SplitNoSeparator(parts[0], sep);
    } else {
      SplitJoin(parts[1..], sep);
      SplitPiece(parts[0], sep, Join(parts[1..], sep));
      assert [parts[0]] + parts[1..] == parts;
    }
  }

  /** ASCII `toLowerCase` of one character (other characters are kept). */
  function LowerChar(c: char): char {
    if 'A' <= c <= 'Z' then (c as int - 'A' as int + 'a' as int) as char else c
  }

  /** `toLowerCase`, restricted to the ASCII letters. */
  function ToLower(s: string): (r: string)
    ensures |r| == |s|
    ensures forall i :: 0 <= i < |s| ==> r[i] == LowerChar(s[i])
  {
    if s == [] then [] else [LowerChar(s[0])] + ToLower(s[1..])
  }

  /** `s.padStart(n, c)`: `s` preceded by as many `c` as it takes to reach length `n`. */
  function PadStart(s: string, n: nat, c: char): string {
    if |s| < n then seq(n - |s|, _ => c) + s else s
  }

  /** `s.startsWith(prefix)`. */
  predicate StartsWith(s: string, prefix: string) {
    prefix <= s
  }

  // ---------------------------------------------------------------------
  // String order, as `Array.prototype.sort` without a comparator uses it
  // ---------------------------------------------------------------------

  /**
   * `a < b` on strings: the first differing character decides, and a proper
   * prefix comes first.
   */
  predicate TextBefore(a: string, b: string) {
    b != [] && (a == [] || a[0] < b[0] || (a[0] == b[0] && TextBefore(a[1..], b[1..])))
  }

  lemma {:induction false} TextBeforeIrreflexive(a: string)
    ensures !TextBefore(a, a)
  {
    if a != [] {
      TextBeforeIrreflexive(a[1..]);
    }
  }

  lemma {:induction false} TextBeforeTransitive(a: string, b: string, c: string)
    requires TextBefore(a, b) && TextBefore(b, c)
    ensures TextBefore(a, c)
  {
    if a != [] && a[0] == b[0] && b[0] == c[0] {
      TextBeforeTransitive(a[1..], b[1..], c[1..]);
    }
  }

  lemma {:induction false} TextBeforeTotal(a: string, b: string)
    requires a != b
    ensures TextBefore(a, b) || TextBefore(b, a)
  {
    if a != [] && b != [] && a[0] == b[0] {
      assert a[1..] != b[1..] by {
        assert a == [a[0]] + a[1..] && b == [b[0]] + b[1..];
      }
      TextBeforeTotal(a[1..], b[1..]);
    }
  }

  /** The string order is a strict total order, so sorting strings is well defined. */
  lemma TextBeforeIsStrictTotalOrder()
    ensures forall a :: !TextBefore(a, a)
    ensures forall a, b, c :: TextBefore(a, b) && TextBefore(b, c) ==> TextBefore(a, c)
    ensures forall a, b :: a != b ==> TextBefore(a, b) || TextBefore(b, a)
  {
    forall a {
      TextBeforeIrreflexive(a);
    }
    forall a, b, c | TextBefore(a, b) && TextBefore(b, c) {
      TextBeforeTransitive(a, b, c);
    }
    forall a, b | a != b {
      TextBeforeTotal(a, b);
    }
  }

  /** Comparing texts of equal length that continue: the first parts decide unless they are equal. */
  lemma {:induction false} TextBeforeAppend(p: string, q: string, r: string, s: string)
    requires |p| == |q|
    ensures TextBefore(p + r, q + s) <==> TextBefore(p, q) || (p == q && TextBefore(r, s))
  {
    if p != [] {
      TextBeforeAppend(p[1..], q[1..], r, s);
      assert (p + r)[1..] == p[1..] + r && (q + s)[1..] == q[1..] + s;
      assert p == [p[0]] + p[1..] && q == [q[0]] + q[1..];
    } else {
      assert p + r == r && q + s == s;
    }
  }
}
