/**
 * Ascending order under a strict total order, as produced by
 * `Array.prototype.sort` with a comparator: a sorted permutation of the input.
 * The sort itself is a built-in of the JavaScript runtime; the model computes
 * the same result by insertion.
 */
module Ordering {

  /** `less` is irreflexive, transitive and relates any two distinct values. */
  ghost predicate IsStrictTotalOrder<T(!new)>(less: (T, T) -> bool) {
    && (forall a :: !less(a, a))
    && (forall a, b, c :: less(a, b) && less(b, c) ==> less(a, c))
    && (forall a, b :: a != b ==> less(a, b) || less(b, a))
  }

  /** Every element comes strictly before every later one (so there are no duplicates). */
  ghost predicate StrictlyAscending<T>(s: seq<T>, less: (T, T) -> bool) {
    forall i, j :: 0 <= i < j < |s| ==> less(s[i], s[j])
  }

  ghost predicate Distinct<T>(s: seq<T>) {
    forall i, j :: 0 <= i < j < |s| ==> s[i] != s[j]
  }

  /** A value before every element of an ascending sequence can be put in front of it. */
  lemma ConsAscending<T(!new)>(h: T, t: seq<T>, less: (T, T) -> bool)
    requires StrictlyAscending(t, less)
    requires forall y :: y in t ==> less(h, y)
    ensures StrictlyAscending([h] + t, less)
  {
    var r := [h] + t;
    forall i, j | 0 <= i < j < |r| ensures less(r[i], r[j]) {
      assert r[j] == t[j - 1] && r[j] in t;
      if i > 0 {
        assert r[i] == t[i - 1];
      }
    }
  }

  /** The head of an ascending sequence comes before every later element. */
  lemma HeadBeforeRest<T(!new)>(s: seq<T>, less: (T, T) -> bool)
    requires s != [] && StrictlyAscending(s, less)
    ensures forall y :: y in s[1..] ==> less(s[0], y)
  {
    forall y | y in s[1..] ensures less(s[0], y) {
      var k :| 0 <= k < |s[1..]| && s[1..][k] == y;
      assert s[k + 1] == y;
    }
  }

  /** Places `x` into an ascending sequence that does not contain it yet. */
  function Insert<T(!new)>(s: seq<T>, x: T, less: (T, T) -> bool): (r: seq<T>)
    requires IsStrictTotalOrder(less)
    requires StrictlyAscending(s, less) && x !in s
    ensures StrictlyAscending(r, less)
    ensures multiset(r) == multiset(s) + multiset{x}
    ensures |r| == |s| + 1
  {
    if s == [] then [x]
    else
      assert s == [s[0]] + s[1..];
      HeadBeforeRest(s, less);
      if less(x, s[0]) then
        ConsAscending(x, s, less);
        [x] + s
      else
        var tail := Insert(s[1..], x, less);
        assert forall y :: y in tail ==> less(s[0], y) by {
          forall y | y in tail ensures less(s[0], y) {
            assert y in multiset(tail);
          }
        }
        ConsAscending(s[0], tail, less);
        [s[0]] + tail
  }

  /** The elements of `xs` in ascending order: a sorted permutation. */
  function Sort<T(!new)>(xs: seq<T>, less: (T, T) -> bool): (ys: seq<T>)
    requires IsStrictTotalOrder(less) && Distinct(xs)
    ensures StrictlyAscending(ys, less)
    ensures multiset(ys) == multiset(xs)
    ensures |ys| == |xs|
  {
    if xs == [] then []
    else
      var prefix := xs[..|xs| - 1];
      var last := xs[|xs| - 1];
      assert xs == prefix + [last];
      var sorted := Sort(prefix, less);
      assert last !in prefix by {
        forall j | 0 <= j < |prefix| ensures prefix[j] != last {
          assert prefix[j] == xs[j];
        }
      }
      assert last !in multiset(sorted);
      Insert(sorted, last, less)
  }

  /** The first element of a non-empty sequence is one of its elements. */
  lemma HeadIsElement<T>(s: seq<T>)
    requires s != []
    ensures s[0] in s
  {
  }

  /** A strict order never puts two values each before the other. */
  lemma NotBothLess<T(!new)>(x: T, y: T, less: (T, T) -> bool)
    requires IsStrictTotalOrder(less)
    ensures !(less(x, y) && less(y, x))
  {
    assert less(x, y) && less(y, x) ==> less(x, x);
  }

  /** Two ascending sequences with the same elements are the same sequence. */
  lemma {:induction false} AscendingUnique<T(!new)>(a: seq<T>, b: seq<T>, less: (T, T) -> bool)
    requires IsStrictTotalOrder(less)
    requires StrictlyAscending(a, less) && StrictlyAscending(b, less)
    requires forall x :: x in a <==> x in b
    ensures a == b
  {
    if a == [] {
      if b != [] {
        HeadIsElement(b);
        assert false;
      }
    } else if b == [] {
      HeadIsElement(a);
      assert false;
    } else {
      HeadIsElement(a);
      HeadIsElement(b);
      var k :| 0 <= k < |b| && b[k] == a[0];
      var j :| 0 <= j < |a| && a[j] == b[0];
      NotBothLess(a[0], b[0], less);
      assert a[0] == b[0];
      forall x
        ensures x in a[1..] <==> x in b[1..]
      {
        if x in a[1..] {
          var i :| 1 <= i < |a| && a[i] == x;
          assert less(a[0], x) && x in b;
          var i' :| 0 <= i' < |b| && b[i'] == x;
          assert i' != 0 && b[1..][i' - 1] == x;
        }
        if x in b[1..] {
          var i :| 1 <= i < |b| && b[i] == x;
          assert less(b[0], x) && x in a;
          var i' :| 0 <= i' < |a| && a[i'] == x;
          assert i' != 0 && a[1..][i' - 1] == x;
        }
      }
      AscendingUnique(a[1..], b[1..], less);
      assert a == [a[0]] + a[1..] && b == [b[0]] + b[1..];
    }
  }
}
