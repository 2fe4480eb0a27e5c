/** Small shared vocabulary: an optional value and the real-valued `Math.max` / `Math.min`. */
module Util {

  datatype Option<+T> = None | Some(value: T)

  /** `Math.max(a, b)` on reals. */
  function Max(a: real, b: real): (r: real)
    ensures r >= a && r >= b
    ensures r == a || r == b
  {
    if a >= b then a else b
  }

  /** `Math.min(a, b)` on reals. */
  function Min(a: real, b: real): (r: real)
    ensures r <= a && r <= b
    ensures r == a || r == b
  {
    if a <= b then a else b
  }

  /** `xs.map(f)`. */
  function MapSeq<A, B>(f: A -> B, xs: seq<A>): (ys: seq<B>)
    ensures |ys| == |xs|
  {
    if xs == [] then [] else MapSeq(f, xs[..|xs| - 1]) + [f(xs[|xs| - 1])]
  }

  lemma {:induction false} MapSeqAppend<A, B>(f: A -> B, a: seq<A>, b: seq<A>)
    ensures MapSeq(f, a + b) == MapSeq(f, a) + MapSeq(f, b)
  {
    if b != [] {
      var init := b[..|b| - 1];
      MapSeqAppend(f, a, init);
      assert (a + b)[..|a + b| - 1] == a + init;
    } else {
      assert a + b == a;
    }
  }

  /** Mapping one more element. */
  lemma MapSeqSnoc<A, B>(f: A -> B, xs: seq<A>, i: nat)
    requires i < |xs|
    ensures MapSeq(f, xs[..i + 1]) == MapSeq(f, xs[..i]) + [f(xs[i])]
  {
    assert xs[..i + 1][..i] == xs[..i];
  }

  /** An element of a sequence splits it into what comes before and after one occurrence. */
  lemma Decompose<T>(b: seq<T>, x: T) returns (pre: seq<T>, post: seq<T>)
    requires x in multiset(b)
    ensures b == pre + [x] + post
    ensures multiset(pre + post) == multiset(b) - multiset{x}
  {
    var k :| 0 <= k < |b| && b[k] == x;
    pre, post := b[..k], b[k + 1..];
    assert b == pre + [x] + post;
  }

  /** Mapping a sequence with one more element in the middle. */
  lemma MapSeqMiddle<A, B>(f: A -> B, pre: seq<A>, x: A, post: seq<A>)
    ensures multiset(MapSeq(f, pre + [x] + post)) == multiset(MapSeq(f, pre + post)) + multiset{f(x)}
  {
    MapSeqAppend(f, pre + [x], post);
    MapSeqAppend(f, pre, post);
    assert MapSeq(f, pre + [x]) == MapSeq(f, pre) + [f(x)] by {
      assert (pre + [x])[..|pre|] == pre;
    }
  }

  /** Mapping a permutation gives a permutation. */
  lemma {:induction false} MapSeqPermutation<A, B>(f: A -> B, a: seq<A>, b: seq<A>)
    requires multiset(a) == multiset(b)
    ensures multiset(MapSeq(f, a)) == multiset(MapSeq(f, b))
  {
    if a == [] {
      assert |b| == |multiset(b)| == 0;
    } else {
      var x := a[|a| - 1];
      var init := a[..|a| - 1];
      assert multiset(init) == multiset(a) - multiset{x} by {
        assert a == init + [x];
      }
      var pre, post := Decompose(b, x);
      MapSeqPermutation(f, init, pre + post);
      MapSeqMiddle(f, pre, x, post);
    }
  }

  /** The identity, for summing a sequence of numbers as `Sum(Id, xs)`. */
  function Id<T>(x: T): T {
    x
  }

  /** The sum of `f` over a sequence, added up from the front as a running total is. */
  function Sum<T>(f: T -> real, xs: seq<T>): real {
    if xs == [] then 0.0 else Sum(f, xs[..|xs| - 1]) + f(xs[|xs| - 1])
  }

  lemma {:induction false} SumAppend<T>(f: T -> real, a: seq<T>, b: seq<T>)
    ensures Sum(f, a + b) == Sum(f, a) + Sum(f, b)
  {
    if b != [] {
      var init := b[..|b| - 1];
      SumAppend(f, a, init);
      assert (a + b)[..|a + b| - 1] == a + init;
    } else {
      assert a + b == a;
    }
  }

  lemma SumSnoc<T>(f: T -> real, xs: seq<T>, x: T)
    ensures Sum(f, xs + [x]) == Sum(f, xs) + f(x)
  {
    assert (xs + [x])[..|xs|] == xs;
  }

  /** A sum with one more term in the middle. */
  lemma SumMiddle<T>(f: T -> real, pre: seq<T>, x: T, post: seq<T>)
    ensures Sum(f, pre + [x] + post) == Sum(f, pre + post) + f(x)
  {
    SumAppend(f, pre + [x], post);
    SumSnoc(f, pre, x);
    SumAppend(f, pre, post);
  }

  /** A sum does not depend on the order of its terms. */
  lemma {:induction false} SumPermutation<T>(f: T -> real, a: seq<T>, b: seq<T>)
    requires multiset(a) == multiset(b)
    ensures Sum(f, a) == Sum(f, b)
  {
    if a == [] {
      assert |b| == |multiset(b)| == 0;
    } else {
      var x := a[|a| - 1];
      var init := a[..|a| - 1];
      assert multiset(init) == multiset(a) - multiset{x} by {
        assert a == init + [x];
      }
      var pre, post := Decompose(b, x);
      SumPermutation(f, init, pre + post);
      SumMiddle(f, pre, x, post);
    }
  }

  /** How many elements satisfy `p`. */
  function Count<T>(p: T -> bool, xs: seq<T>): (n: nat)
    ensures n <= |xs|
  {
    if xs == [] then 0 else Count(p, xs[..|xs| - 1]) + (if p(xs[|xs| - 1]) then 1 else 0)
  }

  lemma {:induction false} CountAppend<T>(p: T -> bool, a: seq<T>, b: seq<T>)
    ensures Count(p, a + b) == Count(p, a) + Count(p, b)
  {
    if b != [] {
      var init := b[..|b| - 1];
      CountAppend(p, a, init);
      assert (a + b)[..|a + b| - 1] == a + init;
    } else {
      assert a + b == a;
    }
  }

  lemma CountSnoc<T>(p: T -> bool, xs: seq<T>, x: T)
    ensures Count(p, xs + [x]) == Count(p, xs) + (if p(x) then 1 else 0)
  {
    assert (xs + [x])[..|xs|] == xs;
  }

  /** A count with one more element in the middle. */
  lemma CountMiddle<T>(p: T -> bool, pre: seq<T>, x: T, post: seq<T>)
    ensures Count(p, pre + [x] + post) == Count(p, pre + post) + (if p(x) then 1 else 0)
  {
    CountAppend(p, pre + [x], post);
    CountSnoc(p, pre, x);
    CountAppend(p, pre, post);
  }

  /** A count does not depend on the order of the elements. */
  lemma {:induction false} CountPermutation<T>(p: T -> bool, a: seq<T>, b: seq<T>)
    requires multiset(a) == multiset(b)
    ensures Count(p, a) == Count(p, b)
  {
    if a == [] {
      assert |b| == |multiset(b)| == 0;
    } else {
      var x := a[|a| - 1];
      var init := a[..|a| - 1];
      assert multiset(init) == multiset(a) - multiset{x} by {
        assert a == init + [x];
      }
      var pre, post := Decompose(b, x);
      CountPermutation(p, init, pre + post);
      CountMiddle(p, pre, x, post);
    }
  }

  /** Every element satisfies `p` exactly when all of them are counted. */
  lemma {:induction false} CountAll<T>(p: T -> bool, xs: seq<T>)
    ensures Count(p, xs) == |xs| <==> forall i :: 0 <= i < |xs| ==> p(xs[i])
  {
    if xs != [] {
      var init := xs[..|xs| - 1];
      CountAll(p, init);
      assert forall i :: 0 <= i < |init| ==> init[i] == xs[i];
    }
  }
}
