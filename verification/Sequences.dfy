/** Collecting from the elements of a sequence, one after another, and counting them. */
module Sequences {

  function FlatMap<T, U>(xs: seq<T>, f: T -> seq<U>): seq<U> {
    if xs == [] then [] else FlatMap(xs[..|xs| - 1], f) + f(xs[|xs| - 1])
  }

  lemma FlatMapOneMore<T, U>(xs: seq<T>, x: T, f: T -> seq<U>)
    ensures FlatMap(xs + [x], f) == FlatMap(xs, f) + f(x)
  {
    assert (xs + [x])[..|xs|] == xs;
  }

  lemma {:induction false} FlatMapAppend<T, U>(xs: seq<T>, ys: seq<T>, f: T -> seq<U>)
    ensures FlatMap(xs + ys, f) == FlatMap(xs, f) + FlatMap(ys, f)
  {
    if ys == [] {
      assert xs + ys == xs;
    } else {
      var n := |ys| - 1;
      var a, b, c := FlatMap(xs, f), FlatMap(ys[..n], f), f(ys[n]);
      assert FlatMap(xs + ys, f) == (a + b) + c by {
        FlatMapAppend(xs, ys[..n], f);
        FlatMapOneMore(xs + ys[..n], ys[n], f);
        assert xs + ys == xs + ys[..n] + [ys[n]];
      }
      Associative(a, b, c);
    }
  }

  lemma Associative<T>(a: seq<T>, b: seq<T>, c: seq<T>)
    ensures (a + b) + c == a + (b + c)
  {
  }

  function Composed<T, U, V>(f: T -> seq<U>, g: U -> seq<V>): T -> seq<V> { x => FlatMap(f(x), g) }

  lemma {:induction false} FlatMapComposed<T, U, V>(xs: seq<T>, f: T -> seq<U>, g: U -> seq<V>)
    ensures FlatMap(FlatMap(xs, f), g) == FlatMap(xs, Composed(f, g))
  {
    if xs != [] {
      var n := |xs| - 1;
      FlatMapComposed(xs[..n], f, g);
      FlatMapAppend(FlatMap(xs[..n], f), f(xs[n]), g);
    }
  }

  lemma {:induction false} FlatMapSame<T, U>(xs: seq<T>, f: T -> seq<U>, g: T -> seq<U>)
    requires forall x | x in xs :: f(x) == g(x)
    ensures FlatMap(xs, f) == FlatMap(xs, g)
  {
    if xs != [] {
      var n := |xs| - 1;
      assert xs[n] in xs && forall x | x in xs[..n] :: x in xs;
      FlatMapSame(xs[..n], f, g);
    }
  }

  /** Where only `x` contributes and occurs once, its contribution is everything. */
  lemma {:induction false} FlatMapOnlyOne<T, U>(xs: seq<T>, f: T -> seq<U>, x: T)
    requires forall i, j | 0 <= i < j < |xs| :: xs[i] != xs[j]
    requires forall y | y in xs && y != x :: f(y) == []
    ensures FlatMap(xs, f) == if x in xs then f(x) else []
  {
    if xs != [] {
      var n := |xs| - 1;
      assert forall y | y in xs[..n] :: y in xs;
      FlatMapOnlyOne(xs[..n], f, x);
      assert xs == xs[..n] + [xs[n]];
      assert xs[n] !in xs[..n];
    }
  }

  lemma {:induction false} FlatMapMembers<T, U>(xs: seq<T>, f: T -> seq<U>)
    ensures forall u :: u in FlatMap(xs, f) <==> exists x | x in xs :: u in f(x)
  {
    if xs != [] {
      var n := |xs| - 1;
      FlatMapMembers(xs[..n], f);
      assert xs == xs[..n] + [xs[n]];
    }
  }

  lemma FlatMapMember<T, U>(xs: seq<T>, f: T -> seq<U>, x: T, u: U)
    requires x in xs && u in f(x)
    ensures u in FlatMap(xs, f)
  {
    FlatMapMembers(xs, f);
  }

  /** Collecting from the elements of a sequence does not depend on their order. */
  lemma {:induction false} FlatMapPermutes<T, U>(xs: seq<T>, ys: seq<T>, f: T -> seq<U>)
    requires multiset(xs) == multiset(ys)
    ensures multiset(FlatMap(xs, f)) == multiset(FlatMap(ys, f))
    decreases |xs|
  {
    assert |multiset(xs)| == |xs| && |multiset(ys)| == |ys|;
    if xs != [] {
      var n := |xs| - 1;
      var x := xs[n];
      assert x in multiset(ys);
      var i :| 0 <= i < |ys| && ys[i] == x;
      RemoveOne(xs, n);
      RemoveOne(ys, i);
      FlatMapPermutes(xs[..n] + xs[n + 1..], ys[..i] + ys[i + 1..], f);
      FlatMapWithout(xs, n, f);
      FlatMapWithout(ys, i, f);
    }
  }

  lemma RemoveOne<T>(xs: seq<T>, i: nat)
    requires i < |xs|
    ensures multiset(xs[..i] + xs[i + 1..]) == multiset(xs) - multiset{xs[i]}
  {
    assert xs == xs[..i] + [xs[i]] + xs[i + 1..];
  }

  lemma FlatMapWithout<T, U>(xs: seq<T>, i: nat, f: T -> seq<U>)
    requires i < |xs|
    ensures multiset(FlatMap(xs, f)) == multiset(FlatMap(xs[..i] + xs[i + 1..], f)) + multiset(f(xs[i]))
  {
    var a, b := xs[..i], xs[i + 1..];
    assert xs == (a + [xs[i]]) + b;
    FlatMapAppend(a + [xs[i]], b, f);
    FlatMapAppend(a, b, f);
    assert (a + [xs[i]])[..|a|] == a;
  }

  /** Collecting from fewer elements collects no more. */
  lemma {:induction false} FlatMapMonotone<T, U>(xs: seq<T>, ys: seq<T>, f: T -> seq<U>)
    requires multiset(xs) <= multiset(ys)
    ensures multiset(FlatMap(xs, f)) <= multiset(FlatMap(ys, f))
    decreases |xs|
  {
    if xs != [] {
      var n := |xs| - 1;
      assert xs == xs[..n] + [xs[n]];
      assert xs[n] in multiset(ys);
      var i :| 0 <= i < |ys| && ys[i] == xs[n];
      RemoveOne(ys, i);
      FlatMapMonotone(xs[..n], ys[..i] + ys[i + 1..], f);
      FlatMapWithout(ys, i, f);
    }
  }

  lemma AppearsTwice<T>(s: seq<T>, i: nat, j: nat)
    requires i < j < |s| && s[i] == s[j]
    ensures multiset(s)[s[i]] >= 2
  {
    assert s == s[..i] + [s[i]] + s[i + 1..j] + [s[j]] + s[j + 1..];
  }
}
