/** Orders and sorting shared by the components: what Python's `sorted` promises
    (a stable permutation in key order) as a function with its three laws. */
module Orders {

  datatype Option<+T> = None | Some(value: T)

  function Max(a: int, b: int): int { if a < b then b else a }

  function Min(a: int, b: int): int { if b < a then b else a }

  /** Python's `<` on strings: lexicographic by code point. */
  predicate StringLess(a: string, b: string) {
    b != [] && (a == [] || a[0] < b[0] || (a[0] == b[0] && StringLess(a[1..], b[1..])))
  }

  lemma {:induction false} StringLessTrichotomy(a: string, b: string)
    ensures StringLess(a, b) || StringLess(b, a) <==> a != b
    ensures !(StringLess(a, b) && StringLess(b, a))
  {
    if a != [] && b != [] && a[0] == b[0] {
      StringLessTrichotomy(a[1..], b[1..]);
      assert a == [a[0]] + a[1..] && b == [b[0]] + b[1..];
    }
  }

  /** A proper prefix comes first; otherwise the first difference decides. */
  lemma {:induction false} StringLessMeans(p: string, a: char, b: char, s: string, t: string)
    ensures StringLess(p, p + [a] + s)
    ensures a < b ==> StringLess(p + [a] + s, p + [b] + t)
  {
    var x, y := p + [a] + s, p + [b] + t;
    if p == [] {
      assert x[0] == a && y[0] == b;
    } else {
      assert x[1..] == p[1..] + [a] + s && y[1..] == p[1..] + [b] + t;
      assert x[0] == p[0] && y[0] == p[0];
      StringLessMeans(p[1..], a, b, s, t);
    }
  }

  lemma StringLessIsOrder()
    ensures StrictWeakOrder(StringLess)
  {
    forall x, y, z
      ensures !StringLess(x, x)
      ensures StringLess(x, y) && StringLess(y, z) ==> StringLess(x, z)
      ensures StringLess(x, y) ==> StringLess(x, z) || StringLess(z, y)
    {
      StringLessTrichotomy(x, x);
      StringLessTrichotomy(x, z);
      if StringLess(x, y) && StringLess(y, z) {
        StringLessTransitive(x, y, z);
      }
      if StringLess(z, x) && StringLess(x, y) {
        StringLessTransitive(z, x, y);
      }
    }
  }

  lemma {:induction false} StringLessTransitive(a: string, b: string, c: string)
    requires StringLess(a, b) && StringLess(b, c)
    ensures StringLess(a, c)
  {
    if a != [] && a[0] == b[0] == c[0] {
      StringLessTransitive(a[1..], b[1..], c[1..]);
    }
  }

  /** The order a sort key induces: irreflexive, transitive, and ties are transitive too. */
  ghost predicate StrictWeakOrder<T(!new)>(less: (T, T) -> bool) {
    && (forall x :: !less(x, x))
    && (forall x, y, z :: less(x, y) && less(y, z) ==> less(x, z))
    && (forall x, y, z :: less(x, y) ==> less(x, z) || less(z, y))
  }

  ghost predicate Sorted<T>(s: seq<T>, less: (T, T) -> bool) {
    forall i, j | 0 <= i < j < |s| :: !less(s[j], s[i])
  }

  function Insert<T>(x: T, s: seq<T>, less: (T, T) -> bool): seq<T> {
    if s == [] then [x]
    else if less(s[0], x) then [s[0]] + Insert(x, s[1..], less)
    else [x] + s
  }

  /** `sorted(s, key=...)`: stable, because each element goes before later elements it ties with. */
  function Sort<T>(s: seq<T>, less: (T, T) -> bool): seq<T> {
    if s == [] then [] else Insert(s[0], Sort(s[1..], less), less)
  }

  lemma {:induction false} InsertPermutes<T>(x: T, s: seq<T>, less: (T, T) -> bool)
    ensures multiset(Insert(x, s, less)) == multiset{x} + multiset(s)
    ensures |Insert(x, s, less)| == |s| + 1
  {
    if s != [] {
      assert s == [s[0]] + s[1..];
      if less(s[0], x) {
        InsertPermutes(x, s[1..], less);
      }
    }
  }

  lemma InsertMembers<T>(x: T, s: seq<T>, less: (T, T) -> bool)
    ensures forall y :: y in Insert(x, s, less) <==> y == x || y in s
  {
    InsertPermutes(x, s, less);
    forall y ensures y in Insert(x, s, less) <==> y == x || y in s {
      assert y in multiset(Insert(x, s, less)) <==> y in multiset{x} + multiset(s);
    }
  }

  lemma {:induction false} SortPermutes<T>(s: seq<T>, less: (T, T) -> bool)
    ensures multiset(Sort(s, less)) == multiset(s)
    ensures |Sort(s, less)| == |s|
  {
    if s != [] {
      SortPermutes(s[1..], less);
      InsertPermutes(s[0], Sort(s[1..], less), less);
      assert s == [s[0]] + s[1..];
    }
  }

  lemma SortMembers<T>(s: seq<T>, less: (T, T) -> bool)
    ensures forall x :: x in Sort(s, less) <==> x in s
  {
    SortPermutes(s, less);
    forall x ensures x in Sort(s, less) <==> x in s {
      assert x in multiset(Sort(s, less)) <==> x in multiset(s);
    }
  }

  lemma {:induction false} InsertSorted<T(!new)>(x: T, s: seq<T>, less: (T, T) -> bool)
    requires StrictWeakOrder(less) && Sorted(s, less)
    ensures Sorted(Insert(x, s, less), less)
  {
    if s != [] && less(s[0], x) {
      InsertSorted(x, s[1..], less);
      InsertPermutes(x, s[1..], less);
      var r := Insert(x, s[1..], less);
      forall k | 0 <= k < |r| ensures !less(r[k], s[0]) {
        assert r[k] in multiset(r);
        if r[k] != x {
          assert r[k] in multiset(s[1..]);
        }
      }
    }
  }

  lemma {:induction false} SortSorts<T(!new)>(s: seq<T>, less: (T, T) -> bool)
    requires StrictWeakOrder(less)
    ensures Sorted(Sort(s, less), less)
  {
    if s != [] {
      SortSorts(s[1..], less);
      InsertSorted(s[0], Sort(s[1..], less), less);
    }
  }

  /** Elements that tie are equal: the key identifies the element. */
  ghost predicate TiesAreEqual<T>(s: seq<T>, less: (T, T) -> bool) {
    forall i, j | 0 <= i < |s| && 0 <= j < |s| && !less(s[i], s[j]) && !less(s[j], s[i]) :: s[i] == s[j]
  }

  lemma HeadsAgree<T(!new)>(a: seq<T>, b: seq<T>, less: (T, T) -> bool)
    requires a != [] && b != [] && multiset(a) == multiset(b)
    requires Sorted(a, less) && Sorted(b, less) && TiesAreEqual(a, less)
    ensures a[0] == b[0]
  {
    assert a[0] in multiset(b) && b[0] in multiset(a);
    var i :| 0 <= i < |b| && b[i] == a[0];
    var j :| 0 <= j < |a| && a[j] == b[0];
    if i != 0 && j != 0 {
      assert !less(a[j], a[0]) && !less(b[i], b[0]);
    }
  }

  lemma TailMultisets<T>(a: seq<T>, b: seq<T>)
    requires a != [] && b != [] && a[0] == b[0] && multiset(a) == multiset(b)
    ensures multiset(a[1..]) == multiset(b[1..])
  {
    assert a == [a[0]] + a[1..] && b == [b[0]] + b[1..];
    assert multiset(a) == multiset{a[0]} + multiset(a[1..]);
    assert multiset(b) == multiset{b[0]} + multiset(b[1..]);
    assert multiset(a[1..]) == multiset(a) - multiset{a[0]};
  }

  /** A multiset whose keys identify its elements has one sorted arrangement. */
  lemma {:induction false} SortedUnique<T(!new)>(a: seq<T>, b: seq<T>, less: (T, T) -> bool)
    requires Sorted(a, less) && Sorted(b, less) && multiset(a) == multiset(b)
    requires TiesAreEqual(a, less)
    ensures a == b
  {
    assert |multiset(a)| == |a| && |multiset(b)| == |b|;
    if a != [] {
      HeadsAgree(a, b, less);
      TailMultisets(a, b);
      SortedUnique(a[1..], b[1..], less);
      assert a == [a[0]] + a[1..] && b == [b[0]] + b[1..];
    }
  }

  /** Sorting by an identifying key forgets the order of the input. */
  lemma SortIgnoresInputOrder<T(!new)>(a: seq<T>, b: seq<T>, less: (T, T) -> bool)
    requires StrictWeakOrder(less)
    requires multiset(a) == multiset(b) && TiesAreEqual(a, less)
    ensures Sort(a, less) == Sort(b, less)
  {
    var sa, sb := Sort(a, less), Sort(b, less);
    SortPermutes(a, less);
    SortPermutes(b, less);
    SortSorts(a, less);
    SortSorts(b, less);
    forall i, j | 0 <= i < |sa| && 0 <= j < |sa| && !less(sa[i], sa[j]) && !less(sa[j], sa[i])
      ensures sa[i] == sa[j]
    {
      assert sa[i] in multiset(sa) && sa[j] in multiset(sa);
      assert sa[i] in multiset(a) && sa[j] in multiset(a);
      var p :| 0 <= p < |a| && a[p] == sa[i];
      var q :| 0 <= q < |a| && a[q] == sa[j];
    }
    SortedUnique(sa, sb, less);
  }

  /** Stability at the end: an element no earlier one exceeds stays last. */
  lemma {:induction false} SortKeepsLast<T>(s: seq<T>, x: T, less: (T, T) -> bool)
    requires forall y | y in s :: !less(x, y)
    ensures Sort(s + [x], less) == Sort(s, less) + [x]
  {
    if s == [] {
      assert Sort([x], less) == Insert(x, Sort([x][1..], less), less) == [x];
      assert [] + [x] == [x];
    } else {
      assert (s + [x])[1..] == s[1..] + [x];
      SortKeepsLast(s[1..], x, less);
      InsertBeforeLast(s[0], Sort(s[1..], less), x, less);
    }
  }

  lemma {:induction false} InsertBeforeLast<T>(y: T, s: seq<T>, x: T, less: (T, T) -> bool)
    requires !less(x, y)
    ensures Insert(y, s + [x], less) == Insert(y, s, less) + [x]
  {
    if s == [] {
      assert s + [x] == [x];
    } else {
      assert (s + [x])[1..] == s[1..] + [x];
      if less(s[0], y) {
        InsertBeforeLast(y, s[1..], x, less);
      }
    }
  }

  // ----- Running best -----

  /** Replaced only by a strictly better element. */
  function Better<T>(current: Option<T>, x: T, better: (T, T) -> bool): Option<T> {
    if current.None? || better(x, current.value) then Some(x) else current
  }

  function Best<T>(xs: seq<T>, better: (T, T) -> bool): Option<T> {
    if xs == [] then None else Better(Best(xs[..|xs| - 1], better), xs[|xs| - 1], better)
  }

  /** `x` is the first element that no element beats. */
  ghost predicate FirstBest<T>(xs: seq<T>, x: T, better: (T, T) -> bool) {
    && (forall y | y in xs :: !better(y, x))
    && exists i | 0 <= i < |xs| :: xs[i] == x && forall j | 0 <= j < i :: better(x, xs[j])
  }

  lemma {:induction false} BestIsFirstBest<T(!new)>(xs: seq<T>, better: (T, T) -> bool)
    requires StrictWeakOrder(better)
    ensures Best(xs, better).None? <==> xs == []
    ensures xs != [] ==> FirstBest(xs, Best(xs, better).value, better)
  {
    if xs != [] {
      var n := |xs| - 1;
      var rest, x := xs[..n], xs[n];
      BestIsFirstBest(rest, better);
      assert xs == rest + [x];
      if rest == [] {
        assert xs[0] == x;
      } else {
        var b := Best(rest, better).value;
        var i :| 0 <= i < n && rest[i] == b && forall j | 0 <= j < i :: better(b, rest[j]);
        if better(x, b) {
          forall j | 0 <= j < n ensures better(x, xs[j]) {
            assert !better(rest[j], b);
          }
          assert xs[n] == x;
        } else {
          assert xs[i] == b && forall j | 0 <= j < i :: xs[j] == rest[j];
        }
      }
    }
  }

  lemma BestOfOneMore<T>(xs: seq<T>, x: T, better: (T, T) -> bool)
    ensures Best(xs + [x], better) == Better(Best(xs, better), x, better)
  {
    assert (xs + [x])[..|xs|] == xs;
  }
}
