/** Counting dictionaries in insertion order, as Python's `dict` keeps them, and the
    running-best scan that keeps the first of equally good elements. */
module Tallies {
  import opened Orders

  datatype Entry<T> = Entry(key: T, count: nat)

  /** `counts[key] = counts.get(key, 0) + 1` */
  function Bump<T(==)>(t: seq<Entry<T>>, key: T): seq<Entry<T>> {
    if t == [] then [Entry(key, 1)]
    else if t[0].key == key then [Entry(key, t[0].count + 1)] + t[1..]
    else [t[0]] + Bump(t[1..], key)
  }

  function Tally<T(==)>(xs: seq<T>): seq<Entry<T>> {
    if xs == [] then [] else Bump(Tally(xs[..|xs| - 1]), xs[|xs| - 1])
  }

  lemma TallyStep<T>(xs: seq<T>, x: T)
    ensures Tally(xs + [x]) == Bump(Tally(xs), x)
    ensures forall y :: Occurrences(xs + [x], y) == Occurrences(xs, y) + if x == y then 1 else 0
  {
    assert (xs + [x])[..|xs|] == xs;
  }

  function Occurrences<T(==)>(xs: seq<T>, x: T): nat {
    if xs == [] then 0 else Occurrences(xs[..|xs| - 1], x) + if xs[|xs| - 1] == x then 1 else 0
  }

  lemma {:induction false} OccursIffMember<T>(xs: seq<T>, x: T)
    ensures Occurrences(xs, x) > 0 <==> x in xs
  {
    if xs != [] {
      OccursIffMember(xs[..|xs| - 1], x);
      assert xs == xs[..|xs| - 1] + [xs[|xs| - 1]];
    }
  }

  function Get<T(==)>(t: seq<Entry<T>>, key: T): nat {
    if t == [] then 0 else if t[0].key == key then t[0].count else Get(t[1..], key)
  }

  function Total<T>(t: seq<Entry<T>>): nat { if t == [] then 0 else t[0].count + Total(t[1..]) }

  predicate HasKey<T(==)>(t: seq<Entry<T>>, key: T) { exists e | e in t :: e.key == key }

  /** A dictionary: no key twice, and only counted keys. */
  predicate IsTally<T(==)>(t: seq<Entry<T>>) {
    t != [] ==> t[0].count > 0 && !HasKey(t[1..], t[0].key) && IsTally(t[1..])
  }

  lemma {:induction false} BumpCounts<T>(t: seq<Entry<T>>, key: T)
    requires IsTally(t)
    ensures IsTally(Bump(t, key)) && Total(Bump(t, key)) == Total(t) + 1
    ensures forall x :: Get(Bump(t, key), x) == Get(t, x) + if x == key then 1 else 0
    ensures forall x :: HasKey(Bump(t, key), x) <==> HasKey(t, x) || x == key
  {
    if t != [] {
      assert t == [t[0]] + t[1..];
      if t[0].key != key {
        BumpCounts(t[1..], key);
        HasKeyOfCons(t[0], Bump(t[1..], key));
      } else {
        HasKeyOfCons(Entry(key, t[0].count + 1), t[1..]);
      }
      HasKeyOfCons(t[0], t[1..]);
    } else {
      assert Entry(key, 1) in Bump(t, key);
    }
  }

  lemma HasKeyOfCons<T>(e: Entry<T>, t: seq<Entry<T>>)
    ensures forall x :: HasKey([e] + t, x) <==> x == e.key || HasKey(t, x)
  {
    forall x ensures HasKey([e] + t, x) <==> x == e.key || HasKey(t, x) {
      assert e in [e] + t;
      assert forall f | f in t :: f in [e] + t;
    }
  }

  /** Every element is counted exactly as often as it occurs, and the counts add up. */
  lemma {:induction false} TallyCounts<T>(xs: seq<T>)
    ensures IsTally(Tally(xs)) && Total(Tally(xs)) == |xs|
    ensures forall x :: Get(Tally(xs), x) == Occurrences(xs, x)
  {
    if xs != [] {
      TallyCounts(xs[..|xs| - 1]);
      BumpCounts(Tally(xs[..|xs| - 1]), xs[|xs| - 1]);
    }
  }

  lemma {:induction false} EntriesAreCounts<T>(t: seq<Entry<T>>, e: Entry<T>)
    requires IsTally(t)
    ensures e in t <==> e.count > 0 && Get(t, e.key) == e.count
    ensures HasKey(t, e.key) <==> Get(t, e.key) > 0
    ensures multiset(t)[e] <= 1
  {
    if t != [] {
      EntriesAreCounts(t[1..], e);
      assert t == [t[0]] + t[1..];
      HasKeyOfCons(t[0], t[1..]);
    }
  }

  lemma {:induction false} OccurrencesAreMultiplicity<T>(xs: seq<T>, x: T)
    ensures Occurrences(xs, x) == multiset(xs)[x]
  {
    if xs != [] {
      OccurrencesAreMultiplicity(xs[..|xs| - 1], x);
      assert xs == xs[..|xs| - 1] + [xs[|xs| - 1]];
    }
  }

  lemma TallyMultiplicity<T>(xs: seq<T>, e: Entry<T>)
    ensures multiset(Tally(xs))[e] == if e.count > 0 && multiset(xs)[e.key] == e.count then 1 else 0
  {
    TallyCounts(xs);
    EntriesAreCounts(Tally(xs), e);
    OccurrencesAreMultiplicity(xs, e.key);
    assert e in Tally(xs) <==> e in multiset(Tally(xs));
  }

  /** Counting forgets the order, up to the order of the entries. */
  lemma TallyPermutes<T(!new)>(xs: seq<T>, ys: seq<T>)
    requires multiset(xs) == multiset(ys)
    ensures multiset(Tally(xs)) == multiset(Tally(ys))
  {
    forall e: Entry<T> ensures multiset(Tally(xs))[e] == multiset(Tally(ys))[e] {
      TallyMultiplicity(xs, e);
      TallyMultiplicity(ys, e);
    }
    SameMultiplicities(multiset(Tally(xs)), multiset(Tally(ys)));
  }

  lemma SameMultiplicities<U(!new)>(a: multiset<U>, b: multiset<U>)
    requires forall x: U :: a[x] == b[x]
    ensures a == b
  {
    forall x | x in a || x in b ensures a[x] == b[x] {
    }
  }

  /** The distinct elements by first occurrence. */
  function FirstSeen<T(==)>(xs: seq<T>): seq<T> {
    if xs == [] then []
    else
      var seen := FirstSeen(xs[..|xs| - 1]);
      if xs[|xs| - 1] in seen then seen else seen + [xs[|xs| - 1]]
  }

  function Keys<T>(t: seq<Entry<T>>): seq<T> { if t == [] then [] else [t[0].key] + Keys(t[1..]) }

  lemma {:induction false} BumpKeys<T>(t: seq<Entry<T>>, key: T)
    ensures Keys(Bump(t, key)) == if key in Keys(t) then Keys(t) else Keys(t) + [key]
  {
    if t != [] && t[0].key != key {
      BumpKeys(t[1..], key);
    }
  }

  /** The dictionary lists its keys by first occurrence. */
  lemma {:induction false} TallyKeysAreFirstSeen<T>(xs: seq<T>)
    ensures Keys(Tally(xs)) == FirstSeen(xs)
  {
    if xs != [] {
      TallyKeysAreFirstSeen(xs[..|xs| - 1]);
      BumpKeys(Tally(xs[..|xs| - 1]), xs[|xs| - 1]);
    }
  }

  // ----- The first of many -----

  function FirstSome<T, U>(xs: seq<T>, f: T -> Option<U>): Option<U> {
    if xs == [] then None
    else
      var earlier := FirstSome(xs[..|xs| - 1], f);
      if earlier.Some? then earlier else f(xs[|xs| - 1])
  }

  lemma {:induction false} FirstSomeIsFirst<T, U>(xs: seq<T>, f: T -> Option<U>)
    ensures FirstSome(xs, f).None? <==> forall x | x in xs :: f(x).None?
    ensures FirstSome(xs, f).Some? ==>
            exists i | 0 <= i < |xs| :: FirstSome(xs, f) == f(xs[i]) && forall j | 0 <= j < i :: f(xs[j]).None?
  {
    if xs != [] {
      var n := |xs| - 1;
      var rest := xs[..n];
      FirstSomeIsFirst(rest, f);
      assert xs == rest + [xs[n]];
      if FirstSome(rest, f).Some? {
        var i :| 0 <= i < n && FirstSome(rest, f) == f(rest[i]) && forall j | 0 <= j < i :: f(rest[j]).None?;
        assert xs[i] == rest[i] && forall j | 0 <= j < i :: xs[j] == rest[j];
      } else {
        assert forall j | 0 <= j < n :: xs[j] in rest;
      }
    }
  }

  // ----- Stable ranking -----

  function Filter<T>(s: seq<T>, keep: T -> bool): seq<T> {
    if s == [] then []
    else if keep(s[0]) then [s[0]] + Filter(s[1..], keep)
    else Filter(s[1..], keep)
  }

  lemma {:induction false} InsertKeepsTies<T>(x: T, s: seq<T>, less: (T, T) -> bool, keep: T -> bool)
    requires keep(x) ==> forall a | keep(a) :: !less(a, x)
    ensures Filter(Insert(x, s, less), keep) == if keep(x) then [x] + Filter(s, keep) else Filter(s, keep)
  {
    if s != [] && less(s[0], x) {
      InsertKeepsTies(x, s[1..], less, keep);
      FilterCons(s[0], Insert(x, s[1..], less), keep);
    } else {
      FilterCons(x, s, keep);
      assert s == [] ==> [x] + s == [x];
    }
  }

  lemma FilterCons<T>(x: T, s: seq<T>, keep: T -> bool)
    ensures Filter([x] + s, keep) == if keep(x) then [x] + Filter(s, keep) else Filter(s, keep)
  {
    assert ([x] + s)[1..] == s;
  }

  lemma {:induction false} FilterSnoc<T>(s: seq<T>, x: T, keep: T -> bool)
    ensures Filter(s + [x], keep) == if keep(x) then Filter(s, keep) + [x] else Filter(s, keep)
  {
    if s == [] {
      assert s + [x] == [x];
    } else {
      assert (s + [x])[1..] == s[1..] + [x];
      FilterSnoc(s[1..], x, keep);
    }
  }

  /** `sorted` is stable: elements that tie stay in the order of the input. */
  lemma {:induction false} SortKeepsTies<T>(s: seq<T>, less: (T, T) -> bool, keep: T -> bool)
    requires forall a, b | keep(a) && keep(b) :: !less(a, b)
    ensures Filter(Sort(s, less), keep) == Filter(s, keep)
  {
    if s != [] {
      SortKeepsTies(s[1..], less, keep);
      InsertKeepsTies(s[0], Sort(s[1..], less), less, keep);
    }
  }
}
