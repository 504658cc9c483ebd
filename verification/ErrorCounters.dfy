/** Downstream error counters: raw totals, the cohort exposing both counters, and growth
    against a stored baseline (app/error_counters.py). */
module ErrorCounters {
  import opened Orders
  import opened Rounding

  /** A stored counter value as the modem reported it. */
  datatype Raw = Null | Number(value: int) | Fraction(amount: real) | Text(parsed: Option<int>) | Junk

  /** `int(value)`, which truncates towards zero; None when there is no number. */
  function Counter(raw: Raw): Option<int> {
    match raw
    case Number(n) => Some(n)
    case Fraction(x) => Some(if x >= 0.0 then x.Floor else -((-x).Floor))
    case Text(parsed) => parsed
    case Null => None
    case Junk => None
  }

  /** Fractions lose what is behind the point; what is no number is no counter. */
  lemma CounterTruncates(x: real, n: int)
    ensures Counter(Fraction(x)) == Some(n) <==>
            if x >= 0.0 then n as real <= x < n as real + 1.0 else n as real - 1.0 < x <= n as real
    ensures Counter(Number(n)) == Some(n) && Counter(Text(Some(n))) == Some(n)
    ensures Counter(Null) == Counter(Junk) == Counter(Text(None)) == None
  {
  }

  datatype Channel = Channel(
    docsisVersion: string, family: string, id: string, frequency: string,
    correctable: Raw, uncorrectable: Raw)
  {
    function Corr(): Option<int> { Counter(correctable) }

    function Uncorr(): Option<int> { Counter(uncorrectable) }

    predicate Comparable() { Corr().Some? && Uncorr().Some? }

    function Key(): string { docsisVersion + "|" + family + "|" + id + "|" + frequency }

    function Family(): string { if family == "" then "unknown" else family }
  }

  lemma NoBarBefore(a: string, x: string)
    requires '|' !in a
    ensures forall i | 0 <= i < |a| :: (a + "|" + x)[i] != '|'
    ensures (a + "|" + x)[|a|] == '|'
  {
    assert forall i | 0 <= i < |a| :: a[i] in a;
  }

  lemma FirstBar(a: string, b: string, x: string, y: string)
    requires '|' !in a && '|' !in b && a + "|" + x == b + "|" + y
    ensures a == b && x == y
  {
    NoBarBefore(a, x);
    NoBarBefore(b, y);
    var s, t := a + "|" + x, b + "|" + y;
    assert |a| == |b|;
    assert a == s[..|a|] && b == t[..|b|];
    assert x == s[|a| + 1..] && y == t[|b| + 1..];
  }

  ghost predicate NoBars(c: Channel) { '|' !in c.docsisVersion && '|' !in c.family && '|' !in c.id }

  /** Unless a part contains the separator, the key identifies all four parts of a channel. */
  lemma KeyIdentifies(c: Channel, d: Channel)
    requires NoBars(c) && NoBars(d) && c.Key() == d.Key()
    ensures c.docsisVersion == d.docsisVersion && c.family == d.family && c.id == d.id && c.frequency == d.frequency
  {
    KeyInParts(c);
    KeyInParts(d);
    var p, q := c.id + "|" + c.frequency, d.id + "|" + d.frequency;
    FirstBar(c.docsisVersion, d.docsisVersion, c.family + "|" + p, d.family + "|" + q);
    FirstBar(c.family, d.family, p, q);
    FirstBar(c.id, d.id, c.frequency, d.frequency);
  }

  lemma KeyInParts(c: Channel)
    ensures c.Key() == c.docsisVersion + "|" + (c.family + "|" + (c.id + "|" + c.frequency))
  {
  }

  datatype Coverage = Coverage(
    total: int, correctable: int, uncorrectable: int, comparable: int, partial: int, unsupported: int)
  {
    function Plus(o: Coverage): Coverage {
      Coverage(total + o.total, correctable + o.correctable, uncorrectable + o.uncorrectable,
               comparable + o.comparable, partial + o.partial, unsupported + o.unsupported)
    }
  }

  const NO_COVERAGE := Coverage(0, 0, 0, 0, 0, 0)

  datatype Support = Correctable | Uncorrectable | Both | Neither

  predicate Has(c: Channel, support: Support) {
    match support
    case Correctable => c.Corr().Some?
    case Uncorrectable => c.Uncorr().Some?
    case Both => c.Comparable()
    case Neither => c.Corr().None? && c.Uncorr().None?
  }

  function Count(channels: seq<Channel>, support: Support): nat {
    if channels == [] then 0
    else Count(channels[..|channels| - 1], support) + if Has(channels[|channels| - 1], support) then 1 else 0
  }

  /** `_coverage` */
  function CoverageOf(channels: seq<Channel>): Coverage {
    var comparable, unsupported := Count(channels, Both), Count(channels, Neither);
    Coverage(|channels|, Count(channels, Correctable), Count(channels, Uncorrectable),
             comparable, |channels| - comparable - unsupported, unsupported)
  }

  /** Every channel is comparable, partial or unsupported, and each kind of support is counted. */
  lemma {:induction false} CoverageIsExhaustive(channels: seq<Channel>)
    ensures var c := CoverageOf(channels);
            && c.comparable + c.partial + c.unsupported == c.total == |channels|
            && c.correctable + c.uncorrectable == 2 * c.comparable + c.partial
            && c.comparable >= 0 && c.partial >= 0 && c.unsupported >= 0
  {
    if channels != [] {
      CoverageIsExhaustive(channels[..|channels| - 1]);
    }
  }

  // ----- Families -----

  datatype Group = Group(family: string, channels: seq<Channel>)

  function AddTo(groups: seq<Group>, c: Channel): seq<Group> {
    if groups == [] then [Group(c.Family(), [c])]
    else if groups[0].family == c.Family() then [Group(c.Family(), groups[0].channels + [c])] + groups[1..]
    else [groups[0]] + AddTo(groups[1..], c)
  }

  /** `families`: the channels by family, in order of first appearance. */
  function Families(channels: seq<Channel>): seq<Group> {
    if channels == [] then []
    else AddTo(Families(channels[..|channels| - 1]), channels[|channels| - 1])
  }

  /** The channels grouped under a family. */
  ghost function GroupOf(groups: seq<Group>, family: string): seq<Channel> {
    if groups == [] then []
    else if groups[0].family == family then groups[0].channels
    else GroupOf(groups[1..], family)
  }

  /** The channels of a family, in order; those without one are unknown. */
  ghost function InFamily(channels: seq<Channel>, family: string): seq<Channel> {
    if channels == [] then []
    else
      var n := |channels| - 1;
      var c := channels[n];
      InFamily(channels[..n], family)
      + if c.family == family || (c.family == "" && family == "unknown") then [c] else []
  }

  lemma {:induction false} AddToGroup(groups: seq<Group>, c: Channel, family: string)
    ensures GroupOf(AddTo(groups, c), family) == GroupOf(groups, family) + if c.Family() == family then [c] else []
  {
    if groups != [] && groups[0].family != c.Family() {
      AddToGroup(groups[1..], c, family);
    }
  }

  /** Grouping puts each channel into the group of its family and into no other. */
  lemma {:induction false} GroupsAreFamilies(channels: seq<Channel>, family: string)
    requires family != ""
    ensures GroupOf(Families(channels), family) == InFamily(channels, family)
  {
    if channels != [] {
      var n := |channels| - 1;
      GroupsAreFamilies(channels[..n], family);
      AddToGroup(Families(channels[..n]), channels[n], family);
    }
  }

  function TotalCoverage(groups: seq<Group>): Coverage {
    if groups == [] then NO_COVERAGE else CoverageOf(groups[0].channels).Plus(TotalCoverage(groups[1..]))
  }

  function TotalCount(groups: seq<Group>, support: Support): int {
    if groups == [] then 0 else Count(groups[0].channels, support) + TotalCount(groups[1..], support)
  }

  function TotalSize(groups: seq<Group>): int {
    if groups == [] then 0 else |groups[0].channels| + TotalSize(groups[1..])
  }

  lemma {:induction false} TotalsOfCoverage(groups: seq<Group>)
    ensures var t := TotalCoverage(groups);
            && t.total == TotalSize(groups)
            && t.correctable == TotalCount(groups, Correctable) && t.uncorrectable == TotalCount(groups, Uncorrectable)
            && t.comparable == TotalCount(groups, Both) && t.unsupported == TotalCount(groups, Neither)
            && t.partial == t.total - t.comparable - t.unsupported
  {
    if groups != [] {
      TotalsOfCoverage(groups[1..]);
    }
  }

  lemma {:induction false} AddToCounts(groups: seq<Group>, c: Channel, support: Support)
    ensures TotalCount(AddTo(groups, c), support) == TotalCount(groups, support) + if Has(c, support) then 1 else 0
    ensures TotalSize(AddTo(groups, c)) == TotalSize(groups) + 1
  {
    if groups == [] {
      assert Count([c], support) == Count([c][..0], support) + if Has(c, support) then 1 else 0;
      assert AddTo(groups, c)[1..] == [] && [c][..0] == [];
    } else if groups[0].family == c.Family() {
      assert (groups[0].channels + [c])[..|groups[0].channels|] == groups[0].channels;
    } else {
      AddToCounts(groups[1..], c, support);
    }
  }

  lemma {:induction false} FamiliesConserveCounts(channels: seq<Channel>, support: Support)
    ensures TotalCount(Families(channels), support) == Count(channels, support)
    ensures TotalSize(Families(channels)) == |channels|
  {
    if channels != [] {
      var n := |channels| - 1;
      FamiliesConserveCounts(channels[..n], support);
      AddToCounts(Families(channels[..n]), channels[n], support);
    }
  }

  /** The families' coverages add up to the coverage of all channels. */
  lemma FamiliesConserveCoverage(channels: seq<Channel>)
    ensures TotalCoverage(Families(channels)) == CoverageOf(channels)
  {
    TotalsOfCoverage(Families(channels));
    FamiliesConserveCounts(channels, Correctable);
    FamiliesConserveCounts(channels, Uncorrectable);
    FamiliesConserveCounts(channels, Both);
    FamiliesConserveCounts(channels, Neither);
  }

  // ----- The aggregate -----

  datatype Aggregate = Aggregate(
    rawCorrectable: Option<int>,
    rawUncorrectable: Option<int>,
    comparableCorrectable: Option<int>,
    comparableUncorrectable: Option<int>,
    coverage: Coverage,
    families: seq<Group>,
    keys: seq<string>)

  function Available(values: seq<Option<int>>): seq<int> {
    if values == [] then []
    else
      var n := |values| - 1;
      Available(values[..n]) + if values[n].Some? then [values[n].value] else []
  }

  function Sum(values: seq<int>): int {
    if values == [] then 0 else Sum(values[..|values| - 1]) + values[|values| - 1]
  }

  /** `sum(values) if values else None` */
  function SumOrNone(values: seq<int>): Option<int> { if values == [] then None else Some(Sum(values)) }

  function ComparableOnly(channels: seq<Channel>): (r: seq<Channel>)
    ensures forall c | c in r :: c.Comparable()
  {
    if channels == [] then []
    else
      var n := |channels| - 1;
      ComparableOnly(channels[..n]) + if channels[n].Comparable() then [channels[n]] else []
  }

  function Corrs(channels: seq<Channel>): seq<Option<int>> {
    seq(|channels|, i requires 0 <= i < |channels| => channels[i].Corr())
  }

  function Uncorrs(channels: seq<Channel>): seq<Option<int>> {
    seq(|channels|, i requires 0 <= i < |channels| => channels[i].Uncorr())
  }

  function Keys(channels: seq<Channel>): seq<string> {
    seq(|channels|, i requires 0 <= i < |channels| => channels[i].Key())
  }

  function AggregateOf(channels: seq<Channel>): Aggregate {
    var comparable := ComparableOnly(channels);
    Aggregate(
      SumOrNone(Available(Corrs(channels))),
      SumOrNone(Available(Uncorrs(channels))),
      SumOrNone(Available(Corrs(comparable))),
      SumOrNone(Available(Uncorrs(comparable))),
      CoverageOf(channels),
      Families(channels),
      Sort(Keys(comparable), StringLess))
  }

  /** What one more channel adds to the lists the loop collects. */
  lemma OneMoreCounter(channels: seq<Channel>, i: nat)
    requires i < |channels|
    ensures var c, before, after := channels[i], channels[..i], channels[..i + 1];
            && Available(Corrs(after)) == Available(Corrs(before)) + (if c.Corr().Some? then [c.Corr().value] else [])
            && Available(Uncorrs(after))
                 == Available(Uncorrs(before)) + (if c.Uncorr().Some? then [c.Uncorr().value] else [])
            && ComparableOnly(after) == ComparableOnly(before) + (if c.Comparable() then [c] else [])
            && Families(after) == AddTo(Families(before), c)
  {
    var before, after := channels[..i], channels[..i + 1];
    assert after[..i] == before;
    assert Corrs(after)[..i] == Corrs(before);
    assert Uncorrs(after)[..i] == Uncorrs(before);
  }

  method AggregateErrorCounters(channels: seq<Channel>) returns (a: Aggregate)
    ensures a == AggregateOf(channels)
  {
    var corr, uncorr, comparable, families := [], [], [], [];
    for i := 0 to |channels|
      invariant corr == Available(Corrs(channels[..i])) && uncorr == Available(Uncorrs(channels[..i]))
      invariant comparable == ComparableOnly(channels[..i])
      invariant families == Families(channels[..i])
    {
      var c := channels[i];
      OneMoreCounter(channels, i);
      corr := corr + if c.Corr().Some? then [c.Corr().value] else [];
      uncorr := uncorr + if c.Uncorr().Some? then [c.Uncorr().value] else [];
      if c.Comparable() {
        comparable := comparable + [c];
      }
      families := AddTo(families, c);
    }
    assert channels[..|channels|] == channels;
    a := Aggregate(SumOrNone(corr), SumOrNone(uncorr),
                   SumOrNone(Available(Corrs(comparable))), SumOrNone(Available(Uncorrs(comparable))),
                   CoverageOf(channels), families, Sort(Keys(comparable), StringLess));
  }

  lemma {:induction false} AvailableAll(values: seq<Option<int>>)
    requires forall i | 0 <= i < |values| :: values[i].Some?
    ensures |Available(values)| == |values|
  {
    if values != [] {
      AvailableAll(values[..|values| - 1]);
    }
  }

  lemma {:induction false} AvailableCount(channels: seq<Channel>)
    ensures |Available(Corrs(channels))| == CoverageOf(channels).correctable
    ensures |Available(Uncorrs(channels))| == CoverageOf(channels).uncorrectable
    ensures |ComparableOnly(channels)| == CoverageOf(channels).comparable
  {
    if channels != [] {
      var n := |channels| - 1;
      AvailableCount(channels[..n]);
      assert Corrs(channels)[..n] == Corrs(channels[..n]);
      assert Uncorrs(channels)[..n] == Uncorrs(channels[..n]);
    }
  }

  /** A total is None exactly when no channel supports it, never a zero that means "unknown";
      the comparable totals are both None exactly when the cohort is empty. */
  lemma NoneMeansUnsupported(channels: seq<Channel>)
    ensures var a := AggregateOf(channels);
            && (a.rawCorrectable.None? <==> a.coverage.correctable == 0)
            && (a.rawUncorrectable.None? <==> a.coverage.uncorrectable == 0)
            && (a.comparableCorrectable.None? <==> a.keys == [])
            && (a.comparableUncorrectable.None? <==> a.keys == [])
            && |a.keys| == a.coverage.comparable
  {
    AvailableCount(channels);
    var comparable := ComparableOnly(channels);
    forall i | 0 <= i < |comparable| ensures Corrs(comparable)[i].Some? && Uncorrs(comparable)[i].Some? {
      assert comparable[i].Comparable();
    }
    AvailableAll(Corrs(comparable));
    AvailableAll(Uncorrs(comparable));
    SortPermutes(Keys(comparable), StringLess);
  }

  /** Counters added up, channel by channel; absent ones count nothing. */
  ghost function Added(channels: seq<Channel>, counter: Channel -> Raw): int {
    if channels == [] then 0
    else
      var n := |channels| - 1;
      Added(channels[..n], counter)
      + match Counter(counter(channels[n]))
        case Some(x) => x
        case None => 0
  }

  lemma SumOfMore(xs: seq<int>, x: int)
    ensures Sum(xs + [x]) == Sum(xs) + x
  {
    assert (xs + [x])[..|xs|] == xs;
  }

  lemma {:induction false} CorrsAdd(channels: seq<Channel>)
    ensures Sum(Available(Corrs(channels))) == Added(channels, (c: Channel) => c.correctable)
  {
    if channels != [] {
      var n := |channels| - 1;
      CorrsAdd(channels[..n]);
      assert Corrs(channels)[..n] == Corrs(channels[..n]);
      var before, last := Available(Corrs(channels[..n])), Counter(channels[n].correctable);
      if last.Some? {
        assert Available(Corrs(channels)) == before + [last.value];
        SumOfMore(before, last.value);
      } else {
        assert Available(Corrs(channels)) == before;
      }
    }
  }

  lemma {:induction false} UncorrsAdd(channels: seq<Channel>)
    ensures Sum(Available(Uncorrs(channels))) == Added(channels, (c: Channel) => c.uncorrectable)
  {
    if channels != [] {
      var n := |channels| - 1;
      UncorrsAdd(channels[..n]);
      assert Uncorrs(channels)[..n] == Uncorrs(channels[..n]);
      var before, last := Available(Uncorrs(channels[..n])), Counter(channels[n].uncorrectable);
      if last.Some? {
        assert Available(Uncorrs(channels)) == before + [last.value];
        SumOfMore(before, last.value);
      } else {
        assert Available(Uncorrs(channels)) == before;
      }
    }
  }

  ghost predicate IsTotal(total: Option<int>, channels: seq<Channel>, counter: Channel -> Raw) {
    total.Some? ==> total.value == Added(channels, counter)
  }

  /** The raw totals add up the counters of all channels, the comparable ones those of the channels
      that have both. */
  lemma TotalsAddUp(channels: seq<Channel>)
    ensures var a, both := AggregateOf(channels), ComparableOnly(channels);
            && IsTotal(a.rawCorrectable, channels, (c: Channel) => c.correctable)
            && IsTotal(a.rawUncorrectable, channels, (c: Channel) => c.uncorrectable)
            && IsTotal(a.comparableCorrectable, both, (c: Channel) => c.correctable)
            && IsTotal(a.comparableUncorrectable, both, (c: Channel) => c.uncorrectable)
  {
    CorrsAdd(channels);
    UncorrsAdd(channels);
    CorrsAdd(ComparableOnly(channels));
    UncorrsAdd(ComparableOnly(channels));
  }

  // ----- Percentages -----

  datatype Percentage = Unknown | Percent(value: real) | DivisionByZero

  function UncorrectablePercentage(correctable: Option<int>, uncorrectable: Option<int>, minCodewords: int)
    : Percentage
  {
    if correctable.None? || uncorrectable.None? then Unknown
    else
      var total := correctable.value + uncorrectable.value;
      if total < minCodewords then Percent(0.0)
      else if total == 0 then DivisionByZero
      else Percent(RoundHalfEven(uncorrectable.value as real / total as real * 100.0 * 100.0) as real / 100.0)
  }

  /** What a percentage says: nothing without both counters, 0 below the minimum, and otherwise the
      share of the uncorrectable codewords in all of them, right to half a hundredth of a percent. */
  ghost predicate IsShare(p: Percentage, correctable: Option<int>, uncorrectable: Option<int>, minCodewords: int) {
    if correctable.None? || uncorrectable.None? then p == Unknown
    else
      var u, total := uncorrectable.value as real, (correctable.value + uncorrectable.value) as real;
      && (total < minCodewords as real ==> p == Percent(0.0))
      && (total >= minCodewords as real && total == 0.0 ==> p == DivisionByZero)
      && (total >= minCodewords as real && total > 0.0 ==>
            && p.Percent?
            && -(0.005 * total) <= p.value * total - 100.0 * u <= 0.005 * total
            && (u == 0.0 ==> p.value == 0.0)
            && (u == total ==> p.value == 100.0))
  }

  lemma ScaledBound(d: real, bound: real, scale: real)
    requires -bound <= d <= bound && scale > 0.0
    ensures -(bound * scale) <= d * scale <= bound * scale
  {
  }

  lemma ScaledSum(d: real, q: real, scale: real)
    ensures (d + 100.0 * q) * scale == d * scale + 100.0 * (q * scale)
  {
  }

  lemma NearShare(u: real, q: real, d: real, bound: real, total: real, pct: real)
    requires total > 0.0 && q * total == u && -bound <= d <= bound && pct == d + 100.0 * q
    ensures -(bound * total) <= pct * total - 100.0 * u <= bound * total
  {
    ScaledBound(d, bound, total);
    ScaledSum(d, q, total);
    Shifted(d * total, pct * total, u, bound * total);
  }

  lemma Shifted(d: real, scaled: real, u: real, bound: real)
    requires scaled == d + 100.0 * u && -bound <= d <= bound
    ensures -bound <= scaled - 100.0 * u <= bound
  {
  }

  lemma ShareTimesTotal(u: real, total: real)
    requires total > 0.0
    ensures u / total * total == u && 0.0 / total == 0.0 && total / total == 1.0
  {
    var one := total / total;
    assert one * total == total;
  }

  lemma RoundedShare(u: real, total: real, pct: real)
    requires total > 0.0 && pct == RoundHalfEven(u / total * 100.0 * 100.0) as real / 100.0
    ensures -(0.005 * total) <= pct * total - 100.0 * u <= 0.005 * total
    ensures u == 0.0 ==> pct == 0.0
    ensures u == total ==> pct == 100.0
  {
    var q := u / total;
    RoundingIsNearest(q * 100.0 * 100.0);
    ShareTimesTotal(u, total);
    NearShare(u, q, pct - 100.0 * q, 0.005, total, pct);
  }

  lemma PercentageIsShare(correctable: Option<int>, uncorrectable: Option<int>, minCodewords: int)
    ensures IsShare(UncorrectablePercentage(correctable, uncorrectable, minCodewords),
                    correctable, uncorrectable, minCodewords)
  {
    var p := UncorrectablePercentage(correctable, uncorrectable, minCodewords);
    if correctable.Some? && uncorrectable.Some? && p.Percent? {
      var u, total := uncorrectable.value as real, (correctable.value + uncorrectable.value) as real;
      if total >= minCodewords as real && total > 0.0 {
        RoundedShare(u, total, p.value);
      }
    }
  }

  // ----- Growth -----

  /** What the previous snapshot stored; any part may be missing. */
  datatype Baseline = Baseline(
    keys: Option<seq<string>>, correctable: Option<int>, uncorrectable: Option<int>, raw: Option<int>)

  const NO_BASELINE := Baseline(None, None, None, None)

  datatype Growth = Growth(
    correctableBaseline: Option<int>,
    uncorrectableBaseline: Option<int>,
    rawBaseline: Option<int>,
    correctableRecent: Option<int>,
    uncorrectableRecent: Option<int>,
    rawRecent: Option<int>,
    correctableDelta: Option<int>,
    uncorrectableDelta: Option<int>,
    rawDelta: Option<int>,
    keys: seq<string>,
    comparableReset: bool,
    rawReset: bool,
    schemaBaseline: bool)
  {
    function Stored(): Baseline {
      Baseline(Some(keys), correctableBaseline, uncorrectableBaseline, rawBaseline)
    }
  }

  function Delta(current: Option<int>, previous: Option<int>): Option<int> {
    if current.None? || previous.None? then None else Some(current.value - previous.value)
  }

  predicate Fell(delta: Option<int>) { delta.Some? && delta.value < 0 }

  function Or(value: Option<int>, fallback: Option<int>): Option<int> { if value.Some? then value else fallback }

  function ZeroIfKnown(value: Option<int>): Option<int> { if value.Some? then Some(0) else None }

  function CalculateGrowth(current: Aggregate, previous: Aggregate, baseline: Baseline, fresh_: bool): Growth {
    var baselineKeys := if baseline.keys.Some? then baseline.keys.value else previous.keys;
    var cohortChanged := current.keys != previous.keys || current.keys != baselineKeys;
    var baseCorr := Or(baseline.correctable, previous.comparableCorrectable);
    var baseUncorr := Or(baseline.uncorrectable, previous.comparableUncorrectable);
    var baseRaw := Or(baseline.raw, previous.rawUncorrectable);
    var comparableReset :=
      || cohortChanged
      || Fell(Delta(current.comparableCorrectable, previous.comparableCorrectable))
      || Fell(Delta(current.comparableUncorrectable, previous.comparableUncorrectable))
      || Fell(Delta(current.comparableCorrectable, baseCorr))
      || Fell(Delta(current.comparableUncorrectable, baseUncorr));
    var rawReset :=
      || Fell(Delta(current.rawUncorrectable, previous.rawUncorrectable))
      || Fell(Delta(current.rawUncorrectable, baseRaw));
    var rebase, rawRebase := fresh_ || comparableReset, fresh_ || rawReset;
    var newCorr := if rebase then current.comparableCorrectable else baseCorr;
    var newUncorr := if rebase then current.comparableUncorrectable else baseUncorr;
    var newRaw := if rawRebase then current.rawUncorrectable else baseRaw;
    Growth(
      newCorr, newUncorr, newRaw,
      if rebase then ZeroIfKnown(newCorr) else Delta(current.comparableCorrectable, previous.comparableCorrectable),
      if rebase then ZeroIfKnown(newUncorr)
          else Delta(current.comparableUncorrectable, previous.comparableUncorrectable),
      if rawRebase then ZeroIfKnown(newRaw) else Delta(current.rawUncorrectable, previous.rawUncorrectable),
      if rebase then ZeroIfKnown(newCorr) else Delta(current.comparableCorrectable, newCorr),
      if rebase then ZeroIfKnown(newUncorr) else Delta(current.comparableUncorrectable, newUncorr),
      if rawRebase then ZeroIfKnown(newRaw) else Delta(current.rawUncorrectable, newRaw),
      current.keys, comparableReset && !fresh_, rawReset && !fresh_, fresh_)
  }

  ghost predicate NonNegative(delta: Option<int>) { delta.None? || delta.value >= 0 }

  /** Whatever was stored, every reported delta is None or non-negative, and the reported
      cumulative deltas are the distances from the reported baselines. */
  lemma DeltasNonNegative(current: Aggregate, previous: Aggregate, baseline: Baseline, fresh_: bool)
    ensures var g := CalculateGrowth(current, previous, baseline, fresh_);
            && NonNegative(g.correctableRecent) && NonNegative(g.uncorrectableRecent) && NonNegative(g.rawRecent)
            && NonNegative(g.correctableDelta) && NonNegative(g.uncorrectableDelta) && NonNegative(g.rawDelta)
            && g.correctableDelta == Delta(current.comparableCorrectable, g.correctableBaseline)
            && g.uncorrectableDelta == Delta(current.comparableUncorrectable, g.uncorrectableBaseline)
            && g.rawDelta == Delta(current.rawUncorrectable, g.rawBaseline)
  {
  }

  /** A counter that is lower than it was. */
  ghost predicate Dropped(now: Option<int>, before: Option<int>) {
    now.Some? && before.Some? && now.value < before.value
  }

  ghost predicate Otherwise(value: Option<int>, stored: Option<int>, previous: Option<int>) {
    value == stored || (stored.None? && value == previous)
  }

  /** The comparable counters are taken to have been reset exactly when the channels that have both
      are no longer those of the previous poll or of the stored baseline, or one of the two totals
      dropped below either; the raw counter, when its total did. A first poll resets nothing. */
  lemma ResetIff(current: Aggregate, previous: Aggregate, baseline: Baseline, fresh_: bool)
    ensures var g := CalculateGrowth(current, previous, baseline, fresh_);
            && g.keys == current.keys && g.schemaBaseline == fresh_
            && g.Stored() == Baseline(Some(current.keys), g.correctableBaseline, g.uncorrectableBaseline, g.rawBaseline)
            && (g.comparableReset <==>
                !fresh_ && (|| current.keys != previous.keys || baseline.keys !in {None, Some(current.keys)}
                            || Dropped(current.comparableCorrectable, previous.comparableCorrectable)
                            || Dropped(current.comparableCorrectable, baseline.correctable)
                            || Dropped(current.comparableUncorrectable, previous.comparableUncorrectable)
                            || Dropped(current.comparableUncorrectable, baseline.uncorrectable)))
            && (g.rawReset <==>
                !fresh_ && (|| Dropped(current.rawUncorrectable, previous.rawUncorrectable)
                            || Dropped(current.rawUncorrectable, baseline.raw)))
  {
  }

  /** A first poll or a reset makes the current counters the baseline; otherwise the stored baseline
      is kept, or where nothing is stored the previous poll's. */
  lemma BaselineIsKept(current: Aggregate, previous: Aggregate, baseline: Baseline, fresh_: bool)
    ensures var g := CalculateGrowth(current, previous, baseline, fresh_);
            && (if fresh_ || g.comparableReset
                then g.correctableBaseline == current.comparableCorrectable
                     && g.uncorrectableBaseline == current.comparableUncorrectable
                else Otherwise(g.correctableBaseline, baseline.correctable, previous.comparableCorrectable)
                     && Otherwise(g.uncorrectableBaseline, baseline.uncorrectable, previous.comparableUncorrectable))
            && (if fresh_ || g.rawReset then g.rawBaseline == current.rawUncorrectable
                else Otherwise(g.rawBaseline, baseline.raw, previous.rawUncorrectable))
  {
  }

  /** What was added since `before`; nothing after a restart of the count. */
  ghost predicate Since(growth: Option<int>, restarted: bool, now: Option<int>, before: Option<int>) {
    if restarted then growth == match now
                                case Some(_) => Some(0)
                                case None => None
    else if now.Some? && before.Some? then growth.Some? && before.value + growth.value == now.value
    else growth.None?
  }

  /** The recent growth is what was added since the previous poll. */
  lemma RecentIsSincePrevious(current: Aggregate, previous: Aggregate, baseline: Baseline, fresh_: bool)
    ensures var g := CalculateGrowth(current, previous, baseline, fresh_);
            var restarted := fresh_ || g.comparableReset;
            && Since(g.correctableRecent, restarted, current.comparableCorrectable, previous.comparableCorrectable)
            && Since(g.uncorrectableRecent, restarted, current.comparableUncorrectable,
                     previous.comparableUncorrectable)
            && Since(g.rawRecent, fresh_ || g.rawReset, current.rawUncorrectable, previous.rawUncorrectable)
  {
  }
}
