/** Scoring uncorrectable errors by their growth since an observed baseline (app/analyzer.py),
    poll after poll, and what the stored baselines mean over a whole run. */
module CumulativeBaseline {
  import opened Orders
  import opened ErrorCounters
  import opened Rounding

  const ANALYZER_SCHEMA_VERSION := 3

  // ----- One poll -----

  datatype Thresholds = Thresholds(warning: real, critical: real, minCodewords: int)

  /** What a suppression leaves behind: the age of the spike in hours, to one decimal, and the
      expiry it was measured against. */
  datatype Suppression = Suppression(hoursSince: real, expiryHours: real)

  /** The parts of an analysis summary that scoring reads and rewrites. */
  datatype Summary = Summary(
    uncorrPct: Option<real>,
    issues: seq<string>,
    growth: Option<Growth>,
    baseline: Option<Baseline>,
    health: string,
    suppression: Option<Suppression>)

  /** `sub in s` */
  predicate Contains(s: string, sub: string) { sub <= s || (s != [] && Contains(s[1..], sub)) }

  predicate UncorrIssue(issue: string) { Contains(issue, "uncorr") }

  function Others(issues: seq<string>): seq<string> {
    if issues == [] then []
    else
      var n := |issues| - 1;
      Others(issues[..n]) + if UncorrIssue(issues[n]) then [] else [issues[n]]
  }

  /** `_recalculate_summary_health` */
  function HealthOf(issues: seq<string>): string {
    if issues == [] then "good"
    else if Mention(issues, "critical") then "critical"
    else if Mention(issues, "marginal") then "marginal"
    else "tolerated"
  }

  predicate Mention(issues: seq<string>, word: string) { exists i :: i in issues && Contains(i, word) }

  /** The health follows from the issues alone: the gravest word mentioned decides. */
  lemma HealthByIssues(issues: seq<string>)
    ensures issues == [] <==> HealthOf(issues) == "good"
    ensures HealthOf(issues) == "critical" <==> exists i :: i in issues && Contains(i, "critical")
    ensures HealthOf(issues) == "marginal" <==>
            (exists i :: i in issues && Contains(i, "marginal")) && forall i | i in issues :: !Contains(i, "critical")
    ensures HealthOf(issues) in {"good", "tolerated", "marginal", "critical"}
  {
    if issues != [] {
      assert issues[0] in issues;
    }
  }

  /** `sub in s`: somewhere `s` goes on with `sub`. */
  lemma {:induction false} ContainsMeans(s: string, sub: string)
    ensures Contains(s, sub) <==> exists k | 0 <= k <= |s| :: sub <= s[k..]
  {
    if sub <= s {
      assert s[0..] == s;
    } else if s != [] {
      ContainsMeans(s[1..], sub);
      if Contains(s[1..], sub) {
        var k :| 0 <= k <= |s[1..]| && sub <= s[1..][k..];
        assert s[1..][k..] == s[k + 1..];
      }
      if k: int :| 0 <= k <= |s| && sub <= s[k..] {
        assert s[0..] == s;
        assert s[1..][k - 1..] == s[k..];
      }
    }
  }

  /** Uncorrectable-error issues are those that mention them. */
  lemma UncorrIssueMeans(issue: string)
    ensures UncorrIssue(issue) <==> exists k | 0 <= k <= |issue| :: "uncorr" <= issue[k..]
  {
    ContainsMeans(issue, "uncorr");
  }

  function IssueFor(pct: Option<real>, t: Thresholds): seq<string> {
    if pct.None? then []
    else if pct.value >= t.critical then ["uncorr_errors_critical"]
    else if pct.value >= t.warning then ["uncorr_errors_high"]
    else []
  }

  lemma IssueForIsPenalty(pct: Option<real>, t: Thresholds)
    ensures |IssueFor(pct, t)| <= 1 && forall i | i in IssueFor(pct, t) :: UncorrIssue(i)
    ensures IssueFor(pct, t) != [] <==> pct.Some? && (pct.value >= t.critical || pct.value >= t.warning)
  {
    assert "uncorr" <= "uncorr_errors_critical" && "uncorr" <= "uncorr_errors_high";
  }

  /** The summary after scoring a growth; None when the percentage divides by zero. */
  function Scored(s: Summary, g: Growth, t: Thresholds): Option<Summary> {
    var p := UncorrectablePercentage(g.correctableDelta, g.uncorrectableDelta, t.minCodewords);
    if p.DivisionByZero? then None
    else
      var pct := if p.Percent? then Some(p.value) else None;
      var issues := Others(s.issues) + IssueFor(pct, t);
      Some(Summary(pct, issues, Some(g), Some(g.Stored()), HealthOf(issues), s.suppression))
  }

  lemma OthersOfOneMore(a: seq<string>, x: string)
    ensures Others(a + [x]) == Others(a) + if UncorrIssue(x) then [] else [x]
  {
    assert (a + [x])[..|a|] == a;
  }

  lemma {:induction false} OthersMembers(issues: seq<string>)
    ensures forall x :: x in Others(issues) <==> x in issues && !UncorrIssue(x)
  {
    if issues != [] {
      var n := |issues| - 1;
      OthersMembers(issues[..n]);
      assert issues == issues[..n] + [issues[n]];
    }
  }

  /** Some issue is an uncorrectable-error one. */
  ghost predicate Penalized(issues: seq<string>) { exists i :: i in issues && UncorrIssue(i) }

  lemma {:induction false} OthersOfClean(a: seq<string>)
    requires !Penalized(a)
    ensures Others(a) == a
  {
    if a != [] {
      var n := |a| - 1;
      assert a == a[..n] + [a[n]];
      assert a[n] in a && forall i | i in a[..n] :: i in a;
      OthersOfClean(a[..n]);
    }
  }

  lemma OthersIdempotent(a: seq<string>)
    ensures Others(Others(a)) == Others(a)
  {
    OthersMembers(a);
    OthersOfClean(Others(a));
  }

  lemma OthersWithPenalty(kept: seq<string>, added: seq<string>)
    requires |added| <= 1 && forall i | i in added :: UncorrIssue(i)
    ensures Others(kept + added) == Others(kept)
  {
    if added == [] {
      assert kept + added == kept;
    } else {
      OthersOfOneMore(kept, added[0]);
      assert added == [added[0]];
    }
  }

  lemma OthersOfScored(s: Summary, g: Growth, t: Thresholds)
    requires Scored(s, g, t).Some?
    ensures Others(Scored(s, g, t).value.issues) == Others(s.issues)
  {
    var added := IssueFor(Scored(s, g, t).value.uncorrPct, t);
    IssueForIsPenalty(Scored(s, g, t).value.uncorrPct, t);
    OthersWithPenalty(Others(s.issues), added);
    OthersIdempotent(s.issues);
  }

  /** Scoring touches only uncorrectable-error issues, and the health is the one the remaining
      issues give. With a codeword minimum of at least 1 it cannot divide by zero. */
  lemma ScoringIsLocal(s: Summary, g: Growth, t: Thresholds)
    requires t.minCodewords >= 1 && NonNegative(g.correctableDelta) && NonNegative(g.uncorrectableDelta)
    ensures var r := Scored(s, g, t);
            && r.Some?
            && Others(r.value.issues) == Others(s.issues)
            && r.value.health == HealthOf(r.value.issues)
            && r.value.baseline == Some(g.Stored())
  {
    OthersOfScored(s, g, t);
  }

  ghost predicate Stagnant(delta: Option<int>) { delta.None? || delta.value == 0 }

  /** The penalty of a scored summary is the percentage reaching a threshold, nothing else. */
  lemma PenalizedIffAboveThreshold(s: Summary, g: Growth, t: Thresholds)
    requires Scored(s, g, t).Some?
    ensures var r := Scored(s, g, t).value;
            Penalized(r.issues) <==>
            r.uncorrPct.Some? && (r.uncorrPct.value >= t.critical || r.uncorrPct.value >= t.warning)
  {
    var r := Scored(s, g, t).value;
    var added := IssueFor(r.uncorrPct, t);
    IssueForIsPenalty(r.uncorrPct, t);
    OthersMembers(s.issues);
    assert forall i | i in added :: i in r.issues;
    assert added != [] ==> added[0] in added;
  }

  /** Which issue it is: the critical one from the critical threshold on, which makes the health
      critical, and the high one between the thresholds. */
  lemma IssueNamesThreshold(s: Summary, g: Growth, t: Thresholds)
    requires Scored(s, g, t).Some?
    ensures var r := Scored(s, g, t).value;
            var pct := r.uncorrPct;
            && ("uncorr_errors_critical" in r.issues <==> pct.Some? && pct.value >= t.critical)
            && ("uncorr_errors_high" in r.issues <==> pct.Some? && pct.value < t.critical && pct.value >= t.warning)
            && (pct.Some? && pct.value >= t.critical ==> r.health == "critical")
  {
    var r := Scored(s, g, t).value;
    var added := IssueFor(r.uncorrPct, t);
    IssueNames();
    OthersMembers(s.issues);
    assert forall i | i in added :: i in r.issues;
    if added != [] {
      assert added[0] in r.issues;
    }
  }

  lemma IssueNames()
    ensures UncorrIssue("uncorr_errors_critical") && UncorrIssue("uncorr_errors_high")
    ensures Contains("uncorr_errors_critical", "critical")
  {
    assert "uncorr" <= "uncorr_errors_critical" && "uncorr" <= "uncorr_errors_high";
    ContainsAfter("uncorr_errors_", "critical");
    assert "uncorr_errors_" + "critical" == "uncorr_errors_critical";
  }

  lemma {:induction false} ContainsAfter(before: string, sub: string)
    ensures Contains(before + sub, sub)
  {
    if before == [] {
      assert before + sub == sub;
    } else {
      assert (before + sub)[1..] == before[1..] + sub;
      ContainsAfter(before[1..], sub);
    }
  }

  /** Counters that have not grown score 0.0 or nothing. Whether an uncorrectable-error issue
      then remains is decided by the thresholds alone: none does exactly when the growth is
      unknown or both thresholds are positive, whatever the raw totals are. */
  lemma StagnantIsNotScored(s: Summary, g: Growth, t: Thresholds)
    requires t.minCodewords >= 1 && Stagnant(g.correctableDelta) && Stagnant(g.uncorrectableDelta)
    ensures var r := Scored(s, g, t);
            && r.Some?
            && (r.value.uncorrPct == None || r.value.uncorrPct == Some(0.0))
            && (!Penalized(r.value.issues) <==>
                r.value.uncorrPct == None || (t.warning > 0.0 && t.critical > 0.0))
  {
    PenalizedIffAboveThreshold(s, g, t);
  }

  function AsPercentage(pct: Option<real>): Percentage { if pct.Some? then Percent(pct.value) else Unknown }

  /** The percentage of a scored summary is the share of the uncorrectable codewords in the growth,
      and scoring fails exactly where there is none. */
  lemma ScoredIsShare(s: Summary, g: Growth, t: Thresholds)
    ensures var r := Scored(s, g, t);
            IsShare(if r.None? then DivisionByZero else AsPercentage(r.value.uncorrPct),
                    g.correctableDelta, g.uncorrectableDelta, t.minCodewords)
  {
    PercentageIsShare(g.correctableDelta, g.uncorrectableDelta, t.minCodewords);
  }

  /** Without uncorrectable growth nothing is penalised while the thresholds are positive. */
  lemma NoGrowthNoPenalty(s: Summary, g: Growth, t: Thresholds)
    requires Scored(s, g, t).Some? && Stagnant(g.uncorrectableDelta) && NonNegative(g.correctableDelta)
    requires t.warning > 0.0 && t.critical > 0.0
    ensures !Penalized(Scored(s, g, t).value.issues)
  {
    ScoredIsShare(s, g, t);
    PenalizedIffAboveThreshold(s, g, t);
  }

  /** The baseline has seen uncorrectable errors since the previous snapshot. */
  predicate NewGrowth(s: Summary) {
    s.growth.Some? && s.growth.value.uncorrectableRecent.Some? && s.growth.value.uncorrectableRecent.value != 0
  }

  predicate Expired(hoursSinceSpike: Option<real>, expiryHours: real) {
    hoursSinceSpike.Some? && hoursSinceSpike.value >= expiryHours
  }

  ghost function Severity(health: string): nat {
    if health == "good" then 0 else if health == "tolerated" then 1 else if health == "marginal" then 2 else 3
  }

  /** The healths from best to worst. */
  const HEALTHS: seq<string> := ["good", "tolerated", "marginal", "critical"]

  lemma SeveritiesAscend(i: nat, j: nat)
    requires i < 4 && j < 4
    ensures Severity(HEALTHS[i]) < Severity(HEALTHS[j]) <==> i < j
  {
  }

  /** `tenths` tenths are the nearest to `x`. */
  ghost predicate NearestTenths(tenths: int, x: real) { -0.5 <= tenths as real - 10.0 * x <= 0.5 }

  lemma MentionedByOthers(issues: seq<string>, word: string)
    ensures Mention(Others(issues), word) ==> Mention(issues, word)
  {
    OthersMembers(issues);
  }

  /** Dropping the uncorrectable-error issues never makes the health worse. */
  lemma DroppingOnlyImproves(issues: seq<string>)
    ensures Severity(HealthOf(Others(issues))) <= Severity(HealthOf(issues))
    ensures HealthOf(Others(issues)) == "good" <==> forall i | i in issues :: UncorrIssue(i)
  {
    MentionedByOthers(issues, "critical");
    MentionedByOthers(issues, "marginal");
    OthersMembers(issues);
    if Others(issues) == [] {
      assert forall i | i in issues && !UncorrIssue(i) :: i in Others(issues);
    } else {
      assert Others(issues)[0] in issues;
    }
  }

  class Analysis {
    const dsChannels: seq<Channel>
    const schema: Option<int>
    const comparableProvenance: bool
    var summary: Summary

    constructor (dsChannels: seq<Channel>, schema: Option<int>, comparableProvenance: bool, summary: Summary)
      ensures this.dsChannels == dsChannels && this.schema == schema
      ensures this.comparableProvenance == comparableProvenance && this.summary == summary
    {
      this.dsChannels, this.schema, this.comparableProvenance := dsChannels, schema, comparableProvenance;
      this.summary := summary;
    }

    ghost function GrowthSince(previous: Analysis): Growth
      reads previous
    {
      CalculateGrowth(AggregateOf(dsChannels), AggregateOf(previous.dsChannels),
                      if previous.summary.baseline.Some? then previous.summary.baseline.value else NO_BASELINE,
                      previous.schema != Some(ANALYZER_SCHEMA_VERSION) || !previous.comparableProvenance)
    }

    lemma GrowthIsNonNegative(previous: Analysis)
      ensures NonNegative(GrowthSince(previous).correctableDelta)
    {
      DeltasNonNegative(AggregateOf(dsChannels), AggregateOf(previous.dsChannels),
                        if previous.summary.baseline.Some? then previous.summary.baseline.value else NO_BASELINE,
                        previous.schema != Some(ANALYZER_SCHEMA_VERSION) || !previous.comparableProvenance);
    }

    /** Scores the growth since `previous`, in place. Without a predecessor, in an active spike
        window, or when the percentage divides by zero, the summary is left as it was. */
    method ApplyCumulativeErrorBaseline(previous: Analysis?, recentSpikeActive: bool, t: Thresholds)
      returns (raised: bool)
      modifies this
      ensures recentSpikeActive || previous == null ==> !raised && summary == old(summary)
      ensures !recentSpikeActive && previous != null ==>
                var scored := Scored(old(summary), old(GrowthSince(previous)), t);
                if scored.None? then raised && summary == old(summary) else !raised && summary == scored.value
      ensures !recentSpikeActive && previous != null ==>
                var growth := old(GrowthSince(previous));
                IsShare(if raised then DivisionByZero else AsPercentage(summary.uncorrPct),
                        growth.correctableDelta, growth.uncorrectableDelta, t.minCodewords)
    {
      if recentSpikeActive || previous == null {
        return false;
      }
      var current := AggregateErrorCounters(dsChannels);
      var before := AggregateErrorCounters(previous.dsChannels);
      var baseline := if previous.summary.baseline.Some? then previous.summary.baseline.value else NO_BASELINE;
      var growth := CalculateGrowth(current, before, baseline,
                                    previous.schema != Some(ANALYZER_SCHEMA_VERSION) || !previous.comparableProvenance);
      var pct := UncorrectablePercentage(growth.correctableDelta, growth.uncorrectableDelta, t.minCodewords);
      if pct.DivisionByZero? {
        return true;
      }
      ScoredIsShare(summary, growth, t);
      var known := if pct.Percent? then Some(pct.value) else None;
      var issues := Others(summary.issues);
      issues := issues + IssueFor(known, t);
      summary := Summary(known, issues, Some(growth), Some(growth.Stored()), HealthOf(issues), summary.suppression);
      raised := false;
    }

    /** Before the expiry window has passed nothing changes. After it the old penalty is dropped,
        with every trace of it in the percentage, the issues and the health, unless the counters
        have grown since the previous snapshot and that growth still shows as an issue. */
    method ApplySpikeSuppression(hoursSinceSpike: Option<real>, expiryHours: real)
      modifies this
      ensures !Expired(hoursSinceSpike, expiryHours) ==> summary == old(summary)
      ensures Expired(hoursSinceSpike, expiryHours) ==>
                (Penalized(summary.issues) <==> Penalized(old(summary).issues) && NewGrowth(old(summary)))
                && if Penalized(summary.issues) then summary == old(summary)
                   else
                     && Others(summary.issues) == Others(old(summary).issues)
                     && (old(summary).uncorrPct.None? ==> summary.uncorrPct == None)
                     && (old(summary).uncorrPct.Some? ==> summary.uncorrPct == Some(0.0))
                     && summary.health == HealthOf(summary.issues)
                     && summary.suppression.Some? && summary.suppression.value.expiryHours == expiryHours
                     && (exists n :: NearestTenths(n, hoursSinceSpike.value)
                                     && n as real / 10.0 == summary.suppression.value.hoursSince)
                     && summary.growth == old(summary).growth && summary.baseline == old(summary).baseline
      ensures Others(summary.issues) == Others(old(summary).issues)
    {
      if hoursSinceSpike.None? || hoursSinceSpike.value < expiryHours {
        return;
      }
      if NewGrowth(summary) && exists i :: i in summary.issues && UncorrIssue(i) {
        return;
      }
      OthersMembers(summary.issues);
      OthersIdempotent(summary.issues);
      var issues := Others(summary.issues);
      var hours := RoundHalfEven(hoursSinceSpike.value * 10.0) as real / 10.0;
      RoundingIsNearest(hoursSinceSpike.value * 10.0);
      assert NearestTenths(RoundHalfEven(hoursSinceSpike.value * 10.0), hoursSinceSpike.value);
      summary := summary.(uncorrPct := if summary.uncorrPct.Some? then Some(0.0) else None, issues := issues,
                          suppression := Some(Suppression(hours, expiryHours)), health := HealthOf(issues));
    }

    /** One poll: scoring, then suppression, each with its own reading of the clock. Once a spike
        has expired, an uncorrectable-error issue is reported exactly when the growth since the
        baseline reaches a threshold and some of it is newer than the previous snapshot. */
    method ScorePoll(previous: Analysis?, hoursAtScoring: Option<real>, hoursAfter: Option<real>, expiryHours: real,
                     t: Thresholds)
      returns (raised: bool)
      modifies this
      ensures !raised ==> Others(summary.issues) == Others(old(summary).issues)
      ensures !raised && previous != null && Expired(hoursAtScoring, expiryHours)
              && Expired(hoursAfter, expiryHours) ==>
                var growth := old(GrowthSince(previous));
                var scored := Scored(old(summary), growth, t);
                && scored.Some? && summary.baseline == Some(growth.Stored())
                && (Penalized(summary.issues) <==>
                    var pct := scored.value.uncorrPct;
                    && pct.Some? && (pct.value >= t.critical || pct.value >= t.warning)
                    && growth.uncorrectableRecent.Some? && growth.uncorrectableRecent.value != 0)
      ensures !raised && previous != null && (hoursAtScoring.Some? ==> Expired(hoursAtScoring, expiryHours))
              && t.warning > 0.0 && t.critical > 0.0 && Stagnant(old(GrowthSince(previous)).uncorrectableDelta) ==>
                !Penalized(summary.issues)
    {
      var active := hoursAtScoring.Some? && hoursAtScoring.value < expiryHours;
      ghost var growth := if previous != null then Some(GrowthSince(previous)) else None;
      ghost var before := summary;
      raised := ApplyCumulativeErrorBaseline(previous, active, t);
      if raised {
        return;
      }
      if growth.Some? && !active {
        PenalizedIffAboveThreshold(before, growth.value, t);
        OthersOfScored(before, growth.value, t);
        GrowthIsNonNegative(previous);
        if Stagnant(growth.value.uncorrectableDelta) && t.warning > 0.0 && t.critical > 0.0 {
          NoGrowthNoPenalty(before, growth.value, t);
        }
      }
      ApplySpikeSuppression(hoursAfter, expiryHours);
    }
  }

  // ----- Whole runs -----

  /** What a stored snapshot contributes to the next one. */
  datatype Poll = Poll(counters: Aggregate, spikeActive: bool, schema: Option<int>, comparableProvenance: bool)

  /** The comparable totals of an aggregate are unknown exactly when its cohort is empty,
      as they are in every aggregate of channels. */
  ghost predicate Coherent(run: seq<Poll>) {
    forall p | p in run ::
      && (p.counters.comparableCorrectable.None? <==> p.counters.keys == [])
      && (p.counters.comparableUncorrectable.None? <==> p.counters.keys == [])
  }

  lemma PolledChannelsAreCoherent(run: seq<Poll>)
    requires forall p | p in run :: exists channels :: p.counters == AggregateOf(channels)
    ensures Coherent(run)
  {
    forall p | p in run
      ensures p.counters.comparableCorrectable.None? <==> p.counters.keys == []
      ensures p.counters.comparableUncorrectable.None? <==> p.counters.keys == []
    {
      var channels :| p.counters == AggregateOf(channels);
      NoneMeansUnsupported(channels);
    }
  }

  /** The growth each poll of a run stores: none for the first and for one in a spike window. */
  function Growths(run: seq<Poll>): (gs: seq<Option<Growth>>)
    ensures |gs| == |run|
  {
    if run == [] then []
    else
      var n := |run| - 1;
      var earlier := Growths(run[..n]);
      earlier + [if n == 0 || run[n].spikeActive then None else Some(GrowthOf(run[n - 1], run[n], earlier[n - 1]))]
  }

  function GrowthOf(last: Poll, cur: Poll, before: Option<Growth>): Growth {
    CalculateGrowth(cur.counters, last.counters, if before.Some? then before.value.Stored() else NO_BASELINE,
                    last.schema != Some(ANALYZER_SCHEMA_VERSION) || !last.comparableProvenance)
  }

  /** `p` is what `a` contributes to a run. */
  ghost predicate Contributes(a: Analysis, p: Poll) {
    && p.counters == AggregateOf(a.dsChannels) && p.schema == a.schema
    && p.comparableProvenance == a.comparableProvenance
  }

  /** A run follows the growth that scoring takes: `before` is what the previous analysis stored. */
  lemma RunFollowsScoring(current: Analysis, previous: Analysis, p: Poll, q: Poll, before: Option<Growth>)
    requires Contributes(previous, p) && Contributes(current, q)
    requires previous.summary.baseline == match before
                                          case Some(g) => Some(g.Stored())
                                          case None => None
    ensures current.GrowthSince(previous) == GrowthOf(p, q, before)
  {
  }

  /** The three counters a growth follows; the first two belong to the comparable cohort. */
  datatype Series = Corr | Uncorr | Raw

  /** What one poll's growth says about one series. `rebased` is a schema change, a counter
      reset or a new cohort. */
  datatype Link = Link(baseline: Option<int>, recent: Option<int>, cumulative: Option<int>, rebased: bool)

  function TotalIn(p: Poll, series: Series): Option<int> {
    match series
    case Corr => p.counters.comparableCorrectable
    case Uncorr => p.counters.comparableUncorrectable
    case Raw => p.counters.rawUncorrectable
  }

  function LinkIn(g: Growth, series: Series): Link {
    match series
    case Corr =>
      Link(g.correctableBaseline, g.correctableRecent, g.correctableDelta, g.schemaBaseline || g.comparableReset)
    case Uncorr =>
      Link(g.uncorrectableBaseline, g.uncorrectableRecent, g.uncorrectableDelta, g.schemaBaseline || g.comparableReset)
    case Raw => Link(g.rawBaseline, g.rawRecent, g.rawDelta, g.schemaBaseline || g.rawReset)
  }

  function Totals(run: seq<Poll>, series: Series): (ts: seq<Option<int>>)
    ensures |ts| == |run|
  {
    seq(|run|, i requires 0 <= i < |run| => TotalIn(run[i], series))
  }

  function Links(run: seq<Poll>, series: Series): (ls: seq<Option<Link>>)
    ensures |ls| == |run|
  {
    var gs := Growths(run);
    seq(|run|, i requires 0 <= i < |run| => if gs[i].Some? then Some(LinkIn(gs[i].value, series)) else None)
  }

  /** One poll, seen from one series: it starts over, or continues the predecessor's baseline. */
  ghost predicate Continues(last: Option<int>, total: Option<int>, before: Option<Link>, l: Link) {
    if l.rebased then l.baseline == total && l.recent == l.cumulative == ZeroIfKnown(total)
    else
      && l.recent == Delta(total, last)
      && l.cumulative == Delta(total, l.baseline)
      && l.baseline == Or(if before.Some? then before.value.baseline else None, last)
  }

  ghost predicate Linked(ts: seq<Option<int>>, ls: seq<Option<Link>>) {
    && |ts| == |ls|
    && (ls != [] ==> ls[0].None?)
    && forall i | 0 < i < |ls| && ls[i].Some? :: Continues(ts[i - 1], ts[i], ls[i - 1], ls[i].value)
  }

  lemma GrowthContinues(last: Poll, cur: Poll, before: Option<Growth>, series: Series)
    ensures var l := LinkIn(GrowthOf(last, cur, before), series);
            && Continues(TotalIn(last, series), TotalIn(cur, series),
                         if before.Some? then Some(LinkIn(before.value, series)) else None, l)
            && (!l.rebased && !series.Raw? ==> cur.counters.keys == last.counters.keys)
  {
  }

  /** Every growth of a run is calculated from the poll before it. */
  lemma {:induction false} GrowthsAt(run: seq<Poll>, i: nat)
    requires i < |run|
    ensures Growths(run)[i] ==
            if i == 0 || run[i].spikeActive then None
            else Some(GrowthOf(run[i - 1], run[i], Growths(run)[i - 1]))
  {
    var n := |run| - 1;
    if i < n {
      GrowthsAt(run[..n], i);
    }
  }

  lemma RunIsLinked(run: seq<Poll>, series: Series)
    ensures Linked(Totals(run, series), Links(run, series))
  {
    var ts, ls := Totals(run, series), Links(run, series);
    if run != [] {
      GrowthsAt(run, 0);
    }
    forall i | 0 < i < |ls| && ls[i].Some? ensures Continues(ts[i - 1], ts[i], ls[i - 1], ls[i].value) {
      GrowthsAt(run, i);
      GrowthContinues(run[i - 1], run[i], Growths(run)[i - 1], series);
    }
  }

  /** A poll that continues its predecessor's comparable baseline has its cohort. */
  lemma LinkKeepsCohort(run: seq<Poll>, series: Series, i: nat)
    requires 0 < i < |run| && !series.Raw?
    requires Links(run, series)[i].Some? && !Links(run, series)[i].value.rebased
    ensures run[i].counters.keys == run[i - 1].counters.keys
  {
    GrowthsAt(run, i);
    GrowthContinues(run[i - 1], run[i], Growths(run)[i - 1], series);
  }

  /** A fresh baseline of a series: rebased, or no predecessor baseline to continue. */
  predicate Fresh(ls: seq<Option<Link>>, i: nat)
    requires 0 < i < |ls| && ls[i].Some?
  {
    ls[i - 1].None? || ls[i].value.rebased
  }

  function LastFresh(ls: seq<Option<Link>>, i: nat): (k: nat)
    requires i < |ls| && ls[i].Some? && ls[0].None?
    ensures 1 <= k <= i
    ensures forall j | k <= j <= i :: ls[j].Some? && (Fresh(ls, j) <==> j == k)
  {
    if Fresh(ls, i) then i else LastFresh(ls, i - 1)
  }

  /** The poll whose counters are the baseline: the fresh one itself if it was rebased, or its
      predecessor when only the predecessor's baseline was missing. */
  function Origin(ls: seq<Option<Link>>, i: nat): (o: nat)
    requires i < |ls| && ls[i].Some? && ls[0].None?
    ensures o <= i
  {
    var k := LastFresh(ls, i);
    if ls[k].value.rebased then k else k - 1
  }

  function Plus(a: Option<int>, b: Option<int>): Option<int> {
    if a.None? || b.None? then None else Some(a.value + b.value)
  }

  /** The sum of the recent deltas of polls `k` to `i`; unknown if one of them is. */
  ghost function SumRecent(ls: seq<Option<Link>>, k: nat, i: nat): Option<int>
    requires k <= i < |ls|
    requires forall j | k <= j <= i :: ls[j].Some?
  {
    if i == k then ls[i].value.recent else Plus(SumRecent(ls, k, i - 1), ls[i].value.recent)
  }

  predicate PresentThroughout(ts: seq<Option<int>>, o: nat, i: nat)
    requires o <= i < |ts|
  {
    forall j | o <= j <= i :: ts[j].Some?
  }

  /** While the series is present in the baseline's poll, that poll stays its baseline. */
  lemma {:induction false} BaselineIsOrigin(ts: seq<Option<int>>, ls: seq<Option<Link>>, i: nat)
    requires Linked(ts, ls) && i < |ls| && ls[i].Some?
    requires ts[Origin(ls, i)].Some?
    ensures ls[i].value.baseline == ts[Origin(ls, i)]
    ensures ls[i].value.cumulative == Delta(ts[i], ts[Origin(ls, i)])
  {
    assert Continues(ts[i - 1], ts[i], ls[i - 1], ls[i].value);
    if !Fresh(ls, i) {
      BaselineIsOrigin(ts, ls, i - 1);
    }
  }

  lemma DeltasCompose(a: Option<int>, b: Option<int>, c: Option<int>)
    ensures Plus(Delta(b, a), Delta(c, b)) == if b.Some? then Delta(c, a) else None
  {
  }

  lemma FreshRecent(ts: seq<Option<int>>, ls: seq<Option<Link>>, i: nat)
    requires Linked(ts, ls) && i < |ls| && ls[i].Some? && Fresh(ls, i)
    ensures var o := Origin(ls, i);
            ls[i].value.recent == if PresentThroughout(ts, o, i) then Delta(ts[i], ts[o]) else None
  {
    assert Continues(ts[i - 1], ts[i], ls[i - 1], ls[i].value);
  }

  /** A poll that is not fresh lengthens the stretch of its predecessor. */
  lemma StretchGrows(ts: seq<Option<int>>, ls: seq<Option<Link>>, i: nat)
    requires Linked(ts, ls) && i < |ls| && ls[i].Some? && !Fresh(ls, i)
    ensures LastFresh(ls, i) == LastFresh(ls, i - 1) && Origin(ls, i) == Origin(ls, i - 1)
    ensures var k := LastFresh(ls, i);
            SumRecent(ls, k, i) == Plus(SumRecent(ls, k, i - 1), Delta(ts[i], ts[i - 1]))
  {
    assert Continues(ts[i - 1], ts[i], ls[i - 1], ls[i].value);
  }

  /** The recent deltas of a stretch add up to the distance between its ends, and their sum is
      known exactly when the series is present in every snapshot of the stretch. */
  lemma {:induction false} RecentsAddUp(ts: seq<Option<int>>, ls: seq<Option<Link>>, i: nat)
    requires Linked(ts, ls) && i < |ls| && ls[i].Some?
    ensures var o := Origin(ls, i);
            SumRecent(ls, LastFresh(ls, i), i) ==
            if PresentThroughout(ts, o, i) then Delta(ts[i], ts[o]) else None
  {
    if Fresh(ls, i) {
      FreshRecent(ts, ls, i);
    } else {
      RecentsAddUp(ts, ls, i - 1);
      StretchGrows(ts, ls, i);
      var o := Origin(ls, i - 1);
      DeltasCompose(ts[o], ts[i - 1], ts[i]);
      OneMorePresent(ts, o, i);
    }
  }

  lemma OneMorePresent(ts: seq<Option<int>>, o: nat, i: nat)
    requires o < i < |ts|
    ensures PresentThroughout(ts, o, i) <==> PresentThroughout(ts, o, i - 1) && ts[i].Some?
  {
  }

  lemma {:induction false} StretchSharesCohort(run: seq<Poll>, ls: seq<Option<Link>>, i: nat)
    requires |ls| == |run| && i < |ls| && ls[0].None? && ls[i].Some?
    requires forall j | 0 < j < |run| && ls[j].Some? && !ls[j].value.rebased ::
               run[j].counters.keys == run[j - 1].counters.keys
    ensures forall j | Origin(ls, i) <= j <= i :: run[j].counters.keys == run[i].counters.keys
  {
    if !Fresh(ls, i) {
      StretchSharesCohort(run, ls, i - 1);
    }
  }

  /** Growth telescopes: along any run of polls, a comparable cumulative delta is the sum of the
      recent deltas since the last fresh baseline, and also the distance from that baseline's
      poll; and every poll of the stretch has the cohort of the current one. */
  lemma ComparableGrowthTelescopes(run: seq<Poll>, i: nat, series: Series)
    requires i < |run| && Coherent(run) && Growths(run)[i].Some? && !series.Raw?
    ensures Links(run, series)[0].None?
    ensures var ts, ls := Totals(run, series), Links(run, series);
            var k, o := LastFresh(ls, i), Origin(ls, i);
            && ls[i].value.cumulative == SumRecent(ls, k, i) == Delta(ts[i], ts[o])
            && forall j | o <= j <= i :: run[j].counters.keys == run[i].counters.keys
  {
    var ts, ls := Totals(run, series), Links(run, series);
    RunIsLinked(run, series);
    var o := Origin(ls, i);
    forall j | 0 < j < |run| && ls[j].Some? && !ls[j].value.rebased
      ensures run[j].counters.keys == run[j - 1].counters.keys
    {
      LinkKeepsCohort(run, series, j);
    }
    StretchSharesCohort(run, ls, i);
    forall j | o <= j <= i ensures ts[j].Some? <==> run[i].counters.keys != [] {
      assert run[j] in run;
    }
    RecentsAddUp(ts, ls, i);
    if run[i].counters.keys != [] {
      BaselineIsOrigin(ts, ls, i);
    } else {
      assert Continues(ts[i - 1], ts[i], ls[i - 1], ls[i].value);
    }
  }

  /** The raw total behaves the same way while it is present; a snapshot without it leaves the
      distance from the baseline's poll but breaks the sum of the recent deltas. */
  lemma RawGrowthTelescopes(run: seq<Poll>, i: nat)
    requires i < |run| && Growths(run)[i].Some?
    ensures Links(run, Raw)[0].None?
    ensures var ts, ls := Totals(run, Raw), Links(run, Raw);
            var k, o := LastFresh(ls, i), Origin(ls, i);
            ts[o].Some? && ts[i].Some? ==>
              && ls[i].value.cumulative == Delta(ts[i], ts[o])
              && (ls[i].value.cumulative == SumRecent(ls, k, i) <==> PresentThroughout(ts, o, i))
  {
    var ts, ls := Totals(run, Raw), Links(run, Raw);
    RunIsLinked(run, Raw);
    RecentsAddUp(ts, ls, i);
    if ts[Origin(ls, i)].Some? {
      BaselineIsOrigin(ts, ls, i);
    }
  }

  /** Along a run, counters that have not grown since the fresh baseline are never scored. */
  lemma StagnantRunIsNotScored(run: seq<Poll>, i: nat, s: Summary, t: Thresholds)
    requires i < |run| && Coherent(run) && Growths(run)[i].Some? && t.minCodewords >= 1
    requires Links(run, Corr)[0].None? && Links(run, Uncorr)[0].None?
    requires Totals(run, Corr)[i] == Totals(run, Corr)[Origin(Links(run, Corr), i)]
    requires Totals(run, Uncorr)[i] == Totals(run, Uncorr)[Origin(Links(run, Uncorr), i)]
    ensures var r := Scored(s, Growths(run)[i].value, t);
            && r.Some?
            && (r.value.uncorrPct == None || r.value.uncorrPct == Some(0.0))
            && (t.warning > 0.0 && t.critical > 0.0 ==> !Penalized(r.value.issues))
            && Others(r.value.issues) == Others(s.issues)
            && r.value.health == HealthOf(r.value.issues)
  {
    var g := Growths(run)[i].value;
    ComparableGrowthTelescopes(run, i, Corr);
    ComparableGrowthTelescopes(run, i, Uncorr);
    assert Stagnant(LinkIn(g, Corr).cumulative) && Stagnant(LinkIn(g, Uncorr).cumulative);
    StagnantIsNotScored(s, g, t);
    ScoringIsLocal(s, g, t);
  }
}
