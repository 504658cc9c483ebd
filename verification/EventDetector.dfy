/** Health-change detection with hysteresis (app/event_detector.py).
    The mutable detector refines a statement about the whole history of polls. */
module EventDetection {
  import opened Orders

  /** The part of an analysis the health check reads: `summary["health"]`, which may be absent. */
  datatype Analysis = Analysis(health: Option<string>)

  datatype Severity = Info | Warning | Critical

  datatype Event =
    | MonitoringStarted(health: string)
    | HealthChange(prev: string, current: string, severity: Severity)

  function HealthOr(a: Analysis, default: string): string {
    if a.health.Some? then a.health.value else default
  }

  /** An analysis without a health is taken as the default says. */
  lemma HealthIsRead(health: string, default: string)
    ensures HealthOr(Analysis(Some(health)), default) == health
    ensures HealthOr(Analysis(None), default) == default
  {
  }

  function Level(health: string): nat {
    if health == "tolerated" then 1
    else if health == "marginal" then 2
    else if health == "critical" then 3
    else 0
  }

  function Change(prev: string, current: string): Event {
    HealthChange(prev, current,
                 if Level(current) <= Level(prev) then Info
                 else if current == "critical" then Critical
                 else Warning)
  }

  /** The healths from best to worst. */
  const HEALTHS: seq<string> := ["good", "tolerated", "marginal", "critical"]

  /** The severity of a change: getting better, or no worse, is information; getting worse is critical
      when it ends in "critical" and a warning otherwise. */
  lemma SeverityOfChange(i: nat, j: nat)
    requires i < 4 && j < 4
    ensures var e := Change(HEALTHS[i], HEALTHS[j]);
            && e.HealthChange? && e.prev == HEALTHS[i] && e.current == HEALTHS[j]
            && (j <= i ==> e.severity == Info)
            && (j > i ==> e.severity == if j == 3 then Critical else Warning)
  {
  }

  /** A health the detector does not know counts as good. */
  lemma UnknownCountsAsGood(unknown: string, known: string)
    requires unknown !in HEALTHS
    ensures Change(unknown, known).severity == Change("good", known).severity
    ensures Change(known, unknown).severity == Info
  {
    assert HEALTHS[1] in HEALTHS && HEALTHS[2] in HEALTHS && HEALTHS[3] in HEALTHS;
  }

  // ----- The specification: what a whole history of polls means -----

  /** `polls[e-n..e]` is a block of `n` equal healths. */
  ghost predicate BlockEndsAt(polls: seq<string>, e: int, n: nat) {
    n <= e <= |polls| && forall k | e - n <= k < e :: polls[k] == polls[e - 1]
  }

  /** The health confirmed by `polls` after `baseline`, asking for `n` polls in a row. */
  ghost function Confirmed(baseline: string, polls: seq<string>, n: nat): string
    requires n >= 1
  {
    if polls == [] then baseline
    else if BlockEndsAt(polls, |polls|, n) then polls[|polls| - 1]
    else Confirmed(baseline, polls[..|polls| - 1], n)
  }

  /** Length of the block of equal healths at the end of the history. */
  ghost function TrailingRun(polls: seq<string>): (r: nat)
    ensures r <= |polls| && (polls != [] ==> r >= 1)
    ensures BlockEndsAt(polls, |polls|, r)
    ensures r < |polls| ==> polls[|polls| - r - 1] != polls[|polls| - 1]
  {
    var n := |polls|;
    if n == 0 then 0
    else if n >= 2 && polls[n - 2] == polls[n - 1] then
      assert BlockEndsAt(polls[..n - 1], n - 1, TrailingRun(polls[..n - 1]));
      TrailingRun(polls[..n - 1]) + 1
    else 1
  }

  ghost function Pending(baseline: string, polls: seq<string>, n: nat): nat
    requires n >= 1
  {
    if polls == [] || polls[|polls| - 1] == Confirmed(baseline, polls, n) then 0
    else TrailingRun(polls)
  }

  /** What the detector reports: without hysteresis simply the latest health. */
  ghost function Reported(baseline: string, polls: seq<string>, n: nat): string {
    if n >= 2 then Confirmed(baseline, polls, n)
    else if polls == [] then baseline
    else polls[|polls| - 1]
  }

  /** The events a history gives rise to: one for each change of the reported health. */
  ghost function Changes(baseline: string, polls: seq<string>, n: nat): seq<Event> {
    if polls == [] then []
    else
      var earlier := polls[..|polls| - 1];
      var before, after := Reported(baseline, earlier, n), Reported(baseline, polls, n);
      Changes(baseline, earlier, n) + if before == after then [] else [Change(before, after)]
  }

  // ----- What the source promises, as laws of the specification -----

  /** Blocks that end before the last poll are those of the polls before it. */
  lemma EarlierBlocks(polls: seq<string>, e: int, n: nat)
    requires polls != [] && n >= 1 && !BlockEndsAt(polls, |polls|, n)
    ensures BlockEndsAt(polls[..|polls| - 1], e, n) <==> BlockEndsAt(polls, e, n)
  {
    var earlier := polls[..|polls| - 1];
    assert forall k | 0 <= k < |earlier| :: earlier[k] == polls[k];
  }

  /** The confirmed health is the value of the most recent block of `n` equal polls,
      and the baseline's health when there has been no such block. */
  lemma {:induction false} ConfirmedIsLatestBlock(baseline: string, polls: seq<string>, n: nat)
    requires n >= 1
    ensures (forall e :: !BlockEndsAt(polls, e, n)) ==> Confirmed(baseline, polls, n) == baseline
    ensures forall e | BlockEndsAt(polls, e, n) && (forall later | e < later :: !BlockEndsAt(polls, later, n)) ::
              Confirmed(baseline, polls, n) == polls[e - 1]
  {
    if polls != [] && !BlockEndsAt(polls, |polls|, n) {
      var earlier := polls[..|polls| - 1];
      ConfirmedIsLatestBlock(baseline, earlier, n);
      forall e ensures BlockEndsAt(earlier, e, n) == BlockEndsAt(polls, e, n) {
        EarlierBlocks(polls, e, n);
      }
    }
  }

  /** The pending count is the trailing run while it differs from the confirmed health,
      it never reaches `n`, and a full run of `n` always counts as confirmed. */
  lemma {:induction false} PendingBelowThreshold(baseline: string, polls: seq<string>, n: nat)
    requires n >= 1
    ensures Pending(baseline, polls, n) < n
    ensures TrailingRun(polls) >= n ==> Confirmed(baseline, polls, n) == polls[|polls| - 1]
  {
    if polls != [] && TrailingRun(polls) >= n {
      var r := TrailingRun(polls);
      assert BlockEndsAt(polls, |polls|, r);
      assert BlockEndsAt(polls, |polls|, n);
    }
  }

  ghost predicate Chained(baseline: string, events: seq<Event>, reported: string) {
    && (forall i | 0 <= i < |events| :: events[i].HealthChange? && events[i].prev != events[i].current)
    && (forall i | 0 < i < |events| :: events[i].prev == events[i - 1].current)
    && (if events == [] then baseline == reported
        else events[0].prev == baseline && events[|events| - 1].current == reported)
  }

  lemma ChainExtends(baseline: string, events: seq<Event>, before: string, after: string)
    requires Chained(baseline, events, before)
    ensures Chained(baseline, events + if before == after then [] else [Change(before, after)], after)
  {
    var longer := events + if before == after then [] else [Change(before, after)];
    assert forall i | 0 <= i < |events| :: longer[i] == events[i];
  }

  /** The emitted events form a chain from the baseline's health to the reported one. */
  lemma {:induction false} ChangesChain(baseline: string, polls: seq<string>, n: nat)
    ensures Chained(baseline, Changes(baseline, polls, n), Reported(baseline, polls, n))
  {
    if polls != [] {
      var earlier := polls[..|polls| - 1];
      ChangesChain(baseline, earlier, n);
      ChainExtends(baseline, Changes(baseline, earlier, n), Reported(baseline, earlier, n),
          Reported(baseline, polls, n));
    }
  }

  lemma ChangesOfOneMore(baseline: string, polls: seq<string>, x: string, n: nat)
    ensures var before, after := Reported(baseline, polls, n), Reported(baseline, polls + [x], n);
            Changes(baseline, polls + [x], n)
            == Changes(baseline, polls, n) + if before == after then [] else [Change(before, after)]
  {
    assert (polls + [x])[..|polls|] == polls;
  }

  /** One more poll, in terms of the counters the detector keeps. */
  lemma StepCounters(baseline: string, polls: seq<string>, x: string, n: nat)
    requires n >= 2
    ensures var c, p := Confirmed(baseline, polls, n), Pending(baseline, polls, n);
            var count := if p > 0 && polls[|polls| - 1] == x then p + 1 else 1;
            && (x == c ==> Confirmed(baseline, polls + [x], n) == c && Pending(baseline, polls + [x], n) == 0)
            && (x != c && count < n ==>
                  Confirmed(baseline, polls + [x], n) == c && Pending(baseline, polls + [x], n) == count)
            && (x != c && count >= n ==>
                  Confirmed(baseline, polls + [x], n) == x && Pending(baseline, polls + [x], n) == 0)
  {
    var next := polls + [x];
    assert next[..|next| - 1] == polls;
    PendingBelowThreshold(baseline, polls, n);
    PendingBelowThreshold(baseline, next, n);
    var r := TrailingRun(next);
    assert r == if polls != [] && polls[|polls| - 1] == x then TrailingRun(polls) + 1 else 1;
    if r < n <= |next| {
      assert next[|next| - r - 1] != next[|next| - 1];
    }
  }

  // ----- The detector itself -----

  class EventDetector {
    const hysteresis: nat
    var prev: Option<Analysis>
    var confirmed: Option<string>
    var pending: Option<string>
    var pendingCount: nat

    // The history the fields stand for: the baseline's health, the healths polled
    // since, and the health events emitted for them.
    ghost var baseline: string
    ghost var polls: seq<string>
    ghost var emitted: seq<Event>

    ghost predicate Valid()
      reads this
    {
      && (prev.None? ==> confirmed.None? && polls == [])
      && (prev.Some? ==>
            HealthOr(prev.value, "good") == if polls == [] then baseline else polls[|polls| - 1])
      && emitted == Changes(baseline, polls, hysteresis)
      && CountersMatch()
    }

    ghost predicate CountersMatch()
      reads this
    {
      if hysteresis < 2 then confirmed.None? && pending.None? && pendingCount == 0
      else
        && (if confirmed.None? then polls == [] else confirmed.value == Confirmed(baseline, polls, hysteresis))
        && pendingCount == Pending(baseline, polls, hysteresis)
        && pending == if pendingCount == 0 then None else Some(polls[|polls| - 1])
    }

    constructor (hysteresis: int, seeded: Option<Analysis>)
      ensures Valid() && this.hysteresis == Max(0, hysteresis)
      ensures polls == [] && prev == seeded
      ensures seeded.Some? ==> baseline == HealthOr(seeded.value, "good")
    {
      this.hysteresis := Max(0, hysteresis);
      prev, confirmed, pending, pendingCount := None, None, None, 0;
      baseline, polls, emitted := "good", [], [];
      new;
      Seed(seeded);
    }

    /** Replace the baseline by a persisted snapshot; pending evidence is dropped. */
    method Seed(analysis: Option<Analysis>)
      requires Valid()
      modifies this
      ensures Valid()
      ensures analysis.None? ==>
                prev == old(prev) && baseline == old(baseline) && polls == old(polls) && emitted == old(emitted)
                && confirmed == old(confirmed) && pending == old(pending) && pendingCount == old(pendingCount)
      ensures analysis.Some? ==>
                && prev == analysis && baseline == HealthOr(analysis.value, "good") && polls == [] && pendingCount == 0
                && confirmed == if hysteresis >= 2 then Some(baseline) else None
    {
      if analysis.None? {
        return;
      }
      prev := analysis;
      if hysteresis >= 2 {
        confirmed := Some(HealthOr(analysis.value, "good"));
      }
      pending, pendingCount := None, 0;
      baseline, polls, emitted := HealthOr(analysis.value, "good"), [], [];
    }

    /** One poll. The first one only becomes the baseline; every later one extends the
        history and emits a health event exactly when the reported health changes. */
    method Check(analysis: Analysis) returns (events: seq<Event>)
      requires Valid()
      modifies this
      ensures Valid() && prev == Some(analysis)
      ensures old(prev).None? ==>
                && events == [MonitoringStarted(HealthOr(analysis, "unknown"))]
                && baseline == HealthOr(analysis, "good") && polls == []
      ensures old(prev).Some? ==>
                && baseline == old(baseline) && polls == old(polls) + [HealthOr(analysis, "good")]
                && emitted == old(emitted) + events
                && events == var before := Reported(baseline, old(polls), hysteresis);
                             var after := Reported(baseline, polls, hysteresis);
                             if before == after then [] else [Change(before, after)]
    {
      var previous := prev;
      prev := Some(analysis);
      if previous.None? {
        baseline := HealthOr(analysis, "good");
        return [MonitoringStarted(HealthOr(analysis, "unknown"))];
      }
      ghost var was := polls;
      events := CheckHealth(HealthOr(analysis, "good"), HealthOr(previous.value, "good"));
      assert polls[..|polls| - 1] == was;
      assert events == emitted[|old(emitted)|..];
    }

    method CheckHealth(cur: string, prevHealth: string) returns (events: seq<Event>)
      requires prev.Some? && HealthOr(prev.value, "good") == cur
      requires prevHealth == if polls == [] then baseline else polls[|polls| - 1]
      requires emitted == Changes(baseline, polls, hysteresis)
      requires CountersMatch()
      modifies `confirmed, `pending, `pendingCount, `polls, `emitted
      ensures Valid() && polls == old(polls) + [cur] && emitted == old(emitted) + events
    {
      ChangesOfOneMore(baseline, polls, cur, hysteresis);
      if hysteresis < 2 {
        events := if cur != prevHealth then [Change(prevHealth, cur)] else [];
      } else {
        StepCounters(baseline, polls, cur, hysteresis);
        events := CountPoll(cur, prevHealth);
      }
      polls, emitted := polls + [cur], emitted + events;
    }

    /** Hysteresis mode: a different health is confirmed after `hysteresis` polls in a row. */
    method CountPoll(cur: string, prevHealth: string) returns (events: seq<Event>)
      modifies `confirmed, `pending, `pendingCount
      ensures var c := if old(confirmed).Some? then old(confirmed).value else prevHealth;
              var count := if old(pending) == Some(cur) then old(pendingCount) + 1 else 1;
              if cur == c then confirmed == Some(c) && pending.None? && pendingCount == 0 && events == []
              else if count < hysteresis then
                confirmed == Some(c) && pending == Some(cur) && pendingCount == count && events == []
              else confirmed == Some(cur) && pending.None? && pendingCount == 0 && events == [Change(c, cur)]
    {
      events := [];
      if confirmed.None? {
        confirmed := Some(prevHealth);
      }
      var c := confirmed.value;
      if cur == c {
        pending, pendingCount := None, 0;
        return;
      }
      if pending == Some(cur) {
        pendingCount := pendingCount + 1;
      } else {
        pending, pendingCount := Some(cur), 1;
      }
      if pendingCount >= hysteresis {
        events := [Change(c, cur)];
        confirmed := Some(cur);
        pending, pendingCount := None, 0;
      }
    }
  }
}
