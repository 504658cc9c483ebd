/** Scheduling state and back-off of one collector (app/collectors/base.py). */
module Collecting {
  import opened Orders

  const MAX_PENALTY_SECONDS := 3600
  const PENALTY_RESET_HOURS := 24

  datatype Outcome = Success | Failure | Skip

  datatype Recorded = Recorded(outcome: Outcome, at: real)

  function Doubled(base: nat, times: nat): nat { if times == 0 then base else 2 * Doubled(base, times - 1) }

  /** Back-off after `failures` failures in a row. */
  function Penalty(failures: nat): nat {
    if failures == 0 then 0 else Min(Doubled(30, failures - 1), MAX_PENALTY_SECONDS)
  }

  lemma {:induction false} DoubledGrows(base: nat, times: nat)
    requires base >= 1
    ensures Doubled(base, times) >= base + times
  {
    if times > 0 {
      DoubledGrows(base, times - 1);
    }
  }

  /** The penalty starts at 30 s, doubles up to the cap, and stays there from the eighth failure on. */
  lemma PenaltyLadder(failures: nat)
    ensures Penalty(0) == 0 && Penalty(1) == 30
    ensures failures >= 1 ==> Penalty(failures + 1) == Min(2 * Penalty(failures), MAX_PENALTY_SECONDS)
    ensures Penalty(failures) == MAX_PENALTY_SECONDS <==> failures >= 8
    ensures Penalty(failures) <= Penalty(failures + 1) <= MAX_PENALTY_SECONDS
  {
    assert Doubled(30, 6) == 1920 && Doubled(30, 7) == 3840 by {
      assert Doubled(30, 3) == 240;
    }
    if failures >= 8 {
      DoubledMonotone(30, 7, failures - 1);
    } else if failures >= 1 {
      DoubledMonotone(30, failures - 1, 6);
    }
  }

  lemma {:induction false} DoubledMonotone(base: nat, a: nat, b: nat)
    requires a <= b
    ensures Doubled(base, a) <= Doubled(base, b)
  {
    if a < b {
      DoubledMonotone(base, a, b - 1);
    }
  }

  /** Failures at the end of a history. */
  ghost function TrailingFailures(history: seq<Recorded>): (n: nat)
    ensures n <= |history|
  {
    if history == [] || history[|history| - 1].outcome != Failure then 0
    else TrailingFailures(history[..|history| - 1]) + 1
  }

  class Collector {
    const pollInterval: int
    var lastPoll: real
    var lastSuccess: real
    var pollSuccess: bool
    var consecutiveFailures: nat
    var lastFailureTime: real

    // Every recorded outcome, and how many of them a day of idleness has forgiven.
    ghost var history: seq<Recorded>
    ghost var forgiven: nat

    ghost predicate Valid()
      reads this
    {
      && forgiven <= |history|
      && consecutiveFailures == TrailingFailures(history[forgiven..])
      && lastPoll == (if history == [] then 0.0 else history[|history| - 1].at)
      && lastFailureTime == (if consecutiveFailures > 0 then lastPoll else 0.0)
      && pollSuccess == LatestVerdict(history)
    }

    constructor (pollInterval: int)
      ensures Valid() && history == [] && forgiven == 0 && this.pollInterval == pollInterval
    {
      this.pollInterval := pollInterval;
      lastPoll, lastSuccess, pollSuccess, consecutiveFailures, lastFailureTime := 0.0, 0.0, false, 0, 0.0;
      history, forgiven := [], 0;
    }

    ghost predicate Idle(now: real)
      reads this
    {
      consecutiveFailures > 0 && lastFailureTime > 0.0 &&
      (now - lastFailureTime) / 3600.0 >= PENALTY_RESET_HOURS as real
    }

    /** Reading the penalty may itself forgive the failures after a day of idleness. */
    method PenaltySeconds(now: real) returns (penalty: nat)
      requires Valid()
      modifies `consecutiveFailures, `lastFailureTime, `forgiven
      ensures Valid()
      ensures penalty == if old(Idle(now)) then 0 else Penalty(old(consecutiveFailures))
      ensures penalty == Penalty(consecutiveFailures) <= MAX_PENALTY_SECONDS
      ensures forgiven == if old(Idle(now)) then |history| else old(forgiven)
    {
      if consecutiveFailures > 0 && lastFailureTime > 0.0 {
        var idleHours := (now - lastFailureTime) / 3600.0;
        if idleHours >= PENALTY_RESET_HOURS as real {
          consecutiveFailures, lastFailureTime := 0, 0.0;
          forgiven := |history|;
          return 0;
        }
      }
      penalty := Penalty(consecutiveFailures);
    }

    /** Due once the interval and the penalty have passed, hence at the latest
        `pollInterval + 3600` seconds after the last recorded outcome. */
    method ShouldPoll(now: real) returns (due: bool)
      requires Valid()
      modifies `consecutiveFailures, `lastFailureTime, `forgiven
      ensures Valid()
      ensures due <==> now - lastPoll >= (pollInterval + Penalty(consecutiveFailures)) as real
      ensures history != [] && now - history[|history| - 1].at >= (pollInterval + MAX_PENALTY_SECONDS) as real ==> due
      ensures TrailingFailures(history) == 0 && now - lastPoll >= pollInterval as real ==> due
    {
      var penalty := PenaltySeconds(now);
      due := now - lastPoll >= (pollInterval + penalty) as real;
      SuffixTrails(history, forgiven);
    }

    method RecordSuccess(now: real)
      requires Valid()
      modifies this
      ensures Valid() && history == old(history) + [Recorded(Success, now)] && forgiven == old(forgiven)
      ensures consecutiveFailures == 0 && pollSuccess && lastSuccess == now
    {
      consecutiveFailures, lastFailureTime := 0, 0.0;
      lastPoll, lastSuccess, pollSuccess := now, now, true;
      Extend(Recorded(Success, now));
    }

    method RecordSkip(now: real)
      requires Valid()
      modifies this
      ensures Valid() && history == old(history) + [Recorded(Skip, now)] && forgiven == old(forgiven)
      ensures consecutiveFailures == 0 && pollSuccess == old(pollSuccess) && lastSuccess == old(lastSuccess)
    {
      consecutiveFailures, lastFailureTime, lastPoll := 0, 0.0, now;
      Extend(Recorded(Skip, now));
    }

    method RecordFailure(now: real)
      requires Valid()
      modifies this
      ensures Valid() && history == old(history) + [Recorded(Failure, now)] && forgiven == old(forgiven)
      ensures consecutiveFailures == old(consecutiveFailures) + 1 && !pollSuccess && lastSuccess == old(lastSuccess)
    {
      pollSuccess, consecutiveFailures := false, consecutiveFailures + 1;
      lastFailureTime, lastPoll := now, now;
      Extend(Recorded(Failure, now));
    }

    ghost method Extend(entry: Recorded)
      requires forgiven <= |history|
      modifies `history
      ensures history == old(history) + [entry]
      ensures TrailingFailures(history[forgiven..]) ==
              if entry.outcome == Failure then TrailingFailures(old(history)[forgiven..]) + 1 else 0
      ensures LatestVerdict(history) ==
              if entry.outcome == Skip then LatestVerdict(old(history)) else entry.outcome == Success
    {
      ghost var suffix := history[forgiven..];
      history := history + [entry];
      assert history[forgiven..] == suffix + [entry];
      assert (suffix + [entry])[..|suffix|] == suffix;
      assert history[..|history| - 1] == old(history);
    }
  }

  /** Whether the latest outcome that was not a skip was a success. */
  ghost predicate LatestVerdict(history: seq<Recorded>) {
    history != [] &&
    var last := history[|history| - 1].outcome;
    last == Success || (last == Skip && LatestVerdict(history[..|history| - 1]))
  }

  lemma {:induction false} SuffixTrails(history: seq<Recorded>, k: nat)
    requires k <= |history|
    ensures TrailingFailures(history[k..]) <= TrailingFailures(history)
  {
    if k < |history| {
      assert history[k..][..|history| - k - 1] == history[..|history| - 1][k..];
      SuffixTrails(history[..|history| - 1], k);
    }
  }
}
