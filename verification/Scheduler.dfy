/** The polling loop, its worker threads, manual polls and driver hot-swaps (app/main.py,
    app/blueprints/polling_bp.py) as one transition system over their atomic steps. */
module Scheduling {
  import opened Orders
  import opened Collecting

  /** How a run ended. `Busy` is the run that did not get the collect lock; `NoResult` is a
      `collect()` that returned None, which the loop cannot tell from `Busy`. */
  datatype Ending = Busy | Returned(success: bool) | NoResult | Transient | Raised

  datatype Phase = Waiting | Collecting | Releasing(ending: Ending) | Done(ending: Ending)

  /** Scheduled runs are identified by their future, manual polls by their request. */
  datatype Tid = Worker(future: nat) | Manual(request: nat)

  datatype Thread = Thread(collector: nat, phase: Phase) {
    predicate Holds() { phase.Collecting? || phase.Releasing? }
  }

  datatype State = State(
    names: map<nat, string>,          // collector objects ever created, by identity
    collectors: seq<nat>,             // the current list
    modem: Option<nat>,
    inFlight: map<nat, nat>,          // future -> the collector it was submitted for
    threads: map<Tid, Thread>,
    locks: map<nat, Tid>,             // held collect locks
    submitted: nat,
    records: map<nat, seq<Outcome>>)  // what each future has had recorded, on its own collector

  datatype Step =
    | Process(future: nat)
    | HotSwap(replacement: nat)
    | Submit(collector: nat)
    | ManualPoll(request: nat)
    | Acquire(t: Tid)
    | CollectEnds(t: Tid, ending: Ending)
    | Release(t: Tid)

  /** What `_process_in_flight` records for a finished run. */
  function Verdict(ending: Ending): seq<Outcome> {
    match ending
    case Busy => []
    case NoResult => []
    case Returned(success) => [if success then Success else Failure]
    case Transient => [Skip]
    case Raised => [Failure]
  }

  predicate NameBusy(s: State, name: string) {
    exists f | f in s.inFlight :: s.inFlight[f] in s.names && s.names[s.inFlight[f]] == name
  }

  function Replace(collectors: seq<nat>, old_: nat, new_: nat): (r: seq<nat>)
    ensures |r| == |collectors|
    ensures forall i | 0 <= i < |r| :: r[i] == if collectors[i] == old_ then new_ else collectors[i]
  {
    if collectors == [] then []
    else [if collectors[0] == old_ then new_ else collectors[0]] + Replace(collectors[1..], old_, new_)
  }

  function At(s: State, t: Tid, phase: Phase): State
    requires t in s.threads
  {
    s.(threads := s.threads[t := s.threads[t].(phase := phase)])
  }

  /** One atomic step; a step that is not enabled leaves the state alone. */
  function Next(s: State, step: Step): State {
    match step
    case Process(f) =>
      if f in s.inFlight && Worker(f) in s.threads && s.threads[Worker(f)].phase.Done? && f in s.records then
        s.(inFlight := s.inFlight - {f},
           records := s.records[f := s.records[f] + Verdict(s.threads[Worker(f)].phase.ending)])
      else s
    case HotSwap(n) =>
      if s.modem.Some? && s.modem.value in s.names && s.names[s.modem.value] == "modem" && n !in s.names then
        s.(names := s.names[n := "modem"], modem := Some(n),
           collectors := Replace(s.collectors, s.modem.value, n))
      else s
    case Submit(c) =>
      if c in s.collectors && c in s.names && !NameBusy(s, s.names[c]) then
        s.(inFlight := s.inFlight[s.submitted := c], submitted := s.submitted + 1,
           threads := s.threads[Worker(s.submitted) := Thread(c, Waiting)],
           records := s.records[s.submitted := []])
      else s
    case ManualPoll(r) =>
      if s.modem.Some? && Manual(r) !in s.threads then
        s.(threads := s.threads[Manual(r) := Thread(s.modem.value, Waiting)])
      else s
    case Acquire(t) =>
      if t in s.threads && s.threads[t].phase.Waiting? then
        var c := s.threads[t].collector;
        if c in s.locks then At(s, t, Done(Busy))
        else At(s, t, Collecting).(locks := s.locks[c := t])
      else s
    case CollectEnds(t, ending) =>
      if t in s.threads && s.threads[t].phase.Collecting? && !ending.Busy? then At(s, t, Releasing(ending)) else s
    case Release(t) =>
      if t in s.threads && s.threads[t].phase.Releasing? then
        At(s, t, Done(s.threads[t].phase.ending)).(locks := s.locks - {s.threads[t].collector})
      else s
  }

  /** The collect lock decides: who finds it free collects under it, and who finds it taken has ended
      without collecting, and changed nothing else. */
  lemma LockDecides(s: State, t: Tid)
    requires t in s.threads && s.threads[t].phase.Waiting?
    ensures var c, after := s.threads[t].collector, Next(s, Acquire(t));
            && (c !in s.locks ==> after == At(s, t, Collecting).(locks := s.locks[c := t]))
            && (c in s.locks ==> after == At(s, t, Done(Busy)))
  {
  }

  /** The loop starts with its discovered collectors and nothing in flight. */
  ghost predicate Initial(s: State) {
    && (forall c | c in s.collectors :: c in s.names)
    && (s.modem.Some? ==> s.modem.value in s.collectors)
    && s.inFlight == map[] && s.threads == map[] && s.locks == map[] && s.submitted == 0 && s.records == map[]
  }

  function Run(s: State, steps: seq<Step>): State {
    if steps == [] then s else Next(Run(s, steps[..|steps| - 1]), steps[|steps| - 1])
  }

  // ----- Names and the size of the pool -----

  ghost function ListedNames(s: State): set<string> {
    set c | c in s.collectors && c in s.names :: s.names[c]
  }

  /** Runs in flight have different names, all of them names of listed collectors. */
  ghost predicate NamesInv(s: State) {
    && (forall c | c in s.collectors :: c in s.names)
    && (s.modem.Some? ==> s.modem.value in s.names)
    && (forall f | f in s.inFlight ::
          f < s.submitted && s.inFlight[f] in s.names && s.names[s.inFlight[f]] in ListedNames(s))
    && (forall f, g | f in s.inFlight && g in s.inFlight && s.names[s.inFlight[f]] == s.names[s.inFlight[g]] :: f == g)
  }

  lemma SwapKeepsNames(s: State, n: nat)
    requires NamesInv(s) && s.modem.Some? && s.names[s.modem.value] == "modem" && n !in s.names
    ensures ListedNames(Next(s, HotSwap(n))) == ListedNames(s)
  {
    var s', m := Next(s, HotSwap(n)), s.modem.value;
    forall name ensures name in ListedNames(s') <==> name in ListedNames(s) {
      if name in ListedNames(s) {
        var c :| c in s.collectors && s.names[c] == name;
        var i :| 0 <= i < |s.collectors| && s.collectors[i] == c;
        assert s'.collectors[i] in s'.collectors && s'.names[s'.collectors[i]] == name;
      }
      if name in ListedNames(s') {
        var c :| c in s'.collectors && c in s'.names && s'.names[c] == name;
        var i :| 0 <= i < |s'.collectors| && s'.collectors[i] == c;
        assert s.collectors[i] in s.collectors && s.names[s.collectors[i]] == name;
      }
    }
  }

  lemma NextKeepsNames(s: State, step: Step)
    requires NamesInv(s)
    ensures NamesInv(Next(s, step)) && |Next(s, step).collectors| == |s.collectors|
  {
    var s' := Next(s, step);
    if step.HotSwap? && s' != s {
      SwapKeepsNames(s, step.replacement);
    } else {
      UnswappedKeepsListed(s, step);
    }
  }

  lemma UnswappedKeepsListed(s: State, step: Step)
    requires !step.HotSwap? || Next(s, step) == s
    ensures Next(s, step).names == s.names && Next(s, step).collectors == s.collectors && Next(s, step).modem == s.modem
    ensures ListedNames(Next(s, step)) == ListedNames(s)
  {
  }

  lemma {:induction false} FewNames(names: map<nat, string>, collectors: seq<nat>)
    ensures |set c | c in collectors && c in names :: names[c]| <= |collectors|
  {
    var all := set c | c in collectors && c in names :: names[c];
    if collectors == [] {
      assert all == {};
    } else {
      var rest := set c | c in collectors[1..] && c in names :: names[c];
      FewNames(names, collectors[1..]);
      if collectors[0] in names {
        assert all == rest + {names[collectors[0]]};
      } else {
        assert all == rest;
      }
    }
  }

  lemma {:induction false} InjectiveImage(flights: map<nat, nat>, names: map<nat, string>, all: set<string>)
    requires forall f | f in flights :: flights[f] in names && names[flights[f]] in all
    requires forall f, g | f in flights && g in flights && names[flights[f]] == names[flights[g]] :: f == g
    ensures |flights| <= |all|
    decreases |flights|
  {
    if flights != map[] {
      var f :| f in flights;
      var rest := flights - {f};
      assert |rest| == |flights| - 1 by {
        assert rest.Keys == flights.Keys - {f};
      }
      InjectiveImage(rest, names, all - {names[flights[f]]});
    }
  }

  // ----- Collect locks -----

  /** A collect lock is held by exactly the thread that is collecting or about to release. */
  ghost predicate LocksInv(s: State) {
    && (forall c | c in s.locks ::
          s.locks[c] in s.threads && s.threads[s.locks[c]].Holds() && s.threads[s.locks[c]].collector == c)
    && (forall t | t in s.threads && s.threads[t].Holds() ::
          s.threads[t].collector in s.locks && s.locks[s.threads[t].collector] == t)
    && (forall f: nat | Worker(f) in s.threads :: f < s.submitted)
  }

  lemma NextKeepsLocks(s: State, step: Step)
    requires LocksInv(s)
    ensures LocksInv(Next(s, step))
  {
    match step
    case Process(_) =>
    case HotSwap(_) =>
    case Submit(c) => OpenedKeepsLocks(s, Next(s, step));
    case ManualPoll(_) => OpenedKeepsLocks(s, Next(s, step));
    case Acquire(t) =>
      if t in s.threads && s.threads[t].phase.Waiting? {
        AcquireKeepsLocks(s, t);
      }
    case CollectEnds(_, _) =>
    case Release(t) =>
      if t in s.threads && s.threads[t].phase.Releasing? {
        ReleaseKeepsLocks(s, t);
      }
  }

  /** New waiting threads hold nothing. */
  lemma OpenedKeepsLocks(s: State, s': State)
    requires LocksInv(s) && s'.locks == s.locks && s.submitted <= s'.submitted
    requires forall t | t in s.threads :: t in s'.threads && s'.threads[t] == s.threads[t]
    requires forall t | t in s'.threads && t !in s.threads :: s'.threads[t].phase.Waiting?
    requires forall f: nat | Worker(f) in s'.threads :: f < s'.submitted
    ensures LocksInv(s')
  {
  }

  lemma AcquireKeepsLocks(s: State, t: Tid)
    requires LocksInv(s) && t in s.threads && s.threads[t].phase.Waiting?
    ensures LocksInv(Next(s, Acquire(t)))
  {
  }

  lemma ReleaseKeepsLocks(s: State, t: Tid)
    requires LocksInv(s) && t in s.threads && s.threads[t].phase.Releasing?
    ensures LocksInv(Next(s, Release(t)))
  {
  }

  // ----- Records -----

  /** A future is in flight until its run is done and recorded, and it is recorded once. */
  ghost predicate RecordsInv(s: State) {
    && (forall f: nat :: f in s.records <==> f < s.submitted)
    && (forall f: nat :: Worker(f) in s.threads <==> f < s.submitted)
    && (forall f | f in s.inFlight ::
          f < s.submitted && s.records[f] == [] && s.inFlight[f] == s.threads[Worker(f)].collector)
    && (forall f: nat | f < s.submitted && f !in s.inFlight ::
          s.threads[Worker(f)].phase.Done? && s.records[f] == Verdict(s.threads[Worker(f)].phase.ending))
  }

  lemma NextKeepsRecords(s: State, step: Step)
    requires RecordsInv(s)
    ensures RecordsInv(Next(s, step))
  {
    match step
    case Process(f) => ProcessKeepsRecords(s, f);
    case HotSwap(_) =>
    case Submit(c) => SubmitKeepsRecords(s, c);
    case ManualPoll(r) => PollAdvances(s, r);
    case Acquire(t) => AcquireAdvances(s, t);
    case CollectEnds(t, ending) => EndAdvances(s, t, ending);
    case Release(t) => ReleaseAdvances(s, t);
  }

  lemma PollAdvances(s: State, r: nat)
    requires RecordsInv(s)
    ensures RecordsInv(Next(s, ManualPoll(r)))
  {
    AdvanceKeepsRecords(s, Next(s, ManualPoll(r)), Manual(r));
  }

  lemma AcquireAdvances(s: State, t: Tid)
    requires RecordsInv(s)
    ensures RecordsInv(Next(s, Acquire(t)))
  {
    AdvanceKeepsRecords(s, Next(s, Acquire(t)), t);
  }

  lemma EndAdvances(s: State, t: Tid, ending: Ending)
    requires RecordsInv(s)
    ensures RecordsInv(Next(s, CollectEnds(t, ending)))
  {
    AdvanceKeepsRecords(s, Next(s, CollectEnds(t, ending)), t);
  }

  lemma ReleaseAdvances(s: State, t: Tid)
    requires RecordsInv(s)
    ensures RecordsInv(Next(s, Release(t)))
  {
    AdvanceKeepsRecords(s, Next(s, Release(t)), t);
  }

  /** A thread that is not done moves on, or a manual one appears. */
  ghost predicate Advances(s: State, s': State, t: Tid) {
    && s'.inFlight == s.inFlight && s'.records == s.records && s'.submitted == s.submitted
    && (forall u | u != t ::
          (u in s'.threads <==> u in s.threads) && (u in s.threads ==> s'.threads[u] == s.threads[u]))
    && (t.Worker? ==> (t in s'.threads <==> t in s.threads))
    && (t in s.threads ==> t in s'.threads && s'.threads[t].collector == s.threads[t].collector)
    && (t in s.threads && s.threads[t].phase.Done? ==> s'.threads[t] == s.threads[t])
  }

  lemma ProcessKeepsRecords(s: State, f: nat)
    requires RecordsInv(s)
    ensures RecordsInv(Next(s, Process(f)))
  {
  }

  lemma SubmitKeepsRecords(s: State, c: nat)
    requires RecordsInv(s)
    ensures RecordsInv(Next(s, Submit(c)))
  {
  }

  lemma AdvanceKeepsRecords(s: State, s': State, t: Tid)
    requires RecordsInv(s) && Advances(s, s', t)
    ensures RecordsInv(s')
  {
  }

  // ----- The theorem -----

  ghost predicate Inv(s: State) { NamesInv(s) && LocksInv(s) && RecordsInv(s) }

  lemma {:induction false} RunKeepsInv(s: State, steps: seq<Step>)
    requires Initial(s)
    ensures Inv(Run(s, steps)) && |Run(s, steps).collectors| == |s.collectors|
  {
    if steps != [] {
      var earlier := Run(s, steps[..|steps| - 1]);
      RunKeepsInv(s, steps[..|steps| - 1]);
      NextKeepsNames(earlier, steps[|steps| - 1]);
      NextKeepsLocks(earlier, steps[|steps| - 1]);
      NextKeepsRecords(earlier, steps[|steps| - 1]);
    }
  }

  /** In every interleaving of ticks, workers, manual polls and hot-swaps: runs in flight have
      different names and never outnumber the pool's workers (one per collector at the start),
      and no collector object is inside two `collect()` calls. */
  lemma SchedulerSafety(s0: State, steps: seq<Step>)
    requires Initial(s0)
    ensures var s := Run(s0, steps);
            && (forall f, g | f in s.inFlight && g in s.inFlight && f != g ::
                  s.inFlight[f] in s.names && s.inFlight[g] in s.names
                  && s.names[s.inFlight[f]] != s.names[s.inFlight[g]])
            && |s.inFlight| <= |s0.collectors|
            && (forall t, u | t in s.threads && u in s.threads && s.threads[t].phase.Collecting?
                              && s.threads[u].phase.Collecting?
                              && s.threads[t].collector == s.threads[u].collector :: t == u)
  {
    var s := Run(s0, steps);
    RunKeepsInv(s0, steps);
    FewNames(s.names, s.collectors);
    InjectiveImage(s.inFlight, s.names, ListedNames(s));
  }

  /** Every scheduled run that got its lock and finished is either still waiting to be processed,
      with nothing recorded, or has been recorded exactly once: as a success, a failure or a skip
      according to how it ended. A run that ended without a result is the one exception. */
  lemma RecordedExactlyOnce(s0: State, steps: seq<Step>, f: nat)
    requires Initial(s0)
    ensures var s := Run(s0, steps);
            f < s.submitted ==>
              && f in s.records && Worker(f) in s.threads
              && (f in s.inFlight ==> s.records[f] == [])
              && (f !in s.inFlight ==>
                    s.threads[Worker(f)].phase.Done?
                    && var ending := s.threads[Worker(f)].phase.ending;
                    && (|s.records[f]| == 1 <==> ending != Busy && ending != NoResult)
                    && |s.records[f]| <= 1
                    && (s.records[f] == [Success] <==> ending == Returned(true))
                    && (s.records[f] == [Failure] <==> ending == Returned(false) || ending == Raised)
                    && (s.records[f] == [Skip] <==> ending == Transient))
  {
    RunKeepsInv(s0, steps);
  }

  /** The first run: submitted from the initial state, with the lock of its collector. */
  lemma FirstRun(s0: State, c: nat)
    requires Initial(s0) && c in s0.collectors
    ensures Run(s0, [Submit(c), Acquire(Worker(0))])
            == s0.(inFlight := map[0 := c], submitted := 1, threads := map[Worker(0) := Thread(c, Collecting)],
                   locks := map[c := Worker(0)], records := map[0 := []])
  {
    RunOfTwo(s0, Submit(c), Acquire(Worker(0)));
    assert !NameBusy(s0, s0.names[c]);
    var s1 := Next(s0, Submit(c));
    assert s1 == s0.(inFlight := map[0 := c], submitted := 1, threads := map[Worker(0) := Thread(c, Waiting)],
                     records := map[0 := []]);
  }

  /** A run that has collected, releases its lock and is processed. */
  lemma RunFinishes(s: State, f: nat, ending: Ending)
    requires f in s.inFlight && Worker(f) in s.threads && f in s.records && !ending.Busy?
    requires s.threads[Worker(f)].phase.Collecting?
    ensures var s' := Next(Next(Next(s, CollectEnds(Worker(f), ending)), Release(Worker(f))), Process(f));
            && f !in s'.inFlight && f in s'.records && s'.records[f] == s.records[f] + Verdict(ending)
            && Worker(f) in s'.threads && s'.threads[Worker(f)].phase == Done(ending)
  {
  }

  /** The exception can be reached: a `collect()` that returns None is forgotten unrecorded, and
      so leaves the collector due again at once. */
  lemma NoResultIsUnrecorded(s0: State, c: nat)
    requires Initial(s0) && c in s0.collectors
    ensures var w := Worker(0);
            var s := Run(s0, [Submit(c), Acquire(w)] + [CollectEnds(w, NoResult)] + [Release(w)] + [Process(0)]);
            && 0 !in s.inFlight && 0 in s.records && s.records[0] == []
            && w in s.threads && s.threads[w].phase == Done(NoResult)
  {
    var w, start := Worker(0), [Submit(c), Acquire(Worker(0))];
    FirstRun(s0, c);
    RunFinishes(Run(s0, start), 0, NoResult);
    RunOfMore(s0, start, CollectEnds(w, NoResult));
    RunOfMore(s0, start + [CollectEnds(w, NoResult)], Release(w));
    RunOfMore(s0, start + [CollectEnds(w, NoResult)] + [Release(w)], Process(0));
  }

  lemma RunOfMore(s: State, steps: seq<Step>, step: Step)
    ensures Run(s, steps + [step]) == Next(Run(s, steps), step)
  {
    assert (steps + [step])[..|steps|] == steps;
  }

  lemma RunOfTwo(s: State, a: Step, b: Step)
    ensures Run(s, [a, b]) == Next(Next(s, a), b)
  {
    assert Run(s, []) == s;
    RunOfMore(s, [], a);
    assert [] + [a] == [a];
    RunOfMore(s, [a], b);
    assert [a] + [b] == [a, b];
  }

  /** Two scheduled runs of the same name never overlap, even across a hot-swap: the old
      driver's run must have been processed before the new driver's can be submitted. */
  lemma SameNameRunsDoNotOverlap(s0: State, steps: seq<Step>, f: nat, g: nat)
    requires Initial(s0)
    ensures var s := Run(s0, steps);
            f < s.submitted && g < s.submitted && f != g
            && Worker(f) in s.threads && Worker(g) in s.threads
            && s.threads[Worker(f)].phase.Collecting? && s.threads[Worker(g)].phase.Collecting?
            ==> s.threads[Worker(f)].collector in s.names && s.threads[Worker(g)].collector in s.names
                && s.names[s.threads[Worker(f)].collector] != s.names[s.threads[Worker(g)].collector]
  {
    RunKeepsInv(s0, steps);
  }

  // ----- Two runs of one name -----

  ghost predicate Together(s: State, t: Tid, u: Tid) {
    && t in s.threads && u in s.threads && t != u
    && s.threads[t].phase.Collecting? && s.threads[u].phase.Collecting?
    && s.threads[t].collector in s.names && s.threads[u].collector in s.names
    && s.names[s.threads[t].collector] == s.names[s.threads[u].collector]
  }

  /** Two threads are inside `collect()` of collectors with one name. */
  ghost predicate Overlap(s: State) { exists t, u :: Together(s, t, u) }

  ghost predicate Reaches(s0: State, steps: seq<Step>) { Overlap(Run(s0, steps)) }

  /** They are on different collector objects, and at least one of them is a manual poll. */
  lemma OverlapIsManual(s0: State, steps: seq<Step>, t: Tid, u: Tid)
    requires Initial(s0) && Together(Run(s0, steps), t, u)
    ensures var s := Run(s0, steps);
            s.threads[t].collector != s.threads[u].collector && (t.Manual? || u.Manual?)
  {
    RunKeepsInv(s0, steps);
    if t.Worker? && u.Worker? {
      SameNameRunsDoNotOverlap(s0, steps, t.future, u.future);
    }
  }

  /** Manual polls go to a collector that can be replaced, or that shares its name. */
  ghost predicate CanOverlap(s: State) {
    s.modem.Some? && s.modem.value in s.names
    && (s.names[s.modem.value] == "modem"
        || exists c :: c in s.collectors && c in s.names && c != s.modem.value && s.names[c] == s.names[s.modem.value])
  }

  /** A poll by hand collects beside a scheduled run of the same name in some run of the loop
      exactly when the modem's collector can be hot-swapped or shares its name: the collect lock
      belongs to the object, not to the name. */
  lemma OverlapIff(s0: State)
    requires Initial(s0)
    ensures (exists steps :: Reaches(s0, steps)) <==> CanOverlap(s0)
  {
    if CanOverlap(s0) {
      var m := s0.modem.value;
      if s0.names[m] == "modem" {
        var n := FreshId(s0.names.Keys);
        var steps := SwapOverlaps(s0, n, 0);
        assert Reaches(s0, steps);
      } else {
        var c :| c in s0.collectors && c in s0.names && c != m && s0.names[c] == s0.names[m];
        var steps := SharedNameOverlaps(s0, c);
        assert Reaches(s0, steps);
      }
    } else {
      forall steps ensures !Reaches(s0, steps) {
        NoOverlap(s0, steps);
      }
    }
  }

  /** A manual poll of a collector whose lock is free collects at once. */
  lemma ManualCollects(s: State, r: nat)
    requires s.modem.Some? && s.modem.value !in s.locks && Manual(r) !in s.threads
    ensures var s' := Next(Next(s, ManualPoll(r)), Acquire(Manual(r)));
            s'.threads == s.threads[Manual(r) := Thread(s.modem.value, Collecting)] && s'.names == s.names
  {
    var s1 := Next(s, ManualPoll(r));
    assert s1 == s.(threads := s.threads[Manual(r) := Thread(s.modem.value, Waiting)]);
  }

  /** The new driver is polled by hand while the old driver's scheduled run still collects. */
  lemma SwapOverlaps(s0: State, n: nat, r: nat) returns (steps: seq<Step>)
    requires Initial(s0) && s0.modem.Some? && s0.names[s0.modem.value] == "modem" && n !in s0.names
    ensures steps == [Submit(s0.modem.value), Acquire(Worker(0))] + [HotSwap(n)] + [ManualPoll(r)]
            + [Acquire(Manual(r))]
    ensures Together(Run(s0, steps), Worker(0), Manual(r))
  {
    var m := s0.modem.value;
    var start := [Submit(m), Acquire(Worker(0))];
    steps := start + [HotSwap(n)] + [ManualPoll(r)] + [Acquire(Manual(r))];
    FirstRun(s0, m);
    RunOfMore(s0, start, HotSwap(n));
    RunOfMore(s0, start + [HotSwap(n)], ManualPoll(r));
    RunOfMore(s0, start + [HotSwap(n)] + [ManualPoll(r)], Acquire(Manual(r)));
    ManualCollects(Run(s0, start + [HotSwap(n)]), r);
  }

  lemma SharedNameOverlaps(s0: State, c: nat) returns (steps: seq<Step>)
    requires Initial(s0) && s0.modem.Some? && c in s0.collectors && c != s0.modem.value
    requires s0.names[c] == s0.names[s0.modem.value]
    ensures steps == [Submit(c), Acquire(Worker(0))] + [ManualPoll(0)] + [Acquire(Manual(0))]
    ensures Together(Run(s0, steps), Worker(0), Manual(0))
  {
    var start := [Submit(c), Acquire(Worker(0))];
    steps := start + [ManualPoll(0)] + [Acquire(Manual(0))];
    FirstRun(s0, c);
    RunOfMore(s0, start, ManualPoll(0));
    RunOfMore(s0, start + [ManualPoll(0)], Acquire(Manual(0)));
    ManualCollects(Run(s0, start), 0);
  }

  lemma {:induction false} FreshId(ids: set<nat>) returns (n: nat)
    ensures forall i | i in ids :: i < n
  {
    n := 0;
    if ids != {} {
      var i :| i in ids;
      var m := FreshId(ids - {i});
      n := Max(i + 1, m);
      assert ids == ids - {i} + {i};
    }
  }

  /** Nothing has been swapped, and every thread is on the collector it was opened for. */
  ghost predicate Unswapped(s0: State, s: State) {
    && s.names == s0.names && s.collectors == s0.collectors && s.modem == s0.modem
    && forall t | t in s.threads ::
         if t.Worker? then s.threads[t].collector in s0.collectors
         else s0.modem == Some(s.threads[t].collector)
  }

  /** A thread stays on its collector; a new one is on a listed collector or the modem. */
  lemma ThreadsStayOnCollectors(s: State, step: Step, t: Tid)
    requires t in Next(s, step).threads
    ensures var c := Next(s, step).threads[t].collector;
            || (t in s.threads && c == s.threads[t].collector)
            || (if t.Worker? then c in s.collectors else s.modem == Some(c))
  {
  }

  lemma NoSwapWithoutModem(s: State, step: Step)
    requires s.modem.Some? && s.modem.value in s.names ==> s.names[s.modem.value] != "modem"
    ensures var s' := Next(s, step); s'.names == s.names && s'.collectors == s.collectors && s'.modem == s.modem
  {
  }

  lemma StaysUnswapped(s0: State, s: State, step: Step)
    requires Unswapped(s0, s) && (s0.modem.Some? && s0.modem.value in s0.names ==> s0.names[s0.modem.value] != "modem")
    ensures Unswapped(s0, Next(s, step))
  {
    var s' := Next(s, step);
    NoSwapWithoutModem(s, step);
    forall t | t in s'.threads
      ensures if t.Worker? then s'.threads[t].collector in s0.collectors else s0.modem == Some(s'.threads[t].collector)
    {
      ThreadsStayOnCollectors(s, step, t);
    }
  }

  lemma {:induction false} RunIsUnswapped(s0: State, steps: seq<Step>)
    requires Initial(s0) && (s0.modem.Some? ==> s0.names[s0.modem.value] != "modem")
    ensures Unswapped(s0, Run(s0, steps))
  {
    if steps != [] {
      RunIsUnswapped(s0, steps[..|steps| - 1]);
      StaysUnswapped(s0, Run(s0, steps[..|steps| - 1]), steps[|steps| - 1]);
    }
  }

  lemma NoOverlap(s0: State, steps: seq<Step>)
    requires Initial(s0) && !CanOverlap(s0)
    ensures !Overlap(Run(s0, steps))
  {
    RunIsUnswapped(s0, steps);
    var s := Run(s0, steps);
    forall t, u ensures !Together(s, t, u) {
      if Together(s, t, u) {
        OverlapIsManual(s0, steps, t, u);
      }
    }
  }

  // ----- What a hot-swap does -----

  lemma NextKeepsModemListed(s: State, step: Step)
    requires s.modem.Some? ==> s.modem.value in s.collectors
    ensures Next(s, step).modem.Some? ==> Next(s, step).modem.value in Next(s, step).collectors
  {
    if step.HotSwap? && s.modem.Some? && Next(s, step) != s {
      var i :| 0 <= i < |s.collectors| && s.collectors[i] == s.modem.value;
      assert Next(s, step).collectors[i] == step.replacement;
    }
  }

  /** The collector polled by hand is always one the loop polls. */
  lemma {:induction false} ModemIsListed(s0: State, steps: seq<Step>)
    requires Initial(s0)
    ensures var s := Run(s0, steps); s.modem.Some? ==> s.modem.value in s.collectors
  {
    if steps != [] {
      var n := |steps| - 1;
      ModemIsListed(s0, steps[..n]);
      NextKeepsModemListed(Run(s0, steps[..n]), steps[n]);
    }
  }

  lemma NextKeepsRetired(s: State, step: Step, c: nat)
    requires c in s.names && c !in s.collectors
    ensures c in Next(s, step).names && c !in Next(s, step).collectors
  {
  }

  lemma {:induction false} RetiredForGood(s: State, steps: seq<Step>, c: nat)
    requires c in s.names && c !in s.collectors
    ensures c in Run(s, steps).names && c !in Run(s, steps).collectors
  {
    if steps != [] {
      var n := |steps| - 1;
      RetiredForGood(s, steps[..n], c);
      NextKeepsRetired(Run(s, steps[..n]), steps[n], c);
    }
  }

  ghost predicate CanSwap(s: State, n: nat) {
    s.modem.Some? && s.modem.value in s.names && s.names[s.modem.value] == "modem" && n !in s.names
  }

  /** Submitting the collector opens a run on it. */
  ghost predicate Opens(s: State, c: nat) {
    var after := Next(s, Submit(c));
    && after.inFlight == s.inFlight[s.submitted := c]
    && Worker(s.submitted) in after.threads && after.threads[Worker(s.submitted)] == Thread(c, Waiting)
  }

  /** The new driver is polled by hand from now on, and stands at exactly the positions of the old
      one, every other collector in place. */
  ghost predicate Swapped(s: State, after: State, n: nat)
    requires s.modem.Some?
  {
    && after.modem == Some(n) && n in after.collectors && |after.collectors| == |s.collectors|
    && forall i | 0 <= i < |s.collectors| ::
         after.collectors[i] == if s.collectors[i] == s.modem.value then n else s.collectors[i]
  }

  lemma SwapReplaces(s: State, n: nat)
    requires CanSwap(s, n) && s.modem.value in s.collectors
    ensures Swapped(s, Next(s, HotSwap(n)), n)
    ensures s.modem.value in Next(s, HotSwap(n)).names && s.modem.value !in Next(s, HotSwap(n)).collectors
  {
    NextKeepsModemListed(s, HotSwap(n));
  }

  lemma ReplacementCanRun(s: State, n: nat)
    requires CanSwap(s, n) && s.modem.value in s.collectors
    ensures var swapped := Next(s, HotSwap(n)); !NameBusy(swapped, "modem") ==> Opens(swapped, n)
  {
    NextKeepsModemListed(s, HotSwap(n));
  }

  /** A hot-swap replaces the old driver in the list. Whatever follows, no run is opened on the old
      one again, and the new one can be run as soon as no run of the name is in flight. */
  lemma HotSwapTakesEffect(s0: State, steps: seq<Step>, n: nat, more: seq<Step>)
    requires Initial(s0) && CanSwap(Run(s0, steps), n)
    ensures var s := Run(s0, steps);
            var m, swapped := s.modem.value, Next(s, HotSwap(n));
            var later := Run(swapped, more);
            && Swapped(s, swapped, n)
            && m !in later.collectors && Next(later, Submit(m)) == later
            && (!NameBusy(swapped, "modem") ==> Opens(swapped, n))
  {
    var s := Run(s0, steps);
    ModemIsListed(s0, steps);
    SwapReplaces(s, n);
    ReplacementCanRun(s, n);
    RetiredForGood(Next(s, HotSwap(n)), more, s.modem.value);
  }
}
