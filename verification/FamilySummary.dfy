/** Why a signal family is unhealthy: its worst metric and the channel that shows it (app/analyzer.py). */
module FamilySummary {
  import opened Orders
  import opened Sequences

  datatype Direction = Downstream | Upstream

  datatype Cause = Power | Quality | Modulation

  /** An assessed channel. The per-metric healths are sparse: an absent one means "good". */
  datatype Channel = Channel(
    id: string,
    power: Option<real>,
    snr: Option<real>,
    modulation: Option<string>,
    profileModulation: Option<string>,
    powerHealth: Option<string>,
    snrHealth: Option<string>,
    modulationHealth: Option<string>)

  function OrGood(health: Option<string>): string { if health.Some? then health.value else "good" }

  function Rank(health: string): int {
    if health == "missing" then -1
    else if health == "tolerated" then 1
    else if health == "warning" then 2
    else if health == "critical" then 3
    else 0
  }

  /** The healths from best to worst. */
  const HEALTHS: seq<string> := ["missing", "good", "tolerated", "warning", "critical"]

  /** Healths are ranked in this order, and an unknown one as good. */
  lemma RanksAscend(i: nat, j: nat, unknown: string)
    requires i < 5 && j < 5 && unknown !in HEALTHS
    ensures Worse(HEALTHS[j], HEALTHS[i]) <==> i < j
    ensures Rank(unknown) == Rank("good")
  {
    assert HEALTHS[0] in HEALTHS && HEALTHS[2] in HEALTHS && HEALTHS[3] in HEALTHS && HEALTHS[4] in HEALTHS;
  }

  predicate Worse(a: string, b: string) { Rank(a) > Rank(b) }

  lemma WorseIsOrder()
    ensures StrictWeakOrder(Worse)
  {
  }

  /** Python's `max(values, key=rank)`: the first of the worst. */
  function FirstWorst(values: seq<string>): string {
    match Best(values, Worse)
    case None => "missing"
    case Some(worst) => worst
  }

  function Ranked(values: seq<string>): (r: seq<string>)
    ensures forall v :: v in r <==> v in values && v != "" && v != "missing"
  {
    if values == [] then []
    else
      var n := |values| - 1;
      assert values == values[..n] + [values[n]];
      Ranked(values[..n]) + if values[n] != "" && values[n] != "missing" then [values[n]] else []
  }

  function WorstHealth(values: seq<string>): string { FirstWorst(Ranked(values)) }

  lemma FirstWorstIsWorst(values: seq<string>)
    requires values != []
    ensures FirstWorst(values) in values
    ensures forall v | v in values :: Rank(v) <= Rank(FirstWorst(values))
  {
    WorseIsOrder();
    BestIsFirstBest(values, Worse);
  }

  /** The worst health is one of the available values and none of them is worse. */
  lemma WorstHealthIsMax(values: seq<string>)
    ensures forall v | v in values && v != "" && v != "missing" :: Rank(v) <= Rank(WorstHealth(values))
    ensures WorstHealth(values) in values || WorstHealth(values) == "missing"
    ensures WorstHealth(values) == "missing" <==> forall v | v in values :: v == "" || v == "missing"
    ensures WorstHealth(values) != ""
  {
    if Ranked(values) != [] {
      FirstWorstIsWorst(Ranked(values));
      assert Ranked(values)[0] in Ranked(values);
    }
  }

  // ----- Distinct modulations -----

  datatype Entry = Entry(value: string, health: string)

  /** The modulation a channel is listed under; empty when it reports none. */
  function ModulationValue(c: Channel, preferProfile: bool): string {
    var profile := if c.profileModulation.Some? then c.profileModulation.value else "";
    var modulation := if c.modulation.Some? then c.modulation.value else "";
    if preferProfile then (if profile != "" then profile else modulation)
    else if modulation != "" then modulation
    else profile
  }

  ghost predicate Named(text: Option<string>) { text.Some? && text.value != "" }

  /** The preferred modulation is listed where a channel reports it, else the other; a channel that
      reports neither is listed under none. */
  lemma ModulationPreferred(c: Channel, preferProfile: bool)
    ensures var preferred, other := if preferProfile then c.profileModulation else c.modulation,
                                    if preferProfile then c.modulation else c.profileModulation;
            var value := ModulationValue(c, preferProfile);
            && (Named(preferred) ==> Some(value) == preferred)
            && (!Named(preferred) && Named(other) ==> Some(value) == other)
            && (!Named(preferred) && !Named(other) ==> value == "")
  {
  }

  /** One dictionary update: a value seen before keeps its place and the worse health. */
  function Upsert(entries: seq<Entry>, value: string, health: string): seq<Entry> {
    if entries == [] then [Entry(value, health)]
    else if entries[0].value == value then [Entry(value, WorstHealth([entries[0].health, health]))] + entries[1..]
    else [entries[0]] + Upsert(entries[1..], value, health)
  }

  function Collected(channels: seq<Channel>, preferProfile: bool): seq<Entry> {
    if channels == [] then []
    else
      var n := |channels| - 1;
      var value := ModulationValue(channels[n], preferProfile);
      var earlier := Collected(channels[..n], preferProfile);
      if value == "" then earlier else Upsert(earlier, value, OrGood(channels[n].modulationHealth))
  }

  /** Sort key of a modulation: its QAM order (0 if it names none), then its text. */
  predicate KeyLess(a: Entry, b: Entry, qamOrder: string -> int) {
    qamOrder(a.value) < qamOrder(b.value) ||
    (qamOrder(a.value) == qamOrder(b.value) && StringLess(a.value, b.value))
  }

  function Distinct(channels: seq<Channel>, preferProfile: bool, qamOrder: string -> int): seq<Entry> {
    Sort(Collected(channels, preferProfile), (a, b) => KeyLess(a, b, qamOrder))
  }

  // ----- What the entries say -----

  /** The modulation healths of the channels with this modulation, in order. */
  function HealthsAt(channels: seq<Channel>, preferProfile: bool, value: string): seq<string> {
    if channels == [] then []
    else
      var n := |channels| - 1;
      HealthsAt(channels[..n], preferProfile, value)
      + if ModulationValue(channels[n], preferProfile) == value then [OrGood(channels[n].modulationHealth)] else []
  }

  /** The health of the only channel, or the worst of several. */
  function JointHealth(hs: seq<string>): string
    requires hs != []
  {
    if |hs| == 1 then hs[0] else WorstHealth(hs)
  }

  function IfRanked(h: string): seq<string> { if h != "" && h != "missing" then [h] else [] }

  lemma RankedAppend(hs: seq<string>, h: string)
    ensures Ranked(hs + [h]) == Ranked(hs) + IfRanked(h)
  {
    assert (hs + [h])[..|hs|] == hs;
  }

  lemma RankedPair(a: string, b: string)
    ensures Ranked([a, b]) == IfRanked(a) + IfRanked(b)
  {
    assert [a, b] == ([] + [a]) + [b];
    RankedAppend([], a);
    RankedAppend([a], b);
    assert [] + [a] == [a];
  }

  lemma RankedWithWorst(hs: seq<string>, h: string)
    ensures Ranked([WorstHealth(hs), h])
            == (if Ranked(hs) == [] then [] else [WorstHealth(hs)]) + IfRanked(h)
  {
    RankedPair(WorstHealth(hs), h);
    if Ranked(hs) != [] {
      FirstWorstIsWorst(Ranked(hs));
    }
  }

  /** Combining pairwise as the channels come gives the worst of all of them. */
  lemma WorstOfMore(hs: seq<string>, h: string)
    requires hs != []
    ensures JointHealth(hs + [h]) == WorstHealth([JointHealth(hs), h])
  {
    if |hs| == 1 {
      assert hs + [h] == [hs[0], h];
    } else {
      RankedAppend(hs, h);
      RankedWithWorst(hs, h);
      WorstOfRanked(Ranked(hs), IfRanked(h));
      assert [] + IfRanked(h) == IfRanked(h);
    }
  }

  /** The first of the worst, also when one more value comes last. */
  lemma WorstOfRanked(values: seq<string>, more: seq<string>)
    requires |more| <= 1
    ensures values != [] ==> FirstWorst(values + more) == FirstWorst([FirstWorst(values)] + more)
    ensures values == [] ==> FirstWorst(values + more) == FirstWorst(more)
  {
    if values == [] {
      assert values + more == more;
    } else {
      OnlyIsWorst(FirstWorst(values));
      if more == [] {
        assert values + more == values && [FirstWorst(values)] + more == [FirstWorst(values)];
      } else {
        assert more == [more[0]];
        WorstOfOneMore(values, more[0]);
        WorstOfOneMore([FirstWorst(values)], more[0]);
      }
    }
  }

  lemma OnlyIsWorst(v: string)
    ensures FirstWorst([v]) == v
  {
    BestOfOneMore([], v, Worse);
    assert [] + [v] == [v];
  }

  lemma WorstOfOneMore(values: seq<string>, v: string)
    requires values != []
    ensures FirstWorst(values + [v]) == if Worse(v, FirstWorst(values)) then v else FirstWorst(values)
  {
    BestOfOneMore(values, v, Worse);
    WorseIsOrder();
    BestIsFirstBest(values, Worse);
  }

  ghost predicate OncePerValue(entries: seq<Entry>) {
    forall i, j | 0 <= i < j < |entries| :: entries[i].value != entries[j].value
  }

  ghost predicate Lists(entries: seq<Entry>, value: string) { exists e :: e in entries && e.value == value }

  lemma ListsOfCons(e: Entry, rest: seq<Entry>)
    ensures forall v :: Lists([e] + rest, v) <==> v == e.value || Lists(rest, v)
  {
    forall v ensures Lists([e] + rest, v) <==> v == e.value || Lists(rest, v) {
      assert e in [e] + rest;
      assert forall f | f in rest :: f in [e] + rest;
    }
  }

  lemma {:induction false} UpsertLists(entries: seq<Entry>, value: string, health: string)
    ensures forall v :: Lists(Upsert(entries, value, health), v) <==> v == value || Lists(entries, v)
  {
    if entries == [] {
      ListsOfCons(Entry(value, health), []);
      assert [Entry(value, health)] + [] == [Entry(value, health)];
    } else {
      var rest := entries[1..];
      assert entries == [entries[0]] + rest;
      ListsOfCons(entries[0], rest);
      if entries[0].value == value {
        ListsOfCons(Entry(value, WorstHealth([entries[0].health, health])), rest);
      } else {
        UpsertLists(rest, value, health);
        ListsOfCons(entries[0], Upsert(rest, value, health));
      }
    }
  }

  lemma {:induction false} UpsertOnce(entries: seq<Entry>, value: string, health: string)
    requires OncePerValue(entries)
    ensures OncePerValue(Upsert(entries, value, health))
  {
    if entries != [] && entries[0].value != value {
      var rest := entries[1..];
      UpsertOnce(rest, value, health);
      UpsertLists(rest, value, health);
      var tail := Upsert(rest, value, health);
      forall j | 0 <= j < |tail| ensures tail[j].value != entries[0].value {
        assert Lists(tail, tail[j].value);
      }
    }
  }

  lemma {:induction false} UpsertValues(entries: seq<Entry>, value: string, health: string)
    requires OncePerValue(entries)
    ensures forall e | e in Upsert(entries, value, health) && e.value != value :: e in entries
    ensures !Lists(entries, value) ==> Entry(value, health) in Upsert(entries, value, health)
    ensures forall e | e in entries && e.value == value ::
              Entry(value, WorstHealth([e.health, health])) in Upsert(entries, value, health)
  {
    if entries == [] {
      assert Entry(value, health) in Upsert(entries, value, health);
    } else {
      var rest, r := entries[1..], Upsert(entries, value, health);
      assert entries == [entries[0]] + rest;
      ListsOfCons(entries[0], rest);
      if entries[0].value == value {
        assert r == [r[0]] + rest && r[0] in r;
      } else {
        UpsertValues(rest, value, health);
        assert r == [entries[0]] + Upsert(rest, value, health);
      }
    }
  }

  /** Each modulation once, exactly the modulations some channel reports, each with the joint
      health of its channels. */
  ghost predicate CollectsModulations(entries: seq<Entry>, channels: seq<Channel>, preferProfile: bool) {
    && OncePerValue(entries)
    && (forall v :: Lists(entries, v) <==> v != "" && HealthsAt(channels, preferProfile, v) != [])
    && (forall e | e in entries :: HealthsAt(channels, preferProfile, e.value) != []
                                   && e.health == JointHealth(HealthsAt(channels, preferProfile, e.value)))
  }

  lemma {:induction false} ReportedIffHealths(channels: seq<Channel>, preferProfile: bool, value: string)
    ensures HealthsAt(channels, preferProfile, value) != []
            <==> exists c :: c in channels && ModulationValue(c, preferProfile) == value
  {
    if channels != [] {
      var n := |channels| - 1;
      ReportedIffHealths(channels[..n], preferProfile, value);
      assert channels == channels[..n] + [channels[n]];
      assert channels[n] in channels;
    }
  }

  lemma SameEntry(entries: seq<Entry>, a: Entry, b: Entry)
    requires OncePerValue(entries) && a in entries && b in entries && a.value == b.value
    ensures a == b
  {
  }

  lemma {:induction false} CollectedIsExact(channels: seq<Channel>, preferProfile: bool)
    ensures CollectsModulations(Collected(channels, preferProfile), channels, preferProfile)
  {
    if channels != [] {
      var n := |channels| - 1;
      var value, health := ModulationValue(channels[n], preferProfile), OrGood(channels[n].modulationHealth);
      CollectedIsExact(channels[..n], preferProfile);
      if value != "" {
        CollectedStep(Collected(channels[..n], preferProfile), channels, preferProfile, value, health);
      } else {
        assert forall v | v != "" ::
                 HealthsAt(channels, preferProfile, v) == HealthsAt(channels[..n], preferProfile, v);
        assert forall e | e in Collected(channels[..n], preferProfile) ::
               Lists(Collected(channels[..n], preferProfile), e.value);
      }
    }
  }

  lemma CollectedStep(earlier: seq<Entry>, channels: seq<Channel>, preferProfile: bool, value: string, health: string)
    requires channels != [] && value != ""
    requires value == ModulationValue(channels[|channels| - 1], preferProfile)
    requires health == OrGood(channels[|channels| - 1].modulationHealth)
    requires CollectsModulations(earlier, channels[..|channels| - 1], preferProfile)
    ensures CollectsModulations(Upsert(earlier, value, health), channels, preferProfile)
  {
    var before := channels[..|channels| - 1];
    var after, hs := Upsert(earlier, value, health), HealthsAt(before, preferProfile, value);
    UpsertOnce(earlier, value, health);
    UpsertLists(earlier, value, health);
    UpsertValues(earlier, value, health);
    forall v ensures HealthsAt(channels, preferProfile, v)
                     == if v == value then HealthsAt(before, preferProfile, v) + [health]
                         else HealthsAt(before, preferProfile, v)
    {
    }
    forall e | e in after ensures HealthsAt(channels, preferProfile, e.value) != []
                                  && e.health == JointHealth(HealthsAt(channels, preferProfile, e.value))
    {
      if e.value == value {
        if Lists(earlier, value) {
          var old_ :| old_ in earlier && old_.value == value;
          SameEntry(after, e, Entry(value, WorstHealth([old_.health, health])));
          WorstOfMore(hs, health);
        } else {
          SameEntry(after, e, Entry(value, health));
          assert hs == [];
        }
      }
    }
  }

  ghost predicate InKeyOrder(entries: seq<Entry>, qamOrder: string -> int) {
    forall i, j | 0 <= i < j < |entries| ::
      var v, w := entries[i].value, entries[j].value;
      qamOrder(v) < qamOrder(w) || (qamOrder(v) == qamOrder(w) && StringLess(v, w))
  }

  lemma KeyLessIsOrder(qamOrder: string -> int)
    ensures StrictWeakOrder((a: Entry, b: Entry) => KeyLess(a, b, qamOrder))
  {
    StringLessIsOrder();
    forall a: Entry, b: Entry, c: Entry
      ensures !KeyLess(a, a, qamOrder)
      ensures KeyLess(a, b, qamOrder) && KeyLess(b, c, qamOrder) ==> KeyLess(a, c, qamOrder)
      ensures KeyLess(a, b, qamOrder) ==> KeyLess(a, c, qamOrder) || KeyLess(c, b, qamOrder)
    {
      StringLessTrichotomy(a.value, a.value);
      StringLessTrichotomy(a.value, c.value);
      StringLessTrichotomy(c.value, b.value);
    }
  }

  lemma OnceAfterSort(a: seq<Entry>, b: seq<Entry>)
    requires multiset(a) == multiset(b) && OncePerValue(a)
    ensures OncePerValue(b)
  {
    forall i, j | 0 <= i < j < |b| ensures b[i].value != b[j].value {
      assert b[i] in multiset(a) && b[j] in multiset(a);
      AppearsOnce(a, b[i]);
      if b[i].value == b[j].value {
        SameEntry(a, b[i], b[j]);
        AppearsTwice(b, i, j);
      }
    }
  }

  lemma {:induction false} AppearsOnce(a: seq<Entry>, e: Entry)
    requires OncePerValue(a)
    ensures multiset(a)[e] <= 1
  {
    if a != [] {
      AppearsOnce(a[1..], e);
      assert a == [a[0]] + a[1..];
      forall j | 0 <= j < |a[1..]| ensures a[1..][j] != a[0] {
        assert a[0].value != a[j + 1].value;
      }
    }
  }

  /** The entries are sorted by key, and say of each modulation what its channels report. */
  lemma DistinctIsExact(channels: seq<Channel>, preferProfile: bool, qamOrder: string -> int)
    ensures CollectsModulations(Distinct(channels, preferProfile, qamOrder), channels, preferProfile)
    ensures InKeyOrder(Distinct(channels, preferProfile, qamOrder), qamOrder)
  {
    var less := (a: Entry, b: Entry) => KeyLess(a, b, qamOrder);
    var collected, entries := Collected(channels, preferProfile), Distinct(channels, preferProfile, qamOrder);
    CollectedIsExact(channels, preferProfile);
    SortPermutes(collected, less);
    SortMembers(collected, less);
    KeyLessIsOrder(qamOrder);
    SortSorts(collected, less);
    OnceAfterSort(collected, entries);
    forall v ensures Lists(entries, v) <==> Lists(collected, v) {
    }
    forall i, j | 0 <= i < j < |entries| ensures KeyLess(entries[i], entries[j], qamOrder) {
      assert !less(entries[j], entries[i]);
      StringLessTrichotomy(entries[i].value, entries[j].value);
    }
  }

  method DistinctModulationHealths(channels: seq<Channel>, preferProfile: bool, qamOrder: string -> int)
    returns (entries: seq<Entry>)
    ensures entries == Distinct(channels, preferProfile, qamOrder)
    ensures CollectsModulations(entries, channels, preferProfile) && InKeyOrder(entries, qamOrder)
  {
    entries := [];
    for i := 0 to |channels|
      invariant entries == Collected(channels[..i], preferProfile)
    {
      assert channels[..i + 1][..i] == channels[..i];
      var value := ModulationValue(channels[i], preferProfile);
      if value != "" {
        entries := Upsert(entries, value, OrGood(channels[i].modulationHealth));
      }
    }
    assert channels[..|channels|] == channels;
    entries := Sort(entries, (a, b) => KeyLess(a, b, qamOrder));
    DistinctIsExact(channels, preferProfile, qamOrder);
  }

  function Healths(entries: seq<Entry>): (hs: seq<string>)
    ensures |hs| == |entries| && forall i | 0 <= i < |hs| :: hs[i] == entries[i].health
  {
    if entries == [] then [] else [entries[0].health] + Healths(entries[1..])
  }

  /** A modulation health of rank `r` or more among the entries comes from a channel. */
  lemma {:induction false} UpsertHealths(entries: seq<Entry>, value: string, health: string)
    ensures forall e | e in Upsert(entries, value, health) ::
              e.health == health || e.health == "missing" || exists d :: d in entries && d.health == e.health
    ensures forall d | d in entries && Rank(d.health) >= 1 ::
              exists e :: e in Upsert(entries, value, health) && Rank(e.health) >= Rank(d.health)
    ensures Rank(health) >= 1 ==>
              exists e :: e in Upsert(entries, value, health) && Rank(e.health) >= Rank(health)
  {
    var after := Upsert(entries, value, health);
    if entries == [] {
      assert after[0] in after;
    } else {
      assert entries == [entries[0]] + entries[1..];
      assert after[0] in after && entries[0] in entries;
      if entries[0].value == value {
        WorstHealthIsMax([entries[0].health, health]);
      } else {
        UpsertHealths(entries[1..], value, health);
      }
    }
  }

  lemma {:induction false} CollectedHealths(channels: seq<Channel>, preferProfile: bool)
    ensures forall e | e in Collected(channels, preferProfile) :: e.health == "missing" ||
              exists c :: c in channels && ModulationValue(c, preferProfile) != ""
                  && OrGood(c.modulationHealth) == e.health
    ensures forall c | c in channels && ModulationValue(c, preferProfile) != ""
            && Rank(OrGood(c.modulationHealth)) >= 1 ::
              exists e :: e in Collected(channels, preferProfile) && Rank(e.health) >= Rank(OrGood(c.modulationHealth))
  {
    if channels != [] {
      var n := |channels| - 1;
      assert channels == channels[..n] + [channels[n]];
      var value, health := ModulationValue(channels[n], preferProfile), OrGood(channels[n].modulationHealth);
      CollectedHealths(channels[..n], preferProfile);
      UpsertHealths(Collected(channels[..n], preferProfile), value, health);
      assert channels[n] in channels;
      forall c | c in channels && ModulationValue(c, preferProfile) != "" && Rank(OrGood(c.modulationHealth)) >= 1
        ensures exists e ::
                  e in Collected(channels, preferProfile) && Rank(e.health) >= Rank(OrGood(c.modulationHealth))
      {
        if c != channels[n] {
          assert c in channels[..n];
          var d :| d in Collected(channels[..n], preferProfile) && Rank(d.health) >= Rank(OrGood(c.modulationHealth));
          if value != "" {
            var e :| e in Upsert(Collected(channels[..n], preferProfile), value, health)
                && Rank(e.health) >= Rank(d.health);
          }
        }
      }
    }
  }

  // ----- The family's metrics and the explanation of its health -----

  /** Whether a channel has a value in a dimension. */
  predicate Exposes(c: Channel, cause: Cause, preferProfile: bool) {
    match cause
    case Power => c.power.Some?
    case Quality => c.snr.Some?
    case Modulation => ModulationValue(c, preferProfile) != ""
  }

  /** `_driver_health` for a channel that has a value in the dimension. */
  function HealthIn(c: Channel, cause: Cause): string {
    match cause
    case Power => OrGood(c.powerHealth)
    case Quality => OrGood(c.snrHealth)
    case Modulation => OrGood(c.modulationHealth)
  }

  /** Each dimension has its own health, good where none is recorded. */
  lemma HealthIsRead(c: Channel, health: string)
    ensures c.powerHealth == Some(health) ==> HealthIn(c, Power) == health
    ensures c.snrHealth == Some(health) ==> HealthIn(c, Quality) == health
    ensures c.modulationHealth == Some(health) ==> HealthIn(c, Modulation) == health
    ensures c.powerHealth == None ==> HealthIn(c, Power) == "good"
    ensures c.snrHealth == None ==> HealthIn(c, Quality) == "good"
    ensures c.modulationHealth == None ==> HealthIn(c, Modulation) == "good"
  {
  }

  function ExposedHealths(channels: seq<Channel>, cause: Cause, preferProfile: bool): (hs: seq<string>)
    ensures forall h :: h in hs <==>
              exists c :: c in channels && Exposes(c, cause, preferProfile) && HealthIn(c, cause) == h
  {
    if channels == [] then []
    else
      var n := |channels| - 1;
      assert channels == channels[..n] + [channels[n]];
      ExposedHealths(channels[..n], cause, preferProfile)
      + if Exposes(channels[n], cause, preferProfile) then [HealthIn(channels[n], cause)] else []
  }

  function MetricHealth(channels: seq<Channel>, cause: Cause, dir: Direction, preferProfile: bool,
                        qamOrder: string -> int): string
  {
    match cause
    case Power => WorstHealth(ExposedHealths(channels, Power, preferProfile))
    case Quality =>
      if dir.Downstream? then WorstHealth(ExposedHealths(channels, Quality, preferProfile)) else "missing"
    case Modulation => WorstHealth(Healths(Distinct(channels, preferProfile, qamOrder)))
  }

  /** There is no quality upstream. */
  lemma NoQualityUpstream(channels: seq<Channel>, preferProfile: bool, qamOrder: string -> int)
    ensures MetricHealth(channels, Quality, Upstream, preferProfile, qamOrder) == "missing"
  {
  }

  datatype Value = Level(reading: real) | Name(text: string)

  datatype Driver = Driver(channelId: string, dimension: Cause, health: string, value: Value)

  datatype Summary = Summary(
    health: string,
    cause: Option<Cause>,
    driver: Option<Driver>,
    metrics: map<Cause, string>)

  function DriverOf(c: Channel, cause: Cause, preferProfile: bool): Driver
    requires Exposes(c, cause, preferProfile)
  {
    Driver(c.id, cause, HealthIn(c, cause),
           match cause
           case Power => Level(c.power.value)
           case Quality => Level(c.snr.value)
           case Modulation => Name(ModulationValue(c, preferProfile)))
  }

  function Candidates(channels: seq<Channel>, cause: Cause, preferProfile: bool): seq<Driver> {
    if channels == [] then []
    else
      var n := |channels| - 1;
      Candidates(channels[..n], cause, preferProfile)
      + if Exposes(channels[n], cause, preferProfile) && HealthIn(channels[n], cause) != "missing"
        then [DriverOf(channels[n], cause, preferProfile)] else []
  }

  function FirstWith(candidates: seq<Driver>, health: string): Option<Driver> {
    if candidates == [] then None
    else if candidates[0].health == health then Some(candidates[0])
    else FirstWith(candidates[1..], health)
  }

  predicate WorseDriver(a: Driver, b: Driver) { Worse(a.health, b.health) }

  function DriverFor(channels: seq<Channel>, cause: Option<Cause>, familyHealth: string,
                     preferProfile: bool): Option<Driver>
  {
    if cause.None? || familyHealth == "good" || familyHealth == "missing" then None
    else
      var candidates := Candidates(channels, cause.value, preferProfile);
      if FirstWith(candidates, familyHealth).Some? then FirstWith(candidates, familyHealth)
      else Best(candidates, WorseDriver)
  }

  // ----- Which channel is named -----

  predicate IsCandidate(c: Channel, cause: Cause, preferProfile: bool) {
    Exposes(c, cause, preferProfile) && HealthIn(c, cause) != "missing"
  }

  ghost predicate SomeCandidate(channels: seq<Channel>, cause: Cause, preferProfile: bool) {
    exists c :: c in channels && IsCandidate(c, cause, preferProfile)
  }

  ghost predicate SomeWith(channels: seq<Channel>, cause: Cause, preferProfile: bool, health: string) {
    exists c :: c in channels && IsCandidate(c, cause, preferProfile) && HealthIn(c, cause) == health
  }

  /** The `i`-th channel is the first candidate with this health. */
  ghost predicate FirstAt(channels: seq<Channel>, cause: Cause, preferProfile: bool, health: string, i: nat) {
    && i < |channels| && IsCandidate(channels[i], cause, preferProfile) && HealthIn(channels[i], cause) == health
    && forall j | 0 <= j < i ::
         !(IsCandidate(channels[j], cause, preferProfile) && HealthIn(channels[j], cause) == health)
  }

  /** The `i`-th channel is the first of the worst candidates. */
  ghost predicate WorstAt(channels: seq<Channel>, cause: Cause, preferProfile: bool, i: nat) {
    && i < |channels| && IsCandidate(channels[i], cause, preferProfile)
    && (forall c | c in channels && IsCandidate(c, cause, preferProfile) ::
          Rank(HealthIn(c, cause)) <= Rank(HealthIn(channels[i], cause)))
    && forall j | 0 <= j < i && IsCandidate(channels[j], cause, preferProfile) ::
          Rank(HealthIn(channels[j], cause)) < Rank(HealthIn(channels[i], cause))
  }

  /** No driver without a candidate; otherwise the first channel with the family's health, and if
      none has it, the first of the worst. */
  ghost predicate NamesFirst(driver: Option<Driver>, channels: seq<Channel>, cause: Cause, familyHealth: string,
                             preferProfile: bool) {
    if !SomeCandidate(channels, cause, preferProfile) then driver.None?
    else if SomeWith(channels, cause, preferProfile, familyHealth) then
      exists i: nat :: FirstAt(channels, cause, preferProfile, familyHealth, i)
                  && driver == Some(DriverOf(channels[i], cause, preferProfile))
    else
      exists i: nat :: WorstAt(channels, cause, preferProfile, i)
                  && driver == Some(DriverOf(channels[i], cause, preferProfile))
  }

  lemma {:induction false} FirstWithAppend(ds: seq<Driver>, d: Driver, health: string)
    ensures FirstWith(ds + [d], health)
            == if FirstWith(ds, health).Some? then FirstWith(ds, health)
               else if d.health == health then Some(d) else None
  {
    if ds == [] {
      assert ds + [d] == [d];
    } else {
      assert (ds + [d])[1..] == ds[1..] + [d];
      FirstWithAppend(ds[1..], d, health);
    }
  }

  lemma {:induction false} CandidatesExist(channels: seq<Channel>, cause: Cause, preferProfile: bool)
    ensures Candidates(channels, cause, preferProfile) != [] <==> SomeCandidate(channels, cause, preferProfile)
  {
    if channels != [] {
      var n := |channels| - 1;
      CandidatesExist(channels[..n], cause, preferProfile);
      CandidatesStep(channels, cause, preferProfile);
      SomeCandidateStep(channels, cause, preferProfile);
    }
  }

  lemma SomeCandidateStep(channels: seq<Channel>, cause: Cause, preferProfile: bool)
    requires channels != []
    ensures var n := |channels| - 1;
            SomeCandidate(channels, cause, preferProfile) <==>
            SomeCandidate(channels[..n], cause, preferProfile) || IsCandidate(channels[n], cause, preferProfile)
  {
    var n := |channels| - 1;
    assert channels == channels[..n] + [channels[n]];
    assert channels[n] in channels;
  }

  lemma CandidatesStep(channels: seq<Channel>, cause: Cause, preferProfile: bool)
    requires channels != []
    ensures var n := |channels| - 1;
            Candidates(channels, cause, preferProfile)
            == if IsCandidate(channels[n], cause, preferProfile)
               then Candidates(channels[..n], cause, preferProfile) + [DriverOf(channels[n], cause, preferProfile)]
               else Candidates(channels[..n], cause, preferProfile)
  {
  }

  lemma {:induction false} FirstWithIsFirst(channels: seq<Channel>, cause: Cause, preferProfile: bool, health: string)
    returns (i: nat)
    ensures var found := FirstWith(Candidates(channels, cause, preferProfile), health);
            if found.Some?
            then FirstAt(channels, cause, preferProfile, health, i)
                && found.value == DriverOf(channels[i], cause, preferProfile)
            else !SomeWith(channels, cause, preferProfile, health)
  {
    i := 0;
    if channels != [] {
      var n := |channels| - 1;
      i := FirstWithIsFirst(channels[..n], cause, preferProfile, health);
      FoundStep(channels, cause, preferProfile, health);
      if FirstWith(Candidates(channels[..n], cause, preferProfile), health).None? {
        NoneBefore(channels, cause, preferProfile, health);
        i := n;
      } else {
        StillFirst(channels, cause, preferProfile, health, i);
      }
    }
  }

  lemma FoundStep(channels: seq<Channel>, cause: Cause, preferProfile: bool, health: string)
    requires channels != []
    ensures var c := channels[|channels| - 1];
            var earlier := FirstWith(Candidates(channels[..|channels| - 1], cause, preferProfile), health);
            FirstWith(Candidates(channels, cause, preferProfile), health)
            == if earlier.Some? then earlier
               else if IsCandidate(c, cause, preferProfile) && HealthIn(c, cause) == health
               then Some(DriverOf(c, cause, preferProfile)) else None
  {
    var n := |channels| - 1;
    CandidatesStep(channels, cause, preferProfile);
    if IsCandidate(channels[n], cause, preferProfile) {
      FirstWithAppend(Candidates(channels[..n], cause, preferProfile), DriverOf(channels[n], cause, preferProfile),
          health);
    }
  }

  lemma StillFirst(channels: seq<Channel>, cause: Cause, preferProfile: bool, health: string, i: nat)
    requires channels != [] && FirstAt(channels[..|channels| - 1], cause, preferProfile, health, i)
    ensures FirstAt(channels, cause, preferProfile, health, i) && channels[..|channels| - 1][i] == channels[i]
  {
    forall j | 0 <= j < i
      ensures !(IsCandidate(channels[j], cause, preferProfile) && HealthIn(channels[j], cause) == health)
    {
      assert channels[..|channels| - 1][j] == channels[j];
    }
  }

  lemma NoneBefore(channels: seq<Channel>, cause: Cause, preferProfile: bool, health: string)
    requires channels != [] && !SomeWith(channels[..|channels| - 1], cause, preferProfile, health)
    ensures var n := |channels| - 1;
            if IsCandidate(channels[n], cause, preferProfile) && HealthIn(channels[n], cause) == health
            then FirstAt(channels, cause, preferProfile, health, n)
            else !SomeWith(channels, cause, preferProfile, health)
  {
    var n := |channels| - 1;
    assert channels == channels[..n] + [channels[n]];
    forall j | 0 <= j < n
      ensures !(IsCandidate(channels[j], cause, preferProfile) && HealthIn(channels[j], cause) == health)
    {
      assert channels[j] in channels[..n];
    }
  }

  lemma {:induction false} BestIsFirstWorst(channels: seq<Channel>, cause: Cause, preferProfile: bool) returns (i: nat)
    requires Candidates(channels, cause, preferProfile) != []
    ensures WorstAt(channels, cause, preferProfile, i)
    ensures Best(Candidates(channels, cause, preferProfile), WorseDriver)
            == Some(DriverOf(channels[i], cause, preferProfile))
  {
    var n := |channels| - 1;
    var earlier := Candidates(channels[..n], cause, preferProfile);
    CandidatesStep(channels, cause, preferProfile);
    CandidatesExist(channels[..n], cause, preferProfile);
    if earlier == [] {
      i := n;
      BestOfOneMore([], DriverOf(channels[n], cause, preferProfile), WorseDriver);
      OnlyCandidate(channels, cause, preferProfile);
    } else {
      i := BestIsFirstWorst(channels[..n], cause, preferProfile);
      WorstStep(channels, cause, preferProfile, i);
      if IsCandidate(channels[n], cause, preferProfile) {
        BestOfOneMore(earlier, DriverOf(channels[n], cause, preferProfile), WorseDriver);
        if Rank(HealthIn(channels[n], cause)) > Rank(HealthIn(channels[i], cause)) {
          i := n;
        }
      }
    }
  }

  lemma OnlyCandidate(channels: seq<Channel>, cause: Cause, preferProfile: bool)
    requires channels != [] && IsCandidate(channels[|channels| - 1], cause, preferProfile)
    requires !SomeCandidate(channels[..|channels| - 1], cause, preferProfile)
    ensures WorstAt(channels, cause, preferProfile, |channels| - 1)
  {
    var n := |channels| - 1;
    assert channels == channels[..n] + [channels[n]];
    forall j | 0 <= j < n ensures !IsCandidate(channels[j], cause, preferProfile) {
      assert channels[j] in channels[..n];
    }
  }

  lemma WorstStep(channels: seq<Channel>, cause: Cause, preferProfile: bool, i: nat)
    requires channels != [] && WorstAt(channels[..|channels| - 1], cause, preferProfile, i)
    ensures var n := |channels| - 1;
            if IsCandidate(channels[n], cause, preferProfile)
               && Rank(HealthIn(channels[n], cause)) > Rank(HealthIn(channels[i], cause))
            then WorstAt(channels, cause, preferProfile, n) else WorstAt(channels, cause, preferProfile, i)
  {
    var n := |channels| - 1;
    var rest := channels[..n];
    assert channels == rest + [channels[n]] && rest[i] == channels[i];
    forall j | 0 <= j < n && IsCandidate(channels[j], cause, preferProfile)
      ensures Rank(HealthIn(channels[j], cause)) <= Rank(HealthIn(channels[i], cause))
    {
      assert channels[j] == rest[j] && rest[j] in rest;
    }
  }

  /** The driver is the first channel that explains the family's health. */
  lemma DriverIsFirst(channels: seq<Channel>, cause: Cause, familyHealth: string, preferProfile: bool)
    requires familyHealth != "good" && familyHealth != "missing"
    ensures NamesFirst(DriverFor(channels, Some(cause), familyHealth, preferProfile), channels, cause, familyHealth,
            preferProfile)
  {
    CandidatesExist(channels, cause, preferProfile);
    var i := FirstWithIsFirst(channels, cause, preferProfile, familyHealth);
    if FirstWith(Candidates(channels, cause, preferProfile), familyHealth).Some? {
      assert channels[i] in channels;
    } else if Candidates(channels, cause, preferProfile) != [] {
      i := BestIsFirstWorst(channels, cause, preferProfile);
    }
  }

  method CollectCandidates(channels: seq<Channel>, cause: Cause, preferProfile: bool) returns (candidates: seq<Driver>)
    ensures candidates == Candidates(channels, cause, preferProfile)
  {
    candidates := [];
    for i := 0 to |channels|
      invariant candidates == Candidates(channels[..i], cause, preferProfile)
    {
      assert channels[..i + 1][..i] == channels[..i];
      var c := channels[i];
      if Exposes(c, cause, preferProfile) {
        var health := HealthIn(c, cause);
        if health != "missing" {
          candidates := candidates + [DriverOf(c, cause, preferProfile)];
        }
      }
    }
    assert channels[..|channels|] == channels;
  }

  method FamilyHealthDriver(channels: seq<Channel>, cause: Option<Cause>, familyHealth: string, preferProfile: bool)
    returns (driver: Option<Driver>)
    ensures driver == DriverFor(channels, cause, familyHealth, preferProfile)
    ensures cause.None? || familyHealth in {"good", "missing"} ==> driver.None?
    ensures cause.Some? && familyHealth !in {"good", "missing"} ==>
              NamesFirst(driver, channels, cause.value, familyHealth, preferProfile)
  {
    if cause.Some? && familyHealth !in {"good", "missing"} {
      DriverIsFirst(channels, cause.value, familyHealth, preferProfile);
    }
    if cause.None? || familyHealth == "good" || familyHealth == "missing" {
      return None;
    }
    var candidates := CollectCandidates(channels, cause.value, preferProfile);
    if candidates == [] {
      return None;
    }
    driver := FirstWith(candidates, familyHealth);
    if driver.None? {
      driver := Best(candidates, WorseDriver);
    }
  }

  function FamilyHealth(power: string, modulation: string, quality: string, dir: Direction): string {
    WorstHealth([power, modulation] + if dir.Downstream? then [quality] else [])
  }

  function CauseOf(health: string, power: string, modulation: string, quality: string, dir: Direction): Option<Cause> {
    if health == "good" || health == "missing" then None
    else if modulation == health then Some(Modulation)
    else if power == health then Some(Power)
    else if dir.Downstream? && quality == health then Some(Quality)
    else None
  }

  /** Nothing is blamed for a good or missing health; otherwise modulation is before power, and power
      before quality, which counts downstream only. */
  lemma CausesInOrder(health: string, power: string, modulation: string, quality: string, dir: Direction)
    ensures var cause := CauseOf(health, power, modulation, quality, dir);
            var sound := health == "good" || health == "missing";
            && (cause == Some(Modulation) <==> !sound && modulation == health)
            && (cause == Some(Power) <==> !sound && modulation != health && power == health)
            && (cause == Some(Quality) <==>
                !sound && modulation != health && power != health && dir.Downstream? && quality == health)
  {
  }

  function MetricsOf(power: string, modulation: string, quality: string, dir: Direction): map<Cause, string> {
    if dir.Downstream? then map[Power := power, Modulation := modulation, Quality := quality]
    else map[Power := power, Modulation := modulation]
  }

  /** `_family_summary`, as far as it explains the family's health, from the metrics' healths. */
  function Explain(channels: seq<Channel>, power: string, modulation: string, quality: string, dir: Direction,
                   preferProfile: bool): Summary
  {
    var health := FamilyHealth(power, modulation, quality, dir);
    var cause := CauseOf(health, power, modulation, quality, dir);
    Summary(health, cause, DriverFor(channels, cause, health, preferProfile),
            MetricsOf(power, modulation, quality, dir))
  }

  function Summarize(channels: seq<Channel>, dir: Direction, preferProfile: bool, qamOrder: string -> int): Summary {
    Explain(channels,
            MetricHealth(channels, Power, dir, preferProfile, qamOrder),
            MetricHealth(channels, Modulation, dir, preferProfile, qamOrder),
            MetricHealth(channels, Quality, dir, preferProfile, qamOrder),
            dir, preferProfile)
  }

  // ----- The health explanation always has a witness -----

  lemma {:induction false} HealthsMembers(entries: seq<Entry>)
    ensures forall h :: h in Healths(entries) <==> exists e :: e in entries && e.health == h
  {
    if entries != [] {
      HealthsMembers(entries[1..]);
      assert entries == [entries[0]] + entries[1..];
      assert entries[0] in entries;
    }
  }

  /** No channel is worse than `m` in this dimension, and an `m` worse than "good" is the
      health of some channel that has a value in it. */
  ghost predicate WorstChannel(channels: seq<Channel>, cause: Cause, preferProfile: bool, m: string) {
    && (forall c | c in channels && Exposes(c, cause, preferProfile) && Rank(HealthIn(c, cause)) >= 1 ::
          Rank(HealthIn(c, cause)) <= Rank(m))
    && (Rank(m) >= 1 ==>
          exists c :: c in channels && Exposes(c, cause, preferProfile) && HealthIn(c, cause) == m)
  }

  /** A metric is as bad as its worst channel. */
  lemma MetricIsWorstChannel(channels: seq<Channel>, cause: Cause, dir: Direction, preferProfile: bool,
                             qamOrder: string -> int)
    requires cause.Quality? ==> dir.Downstream?
    ensures WorstChannel(channels, cause, preferProfile, MetricHealth(channels, cause, dir, preferProfile, qamOrder))
  {
    if cause.Modulation? {
      DistinctMembers(channels, preferProfile, qamOrder);
      EntriesCoverChannels(channels, preferProfile, Distinct(channels, preferProfile, qamOrder));
    } else {
      WorstHealthIsMax(ExposedHealths(channels, cause, preferProfile));
    }
  }

  lemma WorstOfEntries(entries: seq<Entry>)
    ensures var m := WorstHealth(Healths(entries));
            && (forall e | e in entries && Rank(e.health) >= 1 :: Rank(e.health) <= Rank(m))
            && (Rank(m) >= 1 ==> exists e :: e in entries && e.health == m)
  {
    HealthsMembers(entries);
    WorstHealthIsMax(Healths(entries));
    forall e | e in entries && Rank(e.health) >= 1
      ensures Rank(e.health) <= Rank(WorstHealth(Healths(entries)))
    {
      assert e.health in Healths(entries);
    }
  }

  lemma DistinctMembers(channels: seq<Channel>, preferProfile: bool, qamOrder: string -> int)
    ensures forall e :: e in Distinct(channels, preferProfile, qamOrder) <==> e in Collected(channels, preferProfile)
  {
    SortMembers(Collected(channels, preferProfile), (a, b) => KeyLess(a, b, qamOrder));
  }

  lemma EntriesCoverChannels(channels: seq<Channel>, preferProfile: bool, entries: seq<Entry>)
    requires forall e :: e in entries <==> e in Collected(channels, preferProfile)
    ensures WorstChannel(channels, Modulation, preferProfile, WorstHealth(Healths(entries)))
  {
    WorstOfEntries(entries);
    CollectedHealths(channels, preferProfile);
    forall c | c in channels && Exposes(c, Modulation, preferProfile) && Rank(HealthIn(c, Modulation)) >= 1
      ensures Rank(HealthIn(c, Modulation)) <= Rank(WorstHealth(Healths(entries)))
    {
      var e :| e in Collected(channels, preferProfile) && Rank(e.health) >= Rank(OrGood(c.modulationHealth));
    }
  }

  /** No channel is worse than `health` in this dimension. */
  ghost predicate NoneWorse(channels: seq<Channel>, cause: Cause, preferProfile: bool, health: string) {
    forall c | c in channels && Exposes(c, cause, preferProfile) :: Rank(HealthIn(c, cause)) <= Rank(health)
  }

  /** The explanation names a channel of the family that is as unhealthy, in the dimension it
      blames, as the family; and nothing the family exposes is worse. */
  ghost predicate Explained(s: Summary, channels: seq<Channel>, preferProfile: bool) {
    && s.cause.Some? && s.driver.Some? && s.cause.value in s.metrics
    && Witnessed(channels, s.cause.value, s.health, preferProfile, s.driver.value)
    && (forall k | k in s.metrics :: Rank(s.metrics[k]) <= Rank(s.health))
    && (forall k | k in s.metrics :: NoneWorse(channels, k, preferProfile, s.health))
  }

  /** The driver is the reading of a channel with this health. */
  ghost predicate Witnessed(channels: seq<Channel>, cause: Cause, health: string, preferProfile: bool, driver: Driver) {
    exists c :: c in channels && Exposes(c, cause, preferProfile) && HealthIn(c, cause) == health
           && driver == DriverOf(c, cause, preferProfile)
  }

  lemma MetricBoundsChannels(channels: seq<Channel>, cause: Cause, preferProfile: bool, m: string, health: string)
    requires WorstChannel(channels, cause, preferProfile, m) && Rank(m) <= Rank(health) && Rank(health) >= 1
    ensures NoneWorse(channels, cause, preferProfile, health)
  {
  }

  lemma ExplainHasWitness(channels: seq<Channel>, power: string, modulation: string, quality: string, dir: Direction,
                          preferProfile: bool)
    requires WorstChannel(channels, Power, preferProfile, power)
    requires WorstChannel(channels, Modulation, preferProfile, modulation)
    requires dir.Downstream? ==> WorstChannel(channels, Quality, preferProfile, quality)
    ensures var s := Explain(channels, power, modulation, quality, dir, preferProfile);
            Rank(s.health) >= 1 ==> Explained(s, channels, preferProfile)
  {
    var health := FamilyHealth(power, modulation, quality, dir);
    var metrics := MetricsOf(power, modulation, quality, dir);
    FamilyHealthIsWorst(power, modulation, quality, dir);
    if Rank(health) >= 1 {
      var cause := CauseOf(health, power, modulation, quality, dir).value;
      forall k | k in metrics
        ensures Rank(metrics[k]) <= Rank(health) && NoneWorse(channels, k, preferProfile, health)
      {
        MetricBoundsChannels(channels, k, preferProfile, metrics[k], health);
      }
      DriverIsWitness(channels, cause, health, preferProfile);
    }
  }

  lemma MetricsAreNamed(channels: seq<Channel>, dir: Direction, preferProfile: bool, qamOrder: string -> int)
    ensures forall k :: MetricHealth(channels, k, dir, preferProfile, qamOrder) != ""
  {
    WorstHealthIsMax(ExposedHealths(channels, Power, preferProfile));
    WorstHealthIsMax(ExposedHealths(channels, Quality, preferProfile));
    WorstHealthIsMax(Healths(Distinct(channels, preferProfile, qamOrder)));
  }

  /** Whenever a family is tolerated, warning or critical, its cause is set and its driver is a
      channel of the family whose health in that dimension is the family's health; and that
      health is the worst over every channel and every metric the family exposes: power and
      modulation, and downstream also quality. */
  lemma HealthHasWitness(channels: seq<Channel>, dir: Direction, preferProfile: bool, qamOrder: string -> int)
    ensures var s := Summarize(channels, dir, preferProfile, qamOrder);
            && s.metrics.Keys == {Power, Modulation} + (if dir.Downstream? then {Quality} else {})
            && (forall k | k in s.metrics ::
                  s.metrics[k] == MetricHealth(channels, k, dir, preferProfile, qamOrder)
                  && Rank(s.metrics[k]) <= Rank(s.health))
            && (Rank(s.health) >= 1 ==> Explained(s, channels, preferProfile))
  {
    MetricsAreNamed(channels, dir, preferProfile, qamOrder);
    FamilyHealthIsMax(MetricHealth(channels, Power, dir, preferProfile, qamOrder),
                      MetricHealth(channels, Modulation, dir, preferProfile, qamOrder),
                      MetricHealth(channels, Quality, dir, preferProfile, qamOrder), dir);
    MetricIsWorstChannel(channels, Power, dir, preferProfile, qamOrder);
    MetricIsWorstChannel(channels, Modulation, dir, preferProfile, qamOrder);
    if dir.Downstream? {
      MetricIsWorstChannel(channels, Quality, dir, preferProfile, qamOrder);
    }
    ExplainHasWitness(channels, MetricHealth(channels, Power, dir, preferProfile, qamOrder),
                      MetricHealth(channels, Modulation, dir, preferProfile, qamOrder),
                      MetricHealth(channels, Quality, dir, preferProfile, qamOrder), dir, preferProfile);
  }

  lemma DriverIsWitness(channels: seq<Channel>, cause: Cause, health: string, preferProfile: bool)
    requires Rank(health) >= 1
    requires exists c :: c in channels && Exposes(c, cause, preferProfile) && HealthIn(c, cause) == health
    ensures var d := DriverFor(channels, Some(cause), health, preferProfile);
            d.Some? && Witnessed(channels, cause, health, preferProfile, d.value)
  {
    var c :| c in channels && Exposes(c, cause, preferProfile) && HealthIn(c, cause) == health;
    assert IsCandidate(c, cause, preferProfile);
    DriverIsFirst(channels, cause, health, preferProfile);
    var i: nat :| FirstAt(channels, cause, preferProfile, health, i)
                  && DriverFor(channels, Some(cause), health, preferProfile)
                     == Some(DriverOf(channels[i], cause, preferProfile));
    assert channels[i] in channels;
  }

  /** Whatever the metrics are, none is worse than the family's health, and it is one of them. */
  lemma FamilyHealthIsMax(power: string, modulation: string, quality: string, dir: Direction)
    ensures var health := FamilyHealth(power, modulation, quality, dir);
            && (power != "" ==> Rank(power) <= Rank(health)) && (modulation != "" ==> Rank(modulation) <= Rank(health))
            && (dir.Downstream? && quality != "" ==> Rank(quality) <= Rank(health))
            && (health in {power, modulation, "missing"} || (dir.Downstream? && health == quality))
  {
    WorstHealthIsMax([power, modulation] + if dir.Downstream? then [quality] else []);
  }

  /** The family's health is the worst of its metrics, and its cause is one of the worst. */
  lemma FamilyHealthIsWorst(power: string, modulation: string, quality: string, dir: Direction)
    ensures var health := FamilyHealth(power, modulation, quality, dir);
            var cause := CauseOf(health, power, modulation, quality, dir);
            Rank(health) >= 1 ==>
              && Rank(power) <= Rank(health) && Rank(modulation) <= Rank(health)
              && (dir.Downstream? ==> Rank(quality) <= Rank(health))
              && ((cause == Some(Modulation) && modulation == health)
                  || (cause == Some(Power) && power == health)
                  || (cause == Some(Quality) && dir.Downstream? && quality == health))
  {
    WorstHealthIsMax([power, modulation] + if dir.Downstream? then [quality] else []);
  }
}
