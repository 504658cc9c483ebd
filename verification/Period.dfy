/** The aggregate of a period of stored snapshots (app/aggregation/period.py). */
module PeriodAggregation {
  import opened Orders
  import opened Sequences
  import opened Tallies
  import opened Snapshots
  import P = Provenance

  datatype Metric =
    | DsPower | DsSnr | UsPower
    | DsPowerMax | DsPowerMin | UsPowerMax | DsSnrMin | UncorrectableMax | CorrectableMax
    | SnrWarnMin
    | HealthCriticalCount | HealthMarginalCount | HealthToleratedCount | TotalSnapshots

  // The metrics each loop goes through, in order.
  const AVERAGED := [DsPower, DsSnr, UsPower]
  const EXTREMES := [DsPowerMax, DsPowerMin, UsPowerMax]
  const COUNTERS := [UncorrectableMax, CorrectableMax]
  const TRACKED := [DsPower, DsSnr, UsPower, DsPowerMax, DsPowerMin, UsPowerMax, DsSnrMin, UncorrectableMax,
                    CorrectableMax, SnrWarnMin]
  const COUNTS := [HealthCriticalCount, HealthMarginalCount, HealthToleratedCount, TotalSnapshots]

  predicate IsCounter(m: Metric) { m.UncorrectableMax? || m.CorrectableMax? }

  predicate IsCount(m: Metric) {
    m.HealthCriticalCount? || m.HealthMarginalCount? || m.HealthToleratedCount? || m.TotalSnapshots?
  }

  function SummaryKey(m: Metric): string {
    match m
    case DsPower => "ds_power_avg"
    case DsSnr => "ds_snr_avg"
    case UsPower => "us_power_avg"
    case DsPowerMax => "ds_power_max"
    case DsPowerMin => "ds_power_min"
    case UsPowerMax => "us_power_max"
    case UncorrectableMax => "ds_uncorrectable_errors"
    case CorrectableMax => "ds_correctable_errors"
    case _ => "ds_snr_min"
  }

  function SummaryOf(s: Snapshot): Fields { if s.summary.Some? then s.summary.value else map[] }

  predicate ErrorsSupported(s: Snapshot) {
    "errors_supported" in SummaryOf(s) ==> Truthy(SummaryOf(s)["errors_supported"])
  }

  // ----- Coverage -----

  datatype State = Samples | Nulls | Unsupported | Invalid | Missing

  /** `_value_state` */
  function ValueState(fields: Fields, key: string, unsupported: bool, env: Env): State {
    if unsupported then Unsupported
    else if key !in fields then Missing
    else if fields[key] == Null then Nulls
    else if AsNumber(fields[key], env).Some? then Samples
    else Invalid
  }

  /** `_snr_warning_threshold`: the first channel with this SNR decides. */
  function SnrWarning(channels: seq<Fields>, snr: real, env: Env): (State, Option<Value>) {
    if channels == [] then (Missing, None)
    else if AsNumber(Field(channels[0], "snr"), env) != Some(snr) then SnrWarning(channels[1..], snr, env)
    else
      var warning := env.warnMin(channels[0]);
      if AsNumber(warning, env).Some? then (Samples, Some(warning)) else (Invalid, None)
  }

  /** The SNR warning derived from a snapshot, and how that went. */
  function DerivedWarning(s: Snapshot, env: Env): (State, Option<Value>) {
    var source := ValueState(SummaryOf(s), "ds_snr_min", false, env);
    if source.Samples? then SnrWarning(s.dsChannels, AsNumber(SummaryOf(s)["ds_snr_min"], env).value, env)
    else (source, None)
  }

  function StateOf(m: Metric, s: Snapshot, env: Env): State {
    if IsCount(m) then Samples
    else if m.SnrWarnMin? then DerivedWarning(s, env).0
    else ValueState(SummaryOf(s), SummaryKey(m), IsCounter(m) && !ErrorsSupported(s), env)
  }

  datatype Coverage = Coverage(samples: nat, nulls: nat, unsupported: nat, invalid: nat, missing: nat, total: nat)

  function Mark(c: Coverage, state: State): Coverage {
    match state
    case Samples => c.(samples := c.samples + 1)
    case Nulls => c.(nulls := c.nulls + 1)
    case Unsupported => c.(unsupported := c.unsupported + 1)
    case Invalid => c.(invalid := c.invalid + 1)
    case Missing => c.(missing := c.missing + 1)
  }

  function CoverageOf(ss: seq<Snapshot>, m: Metric, total: nat, env: Env): Coverage {
    if ss == [] then Coverage(0, 0, 0, 0, 0, total)
    else Mark(CoverageOf(ss[..|ss| - 1], m, total, env), StateOf(m, ss[|ss| - 1], env))
  }

  /** Every snapshot is in exactly one state for every metric. */
  lemma {:induction false} CoverageConserves(ss: seq<Snapshot>, m: Metric, total: nat, env: Env)
    ensures var c := CoverageOf(ss, m, total, env);
            c.samples + c.nulls + c.unsupported + c.invalid + c.missing == |ss| && c.total == total
  {
    if ss != [] {
      CoverageConserves(ss[..|ss| - 1], m, total, env);
    }
  }

  lemma {:induction false} CountsAreFullyCovered(ss: seq<Snapshot>, m: Metric, total: nat, env: Env)
    requires IsCount(m)
    ensures CoverageOf(ss, m, total, env) == Coverage(|ss|, 0, 0, 0, 0, total)
  {
    if ss != [] {
      CountsAreFullyCovered(ss[..|ss| - 1], m, total, env);
    }
  }

  // ----- Readings and extremes -----

  function RawReading(m: Metric, s: Snapshot): Value {
    if IsCounter(m) && !ErrorsSupported(s) then Null else Field(SummaryOf(s), SummaryKey(m))
  }

  function Reading(m: Metric, env: Env): Snapshot -> seq<Value> {
    s => if AsNumber(RawReading(m, s), env).Some? then [RawReading(m, s)] else []
  }

  function Readings(ss: seq<Snapshot>, m: Metric, env: Env): seq<Value> { FlatMap(ss, Reading(m, env)) }

  function Num(v: Value, env: Env): real { if AsNumber(v, env).Some? then AsNumber(v, env).value else 0.0 }

  function Abs(x: real): real { if x < 0.0 then -x else x }

  /** How bad a reading is: distance from zero for downstream power, low for SNR, high otherwise. */
  function Score(m: Metric, v: Value, env: Env): real {
    match m
    case DsPowerMax | DsPowerMin => Abs(Num(v, env))
    case DsSnrMin => -Num(v, env)
    case _ => Num(v, env)
  }

  function Beats(m: Metric, env: Env): (Value, Value) -> bool {
    (a, b) => Score(m, a, env) > Score(m, b, env)
  }

  function WorstOf(ss: seq<Snapshot>, m: Metric, env: Env): Option<Value> {
    Best(Readings(ss, m, env), Beats(m, env))
  }

  lemma ReadingsStep(ss: seq<Snapshot>, i: nat, m: Metric, env: Env)
    requires i < |ss|
    ensures Readings(ss[..i + 1], m, env) == Readings(ss[..i], m, env) + Reading(m, env)(ss[i])
  {
    assert ss[..i + 1][..i] == ss[..i];
  }

  function Replaced(current: Option<Value>, m: Metric, s: Snapshot, env: Env): Option<Value> {
    if AsNumber(RawReading(m, s), env).None? then current
    else Better(current, RawReading(m, s), Beats(m, env))
  }

  /** One more snapshot replaces the worst reading only by a strictly worse one. */
  lemma WorstStep(ss: seq<Snapshot>, i: nat, m: Metric, env: Env)
    requires i < |ss|
    ensures WorstOf(ss[..i + 1], m, env) == Replaced(WorstOf(ss[..i], m, env), m, ss[i], env)
  {
    ReadingsStep(ss, i, m, env);
    var before := Readings(ss[..i], m, env);
    if Reading(m, env)(ss[i]) == [] {
      assert before + [] == before;
    } else {
      BestOfOneMore(before, RawReading(m, ss[i]), Beats(m, env));
    }
  }

  /** A reading is taken from a snapshot exactly when its coverage state says "samples". */
  lemma ReadingIffSample(m: Metric, s: Snapshot, env: Env)
    requires !IsCount(m) && m != SnrWarnMin
    ensures |Reading(m, env)(s)| == if StateOf(m, s, env) == Samples then 1 else 0
  {
  }

  lemma {:induction false} SamplesCountReadings(ss: seq<Snapshot>, m: Metric, total: nat, env: Env)
    requires !IsCount(m) && m != SnrWarnMin
    ensures CoverageOf(ss, m, total, env).samples == |Readings(ss, m, env)|
  {
    if ss != [] {
      SamplesCountReadings(ss[..|ss| - 1], m, total, env);
      ReadingIffSample(m, ss[|ss| - 1], env);
    }
  }

  lemma BeatsIsOrder(m: Metric, env: Env)
    ensures StrictWeakOrder(Beats(m, env))
  {
  }

  /** A worst value is None exactly when the metric has no samples; otherwise it is the reading of
      some snapshot, none is worse, and every earlier one is strictly better. */
  lemma WorstIsFirstExtreme(ss: seq<Snapshot>, m: Metric, total: nat, env: Env)
    requires !IsCount(m) && m != SnrWarnMin
    ensures WorstOf(ss, m, env).None? <==> CoverageOf(ss, m, total, env).samples == 0
    ensures WorstOf(ss, m, env).Some? ==> FirstBest(Readings(ss, m, env), WorstOf(ss, m, env).value, Beats(m, env))
  {
    SamplesCountReadings(ss, m, total, env);
    BeatsIsOrder(m, env);
    BestIsFirstBest(Readings(ss, m, env), Beats(m, env));
  }

  // ----- The SNR warning of the worst SNR -----

  /** The pair (`ds_snr_min`, `ds_snr_warn_min`) as the loop updates it. */
  datatype SnrState = SnrState(min: Option<Value>, warn: Option<Value>)

  function SnrStep(w: SnrState, s: Snapshot, env: Env): SnrState {
    var raw := RawReading(DsSnrMin, s);
    if AsNumber(raw, env).None? then w
    else
      var snr := Num(raw, env);
      var at := if w.min.None? || snr < Num(w.min.value, env) then SnrState(Some(raw), None) else w;
      var derived := DerivedWarning(s, env).1;
      if snr == Num(at.min.value, env) && at.warn.None? && derived.Some? then at.(warn := derived) else at
  }

  function SnrFold(ss: seq<Snapshot>, env: Env): SnrState {
    if ss == [] then SnrState(None, None) else SnrStep(SnrFold(ss[..|ss| - 1], env), ss[|ss| - 1], env)
  }

  /** The threshold of a snapshot that has this SNR and yields one. */
  function WarningAt(s: Snapshot, snr: real, env: Env): Option<Value> {
    if AsNumber(RawReading(DsSnrMin, s), env) == Some(snr) then DerivedWarning(s, env).1 else None
  }

  function Warner(snr: real, env: Env): Snapshot -> Option<Value> { s => WarningAt(s, snr, env) }

  function FirstWarning(ss: seq<Snapshot>, snr: real, env: Env): Option<Value> { FirstSome(ss, Warner(snr, env)) }

  lemma SnrStepMin(w: SnrState, s: Snapshot, env: Env)
    ensures SnrStep(w, s, env).min
            == Replaced(w.min, DsSnrMin, s, env)
  {
  }

  lemma {:induction false} SnrFoldMin(ss: seq<Snapshot>, env: Env)
    ensures SnrFold(ss, env).min == WorstOf(ss, DsSnrMin, env)
  {
    if ss != [] {
      var n := |ss| - 1;
      SnrFoldMin(ss[..n], env);
      SnrStepMin(SnrFold(ss[..n], env), ss[n], env);
      WorstStep(ss, n, DsSnrMin, env);
      assert ss[..n + 1] == ss;
    }
  }

  lemma ReadingIsListed(ss: seq<Snapshot>, m: Metric, s: Snapshot, env: Env)
    requires s in ss && AsNumber(RawReading(m, s), env).Some?
    ensures RawReading(m, s) in Readings(ss, m, env)
  {
    FlatMapMembers(ss, Reading(m, env));
    assert RawReading(m, s) in Reading(m, env)(s);
  }

  /** No reading is worse than the worst. */
  lemma NothingWorse(ss: seq<Snapshot>, m: Metric, s: Snapshot, env: Env)
    requires s in ss && AsNumber(RawReading(m, s), env).Some?
    ensures WorstOf(ss, m, env).Some?
    ensures Score(m, RawReading(m, s), env) <= Score(m, WorstOf(ss, m, env).value, env)
  {
    ReadingIsListed(ss, m, s, env);
    BeatsIsOrder(m, env);
    BestIsFirstBest(Readings(ss, m, env), Beats(m, env));
    assert !Beats(m, env)(RawReading(m, s), WorstOf(ss, m, env).value);
  }

  /** No snapshot has a lower SNR, so none before the minimum warns at its level. */
  lemma NothingBelowMin(ss: seq<Snapshot>, snr: real, env: Env)
    requires WorstOf(ss, DsSnrMin, env).None? || snr < Num(WorstOf(ss, DsSnrMin, env).value, env)
    ensures FirstWarning(ss, snr, env).None?
  {
    FirstSomeIsFirst(ss, Warner(snr, env));
    forall s | s in ss ensures WarningAt(s, snr, env).None? {
      if AsNumber(RawReading(DsSnrMin, s), env) == Some(snr) {
        NothingWorse(ss, DsSnrMin, s, env);
      }
    }
  }

  /** `ds_snr_warn_min` is the threshold of the first snapshot, in order, that attains the minimum
      SNR and yields one. */
  lemma {:induction false} SnrWarnIsFirstAtMin(ss: seq<Snapshot>, env: Env)
    ensures SnrFold(ss, env).warn
            == var min := WorstOf(ss, DsSnrMin, env);
               if min.None? then None else FirstWarning(ss, Num(min.value, env), env)
  {
    if ss != [] {
      var n := |ss| - 1;
      var before := SnrFold(ss[..n], env);
      SnrWarnIsFirstAtMin(ss[..n], env);
      SnrFoldMin(ss[..n], env);
      SnrFoldMin(ss, env);
      var raw := RawReading(DsSnrMin, ss[n]);
      if AsNumber(raw, env).Some? && (before.min.None? || Num(raw, env) < Num(before.min.value, env)) {
        NothingBelowMin(ss[..n], Num(raw, env), env);
      }
    }
  }

  /** Without a single derived threshold there is no SNR warning. */
  lemma {:induction false} NoSampleNoWarning(ss: seq<Snapshot>, total: nat, env: Env)
    ensures CoverageOf(ss, SnrWarnMin, total, env).samples == 0 ==> SnrFold(ss, env).warn.None?
  {
    if ss != [] {
      NoSampleNoWarning(ss[..|ss| - 1], total, env);
      WarningNeedsSample(ss[|ss| - 1].dsChannels, 0.0, env);
      SnrWarningStates(ss[|ss| - 1], env);
    }
  }

  lemma {:induction false} WarningNeedsSample(channels: seq<Fields>, snr: real, env: Env)
    ensures SnrWarning(channels, snr, env).1.Some? <==> SnrWarning(channels, snr, env).0.Samples?
    ensures SnrWarning(channels, snr, env).1.Some? ==> AsNumber(SnrWarning(channels, snr, env).1.value, env).Some?
  {
    if channels != [] {
      WarningNeedsSample(channels[1..], snr, env);
    }
  }

  lemma SnrWarningStates(s: Snapshot, env: Env)
    ensures DerivedWarning(s, env).1.Some? <==> DerivedWarning(s, env).0.Samples?
  {
    WarningNeedsSample(s.dsChannels, Num(Field(SummaryOf(s), "ds_snr_min"), env), env);
  }

  // ----- Averages and totals -----

  function Nums(vs: seq<Value>, env: Env): seq<real> {
    if vs == [] then [] else Nums(vs[..|vs| - 1], env) + [Num(vs[|vs| - 1], env)]
  }

  function Sum(xs: seq<real>): real { if xs == [] then 0.0 else Sum(xs[..|xs| - 1]) + xs[|xs| - 1] }

  function Average(xs: seq<real>): Option<real> {
    if xs == [] then None else Some(Sum(xs) / |xs| as real)
  }

  lemma {:induction false} NumsShape(vs: seq<Value>, env: Env)
    ensures |Nums(vs, env)| == |vs| && forall i | 0 <= i < |vs| :: Nums(vs, env)[i] == Num(vs[i], env)
  {
    if vs != [] {
      NumsShape(vs[..|vs| - 1], env);
    }
  }

  lemma {:induction false} SumBounds(xs: seq<real>, lo: real, hi: real)
    requires forall x | x in xs :: lo <= x <= hi
    ensures lo * |xs| as real <= Sum(xs) <= hi * |xs| as real
  {
    if xs != [] {
      var n := |xs| - 1;
      assert forall x | x in xs[..n] :: x in xs;
      SumBounds(xs[..n], lo, hi);
      assert xs[n] in xs;
      assert lo * n as real + lo == lo * |xs| as real;
      assert hi * n as real + hi == hi * |xs| as real;
    }
  }

  lemma DivideBounds(sum: real, n: real, lo: real, hi: real)
    requires n > 0.0 && lo * n <= sum <= hi * n
    ensures lo <= sum / n <= hi
  {
    var q := sum / n;
    assert q * n == sum;
    assert q < lo ==> q * n < lo * n;
    assert q > hi ==> q * n > hi * n;
  }

  lemma AverageBounds(xs: seq<real>, lo: real, hi: real)
    requires forall i | 0 <= i < |xs| :: lo <= xs[i] <= hi
    ensures Average(xs).Some? ==> lo <= Average(xs).value <= hi
  {
    if xs != [] {
      SumBounds(xs, lo, hi);
      DivideBounds(Sum(xs), |xs| as real, lo, hi);
    }
  }

  function AverageOf(ss: seq<Snapshot>, m: Metric, env: Env): Option<real> {
    Average(Nums(Readings(ss, m, env), env))
  }

  /** An average is None exactly when its metric has no samples, and otherwise lies between the
      bounds of its readings. */
  lemma AverageNeedsSamples(ss: seq<Snapshot>, m: Metric, total: nat, env: Env, lo: real, hi: real)
    requires !IsCount(m) && m != SnrWarnMin
    requires forall v | v in Readings(ss, m, env) :: lo <= Num(v, env) <= hi
    ensures AverageOf(ss, m, env).None? <==> CoverageOf(ss, m, total, env).samples == 0
    ensures AverageOf(ss, m, env).Some? ==> lo <= AverageOf(ss, m, env).value <= hi
  {
    var readings := Readings(ss, m, env);
    SamplesCountReadings(ss, m, total, env);
    NumsShape(readings, env);
    assert forall i | 0 <= i < |readings| :: readings[i] in readings;
    AverageBounds(Nums(readings, env), lo, hi);
  }

  function SumOf(ss: seq<Snapshot>, m: Metric, env: Env): real { Sum(Nums(Readings(ss, m, env), env)) }

  function TotalOf(ss: seq<Snapshot>, m: Metric, env: Env): Option<real> {
    if Readings(ss, m, env) == [] then None else Some(SumOf(ss, m, env))
  }

  // ----- Health and worst channels -----

  function HealthOf(s: Snapshot): Value {
    if "health" in SummaryOf(s) then SummaryOf(s)["health"] else Text("unknown")
  }

  function Healths(ss: seq<Snapshot>): seq<Value> { FlatMap(ss, s => [HealthOf(s)]) }

  lemma {:induction false} OneHealthEach(ss: seq<Snapshot>)
    ensures |Healths(ss)| == |ss|
  {
    if ss != [] {
      OneHealthEach(ss[..|ss| - 1]);
    }
  }

  /** The health distribution counts every snapshot once. */
  lemma HealthSumsToTotal(ss: seq<Snapshot>)
    ensures IsTally(Tally(Healths(ss))) && Total(Tally(Healths(ss))) == |ss|
    ensures forall h :: Get(Tally(Healths(ss)), h) == Occurrences(Healths(ss), h)
  {
    OneHealthEach(ss);
    TallyCounts(Healths(ss));
  }

  function BadChannel(ch: Fields): (id: seq<Value>)
    ensures |id| <= 1
  {
    if Field(ch, "health") in {Text("good"), Text("tolerated")} then []
    else [if "channel_id" in ch then ch["channel_id"] else Number(0.0)]
  }

  datatype Direction = Ds | Us

  function ChannelsOf(s: Snapshot, d: Direction): seq<Fields> { if d.Ds? then s.dsChannels else s.usChannels }

  function BadIds(d: Direction): Snapshot -> seq<Value> { s => FlatMap(ChannelsOf(s, d), BadChannel) }

  function AllBadIds(ss: seq<Snapshot>, d: Direction): seq<Value> { FlatMap(ss, BadIds(d)) }

  predicate MoreOften(a: Entry<Value>, b: Entry<Value>) { a.count > b.count }

  function FirstFive<T>(s: seq<T>): seq<T> { if |s| <= 5 then s else s[..5] }

  function WorstChannels(ss: seq<Snapshot>, d: Direction): seq<Entry<Value>> {
    FirstFive(Sort(Tally(AllBadIds(ss, d)), MoreOften))
  }

  /** The worst channels: each with the number of times it was bad, the most frequent first, at most
      five, and no channel left out was bad more often than one that is listed. */
  lemma WorstChannelsAreMostFrequent(ss: seq<Snapshot>, d: Direction)
    ensures var ids, worst := AllBadIds(ss, d), WorstChannels(ss, d);
            && |worst| == Min(5, |FirstSeen(ids)|)
            && (forall e | e in worst :: e.count > 0 && e.count == Occurrences(ids, e.key))
            && (forall i, j | 0 <= i < j < |worst| :: worst[i].count >= worst[j].count && worst[i].key != worst[j].key)
            && forall id, e | e in worst && (forall f | f in worst :: f.key != id) :: Occurrences(ids, id) <= e.count
  {
    var ids := AllBadIds(ss, d);
    var t := Tally(ids);
    var ranked, worst := Sort(t, MoreOften), WorstChannels(ss, d);
    TallyCounts(ids);
    TallyKeysAreFirstSeen(ids);
    KeysLength(t);
    SortPermutes(t, MoreOften);
    SortMembers(t, MoreOften);
    SortSorts(t, MoreOften);
    forall e: Entry<Value>
      ensures e in worst ==> e.count > 0 && e.count == Occurrences(ids, e.key)
    {
      EntriesAreCounts(t, e);
      assert e in worst ==> e in ranked;
    }
    forall i, j | 0 <= i < j < |ranked| ensures ranked[i].key != ranked[j].key {
      RankedOnce(t, ranked, i, j);
    }
    forall id, e | e in worst && (forall f | f in worst :: f.key != id) ensures Occurrences(ids, id) <= e.count {
      LeftOut(t, ranked, id, e);
    }
  }

  lemma {:induction false} KeysLength<T>(t: seq<Entry<T>>)
    ensures |Keys(t)| == |t|
  {
    if t != [] {
      KeysLength(t[1..]);
    }
  }

  lemma RankedOnce(t: seq<Entry<Value>>, ranked: seq<Entry<Value>>, i: nat, j: nat)
    requires IsTally(t) && multiset(ranked) == multiset(t) && i < j < |ranked|
    ensures ranked[i].key != ranked[j].key
  {
    var a, b := ranked[i], ranked[j];
    assert a in multiset(t) && b in multiset(t);
    EntriesAreCounts(t, a);
    EntriesAreCounts(t, b);
    if a == b {
      AppearsTwice(ranked, i, j);
    }
  }

  lemma LeftOut(t: seq<Entry<Value>>, ranked: seq<Entry<Value>>, id: Value, e: Entry<Value>)
    requires IsTally(t) && multiset(ranked) == multiset(t) && Sorted(ranked, MoreOften)
    requires e in FirstFive(ranked) && forall f | f in FirstFive(ranked) :: f.key != id
    ensures Get(t, id) <= e.count
  {
    if Get(t, id) > 0 {
      var f := Entry(id, Get(t, id));
      EntriesAreCounts(t, f);
      assert f in multiset(ranked);
      var j :| 0 <= j < |ranked| && ranked[j] == f;
      var i :| 0 <= i < |FirstFive(ranked)| && FirstFive(ranked)[i] == e;
      assert j >= 5 > i;
    }
  }

  /** Channels that were bad equally often are ranked in the order in which they were first seen. */
  lemma EquallyBadInOrder(ss: seq<Snapshot>, d: Direction, count: nat)
    ensures var t := Tally(AllBadIds(ss, d));
            var level := (e: Entry<Value>) => e.count == count;
            && Filter(Sort(t, MoreOften), level) == Filter(t, level)
            && Keys(t) == FirstSeen(AllBadIds(ss, d))
  {
    SortKeepsTies(Tally(AllBadIds(ss, d)), MoreOften, (e: Entry<Value>) => e.count == count);
    TallyKeysAreFirstSeen(AllBadIds(ss, d));
  }

  // ----- What is read from one snapshot -----

  /** Where each metric is read. */
  const KEYS := [(DsPower, "ds_power_avg"), (DsSnr, "ds_snr_avg"), (UsPower, "us_power_avg"),
                 (DsPowerMax, "ds_power_max"), (DsPowerMin, "ds_power_min"), (UsPowerMax, "us_power_max"),
                 (DsSnrMin, "ds_snr_min"),
                 (UncorrectableMax, "ds_uncorrectable_errors"), (CorrectableMax, "ds_correctable_errors")]

  /** `fields` is the summary of `s`; what is not a mapping is read as an empty one. */
  ghost predicate HasSummary(s: Snapshot, fields: Fields) {
    s.summary == Some(fields) || (s.summary.None? && fields == map[])
  }

  lemma KeysAgree(i: nat)
    requires i < |KEYS|
    ensures SummaryKey(KEYS[i].0) == KEYS[i].1
    ensures IsCounter(KEYS[i].0) <==> i >= 7
    ensures !IsCount(KEYS[i].0) && KEYS[i].0 != SnrWarnMin
  {
  }

  /** Whether the modem is known not to count errors. */
  ghost predicate CountsNoErrors(fields: Fields) {
    "errors_supported" in fields && fields["errors_supported"] in FALSY
  }

  /** What a stored value amounts to. */
  ghost predicate AmountsTo(v: Value, state: State, env: Env) {
    match v
    case Null => state == Nulls
    case Number(_) => state == Samples
    case Text(text) => state == if env.parse(text).Some? then Samples else Invalid
    case _ => state == Invalid
  }

  /** Each metric is read from its own key. An error counter that is not supported is neither
      missing nor null nor a sample, whatever the summary holds; anything else is what it is. */
  lemma MetricIsRead(i: nat, s: Snapshot, fields: Fields, env: Env)
    requires i < |KEYS| && HasSummary(s, fields)
    ensures var m, key := KEYS[i].0, KEYS[i].1;
            var state := StateOf(m, s, env);
            && (if i >= 7 && CountsNoErrors(fields) then state == Unsupported
                else if key !in fields then state == Missing
                else AmountsTo(fields[key], state, env))
            && Reading(m, env)(s) == if state == Samples && key in fields then [fields[key]] else []
  {
    KeysAgree(i);
    if "errors_supported" in fields {
      FalsyValues(fields["errors_supported"]);
    }
  }

  /** A snapshot's health is the summary's, or unknown. */
  lemma HealthIsRead(s: Snapshot, fields: Fields)
    requires HasSummary(s, fields)
    ensures HealthOf(s) == match "health" in fields
                           case true => fields["health"]
                           case false => Text("unknown")
  {
  }

  ghost function States(ss: seq<Snapshot>, m: Metric, env: Env): seq<State> {
    if ss == [] then [] else States(ss[..|ss| - 1], m, env) + [StateOf(m, ss[|ss| - 1], env)]
  }

  /** The counter of a state. */
  ghost function Covered(c: Coverage, state: State): nat {
    match state
    case Samples => c.samples
    case Nulls => c.nulls
    case Unsupported => c.unsupported
    case Invalid => c.invalid
    case Missing => c.missing
  }

  lemma MarkCounts(c: Coverage, marked: State, state: State)
    ensures Covered(Mark(c, marked), state) == Covered(c, state) + if marked == state then 1 else 0
    ensures Mark(c, marked).total == c.total
  {
  }

  /** Coverage counts the snapshots in each state. */
  lemma {:induction false} CoverageCounts(ss: seq<Snapshot>, m: Metric, total: nat, env: Env, state: State)
    ensures Covered(CoverageOf(ss, m, total, env), state) == Occurrences(States(ss, m, env), state)
    ensures CoverageOf(ss, m, total, env).total == total
  {
    if ss != [] {
      var n := |ss| - 1;
      CoverageCounts(ss[..n], m, total, env, state);
      MarkCounts(CoverageOf(ss[..n], m, total, env), StateOf(m, ss[n], env), state);
      TallyStep(States(ss[..n], m, env), StateOf(m, ss[n], env));
    }
  }

  ghost predicate AtSnr(ch: Fields, snr: real, env: Env) { AsNumber(Field(ch, "snr"), env) == Some(snr) }

  /** The first channel with the SNR looked for decides: it yields its threshold if that is a
      number. Without such a channel the threshold is missing. */
  lemma {:induction false} FirstAtSnr(channels: seq<Fields>, snr: real, env: Env, i: nat)
    requires i <= |channels| && (i < |channels| ==> AtSnr(channels[i], snr, env))
    requires forall j | 0 <= j < i :: !AtSnr(channels[j], snr, env)
    ensures SnrWarning(channels, snr, env)
            == if i == |channels| then (Missing, None)
               else match AsNumber(env.warnMin(channels[i]), env)
                 case Some(_) => (Samples, Some(env.warnMin(channels[i])))
                 case None => (Invalid, None)
  {
    if i > 0 {
      assert !AtSnr(channels[0], snr, env);
      FirstAtSnr(channels[1..], snr, env, i - 1);
    }
  }

  /** Without an SNR there is no warning, and for the same reason; otherwise the channels decide. */
  lemma WarningFollowsSnr(s: Snapshot, fields: Fields, env: Env)
    requires HasSummary(s, fields)
    ensures var state := StateOf(DsSnrMin, s, env);
            && StateOf(SnrWarnMin, s, env) == DerivedWarning(s, env).0
            && (state == Samples && "ds_snr_min" in fields && AsNumber(fields["ds_snr_min"], env).Some? ==>
                  DerivedWarning(s, env) == SnrWarning(s.dsChannels, AsNumber(fields["ds_snr_min"], env).value, env))
            && (state != Samples ==> DerivedWarning(s, env) == (state, None))
  {
  }

  /** A channel is bad unless its health is good or tolerated, and is known by its id, or as zero. */
  lemma BadUnlessGood(ch: Fields, id: Value)
    ensures BadChannel(ch) == [] <==>
            "health" in ch && (ch["health"] == Text("good") || ch["health"] == Text("tolerated"))
    ensures BadChannel(ch) == [id] ==> ("channel_id" in ch && ch["channel_id"] == id)
                                       || ("channel_id" !in ch && id == Number(0.0))
  {
  }

  /** Downstream and upstream are ranked apart. */
  lemma BadIdsByDirection(s: Snapshot)
    ensures BadIds(Ds)(s) == FlatMap(s.dsChannels, BadChannel) && BadIds(Us)(s) == FlatMap(s.usChannels, BadChannel)
  {
  }

  // ----- The whole aggregate -----

  datatype Sample = Sample(
    timestamp: string, dsPower: Value, dsSnr: Value, usPower: Value, uncorrectable: Value, health: Value)

  function NumberOrNull(v: Value, env: Env): Value { if AsNumber(v, env).Some? then v else Null }

  function SampleOf(s: Snapshot, env: Env): Sample {
    Sample(env.canonical(s.timestamp),
           NumberOrNull(RawReading(DsPower, s), env), NumberOrNull(RawReading(DsSnr, s), env),
           NumberOrNull(RawReading(UsPower, s), env), NumberOrNull(RawReading(UncorrectableMax, s), env),
           HealthOf(s))
  }

  /** The stored value, if it is a number. */
  ghost predicate ShownAs(v: Value, fields: Fields, key: string, env: Env) {
    if key in fields && AsNumber(fields[key], env).Some? then v == fields[key] else v == Null
  }

  /** A sample shows the averages and the uncorrectable counter as stored, and None for what is no
      number or not supported. */
  lemma SampleIsRead(s: Snapshot, fields: Fields, env: Env)
    requires HasSummary(s, fields)
    ensures var x := SampleOf(s, env);
            && x.timestamp == env.canonical(s.timestamp) && x.health == HealthOf(s)
            && ShownAs(x.dsPower, fields, "ds_power_avg", env)
            && ShownAs(x.dsSnr, fields, "ds_snr_avg", env)
            && ShownAs(x.usPower, fields, "us_power_avg", env)
            && (if CountsNoErrors(fields) then x.uncorrectable == Null
                else ShownAs(x.uncorrectable, fields, "ds_uncorrectable_errors", env))
  {
    if "errors_supported" in fields {
      FalsyValues(fields["errors_supported"]);
    }
  }

  datatype Aggregate = Aggregate(
    count: nat,
    firstObserved: Option<string>,
    lastObserved: Option<string>,
    latest: Option<Snapshot>,
    provenance: P.Report,
    health: seq<Entry<Value>>,
    worst: map<Metric, Option<Value>>,
    healthCounts: map<Metric, nat>,
    coverage: map<Metric, Coverage>,
    averages: map<Metric, Option<real>>,
    totals: map<Metric, Option<real>>,
    worstDs: seq<Entry<Value>>,
    worstUs: seq<Entry<Value>>,
    samples: seq<Sample>,
    notes: seq<P.Candidate>)

  /** Earlier timestamp first, the content digest among equal timestamps. */
  function Earlier(env: Env): (Snapshot, Snapshot) -> bool {
    (a: Snapshot, b: Snapshot) =>
      var x, y := env.canonical(a.timestamp), env.canonical(b.timestamp);
      StringLess(x, y) || (x == y && StringLess(env.digest(a), env.digest(b)))
  }

  /** `_ordered_snapshots` */
  function Ordered(ss: seq<Snapshot>, env: Env): seq<Snapshot> { Sort(ss, Earlier(env)) }

  function WorstValue(ss: seq<Snapshot>, m: Metric, env: Env): Option<Value> {
    if m == SnrWarnMin then SnrFold(ss, env).warn else WorstOf(ss, m, env)
  }

  function HealthName(m: Metric): string {
    match m
    case HealthCriticalCount => "critical"
    case HealthMarginalCount => "marginal"
    case _ => "tolerated"
  }

  function HealthCount(ss: seq<Snapshot>, m: Metric): nat {
    if m == TotalSnapshots then |ss| else Occurrences(Healths(ss), Text(HealthName(m)))
  }

  ghost predicate Numbers(a: Aggregate, ss: seq<Snapshot>, env: Env) {
    && (forall m :: m in a.coverage && a.coverage[m] == CoverageOf(ss, m, |ss|, env))
    && (forall m :: m in a.averages <==> m in AVERAGED)
    && (forall m | m in a.averages :: a.averages[m] == AverageOf(ss, m, env))
    && (forall m :: m in a.totals <==> IsCounter(m))
    && (forall m | m in a.totals :: a.totals[m] == TotalOf(ss, m, env))
    && (forall m :: m in a.worst <==> !IsCount(m) && m !in AVERAGED)
    && (forall m | m in a.worst :: a.worst[m] == WorstValue(ss, m, env))
    && (forall m :: m in a.healthCounts <==> IsCount(m))
    && (forall m | m in a.healthCounts :: a.healthCounts[m] == HealthCount(ss, m))
  }

  ghost predicate Listings(a: Aggregate, ss: seq<Snapshot>, env: Env) {
    && a.count == |ss| && |a.samples| == |ss|
    && (forall i | 0 <= i < |ss| :: a.samples[i] == SampleOf(ss[i], env))
    && a.firstObserved == (if ss == [] then None else Some(env.canonical(ss[0].timestamp)))
    && a.lastObserved == (if ss == [] then None else Some(env.canonical(ss[|ss| - 1].timestamp)))
    && a.latest == (if ss == [] then None else Some(ss[|ss| - 1]))
    && a.health == Tally(Healths(ss))
    && a.worstDs == WorstChannels(ss, Ds) && a.worstUs == WorstChannels(ss, Us)
    && a.provenance == P.ProvenanceOf(ss) && a.notes == P.DiagnosticNotes(ss, env)
  }

  /** The aggregate reports exactly what the ordered snapshots `ss` say. */
  ghost predicate Describes(a: Aggregate, ss: seq<Snapshot>, env: Env) {
    Numbers(a, ss, env) && Listings(a, ss, env)
  }

  // ----- The loop -----

  function Position(m: Metric): nat {
    match m
    case DsPower => 0 case DsSnr => 1 case UsPower => 2
    case DsPowerMax => 3 case DsPowerMin => 4 case UsPowerMax => 5 case DsSnrMin => 6
    case UncorrectableMax => 7 case CorrectableMax => 8
    case SnrWarnMin => 9
    case HealthCriticalCount => 10 case HealthMarginalCount => 11
    case HealthToleratedCount => 12 case TotalSnapshots => 13
  }

  /** Consecutive metrics, so none is listed twice. */
  predicate Consecutive(ms: seq<Metric>) {
    forall i | 0 <= i < |ms| :: Position(ms[i]) == Position(ms[0]) + i
  }

  lemma {:induction false} ListsAreConsecutive()
    ensures Consecutive(AVERAGED) && Consecutive(EXTREMES) && Consecutive(COUNTERS)
    ensures Consecutive(TRACKED) && Consecutive(COUNTS)
    ensures forall m ::
              (m in TRACKED <==> !IsCount(m)) && (m in COUNTS <==> IsCount(m)) && (m in COUNTERS <==> IsCounter(m))
  {
    forall m
      ensures (m in TRACKED <==> !IsCount(m)) && (m in COUNTS <==> IsCount(m)) && (m in COUNTERS <==> IsCounter(m))
    {
      if IsCount(m) {
        assert COUNTS[Position(m) - 10] == m;
      } else {
        assert TRACKED[Position(m)] == m;
      }
      if IsCounter(m) {
        assert COUNTERS[Position(m) - 7] == m;
      }
    }
  }

  method CoverSnapshot(coverage: map<Metric, Coverage>, ms: seq<Metric>, s: Snapshot, env: Env)
    returns (r: map<Metric, Coverage>)
    requires Consecutive(ms) && forall m | m in ms :: m in coverage
    ensures r.Keys == coverage.Keys
    ensures forall m | m in r :: r[m] == if m in ms then Mark(coverage[m], StateOf(m, s, env)) else coverage[m]
  {
    r := coverage;
    for i := 0 to |ms|
      invariant r.Keys == coverage.Keys
      invariant forall m | m in r :: r[m] == if m in ms[..i] then Mark(coverage[m], StateOf(m, s, env)) else coverage[m]
    {
      assert ms[..i + 1] == ms[..i] + [ms[i]];
      assert ms[i] !in ms[..i];
      r := r[ms[i] := Mark(r[ms[i]], StateOf(ms[i], s, env))];
    }
    assert ms[..|ms|] == ms;
  }

  lemma NumsOfReading(m: Metric, s: Snapshot, env: Env)
    ensures Nums(Reading(m, env)(s), env)
            == match AsNumber(RawReading(m, s), env)
               case Some(x) => [x]
               case None => []
  {
    if AsNumber(RawReading(m, s), env).Some? {
      assert Reading(m, env)(s) == [RawReading(m, s)];
    }
  }

  method CollectReadings(values: map<Metric, seq<real>>, ms: seq<Metric>, s: Snapshot, env: Env)
    returns (r: map<Metric, seq<real>>)
    requires Consecutive(ms) && forall m | m in ms :: m in values
    ensures r.Keys == values.Keys
    ensures forall m | m in r :: r[m] == values[m] + if m in ms then Nums(Reading(m, env)(s), env) else []
  {
    r := values;
    for i := 0 to |ms|
      invariant r.Keys == values.Keys
      invariant forall m | m in r :: r[m] == values[m] + if m in ms[..i] then Nums(Reading(m, env)(s), env) else []
    {
      assert ms[..i + 1] == ms[..i] + [ms[i]];
      assert ms[i] !in ms[..i];
      NumsOfReading(ms[i], s, env);
      var number := AsNumber(RawReading(ms[i], s), env);
      if number.Some? {
        r := r[ms[i] := r[ms[i]] + [number.value]];
      }
    }
    assert ms[..|ms|] == ms;
  }

  method ReplaceWorse(worst: map<Metric, Option<Value>>, ms: seq<Metric>, s: Snapshot, env: Env)
    returns (r: map<Metric, Option<Value>>)
    requires Consecutive(ms) && forall m | m in ms :: m in worst
    ensures r.Keys == worst.Keys
    ensures forall m | m in r :: r[m] == if m in ms then Replaced(worst[m], m, s, env) else worst[m]
  {
    r := worst;
    for i := 0 to |ms|
      invariant r.Keys == worst.Keys
      invariant forall m | m in r :: r[m] == if m in ms[..i] then Replaced(worst[m], m, s, env) else worst[m]
    {
      var m := ms[i];
      assert ms[..i + 1] == ms[..i] + [m];
      assert m !in ms[..i];
      r := r[m := Replaced(r[m], m, s, env)];
    }
    assert ms[..|ms|] == ms;
  }

  method AddCounters(totals: map<Metric, real>, supported: set<Metric>, ms: seq<Metric>, s: Snapshot, env: Env)
    returns (r: map<Metric, real>, seen: set<Metric>)
    requires Consecutive(ms) && forall m | m in ms :: m in totals
    ensures r.Keys == totals.Keys
    ensures forall m | m in r :: r[m] == totals[m] + if m in ms then Num(RawReading(m, s), env) else 0.0
    ensures forall m :: m in seen <==> m in supported || (m in ms && AsNumber(RawReading(m, s), env).Some?)
  {
    r, seen := totals, supported;
    for i := 0 to |ms|
      invariant r.Keys == totals.Keys
      invariant forall m | m in r :: r[m] == totals[m] + if m in ms[..i] then Num(RawReading(m, s), env) else 0.0
      invariant forall m :: m in seen <==> m in supported || (m in ms[..i] && AsNumber(RawReading(m, s), env).Some?)
    {
      var m := ms[i];
      assert ms[..i + 1] == ms[..i] + [m];
      assert m !in ms[..i];
      var number := AsNumber(RawReading(m, s), env);
      if number.Some? {
        seen := seen + {m};
        r := r[m := r[m] + number.value];
      }
    }
    assert ms[..|ms|] == ms;
  }

  // What the loop has established after the snapshots `ss`, and how one more preserves it.

  ghost predicate CoverageSoFar(coverage: map<Metric, Coverage>, ss: seq<Snapshot>, total: nat, env: Env) {
    forall m :: (m in coverage <==> !IsCount(m)) && (m in coverage ==> coverage[m] == CoverageOf(ss, m, total, env))
  }

  ghost predicate ValuesSoFar(values: map<Metric, seq<real>>, ss: seq<Snapshot>, env: Env) {
    forall m :: (m in values <==> m in AVERAGED) && (m in values ==> values[m] == Nums(Readings(ss, m, env), env))
  }

  ghost predicate HasExtremes(keys: set<Metric>) { forall m :: m in keys <==> m in EXTREMES + COUNTERS }

  ghost predicate WorstSoFar(worst: map<Metric, Option<Value>>, ss: seq<Snapshot>, env: Env) {
    HasExtremes(worst.Keys) && forall m | m in worst :: worst[m] == WorstOf(ss, m, env)
  }

  ghost predicate SumsSoFar(totals: map<Metric, real>, ss: seq<Snapshot>, env: Env) {
    forall m :: (m in totals <==> IsCounter(m)) && (m in totals ==> totals[m] == SumOf(ss, m, env))
  }

  ghost predicate SupportSoFar(supported: set<Metric>, ss: seq<Snapshot>, env: Env) {
    forall m :: m in supported <==> IsCounter(m) && TotalOf(ss, m, env).Some?
  }

  ghost predicate TotalsSoFar(totals: map<Metric, real>, supported: set<Metric>, ss: seq<Snapshot>, env: Env) {
    SumsSoFar(totals, ss, env) && SupportSoFar(supported, ss, env)
  }

  lemma NumsStep(ss: seq<Snapshot>, i: nat, m: Metric, env: Env)
    requires i < |ss|
    ensures var before, one := Nums(Readings(ss[..i], m, env), env), Nums(Reading(m, env)(ss[i]), env);
            && Nums(Readings(ss[..i + 1], m, env), env) == before + one
            && Sum(before + one) == Sum(before) + Num(RawReading(m, ss[i]), env)
  {
    ReadingsStep(ss, i, m, env);
    var vs, v := Readings(ss[..i], m, env), RawReading(m, ss[i]);
    var before := Nums(vs, env);
    if Reading(m, env)(ss[i]) == [] {
      assert vs + [] == vs && before + [] == before;
    } else {
      assert (vs + [v])[..|vs|] == vs && [v][..0] == [];
      assert (before + [Num(v, env)])[..|before|] == before;
    }
  }

  lemma CoverageStep(coverage: map<Metric, Coverage>, r: map<Metric, Coverage>, ss: seq<Snapshot>, i: nat, total: nat,
                     env: Env)
    requires i < |ss| && CoverageSoFar(coverage, ss[..i], total, env) && r.Keys == coverage.Keys
    requires forall m | m in r ::
               r[m] == if m in TRACKED then Mark(coverage[m], StateOf(m, ss[i], env)) else coverage[m]
    ensures CoverageSoFar(r, ss[..i + 1], total, env)
  {
    ListsAreConsecutive();
    assert ss[..i + 1][..i] == ss[..i];
  }

  lemma ValuesStep(values: map<Metric, seq<real>>, r: map<Metric, seq<real>>, ss: seq<Snapshot>, i: nat, env: Env)
    requires i < |ss| && ValuesSoFar(values, ss[..i], env) && r.Keys == values.Keys
    requires forall m | m in r :: r[m] == values[m] + if m in AVERAGED then Nums(Reading(m, env)(ss[i]), env) else []
    ensures ValuesSoFar(r, ss[..i + 1], env)
  {
    forall m | m in r ensures r[m] == Nums(Readings(ss[..i + 1], m, env), env) {
      NumsStep(ss, i, m, env);
    }
  }

  lemma ExtremesStep(worst: map<Metric, Option<Value>>, r: map<Metric, Option<Value>>, ss: seq<Snapshot>, i: nat,
                     env: Env)
    requires i < |ss| && WorstSoFar(worst, ss[..i], env) && r.Keys == worst.Keys
    requires forall m | m in r :: r[m] == Replaced(worst[m], m, ss[i], env)
    ensures WorstSoFar(r, ss[..i + 1], env)
  {
    forall m | m in r ensures r[m] == WorstOf(ss[..i + 1], m, env) {
      assert worst[m] == WorstOf(ss[..i], m, env);
      WorstStep(ss, i, m, env);
    }
  }

  lemma SumsStep(totals: map<Metric, real>, r: map<Metric, real>, ss: seq<Snapshot>, i: nat, env: Env)
    requires i < |ss| && SumsSoFar(totals, ss[..i], env) && r.Keys == totals.Keys
    requires forall m | m in r :: r[m] == totals[m] + Num(RawReading(m, ss[i]), env)
    ensures SumsSoFar(r, ss[..i + 1], env)
  {
    forall m | m in r ensures r[m] == SumOf(ss[..i + 1], m, env) {
      assert totals[m] == SumOf(ss[..i], m, env);
      SumStep(ss, i, m, env);
    }
  }

  lemma SupportStep(supported: set<Metric>, seen: set<Metric>, ss: seq<Snapshot>, i: nat, env: Env)
    requires i < |ss| && SupportSoFar(supported, ss[..i], env)
    requires forall m :: m in seen <==> m in supported || (IsCounter(m) && AsNumber(RawReading(m, ss[i]), env).Some?)
    ensures SupportSoFar(seen, ss[..i + 1], env)
  {
    forall m ensures m in seen <==> IsCounter(m) && TotalOf(ss[..i + 1], m, env).Some? {
      SumStep(ss, i, m, env);
    }
  }

  lemma SumStep(ss: seq<Snapshot>, i: nat, m: Metric, env: Env)
    requires i < |ss|
    ensures SumOf(ss[..i + 1], m, env) == SumOf(ss[..i], m, env) + Num(RawReading(m, ss[i]), env)
    ensures TotalOf(ss[..i + 1], m, env).Some?
            <==> TotalOf(ss[..i], m, env).Some? || AsNumber(RawReading(m, ss[i]), env).Some?
  {
    NumsStep(ss, i, m, env);
    ReadingsStep(ss, i, m, env);
  }

  lemma HealthsStep(ss: seq<Snapshot>, i: nat)
    requires i < |ss|
    ensures Tally(Healths(ss[..i + 1])) == Bump(Tally(Healths(ss[..i])), HealthOf(ss[i]))
    ensures forall h :: Occurrences(Healths(ss[..i + 1]), h)
                        == Occurrences(Healths(ss[..i]), h) + if HealthOf(ss[i]) == h then 1 else 0
  {
    assert ss[..i + 1][..i] == ss[..i];
    assert Healths(ss[..i + 1]) == Healths(ss[..i]) + [HealthOf(ss[i])];
    TallyStep(Healths(ss[..i]), HealthOf(ss[i]));
  }

  lemma AppendAll<T>(done: seq<T>, a: seq<T>, b: seq<T>, c: seq<T>)
    requires done == a + b && |c| <= 1
    ensures done + c == a + (b + c)
    ensures done + c == if c == [] then done else done + [c[0]]
  {
  }

  method CountBadChannels(counts: seq<Entry<Value>>, channels: seq<Fields>, ghost before: seq<Value>)
    returns (r: seq<Entry<Value>>)
    requires counts == Tally(before)
    ensures r == Tally(before + FlatMap(channels, BadChannel))
  {
    r := counts;
    ghost var done := before;
    for j := 0 to |channels|
      invariant done == before + FlatMap(channels[..j], BadChannel) && r == Tally(done)
    {
      assert channels[..j + 1][..j] == channels[..j];
      var id := BadChannel(channels[j]);
      AppendAll(done, before, FlatMap(channels[..j], BadChannel), id);
      if id != [] {
        TallyStep(done, id[0]);
        r := Bump(r, id[0]);
      }
      done := done + id;
    }
    assert channels[..|channels|] == channels;
  }

  /** `_bad_channels` */
  method RankBadChannels(ss: seq<Snapshot>, d: Direction) returns (worst: seq<Entry<Value>>)
    ensures worst == WorstChannels(ss, d)
  {
    var counts: seq<Entry<Value>> := [];
    for i := 0 to |ss|
      invariant counts == Tally(AllBadIds(ss[..i], d))
    {
      assert ss[..i + 1][..i] == ss[..i];
      counts := CountBadChannels(counts, ChannelsOf(ss[i], d), AllBadIds(ss[..i], d));
    }
    assert ss[..|ss|] == ss;
    worst := FirstFive(Sort(counts, MoreOften));
  }

  datatype Loop = Loop(
    coverage: map<Metric, Coverage>,
    values: map<Metric, seq<real>>,
    worst: map<Metric, Option<Value>>,
    snr: SnrState,
    totals: map<Metric, real>,
    supported: set<Metric>,
    health: seq<Entry<Value>>,
    healthCounts: map<Metric, nat>,
    samples: seq<Sample>)

  ghost predicate HealthSoFar(health: seq<Entry<Value>>, counts: map<Metric, nat>, ss: seq<Snapshot>) {
    && health == Tally(Healths(ss))
    && forall m :: (m in counts <==> IsCount(m) && m != TotalSnapshots)
                   && (m in counts ==> counts[m] == Occurrences(Healths(ss), Text(HealthName(m))))
  }

  ghost predicate LoopInv(l: Loop, ss: seq<Snapshot>, total: nat, env: Env) {
    && CoverageSoFar(l.coverage, ss, total, env)
    && ValuesSoFar(l.values, ss, env)
    && WorstSoFar(l.worst, ss, env)
    && l.snr == SnrFold(ss, env)
    && TotalsSoFar(l.totals, l.supported, ss, env)
    && HealthSoFar(l.health, l.healthCounts, ss)
    && SampledSoFar(l.samples, ss, env)
  }

  ghost predicate SampledSoFar(samples: seq<Sample>, ss: seq<Snapshot>, env: Env) {
    |samples| == |ss| && forall i | 0 <= i < |ss| :: samples[i] == SampleOf(ss[i], env)
  }

  lemma HealthKept(health: seq<Entry<Value>>, counts: map<Metric, nat>, c: map<Metric, nat>, ss: seq<Snapshot>, i: nat)
    requires i < |ss| && HealthSoFar(health, counts, ss[..i]) && c.Keys == counts.Keys
    requires forall m | m in c :: c[m] == counts[m] + if HealthOf(ss[i]) == Text(HealthName(m)) then 1 else 0
    ensures HealthSoFar(Bump(health, HealthOf(ss[i])), c, ss[..i + 1])
  {
    HealthsStep(ss, i);
  }

  method CountHealth(counts: map<Metric, nat>, value: Value) returns (c: map<Metric, nat>)
    requires forall m :: m in counts <==> IsCount(m) && m != TotalSnapshots
    ensures c.Keys == counts.Keys
    ensures forall m | m in c :: c[m] == counts[m] + if value == Text(HealthName(m)) then 1 else 0
  {
    NamesDiffer();
    c := counts;
    if value == Text("critical") {
      c := c[HealthCriticalCount := c[HealthCriticalCount] + 1];
    } else if value == Text("marginal") {
      c := c[HealthMarginalCount := c[HealthMarginalCount] + 1];
    } else if value == Text("tolerated") {
      c := c[HealthToleratedCount := c[HealthToleratedCount] + 1];
    }
  }

  lemma NamesDiffer()
    ensures "critical" != "marginal" && "critical" != "tolerated" && "marginal" != "tolerated"
  {
    assert "critical"[0] != "marginal"[0] && "critical"[0] != "tolerated"[0] && "marginal"[0] != "tolerated"[0];
  }

  method ReadNumbers(l: Loop, s: Snapshot, ghost ss: seq<Snapshot>, ghost i: nat, total: nat, env: Env)
    returns (coverage: map<Metric, Coverage>, values: map<Metric, seq<real>>)
    requires i < |ss| && s == ss[i] && CoverageSoFar(l.coverage, ss[..i], total, env)
             && ValuesSoFar(l.values, ss[..i], env)
    ensures CoverageSoFar(coverage, ss[..i + 1], total, env) && ValuesSoFar(values, ss[..i + 1], env)
  {
    ListsAreConsecutive();
    coverage := CoverSnapshot(l.coverage, TRACKED, s, env);
    CoverageStep(l.coverage, coverage, ss, i, total, env);
    values := CollectReadings(l.values, AVERAGED, s, env);
    ValuesStep(l.values, values, ss, i, env);
  }

  method ReplaceAllWorse(worst: map<Metric, Option<Value>>, s: Snapshot, env: Env)
    returns (r: map<Metric, Option<Value>>)
    requires forall m :: m in worst <==> m in EXTREMES + COUNTERS
    ensures r.Keys == worst.Keys
    ensures forall m | m in r :: r[m] == Replaced(worst[m], m, s, env)
  {
    ListsAreConsecutive();
    ExtremesAreNotCounters();
    var extremes := ReplaceWorse(worst, EXTREMES, s, env);
    r := ReplaceWorse(extremes, COUNTERS, s, env);
  }

  lemma ExtremesAreNotCounters()
    ensures forall m :: !(m in EXTREMES && m in COUNTERS)
  {
    assert forall i | 0 <= i < |EXTREMES| :: Position(EXTREMES[i]) < 6;
    assert forall i | 0 <= i < |COUNTERS| :: Position(COUNTERS[i]) > 6;
  }

  method ReadExtremes(worst: map<Metric, Option<Value>>, s: Snapshot, ghost ss: seq<Snapshot>, ghost i: nat, env: Env)
    returns (r: map<Metric, Option<Value>>)
    requires i < |ss| && s == ss[i] && WorstSoFar(worst, ss[..i], env)
    ensures WorstSoFar(r, ss[..i + 1], env)
  {
    r := ReplaceAllWorse(worst, s, env);
    ExtremesStep(worst, r, ss, i, env);
  }

  method ReadCounters(totals: map<Metric, real>, supported: set<Metric>, s: Snapshot, ghost ss: seq<Snapshot>,
                      ghost i: nat, env: Env)
    returns (r: map<Metric, real>, seen: set<Metric>)
    requires i < |ss| && s == ss[i] && TotalsSoFar(totals, supported, ss[..i], env)
    ensures TotalsSoFar(r, seen, ss[..i + 1], env)
  {
    ListsAreConsecutive();
    r, seen := AddCounters(totals, supported, COUNTERS, s, env);
    SumsStep(totals, r, ss, i, env);
    SupportStep(supported, seen, ss, i, env);
  }

  method ReadHealth(health: seq<Entry<Value>>, counts: map<Metric, nat>, s: Snapshot, ghost ss: seq<Snapshot>,
                    ghost i: nat)
    returns (h: seq<Entry<Value>>, c: map<Metric, nat>)
    requires i < |ss| && s == ss[i] && HealthSoFar(health, counts, ss[..i])
    ensures HealthSoFar(h, c, ss[..i + 1])
  {
    h := Bump(health, HealthOf(s));
    c := CountHealth(counts, HealthOf(s));
    HealthKept(health, counts, c, ss, i);
  }

  method ReadSample(samples: seq<Sample>, s: Snapshot, ghost ss: seq<Snapshot>, ghost i: nat, env: Env)
    returns (r: seq<Sample>)
    requires i < |ss| && s == ss[i] && SampledSoFar(samples, ss[..i], env)
    ensures SampledSoFar(r, ss[..i + 1], env)
  {
    r := samples + [SampleOf(s, env)];
    forall k | 0 <= k <= i ensures r[k] == SampleOf(ss[..i + 1][k], env) {
      assert ss[..i + 1][k] == ss[k] && (k < i ==> ss[..i][k] == ss[k]);
    }
  }

  method ReadSnr(snr: SnrState, s: Snapshot, ghost ss: seq<Snapshot>, ghost i: nat, env: Env) returns (r: SnrState)
    requires i < |ss| && s == ss[i] && snr == SnrFold(ss[..i], env)
    ensures r == SnrFold(ss[..i + 1], env)
  {
    SnrFoldStep(ss, i, env);
    r := SnrStep(snr, s, env);
  }

  /** The body of the loop. */
  method ReadSnapshot(l: Loop, s: Snapshot, ghost ss: seq<Snapshot>, ghost i: nat, total: nat, env: Env)
    returns (r: Loop)
    requires i < |ss| && s == ss[i] && LoopInv(l, ss[..i], total, env)
    ensures LoopInv(r, ss[..i + 1], total, env)
  {
    var coverage, values := ReadNumbers(l, s, ss, i, total, env);
    var health, healthCounts := ReadHealth(l.health, l.healthCounts, s, ss, i);
    var worst := ReadExtremes(l.worst, s, ss, i, env);
    var snr := ReadSnr(l.snr, s, ss, i, env);
    var totals, supported := ReadCounters(l.totals, l.supported, s, ss, i, env);
    var samples := ReadSample(l.samples, s, ss, i, env);
    r := Loop(coverage, values, worst, snr, totals, supported, health, healthCounts, samples);
  }

  lemma SnrFoldStep(ss: seq<Snapshot>, i: nat, env: Env)
    requires i < |ss|
    ensures SnrFold(ss[..i + 1], env) == SnrStep(SnrFold(ss[..i], env), ss[i], env)
  {
    assert ss[..i + 1][..i] == ss[..i];
  }

  method StartNumbers(total: nat, env: Env) returns (coverage: map<Metric, Coverage>, values: map<Metric, seq<real>>)
    ensures CoverageSoFar(coverage, [], total, env) && ValuesSoFar(values, [], env)
  {
    ListsAreConsecutive();
    coverage := map m: Metric | m in TRACKED :: Coverage(0, 0, 0, 0, 0, total);
    values := map m: Metric | m in AVERAGED :: [];
  }

  method StartExtremes(env: Env) returns (worst: map<Metric, Option<Value>>, totals: map<Metric, real>)
    ensures WorstSoFar(worst, [], env) && TotalsSoFar(totals, {}, [], env)
  {
    ListsAreConsecutive();
    worst := map m: Metric | m in EXTREMES + COUNTERS :: None;
    totals := map m: Metric | m in COUNTERS :: 0.0;
  }

  method StartHealth() returns (counts: map<Metric, nat>)
    ensures HealthSoFar([], counts, [])
  {
    counts := map[HealthCriticalCount := 0, HealthMarginalCount := 0, HealthToleratedCount := 0];
  }

  method StartLoop(total: nat, env: Env) returns (l: Loop)
    ensures LoopInv(l, [], total, env)
  {
    var coverage, values := StartNumbers(total, env);
    var worst, totals := StartExtremes(env);
    var healthCounts := StartHealth();
    l := Loop(coverage, values, worst, SnrState(None, None), totals, {}, [], healthCounts, []);
  }

  method ReadAll(ss: seq<Snapshot>, env: Env) returns (l: Loop)
    ensures LoopInv(l, ss, |ss|, env)
  {
    l := StartLoop(|ss|, env);
    assert ss[..0] == [];
    for i := 0 to |ss|
      invariant LoopInv(l, ss[..i], |ss|, env)
    {
      l := ReadSnapshot(l, ss[i], ss, i, |ss|, env);
    }
    assert ss[..|ss|] == ss;
  }

  method CoverCounts(coverage: map<Metric, Coverage>, ghost ss: seq<Snapshot>, total: nat, env: Env)
    returns (r: map<Metric, Coverage>)
    requires CoverageSoFar(coverage, ss, total, env) && total == |ss|
    ensures forall m :: m in r && r[m] == CoverageOf(ss, m, total, env)
  {
    ListsAreConsecutive();
    r := coverage + map m | m in COUNTS :: Coverage(total, 0, 0, 0, 0, total);
    forall m ensures m in r && r[m] == CoverageOf(ss, m, total, env) {
      if IsCount(m) {
        CountsAreFullyCovered(ss, m, total, env);
      }
    }
  }

  method FinishAverages(values: map<Metric, seq<real>>, ghost ss: seq<Snapshot>, env: Env)
    returns (r: map<Metric, Option<real>>)
    requires ValuesSoFar(values, ss, env)
    ensures forall m :: m in r <==> m in AVERAGED
    ensures forall m | m in r :: r[m] == AverageOf(ss, m, env)
  {
    r := map m | m in values :: Average(values[m]);
  }

  method FinishTotals(totals: map<Metric, real>, supported: set<Metric>, ghost ss: seq<Snapshot>, env: Env)
    returns (r: map<Metric, Option<real>>)
    requires TotalsSoFar(totals, supported, ss, env)
    ensures forall m :: m in r <==> IsCounter(m)
    ensures forall m | m in r :: r[m] == TotalOf(ss, m, env)
  {
    r := map m | m in totals :: if m in supported then Some(totals[m]) else None;
  }

  method FinishWorst(worst: map<Metric, Option<Value>>, snr: SnrState, ghost ss: seq<Snapshot>, env: Env)
    returns (r: map<Metric, Option<Value>>)
    requires WorstSoFar(worst, ss, env) && snr == SnrFold(ss, env)
    ensures forall m :: m in r <==> !IsCount(m) && m !in AVERAGED
    ensures forall m | m in r :: r[m] == WorstValue(ss, m, env)
  {
    SnrFoldMin(ss, env);
    WorstMetrics();
    r := worst[DsSnrMin := snr.min][SnrWarnMin := snr.warn];
  }

  lemma WorstMetrics()
    ensures forall m :: m in EXTREMES + COUNTERS || m in {DsSnrMin, SnrWarnMin} <==> !IsCount(m) && m !in AVERAGED
    ensures DsSnrMin !in EXTREMES + COUNTERS && SnrWarnMin !in EXTREMES + COUNTERS
  {
    forall m: Metric ensures m in EXTREMES <==> 3 <= Position(m) <= 5 {
      if 3 <= Position(m) <= 5 {
        assert EXTREMES[Position(m) - 3] == m;
      }
    }
    forall m: Metric ensures m in AVERAGED <==> Position(m) <= 2 {
      if Position(m) <= 2 {
        assert AVERAGED[Position(m)] == m;
      }
    }
    ListsAreConsecutive();
  }

  method FinishHealth(counts: map<Metric, nat>, health: seq<Entry<Value>>, ghost ss: seq<Snapshot>, total: nat)
    returns (r: map<Metric, nat>)
    requires HealthSoFar(health, counts, ss) && total == |ss|
    ensures forall m :: m in r <==> IsCount(m)
    ensures forall m | m in r :: r[m] == HealthCount(ss, m)
  {
    r := counts[TotalSnapshots := total];
  }

  /** `aggregate_snapshot_period` */
  method AggregateSnapshotPeriod(snapshots: seq<Snapshot>, env: Env) returns (a: Aggregate)
    ensures Describes(a, Ordered(snapshots, env), env)
  {
    var ordered := Ordered(snapshots, env);
    var total := |ordered|;
    var l := ReadAll(ordered, env);
    var coverage := CoverCounts(l.coverage, ordered, total, env);
    var averages := FinishAverages(l.values, ordered, env);
    var totals := FinishTotals(l.totals, l.supported, ordered, env);
    var worst := FinishWorst(l.worst, l.snr, ordered, env);
    var healthCounts := FinishHealth(l.healthCounts, l.health, ordered, total);
    var historical := P.DeriveHistorical(ordered, env);
    var provenance := P.AggregateProvenance(ordered);
    var worstDs := RankBadChannels(ordered, Ds);
    var worstUs := RankBadChannels(ordered, Us);
    var none := ordered == [];
    a := Aggregate(total,
                   if none then None else Some(l.samples[0].timestamp),
                   if none then None else Some(l.samples[total - 1].timestamp),
                   if none then None else Some(ordered[total - 1]),
                   provenance, l.health, worst, healthCounts, coverage, averages, totals,
                   worstDs, worstUs, l.samples, historical.notes);
  }

  // ----- Order independence -----

  /** The two snapshots have the same sort key. */
  predicate Ties(env: Env, s: Snapshot, t: Snapshot) {
    env.canonical(s.timestamp) == env.canonical(t.timestamp) && env.digest(s) == env.digest(t)
  }

  /** The content digest tells the supplied snapshots of one timestamp apart. */
  ghost predicate DigestSeparates(env: Env, ss: seq<Snapshot>) {
    forall s, t | s in ss && t in ss && Ties(env, s, t) :: s == t
  }

  lemma EarlierIsOrder(env: Env)
    ensures StrictWeakOrder(Earlier(env))
  {
    forall a, b, c
      ensures !Earlier(env)(a, a)
      ensures Earlier(env)(a, b) && Earlier(env)(b, c) ==> Earlier(env)(a, c)
      ensures Earlier(env)(a, b) ==> Earlier(env)(a, c) || Earlier(env)(c, b)
    {
      var x, y, z := env.canonical(a.timestamp), env.canonical(b.timestamp), env.canonical(c.timestamp);
      var p, q, r := env.digest(a), env.digest(b), env.digest(c);
      P.StringOrder(x, y, z);
      P.StringOrder(x, z, y);
      P.StringOrder(z, x, y);
      P.StringOrder(p, q, r);
      P.StringOrder(p, r, q);
      P.StringOrder(r, p, q);
    }
  }

  /** The order in which the snapshots are supplied is forgotten by the sort. */
  lemma OrderedIgnoresOrder(x: seq<Snapshot>, y: seq<Snapshot>, env: Env)
    requires DigestSeparates(env, x) && multiset(x) == multiset(y)
    ensures Ordered(x, env) == Ordered(y, env)
  {
    EarlierIsOrder(env);
    forall i, j | 0 <= i < |x| && 0 <= j < |x| && !Earlier(env)(x[i], x[j]) && !Earlier(env)(x[j], x[i])
      ensures x[i] == x[j]
    {
      StringLessTrichotomy(env.canonical(x[i].timestamp), env.canonical(x[j].timestamp));
      StringLessTrichotomy(env.digest(x[i]), env.digest(x[j]));
      assert Ties(env, x[i], x[j]);
    }
    SortIgnoresInputOrder(x, y, Earlier(env));
  }

  lemma {:induction false} FilterPositions<T>(x: seq<T>, y: seq<T>, keep: T -> bool, k: nat)
    requires |x| == |y| && k < |x| && keep(x[k]) && forall i | 0 <= i < |x| :: keep(x[i]) <==> keep(y[i])
    requires Filter(x, keep) == Filter(y, keep)
    ensures x[k] == y[k]
  {
    if keep(x[0]) {
      assert Filter(x, keep)[0] == x[0] && Filter(y, keep)[0] == y[0];
      assert Filter(x, keep)[1..] == Filter(x[1..], keep) && Filter(y, keep)[1..] == Filter(y[1..], keep);
    }
    if k > 0 {
      FilterPositions(x[1..], y[1..], keep, k - 1);
    }
  }

  function TiesWith(env: Env, s: Snapshot): Snapshot -> bool { t => Ties(env, s, t) }

  lemma Swapped<T>(x: seq<T>, i: nat, j: nat)
    requires i < j < |x|
    ensures multiset(x[i := x[j]][j := x[i]]) == multiset(x)
  {
  }

  /** Two different snapshots with one sort key keep the order in which they are supplied. */
  lemma CollisionShows(x: seq<Snapshot>, i: nat, j: nat, env: Env)
    requires i < j < |x| && x[i] != x[j] && Ties(env, x[i], x[j])
    ensures Ordered(x[i := x[j]][j := x[i]], env) != Ordered(x, env)
  {
    var y, keep := x[i := x[j]][j := x[i]], TiesWith(env, x[i]);
    forall a, b | keep(a) && keep(b) ensures !Earlier(env)(a, b) {
      StringLessTrichotomy(env.canonical(a.timestamp), env.canonical(b.timestamp));
      StringLessTrichotomy(env.digest(a), env.digest(b));
    }
    SortKeepsTies(x, Earlier(env), keep);
    SortKeepsTies(y, Earlier(env), keep);
    if Filter(x, keep) == Filter(y, keep) {
      FilterPositions(x, y, keep, i);
    }
  }

  /** The order of supply is forgotten exactly when the digest separates the snapshots supplied. */
  lemma OrderForgottenIff(x: seq<Snapshot>, env: Env)
    ensures DigestSeparates(env, x) <==> forall y | multiset(y) == multiset(x) :: Ordered(y, env) == Ordered(x, env)
  {
    if DigestSeparates(env, x) {
      forall y | multiset(y) == multiset(x) ensures Ordered(y, env) == Ordered(x, env) {
        OrderedIgnoresOrder(x, y, env);
      }
    } else {
      var s, t :| s in x && t in x && Ties(env, s, t) && s != t;
      var p :| 0 <= p < |x| && x[p] == s;
      var q :| 0 <= q < |x| && x[q] == t;
      var i, j := Min(p, q), Max(p, q);
      CollisionShows(x, i, j, env);
      Swapped(x, i, j);
    }
  }

  lemma SameNumbers(a: Aggregate, b: Aggregate, ss: seq<Snapshot>, env: Env)
    requires Numbers(a, ss, env) && Numbers(b, ss, env)
    ensures a.coverage == b.coverage && a.averages == b.averages && a.totals == b.totals
    ensures a.worst == b.worst && a.healthCounts == b.healthCounts
  {
    forall m
      ensures m in a.coverage && m in b.coverage && a.coverage[m] == b.coverage[m]
      ensures m in a.averages <==> m in b.averages
      ensures m in a.averages ==> a.averages[m] == b.averages[m]
      ensures m in a.totals <==> m in b.totals
      ensures m in a.totals ==> a.totals[m] == b.totals[m]
    {
      ReportedAt(a, ss, env, m);
      ReportedAt(b, ss, env, m);
    }
    forall m
      ensures m in a.worst <==> m in b.worst
      ensures m in a.worst ==> a.worst[m] == b.worst[m]
      ensures m in a.healthCounts <==> m in b.healthCounts
      ensures m in a.healthCounts ==> a.healthCounts[m] == b.healthCounts[m]
    {
      ReportedWorstAt(a, ss, env, m);
      ReportedWorstAt(b, ss, env, m);
    }
    SameMaps(a.coverage, b.coverage);
    SameMaps(a.averages, b.averages);
    SameMaps(a.totals, b.totals);
    SameMaps(a.worst, b.worst);
    SameMaps(a.healthCounts, b.healthCounts);
  }

  lemma SameMaps<V>(a: map<Metric, V>, b: map<Metric, V>)
    requires forall m :: (m in a <==> m in b) && (m in a ==> a[m] == b[m])
    ensures a == b
  {
    assert a.Keys == b.Keys;
  }

  lemma SameListings(a: Aggregate, b: Aggregate, ss: seq<Snapshot>, env: Env)
    requires Listings(a, ss, env) && Listings(b, ss, env)
    ensures a.samples == b.samples
  {
  }

  /** The aggregate is a function of the multiset of snapshots. */
  lemma AggregateIgnoresOrder(x: seq<Snapshot>, y: seq<Snapshot>, a: Aggregate, b: Aggregate, env: Env)
    requires DigestSeparates(env, x) && multiset(x) == multiset(y)
    requires Describes(a, Ordered(x, env), env) && Describes(b, Ordered(y, env), env)
    ensures a == b
  {
    OrderedIgnoresOrder(x, y, env);
    SameNumbers(a, b, Ordered(x, env), env);
    SameListings(a, b, Ordered(x, env), env);
  }

  /** Nothing is lost or added by the sort, and the samples are in order of time. */
  lemma SamplesAreInOrder(x: seq<Snapshot>, a: Aggregate, env: Env)
    requires Describes(a, Ordered(x, env), env)
    ensures multiset(Ordered(x, env)) == multiset(x) && a.count == |x|
    ensures forall i, j | 0 <= i < j < |a.samples| :: !StringLess(a.samples[j].timestamp, a.samples[i].timestamp)
  {
    SortPermutes(x, Earlier(env));
    EarlierIsOrder(env);
    SortSorts(x, Earlier(env));
    var ss := Ordered(x, env);
    forall i, j | 0 <= i < j < |a.samples| ensures !StringLess(a.samples[j].timestamp, a.samples[i].timestamp) {
      assert !Earlier(env)(ss[j], ss[i]);
    }
  }

  lemma OrderedKeeps(x: seq<Snapshot>, env: Env)
    ensures |Ordered(x, env)| == |x|
    ensures forall s :: s in Ordered(x, env) <==> s in x
  {
    SortPermutes(x, Earlier(env));
    SortMembers(x, Earlier(env));
    assert |multiset(x)| == |x| && |multiset(Ordered(x, env))| == |Ordered(x, env)|;
  }

  lemma NoneAfterLast(x: seq<Snapshot>, env: Env, s: Snapshot)
    requires s in x && |Ordered(x, env)| == |x|
    ensures !StringLess(env.canonical(Ordered(x, env)[|x| - 1].timestamp), env.canonical(s.timestamp))
  {
    EarlierIsOrder(env);
    SortSorts(x, Earlier(env));
    OrderedKeeps(x, env);
    var ss := Ordered(x, env);
    var i :| 0 <= i < |ss| && ss[i] == s;
    if i < |x| - 1 {
      assert !Earlier(env)(ss[|x| - 1], ss[i]);
    } else {
      StringLessTrichotomy(env.canonical(s.timestamp), env.canonical(s.timestamp));
    }
  }

  lemma LatestIsAsLate(x: seq<Snapshot>, env: Env, last: Snapshot)
    requires last in x && forall s | s in x :: !StringLess(env.canonical(last.timestamp), env.canonical(s.timestamp))
    ensures P.Latest(x, env).Some? && P.Latest(x, env).value in x
    ensures env.canonical(P.Latest(x, env).value.timestamp) == env.canonical(last.timestamp)
  {
    P.LaterIsOrder(env);
    BestIsFirstBest(x, P.Later(env));
    var kept := P.Latest(x, env).value;
    assert !P.Later(env)(last, kept);
    StringLessTrichotomy(env.canonical(kept.timestamp), env.canonical(last.timestamp));
  }

  /** The report's latest snapshot, the first of the latest as supplied, and the aggregate's, the
      last in digest order, are observed at one time, and are one unless another shares it. */
  lemma LatestAgrees(x: seq<Snapshot>, a: Aggregate, env: Env)
    requires x != [] && Describes(a, Ordered(x, env), env)
    ensures a.latest.Some? && P.Latest(x, env).Some?
    ensures var kept, last := P.Latest(x, env).value, a.latest.value;
            && env.canonical(kept.timestamp) == env.canonical(last.timestamp)
            && ((forall s | s in x && env.canonical(s.timestamp) == env.canonical(last.timestamp) :: s == last) ==>
                kept == last)
  {
    OrderedKeeps(x, env);
    var last := Ordered(x, env)[|x| - 1];
    forall s | s in x ensures !StringLess(env.canonical(last.timestamp), env.canonical(s.timestamp)) {
      NoneAfterLast(x, env, s);
    }
    LatestIsAsLate(x, env, last);
  }

  // What the reported numbers say, for `ss` the ordered snapshots.

  lemma NotAveraged(m: Metric)
    requires Position(m) > 2
    ensures m !in AVERAGED
  {
    assert Position(AVERAGED[0]) <= 2 && Position(AVERAGED[1]) <= 2 && Position(AVERAGED[2]) <= 2;
  }

  lemma ReportedAt(a: Aggregate, ss: seq<Snapshot>, env: Env, m: Metric)
    requires Numbers(a, ss, env)
    ensures m in a.coverage && a.coverage[m] == CoverageOf(ss, m, |ss|, env)
    ensures m in a.averages <==> m in AVERAGED
    ensures m in a.averages ==> a.averages[m] == AverageOf(ss, m, env)
    ensures m in a.totals <==> IsCounter(m)
    ensures m in a.totals ==> a.totals[m] == TotalOf(ss, m, env)
  {
  }

  lemma ReportedWorstAt(a: Aggregate, ss: seq<Snapshot>, env: Env, m: Metric)
    requires Numbers(a, ss, env)
    ensures m in a.worst <==> !IsCount(m) && m !in AVERAGED
    ensures m in a.worst ==> a.worst[m] == WorstValue(ss, m, env)
    ensures m in a.healthCounts <==> IsCount(m)
    ensures m in a.healthCounts ==> a.healthCounts[m] == HealthCount(ss, m)
  {
  }

  lemma EveryMetricCoversAll(a: Aggregate, ss: seq<Snapshot>, env: Env, m: Metric)
    requires Numbers(a, ss, env)
    ensures m in a.coverage
    ensures var c := a.coverage[m]; c.samples + c.nulls + c.unsupported + c.invalid + c.missing == c.total == |ss|
  {
    ReportedAt(a, ss, env, m);
    CoverageConserves(ss, m, |ss|, env);
  }

  /** The value reported for a metric: its average, or its worst reading. */
  ghost predicate Absent(a: Aggregate, m: Metric) {
    if m in a.averages then a.averages[m].None? else m in a.worst && a.worst[m].None?
  }

  /** An average, a power extreme, the lowest SNR, a counter maximum or a counter total is absent
      exactly when its metric has no samples. */
  lemma AbsentIffNoSamples(a: Aggregate, ss: seq<Snapshot>, env: Env, m: Metric)
    requires Numbers(a, ss, env) && !IsCount(m) && m != SnrWarnMin
    ensures m in a.coverage && (Absent(a, m) <==> a.coverage[m].samples == 0)
    ensures IsCounter(m) ==> m in a.totals && (a.totals[m].None? <==> a.coverage[m].samples == 0)
  {
    ReportedAt(a, ss, env, m);
    ReportedWorstAt(a, ss, env, m);
    SamplesCountReadings(ss, m, |ss|, env);
    NumsShape(Readings(ss, m, env), env);
    WorstIsFirstExtreme(ss, m, |ss|, env);
  }

  /** A reported worst value is the reading of some snapshot, and no reading is worse. */
  lemma ReportedWorstIsExtreme(a: Aggregate, ss: seq<Snapshot>, env: Env, m: Metric, worst: Value)
    requires Numbers(a, ss, env) && m != SnrWarnMin && m in a.worst && a.worst[m] == Some(worst)
    ensures exists s :: s in ss && RawReading(m, s) == worst && AsNumber(worst, env).Some?
    ensures forall s | s in ss && AsNumber(RawReading(m, s), env).Some? ::
              Score(m, RawReading(m, s), env) <= Score(m, worst, env)
  {
    ReportedWorstAt(a, ss, env, m);
    ExtremeOfReadings(ss, env, m, worst);
  }

  lemma ExtremeOfReadings(ss: seq<Snapshot>, env: Env, m: Metric, worst: Value)
    requires !IsCount(m) && m != SnrWarnMin && WorstOf(ss, m, env) == Some(worst)
    ensures exists s :: s in ss && RawReading(m, s) == worst && AsNumber(worst, env).Some?
    ensures forall s | s in ss && AsNumber(RawReading(m, s), env).Some? ::
              Score(m, RawReading(m, s), env) <= Score(m, worst, env)
  {
    WorstIsFirstExtreme(ss, m, 0, env);
    FlatMapMembers(ss, Reading(m, env));
    assert worst in Readings(ss, m, env);
    forall s | s in ss && AsNumber(RawReading(m, s), env).Some?
      ensures Score(m, RawReading(m, s), env) <= Score(m, worst, env)
    {
      NothingWorse(ss, m, s, env);
    }
  }

  /** The same by kind of metric: downstream power strays no further from zero, the SNR is nowhere
      lower, and upstream power and the counters are nowhere higher. */
  lemma ReportedWorstByKind(a: Aggregate, ss: seq<Snapshot>, env: Env, m: Metric, worst: Value, s: Snapshot)
    requires Numbers(a, ss, env) && m != SnrWarnMin && m in a.worst && a.worst[m] == Some(worst)
    requires s in ss && AsNumber(RawReading(m, s), env).Some?
    ensures AsNumber(worst, env).Some?
    ensures var w, x := AsNumber(worst, env).value, AsNumber(RawReading(m, s), env).value;
            match m
            case DsPowerMax | DsPowerMin => -w <= x <= w || w <= x <= -w
            case DsSnrMin => w <= x
            case _ => x <= w
  {
    ReportedWorstAt(a, ss, env, m);
    WorstIsFirstExtreme(ss, m, 0, env);
    ReadingIsNumber(ss, m, worst, env);
    NothingWorse(ss, m, s, env);
  }

  lemma ReadingIsNumber(ss: seq<Snapshot>, m: Metric, v: Value, env: Env)
    requires v in Readings(ss, m, env)
    ensures AsNumber(v, env).Some?
  {
    FlatMapMembers(ss, Reading(m, env));
    var s :| s in ss && v in Reading(m, env)(s);
  }

  /** The readings of a metric added up, snapshot by snapshot. */
  ghost function Accumulated(ss: seq<Snapshot>, m: Metric, env: Env): real {
    if ss == [] then 0.0
    else
      var n := |ss| - 1;
      Accumulated(ss[..n], m, env)
      + match AsNumber(RawReading(m, ss[n]), env)
        case Some(x) => x
        case None => 0.0
  }

  lemma {:induction false} SumIsAccumulated(ss: seq<Snapshot>, m: Metric, env: Env)
    ensures SumOf(ss, m, env) == Accumulated(ss, m, env)
  {
    if ss != [] {
      var n := |ss| - 1;
      SumIsAccumulated(ss[..n], m, env);
      SumStep(ss, n, m, env);
      assert ss[..n + 1] == ss;
    }
  }

  /** `v` is the mean of `n` numbers that add up to `sum`. */
  ghost predicate IsMean(v: real, n: nat, sum: real) { v * n as real == sum }

  lemma AverageIsSumByNumber(xs: seq<real>)
    requires xs != []
    ensures Average(xs).Some? && IsMean(Average(xs).value, |xs|, Sum(xs))
  {
    var n := |xs| as real;
    assert Sum(xs) / n * n == Sum(xs);
  }

  lemma MeanOfReadings(ss: seq<Snapshot>, m: Metric, env: Env)
    requires !IsCount(m) && m != SnrWarnMin && AverageOf(ss, m, env).Some?
    ensures IsMean(AverageOf(ss, m, env).value, CoverageOf(ss, m, |ss|, env).samples, Accumulated(ss, m, env))
  {
    var xs := Nums(Readings(ss, m, env), env);
    assert |xs| == CoverageOf(ss, m, |ss|, env).samples by {
      SamplesCountReadings(ss, m, |ss|, env);
      NumsShape(Readings(ss, m, env), env);
    }
    assert Sum(xs) == Accumulated(ss, m, env) by {
      SumIsAccumulated(ss, m, env);
    }
    AverageIsSumByNumber(xs);
  }

  lemma AveragedAre(m: Metric)
    ensures m in AVERAGED <==> m.DsPower? || m.DsSnr? || m.UsPower?
  {
    assert AVERAGED[0] == DsPower && AVERAGED[1] == DsSnr && AVERAGED[2] == UsPower;
  }

  /** An average times the number of its samples is the sum of the readings ... */
  lemma AverageIsMean(a: Aggregate, ss: seq<Snapshot>, env: Env, m: Metric)
    requires Numbers(a, ss, env) && (m.DsPower? || m.DsSnr? || m.UsPower?)
    ensures m in a.averages && m in a.coverage
    ensures a.averages[m].Some? ==> IsMean(a.averages[m].value, a.coverage[m].samples, Accumulated(ss, m, env))
  {
    AveragedAre(m);
    ReportedAt(a, ss, env, m);
    if a.averages[m].Some? {
      MeanOfReadings(ss, m, env);
    }
  }

  /** ... and a total is that sum. */
  lemma TotalIsSum(a: Aggregate, ss: seq<Snapshot>, env: Env, m: Metric)
    requires Numbers(a, ss, env) && (m.UncorrectableMax? || m.CorrectableMax?)
    ensures m in a.totals && (a.totals[m].Some? ==> a.totals[m].value == Accumulated(ss, m, env))
  {
    ReportedAt(a, ss, env, m);
    SumIsAccumulated(ss, m, env);
  }

  /** The reported SNR warning belongs to the first snapshot that attains the reported minimum SNR
      and yields a threshold; it is absent only if none does. */
  lemma ReportedWarningIsFirst(a: Aggregate, ss: seq<Snapshot>, env: Env, min: Value)
    requires Numbers(a, ss, env) && DsSnrMin in a.worst && a.worst[DsSnrMin] == Some(min)
    ensures SnrWarnMin in a.worst
    ensures a.worst[SnrWarnMin].None? <==> forall s | s in ss :: WarningAt(s, Num(min, env), env).None?
    ensures a.worst[SnrWarnMin].Some? ==>
            exists i | 0 <= i < |ss| ::
              a.worst[SnrWarnMin] == WarningAt(ss[i], Num(min, env), env)
              && forall j | 0 <= j < i :: WarningAt(ss[j], Num(min, env), env).None?
  {
    NotAveraged(SnrWarnMin);
    ReportedWorstAt(a, ss, env, SnrWarnMin);
    ReportedWorstAt(a, ss, env, DsSnrMin);
    SnrWarnIsFirstAtMin(ss, env);
    FirstSomeIsFirst(ss, Warner(Num(min, env), env));
    if a.worst[SnrWarnMin].Some? {
      var i :| 0 <= i < |ss| && a.worst[SnrWarnMin] == Warner(Num(min, env), env)(ss[i])
        && forall j | 0 <= j < i :: Warner(Num(min, env), env)(ss[j]).None?;
      forall j | 0 <= j < i ensures WarningAt(ss[j], Num(min, env), env).None? {
        assert Warner(Num(min, env), env)(ss[j]).None?;
      }
    }
  }

  /** The health distribution counts every snapshot once and agrees with the health counts. */
  lemma ReportedHealthSums(a: Aggregate, ss: seq<Snapshot>, env: Env, m: Metric)
    requires Numbers(a, ss, env) && a.health == Tally(Healths(ss)) && IsCount(m)
    ensures Total(a.health) == |ss|
    ensures m in a.healthCounts
    ensures a.healthCounts[m] == if m == TotalSnapshots then Total(a.health) else Get(a.health, Text(HealthName(m)))
  {
    ReportedWorstAt(a, ss, env, m);
    HealthSumsToTotal(ss);
  }
}
