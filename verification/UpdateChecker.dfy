/** The non-blocking release check (app/runtime.py) as a transition system over its
    atomic steps: any number of callers, one lock, refreshes on their own threads. */
module UpdateChecking {
  import opened Orders
  import D = Digits

  // ----- Version order -----

  function LastDot(s: string): (i: int)
    ensures -1 <= i < |s|
    ensures i >= 0 ==> s[i] == '.'
    ensures forall k | i < k < |s| :: s[k] != '.'
  {
    if s == [] then -1 else if s[|s| - 1] == '.' then |s| - 1 else LastDot(s[..|s| - 1])
  }

  /** `int(text)` for an optionally signed ASCII number; anything else is no number. */
  function ParseInt(text: string): Option<int> {
    var signed := |text| > 1 && (text[0] == '-' || text[0] == '+');
    var digits := if signed then text[1..] else text;
    if digits == [] || !D.AllDigits(digits) then None
    else
      var n: int := D.Value(digits);
      Some(if signed && text[0] == '-' then -n else n)
  }

  /** Digits are read with their sign, a plus being none. */
  lemma SignedIsRead(digits: string)
    requires digits != [] && D.AllDigits(digits)
    ensures ParseInt(digits) == Some(D.Value(digits)) == ParseInt("+" + digits)
    ensures ParseInt("-" + digits) == Some(0 - D.Value(digits))
  {
    assert digits[0] in digits;
    assert ("+" + digits)[1..] == digits && ("-" + digits)[1..] == digits;
  }

  /** Nothing else is a number. */
  lemma OnlyDigitsAreRead(text: string)
    requires ParseInt(text).Some?
    ensures exists digits :: D.AllDigits(digits) && digits != [] && text in {digits, "+" + digits, "-" + digits}
  {
    var digits := if D.AllDigits(text) then text else text[1..];
    assert text == digits || text == [text[0]] + digits;
  }

  datatype Version = Version(release: string, build: int)

  function Parts(value: string): Version {
    var dot := LastDot(value);
    if dot == -1 then Version(value, 0)
    else
      var n := ParseInt(value[dot + 1..]);
      Version(value[..dot], if n.Some? then n.value else 0)
  }

  predicate VersionNewer(latest: string, current: string) {
    var l, c := Parts(latest), Parts(current);
    StringLess(c.release, l.release) || (c.release == l.release && c.build < l.build)
  }

  /** "Newer" is a strict order that separates any two versions with different parts. */
  lemma VersionNewerIsStrictOrder(a: string, b: string, c: string)
    ensures !(VersionNewer(a, b) && VersionNewer(b, a))
    ensures VersionNewer(a, b) && VersionNewer(b, c) ==> VersionNewer(a, c)
    ensures VersionNewer(a, b) || VersionNewer(b, a) <==> Parts(a) != Parts(b)
  {
    var x, y, z := Parts(a).release, Parts(b).release, Parts(c).release;
    StringLessTrichotomy(x, y);
    if StringLess(z, y) && StringLess(y, x) {
      StringLessTransitive(z, y, x);
    }
  }

  /** Builds of one release are ordered as numbers: 10 comes after 9. */
  lemma BuildsOrderNumerically(release: string, m: nat, n: nat)
    ensures VersionNewer(release + "." + D.NatText(m), release + "." + D.NatText(n)) <==> m > n
  {
    BuildParts(release, m);
    BuildParts(release, n);
    StringLessTrichotomy(release, release);
  }

  /** Of two different releases, whatever their builds, the one with the greater text is newer. */
  lemma ReleasesOrderByText(a: string, b: string, m: nat, n: nat)
    requires a != b
    ensures VersionNewer(a + "." + D.NatText(m), b + "." + D.NatText(n)) <==> StringLess(b, a)
  {
    BuildParts(a, m);
    BuildParts(b, n);
  }

  /** Without a dot there is no build, and a suffix that is no number counts as build 0. */
  lemma PartsWithoutBuild(release: string, suffix: string)
    requires '.' !in suffix && ParseInt(suffix).None?
    ensures Parts(release + "." + suffix) == Version(release, 0)
    ensures '.' !in release ==> Parts(release) == Version(release, 0)
  {
    var text := release + "." + suffix;
    assert text[|release|] == '.';
    assert forall k | |release| < k < |text| :: text[k] == suffix[k - |release| - 1];
    assert LastDot(text) == |release|;
    assert text[|release| + 1..] == suffix && text[..|release|] == release;
  }

  lemma BuildParts(release: string, n: nat)
    ensures Parts(release + "." + D.NatText(n)) == Version(release, n)
  {
    var digits := D.NatText(n);
    var text := release + "." + digits;
    LastDotBeforeDigits(release, digits);
    assert text[|release| + 1..] == digits && text[..|release|] == release;
    D.ValueOfNatText(n);
    assert D.IsDigit(digits[0]);
  }

  lemma {:induction false} LastDotBeforeDigits(release: string, digits: string)
    requires D.AllDigits(digits)
    ensures LastDot(release + "." + digits) == |release|
  {
    var text := release + "." + digits;
    if digits != [] {
      var n := |digits| - 1;
      assert D.IsDigit(digits[n]);
      assert text[..|text| - 1] == release + "." + digits[..n];
      LastDotBeforeDigits(release, digits[..n]);
    }
  }

  function StripV(s: string): string {
    if s != [] && s[0] == 'v' then StripV(s[1..]) else s
  }

  lemma {:induction false} PrefixIsStripped(vs: string, s: string)
    requires (forall c | c in vs :: c == 'v') && (s == [] || s[0] != 'v')
    ensures StripV(vs + s) == s
  {
    if vs == [] {
      assert vs + s == s;
    } else {
      assert vs[0] in vs && forall c | c in vs[1..] :: c in vs;
      assert (vs + s)[1..] == vs[1..] + s;
      PrefixIsStripped(vs[1..], s);
    }
  }

  /** A tag worth announcing to an application of version `app`. */
  predicate Announces(tag: string, app: string) {
    var latest, current := StripV(tag), StripV(app);
    latest != [] && latest != current && VersionNewer(latest, current)
  }

  /** With or without leading v's, a tag is announced exactly when it names a newer version. */
  lemma AnnouncesNewer(v: string, w: string, tag: string, app: string)
    requires (forall c | c in v :: c == 'v') && (tag == [] || tag[0] != 'v')
    requires (forall c | c in w :: c == 'v') && (app == [] || app[0] != 'v')
    ensures Announces(v + tag, w + app) <==> tag != [] && VersionNewer(tag, app)
  {
    PrefixIsStripped(v, tag);
    PrefixIsStripped(w, app);
    VersionNewerIsStrictOrder(tag, app, app);
  }

  // ----- The protocol -----

  /** A refresh between its claim, made under the lock, and its final locked section. */
  datatype Phase = Claimed | Fetching | HasTag(tag: string) | Closing

  datatype State = State(
    clock: real,
    latest: Option<string>,
    checkedAt: real,
    checking: bool,
    sampled: map<nat, real>,      // callers that have read the clock and not yet taken the lock
    refreshes: map<nat, Phase>,   // refreshes claimed and not yet finished
    claims: seq<real>,            // when each refresh was claimed
    finishes: seq<real>)          // when each refresh finished

  datatype Step =
    | Tick(elapsed: real)
    | Sample(caller: nat)
    | Enter(caller: nat)
    | Spawn(refresh: nat)
    | FetchReturns(refresh: nat, tag: string)
    | FetchRaises(refresh: nat)
    | Store(refresh: nat)
    | Finish(refresh: nat)

  function Initial(now: real): State {
    State(now, None, 0.0, false, map[], map[], [], [])
  }

  function At(s: State, r: nat, p: Phase): State { s.(refreshes := s.refreshes[r := p]) }

  /** One atomic step; a step whose moment has not come leaves the state alone. */
  function Next(s: State, step: Step, app: string, ttl: real): State {
    match step
    case Tick(d) => if d < 0.0 then s else s.(clock := s.clock + d)
    case Sample(c) => s.(sampled := s.sampled[c := s.clock])
    case Enter(c) =>
      if c !in s.sampled then s
      else
        var now, s' := s.sampled[c], s.(sampled := s.sampled - {c});
        if now - s.checkedAt < ttl || s.checking then s'
        else At(s'.(checking := true, claims := s.claims + [s.clock]), |s.claims|, Claimed)
    case Spawn(r) => if r in s.refreshes && s.refreshes[r] == Claimed then At(s, r, Fetching) else s
    case FetchReturns(r, tag) =>
      if r in s.refreshes && s.refreshes[r] == Fetching then At(s, r, HasTag(tag)) else s
    case FetchRaises(r) => if r in s.refreshes && s.refreshes[r] == Fetching then At(s, r, Closing) else s
    case Store(r) =>
      if r in s.refreshes && s.refreshes[r].HasTag? then
        var tag := s.refreshes[r].tag;
        At(s.(latest := if Announces(tag, app) then Some(tag) else None), r, Closing)
      else s
    case Finish(r) =>
      if r in s.refreshes && s.refreshes[r] == Closing then
        s.(checkedAt := s.clock, checking := false, refreshes := s.refreshes - {r},
           finishes := s.finishes + [s.clock])
      else s
  }

  function Run(s: State, steps: seq<Step>, app: string, ttl: real): State {
    if steps == [] then s else Next(Run(s, steps[..|steps| - 1], app, ttl), steps[|steps| - 1], app, ttl)
  }

  /** What every step keeps. */
  ghost predicate Inv(s: State, app: string, ttl: real) {
    && s.refreshes.Keys == (if s.checking then {|s.claims| - 1} else {})
    && |s.claims| == |s.finishes| + (if s.checking then 1 else 0)
    && (s.finishes != [] ==> s.checkedAt == s.finishes[|s.finishes| - 1])
    && (forall c | c in s.sampled :: s.sampled[c] <= s.clock)
    && (forall i | 0 <= i < |s.claims| - 1 :: i < |s.finishes| && s.claims[i + 1] >= s.finishes[i] + ttl)
    && (s.latest.Some? ==> Announces(s.latest.value, app))
  }

  lemma NextKeepsInv(s: State, step: Step, app: string, ttl: real)
    requires Inv(s, app, ttl)
    ensures Inv(Next(s, step, app, ttl), app, ttl)
  {
  }

  /** In every interleaving: the flag is up exactly while one claimed refresh has not finished,
      so at most one is ever outstanding; each refresh is claimed at least `ttl` after the one
      before it finished; and the cached tag is absent or announces a newer version. */
  lemma {:induction false} SingleFlight(steps: seq<Step>, start: real, app: string, ttl: real)
    ensures var s := Run(Initial(start), steps, app, ttl);
            && Inv(s, app, ttl)
            && |s.refreshes| <= 1
            && (s.checking <==> |s.refreshes| == 1)
            && (forall i | 0 < i < |s.claims| :: s.claims[i] >= s.finishes[i - 1] + ttl)
            && (s.latest.Some? ==> VersionNewer(StripV(s.latest.value), StripV(app)))
  {
    if steps != [] {
      var earlier := steps[..|steps| - 1];
      SingleFlight(earlier, start, app, ttl);
      NextKeepsInv(Run(Initial(start), earlier, app, ttl), steps[|steps| - 1], app, ttl);
    }
    var s := Run(Initial(start), steps, app, ttl);
    assert |s.refreshes| == |s.refreshes.Keys|;
    forall i | 0 < i < |s.claims| ensures i - 1 < |s.finishes| && s.claims[i] >= s.finishes[i - 1] + ttl {
      assert 0 <= i - 1 < |s.claims| - 1;
    }
  }

  /** A refresh that is claimed but whose thread is never started, because starting it fails,
      keeps the flag up for good: no later refresh is claimed and the cached tag never changes. */
  lemma {:induction false} UnspawnedBlocks(s: State, steps: seq<Step>, r: nat, app: string, ttl: real)
    requires Inv(s, app, ttl) && r in s.refreshes && s.refreshes[r] == Claimed
    requires Spawn(r) !in steps
    ensures var s' := Run(s, steps, app, ttl);
            && Inv(s', app, ttl) && s'.checking && s'.refreshes == s.refreshes
            && s'.claims == s.claims && s'.latest == s.latest && s'.checkedAt == s.checkedAt
  {
    if steps != [] {
      var n := |steps| - 1;
      UnspawnedBlocks(s, steps[..n], r, app, ttl);
      assert steps[n] in steps;
      var before := Run(s, steps[..n], app, ttl);
      NextKeepsInv(before, steps[n], app, ttl);
      StuckStep(before, steps[n], r, app, ttl);
    }
  }

  lemma StuckStep(s: State, step: Step, r: nat, app: string, ttl: real)
    requires Inv(s, app, ttl) && r in s.refreshes && s.refreshes[r] == Claimed && step != Spawn(r)
    ensures var s' := Next(s, step, app, ttl);
            && s'.checking && s'.refreshes == s.refreshes
            && s'.claims == s.claims && s'.latest == s.latest && s'.checkedAt == s.checkedAt
  {
    assert forall q | q in s.refreshes :: q in s.refreshes.Keys && q == r;
  }

  // ----- A refresh takes effect -----

  /** The refresh a step belongs to. */
  ghost predicate Concerns(step: Step, r: nat) {
    match step
    case Spawn(q) => q == r
    case FetchReturns(q, _) => q == r
    case FetchRaises(q) => q == r
    case Store(q) => q == r
    case Finish(q) => q == r
    case _ => false
  }

  /** A caller that finds the last check `ttl` ago and no refresh under way claims one; any other
      caller changes nothing but its own reading. */
  lemma CallerClaims(s: State, c: nat, app: string, ttl: real)
    requires c in s.sampled
    ensures var after := Next(s, Enter(c), app, ttl);
            && after.sampled == s.sampled - {c} && after.latest == s.latest && after.checkedAt == s.checkedAt
            && if s.sampled[c] - s.checkedAt >= ttl && !s.checking
               then after.checking && after.refreshes == s.refreshes[|s.claims| := Claimed]
                    && after.claims == s.claims + [s.clock]
               else after == s.(sampled := s.sampled - {c})
  {
  }

  lemma RunOfMore(s: State, steps: seq<Step>, step: Step, app: string, ttl: real)
    ensures Run(s, steps + [step], app, ttl) == Next(Run(s, steps, app, ttl), step, app, ttl)
  {
    assert (steps + [step])[..|steps|] == steps;
  }

  /** A checker starts with no tag, and as if it had last checked at time 0. */
  lemma StartsUnchecked(start: real)
    ensures var s := Initial(start);
            s.clock == start && s.latest == None && s.checkedAt == 0.0 && !s.checking && s.refreshes == map[]
  {
  }

  /** Time passes forwards only, and a caller reads the time there is. */
  lemma CallerReadsClock(s: State, d: real, c: nat, app: string, ttl: real)
    ensures Next(s, Tick(d), app, ttl) == if d >= 0.0 then s.(clock := s.clock + d) else s
    ensures Next(s, Sample(c), app, ttl) == s.(sampled := s.sampled[c := s.clock])
  {
  }

  /** So `ttl` after the last check the next caller claims a refresh, unless one is under way. */
  lemma LateCallerClaims(s: State, d: real, c: nat, app: string, ttl: real)
    requires d >= 0.0 && s.clock + d - s.checkedAt >= ttl && !s.checking
    ensures var after := Run(s, [Tick(d)] + [Sample(c)] + [Enter(c)], app, ttl);
            after.checking && after.refreshes == s.refreshes[|s.claims| := Claimed] && after.latest == s.latest
  {
    RunOfMore(s, [Tick(d)] + [Sample(c)], Enter(c), app, ttl);
    RunOfMore(s, [Tick(d)], Sample(c), app, ttl);
    RunOfMore(s, [], Tick(d), app, ttl);
    assert [] + [Tick(d)] == [Tick(d)];
    CallerReadsClock(s, d, c, app, ttl);
    CallerReadsClock(s.(clock := s.clock + d), d, c, app, ttl);
  }

  lemma OthersLeaveRefresh(s: State, step: Step, r: nat, app: string, ttl: real)
    requires Inv(s, app, ttl) && r in s.refreshes && !Concerns(step, r)
    ensures var s' := Next(s, step, app, ttl);
            Inv(s', app, ttl) && s'.refreshes == s.refreshes && s'.latest == s.latest
  {
    assert forall q | q in s.refreshes :: q in s.refreshes.Keys && q == r;
    NextKeepsInv(s, step, app, ttl);
  }

  ghost predicate InPhase(s: State, r: nat, phase: Phase, app: string, ttl: real) {
    Inv(s, app, ttl) && r in s.refreshes && s.refreshes[r] == phase
  }

  ghost predicate Quiet(steps: seq<Step>, r: nat) { forall step | step in steps :: !Concerns(step, r) }

  /** Whatever else happens, a refresh stays where it is until one of its own steps. */
  lemma {:induction false} Undisturbed(s: State, steps: seq<Step>, r: nat, app: string, ttl: real)
    requires Inv(s, app, ttl) && r in s.refreshes && Quiet(steps, r)
    ensures var s' := Run(s, steps, app, ttl);
            Inv(s', app, ttl) && s'.refreshes == s.refreshes && s'.latest == s.latest
  {
    if steps != [] {
      var n := |steps| - 1;
      assert steps[n] in steps && forall step | step in steps[..n] :: step in steps;
      Undisturbed(s, steps[..n], r, app, ttl);
      OthersLeaveRefresh(Run(s, steps[..n], app, ttl), steps[n], r, app, ttl);
    }
  }

  /** Others' steps, and then one step of the refresh. */
  ghost function Then(s: State, others: seq<Step>, step: Step, app: string, ttl: real): State {
    Run(s, others + [step], app, ttl)
  }

  lemma ThreadStarts(s: State, others: seq<Step>, r: nat, app: string, ttl: real)
    requires InPhase(s, r, Claimed, app, ttl) && Quiet(others, r)
    ensures var after := Then(s, others, Spawn(r), app, ttl);
            InPhase(after, r, Fetching, app, ttl) && after.latest == s.latest
  {
    Undisturbed(s, others, r, app, ttl);
    RunOfMore(s, others, Spawn(r), app, ttl);
    NextKeepsInv(Run(s, others, app, ttl), Spawn(r), app, ttl);
  }

  lemma FetchSucceeds(s: State, others: seq<Step>, r: nat, tag: string, app: string, ttl: real)
    requires InPhase(s, r, Fetching, app, ttl) && Quiet(others, r)
    ensures InPhase(Then(s, others, FetchReturns(r, tag), app, ttl), r, HasTag(tag), app, ttl)
  {
    Undisturbed(s, others, r, app, ttl);
    RunOfMore(s, others, FetchReturns(r, tag), app, ttl);
    NextKeepsInv(Run(s, others, app, ttl), FetchReturns(r, tag), app, ttl);
  }

  lemma FetchFails(s: State, others: seq<Step>, r: nat, app: string, ttl: real)
    requires InPhase(s, r, Fetching, app, ttl) && Quiet(others, r)
    ensures var after := Then(s, others, FetchRaises(r), app, ttl);
            InPhase(after, r, Closing, app, ttl) && after.latest == s.latest
  {
    Undisturbed(s, others, r, app, ttl);
    RunOfMore(s, others, FetchRaises(r), app, ttl);
    NextKeepsInv(Run(s, others, app, ttl), FetchRaises(r), app, ttl);
  }

  lemma TagIsStored(s: State, others: seq<Step>, r: nat, tag: string, app: string, ttl: real)
    requires InPhase(s, r, HasTag(tag), app, ttl) && Quiet(others, r)
    ensures var after := Then(s, others, Store(r), app, ttl);
            InPhase(after, r, Closing, app, ttl) && after.latest == if Announces(tag, app) then Some(tag) else None
  {
    Undisturbed(s, others, r, app, ttl);
    RunOfMore(s, others, Store(r), app, ttl);
    NextKeepsInv(Run(s, others, app, ttl), Store(r), app, ttl);
  }

  /** The refresh is over: none is under way, and the time of the check is the present. */
  ghost predicate Over(s: State, r: nat) { !s.checking && r !in s.refreshes && s.checkedAt == s.clock }

  lemma RefreshEnds(s: State, others: seq<Step>, r: nat, app: string, ttl: real)
    requires InPhase(s, r, Closing, app, ttl) && Quiet(others, r)
    ensures var after := Then(s, others, Finish(r), app, ttl); Over(after, r) && after.latest == s.latest
  {
    Undisturbed(s, others, r, app, ttl);
    RunOfMore(s, others, Finish(r), app, ttl);
  }

  /** A refresh whose fetch returns, among whatever steps of callers, ends with the fetched tag cached
      if it announces a newer version, and with none otherwise. */
  lemma RefreshTakesEffect(s: State, r: nat, tag: string, a: seq<Step>, b: seq<Step>, c: seq<Step>, d: seq<Step>,
                           app: string, ttl: real)
    requires InPhase(s, r, Claimed, app, ttl) && Quiet(a, r) && Quiet(b, r) && Quiet(c, r) && Quiet(d, r)
    ensures var fetching := Then(s, a, Spawn(r), app, ttl);
            var fetched := Then(fetching, b, FetchReturns(r, tag), app, ttl);
            var stored := Then(fetched, c, Store(r), app, ttl);
            var done := Then(stored, d, Finish(r), app, ttl);
            Over(done, r) && done.latest == if Announces(tag, app) then Some(tag) else None
  {
    var fetching := Then(s, a, Spawn(r), app, ttl);
    var fetched := Then(fetching, b, FetchReturns(r, tag), app, ttl);
    ThreadStarts(s, a, r, app, ttl);
    FetchSucceeds(fetching, b, r, tag, app, ttl);
    TagIsStored(fetched, c, r, tag, app, ttl);
    RefreshEnds(Then(fetched, c, Store(r), app, ttl), d, r, app, ttl);
  }

  /** One whose fetch raises ends the check too, and leaves the cached tag as it was. */
  lemma FailureKeepsTag(s: State, r: nat, a: seq<Step>, b: seq<Step>, c: seq<Step>, app: string, ttl: real)
    requires InPhase(s, r, Claimed, app, ttl) && Quiet(a, r) && Quiet(b, r) && Quiet(c, r)
    ensures var fetching := Then(s, a, Spawn(r), app, ttl);
            var raised := Then(fetching, b, FetchRaises(r), app, ttl);
            var done := Then(raised, c, Finish(r), app, ttl);
            Over(done, r) && done.latest == s.latest
  {
    var fetching := Then(s, a, Spawn(r), app, ttl);
    ThreadStarts(s, a, r, app, ttl);
    FetchFails(fetching, b, r, app, ttl);
    RefreshEnds(Then(fetching, b, FetchRaises(r), app, ttl), c, r, app, ttl);
  }
}
