/** Enabling and disabling modules (app/blueprints/modules_bp.py): the disabled set, the
    comma-joined text it is stored as, and the exclusivity of profiles and themes. */
module ModuleToggles {
  import opened Orders
  import opened Texts

  // ----- The stored text -----

  /** `s.split(",")` */
  function Split(s: string): (parts: seq<string>)
    ensures parts != []
    ensures forall p | p in parts :: ',' !in p
  {
    if s == [] then [[]]
    else
      var rest := Split(s[1..]);
      if s[0] == ',' then [[]] + rest else [[s[0]] + rest[0]] + rest[1..]
  }

  /** `",".join(xs)` */
  function Join(xs: seq<string>): string {
    if xs == [] then [] else if |xs| == 1 then xs[0] else xs[0] + "," + Join(xs[1..])
  }

  /** `{s.strip() for s in raw.split(",") if s.strip()}` */
  function Parse(raw: string): set<string> {
    var parts := Split(raw);
    set i | 0 <= i < |parts| && Trim(parts[i]) != [] :: Trim(parts[i])
  }

  function SetOf(xs: seq<string>): set<string> { set x | x in xs }

  /** An identifier that survives the text: not empty, no comma, no space at either end. */
  predicate Clean(x: string) { x != [] && ',' !in x && !IsSpace(x[0]) && !IsSpace(x[|x| - 1]) }

  lemma TrimCleans(s: string)
    requires ',' !in s
    ensures Trim(s) == [] || Clean(Trim(s))
  {
    TrimLeftMembers(s);
  }

  lemma ParsedIsClean(raw: string)
    ensures forall x | x in Parse(raw) :: Clean(x)
  {
    var parts := Split(raw);
    forall i | 0 <= i < |parts| && Trim(parts[i]) != [] ensures Clean(Trim(parts[i])) {
      assert parts[i] in parts;
      TrimCleans(parts[i]);
    }
  }

  lemma {:induction false} SplitOne(x: string)
    requires ',' !in x
    ensures Split(x) == [x]
  {
    if x != [] {
      assert x[0] in x && x == [x[0]] + x[1..];
      assert forall c | c in x[1..] :: c in x;
      SplitOne(x[1..]);
    }
  }

  lemma {:induction false} SplitAtComma(x: string, t: string)
    requires ',' !in x
    ensures Split(x + "," + t) == [x] + Split(t)
  {
    var s := x + "," + t;
    if x == [] {
      assert s[1..] == t;
    } else {
      assert s[1..] == x[1..] + "," + t;
      assert forall c | c in x[1..] :: c in x;
      SplitAtComma(x[1..], t);
      assert [x[0]] + x[1..] == x;
    }
  }

  lemma {:induction false} SplitJoin(xs: seq<string>)
    requires forall x | x in xs :: ',' !in x
    ensures Split(Join(xs)) == if xs == [] then [[]] else xs
  {
    if |xs| == 1 {
      SplitOne(xs[0]);
    } else if xs != [] {
      SplitAtComma(xs[0], Join(xs[1..]));
      SplitJoin(xs[1..]);
      assert xs == [xs[0]] + xs[1..];
    }
  }

  /** The text parses back to the set it was joined from exactly when every member is clean. */
  lemma RoundTrip(xs: seq<string>)
    ensures Parse(Join(xs)) == SetOf(xs) <==> forall x | x in xs :: Clean(x)
  {
    ParsedIsClean(Join(xs));
    if forall x | x in xs :: Clean(x) {
      SplitJoin(xs);
      forall x | x in xs ensures Trim(x) == x {
      }
      var parts := Split(Join(xs));
      forall x | x in xs ensures x in Parse(Join(xs)) {
        var i :| 0 <= i < |xs| && xs[i] == x;
        assert Trim(parts[i]) == x;
      }
    } else {
      var x :| x in xs && !Clean(x);
      assert x in SetOf(xs);
    }
  }

  // ----- Modules and requests -----

  datatype Module = Module(
    id: string, themeType: bool, contributesTheme: bool, contributesThresholds: bool, error: bool, themeData: bool)

  /** What the loader guarantees: clean, distinct ids; theme data only for modules that contribute
      a theme. That no module is both a threshold profile and a theme is assumed besides. */
  ghost predicate Loaded(ms: seq<Module>) {
    && (forall i, j | 0 <= i < j < |ms| :: ms[i].id != ms[j].id)
    && (forall m | m in ms :: Clean(m.id))
    && (forall m | m in ms && m.themeType && m.themeData :: m.contributesTheme)
    && (forall m | m in ms :: !(m.contributesThresholds && (m.contributesTheme || m.themeType)))
  }

  function ThresholdIds(ms: seq<Module>): set<string> { set m | m in ms && m.contributesThresholds :: m.id }

  function ThemeIds(ms: seq<Module>): set<string> { set m | m in ms && m.contributesTheme :: m.id }

  function Find(ms: seq<Module>, id: string): (r: Option<Module>)
    ensures r.Some? ==> r.value in ms && r.value.id == id
    ensures r.None? ==> forall m | m in ms :: m.id != id
  {
    if ms == [] then None else if ms[0].id == id then Some(ms[0]) else Find(ms[1..], id)
  }

  /** An entry of a batch; parts of the wrong type are missing. */
  datatype Entry = Entry(id: Option<string>, enabled: Option<bool>) | NotAnObject

  datatype Request = Enable(id: string) | Disable(id: string) | Batch(entries: Option<seq<Entry>>)

  /** Status code and the disabled set afterwards. */
  datatype Reply = Reply(status: int, disabled: set<string>)

  function EnableReply(ms: seq<Module>, d: set<string>, id: string): Reply {
    var m := Find(ms, id);
    if m.None? then Reply(404, d)
    else if m.value.themeType && (m.value.error || !m.value.themeData) then Reply(409, d)
    else
      var profiles := if m.value.contributesThresholds then ThresholdIds(ms) else {};
      var themes := if m.value.themeType then ThemeIds(ms) else {};
      Reply(200, d + profiles + themes - {id})
  }

  function DisableReply(ms: seq<Module>, d: set<string>, id: string): Reply {
    var m := Find(ms, id);
    if m.None? then Reply(404, d)
    else if m.value.themeType && ThemeIds(ms) - d - {id} == {} then Reply(409, d)
    else if m.value.contributesThresholds && ThresholdIds(ms) - d - {id} == {} then Reply(409, d)
    else Reply(200, d + {id})
  }

  /** The requested states, the last one for each module; or the status of the first bad entry. */
  datatype Desired = Desired(states: map<string, bool>) | Refused(status: int)

  function DesiredOf(ms: seq<Module>, entries: seq<Entry>): Desired {
    if entries == [] then Desired(map[])
    else
      var n := |entries| - 1;
      var earlier := DesiredOf(ms, entries[..n]);
      if earlier.Refused? then earlier
      else
        match entries[n]
        case NotAnObject => Refused(400)
        case Entry(id, enabled) =>
          if id.None? || Find(ms, id.value).None? then Refused(404)
          else if enabled.None? then Refused(400)
          else if Find(ms, id.value).value.themeType then Refused(400)
          else Desired(earlier.states[id.value := enabled.value])
  }

  function Applied(d: set<string>, states: map<string, bool>): set<string> {
    d - (set id | id in states && states[id]) + set id | id in states && !states[id]
  }

  predicate ExactlyOne(s: set<string>) { |s| == 1 }

  function BatchReply(ms: seq<Module>, d: set<string>, entries: Option<seq<Entry>>): Reply {
    if entries.None? then Reply(400, d)
    else
      var desired := DesiredOf(ms, entries.value);
      if desired.Refused? then Reply(desired.status, d)
      else
        var after := Applied(d, desired.states);
        if ThresholdIds(ms) != {} && !ExactlyOne(ThresholdIds(ms) - after) then Reply(409, d) else Reply(200, after)
  }

  function ReplyTo(ms: seq<Module>, d: set<string>, r: Request): Reply {
    match r
    case Enable(id) => EnableReply(ms, d, id)
    case Disable(id) => DisableReply(ms, d, id)
    case Batch(entries) => BatchReply(ms, d, entries)
  }

  // ----- Exclusivity -----

  ghost predicate Exclusive(ms: seq<Module>, d: set<string>) {
    ExactlyOne(ThresholdIds(ms) - d) && ThemeIds(ms) - d != {}
  }

  /** Every module contributing a theme is declared to be a theme. */
  ghost predicate ThemesAreTyped(ms: seq<Module>) { forall m | m in ms && m.contributesTheme :: m.themeType }

  lemma {:induction false} DesiredAreNoThemes(ms: seq<Module>, entries: seq<Entry>)
    ensures var desired := DesiredOf(ms, entries);
            desired.Desired? ==> forall id | id in desired.states :: Find(ms, id).Some? && !Find(ms, id).value.themeType
  {
    if entries != [] {
      DesiredAreNoThemes(ms, entries[..|entries| - 1]);
    }
  }

  /** The `i`-th entry is the last one for the module. */
  ghost predicate LastFor(entries: seq<Entry>, i: nat, id: string) {
    && i < |entries| && entries[i].Entry? && entries[i].id == Some(id)
    && forall j | i < j < |entries| :: !(entries[j].Entry? && entries[j].id == Some(id))
  }

  lemma {:induction false} DesiredIsLast(ms: seq<Module>, entries: seq<Entry>, id: string)
    requires DesiredOf(ms, entries).Desired?
    ensures id in DesiredOf(ms, entries).states <==> exists i: nat :: LastFor(entries, i, id)
    ensures forall i: nat | LastFor(entries, i, id) ::
              id in DesiredOf(ms, entries).states && entries[i].enabled == Some(DesiredOf(ms, entries).states[id])
  {
    if entries != [] {
      var n := |entries| - 1;
      DesiredIsLast(ms, entries[..n], id);
      if entries[n].Entry? && entries[n].id == Some(id) {
        assert LastFor(entries, n, id);
      } else {
        forall i: nat ensures LastFor(entries, i, id) <==> LastFor(entries[..n], i, id) {
          assert forall j | 0 <= j < n :: entries[..n][j] == entries[j];
        }
      }
    }
  }

  /** An accepted batch leaves a module it names active exactly when its last entry asks for that,
      and every other module as it was. */
  lemma BatchTakesEffect(ms: seq<Module>, d: set<string>, entries: seq<Entry>, id: string)
    requires BatchReply(ms, d, Some(entries)).status == 200
    ensures var after := BatchReply(ms, d, Some(entries)).disabled;
            && (forall i: nat | LastFor(entries, i, id) ::
                  entries[i].enabled.Some? && (id !in after <==> entries[i].enabled == Some(true)))
            && ((forall i: nat :: !LastFor(entries, i, id)) ==> (id in after <==> id in d))
  {
    RefusalsAreErrors(ms, entries);
    DesiredIsLast(ms, entries, id);
  }

  lemma {:induction false} RefusalsAreErrors(ms: seq<Module>, entries: seq<Entry>)
    ensures DesiredOf(ms, entries).Refused? ==> DesiredOf(ms, entries).status in {400, 404}
  {
    if entries != [] {
      RefusalsAreErrors(ms, entries[..|entries| - 1]);
    }
  }

  lemma {:induction false} FindIsUnique(ms: seq<Module>, m: Module)
    requires m in ms && forall i, j | 0 <= i < j < |ms| :: ms[i].id != ms[j].id
    ensures Find(ms, m.id) == Some(m)
  {
    var i :| 0 <= i < |ms| && ms[i] == m;
    if i > 0 {
      FindIsUnique(ms[1..], m);
    }
  }

  lemma IdsOfKind(ms: seq<Module>, m: Module)
    requires Loaded(ms) && m in ms
    ensures m.id in ThresholdIds(ms) <==> m.contributesThresholds
    ensures m.id in ThemeIds(ms) <==> m.contributesTheme
  {
    if m.id in ThresholdIds(ms) {
      var n :| n in ms && n.contributesThresholds && n.id == m.id;
      FindIsUnique(ms, m);
      FindIsUnique(ms, n);
    }
    if m.id in ThemeIds(ms) {
      var n :| n in ms && n.contributesTheme && n.id == m.id;
      FindIsUnique(ms, m);
      FindIsUnique(ms, n);
    }
  }

  lemma OneLeft(s: set<string>, x: string)
    requires ExactlyOne(s) && x in s
    ensures s == {x}
  {
    assert |s - {x}| == 0;
  }

  /** Enabling `id` on two disjoint groups, each switched off first if `id` belongs to it. */
  lemma EnableInGroups(profiles: set<string>, themes: set<string>, d: set<string>, id: string, isProfile: bool,
                       isTheme: bool)
    requires profiles !! themes && |profiles - d| == 1 && themes - d != {}
    requires (isProfile <==> id in profiles) && (isTheme ==> id in themes)
    ensures var after := d + (if isProfile then profiles else {}) + (if isTheme then themes else {}) - {id};
            |profiles - after| == 1 && themes - after != {}
  {
    var after := d + (if isProfile then profiles else {}) + (if isTheme then themes else {}) - {id};
    if isProfile {
      assert profiles - after == {id};
      assert themes - after == themes - d;
    } else {
      assert profiles - after == profiles - d;
      if isTheme {
        assert id in themes - after;
      } else {
        assert themes - d <= themes - after;
      }
    }
  }

  lemma EnableKeepsExclusive(ms: seq<Module>, d: set<string>, id: string)
    requires Loaded(ms) && Exclusive(ms, d)
    ensures Exclusive(ms, EnableReply(ms, d, id).disabled)
  {
    if Find(ms, id).Some? {
      var m := Find(ms, id).value;
      IdsOfKind(ms, m);
      GroupsAreDisjoint(ms);
      if m.themeType && (m.error || !m.themeData) {
        return;
      }
      EnableInGroups(ThresholdIds(ms), ThemeIds(ms), d, id, m.contributesThresholds, m.themeType);
    }
  }

  lemma GroupsAreDisjoint(ms: seq<Module>)
    requires Loaded(ms)
    ensures ThresholdIds(ms) !! ThemeIds(ms)
  {
    forall m | m in ms && m.contributesThresholds ensures m.id !in ThemeIds(ms) {
      IdsOfKind(ms, m);
    }
  }

  lemma DisableKeepsExclusive(ms: seq<Module>, d: set<string>, id: string)
    requires Loaded(ms) && ThemesAreTyped(ms) && Exclusive(ms, d)
    ensures Exclusive(ms, DisableReply(ms, d, id).disabled)
  {
    var after := DisableReply(ms, d, id).disabled;
    if Find(ms, id).Some? && after != d {
      var m := Find(ms, id).value;
      IdsOfKind(ms, m);
      assert ThresholdIds(ms) - after == ThresholdIds(ms) - d - {id};
      assert ThemeIds(ms) - after == ThemeIds(ms) - d - {id};
      if id in ThresholdIds(ms) - d {
        OneLeft(ThresholdIds(ms) - d, id);
      } else {
        assert ThresholdIds(ms) - after == ThresholdIds(ms) - d;
      }
      if id !in ThemeIds(ms) {
        assert ThemeIds(ms) - after == ThemeIds(ms) - d;
      }
    }
  }

  lemma BatchKeepsExclusive(ms: seq<Module>, d: set<string>, entries: Option<seq<Entry>>)
    requires Loaded(ms) && ThemesAreTyped(ms) && Exclusive(ms, d)
    ensures Exclusive(ms, BatchReply(ms, d, entries).disabled)
  {
    if entries.Some? && DesiredOf(ms, entries.value).Desired? {
      var states := DesiredOf(ms, entries.value).states;
      DesiredAreNoThemes(ms, entries.value);
      forall x | x in ThemeIds(ms) ensures x !in states {
        var m :| m in ms && m.contributesTheme && m.id == x;
        FindIsUnique(ms, m);
      }
      assert ThemeIds(ms) - Applied(d, states) == ThemeIds(ms) - d;
      assert ThresholdIds(ms) != {};
    }
  }

  lemma StepKeepsExclusive(ms: seq<Module>, d: set<string>, r: Request)
    requires Loaded(ms) && ThemesAreTyped(ms) && Exclusive(ms, d)
    ensures Exclusive(ms, ReplyTo(ms, d, r).disabled)
  {
    match r
    case Enable(id) => EnableKeepsExclusive(ms, d, id);
    case Disable(id) => DisableKeepsExclusive(ms, d, id);
    case Batch(entries) => BatchKeepsExclusive(ms, d, entries);
  }

  function After(ms: seq<Module>, d: set<string>, rs: seq<Request>): set<string> {
    if rs == [] then d else ReplyTo(ms, After(ms, d, rs[..|rs| - 1]), rs[|rs| - 1]).disabled
  }

  lemma {:induction false} RunKeepsExclusive(ms: seq<Module>, d: set<string>, rs: seq<Request>)
    requires Loaded(ms) && ThemesAreTyped(ms) && Exclusive(ms, d)
    ensures Exclusive(ms, After(ms, d, rs))
  {
    if rs != [] {
      RunKeepsExclusive(ms, d, rs[..|rs| - 1]);
      StepKeepsExclusive(ms, After(ms, d, rs[..|rs| - 1]), rs[|rs| - 1]);
    }
  }

  ghost predicate AlwaysExclusive(ms: seq<Module>) {
    forall d, rs | Exclusive(ms, d) :: Exclusive(ms, After(ms, d, rs))
  }

  /** Every sequence of requests, accepted or rejected, keeps exactly one active threshold profile
      and at least one active theme, exactly when every module contributing a theme is declared to
      be a theme: the guards look at the declared type, the groups at the contribution. */
  lemma ExclusiveIffThemesTyped(ms: seq<Module>)
    requires Loaded(ms) && ThresholdIds(ms) != {}
    ensures AlwaysExclusive(ms) <==> ThemesAreTyped(ms)
  {
    if ThemesAreTyped(ms) {
      forall d, rs | Exclusive(ms, d) ensures Exclusive(ms, After(ms, d, rs)) {
        RunKeepsExclusive(ms, d, rs);
      }
    } else {
      var c :| c in ms && c.contributesTheme && !c.themeType;
      UntypedThemeEscapes(ms, c);
    }
  }

  /** A theme contributed by a module of another type can be disabled when it is the last one. */
  lemma UntypedThemeEscapes(ms: seq<Module>, c: Module)
    requires Loaded(ms) && ThresholdIds(ms) != {}
    requires c in ms && c.contributesTheme && !c.themeType
    ensures !AlwaysExclusive(ms)
  {
    var p :| p in ThresholdIds(ms);
    var d := (ThresholdIds(ms) - {p}) + (ThemeIds(ms) - {c.id});
    OnlyOneOfEach(ms, p, c);
    DisablingUntyped(ms, d, c);
    AfterOne(ms, d, Disable(c.id));
    assert !Exclusive(ms, d + {c.id}) by {
      assert ThemeIds(ms) - (d + {c.id}) == {};
    }
  }

  /** Exclusive, with `p` the active profile and `c` the active theme. */
  lemma OnlyOneOfEach(ms: seq<Module>, p: string, c: Module)
    requires Loaded(ms) && p in ThresholdIds(ms) && c in ms && c.contributesTheme
    ensures Exclusive(ms, (ThresholdIds(ms) - {p}) + (ThemeIds(ms) - {c.id}))
    ensures c.id in ThemeIds(ms)
  {
    var profiles, themes := ThresholdIds(ms), ThemeIds(ms);
    var d := (profiles - {p}) + (themes - {c.id});
    GroupsAreDisjoint(ms);
    IdsOfKind(ms, c);
    assert profiles - d == {p};
    assert c.id in themes - d;
  }

  lemma AfterOne(ms: seq<Module>, d: set<string>, r: Request)
    ensures After(ms, d, [r]) == ReplyTo(ms, d, r).disabled
  {
    assert [r][..0] == [];
  }

  lemma DisablingUntyped(ms: seq<Module>, d: set<string>, c: Module)
    requires Loaded(ms) && c in ms && c.contributesTheme && !c.themeType
    ensures DisableReply(ms, d, c.id).disabled == d + {c.id}
  {
    FindIsUnique(ms, c);
  }

  // ----- The handlers -----

  /** `sorted(ids)` */
  method SortedIds(ids: set<string>) returns (xs: seq<string>)
    ensures SetOf(xs) == ids && Sorted(xs, StringLess)
  {
    xs := [];
    var rest := ids;
    while rest != {}
      invariant rest <= ids && SetOf(xs) == ids - rest && Sorted(xs, StringLess)
      decreases |rest|
    {
      var id :| id in rest;
      InsertId(id, xs);
      xs := Insert(id, xs, StringLess);
      rest := rest - {id};
    }
  }

  lemma InsertId(id: string, xs: seq<string>)
    requires Sorted(xs, StringLess)
    ensures Sorted(Insert(id, xs, StringLess), StringLess)
    ensures SetOf(Insert(id, xs, StringLess)) == SetOf(xs) + {id}
  {
    StringLessIsOrder();
    InsertSorted(id, xs, StringLess);
    InsertMembers(id, xs, StringLess);
  }

  /** Disabling every other module of a group. */
  method DisableOthers(ms: seq<Module>, themes: bool, id: string, disabled: set<string>) returns (after: set<string>)
    ensures after == disabled + ((if themes then ThemeIds(ms) else ThresholdIds(ms)) - {id})
  {
    after := disabled;
    for i := 0 to |ms|
      invariant after == disabled + ((if themes then ThemeIds(ms[..i]) else ThresholdIds(ms[..i])) - {id})
    {
      assert ms[..i + 1] == ms[..i] + [ms[i]];
      var inGroup := if themes then ms[i].contributesTheme else ms[i].contributesThresholds;
      if inGroup && ms[i].id != id && ms[i].id !in after {
        after := after + {ms[i].id};
      }
    }
    assert ms[..|ms|] == ms;
  }

  class ConfigManager {
    var disabledModules: string
    var activeTheme: string

    ghost function Disabled(): set<string>
      reads this
    {
      Parse(disabledModules)
    }

    /** Saving a set of clean identifiers loses nothing. */
    method Save(ids: set<string>)
      requires forall id | id in ids :: Clean(id)
      modifies `disabledModules
      ensures Disabled() == ids
    {
      var xs := SortedIds(ids);
      assert forall x | x in xs :: x in SetOf(xs);
      RoundTrip(xs);
      disabledModules := Join(xs);
    }

    method EnableModule(ms: seq<Module>, id: string) returns (status: int)
      requires Loaded(ms)
      modifies this
      ensures Reply(status, Disabled()) == EnableReply(ms, old(Disabled()), id)
      ensures status != 200 ==> disabledModules == old(disabledModules)
      ensures activeTheme ==
              if status == 200 && Find(ms, id).value.themeType then id else old(activeTheme)
      ensures status == 200 && Find(ms, id).value.themeType ==> ThemeIds(ms) - Disabled() == {id}
    {
      var module_ := Find(ms, id);
      if module_.None? {
        return 404;
      }
      var m := module_.value;
      if m.themeType && (m.error || !m.themeData) {
        return 409;
      }
      var disabled := Parse(disabledModules);
      ParsedIsClean(disabledModules);
      if m.contributesThresholds {
        disabled := DisableOthers(ms, false, id, disabled);
      }
      if m.themeType {
        disabled := DisableOthers(ms, true, id, disabled);
      }
      disabled := disabled - {id};
      Save(disabled);
      if m.themeType {
        IdsOfKind(ms, m);
        activeTheme := id;
      }
      status := 200;
    }

    method DisableModule(ms: seq<Module>, id: string) returns (status: int)
      requires Loaded(ms)
      modifies `disabledModules
      ensures Reply(status, Disabled()) == DisableReply(ms, old(Disabled()), id)
      ensures status != 200 ==> disabledModules == old(disabledModules)
    {
      var m := Find(ms, id);
      if m.None? {
        return 404;
      }
      var disabled := Parse(disabledModules);
      ParsedIsClean(disabledModules);
      if m.value.themeType && ThemeIds(ms) - disabled - {id} == {} {
        return 409;
      }
      if m.value.contributesThresholds && ThresholdIds(ms) - disabled - {id} == {} {
        return 409;
      }
      Save(disabled + {id});
      status := 200;
    }

    method ApplyBatch(ms: seq<Module>, entries: Option<seq<Entry>>) returns (status: int)
      requires Loaded(ms)
      modifies `disabledModules
      ensures Reply(status, Disabled()) == BatchReply(ms, old(Disabled()), entries)
      ensures status != 200 ==> disabledModules == old(disabledModules)
    {
      if entries.None? {
        return 400;
      }
      var desired := ReadBatch(ms, entries.value);
      if desired.Refused? {
        return desired.status;
      }
      DesiredAreNoThemes(ms, entries.value);
      ParsedIsClean(disabledModules);
      var disabled := ApplyStates(Parse(disabledModules), desired.states);
      if ThresholdIds(ms) != {} && |ThresholdIds(ms) - disabled| != 1 {
        return 409;
      }
      Save(disabled);
      status := 200;
    }
  }

  method ReadBatch(ms: seq<Module>, requested: seq<Entry>) returns (desired: Desired)
    ensures desired == DesiredOf(ms, requested)
  {
    var states := map[];
    for i := 0 to |requested|
      invariant DesiredOf(ms, requested[..i]) == Desired(states)
    {
      assert requested[..i + 1][..i] == requested[..i];
      RefusalStays(ms, requested, i + 1);
      match requested[i] {
        case NotAnObject => return Refused(400);
        case Entry(id, enabled) =>
          if id.None? || Find(ms, id.value).None? {
            return Refused(404);
          }
          if enabled.None? {
            return Refused(400);
          }
          if Find(ms, id.value).value.themeType {
            return Refused(400);
          }
          states := states[id.value := enabled.value];
      }
    }
    assert requested[..|requested|] == requested;
    desired := Desired(states);
  }

  method ApplyStates(disabled: set<string>, states: map<string, bool>) returns (after: set<string>)
    ensures after == Applied(disabled, states)
  {
    after := disabled;
    var rest := states.Keys;
    while rest != {}
      invariant rest <= states.Keys
      invariant forall x :: x in after <==> if x in states && x !in rest then !states[x] else x in disabled
      decreases |rest|
    {
      var id :| id in rest;
      after := if states[id] then after - {id} else after + {id};
      rest := rest - {id};
    }
  }

  lemma {:induction false} RefusalStays(ms: seq<Module>, entries: seq<Entry>, k: nat)
    requires k <= |entries|
    ensures DesiredOf(ms, entries[..k]).Refused? ==> DesiredOf(ms, entries) == DesiredOf(ms, entries[..k])
    decreases |entries|
  {
    if k < |entries| {
      var rest := entries[..|entries| - 1];
      assert rest[..k] == entries[..k];
      RefusalStays(ms, rest, k);
    } else {
      assert entries[..k] == entries;
    }
  }
}
