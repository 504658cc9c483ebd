/** Registration plans and their validation (app/registration.py): scans that remember the
    first owner of a key, against the statement that no two members conflict. */
module Registration {
  import opened Orders
  import opened Sequences
  import opened Texts

  // ----- Plans -----

  /** A planned rule. `view` is the identity of its view function. */
  datatype Rule = Rule(rule: string, endpoint: string, methods: seq<string>, source: string, view: Option<nat>)

  /** Adding to a sorted tuple without repetitions. */
  function Include(x: string, sorted: seq<string>): (r: seq<string>)
    ensures forall y :: y in r <==> y == x || y in sorted
  {
    if x in sorted then sorted else InsertMembers(x, sorted, StringLess); Insert(x, sorted, StringLess)
  }

  function UpperAll(methods: seq<string>): (r: seq<string>)
    ensures forall m | m in methods :: Upper(m) in r
    ensures forall y | y in r :: exists m :: m in methods && Upper(m) == y
  {
    if methods == [] then []
    else
      var r := Include(Upper(methods[0]), UpperAll(methods[1..]));
      assert methods == [methods[0]] + methods[1..] && methods[0] in methods;
      assert forall m | m in methods[1..] :: m in methods;
      r
  }

  /** A rule as constructed: upper-case methods, HEAD with GET, and always OPTIONS. */
  function PlannedRule(rule: string, endpoint: string, methods: seq<string>, source: string,
                       view: Option<nat>): (r: Rule)
    ensures forall y :: y in r.methods <==>
              y == "OPTIONS" || (exists m :: m in methods && Upper(m) == y)
              || (y == "HEAD" && exists m :: m in methods && Upper(m) == "GET")
    ensures r.rule == rule && r.endpoint == endpoint && r.source == source && r.view == view
  {
    var upper := UpperAll(methods);
    var withHead := if "GET" in upper then Include("HEAD", upper) else upper;
    Rule(rule, endpoint, Include("OPTIONS", withHead), source, view)
  }

  /** A tuple as `sorted(set(...))` gives it: strictly ascending, and so without repetitions. */
  ghost predicate Ascending(s: seq<string>) { forall i, j | 0 <= i < j < |s| :: StringLess(s[i], s[j]) }

  lemma FirstBelow(x: string, s: seq<string>)
    requires Ascending(s) && (s == [] || StringLess(x, s[0]))
    ensures Ascending([x] + s)
  {
    forall j | 0 <= j < |s| ensures StringLess(x, s[j]) {
      if j > 0 {
        StringLessTransitive(x, s[0], s[j]);
      }
    }
  }

  lemma {:induction false} InsertAscends(x: string, s: seq<string>)
    requires Ascending(s) && x !in s
    ensures Ascending(Insert(x, s, StringLess))
  {
    if s == [] || !StringLess(s[0], x) {
      if s != [] {
        StringLessTrichotomy(s[0], x);
      }
      FirstBelow(x, s);
    } else {
      InsertAscends(x, s[1..]);
      var r := Insert(x, s[1..], StringLess);
      InsertMembers(x, s[1..], StringLess);
      assert r[0] in r;
      FirstBelow(s[0], r);
    }
  }

  lemma IncludeKeepsOrder(x: string, s: seq<string>)
    requires Ascending(s)
    ensures Ascending(Include(x, s))
  {
    if x !in s {
      InsertAscends(x, s);
    }
  }

  lemma {:induction false} UpperAllAscends(methods: seq<string>)
    ensures Ascending(UpperAll(methods))
  {
    if methods != [] {
      UpperAllAscends(methods[1..]);
      IncludeKeepsOrder(Upper(methods[0]), UpperAll(methods[1..]));
    }
  }

  /** A rule has its methods once each and in order. */
  lemma MethodsAscend(rule: string, endpoint: string, methods: seq<string>, source: string, view: Option<nat>)
    ensures Ascending(PlannedRule(rule, endpoint, methods, source, view).methods)
  {
    UpperAllAscends(methods);
    var upper := UpperAll(methods);
    IncludeKeepsOrder("HEAD", upper);
    IncludeKeepsOrder("OPTIONS", if "GET" in upper then Include("HEAD", upper) else upper);
  }

  datatype Blueprint = Blueprint(name: string, source: string, rules: seq<Rule>, registeredNames: seq<string>)

  datatype Contribution = Contribution(id: string, builtin: bool, config: seq<string>, secretKeys: seq<string>)

  datatype Plan = Plan(
    rules: seq<Rule>, blueprints: seq<Blueprint>, modules: seq<Contribution>, secretOwners: seq<(string, string)>)

  /** What the application already serves. */
  datatype Existing = Existing(rules: seq<Rule>, blueprints: seq<string>)

  // ----- Claims -----

  /** What can be claimed. Module ids and blueprint names admit one claim; the other keys may be
      claimed again by the same holder. */
  datatype Key =
    | ModuleId(id: string)
    | ConfigKey(key: string)
    | SecretKey(key: string)
    | BlueprintName(name: string)
    | Endpoint(name: string)
    | Route(rule: string, method_: string)
  {
    predicate Exclusive() { ModuleId? || BlueprintName? }
  }

  datatype Holder =
    | Already
    | Module(id: string)
    | Source(name: string)
    | View(source: string, endpoint: string, view: Option<nat>)

  datatype Claim = Claim(key: Key, holder: Holder)

  /** Two claims that cannot both be registered. */
  predicate Clash(a: Claim, b: Claim) {
    a.key == b.key && if a.key.Exclusive() then a.holder != Already || b.holder != Already else a.holder != b.holder
  }

  lemma ClashLaws(a: Claim, b: Claim, c: Claim)
    ensures Clash(a, b) == Clash(b, a)
    ensures a.key == b.key == c.key && !Clash(a, b) && !Clash(a, c) ==> !Clash(b, c)
  {
  }

  /** No two of the claims, however ordered, conflict. */
  ghost predicate ConflictFree(m: multiset<Claim>) {
    && (forall a, b | a in m && b in m && a != b :: !Clash(a, b))
    && (forall a | a in m && m[a] >= 2 :: !Clash(a, a))
  }

  ghost predicate NoCross(m: multiset<Claim>, n: multiset<Claim>) {
    forall a, b | a in m && b in n :: !Clash(a, b)
  }

  /** Conflicts are pairwise: a union is free when its parts are and nothing crosses them. */
  lemma UnionIsPairwise(m: multiset<Claim>, n: multiset<Claim>)
    ensures ConflictFree(m + n) <==> ConflictFree(m) && ConflictFree(n) && NoCross(m, n)
  {
    if ConflictFree(m + n) {
      forall a, b | a in m && b in n ensures !Clash(a, b) {
        assert a in m + n && b in m + n;
        if a == b {
          assert (m + n)[a] >= 2;
        }
      }
      assert forall a | a in m :: a in m + n && m[a] <= (m + n)[a];
      assert forall a | a in n :: a in m + n && n[a] <= (m + n)[a];
    }
    if ConflictFree(m) && ConflictFree(n) && NoCross(m, n) {
      forall a | a in m + n && (m + n)[a] >= 2 ensures !Clash(a, a) {
        assert m[a] >= 2 || n[a] >= 2 || (a in m && a in n);
      }
      forall a, b | a in m + n && b in m + n && a != b ensures !Clash(a, b) {
        ClashLaws(a, b, a);
      }
    }
  }

  lemma SubIsFree(m: multiset<Claim>, n: multiset<Claim>)
    requires m <= n && ConflictFree(n)
    ensures ConflictFree(m)
  {
    assert n == m + (n - m);
    UnionIsPairwise(m, n - m);
  }

  // ----- The scan -----

  datatype Conflict = Conflict(key: Key, first: Holder, second: Holder)

  /** Every error reported is a pair of claims that conflict. */
  ghost predicate RealConflicts(errors: seq<Conflict>, m: multiset<Claim>) {
    forall x | x in errors ::
      Claim(x.key, x.first) in m && Claim(x.key, x.second) in m && Clash(Claim(x.key, x.first), Claim(x.key, x.second))
  }

  /** `owners` remembers a holder of every key claimed, one that did claim it. */
  ghost predicate Remembers(owners: map<Key, Holder>, claims: seq<Claim>) {
    && (forall c | c in claims :: c.key in owners)
    && (forall k | k in owners :: Claim(k, owners[k]) in claims)
  }

  /** Against conflict-free claims it is enough to compare a new one with the remembered holder. */
  lemma OneMoreClaim(claims: seq<Claim>, c: Claim, owners: map<Key, Holder>)
    requires Remembers(owners, claims)
    ensures ConflictFree(multiset(claims + [c])) <==>
            ConflictFree(multiset(claims)) && !(c.key in owners && Clash(Claim(c.key, owners[c.key]), c))
  {
    assert multiset(claims + [c]) == multiset(claims) + multiset{c};
    UnionIsPairwise(multiset(claims), multiset{c});
    if ConflictFree(multiset(claims)) {
      forall b | b in multiset(claims) && Clash(b, c)
        ensures c.key in owners && Clash(Claim(c.key, owners[c.key]), c)
      {
        assert b in claims;
        var first := Claim(c.key, owners[c.key]);
        assert first in multiset(claims);
        ClashLaws(first, b, c);
      }
      if c.key in owners {
        assert Claim(c.key, owners[c.key]) in multiset(claims);
      }
    }
  }

  lemma OneMoreRemembered(claims: seq<Claim>, c: Claim, owners: map<Key, Holder>)
    requires Remembers(owners, claims)
    ensures Remembers(Noted(owners, c), claims + [c])
  {
    assert c in claims + [c];
  }

  lemma MoreRealConflicts(a: seq<Conflict>, b: seq<Conflict>, m: multiset<Claim>)
    requires RealConflicts(a, m) && RealConflicts(b, m)
    ensures RealConflicts(a + b, m)
  {
  }

  /** Who claims a key first. */
  ghost function FirstHolder(claims: seq<Claim>, key: Key): Option<Holder> {
    if claims == [] then None
    else if claims[0].key == key then Some(claims[0].holder)
    else FirstHolder(claims[1..], key)
  }

  lemma {:induction false} FirstHolderStays(claims: seq<Claim>, c: Claim, key: Key)
    ensures FirstHolder(claims + [c], key)
            == if FirstHolder(claims, key) == None && c.key == key then Some(c.holder) else FirstHolder(claims, key)
  {
    if claims == [] {
      assert claims + [c] == [c];
    } else {
      assert (claims + [c])[1..] == claims[1..] + [c];
      FirstHolderStays(claims[1..], c, key);
    }
  }

  /** Each claim that clashes with the first one to its key, beside that one. */
  ghost function Reported(claims: seq<Claim>): seq<Conflict> {
    if claims == [] then []
    else
      var n := |claims| - 1;
      var c, first := claims[n], FirstHolder(claims[..n], claims[n].key);
      Reported(claims[..n])
      + if first.Some? && Clash(Claim(c.key, first.value), c) then [Conflict(c.key, first.value, c.holder)] else []
  }

  /** What the scan remembers is who claimed each key first. */
  ghost predicate FirstRemembered(owners: map<Key, Holder>, claims: seq<Claim>) {
    forall k :: FirstHolder(claims, k) == if k in owners then Some(owners[k]) else None
  }

  lemma OneMoreFirst(claims: seq<Claim>, c: Claim, owners: map<Key, Holder>)
    requires FirstRemembered(owners, claims)
    ensures FirstRemembered(Noted(owners, c), claims + [c])
  {
    var next := Noted(owners, c);
    forall k ensures FirstHolder(claims + [c], k) == if k in next then Some(next[k]) else None {
      FirstHolderStays(claims, c, k);
    }
  }

  lemma ReportedOfMore(claims: seq<Claim>, c: Claim, owners: map<Key, Holder>, more: seq<Claim>)
    requires FirstRemembered(owners, claims) && more == claims + [c]
    ensures Reported(more) == Reported(claims) + Found(owners, c)
  {
    assert more[..|more| - 1] == claims;
    assert FirstHolder(claims, c.key) == if c.key in owners then Some(owners[c.key]) else None;
  }

  /** `setdefault`: the first holder stays. */
  function Noted(owners: map<Key, Holder>, c: Claim): map<Key, Holder> {
    if c.key in owners then owners else owners[c.key := c.holder]
  }

  function Found(owners: map<Key, Holder>, c: Claim): seq<Conflict> {
    if c.key in owners && Clash(Claim(c.key, owners[c.key]), c) then [Conflict(c.key, owners[c.key], c.holder)] else []
  }

  /** Where the scan stands after some claims. */
  ghost predicate Scanning(owners: map<Key, Holder>, errors: seq<Conflict>, claims: seq<Claim>) {
    && Remembers(owners, claims) && FirstRemembered(owners, claims)
    && errors == Reported(claims) && (errors == [] <==> ConflictFree(multiset(claims)))
    && RealConflicts(errors, multiset(claims))
  }

  lemma StillReal(errors: seq<Conflict>, claims: seq<Claim>, c: Claim)
    requires RealConflicts(errors, multiset(claims))
    ensures RealConflicts(errors, multiset(claims + [c]))
  {
    assert multiset(claims + [c]) == multiset(claims) + multiset{c};
  }

  lemma NewIsReal(x: Conflict, claims: seq<Claim>, c: Claim)
    requires Claim(x.key, x.first) in claims && c == Claim(x.key, x.second) && Clash(Claim(x.key, x.first), c)
    ensures RealConflicts([x], multiset(claims + [c]))
  {
    assert Claim(x.key, x.first) in claims + [c] && c in claims + [c];
  }

  lemma OneMoreScanning(owners: map<Key, Holder>, errors: seq<Conflict>, claims: seq<Claim>, c: Claim)
    requires Scanning(owners, errors, claims)
    ensures Scanning(Noted(owners, c), errors + Found(owners, c), claims + [c])
  {
    OneMoreClaim(claims, c, owners);
    OneMoreRemembered(claims, c, owners);
    OneMoreFirst(claims, c, owners);
    ReportedOfMore(claims, c, owners, claims + [c]);
    StillReal(errors, claims, c);
    if Found(owners, c) != [] {
      NewIsReal(Found(owners, c)[0], claims, c);
      MoreRealConflicts(errors, Found(owners, c), multiset(claims + [c]));
    }
  }

  // What the loop has in its variables after some claims.

  ghost function OwnersAfter(claims: seq<Claim>): map<Key, Holder> {
    if claims == [] then map[] else Noted(OwnersAfter(claims[..|claims| - 1]), claims[|claims| - 1])
  }

  ghost function ErrorsAfter(claims: seq<Claim>): seq<Conflict> {
    if claims == [] then []
    else
      var n := |claims| - 1;
      ErrorsAfter(claims[..n]) + Found(OwnersAfter(claims[..n]), claims[n])
  }

  /** Whatever holds at the start and is kept by every turn holds of them. */
  lemma {:induction false} LoopKeeps(claims: seq<Claim>, state: (map<Key, Holder>, seq<Conflict>, seq<Claim>) -> bool)
    requires state(map[], [], [])
    requires forall o, e, cs, c | state(o, e, cs) :: state(Noted(o, c), e + Found(o, c), cs + [c])
    ensures state(OwnersAfter(claims), ErrorsAfter(claims), claims)
  {
    if claims != [] {
      var n := |claims| - 1;
      LoopKeeps(claims[..n], state);
      assert claims == claims[..n] + [claims[n]];
    }
  }

  lemma ScanningKept(claims: seq<Claim>)
    ensures Scanning(OwnersAfter(claims), ErrorsAfter(claims), claims)
  {
    NoClaimsAreFree();
    forall o, e, cs, c | Scanning(o, e, cs) ensures Scanning(Noted(o, c), e + Found(o, c), cs + [c]) {
      OneMoreScanning(o, e, cs, c);
    }
    LoopKeeps(claims, Scanning);
  }

  /** A scan that remembers the first holder of each key finds a conflict exactly when two of the
      claims conflict, and reports each claim that clashes with the first to its key. */
  method Scan(claims: seq<Claim>) returns (errors: seq<Conflict>)
    ensures errors == [] <==> ConflictFree(multiset(claims))
    ensures errors == Reported(claims)
    ensures RealConflicts(errors, multiset(claims))
  {
    var owners: map<Key, Holder> := map[];
    errors := [];
    for i := 0 to |claims|
      invariant owners == OwnersAfter(claims[..i]) && errors == ErrorsAfter(claims[..i])
    {
      assert claims[..i + 1][..i] == claims[..i];
      errors := errors + Found(owners, claims[i]);
      owners := Noted(owners, claims[i]);
    }
    assert claims[..|claims|] == claims;
    ScanningKept(claims);
  }

  // ----- The claims of a plan -----

  function KeyClaims(keys: seq<string>, id: string, secret: bool): seq<Claim> {
    if keys == [] then []
    else
      var key := if secret then SecretKey(keys[0]) else ConfigKey(keys[0]);
      [Claim(key, Module(id))] + KeyClaims(keys[1..], id, secret)
  }

  function NameClaims(names: seq<string>, holder: Holder): seq<Claim> {
    if names == [] then [] else [Claim(BlueprintName(names[0]), holder)] + NameClaims(names[1..], holder)
  }

  /** One route claim for each method, OPTIONS excepted. */
  function RouteClaims(r: Rule, methods: seq<string>): seq<Claim> {
    if methods == [] then []
    else
      var claim := Claim(Route(r.rule, methods[0]), View(r.source, r.endpoint, r.view));
      (if methods[0] == "OPTIONS" then [] else [claim]) + RouteClaims(r, methods[1..])
  }

  function IdOf(m: Contribution): seq<Claim> { [Claim(ModuleId(m.id), Module(m.id))] }

  function ConfigOf(m: Contribution): seq<Claim> { KeyClaims(m.config, m.id, false) }

  function SecretsOf(m: Contribution): seq<Claim> { KeyClaims(m.secretKeys, m.id, true) }

  function OwnerOf(o: (string, string)): seq<Claim> { [Claim(SecretKey(o.0), Module(o.1))] }

  function NamesOf(b: Blueprint): seq<Claim> {
    NameClaims(if b.registeredNames != [] then b.registeredNames else [b.name], Source(b.source))
  }

  function RuleOf(r: Rule): seq<Claim> {
    [Claim(Endpoint(r.endpoint), View(r.source, r.endpoint, r.view))] + RouteClaims(r, r.methods)
  }

  function BlueprintRulesOf(b: Blueprint): seq<Claim> { FlatMap(b.rules, RuleOf) }

  ghost function ModuleFootprint(p: Plan): multiset<Claim> {
    multiset(FlatMap(p.modules, IdOf)) + multiset(FlatMap(p.modules, ConfigOf))
    + (multiset(FlatMap(p.modules, SecretsOf)) + multiset(FlatMap(p.secretOwners, OwnerOf)))
  }

  ghost function RouteFootprint(p: Plan): multiset<Claim> {
    multiset(FlatMap(p.blueprints, NamesOf))
    + (multiset(FlatMap(p.rules, RuleOf)) + multiset(FlatMap(p.blueprints, BlueprintRulesOf)))
  }

  /** Everything a plan claims. */
  ghost function Footprint(p: Plan): multiset<Claim> { ModuleFootprint(p) + RouteFootprint(p) }

  /** Everything already taken. A name the application registered twice is one entry. */
  ghost function Taken(e: Existing): multiset<Claim> {
    multiset(NameClaims(e.blueprints, Already)) + multiset(FlatMap(e.rules, RuleOf))
  }

  /** A plan is acceptable when no two of its members and the existing ones conflict. */
  ghost predicate Acceptable(p: Plan, e: Existing) { ConflictFree(Taken(e) + Footprint(p)) }

  // ----- Claims of different kinds do not meet -----

  function KindOf(k: Key): nat {
    match k
    case ModuleId(_) => 0
    case ConfigKey(_) => 1
    case SecretKey(_) => 2
    case BlueprintName(_) => 3
    case Endpoint(_) => 4
    case Route(_, _) => 4
  }

  ghost predicate OfKind(cs: seq<Claim>, kind: nat) { forall c | c in cs :: KindOf(c.key) == kind }

  lemma {:induction false} FlatMapOfKind<T>(xs: seq<T>, f: T -> seq<Claim>, kind: nat)
    requires forall x | x in xs :: OfKind(f(x), kind)
    ensures OfKind(FlatMap(xs, f), kind)
  {
    if xs != [] {
      var n := |xs| - 1;
      assert xs[n] in xs && forall x | x in xs[..n] :: x in xs;
      FlatMapOfKind(xs[..n], f, kind);
    }
  }

  lemma {:induction false} KeyClaimsOfKind(keys: seq<string>, id: string, secret: bool)
    ensures OfKind(KeyClaims(keys, id, secret), if secret then 2 else 1)
  {
    if keys != [] {
      KeyClaimsOfKind(keys[1..], id, secret);
    }
  }

  lemma {:induction false} NameClaimsOfKind(names: seq<string>, holder: Holder)
    ensures OfKind(NameClaims(names, holder), 3)
  {
    if names != [] {
      NameClaimsOfKind(names[1..], holder);
    }
  }

  lemma {:induction false} RouteClaimsOfKind(r: Rule, methods: seq<string>)
    ensures OfKind(RouteClaims(r, methods), 4)
  {
    if methods != [] {
      RouteClaimsOfKind(r, methods[1..]);
    }
  }

  lemma RulesOfKind(rs: seq<Rule>)
    ensures OfKind(FlatMap(rs, RuleOf), 4)
  {
    forall r | r in rs ensures OfKind(RuleOf(r), 4) {
      RouteClaimsOfKind(r, r.methods);
    }
    FlatMapOfKind(rs, RuleOf, 4);
  }

  lemma ModulesOfKind(ms: seq<Contribution>)
    ensures OfKind(FlatMap(ms, IdOf), 0) && OfKind(FlatMap(ms, ConfigOf), 1) && OfKind(FlatMap(ms, SecretsOf), 2)
  {
    forall m | m in ms ensures OfKind(ConfigOf(m), 1) && OfKind(SecretsOf(m), 2) {
      KeyClaimsOfKind(m.config, m.id, false);
      KeyClaimsOfKind(m.secretKeys, m.id, true);
    }
    FlatMapOfKind(ms, IdOf, 0);
    FlatMapOfKind(ms, ConfigOf, 1);
    FlatMapOfKind(ms, SecretsOf, 2);
  }

  lemma BlueprintsOfKind(bs: seq<Blueprint>)
    ensures OfKind(FlatMap(bs, NamesOf), 3) && OfKind(FlatMap(bs, BlueprintRulesOf), 4)
  {
    forall b | b in bs ensures OfKind(NamesOf(b), 3) && OfKind(BlueprintRulesOf(b), 4) {
      NameClaimsOfKind(if b.registeredNames != [] then b.registeredNames else [b.name], Source(b.source));
      RulesOfKind(b.rules);
    }
    FlatMapOfKind(bs, NamesOf, 3);
    FlatMapOfKind(bs, BlueprintRulesOf, 4);
  }

  /** The claims of the first `n` lists. */
  ghost function UnionTo(lists: seq<seq<Claim>>, n: nat): multiset<Claim>
    requires n <= |lists|
  {
    if n == 0 then multiset{} else UnionTo(lists, n - 1) + multiset(lists[n - 1])
  }

  ghost function Union(lists: seq<seq<Claim>>): multiset<Claim> { UnionTo(lists, |lists|) }

  /** The `k`-th list holds claims of the `k`-th kind. */
  ghost predicate ByKind(lists: seq<seq<Claim>>) { forall k | 0 <= k < |lists| :: OfKind(lists[k], k) }

  lemma {:induction false} KindsBelow(lists: seq<seq<Claim>>, n: nat, c: Claim)
    requires n <= |lists| && ByKind(lists) && c in UnionTo(lists, n)
    ensures KindOf(c.key) < n
  {
    if c in multiset(lists[n - 1]) {
      assert c in lists[n - 1];
    } else {
      KindsBelow(lists, n - 1, c);
    }
  }

  lemma {:induction false} UnionMember(lists: seq<seq<Claim>>, n: nat, k: nat, c: Claim)
    requires k < n <= |lists| && c in multiset(lists[k])
    ensures c in UnionTo(lists, n)
  {
    if k < n - 1 {
      UnionMember(lists, n - 1, k, c);
    }
  }

  /** Claims of a further kind meet none of the earlier ones. */
  lemma OneMoreKind(lists: seq<seq<Claim>>, n: nat)
    requires n < |lists| && ByKind(lists)
    ensures NoCross(UnionTo(lists, n), multiset(lists[n]))
  {
    forall a, b | a in UnionTo(lists, n) && b in multiset(lists[n]) ensures !Clash(a, b) {
      KindsBelow(lists, n, a);
      assert b in lists[n];
    }
  }

  lemma OneMoreFree(lists: seq<seq<Claim>>, n: nat)
    requires 0 < n <= |lists| && ByKind(lists)
    ensures ConflictFree(UnionTo(lists, n)) <==>
            ConflictFree(UnionTo(lists, n - 1)) && ConflictFree(multiset(lists[n - 1]))
  {
    OneMoreKind(lists, n - 1);
    UnionIsPairwise(UnionTo(lists, n - 1), multiset(lists[n - 1]));
  }

  /** Each of the first `n` lists is free of conflicts in itself. */
  ghost predicate EachFree(lists: seq<seq<Claim>>, n: nat)
    requires n <= |lists|
  {
    n == 0 || (EachFree(lists, n - 1) && ConflictFree(multiset(lists[n - 1])))
  }

  ghost predicate Alike(whole: nat -> bool, each: nat -> bool, last: nat -> bool, k: nat) {
    (whole(k + 1) <==> whole(k) && last(k)) && (each(k + 1) <==> each(k) && last(k))
  }

  /** Two properties that go on alike from list to list are one. */
  lemma {:induction false} GoOnAlike(whole: nat -> bool, each: nat -> bool, last: nat -> bool, n: nat)
    requires whole(0) == each(0) && forall k | 0 <= k < n :: Alike(whole, each, last, k)
    ensures whole(n) == each(n)
  {
    if n > 0 {
      GoOnAlike(whole, each, last, n - 1);
      assert Alike(whole, each, last, n - 1);
    }
  }

  ghost function WholeFree(lists: seq<seq<Claim>>): nat -> bool {
    (k: nat) => k <= |lists| && ConflictFree(UnionTo(lists, k))
  }

  ghost function EachInItself(lists: seq<seq<Claim>>): nat -> bool {
    (k: nat) => k <= |lists| && EachFree(lists, k)
  }

  ghost function LastFree(lists: seq<seq<Claim>>): nat -> bool {
    (k: nat) => k < |lists| && ConflictFree(multiset(lists[k]))
  }

  lemma OneMoreAlike(lists: seq<seq<Claim>>, k: nat)
    requires k < |lists| && ByKind(lists)
    ensures Alike(WholeFree(lists), EachInItself(lists), LastFree(lists), k)
  {
    OneMoreFree(lists, k + 1);
  }

  lemma StartAlike(lists: seq<seq<Claim>>)
    ensures WholeFree(lists)(0) && EachInItself(lists)(0)
  {
    NoClaimsAreFree();
  }

  lemma KindsAlike(lists: seq<seq<Claim>>, n: nat)
    requires n <= |lists| && ByKind(lists)
    ensures WholeFree(lists)(n) == EachInItself(lists)(n)
  {
    StartAlike(lists);
    forall k | 0 <= k < n ensures Alike(WholeFree(lists), EachInItself(lists), LastFree(lists), k) {
      OneMoreAlike(lists, k);
    }
    GoOnAlike(WholeFree(lists), EachInItself(lists), LastFree(lists), n);
  }

  /** Scanning the kinds separately decides the whole. */
  lemma KindsSeparate(lists: seq<seq<Claim>>, n: nat)
    requires n <= |lists| && ByKind(lists)
    ensures ConflictFree(UnionTo(lists, n)) <==> EachFree(lists, n)
  {
    KindsAlike(lists, n);
  }

  lemma NoClaimsAreFree()
    ensures ConflictFree(multiset{})
  {
  }

  // ----- Validation -----

  /** The claims as validation scans them, kind by kind. */
  function ScanLists(p: Plan, e: Existing): (lists: seq<seq<Claim>>)
    ensures |lists| == 5
  {
    [FlatMap(p.modules, IdOf),
     FlatMap(p.modules, ConfigOf),
     FlatMap(p.modules, SecretsOf) + FlatMap(p.secretOwners, OwnerOf),
     NameClaims(e.blueprints, Already) + FlatMap(p.blueprints, NamesOf),
     FlatMap(e.rules, RuleOf) + FlatMap(p.rules, RuleOf) + FlatMap(p.blueprints, BlueprintRulesOf)]
  }

  lemma UnionOfFive(ls: seq<seq<Claim>>)
    requires |ls| == 5
    ensures Union(ls) == multiset(ls[0]) + multiset(ls[1]) + multiset(ls[2]) + multiset(ls[3]) + multiset(ls[4])
  {
    assert UnionTo(ls, 1) == multiset(ls[0]);
    assert UnionTo(ls, 2) == UnionTo(ls, 1) + multiset(ls[1]);
    assert UnionTo(ls, 3) == UnionTo(ls, 2) + multiset(ls[2]);
    assert UnionTo(ls, 4) == UnionTo(ls, 3) + multiset(ls[3]);
  }

  lemma AllTogether(ids: multiset<Claim>, config: multiset<Claim>, secrets: multiset<Claim>, owners: multiset<Claim>,
                    taken: multiset<Claim>, names: multiset<Claim>, served: multiset<Claim>, rules: multiset<Claim>,
                    routes: multiset<Claim>)
    ensures ids + config + (secrets + owners) + (taken + names) + (served + rules + routes)
            == (taken + served) + ((ids + config + (secrets + owners)) + (names + (rules + routes)))
  {
  }

  lemma ListsCoverPlan(p: Plan, e: Existing)
    ensures Union(ScanLists(p, e)) == Taken(e) + Footprint(p)
  {
    UnionOfFive(ScanLists(p, e));
    AllTogether(multiset(FlatMap(p.modules, IdOf)), multiset(FlatMap(p.modules, ConfigOf)),
                multiset(FlatMap(p.modules, SecretsOf)), multiset(FlatMap(p.secretOwners, OwnerOf)),
                multiset(NameClaims(e.blueprints, Already)), multiset(FlatMap(p.blueprints, NamesOf)),
                multiset(FlatMap(e.rules, RuleOf)), multiset(FlatMap(p.rules, RuleOf)),
                multiset(FlatMap(p.blueprints, BlueprintRulesOf)));
  }

  lemma OfKindConcat(a: seq<Claim>, b: seq<Claim>, kind: nat)
    requires OfKind(a, kind) && OfKind(b, kind)
    ensures OfKind(a + b, kind)
  {
  }

  lemma SecretsOfKind(p: Plan)
    ensures OfKind(FlatMap(p.modules, SecretsOf) + FlatMap(p.secretOwners, OwnerOf), 2)
  {
    ModulesOfKind(p.modules);
    FlatMapOfKind(p.secretOwners, OwnerOf, 2);
    OfKindConcat(FlatMap(p.modules, SecretsOf), FlatMap(p.secretOwners, OwnerOf), 2);
  }

  lemma NamesOfKind(p: Plan, e: Existing)
    ensures OfKind(NameClaims(e.blueprints, Already) + FlatMap(p.blueprints, NamesOf), 3)
  {
    NameClaimsOfKind(e.blueprints, Already);
    BlueprintsOfKind(p.blueprints);
    OfKindConcat(NameClaims(e.blueprints, Already), FlatMap(p.blueprints, NamesOf), 3);
  }

  lemma RoutesOfKind(p: Plan, e: Existing)
    ensures OfKind(FlatMap(e.rules, RuleOf) + FlatMap(p.rules, RuleOf) + FlatMap(p.blueprints, BlueprintRulesOf), 4)
  {
    RulesOfKind(e.rules);
    RulesOfKind(p.rules);
    BlueprintsOfKind(p.blueprints);
    OfKindConcat(FlatMap(e.rules, RuleOf), FlatMap(p.rules, RuleOf), 4);
    OfKindConcat(FlatMap(e.rules, RuleOf) + FlatMap(p.rules, RuleOf), FlatMap(p.blueprints, BlueprintRulesOf), 4);
  }

  lemma FiveByKind(ls: seq<seq<Claim>>)
    requires |ls| == 5
    requires OfKind(ls[0], 0) && OfKind(ls[1], 1) && OfKind(ls[2], 2) && OfKind(ls[3], 3) && OfKind(ls[4], 4)
    ensures ByKind(ls)
  {
  }

  lemma ListsByKind(p: Plan, e: Existing)
    ensures ByKind(ScanLists(p, e))
  {
    var ls := ScanLists(p, e);
    assert OfKind(ls[0], 0) && OfKind(ls[1], 1) by {
      ModulesOfKind(p.modules);
    }
    assert OfKind(ls[2], 2) by {
      SecretsOfKind(p);
    }
    assert OfKind(ls[3], 3) by {
      NamesOfKind(p, e);
    }
    assert OfKind(ls[4], 4) by {
      RoutesOfKind(p, e);
    }
    FiveByKind(ls);
  }

  lemma FoundIsReal(lists: seq<seq<Claim>>, k: nat, found: seq<Conflict>)
    requires k < |lists| && RealConflicts(found, multiset(lists[k]))
    ensures RealConflicts(found, Union(lists))
  {
    forall x | x in found ensures Claim(x.key, x.first) in Union(lists) && Claim(x.key, x.second) in Union(lists) {
      UnionMember(lists, |lists|, k, Claim(x.key, x.first));
      UnionMember(lists, |lists|, k, Claim(x.key, x.second));
    }
  }

  /** What has been found in the first `n` lists. */
  ghost predicate Scanned(errors: seq<Conflict>, lists: seq<seq<Claim>>, n: nat)
    requires n <= |lists|
  {
    && (errors == [] <==> EachFree(lists, n)) && RealConflicts(errors, Union(lists))
    && errors == FlatMap(lists[..n], Reported)
  }

  lemma OneMoreScanned(errors: seq<Conflict>, found: seq<Conflict>, lists: seq<seq<Claim>>, k: nat)
    requires k < |lists| && Scanned(errors, lists, k)
    requires found == [] <==> ConflictFree(multiset(lists[k]))
    requires RealConflicts(found, multiset(lists[k])) && found == Reported(lists[k])
    ensures Scanned(errors + found, lists, k + 1)
  {
    assert lists[..k + 1][..k] == lists[..k];
    FoundIsReal(lists, k, found);
    MoreRealConflicts(errors, found, Union(lists));
  }

  method ScanAll(lists: seq<seq<Claim>>) returns (errors: seq<Conflict>)
    requires ByKind(lists)
    ensures errors == [] <==> ConflictFree(Union(lists))
    ensures RealConflicts(errors, Union(lists)) && errors == FlatMap(lists, Reported)
  {
    errors := [];
    for k := 0 to |lists|
      invariant Scanned(errors, lists, k)
    {
      var found := Scan(lists[k]);
      OneMoreScanned(errors, found, lists, k);
      errors := errors + found;
    }
    assert lists[..|lists|] == lists;
    KindsSeparate(lists, |lists|);
  }

  // ----- What acceptance means for the members -----

  /** No two modules of the plan, wherever they stand, have one id. */
  ghost predicate IdsDiffer(ms: seq<Contribution>) {
    forall i, j | 0 <= i < j < |ms| :: ms[i].id != ms[j].id
  }

  /** A configuration key belongs to one module. */
  ghost predicate ConfigsDiffer(ms: seq<Contribution>) {
    forall a, b, k | a in ms && b in ms && k in a.config && k in b.config :: a.id == b.id
  }

  /** A secret key belongs to one module, whether by declaration or as an owner. */
  ghost predicate SecretsAgree(ms: seq<Contribution>, owners: seq<(string, string)>) {
    && (forall a, b, k | a in ms && b in ms && k in a.secretKeys && k in b.secretKeys :: a.id == b.id)
    && (forall a, o | a in ms && o in owners && o.0 in a.secretKeys :: o.1 == a.id)
    && (forall o, q | o in owners && q in owners && o.0 == q.0 :: o.1 == q.1)
  }

  /** The names a blueprint takes. */
  function NamesTaken(b: Blueprint): seq<string> { if b.registeredNames != [] then b.registeredNames else [b.name] }

  ghost predicate Different(names: seq<string>, existing: seq<string>) {
    && (forall i, j | 0 <= i < j < |names| :: names[i] != names[j])
    && (forall n | n in names :: n !in existing)
  }

  /** No blueprint name is taken twice, or by the application already. */
  ghost predicate NamesDiffer(bs: seq<Blueprint>, existing: seq<string>) {
    Different(FlatMap(bs, NamesTaken), existing)
  }

  function RulesIn(b: Blueprint): seq<Rule> { b.rules }

  /** The existing rules, those of the plan and those of its blueprints. */
  function AllRules(p: Plan, e: Existing): seq<Rule> { e.rules + p.rules + FlatMap(p.blueprints, RulesIn) }

  /** Two rules meet on a path with a method other than OPTIONS. */
  ghost predicate Meet(a: Rule, b: Rule) {
    a.rule == b.rule && exists m :: m in a.methods && m in b.methods && m != "OPTIONS"
  }

  /** Rules with one endpoint have one source and view, and rules that meet are one endpoint's. */
  ghost predicate RulesAgree(rs: seq<Rule>) {
    forall a, b | a in rs && b in rs ::
      && (a.endpoint == b.endpoint ==> a.source == b.source && a.view == b.view)
      && (Meet(a, b) ==> a.source == b.source && a.endpoint == b.endpoint && a.view == b.view)
  }

  /** No two members of the plan and the application conflict. */
  ghost predicate MembersAgree(p: Plan, e: Existing) {
    && IdsDiffer(p.modules)
    && ConfigsDiffer(p.modules)
    && SecretsAgree(p.modules, p.secretOwners)
    && NamesDiffer(p.blueprints, e.blueprints)
    && RulesAgree(AllRules(p, e))
  }

  // Conflict-freedom of a list, by position and by holder.

  lemma {:induction false} TwicePositions(cs: seq<Claim>, a: Claim) returns (i: nat, j: nat)
    requires multiset(cs)[a] >= 2
    ensures i < j < |cs| && cs[i] == a && cs[j] == a
  {
    var n := |cs| - 1;
    assert cs == cs[..n] + [cs[n]];
    if cs[n] == a {
      assert a in multiset(cs[..n]);
      i :| 0 <= i < n && cs[..n][i] == a;
      j := n;
    } else {
      i, j := TwicePositions(cs[..n], a);
    }
  }

  ghost predicate FreeInOrder(cs: seq<Claim>) { forall i, j | 0 <= i < j < |cs| :: !Clash(cs[i], cs[j]) }

  lemma FreeByPosition(cs: seq<Claim>)
    ensures ConflictFree(multiset(cs)) <==> FreeInOrder(cs)
  {
    if ConflictFree(multiset(cs)) {
      forall i, j | 0 <= i < j < |cs| ensures !Clash(cs[i], cs[j]) {
        assert cs[i] in multiset(cs) && cs[j] in multiset(cs);
        if cs[i] == cs[j] {
          AppearsTwice(cs, i, j);
        }
      }
    }
    if FreeInOrder(cs) {
      forall a, b | a in multiset(cs) && b in multiset(cs) && a != b ensures !Clash(a, b) {
        var i :| 0 <= i < |cs| && cs[i] == a;
        var j :| 0 <= j < |cs| && cs[j] == b;
        ClashLaws(a, b, a);
      }
      forall a | a in multiset(cs) && multiset(cs)[a] >= 2 ensures !Clash(a, a) {
        var i, j := TwicePositions(cs, a);
      }
    }
  }

  ghost predicate HoldersAgree(cs: seq<Claim>) {
    forall a, b | a in cs && b in cs && a.key == b.key :: a.holder == b.holder
  }

  lemma FreeByHolder(cs: seq<Claim>, kind: nat)
    requires OfKind(cs, kind) && kind != 0 && kind != 3
    ensures ConflictFree(multiset(cs)) <==> HoldersAgree(cs)
  {
    forall a | a in cs ensures !a.key.Exclusive() {
      assert KindOf(a.key) == kind;
    }
    if ConflictFree(multiset(cs)) {
      forall a, b | a in cs && b in cs && a.key == b.key ensures a.holder == b.holder {
        assert a in multiset(cs) && b in multiset(cs);
      }
    }
  }

  // The lists, one by one.

  lemma {:induction false} IdClaimsAt(ms: seq<Contribution>)
    ensures |FlatMap(ms, IdOf)| == |ms|
    ensures forall i | 0 <= i < |ms| :: FlatMap(ms, IdOf)[i] == Claim(ModuleId(ms[i].id), Module(ms[i].id))
  {
    if ms != [] {
      IdClaimsAt(ms[..|ms| - 1]);
    }
  }

  lemma IdsInOrder(ms: seq<Contribution>)
    ensures FreeInOrder(FlatMap(ms, IdOf)) <==> IdsDiffer(ms)
  {
    IdClaimsAt(ms);
    var cs := FlatMap(ms, IdOf);
    if FreeInOrder(cs) {
      forall i, j | 0 <= i < j < |ms| ensures ms[i].id != ms[j].id {
        assert !Clash(cs[i], cs[j]);
      }
    }
  }

  lemma IdsMeaning(ms: seq<Contribution>)
    ensures ConflictFree(multiset(FlatMap(ms, IdOf))) <==> IdsDiffer(ms)
  {
    FreeByPosition(FlatMap(ms, IdOf));
    IdsInOrder(ms);
  }

  lemma {:induction false} KeyClaimsMembers(keys: seq<string>, id: string, secret: bool, c: Claim)
    ensures c in KeyClaims(keys, id, secret) <==>
            exists k :: k in keys && c == Claim(if secret then SecretKey(k) else ConfigKey(k), Module(id))
  {
    if keys != [] {
      KeyClaimsMembers(keys[1..], id, secret, c);
      assert keys == [keys[0]] + keys[1..];
      assert keys[0] in keys;
    }
  }

  lemma KeyIsClaimed<T>(xs: seq<T>, f: T -> seq<Claim>, x: T, keys: seq<string>, id: string, secret: bool, k: string)
    requires x in xs && f(x) == KeyClaims(keys, id, secret) && k in keys
    ensures Claim(if secret then SecretKey(k) else ConfigKey(k), Module(id)) in FlatMap(xs, f)
  {
    var c := Claim(if secret then SecretKey(k) else ConfigKey(k), Module(id));
    KeyClaimsMembers(keys, id, secret, c);
    FlatMapMember(xs, f, x, c);
  }

  lemma ClaimingConfig(ms: seq<Contribution>, c: Claim) returns (m: Contribution)
    requires c in FlatMap(ms, ConfigOf)
    ensures m in ms && c.key.ConfigKey? && c.key.key in m.config && c.holder == Module(m.id)
  {
    FlatMapMembers(ms, ConfigOf);
    m :| m in ms && c in ConfigOf(m);
    KeyClaimsMembers(m.config, m.id, false, c);
  }

  lemma ConfigsMeaning(ms: seq<Contribution>)
    ensures HoldersAgree(FlatMap(ms, ConfigOf)) <==> ConfigsDiffer(ms)
  {
    var cs := FlatMap(ms, ConfigOf);
    if HoldersAgree(cs) {
      forall a, b, k | a in ms && b in ms && k in a.config && k in b.config ensures a.id == b.id {
        KeyIsClaimed(ms, ConfigOf, a, a.config, a.id, false, k);
        KeyIsClaimed(ms, ConfigOf, b, b.config, b.id, false, k);
      }
    }
    if ConfigsDiffer(ms) {
      forall c, d | c in cs && d in cs && c.key == d.key ensures c.holder == d.holder {
        var a := ClaimingConfig(ms, c);
        var b := ClaimingConfig(ms, d);
      }
    }
  }

  /** Who is said to hold a secret. */
  ghost predicate SaysSecret(ms: seq<Contribution>, owners: seq<(string, string)>, k: string, id: string) {
    (exists m :: m in ms && k in m.secretKeys && m.id == id) || (exists o :: o in owners && o == (k, id))
  }

  lemma SecretClaims(ms: seq<Contribution>, owners: seq<(string, string)>, c: Claim)
    ensures c in FlatMap(ms, SecretsOf) + FlatMap(owners, OwnerOf) <==>
            c.key.SecretKey? && c.holder.Module? && SaysSecret(ms, owners, c.key.key, c.holder.id)
  {
    FlatMapMembers(ms, SecretsOf);
    FlatMapMembers(owners, OwnerOf);
    if c in FlatMap(ms, SecretsOf) {
      var m :| m in ms && c in SecretsOf(m);
      KeyClaimsMembers(m.secretKeys, m.id, true, c);
    }
    if c in FlatMap(owners, OwnerOf) {
      var o :| o in owners && c in OwnerOf(o);
      assert o == (c.key.key, c.holder.id);
    }
    if c.key.SecretKey? && c.holder.Module? && SaysSecret(ms, owners, c.key.key, c.holder.id) {
      if m :| m in ms && c.key.key in m.secretKeys && m.id == c.holder.id {
        KeyIsClaimed(ms, SecretsOf, m, m.secretKeys, m.id, true, c.key.key);
      } else {
        var o :| o in owners && o == (c.key.key, c.holder.id);
        FlatMapMember(owners, OwnerOf, o, c);
      }
    }
  }

  /** Everybody who is said to hold a secret is the same. */
  ghost predicate OneHolder(ms: seq<Contribution>, owners: seq<(string, string)>) {
    forall k, x, y | SaysSecret(ms, owners, k, x) && SaysSecret(ms, owners, k, y) :: x == y
  }

  lemma OneHolderMeans(ms: seq<Contribution>, owners: seq<(string, string)>)
    ensures OneHolder(ms, owners) <==> SecretsAgree(ms, owners)
  {
    if OneHolder(ms, owners) {
      forall a, b, k | a in ms && b in ms && k in a.secretKeys && k in b.secretKeys ensures a.id == b.id {
        assert SaysSecret(ms, owners, k, a.id) && SaysSecret(ms, owners, k, b.id);
      }
      forall a, o | a in ms && o in owners && o.0 in a.secretKeys ensures o.1 == a.id {
        assert SaysSecret(ms, owners, o.0, a.id) && SaysSecret(ms, owners, o.0, o.1);
      }
      forall o, q | o in owners && q in owners && o.0 == q.0 ensures o.1 == q.1 {
        assert SaysSecret(ms, owners, o.0, o.1) && SaysSecret(ms, owners, o.0, q.1);
      }
    }
  }

  lemma SecretsMeaning(ms: seq<Contribution>, owners: seq<(string, string)>)
    ensures HoldersAgree(FlatMap(ms, SecretsOf) + FlatMap(owners, OwnerOf)) <==> SecretsAgree(ms, owners)
  {
    var cs := FlatMap(ms, SecretsOf) + FlatMap(owners, OwnerOf);
    OneHolderMeans(ms, owners);
    if HoldersAgree(cs) {
      forall k, x, y | SaysSecret(ms, owners, k, x) && SaysSecret(ms, owners, k, y) ensures x == y {
        SecretClaims(ms, owners, Claim(SecretKey(k), Module(x)));
        SecretClaims(ms, owners, Claim(SecretKey(k), Module(y)));
      }
    }
    if OneHolder(ms, owners) {
      forall a, b | a in cs && b in cs && a.key == b.key ensures a.holder == b.holder {
        SecretClaims(ms, owners, a);
        SecretClaims(ms, owners, b);
      }
    }
  }

  lemma {:induction false} NameClaimsAt(names: seq<string>, holder: Holder)
    ensures |NameClaims(names, holder)| == |names|
    ensures forall i | 0 <= i < |names| :: NameClaims(names, holder)[i] == Claim(BlueprintName(names[i]), holder)
  {
    if names != [] {
      NameClaimsAt(names[1..], holder);
    }
  }

  /** The claims of the blueprints are their names, in order, none held by the application. */
  ghost predicate ClaimsOfNames(cs: seq<Claim>, names: seq<string>) {
    && |cs| == |names|
    && forall i | 0 <= i < |cs| :: cs[i].key == BlueprintName(names[i]) && cs[i].holder != Already
  }

  lemma {:induction false} BlueprintClaimsAt(bs: seq<Blueprint>)
    ensures ClaimsOfNames(FlatMap(bs, NamesOf), FlatMap(bs, NamesTaken))
  {
    if bs != [] {
      var n := |bs| - 1;
      BlueprintClaimsAt(bs[..n]);
      NameClaimsAt(NamesTaken(bs[n]), Source(bs[n].source));
    }
  }

  /** The claims of the application's names. */
  ghost predicate ClaimsOfExisting(cs: seq<Claim>, names: seq<string>) {
    |cs| == |names| && forall i | 0 <= i < |cs| :: cs[i] == Claim(BlueprintName(names[i]), Already)
  }

  lemma FreeNamesDiffer(es: seq<Claim>, existing: seq<string>, ns: seq<Claim>, names: seq<string>)
    requires ClaimsOfExisting(es, existing) && ClaimsOfNames(ns, names) && FreeInOrder(es + ns)
    ensures Different(names, existing)
  {
    var cs := es + ns;
    forall i, j | 0 <= i < j < |names| ensures names[i] != names[j] {
      assert !Clash(cs[|es| + i], cs[|es| + j]);
    }
    forall i, j | 0 <= i < |existing| && 0 <= j < |names| ensures existing[i] != names[j] {
      assert !Clash(cs[i], cs[|es| + j]);
    }
  }

  lemma DifferentNamesFree(es: seq<Claim>, existing: seq<string>, ns: seq<Claim>, names: seq<string>)
    requires ClaimsOfExisting(es, existing) && ClaimsOfNames(ns, names) && Different(names, existing)
    ensures FreeInOrder(es + ns)
  {
    var cs := es + ns;
    forall i, j | 0 <= i < j < |cs| ensures !Clash(cs[i], cs[j]) {
      if j >= |es| {
        assert cs[j] == ns[j - |es|] && names[j - |es|] in names;
        if i < |es| {
          assert cs[i] == es[i] && existing[i] in existing;
        } else {
          assert cs[i] == ns[i - |es|];
        }
      } else {
        assert cs[i] == es[i] && cs[j] == es[j];
      }
    }
  }

  lemma NamesMeaning(bs: seq<Blueprint>, existing: seq<string>)
    ensures ConflictFree(multiset(NameClaims(existing, Already) + FlatMap(bs, NamesOf))) <==> NamesDiffer(bs, existing)
  {
    var es, ns, names := NameClaims(existing, Already), FlatMap(bs, NamesOf), FlatMap(bs, NamesTaken);
    NameClaimsAt(existing, Already);
    BlueprintClaimsAt(bs);
    FreeByPosition(es + ns);
    if FreeInOrder(es + ns) {
      FreeNamesDiffer(es, existing, ns, names);
    }
    if Different(names, existing) {
      DifferentNamesFree(es, existing, ns, names);
    }
  }

  lemma {:induction false} RouteClaimsMembers(r: Rule, methods: seq<string>, c: Claim)
    ensures c in RouteClaims(r, methods) <==>
            exists m :: m in methods && m != "OPTIONS"
                   && c == Claim(Route(r.rule, m), View(r.source, r.endpoint, r.view))
  {
    if methods != [] {
      RouteClaimsMembers(r, methods[1..], c);
      assert methods == [methods[0]] + methods[1..];
      assert methods[0] in methods;
    }
  }

  /** The keys of a rule. */
  ghost predicate KeyOfRule(r: Rule, k: Key) {
    k == Endpoint(r.endpoint) || (k.Route? && k.rule == r.rule && k.method_ in r.methods && k.method_ != "OPTIONS")
  }

  /** A rule claims its endpoint, and its path with each method other than OPTIONS. */
  lemma RuleClaims(r: Rule, c: Claim)
    ensures c in RuleOf(r) <==> c.holder == View(r.source, r.endpoint, r.view) && KeyOfRule(r, c.key)
  {
    RouteClaimsMembers(r, r.methods, c);
  }

  lemma RuleIsClaimed(rs: seq<Rule>, r: Rule, k: Key)
    requires r in rs && KeyOfRule(r, k)
    ensures Claim(k, View(r.source, r.endpoint, r.view)) in FlatMap(rs, RuleOf)
  {
    var c := Claim(k, View(r.source, r.endpoint, r.view));
    RuleClaims(r, c);
    FlatMapMember(rs, RuleOf, r, c);
  }

  lemma ClaimingRule(rs: seq<Rule>, c: Claim) returns (r: Rule)
    requires c in FlatMap(rs, RuleOf)
    ensures r in rs && c.holder == View(r.source, r.endpoint, r.view) && KeyOfRule(r, c.key)
  {
    FlatMapMembers(rs, RuleOf);
    r :| r in rs && c in RuleOf(r);
    RuleClaims(r, c);
  }

  lemma RulesHeldOnce(rs: seq<Rule>, a: Rule, b: Rule, k: Key)
    requires HoldersAgree(FlatMap(rs, RuleOf)) && a in rs && b in rs && KeyOfRule(a, k) && KeyOfRule(b, k)
    ensures a.source == b.source && a.endpoint == b.endpoint && a.view == b.view
  {
    RuleIsClaimed(rs, a, k);
    RuleIsClaimed(rs, b, k);
  }

  lemma HeldOnceAgree(rs: seq<Rule>)
    requires HoldersAgree(FlatMap(rs, RuleOf))
    ensures RulesAgree(rs)
  {
    forall a, b | a in rs && b in rs
      ensures a.endpoint == b.endpoint ==> a.source == b.source && a.view == b.view
      ensures Meet(a, b) ==> a.source == b.source && a.endpoint == b.endpoint && a.view == b.view
    {
      if a.endpoint == b.endpoint {
        RulesHeldOnce(rs, a, b, Endpoint(a.endpoint));
      }
      if Meet(a, b) {
        var m :| m in a.methods && m in b.methods && m != "OPTIONS";
        RulesHeldOnce(rs, a, b, Route(a.rule, m));
      }
    }
  }

  lemma AgreeHeldOnce(rs: seq<Rule>, c: Claim, d: Claim)
    requires RulesAgree(rs) && c in FlatMap(rs, RuleOf) && d in FlatMap(rs, RuleOf) && c.key == d.key
    ensures c.holder == d.holder
  {
    var a := ClaimingRule(rs, c);
    var b := ClaimingRule(rs, d);
    assert c.key.Route? ==> Meet(a, b);
  }

  lemma RulesMeaning(rs: seq<Rule>)
    ensures HoldersAgree(FlatMap(rs, RuleOf)) <==> RulesAgree(rs)
  {
    var cs := FlatMap(rs, RuleOf);
    if HoldersAgree(cs) {
      HeldOnceAgree(rs);
    }
    if RulesAgree(rs) {
      forall c, d | c in cs && d in cs && c.key == d.key ensures c.holder == d.holder {
        AgreeHeldOnce(rs, c, d);
      }
    }
  }

  lemma RuleListIsOne(p: Plan, e: Existing)
    ensures FlatMap(e.rules, RuleOf) + FlatMap(p.rules, RuleOf) + FlatMap(p.blueprints, BlueprintRulesOf)
            == FlatMap(AllRules(p, e), RuleOf)
  {
    FlatMapAppend(e.rules, p.rules, RuleOf);
    FlatMapAppend(e.rules + p.rules, FlatMap(p.blueprints, RulesIn), RuleOf);
    FlatMapComposed(p.blueprints, RulesIn, RuleOf);
    forall b | b in p.blueprints ensures Composed(RulesIn, RuleOf)(b) == BlueprintRulesOf(b) {
      assert Composed(RulesIn, RuleOf)(b) == FlatMap(RulesIn(b), RuleOf);
    }
    FlatMapSame(p.blueprints, Composed(RulesIn, RuleOf), BlueprintRulesOf);
  }

  lemma FiveFree(ls: seq<seq<Claim>>)
    requires |ls| == 5
    ensures EachFree(ls, 5) <==>
            ConflictFree(multiset(ls[0])) && ConflictFree(multiset(ls[1])) && ConflictFree(multiset(ls[2]))
            && ConflictFree(multiset(ls[3])) && ConflictFree(multiset(ls[4]))
  {
    assert EachFree(ls, 1) <==> ConflictFree(multiset(ls[0]));
    assert EachFree(ls, 2) <==> EachFree(ls, 1) && ConflictFree(multiset(ls[1]));
    assert EachFree(ls, 3) <==> EachFree(ls, 2) && ConflictFree(multiset(ls[2]));
    assert EachFree(ls, 4) <==> EachFree(ls, 3) && ConflictFree(multiset(ls[3]));
  }

  /** A plan is acceptable exactly when no two of its members and the application's conflict: ids,
      configuration keys, secrets with their owners, blueprint names, endpoints and routes. */
  lemma AcceptableMeans(p: Plan, e: Existing)
    ensures Acceptable(p, e) <==> MembersAgree(p, e)
  {
    var ls := ScanLists(p, e);
    ListsByKind(p, e);
    ListsCoverPlan(p, e);
    KindsSeparate(ls, 5);
    FiveFree(ls);
    IdsMeaning(p.modules);
    FreeByHolder(ls[1], 1);
    ConfigsMeaning(p.modules);
    FreeByHolder(ls[2], 2);
    SecretsMeaning(p.modules, p.secretOwners);
    NamesMeaning(p.blueprints, e.blueprints);
    FreeByHolder(ls[4], 4);
    RuleListIsOne(p, e);
    RulesMeaning(AllRules(p, e));
  }

  /** Validation accepts a plan exactly when no two members conflict, and every error it
      reports is a pair of conflicting claims of the plan or the application. */
  method ValidatePlan(p: Plan, e: Existing) returns (errors: seq<Conflict>)
    ensures errors == [] <==> Acceptable(p, e)
    ensures errors == [] <==> MembersAgree(p, e)
    ensures RealConflicts(errors, Taken(e) + Footprint(p)) && errors == FlatMap(ScanLists(p, e), Reported)
  {
    AcceptableMeans(p, e);
    ListsByKind(p, e);
    ListsCoverPlan(p, e);
    errors := ScanAll(ScanLists(p, e));
  }

  // ----- Combining and dividing plans -----

  function Concat(p: Plan, q: Plan): Plan {
    Plan(p.rules + q.rules, p.blueprints + q.blueprints, p.modules + q.modules, p.secretOwners + q.secretOwners)
  }

  /** What two lists claim together is what each claims. */
  lemma ClaimedTogether<T>(xs: seq<T>, ys: seq<T>, f: T -> seq<Claim>)
    ensures multiset(FlatMap(xs + ys, f)) == multiset(FlatMap(xs, f)) + multiset(FlatMap(ys, f))
  {
    FlatMapAppend(xs, ys, f);
  }

  lemma Regroup(a: multiset<Claim>, b: multiset<Claim>, c: multiset<Claim>, d: multiset<Claim>)
    ensures (a + b) + (c + d) == (a + c) + (b + d)
  {
  }

  lemma ConcatModules(p: Plan, q: Plan)
    ensures ModuleFootprint(Concat(p, q)) == ModuleFootprint(p) + ModuleFootprint(q)
  {
    ClaimedTogether(p.modules, q.modules, IdOf);
    ClaimedTogether(p.modules, q.modules, ConfigOf);
    ClaimedTogether(p.modules, q.modules, SecretsOf);
    ClaimedTogether(p.secretOwners, q.secretOwners, OwnerOf);
  }

  lemma ConcatRoutes(p: Plan, q: Plan)
    ensures RouteFootprint(Concat(p, q)) == RouteFootprint(p) + RouteFootprint(q)
  {
    ClaimedTogether(p.blueprints, q.blueprints, NamesOf);
    ClaimedTogether(p.rules, q.rules, RuleOf);
    ClaimedTogether(p.blueprints, q.blueprints, BlueprintRulesOf);
  }

  /** A joint plan claims what its parts claim. */
  lemma ConcatFootprint(p: Plan, q: Plan)
    ensures Footprint(Concat(p, q)) == Footprint(p) + Footprint(q)
  {
    ConcatModules(p, q);
    ConcatRoutes(p, q);
    Regroup(ModuleFootprint(p), ModuleFootprint(q), RouteFootprint(p), RouteFootprint(q));
  }

  /** Two plans are acceptable together exactly when each is and nothing in one conflicts with
      anything in the other. */
  lemma JointlyAcceptable(p: Plan, q: Plan, e: Existing)
    ensures Acceptable(Concat(p, q), e) <==> Acceptable(p, e) && Acceptable(q, e) && NoCross(Footprint(p), Footprint(q))
  {
    ConcatFootprint(p, q);
    ThreeParts(Taken(e), Footprint(p), Footprint(q));
  }

  lemma ThreeParts(t: multiset<Claim>, f: multiset<Claim>, g: multiset<Claim>)
    ensures ConflictFree(t + (f + g)) <==> ConflictFree(t + f) && ConflictFree(t + g) && NoCross(f, g)
  {
    UnionIsPairwise(t, f + g);
    UnionIsPairwise(t, f);
    UnionIsPairwise(t, g);
    UnionIsPairwise(f, g);
    assert NoCross(t, f + g) <==> NoCross(t, f) && NoCross(t, g) by {
      assert forall c :: c in f + g <==> c in f || c in g;
    }
  }

  /** `p` registers no more than `q` does, whatever the order. */
  ghost predicate SubPlan(p: Plan, q: Plan) {
    && multiset(p.rules) <= multiset(q.rules)
    && multiset(p.blueprints) <= multiset(q.blueprints)
    && multiset(p.modules) <= multiset(q.modules)
    && multiset(p.secretOwners) <= multiset(q.secretOwners)
  }

  /** Every sub-plan of an accepted plan is accepted. */
  lemma SubPlanAcceptable(p: Plan, q: Plan, e: Existing)
    requires SubPlan(p, q) && Acceptable(q, e)
    ensures Acceptable(p, e)
  {
    FlatMapMonotone(p.modules, q.modules, IdOf);
    FlatMapMonotone(p.modules, q.modules, ConfigOf);
    FlatMapMonotone(p.modules, q.modules, SecretsOf);
    FlatMapMonotone(p.secretOwners, q.secretOwners, OwnerOf);
    FlatMapMonotone(p.blueprints, q.blueprints, NamesOf);
    FlatMapMonotone(p.rules, q.rules, RuleOf);
    FlatMapMonotone(p.blueprints, q.blueprints, BlueprintRulesOf);
    SubIsFree(Taken(e) + Footprint(p), Taken(e) + Footprint(q));
  }

  // ----- `RegistrationPlan.combined` -----

  function Assign(owners: seq<(string, string)>, key: string, owner: string): seq<(string, string)> {
    if owners == [] then [(key, owner)]
    else if owners[0].0 == key then [(key, owner)] + owners[1..]
    else [owners[0]] + Assign(owners[1..], key, owner)
  }

  /** `dict(pairs).items()`: the last owner of a key wins. */
  function DictItems(pairs: seq<(string, string)>): seq<(string, string)> {
    if pairs == [] then []
    else Assign(DictItems(pairs[..|pairs| - 1]), pairs[|pairs| - 1].0, pairs[|pairs| - 1].1)
  }

  predicate PairLess(a: (string, string), b: (string, string)) {
    StringLess(a.0, b.0) || (a.0 == b.0 && StringLess(a.1, b.1))
  }

  function SortedDict(pairs: seq<(string, string)>): seq<(string, string)> { Sort(DictItems(pairs), PairLess) }

  /** `p.combined(q)`: everything is concatenated, but secret owners are merged as a dictionary. */
  function Combined(p: Plan, q: Plan): Plan {
    var joint := Concat(p, q);
    joint.(secretOwners := SortedDict(joint.secretOwners))
  }

  ghost predicate OneOwnerEach(pairs: seq<(string, string)>) {
    forall a, b | a in pairs && b in pairs && a.0 == b.0 :: a.1 == b.1
  }

  lemma {:induction false} AssignMembers(owners: seq<(string, string)>, key: string, owner: string)
    ensures (key, owner) in Assign(owners, key, owner)
    ensures forall p | p in Assign(owners, key, owner) :: p == (key, owner) || p in owners
    ensures forall p | p in owners && p.0 != key :: p in Assign(owners, key, owner)
  {
    if owners != [] {
      assert owners == [owners[0]] + owners[1..];
      if owners[0].0 != key {
        AssignMembers(owners[1..], key, owner);
      }
    }
  }

  lemma {:induction false} AssignKeepsKeys(owners: seq<(string, string)>, key: string, owner: string)
    requires UniqueKeys(owners)
    ensures UniqueKeys(Assign(owners, key, owner))
  {
    if owners != [] && owners[0].0 != key {
      AssignKeepsKeys(owners[1..], key, owner);
      AssignMembers(owners[1..], key, owner);
      assert Assign(owners, key, owner)[1..] == Assign(owners[1..], key, owner);
    }
  }

  ghost predicate UniqueKeys(pairs: seq<(string, string)>) {
    pairs == [] || (UniqueKeys(pairs[1..]) && forall p | p in pairs[1..] :: p.0 != pairs[0].0)
  }

  lemma {:induction false} DictItemsLaws(pairs: seq<(string, string)>)
    ensures UniqueKeys(DictItems(pairs))
    ensures forall p | p in DictItems(pairs) :: p in pairs
  {
    if pairs != [] {
      var n := |pairs| - 1;
      assert pairs == pairs[..n] + [pairs[n]];
      DictItemsLaws(pairs[..n]);
      AssignMembers(DictItems(pairs[..n]), pairs[n].0, pairs[n].1);
      AssignKeepsKeys(DictItems(pairs[..n]), pairs[n].0, pairs[n].1);
    }
  }

  lemma {:induction false} DictItemsComplete(pairs: seq<(string, string)>, p: (string, string))
    requires p in pairs && forall q | q in pairs && q.0 == p.0 :: q == p
    ensures p in DictItems(pairs)
  {
    var n := |pairs| - 1;
    assert pairs == pairs[..n] + [pairs[n]];
    assert pairs[n] in pairs;
    AssignMembers(DictItems(pairs[..n]), pairs[n].0, pairs[n].1);
    if pairs[n] != p {
      DictItemsComplete(pairs[..n], p);
    }
  }

  lemma {:induction false} LastIsKept(pairs: seq<(string, string)>, i: nat)
    requires i < |pairs| && forall j | i < j < |pairs| :: pairs[j].0 != pairs[i].0
    ensures pairs[i] in DictItems(pairs)
  {
    var n := |pairs| - 1;
    AssignMembers(DictItems(pairs[..n]), pairs[n].0, pairs[n].1);
    if i < n {
      LastIsKept(pairs[..n], i);
    }
  }

  lemma PairLessIsOrder()
    ensures StrictWeakOrder(PairLess)
  {
    StringLessIsOrder();
    forall x, y, z
      ensures !PairLess(x, x)
      ensures PairLess(x, y) && PairLess(y, z) ==> PairLess(x, z)
      ensures PairLess(x, y) ==> PairLess(x, z) || PairLess(z, y)
    {
      StringLessTrichotomy(x.0, y.0);
      StringLessTrichotomy(x.0, z.0);
      StringLessTrichotomy(y.0, z.0);
    }
  }

  /** `sorted(dict(pairs).items())` has the last owner of each key, in the order of the keys. */
  lemma SortedDictKeepsLast(pairs: seq<(string, string)>)
    ensures var kept := SortedDict(pairs);
            && OneOwnerEach(kept)
            && (forall i, j | 0 <= i < j < |kept| :: !StringLess(kept[j].0, kept[i].0))
            && (forall i | 0 <= i < |pairs| && (forall j | i < j < |pairs| :: pairs[j].0 != pairs[i].0) ::
                  pairs[i] in kept)
  {
    DictItemsLaws(pairs);
    UniqueKeysOneOwner(DictItems(pairs));
    SortMembers(DictItems(pairs), PairLess);
    PairLessIsOrder();
    SortSorts(DictItems(pairs), PairLess);
    forall i | 0 <= i < |pairs| && (forall j | i < j < |pairs| :: pairs[j].0 != pairs[i].0)
      ensures pairs[i] in DictItems(pairs)
    {
      LastIsKept(pairs, i);
    }
  }

  lemma {:induction false} UniqueKeysOneOwner(pairs: seq<(string, string)>)
    requires UniqueKeys(pairs)
    ensures OneOwnerEach(pairs)
  {
    if pairs != [] {
      assert pairs == [pairs[0]] + pairs[1..];
      UniqueKeysOneOwner(pairs[1..]);
    }
  }

  /** Combining keeps every secret owner exactly when the plans agree on them: an owner collision
      between the parts is not detected in the combination but resolved silently. */
  lemma CombinedKeepsOwnersIff(p: Plan, q: Plan)
    ensures var pairs, kept := p.secretOwners + q.secretOwners, Combined(p, q).secretOwners;
            && OneOwnerEach(kept)
            && ((forall o | o in pairs :: o in kept) <==> OneOwnerEach(pairs))
  {
    var pairs := p.secretOwners + q.secretOwners;
    DictItemsLaws(pairs);
    UniqueKeysOneOwner(DictItems(pairs));
    SortMembers(DictItems(pairs), PairLess);
    if OneOwnerEach(pairs) {
      forall o | o in pairs ensures o in DictItems(pairs) {
        DictItemsComplete(pairs, o);
      }
    }
  }
}
