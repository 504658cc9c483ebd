/** Which community module owns which secret key (app/module_config_registry.py), and why the
    second evaluation made while loading (app/module_loader.py) agrees with the first. */
module SecretOwnership {
  import opened Tallies

  /** `config` holds the keys of a dictionary, `secrets` a list of declared secret keys. */
  datatype Module = Module(id: string, builtin: bool, enabled: bool, config: seq<string>, secrets: seq<string>)

  /** `ActiveConfig` is what the configuration check looks at: disabled modules list nothing. */
  datatype Listing = Config | Secret | ActiveConfig

  function Listed(m: Module, l: Listing): seq<string> {
    match l
    case Config => m.config
    case Secret => m.secrets
    case ActiveConfig => if m.enabled then m.config else []
  }

  /** Only what the configuration check looks at depends on whether a module is enabled. */
  lemma DisabledListsNoConfig(m: Module, k: string)
    ensures k in Listed(m, ActiveConfig) <==> m.enabled && k in m.config
    ensures k in Listed(m, Config) <==> k in m.config
    ensures k in Listed(m, Secret) <==> k in m.secrets
  {
  }

  /** Ids are distinct, and a dictionary has no key twice. */
  ghost predicate WellFormed(ms: seq<Module>) {
    && (forall i, j | 0 <= i < j < |ms| :: ms[i].id != ms[j].id)
    && (forall m, k | m in ms :: Occurrences(m.config, k) <= 1)
  }

  // ----- The statement -----

  /** A community module that lists the key. */
  predicate Lists(m: Module, l: Listing, k: string) { !m.builtin && k in Listed(m, l) }

  function Protected(ms: seq<Module>, core: set<string>): set<string> {
    core + set m, k | m in ms && m.builtin && k in m.config :: k
  }

  /** The key is unprotected, `m` declares it secret once and configures it, and no other
      community module declares or configures it. */
  ghost predicate Owns(ms: seq<Module>, core: set<string>, k: string, m: Module) {
    && k !in Protected(ms, core)
    && m in ms && Lists(m, Secret, k) && Occurrences(m.secrets, k) == 1 && Lists(m, Config, k)
    && forall n | n in ms && n != m :: !Lists(n, Secret, k) && !Lists(n, Config, k)
  }

  ghost predicate Owned(ms: seq<Module>, core: set<string>, k: string) { exists m :: Owns(ms, core, k, m) }

  ghost predicate Declared(ms: seq<Module>, k: string) { exists m :: m in ms && Lists(m, Secret, k) }

  /** The key is declared a secret and the module is to blame that nobody owns it. */
  ghost predicate Blamed(ms: seq<Module>, core: set<string>, k: string, m: Module) {
    && m in ms && Declared(ms, k)
    && if k in Protected(ms, core) then Lists(m, Secret, k)
       else !Owned(ms, core, k) && (Lists(m, Secret, k) || Lists(m, Config, k))
  }

  ghost predicate Errored(ms: seq<Module>, core: set<string>, id: string) {
    exists m: Module, k: string :: m.id == id && Blamed(ms, core, k, m)
  }

  // ----- Claims as the code collects them -----

  function Repeat(m: Module, times: nat): (r: seq<Module>)
    ensures |r| == times && forall x | x in r :: x == m
  {
    if times == 0 then [] else Repeat(m, times - 1) + [m]
  }

  function Claims(ms: seq<Module>, l: Listing, k: string): seq<Module> {
    if ms == [] then []
    else
      var m := ms[|ms| - 1];
      Claims(ms[..|ms| - 1], l, k) + if m.builtin then [] else Repeat(m, Occurrences(Listed(m, l), k))
  }

  lemma {:induction false} ClaimsMembers(ms: seq<Module>, l: Listing, k: string)
    ensures forall m :: m in Claims(ms, l, k) <==> m in ms && Lists(m, l, k)
  {
    if ms != [] {
      var n := |ms| - 1;
      ClaimsMembers(ms[..n], l, k);
      OccursIffMember(Listed(ms[n], l), k);
      assert ms == ms[..n] + [ms[n]];
      var r := Repeat(ms[n], Occurrences(Listed(ms[n], l), k));
      assert |r| > 0 ==> r[0] in r;
    }
  }

  lemma NoClaims(ms: seq<Module>, l: Listing, k: string)
    ensures |Claims(ms, l, k)| == 0 <==> forall m | m in ms :: !Lists(m, l, k)
  {
    ClaimsMembers(ms, l, k);
    if |Claims(ms, l, k)| > 0 {
      assert Claims(ms, l, k)[0] in Claims(ms, l, k);
    }
  }

  lemma LastClaims(ms: seq<Module>, l: Listing, k: string)
    requires ms != []
    ensures var n, m := |ms| - 1, ms[|ms| - 1];
            && |Claims(ms, l, k)| == |Claims(ms[..n], l, k)| + (if m.builtin then 0 else Occurrences(Listed(m, l), k))
            && (Lists(m, l, k) <==> !m.builtin && Occurrences(Listed(m, l), k) > 0)
  {
    OccursIffMember(Listed(ms[|ms| - 1], l), k);
  }

  /** One claim means one claimant, who listed the key once. */
  lemma {:induction false} OneClaim(ms: seq<Module>, l: Listing, k: string, m: Module)
    requires (forall i, j | 0 <= i < j < |ms| :: ms[i].id != ms[j].id) && m in ms && Lists(m, l, k)
    ensures |Claims(ms, l, k)| == 1 <==>
            Occurrences(Listed(m, l), k) == 1 && forall n | n in ms && n != m :: !Lists(n, l, k)
  {
    var rest, last := ms[..|ms| - 1], ms[|ms| - 1];
    assert ms == rest + [last];
    assert last !in rest;
    LastClaims(ms, l, k);
    NoClaims(rest, l, k);
    if last != m {
      OneClaim(rest, l, k, m);
      assert m in rest;
    }
  }

  /** The code's test of the two lists is the statement above. */
  lemma ListsDecideOwner(ms: seq<Module>, core: set<string>, k: string)
    requires WellFormed(ms) && k !in Protected(ms, core) && Claims(ms, Secret, k) != []
    ensures var claimants, users := Claims(ms, Secret, k), Claims(ms, Config, k);
            var single := |claimants| == 1 && |users| == 1 && users[0].id == claimants[0].id;
            && (single <==> Owned(ms, core, k))
            && (single ==> Owns(ms, core, k, claimants[0]))
  {
    var claimants, users := Claims(ms, Secret, k), Claims(ms, Config, k);
    ClaimsMembers(ms, Secret, k);
    ClaimsMembers(ms, Config, k);
    var m := claimants[0];
    assert m in claimants;
    OneClaim(ms, Secret, k, m);
    if |claimants| == 1 && |users| == 1 && users[0].id == m.id {
      assert users[0] in users;
      SameId(ms, users[0], m);
      OneClaim(ms, Config, k, m);
      assert Owns(ms, core, k, m);
    }
    if Owned(ms, core, k) {
      var o :| Owns(ms, core, k, o);
      assert o == m;
      OccursIffMember(m.config, k);
      OneClaim(ms, Config, k, m);
      assert users[0] in users;
    }
  }

  lemma SameId(ms: seq<Module>, a: Module, b: Module)
    requires WellFormed(ms) && a in ms && b in ms && a.id == b.id
    ensures a == b
  {
  }

  lemma OwnerIsUnique(ms: seq<Module>, core: set<string>, k: string, a: Module, b: Module)
    requires Owns(ms, core, k, a) && Owns(ms, core, k, b)
    ensures a == b
  {
  }

  // ----- What the source relies on -----

  /** A community module without an ownership error owns all its declared secrets. */
  lemma UnerroredOwnsSecrets(ms: seq<Module>, core: set<string>, m: Module, k: string)
    requires m in ms && !m.builtin && !Errored(ms, core, m.id) && k in m.secrets
    ensures Owns(ms, core, k, m)
  {
    assert Lists(m, Secret, k) && Declared(ms, k);
    assert !Blamed(ms, core, k, m);
    var o :| Owns(ms, core, k, o);
  }

  ghost predicate SameModules(a: seq<Module>, b: seq<Module>) { forall m :: m in a <==> m in b }

  lemma SameOwners(a: seq<Module>, b: seq<Module>, core: set<string>, k: string)
    requires SameModules(a, b)
    ensures Owned(a, core, k) ==> Owned(b, core, k)
    ensures Declared(a, k) ==> Declared(b, k)
  {
    assert Protected(a, core) == Protected(b, core);
    if Owned(a, core, k) {
      var m :| Owns(a, core, k, m);
      assert Owns(b, core, k, m);
    }
  }

  /** Neither the owners nor the errored modules depend on the order of the modules. */
  lemma OrderDoesNotMatter(a: seq<Module>, b: seq<Module>, core: set<string>)
    requires SameModules(a, b)
    ensures forall k, m :: Owns(a, core, k, m) <==> Owns(b, core, k, m)
    ensures forall id :: Errored(a, core, id) <==> Errored(b, core, id)
  {
    assert Protected(a, core) == Protected(b, core);
    forall k, m ensures Blamed(a, core, k, m) <==> Blamed(b, core, k, m) {
      SameOwners(a, b, core, k);
      SameOwners(b, a, core, k);
    }
  }

  /** The registry subset of `load_all`: accepted or disabled modules, and those with an
      ownership error. */
  ghost predicate Kept(ms: seq<Module>, core: set<string>, accepted: set<string>, m: Module) {
    m in ms && (m.id in accepted || !m.enabled || Errored(ms, core, m.id))
  }

  ghost predicate IsRegistry(subset: seq<Module>, ms: seq<Module>, core: set<string>, accepted: set<string>) {
    forall m :: m in subset <==> Kept(ms, core, accepted, m)
  }

  /** Re-evaluating ownership on the subset gives each kept module the keys it owned before,
      provided no enabled built-in module was dropped (loading fails otherwise). */
  lemma SubsetAgrees(subset: seq<Module>, ms: seq<Module>, core: set<string>, accepted: set<string>)
    requires IsRegistry(subset, ms, core, accepted)
    requires forall m | m in ms && m.builtin && m.enabled :: m.id in accepted
    ensures forall k, m :: Owns(subset, core, k, m) <==> Owns(ms, core, k, m) && m in subset
  {
    assert Protected(subset, core) == Protected(ms, core) by {
      forall m | m in ms && m.builtin ensures m in subset {
        assert Kept(ms, core, accepted, m);
      }
    }
    forall k, m | Owns(subset, core, k, m) ensures Owns(ms, core, k, m) {
      assert Kept(ms, core, accepted, m) && Declared(ms, k);
      if !Owned(ms, core, k) {
        forall n | n in ms && (Lists(n, Secret, k) || Lists(n, Config, k)) ensures n in subset {
          assert Blamed(ms, core, k, n);
          assert Kept(ms, core, accepted, n);
        }
        assert Owns(ms, core, k, m);
      }
    }
  }

  /** The assembled plan has no secret-owner collision: the secret keys of the accepted modules and
      the owners re-evaluated on the registry subset agree, as soon as the accepted built-in
      modules do not collide among themselves. */
  lemma NoSecretCollision(subset: seq<Module>, ms: seq<Module>, core: set<string>, accepted: set<string>, k: string,
                          a: Module, b: Module)
    requires WellFormed(ms) && IsRegistry(subset, ms, core, accepted)
    requires forall m | m in ms && m.builtin && m.enabled :: m.id in accepted
    requires forall m | m in ms && m.id in accepted :: !Errored(ms, core, m.id)
    requires forall m, s | m in ms && s in m.secrets :: s in m.config
    requires forall m, n | m in ms && n in ms && m.builtin && n.builtin && m.id in accepted && n.id in accepted
                           && k in m.secrets && k in n.secrets :: m == n
    requires (a in ms && a.id in accepted && k in a.secrets) || Owns(subset, core, k, a)
    requires (b in ms && b.id in accepted && k in b.secrets) || Owns(subset, core, k, b)
    ensures a == b
  {
    SubsetAgrees(subset, ms, core, accepted);
    if !a.builtin || !b.builtin {
      if a in ms && a.id in accepted && k in a.secrets && !a.builtin {
        UnerroredOwnsSecrets(ms, core, a, k);
      }
      if b in ms && b.id in accepted && k in b.secrets && !b.builtin {
        UnerroredOwnsSecrets(ms, core, b, k);
      }
    }
  }

  // ----- The two evaluations as the code runs them -----

  datatype OwnershipError = ProtectedConfiguration | OwnershipConflict

  type ClaimTable = map<string, seq<Module>>

  function Row(table: ClaimTable, k: string): seq<Module> { if k in table then table[k] else [] }

  ghost predicate HoldsClaims(table: ClaimTable, ms: seq<Module>, l: Listing) {
    && (forall k :: Row(table, k) == Claims(ms, l, k))
    && forall k | k in table :: table[k] != []
  }

  lemma OneMoreTime(base: seq<Module>, row: seq<Module>, m: Module, keys: seq<string>, i: nat, k: string)
    requires i < |keys| && row == base + Repeat(m, Occurrences(keys[..i], k))
    ensures base + Repeat(m, Occurrences(keys[..i + 1], k)) == if k == keys[i] then row + [m] else row
  {
    assert keys[..i + 1][..i] == keys[..i];
    if k == keys[i] {
      assert base + (Repeat(m, Occurrences(keys[..i], k)) + [m]) == row + [m];
    }
  }

  method AddClaims(table: ClaimTable, m: Module, keys: seq<string>) returns (r: ClaimTable)
    requires forall k | k in table :: table[k] != []
    ensures forall k :: Row(r, k) == Row(table, k) + Repeat(m, Occurrences(keys, k))
    ensures forall k | k in r :: r[k] != []
  {
    r := table;
    for i := 0 to |keys|
      invariant forall k :: Row(r, k) == Row(table, k) + Repeat(m, Occurrences(keys[..i], k))
      invariant forall k | k in r :: r[k] != []
    {
      ghost var before := r;
      r := r[keys[i] := Row(r, keys[i]) + [m]];
      forall k ensures Row(r, k) == Row(table, k) + Repeat(m, Occurrences(keys[..i + 1], k)) {
        OneMoreTime(Row(table, k), Row(before, k), m, keys, i, k);
      }
    }
    assert keys[..|keys|] == keys;
  }

  method CollectClaims(ms: seq<Module>, l: Listing) returns (table: ClaimTable)
    ensures HoldsClaims(table, ms, l)
  {
    table := map[];
    for i := 0 to |ms|
      invariant HoldsClaims(table, ms[..i], l)
    {
      assert ms[..i + 1] == ms[..i] + [ms[i]];
      assert ms[..i + 1][..i] == ms[..i];
      if !ms[i].builtin {
        table := AddClaims(table, ms[i], Listed(ms[i], l));
      }
    }
    assert ms[..|ms|] == ms;
  }

  method ProtectedKeys(ms: seq<Module>, core: set<string>) returns (keys: set<string>)
    ensures keys == Protected(ms, core)
  {
    keys := core;
    for i := 0 to |ms|
      invariant keys == Protected(ms[..i], core)
    {
      assert ms[..i + 1] == ms[..i] + [ms[i]];
      if ms[i].builtin {
        keys := keys + set k | k in ms[i].config;
      }
    }
    assert ms[..|ms|] == ms;
  }

  function Ids(ms: seq<Module>): set<string> { set m | m in ms :: m.id }

  method Mark(errors: map<string, OwnershipError>, ms: seq<Module>, e: OwnershipError)
    returns (r: map<string, OwnershipError>)
    ensures r.Keys == errors.Keys + Ids(ms)
    ensures forall id | id in r :: r[id] == if id in Ids(ms) then e else errors[id]
  {
    r := errors;
    for i := 0 to |ms|
      invariant r.Keys == errors.Keys + Ids(ms[..i])
      invariant forall id | id in r :: r[id] == if id in Ids(ms[..i]) then e else errors[id]
    {
      assert ms[..i + 1] == ms[..i] + [ms[i]];
      r := r[ms[i].id := e];
    }
    assert ms[..|ms|] == ms;
  }

  /** Whom the code blames for one declared key. */
  function Culprits(ms: seq<Module>, core: set<string>, k: string): seq<Module> {
    var claimants, users := Claims(ms, Secret, k), Claims(ms, Config, k);
    if k in Protected(ms, core) then claimants
    else if |claimants| == 1 && |users| == 1 && users[0].id == claimants[0].id then []
    else claimants + users
  }

  lemma CulpritsAreBlamed(ms: seq<Module>, core: set<string>, k: string)
    requires WellFormed(ms) && Claims(ms, Secret, k) != []
    ensures forall m :: m in Culprits(ms, core, k) <==> Blamed(ms, core, k, m)
  {
    ClaimsMembers(ms, Secret, k);
    ClaimsMembers(ms, Config, k);
    assert Claims(ms, Secret, k)[0] in Claims(ms, Secret, k);
    if k !in Protected(ms, core) {
      ListsDecideOwner(ms, core, k);
    }
  }

  lemma DeclaredIffClaimed(ms: seq<Module>, k: string)
    ensures Claims(ms, Secret, k) != [] <==> Declared(ms, k)
  {
    ClaimsMembers(ms, Secret, k);
    if Claims(ms, Secret, k) != [] {
      assert Claims(ms, Secret, k)[0] in Claims(ms, Secret, k);
    }
  }

  ghost predicate ErroredOver(ms: seq<Module>, core: set<string>, keys: set<string>, id: string) {
    exists m: Module, k: string :: k in keys && m.id == id && Blamed(ms, core, k, m)
  }

  ghost predicate ErrorsOver(ms: seq<Module>, core: set<string>, keys: set<string>, ids: set<string>) {
    forall id :: id in ids <==> ErroredOver(ms, core, keys, id)
  }

  ghost predicate OwnersOver(ms: seq<Module>, core: set<string>, keys: set<string>, owners: map<string, string>) {
    && (forall k :: k in owners <==> k in keys && Owned(ms, core, k))
    && forall k, m | k in keys && Owns(ms, core, k, m) :: owners[k] == m.id
  }

  lemma AllKeysDone(ms: seq<Module>, core: set<string>, keys: set<string>, owners: map<string, string>,
                    ids: set<string>)
    requires forall k :: k in keys <==> Declared(ms, k)
    requires OwnersOver(ms, core, keys, owners) && ErrorsOver(ms, core, keys, ids)
    ensures forall k :: k in owners <==> Owned(ms, core, k)
    ensures forall k, m | Owns(ms, core, k, m) :: k in owners && owners[k] == m.id
    ensures forall id :: id in ids <==> Errored(ms, core, id)
  {
  }

  lemma OwnerOfKey(ms: seq<Module>, core: set<string>, k: string)
    requires WellFormed(ms) && Claims(ms, Secret, k) != []
    ensures Owned(ms, core, k) <==> k !in Protected(ms, core) && Culprits(ms, core, k) == []
    ensures forall m | Owns(ms, core, k, m) :: m.id == Claims(ms, Secret, k)[0].id
  {
    if k !in Protected(ms, core) {
      ListsDecideOwner(ms, core, k);
      forall m | Owns(ms, core, k, m) ensures m.id == Claims(ms, Secret, k)[0].id {
        OwnerIsUnique(ms, core, k, m, Claims(ms, Secret, k)[0]);
      }
    }
  }

  lemma OneMoreOwner(ms: seq<Module>, core: set<string>, keys: set<string>, owners: map<string, string>, k: string,
                     owner: string)
    requires OwnersOver(ms, core, keys, owners)
    requires forall m | Owns(ms, core, k, m) :: m.id == owner
    ensures Owned(ms, core, k) ==> OwnersOver(ms, core, keys + {k}, owners[k := owner])
    ensures !Owned(ms, core, k) ==> OwnersOver(ms, core, keys + {k}, owners)
  {
    forall m | Owns(ms, core, k, m) ensures Owned(ms, core, k) {
    }
  }

  lemma OneMoreKey(ms: seq<Module>, core: set<string>, keys: set<string>, k: string)
    requires WellFormed(ms) && Claims(ms, Secret, k) != []
    ensures forall ids :: ErrorsOver(ms, core, keys, ids)
                          ==> ErrorsOver(ms, core, keys + {k}, ids + Ids(Culprits(ms, core, k)))
  {
    CulpritsAreBlamed(ms, core, k);
  }

  /** An error that says a protected key is at stake names a module to blame for one, and an error
      that says ownership is in conflict one to blame for an unprotected key. */
  ghost predicate HasReason(ms: seq<Module>, core: set<string>, id: string, e: OwnershipError) {
    exists m: Module, k: string ::
      m.id == id && Blamed(ms, core, k, m) && (k in Protected(ms, core) <==> e == ProtectedConfiguration)
  }

  ghost predicate Reasoned(ms: seq<Module>, core: set<string>, errors: map<string, OwnershipError>) {
    forall id | id in errors :: HasReason(ms, core, id, errors[id])
  }

  lemma CulpritsHaveReason(ms: seq<Module>, core: set<string>, k: string, e: OwnershipError)
    requires WellFormed(ms) && Claims(ms, Secret, k) != []
    requires k in Protected(ms, core) <==> e == ProtectedConfiguration
    ensures forall id | id in Ids(Culprits(ms, core, k)) :: HasReason(ms, core, id, e)
  {
    CulpritsAreBlamed(ms, core, k);
    forall id | id in Ids(Culprits(ms, core, k)) ensures HasReason(ms, core, id, e) {
      var m :| m in Culprits(ms, core, k) && m.id == id;
      assert Blamed(ms, core, k, m);
    }
  }

  lemma MarkedReasoned(ms: seq<Module>, core: set<string>, k: string, before: map<string, OwnershipError>,
                       after: map<string, OwnershipError>, e: OwnershipError)
    requires WellFormed(ms) && Claims(ms, Secret, k) != [] && Reasoned(ms, core, before)
    requires k in Protected(ms, core) <==> e == ProtectedConfiguration
    requires after.Keys == before.Keys + Ids(Culprits(ms, core, k))
    requires forall id | id in after :: after[id] == if id in Ids(Culprits(ms, core, k)) then e else before[id]
    ensures Reasoned(ms, core, after)
  {
    CulpritsHaveReason(ms, core, k, e);
  }

  /** The verdict on one claimed key. */
  method JudgeKey(k: string, claimants: seq<Module>, users: seq<Module>, guarded: set<string>,
                  owners: map<string, string>, errors: map<string, OwnershipError>,
                  ghost ms: seq<Module>, ghost core: set<string>, ghost done: set<string>)
    returns (o: map<string, string>, e: map<string, OwnershipError>)
    requires WellFormed(ms) && guarded == Protected(ms, core)
    requires claimants == Claims(ms, Secret, k) != [] && users == Claims(ms, Config, k)
    requires OwnersOver(ms, core, done, owners) && ErrorsOver(ms, core, done, errors.Keys)
    requires Reasoned(ms, core, errors)
    ensures OwnersOver(ms, core, done + {k}, o) && ErrorsOver(ms, core, done + {k}, e.Keys)
    ensures Reasoned(ms, core, e)
  {
    o, e := owners, errors;
    OwnerOfKey(ms, core, k);
    OneMoreOwner(ms, core, done, owners, k, claimants[0].id);
    OneMoreKey(ms, core, done, k);
    if k in guarded {
      e := Mark(errors, claimants, ProtectedConfiguration);
      MarkedReasoned(ms, core, k, errors, e, ProtectedConfiguration);
    } else if |claimants| != 1 || |users| != 1 || users[0].id != claimants[0].id {
      e := Mark(errors, claimants + users, OwnershipConflict);
      MarkedReasoned(ms, core, k, errors, e, OwnershipConflict);
    } else {
      o := owners[k := claimants[0].id];
      assert errors.Keys + Ids([]) == errors.Keys;
    }
  }

  /** `evaluate_module_secret_ownership`; the claimed keys are visited in an arbitrary order. */
  method EvaluateSecretOwnership(ms: seq<Module>, core: set<string>)
    returns (reserved: set<string>, owners: map<string, string>, errors: map<string, OwnershipError>)
    requires WellFormed(ms)
    ensures forall k :: k in reserved <==> Declared(ms, k) && k !in Protected(ms, core)
    ensures forall k :: k in owners <==> Owned(ms, core, k)
    ensures forall k, m | Owns(ms, core, k, m) :: k in owners && owners[k] == m.id
    ensures forall id :: id in errors <==> Errored(ms, core, id)
    ensures Reasoned(ms, core, errors)
  {
    var guarded := ProtectedKeys(ms, core);
    var configClaims := CollectClaims(ms, Config);
    var secretClaims := CollectClaims(ms, Secret);
    forall k ensures k in secretClaims <==> Declared(ms, k) {
      DeclaredIffClaimed(ms, k);
      assert Row(secretClaims, k) == Claims(ms, Secret, k);
    }
    reserved := set k | k in secretClaims && k !in guarded;
    owners, errors := map[], map[];
    var todo := secretClaims.Keys;
    while todo != {}
      invariant todo <= secretClaims.Keys
      invariant OwnersOver(ms, core, secretClaims.Keys - todo, owners)
      invariant ErrorsOver(ms, core, secretClaims.Keys - todo, errors.Keys) && Reasoned(ms, core, errors)
    {
      var k :| k in todo;
      ghost var done := secretClaims.Keys - todo;
      todo := todo - {k};
      assert secretClaims.Keys - todo == done + {k};
      owners, errors := JudgeKey(k, Row(secretClaims, k), Row(configClaims, k), guarded, owners, errors, ms, core,
          done);
    }
    assert secretClaims.Keys - todo == secretClaims.Keys;
    AllKeysDone(ms, core, secretClaims.Keys, owners, errors.Keys);
  }

  /** Two enabled community modules, or one and the protected keys, dispute a key. */
  ghost predicate Disputed(ms: seq<Module>, core: set<string>, k: string, m: Module) {
    && m in ms && Lists(m, ActiveConfig, k)
    && (k in Protected(ms, core) || exists n :: n in ms && n != m && Lists(n, ActiveConfig, k))
  }

  ghost predicate DisputedOver(ms: seq<Module>, core: set<string>, keys: set<string>, id: string) {
    exists m: Module, k: string :: k in keys && m.id == id && Disputed(ms, core, k, m)
  }

  ghost predicate ConfigErrored(ms: seq<Module>, core: set<string>, id: string) {
    exists m: Module, k: string :: m.id == id && Disputed(ms, core, k, m)
  }

  /** A key claimed once is in dispute only with the protected keys. */
  lemma SeveralClaimsDispute(ms: seq<Module>, core: set<string>, k: string)
    requires WellFormed(ms)
    ensures |Claims(ms, ActiveConfig, k)| > 1 ==>
            forall m :: m in Claims(ms, ActiveConfig, k) <==> Disputed(ms, core, k, m)
    ensures |Claims(ms, ActiveConfig, k)| <= 1 ==>
            forall m | Disputed(ms, core, k, m) :: k in Protected(ms, core)
  {
    var claims := Claims(ms, ActiveConfig, k);
    ClaimsMembers(ms, ActiveConfig, k);
    forall m | m in claims
      ensures |claims| == 1 <==> forall n | n in ms && n != m :: !Lists(n, ActiveConfig, k)
    {
      OccursIffMember(m.config, k);
      OneClaim(ms, ActiveConfig, k, m);
    }
    if claims != [] {
      assert claims[0] in claims;
    }
  }

  ghost predicate UsesProtected(ms: seq<Module>, guarded: set<string>, id: string) {
    exists m: Module, k: string :: m in ms && m.id == id && Lists(m, ActiveConfig, k) && k in guarded
  }

  lemma OneMoreDispute(ms: seq<Module>, core: set<string>, keys: set<string>, ids: set<string>, k: string)
    requires WellFormed(ms)
    requires forall id :: id in ids <==> UsesProtected(ms, Protected(ms, core), id) || DisputedOver(ms, core, keys, id)
    ensures var claims := Claims(ms, ActiveConfig, k);
            var after := if |claims| > 1 then ids + Ids(claims) else ids;
            forall id :: id in after
                <==> UsesProtected(ms, Protected(ms, core), id) || DisputedOver(ms, core, keys + {k}, id)
  {
    SeveralClaimsDispute(ms, core, k);
  }

  /** Two enabled community modules list the key. */
  ghost predicate SharedWith(ms: seq<Module>, k: string, m: Module) {
    m in ms && Lists(m, ActiveConfig, k) && exists n :: n in ms && n != m && Lists(n, ActiveConfig, k)
  }

  ghost predicate SharesSome(ms: seq<Module>, keys: set<string>, id: string) {
    exists m: Module, k: string :: k in keys && m.id == id && SharedWith(ms, k, m)
  }

  ghost predicate ConflictsOver(errors: map<string, OwnershipError>, ms: seq<Module>, keys: set<string>) {
    forall id | id in errors :: errors[id] == OwnershipConflict <==> SharesSome(ms, keys, id)
  }

  /** An error says that ownership is in conflict exactly where a key is shared with another module;
      otherwise, that a key is protected. */
  ghost predicate ConflictsNamed(errors: map<string, OwnershipError>, ms: seq<Module>) {
    forall id | id in errors ::
      errors[id] == OwnershipConflict <==> exists m: Module, k: string :: m.id == id && SharedWith(ms, k, m)
  }

  lemma SharedByClaims(ms: seq<Module>, k: string)
    requires WellFormed(ms)
    ensures var claims := Claims(ms, ActiveConfig, k);
            forall m :: SharedWith(ms, k, m) <==> |claims| > 1 && m in claims
  {
    var claims := Claims(ms, ActiveConfig, k);
    ClaimsMembers(ms, ActiveConfig, k);
    forall m | m in claims ensures SharedWith(ms, k, m) <==> |claims| > 1 {
      OccursIffMember(m.config, k);
      OneClaim(ms, ActiveConfig, k, m);
    }
  }

  lemma ActiveConfigClaimed(ms: seq<Module>, k: string)
    ensures Claims(ms, ActiveConfig, k) != [] <==> exists m :: m in ms && Lists(m, ActiveConfig, k)
  {
    ClaimsMembers(ms, ActiveConfig, k);
    if Claims(ms, ActiveConfig, k) != [] {
      assert Claims(ms, ActiveConfig, k)[0] in Claims(ms, ActiveConfig, k);
    }
  }

  method ProtectedUses(ms: seq<Module>, guarded: set<string>) returns (errors: map<string, OwnershipError>)
    ensures forall id :: id in errors <==> UsesProtected(ms, guarded, id)
    ensures forall id | id in errors :: errors[id] == ProtectedConfiguration
  {
    errors := map[];
    for i := 0 to |ms|
      invariant forall id :: id in errors <==> UsesProtected(ms[..i], guarded, id)
      invariant forall id | id in errors :: errors[id] == ProtectedConfiguration
    {
      assert ms[..i + 1] == ms[..i] + [ms[i]];
      if !ms[i].builtin && exists k :: k in Listed(ms[i], ActiveConfig) && k in guarded {
        errors := errors[ms[i].id := ProtectedConfiguration];
      }
    }
    assert ms[..|ms|] == ms;
  }

  /** What the configuration check has established about the keys looked at. */
  ghost predicate ConfigsJudged(errors: map<string, OwnershipError>, ms: seq<Module>, core: set<string>,
                                keys: set<string>)
  {
    && (forall id :: id in errors <==> UsesProtected(ms, Protected(ms, core), id) || DisputedOver(ms, core, keys, id))
    && ConflictsOver(errors, ms, keys)
  }

  lemma OneMoreShared(before: map<string, OwnershipError>, after: map<string, OwnershipError>, ms: seq<Module>,
                      keys: set<string>, k: string)
    requires WellFormed(ms) && ConflictsOver(before, ms, keys)
    requires var claims := Claims(ms, ActiveConfig, k);
             if |claims| > 1
             then after.Keys == before.Keys + Ids(claims)
                  && forall id | id in after :: after[id] == if id in Ids(claims) then OwnershipConflict else before[id]
             else after == before
    ensures forall id | id in after && id !in before :: after[id] == OwnershipConflict
    ensures forall id | id in before :: after[id] == OwnershipConflict <==> SharesSome(ms, keys + {k}, id)
    ensures forall id | id in after && id !in before :: SharesSome(ms, keys + {k}, id)
  {
    SharedByClaims(ms, k);
    var claims := Claims(ms, ActiveConfig, k);
    forall id
      ensures SharesSome(ms, keys + {k}, id) <==> SharesSome(ms, keys, id) || (|claims| > 1 && id in Ids(claims))
    {
      if |claims| > 1 && id in Ids(claims) {
        var m :| m in claims && m.id == id;
        assert SharedWith(ms, k, m);
      }
    }
  }

  method JudgeShared(errors: map<string, OwnershipError>, claimants: seq<Module>, k: string, ghost ms: seq<Module>,
                     ghost core: set<string>, ghost keys: set<string>)
    returns (e: map<string, OwnershipError>)
    requires WellFormed(ms) && claimants == Claims(ms, ActiveConfig, k) && ConfigsJudged(errors, ms, core, keys)
    ensures ConfigsJudged(e, ms, core, keys + {k})
  {
    e := errors;
    if |claimants| > 1 {
      e := Mark(errors, claimants, OwnershipConflict);
    }
    OneMoreDispute(ms, core, keys, errors.Keys, k);
    OneMoreShared(errors, e, ms, keys, k);
  }

  lemma NothingJudged(errors: map<string, OwnershipError>, ms: seq<Module>, core: set<string>)
    requires forall id :: id in errors <==> UsesProtected(ms, Protected(ms, core), id)
    requires forall id | id in errors :: errors[id] == ProtectedConfiguration
    ensures ConfigsJudged(errors, ms, core, {})
  {
  }

  lemma ConfigsConcluded(errors: map<string, OwnershipError>, ms: seq<Module>, core: set<string>, claims: ClaimTable)
    requires HoldsClaims(claims, ms, ActiveConfig) && ConfigsJudged(errors, ms, core, claims.Keys)
    ensures forall id :: id in errors <==> ConfigErrored(ms, core, id)
    ensures ConflictsNamed(errors, ms)
  {
    AllDisputesSeen(ms, core, claims);
    forall m, k | SharedWith(ms, k, m) ensures k in claims {
      ActiveConfigClaimed(ms, k);
      assert Row(claims, k) == Claims(ms, ActiveConfig, k);
    }
  }

  /** `evaluate_module_config_ownership`: a module is in error exactly when it is enabled, a
      community module, and one of its keys is protected or used by another such module. */
  method EvaluateConfigOwnership(ms: seq<Module>, core: set<string>) returns (errors: map<string, OwnershipError>)
    requires WellFormed(ms)
    ensures forall id :: id in errors <==> ConfigErrored(ms, core, id)
    ensures ConflictsNamed(errors, ms)
  {
    var guarded := ProtectedKeys(ms, core);
    var claims := CollectClaims(ms, ActiveConfig);
    errors := ProtectedUses(ms, guarded);
    var todo := claims.Keys;
    NothingJudged(errors, ms, core);
    assert claims.Keys - todo == {};
    while todo != {}
      invariant todo <= claims.Keys
      invariant ConfigsJudged(errors, ms, core, claims.Keys - todo)
    {
      var k :| k in todo;
      ghost var done := claims.Keys - todo;
      todo := todo - {k};
      assert claims.Keys - todo == done + {k};
      errors := JudgeShared(errors, Row(claims, k), k, ms, core, done);
    }
    assert claims.Keys - todo == claims.Keys;
    ConfigsConcluded(errors, ms, core, claims);
  }

  lemma AllDisputesSeen(ms: seq<Module>, core: set<string>, claims: ClaimTable)
    requires HoldsClaims(claims, ms, ActiveConfig)
    ensures forall id :: ConfigErrored(ms, core, id)
                         <==> UsesProtected(ms, Protected(ms, core), id) || DisputedOver(ms, core, claims.Keys, id)
  {
    forall m, k | Disputed(ms, core, k, m) ensures k in claims {
      ActiveConfigClaimed(ms, k);
      assert Row(claims, k) == Claims(ms, ActiveConfig, k);
    }
    forall id | UsesProtected(ms, Protected(ms, core), id) ensures ConfigErrored(ms, core, id) {
      var m: Module, k: string :| m in ms && m.id == id && Lists(m, ActiveConfig, k) && k in Protected(ms, core);
      assert Disputed(ms, core, k, m);
    }
  }

  /** Modules that pass both checks share no configuration key with each other, with a built-in
      module or with the core. */
  lemma AcceptedConfigsAreDisjoint(ms: seq<Module>, core: set<string>, a: Module, b: Module, k: string)
    requires WellFormed(ms) && a in ms && b in ms && a != b
    requires !a.builtin && a.enabled && !ConfigErrored(ms, core, a.id)
    requires b.builtin || (b.enabled && !ConfigErrored(ms, core, b.id))
    ensures k in a.config ==> k !in b.config && k !in core
  {
    if k in a.config && (k in b.config || k in core) {
      assert Lists(a, ActiveConfig, k);
      assert b.builtin ==> k in b.config ==> k in Protected(ms, core);
      assert Disputed(ms, core, k, a);
    }
  }
}
