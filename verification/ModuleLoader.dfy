/** Accepting resolved modules one after the other (app/module_loader.py). */
module ModuleLoading {
  import opened Registration

  // ----- Choosing greedily among members with footprints -----

  datatype Outcome<T> = Accepted(items: seq<T>) | BuiltinCollision(item: T)

  /** What a sequence of members claims, `f` giving the claims of each. */
  ghost function Total<T>(f: T -> multiset<Claim>, items: seq<T>): multiset<Claim> {
    if items == [] then multiset{} else Total(f, items[..|items| - 1]) + f(items[|items| - 1])
  }

  /** The members are acceptable together with the taken claims `t` and the base `b`. */
  ghost predicate Fits<T>(t: multiset<Claim>, b: multiset<Claim>, f: T -> multiset<Claim>, items: seq<T>) {
    ConflictFree(t + (b + Total(f, items)))
  }

  /** Take each member in turn if it fits with those already taken. */
  ghost function Chosen<T>(t: multiset<Claim>, b: multiset<Claim>, f: T -> multiset<Claim>, builtin: T -> bool,
                           items: seq<T>): Outcome<T>
  {
    if items == [] then Accepted([])
    else
      var n := |items| - 1;
      var earlier := Chosen(t, b, f, builtin, items[..n]);
      if earlier.BuiltinCollision? then earlier
      else if Fits(t, b, f, earlier.items + [items[n]]) then Accepted(earlier.items + [items[n]])
      else if builtin(items[n]) then BuiltinCollision(items[n])
      else earlier
  }

  /** What can be wrong with a member beside the accepted ones: the base itself is not acceptable,
      or the member conflicts with itself or something taken, with the base, or with an accepted one. */
  ghost predicate HasRealConflict<T>(t: multiset<Claim>, b: multiset<Claim>, f: T -> multiset<Claim>, accepted: seq<T>,
                                     x: T)
  {
    || !ConflictFree(t + b)
    || !ConflictFree(t + f(x))
    || !NoCross(b, f(x))
    || exists i :: 0 <= i < |accepted| && !NoCross(f(accepted[i]), f(x))
  }

  lemma CrossOfUnion(f: multiset<Claim>, g: multiset<Claim>, n: multiset<Claim>)
    ensures NoCross(f + g, n) <==> NoCross(f, n) && NoCross(g, n)
  {
    assert forall c :: c in f + g <==> c in f || c in g;
  }

  lemma {:induction false} CrossesSomePart<T>(f: T -> multiset<Claim>, items: seq<T>, x: multiset<Claim>)
    ensures NoCross(Total(f, items), x) <==> forall i | 0 <= i < |items| :: NoCross(f(items[i]), x)
  {
    if items != [] {
      var k := |items| - 1;
      CrossesSomePart(f, items[..k], x);
      CrossOfUnion(Total(f, items[..k]), f(items[k]), x);
      assert forall i | 0 <= i < k :: items[..k][i] == items[i];
    }
  }

  lemma TotalOfMore<T>(f: T -> multiset<Claim>, items: seq<T>, x: T)
    ensures Total(f, items + [x]) == Total(f, items) + f(x)
  {
    assert (items + [x])[..|items|] == items;
  }

  lemma Regroup(b: multiset<Claim>, m: multiset<Claim>, x: multiset<Claim>)
    ensures b + (m + x) == b + m + x
  {
  }

  /** A member is turned down exactly when it has a real conflict. */
  lemma TurnedDownIffConflict<T>(t: multiset<Claim>, b: multiset<Claim>, f: T -> multiset<Claim>, accepted: seq<T>,
                                 x: T)
    requires accepted != [] ==> Fits(t, b, f, accepted)
    ensures !Fits(t, b, f, accepted + [x]) <==> HasRealConflict(t, b, f, accepted, x)
  {
    var m := Total(f, accepted);
    TotalOfMore(f, accepted, x);
    Regroup(b, m, f(x));
    ThreeParts(t, b + m, f(x));
    CrossOfUnion(b, m, f(x));
    CrossesSomePart(f, accepted, f(x));
    if accepted == [] {
      assert b + m == b;
    } else {
      ThreeParts(t, b, m);
    }
  }

  lemma {:induction false} ChosenPrefix<T>(t: multiset<Claim>, b: multiset<Claim>, f: T -> multiset<Claim>,
                                           builtin: T -> bool, items: seq<T>, k: nat)
    requires k <= |items| && Chosen(t, b, f, builtin, items).Accepted?
    ensures Chosen(t, b, f, builtin, items[..k]).Accepted?
    ensures Chosen(t, b, f, builtin, items[..k]).items <= Chosen(t, b, f, builtin, items).items
    decreases |items|
  {
    if k < |items| {
      var rest := items[..|items| - 1];
      assert rest[..k] == items[..k];
      ChosenPrefix(t, b, f, builtin, rest, k);
    } else {
      assert items[..k] == items;
    }
  }

  lemma {:induction false} ChosenFits<T>(t: multiset<Claim>, b: multiset<Claim>, f: T -> multiset<Claim>,
                                         builtin: T -> bool, items: seq<T>)
    requires Chosen(t, b, f, builtin, items).Accepted? && Chosen(t, b, f, builtin, items).items != []
    ensures Fits(t, b, f, Chosen(t, b, f, builtin, items).items)
  {
    var n := |items| - 1;
    if Chosen(t, b, f, builtin, items) == Chosen(t, b, f, builtin, items[..n]) {
      ChosenFits(t, b, f, builtin, items[..n]);
    }
  }

  /** The accepted members are the order-first maximal conflict-free set over the base: the `k`-th
      is taken exactly when it has no real conflict with the base, with itself or with those taken
      before it; and none that was turned down could be added at the end. */
  lemma OrderFirstMaximal<T>(t: multiset<Claim>, b: multiset<Claim>, f: T -> multiset<Claim>, builtin: T -> bool,
                             items: seq<T>, k: nat)
    requires k < |items| && Chosen(t, b, f, builtin, items).Accepted?
    ensures Chosen(t, b, f, builtin, items[..k]).Accepted? && Chosen(t, b, f, builtin, items[..k + 1]).Accepted?
    ensures var before := Chosen(t, b, f, builtin, items[..k]).items;
            var after := Chosen(t, b, f, builtin, items[..k + 1]).items;
            var all := Chosen(t, b, f, builtin, items).items;
            && after == before + (if HasRealConflict(t, b, f, before, items[k]) then [] else [items[k]])
            && after <= all
            && (all != [] ==> Fits(t, b, f, all))
            && (HasRealConflict(t, b, f, before, items[k]) ==>
                  !builtin(items[k]) && HasRealConflict(t, b, f, all, items[k]))
  {
    ChosenPrefix(t, b, f, builtin, items, k);
    ChosenPrefix(t, b, f, builtin, items, k + 1);
    var before := Chosen(t, b, f, builtin, items[..k]).items;
    assert items[..k + 1][..k] == items[..k];
    if before != [] {
      ChosenFits(t, b, f, builtin, items[..k]);
    }
    if Chosen(t, b, f, builtin, items).items != [] {
      ChosenFits(t, b, f, builtin, items);
    }
    TurnedDownIffConflict(t, b, f, before, items[k]);
    if HasRealConflict(t, b, f, before, items[k]) {
      ConflictPersists(t, b, f, before, Chosen(t, b, f, builtin, items).items, items[k]);
    }
  }

  /** A conflict does not go away when more is accepted. */
  lemma ConflictPersists<T>(t: multiset<Claim>, b: multiset<Claim>, f: T -> multiset<Claim>, accepted: seq<T>,
                            more: seq<T>, x: T)
    requires HasRealConflict(t, b, f, accepted, x) && accepted <= more
    ensures HasRealConflict(t, b, f, more, x)
  {
    if exists i :: 0 <= i < |accepted| && !NoCross(f(accepted[i]), f(x)) {
      var i :| 0 <= i < |accepted| && !NoCross(f(accepted[i]), f(x));
      assert !NoCross(f(more[i]), f(x));
    }
  }

  lemma {:induction false} ChosenStops<T>(t: multiset<Claim>, b: multiset<Claim>, f: T -> multiset<Claim>,
                                          builtin: T -> bool, items: seq<T>, k: nat)
    requires k <= |items| && Chosen(t, b, f, builtin, items[..k]).BuiltinCollision?
    ensures Chosen(t, b, f, builtin, items) == Chosen(t, b, f, builtin, items[..k])
    decreases |items|
  {
    if k < |items| {
      var rest := items[..|items| - 1];
      assert rest[..k] == items[..k];
      ChosenStops(t, b, f, builtin, rest, k);
    } else {
      assert items[..k] == items;
    }
  }

  /** One more item is accepted if it fits beside those accepted, or stops the choice if built in. */
  lemma ChosenStep<T>(t: multiset<Claim>, b: multiset<Claim>, f: T -> multiset<Claim>, builtin: T -> bool,
                      items: seq<T>, k: nat, accepted: seq<T>)
    requires k < |items| && Chosen(t, b, f, builtin, items[..k]) == Accepted(accepted)
    ensures Chosen(t, b, f, builtin, items[..k + 1])
            == if Fits(t, b, f, accepted + [items[k]]) then Accepted(accepted + [items[k]])
               else if builtin(items[k]) then BuiltinCollision(items[k])
               else Accepted(accepted)
  {
    assert items[..k + 1][..k] == items[..k];
  }

  /** The `k`-th item is no built-in and does not fit beside those accepted before it. */
  ghost predicate TurnedDown<T>(t: multiset<Claim>, b: multiset<Claim>, f: T -> multiset<Claim>, builtin: T -> bool,
                                items: seq<T>, k: nat)
  {
    && k < |items| && !builtin(items[k])
    && var earlier := Chosen(t, b, f, builtin, items[..k]);
       earlier.Accepted? && !Fits(t, b, f, earlier.items + [items[k]])
  }

  /** Among the first `n` items, an error is set on exactly those turned down. */
  ghost predicate ErrorsSet<T>(errors: map<nat, seq<Conflict>>, t: multiset<Claim>, b: multiset<Claim>,
                               f: T -> multiset<Claim>, builtin: T -> bool, items: seq<T>, n: nat)
  {
    && (forall k: nat :: k in errors <==> k < n && TurnedDown(t, b, f, builtin, items, k))
    && forall k | k in errors :: errors[k] != []
  }

  lemma NotAfterCollision<T>(t: multiset<Claim>, b: multiset<Claim>, f: T -> multiset<Claim>, builtin: T -> bool,
                             items: seq<T>, n: nat, k: nat)
    requires n <= k <= |items| && Chosen(t, b, f, builtin, items[..n]).BuiltinCollision?
    ensures !TurnedDown(t, b, f, builtin, items, k)
  {
    assert items[..k][..n] == items[..n];
    ChosenStops(t, b, f, builtin, items[..k], n);
  }

  lemma NothingAfterCollision<T>(errors: map<nat, seq<Conflict>>, t: multiset<Claim>, b: multiset<Claim>,
                                 f: T -> multiset<Claim>, builtin: T -> bool, items: seq<T>, n: nat)
    requires n <= |items| && ErrorsSet(errors, t, b, f, builtin, items, n)
    requires Chosen(t, b, f, builtin, items[..n]).BuiltinCollision?
    ensures ErrorsSet(errors, t, b, f, builtin, items, |items|)
  {
    forall k: nat ensures k in errors <==> k < |items| && TurnedDown(t, b, f, builtin, items, k) {
      if n <= k < |items| {
        NotAfterCollision(t, b, f, builtin, items, n, k);
      }
    }
  }

  /** Where the loop stands before the `k`-th item. */
  ghost predicate Progress<T>(accepted: seq<T>, errors: map<nat, seq<Conflict>>, t: multiset<Claim>, b: multiset<Claim>,
                              f: T -> multiset<Claim>, builtin: T -> bool, items: seq<T>, k: nat)
    requires k <= |items|
  {
    && Chosen(t, b, f, builtin, items[..k]) == Accepted(accepted)
    && ErrorsSet(errors, t, b, f, builtin, items, k)
  }

  lemma ErrorsExtend<T>(errors: map<nat, seq<Conflict>>, found: seq<Conflict>, t: multiset<Claim>, b: multiset<Claim>,
                        f: T -> multiset<Claim>, builtin: T -> bool, items: seq<T>, k: nat)
    requires ErrorsSet(errors, t, b, f, builtin, items, k)
    ensures TurnedDown(t, b, f, builtin, items, k) && found != []
            ==> ErrorsSet(errors[k := found], t, b, f, builtin, items, k + 1)
    ensures !TurnedDown(t, b, f, builtin, items, k) ==> ErrorsSet(errors, t, b, f, builtin, items, k + 1)
  {
  }

  lemma ProgressStep<T>(accepted: seq<T>, errors: map<nat, seq<Conflict>>, found: seq<Conflict>, t: multiset<Claim>,
                        b: multiset<Claim>, f: T -> multiset<Claim>, builtin: T -> bool, items: seq<T>, k: nat)
    requires k < |items| && Progress(accepted, errors, t, b, f, builtin, items, k)
    requires found == [] <==> Fits(t, b, f, accepted + [items[k]])
    ensures found == [] ==> Progress(accepted + [items[k]], errors, t, b, f, builtin, items, k + 1)
    ensures found != [] && !builtin(items[k]) ==> Progress(accepted, errors[k := found], t, b, f, builtin, items, k + 1)
    ensures found != [] && builtin(items[k]) ==> Stopped(errors, t, b, f, builtin, items, k)
  {
    ChosenStep(t, b, f, builtin, items, k, accepted);
    assert TurnedDown(t, b, f, builtin, items, k) <==> found != [] && !builtin(items[k]);
    ErrorsExtend(errors, found, t, b, f, builtin, items, k);
    if found != [] && builtin(items[k]) {
      ChosenStops(t, b, f, builtin, items, k + 1);
      NothingAfterCollision(errors, t, b, f, builtin, items, k + 1);
    }
  }

  /** The loop ends at a built-in item that collides. */
  ghost predicate Stopped<T>(errors: map<nat, seq<Conflict>>, t: multiset<Claim>, b: multiset<Claim>,
                             f: T -> multiset<Claim>, builtin: T -> bool, items: seq<T>, k: nat)
    requires k < |items|
  {
    && Chosen(t, b, f, builtin, items) == BuiltinCollision(items[k])
    && ErrorsSet(errors, t, b, f, builtin, items, |items|)
  }

  // ----- The loader -----

  /** A module's contribution together with the rules and blueprints it resolved to. */
  datatype Resolved = Resolved(contribution: Contribution, rules: seq<Rule>, blueprints: seq<Blueprint>) {
    function AsPlan(): Plan { Plan(rules, blueprints, [contribution], []) }
  }

  predicate IsBuiltin(r: Resolved) { r.contribution.builtin }

  /** `base.combined(...)` with no module yet: the base's owners have become a dictionary. */
  function BasePlan(base: Plan): Plan { base.(secretOwners := SortedDict(base.secretOwners)) }

  /** The base is taken over whole, except that only the last owner of a secret remains. */
  lemma BaseKeepsLastOwners(base: Plan)
    ensures var b := BasePlan(base);
            && b.rules == base.rules && b.blueprints == base.blueprints && b.modules == base.modules
            && OneOwnerEach(b.secretOwners)
            && (forall i | 0 <= i < |base.secretOwners|
                  && (forall j | i < j < |base.secretOwners| :: base.secretOwners[j].0 != base.secretOwners[i].0) ::
                  base.secretOwners[i] in b.secretOwners)
  {
    SortedDictKeepsLast(base.secretOwners);
  }

  function WithAll(plan: Plan, accepted: seq<Resolved>): Plan {
    if accepted == [] then plan
    else Concat(WithAll(plan, accepted[..|accepted| - 1]), accepted[|accepted| - 1].AsPlan())
  }

  ghost function PrintOf(r: Resolved): multiset<Claim> { Footprint(r.AsPlan()) }

  ghost predicate Additive(footprint: Plan -> multiset<Claim>, f: Resolved -> multiset<Claim>) {
    forall p: Plan, r: Resolved {:trigger footprint(Concat(p, r.AsPlan()))} ::
      footprint(Concat(p, r.AsPlan())) == footprint(p) + f(r)
  }

  lemma FootprintIsAdditive()
    ensures Additive(Footprint, PrintOf)
  {
    forall p: Plan, r: Resolved ensures Footprint(Concat(p, r.AsPlan())) == Footprint(p) + PrintOf(r) {
      ConcatFootprint(p, r.AsPlan());
    }
  }

  lemma {:induction false} SumOfParts(footprint: Plan -> multiset<Claim>, f: Resolved -> multiset<Claim>, plan: Plan,
                                      accepted: seq<Resolved>)
    requires Additive(footprint, f)
    ensures footprint(WithAll(plan, accepted)) == footprint(plan) + Total(f, accepted)
  {
    if accepted != [] {
      var k := |accepted| - 1;
      SumOfParts(footprint, f, plan, accepted[..k]);
      Regroup(footprint(plan), Total(f, accepted[..k]), f(accepted[k]));
    }
  }

  /** Validating the joint plan decides whether the members fit. */
  lemma AcceptableIffFits(plan: Plan, e: Existing, accepted: seq<Resolved>)
    ensures Acceptable(WithAll(plan, accepted), e) <==> Fits(Taken(e), Footprint(plan), PrintOf, accepted)
  {
    FootprintIsAdditive();
    SumOfParts(Footprint, PrintOf, plan, accepted);
  }

  method ValidateWith(plan: Plan, e: Existing, candidate: seq<Resolved>,
                      ghost t: multiset<Claim>, ghost b: multiset<Claim>, ghost f: Resolved -> multiset<Claim>)
    returns (errors: seq<Conflict>)
    requires t == Taken(e) && b == Footprint(plan) && f == PrintOf
    ensures errors == [] <==> Fits(t, b, f, candidate)
  {
    AcceptableIffFits(plan, e, candidate);
    errors := ValidatePlan(WithAll(plan, candidate), e);
  }

  /** The loop of `_validate_resolved`, over the footprints `b` of the base and `t` of what is taken. */
  method ValidateEach(base: Plan, e: Existing, resolved: seq<Resolved>,
                      ghost t: multiset<Claim>, ghost b: multiset<Claim>, ghost f: Resolved -> multiset<Claim>)
    returns (r: Outcome<Resolved>, errors: map<nat, seq<Conflict>>)
    requires t == Taken(e) && b == Footprint(BasePlan(base)) && f == PrintOf
    ensures r == Chosen(t, b, f, IsBuiltin, resolved)
    ensures ErrorsSet(errors, t, b, f, IsBuiltin, resolved, |resolved|)
  {
    var accepted := [];
    errors := map[];
    for k := 0 to |resolved|
      invariant Progress(accepted, errors, t, b, f, IsBuiltin, resolved, k)
    {
      var item := resolved[k];
      var found := ValidateWith(BasePlan(base), e, accepted + [item], t, b, f);
      ProgressStep(accepted, errors, found, t, b, f, IsBuiltin, resolved, k);
      if found == [] {
        accepted := accepted + [item];
      } else if item.contribution.builtin {
        return BuiltinCollision(item), errors;
      } else {
        errors := errors[k := found];
      }
    }
    assert resolved[..|resolved|] == resolved;
    r := Accepted(accepted);
  }

  /** The greedy choice over the base plan, in what the application has left free. */
  ghost function GreedyOver(base: Plan, e: Existing, resolved: seq<Resolved>): Outcome<Resolved> {
    Chosen(Taken(e), Footprint(BasePlan(base)), PrintOf, IsBuiltin, resolved)
  }

  /** Errors on exactly the community modules the greedy choice turns down. */
  ghost predicate ErrorsOver(errors: map<nat, seq<Conflict>>, base: Plan, e: Existing, resolved: seq<Resolved>) {
    ErrorsSet(errors, Taken(e), Footprint(BasePlan(base)), PrintOf, IsBuiltin, resolved, |resolved|)
  }

  /** `_validate_resolved`: each module is validated together with those already accepted. The
      outcome is the greedy choice over the base plan, and an error is set on exactly the community
      modules that were turned down. */
  method ValidateResolved(base: Plan, e: Existing, resolved: seq<Resolved>)
    returns (r: Outcome<Resolved>, errors: map<nat, seq<Conflict>>)
    ensures r == GreedyOver(base, e, resolved)
    ensures ErrorsOver(errors, base, e, resolved)
  {
    r, errors := ValidateEach(base, e, resolved, Taken(e), Footprint(BasePlan(base)), PrintOf);
  }
}
