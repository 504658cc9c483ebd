/** Registering plans with the application, one after the other (app/registration.py): what the
    accumulated registration keeps, whatever is accepted and rejected on the way. */
module Registrar {
  import opened Orders
  import opened Sequences
  import opened Registration

  const NOTHING := Existing([], [])

  /** The part of a plan that outlives its registration: modules and secret owners. */
  function Ledger(p: Plan): Plan { Plan([], [], p.modules, p.secretOwners) }

  /** One call: the identity of the plan object, what the application serves at that moment, and
      whether the registration itself raises once the plan is accepted. */
  datatype Call = Call(id: nat, plan: Plan, existing: Existing, raises: bool)

  /** What the application remembers: the plans applied, by identity, and the complete plan. */
  datatype Registry = Registry(applied: seq<nat>, complete: Plan)

  ghost predicate Accepts(r: Registry, c: Call) {
    && c.id !in r.applied
    && Acceptable(Ledger(Concat(r.complete, c.plan)), NOTHING)
    && Acceptable(c.plan, c.existing)
    && !c.raises
  }

  ghost function Register(r: Registry, c: Call): Registry {
    if Accepts(r, c) then Registry(r.applied + [c.id], Combined(r.complete, c.plan)) else r
  }

  ghost function Run(calls: seq<Call>): Registry {
    if calls == [] then Registry([], Plan([], [], [], []))
    else Register(Run(calls[..|calls| - 1]), calls[|calls| - 1])
  }

  ghost function Extended(plans: seq<Plan>, r: Registry, c: Call): seq<Plan> {
    if Accepts(r, c) then plans + [c.plan] else plans
  }

  /** The plans a sequence of calls registers, in order. */
  ghost function Registered(calls: seq<Call>): seq<Plan> {
    if calls == [] then []
    else
      var n := |calls| - 1;
      Extended(Registered(calls[..n]), Run(calls[..n]), calls[n])
  }

  function ModulesOf(p: Plan): seq<Contribution> { p.modules }

  function OwnersOf(p: Plan): seq<(string, string)> { p.secretOwners }

  // ----- Combining what has been validated side by side -----

  lemma {:induction false} UniqueKeysOnce(pairs: seq<(string, string)>, o: (string, string))
    requires UniqueKeys(pairs)
    ensures multiset(pairs)[o] <= 1
  {
    if pairs != [] {
      assert pairs == [pairs[0]] + pairs[1..];
      UniqueKeysOnce(pairs[1..], o);
    }
  }

  /** The dictionary holds no pair more often than the pairs it was made of. */
  lemma DictIsFewer(pairs: seq<(string, string)>)
    ensures multiset(SortedDict(pairs)) <= multiset(pairs)
  {
    var items := DictItems(pairs);
    DictItemsLaws(pairs);
    SortPermutes(items, PairLess);
    forall o ensures multiset(items)[o] <= multiset(pairs)[o] {
      UniqueKeysOnce(items, o);
      if o in items {
        assert o in pairs;
      }
    }
  }

  /** Where the concatenation is acceptable, the combination is, and it has every owner. */
  lemma CombinedLedger(p: Plan, q: Plan)
    requires Acceptable(Ledger(Concat(p, q)), NOTHING)
    ensures Acceptable(Ledger(Combined(p, q)), NOTHING)
    ensures forall o :: o in Combined(p, q).secretOwners <==> o in p.secretOwners || o in q.secretOwners
  {
    var pairs := p.secretOwners + q.secretOwners;
    AcceptableMeans(Ledger(Concat(p, q)), NOTHING);
    CombinedKeepsOwnersIff(p, q);
    DictIsFewer(pairs);
    forall o | o in Combined(p, q).secretOwners ensures o in pairs {
      assert o in multiset(SortedDict(pairs));
    }
    SubPlanAcceptable(Ledger(Combined(p, q)), Ledger(Concat(p, q)), NOTHING);
  }

  // ----- Whole runs -----

  /** What the calls so far have left behind. */
  ghost predicate Keeps(r: Registry, plans: seq<Plan>) {
    && Acceptable(Ledger(r.complete), NOTHING)
    && r.complete.modules == FlatMap(plans, ModulesOf)
    && (forall o :: o in r.complete.secretOwners <==> o in FlatMap(plans, OwnersOf))
    && |r.applied| == |plans|
  }

  lemma StartKeeps()
    ensures Keeps(Run([]), Registered([]))
  {
    NoClaimsAreFree();
  }

  lemma CallKeeps(r: Registry, plans: seq<Plan>, c: Call)
    requires Keeps(r, plans)
    ensures Keeps(Register(r, c), Extended(plans, r, c))
  {
    if Accepts(r, c) {
      CombinedLedger(r.complete, c.plan);
      FlatMapOneMore(plans, c.plan, ModulesOf);
      FlatMapOneMore(plans, c.plan, OwnersOf);
    }
  }

  lemma {:induction false} RunKeeps(calls: seq<Call>)
    ensures Keeps(Run(calls), Registered(calls))
  {
    if calls == [] {
      StartKeeps();
    } else {
      var n := |calls| - 1;
      RunKeeps(calls[..n]);
      CallKeeps(Run(calls[..n]), Registered(calls[..n]), calls[n]);
    }
  }

  /** Some plan names the owner. */
  ghost predicate Names(plans: seq<Plan>, o: (string, string)) { exists p :: p in plans && o in p.secretOwners }

  lemma OwnersAreNamed(plans: seq<Plan>, o: (string, string))
    ensures o in FlatMap(plans, OwnersOf) <==> Names(plans, o)
  {
    FlatMapMembers(plans, OwnersOf);
    if o in FlatMap(plans, OwnersOf) {
      var p :| p in plans && o in OwnersOf(p);
      assert o in p.secretOwners;
    }
    if Names(plans, o) {
      var p :| p in plans && o in p.secretOwners;
      FlatMapMember(plans, OwnersOf, p, o);
    }
  }

  /** Along any sequence of calls, accepted, rejected or raising: the accumulated modules differ in
      ids and configuration and agree with the accumulated owners on every secret; the modules are
      those of the registered plans in order, and the owners exactly the ones some registered plan
      named. Merging owners as a dictionary never loses one, because the concatenation has been
      validated first. */
  lemma NoOwnerIsLost(calls: seq<Call>)
    ensures var complete, plans := Run(calls).complete, Registered(calls);
            && Acceptable(Ledger(complete), NOTHING) && MembersAgree(Ledger(complete), NOTHING)
            && complete.modules == FlatMap(plans, ModulesOf)
            && forall o :: o in complete.secretOwners <==> Names(plans, o)
  {
    var complete, plans := Run(calls).complete, Registered(calls);
    RunKeeps(calls);
    AcceptableMeans(Ledger(complete), NOTHING);
    forall o ensures o in complete.secretOwners <==> Names(plans, o) {
      OwnersAreNamed(plans, o);
    }
  }

  // ----- The application -----

  datatype Outcome = Done | AlreadyApplied | Rejected(errors: seq<Conflict>) | Raised

  method Judge(p: Plan, e: Existing) returns (errors: seq<Conflict>)
    ensures errors == [] <==> Acceptable(p, e)
  {
    errors := ValidatePlan(p, e);
  }

  class Application {
    var applied: seq<nat>
    var complete: Plan
    ghost var calls: seq<Call>

    ghost function Value(): Registry
      reads this
    {
      Registry(applied, complete)
    }

    ghost predicate Valid()
      reads this
    {
      Value() == Run(calls)
    }

    constructor ()
      ensures Valid() && calls == []
    {
      applied, complete, calls := [], Plan([], [], [], []), [];
    }

    /** `register_plan`: a plan is registered exactly when its object is new, it agrees with what is
        registered already, it is acceptable beside what the application serves, and nothing
        raises; otherwise the registration stays as it was. */
    method RegisterPlan(id: nat, plan: Plan, existing: Existing, raises: bool) returns (outcome: Outcome)
      requires Valid()
      modifies this
      ensures Valid() && calls == old(calls) + [Call(id, plan, existing, raises)]
      ensures outcome.Done? <==> Accepts(old(Value()), Call(id, plan, existing, raises))
      ensures outcome.AlreadyApplied? <==> id in old(applied)
      ensures outcome.Rejected? ==> outcome.errors != []
      ensures !outcome.Done? ==> Value() == old(Value())
      ensures outcome.Done? ==> applied == old(applied) + [id] && complete == Combined(old(complete), plan)
    {
      ghost var call := Call(id, plan, existing, raises);
      assert (calls + [call])[..|calls|] == calls;
      calls := calls + [call];
      if id in applied {
        return AlreadyApplied;
      }
      var errors := Judge(Ledger(Concat(complete, plan)), NOTHING);
      if errors != [] {
        return Rejected(errors);
      }
      errors := Judge(plan, existing);
      if errors != [] {
        return Rejected(errors);
      }
      if raises {
        return Raised;
      }
      complete := Combined(complete, plan);
      applied := applied + [id];
      outcome := Done;
    }
  }
}
