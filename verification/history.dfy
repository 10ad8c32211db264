/** Every run of the writers, from the migrated database on: service mutations prepared on
    possibly outdated snapshots, projected events, and super-admin grants, in any order. */
module Histories {
  import opened Schema
  import opened Resolution
  import opened Transactions
  import opened TenantBootstrap
  import opened Access

  /** Where a mutation came from: the caller, the operation, and the store it was checked on. */
  datatype Origin = Origin(context: Context, operation: Operation, snapshot: nat)

  /** `effective` records whether the transaction ran to completion and committed. */
  datatype Step = Step(write: Write, origin: Option<Origin>, effective: bool)

  /** `stores[i]` is the database before step i; aborted and redelivered steps repeat it. */
  datatype History = History(stores: seq<Store>, steps: seq<Step>)

  /** A database no writer has touched yet: any sane rows, all at their first version. */
  ghost predicate Untouched(s: Store) {
    && Good(s)
    && (forall p :: p in s.permissions ==> s.permissions[p].version == 1)
    && (forall p :: p in s.roles ==> s.roles[p].version == 1)
    && (forall p :: p in s.rolePermissions ==> s.rolePermissions[p].version == 1)
    && (forall p :: p in s.bindings ==> s.bindings[p].version == 1)
    && s.policyVersions == map[] && s.processed == {} && s.outbox == []
  }

  /** The rows the migrations insert. */
  function Migrated(): Store {
    Store(
      map[Seed(BootPermission) := Permission(PLATFORM, "platform.super-admin", "*", "*", "", Active, 1)],
      map[Seed(BootRole) := Role(PLATFORM, SUPER_ADMIN_ROLE, AllScope, Active, 1)],
      map[Seed(BootRolePermission) := RolePermission(PLATFORM, Seed(BootRole), Seed(BootPermission), Active, 1)],
      map[], map[], map[], {}, [])
  }

  lemma MigratedIsUntouched()
    ensures Untouched(Migrated())
  {
  }

  ghost predicate Issued(h: History, i: nat, compiles: string -> bool)
    requires i < |h.steps| < |h.stores|
  {
    h.steps[i].write.Mutation? ==>
      && h.steps[i].origin.Some?
      && h.steps[i].origin.value.snapshot <= i
      && Prepare(h.steps[i].origin.value.context, h.steps[i].origin.value.operation,
                 h.stores[h.steps[i].origin.value.snapshot], compiles) == Issue(h.steps[i].write)
  }

  ghost predicate ValidStep(h: History, i: nat, compiles: string -> bool)
    requires i < |h.steps| < |h.stores|
  {
    && Issued(h, i, compiles)
    && h.stores[i + 1] == Apply(h.stores[i], h.steps[i].write)
    && (h.steps[i].effective <==> Effective(h.stores[i], h.steps[i].write))
  }

  ghost predicate ValidHistory(h: History, compiles: string -> bool) {
    && |h.stores| == |h.steps| + 1
    && Untouched(h.stores[0])
    && (forall i :: 0 <= i < |h.steps| ==> ValidStep(h, i, compiles))
  }

  ghost predicate EvolvesAt(stores: seq<Store>, i: nat)
    requires i + 1 < |stores|
  {
    Evolves(stores[i], stores[i + 1])
  }

  lemma {:induction false} ChainEvolves(stores: seq<Store>, i: nat, n: nat)
    requires i <= n < |stores| && forall k :: i <= k < n ==> EvolvesAt(stores, k)
    ensures Evolves(stores[i], stores[n])
  {
    if i == n {
      EvolvesReflexive(stores[n]);
    } else {
      ChainEvolves(stores, i, n - 1);
      assert EvolvesAt(stores, n - 1);
      EvolvesTransitive(stores[i], stores[n - 1], stores[n]);
    }
  }

  /** One step from a good store, reached by a chain of steps. A mutation is admissible when
      it runs although it was checked against a store that may be outdated by then. */
  lemma StepReaches(h: History, compiles: string -> bool, i: nat)
    requires i < |h.steps| < |h.stores| && ValidStep(h, i, compiles)
    requires Good(h.stores[i]) && forall k :: 0 <= k < i ==> EvolvesAt(h.stores, k)
    ensures Admissible(h.stores[i], h.steps[i].write)
    ensures Good(h.stores[i + 1]) && EvolvesAt(h.stores, i)
  {
    if h.steps[i].write.Mutation? {
      var o := h.steps[i].origin.value;
      ChainEvolves(h.stores, o.snapshot, i);
      ClearedStaysAdmissible(o.context, h.stores[o.snapshot], h.stores[i], h.steps[i].write);
    }
    WriteKeepsGood(h.stores[i], h.steps[i].write);
  }

  lemma NextReaches(h: History, compiles: string -> bool, i: nat)
    requires ValidHistory(h, compiles) && i < |h.steps|
    requires Good(h.stores[i]) && forall k :: 0 <= k < i ==> EvolvesAt(h.stores, k)
    ensures Admissible(h.stores[i], h.steps[i].write)
    ensures Good(h.stores[i + 1]) && EvolvesAt(h.stores, i)
  {
    assert ValidStep(h, i, compiles);
    StepReaches(h, compiles, i);
  }

  /** Every reachable store satisfies the invariants, and each evolves from the one before. */
  lemma {:induction false} Reachable(h: History, compiles: string -> bool, n: nat)
    requires ValidHistory(h, compiles) && n < |h.stores|
    ensures Good(h.stores[n])
    ensures forall k :: 0 <= k < n ==> EvolvesAt(h.stores, k)
  {
    if n > 0 {
      Reachable(h, compiles, n - 1);
      NextReaches(h, compiles, n - 1);
    }
  }

  lemma ReachableStep(h: History, compiles: string -> bool, i: nat)
    requires ValidHistory(h, compiles) && i < |h.steps|
    ensures Good(h.stores[i]) && Admissible(h.stores[i], h.steps[i].write)
  {
    Reachable(h, compiles, i);
    NextReaches(h, compiles, i);
  }

  lemma ReachableEvolves(h: History, compiles: string -> bool, i: nat, n: nat)
    requires ValidHistory(h, compiles) && i <= n < |h.stores|
    ensures Evolves(h.stores[i], h.stores[n])
  {
    Reachable(h, compiles, n);
    ChainEvolves(h.stores, i, n);
  }

  /** A bootstrap that is blocked once is blocked for good: from then on every tenant-created
      event of that tenant, unless already processed, aborts. */
  lemma {:induction false} BlockedForGood(h: History, compiles: string -> bool, i: nat, j: nat, t: string)
    requires ValidHistory(h, compiles) && i <= j < |h.stores| && Blocked(h.stores[i], t)
    ensures Blocked(h.stores[j], t)
    ensures forall w: Write :: w.TenantCreated? && w.tenant == t && w.eventId !in h.stores[j].processed ==>
              Outcome(h.stores[j], w).Aborted?
    decreases j
  {
    if i < j {
      BlockedForGood(h, compiles, i, j - 1, t);
      BlockedStep(h, compiles, j - 1, t);
    }
    Reachable(h, compiles, j);
    forall w: Write | w.TenantCreated? && w.tenant == t && w.eventId !in h.stores[j].processed
      ensures Outcome(h.stores[j], w).Aborted?
    {
      BootstrapAborts(h.stores[j], w);
    }
  }

  lemma BlockedStep(h: History, compiles: string -> bool, i: nat, t: string)
    requires ValidHistory(h, compiles) && i < |h.steps| && Blocked(h.stores[i], t)
    ensures Blocked(h.stores[i + 1], t)
  {
    ReachableStep(h, compiles, i);
    assert ValidStep(h, i, compiles);
    BlockedStays(h.stores[i], h.steps[i].write, t);
  }

  /** Tenant isolation over whole runs: a step for one tenant changes no decision, and no
      policy version, of any other tenant. */
  lemma RunsAreIsolated(h: History, compiles: string -> bool, i: nat, cel: Cel, r: Request)
    requires ValidHistory(h, compiles) && i < |h.steps| && r.tenant != Target(h.steps[i].write)
    ensures FreshVerdict(cel, h.stores[i + 1], r) == FreshVerdict(cel, h.stores[i], r)
    ensures PolicyVersion(h.stores[i + 1], r.tenant) == PolicyVersion(h.stores[i], r.tenant)
  {
    ReachableStep(h, compiles, i);
    assert ValidStep(h, i, compiles);
    OtherTenantsUnaffected(h.stores[i], h.steps[i].write, r);
  }
}
