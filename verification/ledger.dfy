/** Conservation laws over whole runs: policy versions, outbox rows and row versions. */
module Ledger {
  import opened Schema
  import opened Transactions
  import opened TenantBootstrap
  import opened Histories

  // ----- Policy versions -----

  /** One effective write bumps its target's policy version by one, and nothing else does. */
  lemma VersionStep(s: Store, w: Write, t: string)
    requires Admissible(s, w)
    ensures PolicyVersion(Apply(s, w), t) == PolicyVersion(s, t) + (if Effective(s, w) && Target(w) == t then 1 else 0)
  {
    match w
    case Mutation(_, _, _, _, _) => MutationRuns(s, w);
    case SuperAdmin(_, _, _) => AdminRuns(s, w);
    case GroupChanged(_, _, _, _, _, _) =>
      Redelivery(s, w);
      if w.eventId !in s.processed { GroupRuns(s, w); }
    case TenantCreated(_, _, _) =>
      Redelivery(s, w);
      if w.eventId !in s.processed { BootstrapRuns(s, w); }
  }

  predicate IsEvent(w: Write) {
    w.GroupChanged? || w.TenantCreated?
  }

  ghost predicate EffectiveStep(h: History, i: nat, t: string)
    requires i < |h.steps| < |h.stores|
  {
    h.steps[i].effective && Target(h.steps[i].write) == t
  }

  /** Committed mutations of tenant `t` among the first `n` steps. */
  ghost function Mutations(h: History, t: string, n: nat): nat
    requires n <= |h.steps| < |h.stores|
  {
    if n == 0 then 0
    else Mutations(h, t, n - 1) + (if EffectiveStep(h, n - 1, t) && h.steps[n - 1].write.Mutation? then 1 else 0)
  }

  ghost function AdminGrants(h: History, t: string, n: nat): nat
    requires n <= |h.steps| < |h.stores|
  {
    if n == 0 then 0
    else AdminGrants(h, t, n - 1) + (if EffectiveStep(h, n - 1, t) && h.steps[n - 1].write.SuperAdmin? then 1 else 0)
  }

  /** The ids of the events applied to tenant `t`; as a set, so each id counts once. */
  ghost function AppliedEvents(h: History, t: string, n: nat): set<string>
    requires n <= |h.steps| < |h.stores|
  {
    set i | 0 <= i < n && IsEvent(h.steps[i].write) && EffectiveStep(h, i, t) :: h.steps[i].write.eventId
  }

  lemma {:induction false} AppliedAreProcessed(h: History, compiles: string -> bool, t: string, n: nat)
    requires ValidHistory(h, compiles) && n <= |h.steps|
    ensures AppliedEvents(h, t, n) <= h.stores[n].processed
  {
    forall i | 0 <= i < n && IsEvent(h.steps[i].write) && EffectiveStep(h, i, t)
      ensures h.steps[i].write.eventId in h.stores[n].processed
    {
      var s, w := h.stores[i], h.steps[i].write;
      assert ValidStep(h, i, compiles);
      Redelivery(s, w);
      ReachableEvolves(h, compiles, i + 1, n);
    }
  }

  lemma StepVersion(h: History, compiles: string -> bool, i: nat, t: string)
    requires ValidHistory(h, compiles) && i < |h.steps|
    ensures PolicyVersion(h.stores[i + 1], t) ==
            PolicyVersion(h.stores[i], t) + (if EffectiveStep(h, i, t) then 1 else 0)
  {
    ReachableStep(h, compiles, i);
    assert ValidStep(h, i, compiles);
    VersionStep(h.stores[i], h.steps[i].write, t);
  }

  lemma StepEvents(h: History, compiles: string -> bool, i: nat, t: string)
    requires ValidHistory(h, compiles) && i < |h.steps|
    ensures |AppliedEvents(h, t, i + 1)| ==
            |AppliedEvents(h, t, i)| + (if IsEvent(h.steps[i].write) && EffectiveStep(h, i, t) then 1 else 0)
  {
    var w, before, now := h.steps[i].write, AppliedEvents(h, t, i), AppliedEvents(h, t, i + 1);
    if IsEvent(w) && EffectiveStep(h, i, t) {
      assert ValidStep(h, i, compiles);
      Redelivery(h.stores[i], w);
      AppliedAreProcessed(h, compiles, t, i);
      assert w.eventId !in before;
      assert now == before + {w.eventId};
    } else {
      assert now == before;
    }
  }

  /** Conservation: a tenant's policy version is the number of its committed mutations, plus
      its distinct applied events, plus the super-admin grants on the platform tenant. */
  lemma {:induction false} PolicyVersionConservation(h: History, compiles: string -> bool, t: string, n: nat)
    requires ValidHistory(h, compiles) && n <= |h.steps|
    ensures PolicyVersion(h.stores[n], t) == Mutations(h, t, n) + |AppliedEvents(h, t, n)| + AdminGrants(h, t, n)
  {
    if n == 0 {
      assert AppliedEvents(h, t, 0) == {};
    } else {
      PolicyVersionConservation(h, compiles, t, n - 1);
      StepVersion(h, compiles, n - 1, t);
      StepEvents(h, compiles, n - 1, t);
    }
  }

  /** Effective writes of tenant `t` at steps i..j-1. */
  ghost function CommitsBetween(h: History, t: string, i: nat, j: nat): nat
    requires i <= j <= |h.steps| < |h.stores|
    decreases j
  {
    if i == j then 0 else CommitsBetween(h, t, i, j - 1) + (if EffectiveStep(h, j - 1, t) then 1 else 0)
  }

  /** Between two moments a policy version grows by exactly the commits of its tenant. */
  lemma {:induction false} VersionGrowth(h: History, compiles: string -> bool, t: string, i: nat, j: nat)
    requires ValidHistory(h, compiles) && i <= j <= |h.steps|
    ensures PolicyVersion(h.stores[j], t) == PolicyVersion(h.stores[i], t) + CommitsBetween(h, t, i, j)
    decreases j
  {
    if i < j {
      VersionGrowth(h, compiles, t, i, j - 1);
      StepVersion(h, compiles, j - 1, t);
    }
  }

  // ----- The outbox -----

  function OutboxCount(outbox: seq<OutboxRow>, t: string): nat {
    if outbox == [] then 0
    else OutboxCount(outbox[..|outbox| - 1], t) + (if outbox[|outbox| - 1].tenant == t then 1 else 0)
  }

  lemma OutboxStep(s: Store, w: Write)
    requires Admissible(s, w)
    ensures Apply(s, w).outbox ==
            if w.Mutation? && Effective(s, w)
            then s.outbox + [OutboxRow(w.tenant, w.subject, w.subjectType, PolicyVersion(Apply(s, w), w.tenant),
                                       w.reason)]
            else s.outbox
  {
    match w
    case Mutation(_, _, _, _, _) => MutationRuns(s, w);
    case SuperAdmin(_, _, _) => AdminRuns(s, w);
    case GroupChanged(_, _, _, _, _, _) =>
      Redelivery(s, w);
      if w.eventId !in s.processed { GroupRuns(s, w); }
    case TenantCreated(_, _, _) =>
      Redelivery(s, w);
      if w.eventId !in s.processed { BootstrapRuns(s, w); }
  }

  /** Rows of one tenant carry strictly increasing versions, none beyond the current one. */
  ghost predicate OutboxOrdered(s: Store) {
    && (forall i, j :: 0 <= i < j < |s.outbox| && s.outbox[i].tenant == s.outbox[j].tenant ==>
          s.outbox[i].policyVersion < s.outbox[j].policyVersion)
    && (forall i :: 0 <= i < |s.outbox| ==> s.outbox[i].policyVersion <= PolicyVersion(s, s.outbox[i].tenant))
  }

  lemma OrderedStep(s: Store, w: Write)
    requires Admissible(s, w) && OutboxOrdered(s)
    ensures OutboxOrdered(Apply(s, w))
  {
    OutboxStep(s, w);
    forall i | 0 <= i < |s.outbox|
      ensures PolicyVersion(s, s.outbox[i].tenant) <= PolicyVersion(Apply(s, w), s.outbox[i].tenant)
    {
      VersionStep(s, w, s.outbox[i].tenant);
    }
    if w.Mutation? && Effective(s, w) {
      VersionStep(s, w, w.tenant);
    }
  }

  lemma CountStep(s: Store, w: Write, t: string)
    requires Admissible(s, w)
    ensures OutboxCount(Apply(s, w).outbox, t) ==
            OutboxCount(s.outbox, t) + (if Effective(s, w) && w.Mutation? && Target(w) == t then 1 else 0)
  {
    OutboxStep(s, w);
    var after := Apply(s, w).outbox;
    if w.Mutation? && Effective(s, w) {
      assert after[..|after| - 1] == s.outbox;
    }
  }

  lemma StepOutbox(h: History, compiles: string -> bool, i: nat, t: string)
    requires ValidHistory(h, compiles) && i < |h.steps|
    ensures OutboxCount(h.stores[i + 1].outbox, t) ==
            OutboxCount(h.stores[i].outbox, t) + (if EffectiveStep(h, i, t) && h.steps[i].write.Mutation? then 1 else 0)
    ensures OutboxOrdered(h.stores[i]) ==> OutboxOrdered(h.stores[i + 1])
  {
    ReachableStep(h, compiles, i);
    assert ValidStep(h, i, compiles);
    CountStep(h.stores[i], h.steps[i].write, t);
    if OutboxOrdered(h.stores[i]) {
      OrderedStep(h.stores[i], h.steps[i].write);
    }
  }

  /** Each committed mutation adds exactly one outbox row, and per tenant the announced
      versions strictly increase. */
  lemma {:induction false} OutboxConservation(h: History, compiles: string -> bool, t: string, n: nat)
    requires ValidHistory(h, compiles) && n <= |h.steps|
    ensures OutboxCount(h.stores[n].outbox, t) == Mutations(h, t, n)
    ensures OutboxOrdered(h.stores[n])
  {
    if n > 0 {
      OutboxConservation(h, compiles, t, n - 1);
      StepOutbox(h, compiles, n - 1, t);
    }
  }

  /** A write that does not commit changes no row, no version and no outbox entry. */
  lemma RolledBackChangesNothing(s: Store, w: Write)
    requires !Effective(s, w) && Admissible(s, w)
    ensures Apply(s, w) == s
  {
    match w
    case Mutation(_, _, _, _, _) => MutationRuns(s, w);
    case SuperAdmin(_, _, _) => AdminRuns(s, w);
    case _ => Redelivery(s, w);
  }
}
