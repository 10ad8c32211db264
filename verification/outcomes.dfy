/** End to end on the columns: what operations and events do to the answers of later checks. */
module Outcomes {
  import opened Schema
  import opened Text
  import opened Resolution
  import opened Columns
  import opened Transactions
  import opened TenantBootstrap
  import opened GroupProjection
  import opened Access
  import opened Granting
  import opened Mutators
  import opened DecisionCache
  import opened Service

  /** Every active binding that reaches the subject of `r`. */
  ghost predicate Reached(s: Store, r: Request, b: Id) {
    Reaches(s, r.tenant, r.subject, r.subjectType, b)
  }

  /** Disabling the only role that reaches a subject denies all its checks. */
  lemma DisabledRoleDenies(cel: Cel, ctx: Context, op: Operation, s: Store, compiles: string -> bool, n: Store,
                           r: Request)
    requires op.ChangeRole? && op.status == "disabled" && Performed(ctx, op, s, compiles, n)
    requires forall b :: Reached(s, r, b) ==> s.bindings[b].role == op.id
    ensures FreshVerdict(cel, n, r) == Verdict(false, NoGrant, NoScope, {})
  {
    ChangeRoleExact(ctx, op, s, compiles, n);
    assert forall b :: Reached(n, r, b) ==> Reached(s, r, b);
    DeadEndsDeny(cel, n, r);
  }

  /** Disabling the only permission the subject's roles lead to denies all its checks. */
  lemma DisabledPermissionDenies(cel: Cel, ctx: Context, op: Operation, s: Store, compiles: string -> bool, n: Store,
                                 r: Request)
    requires op.ChangePermission? && Lower(Trim(op.status)) == "disabled" && Performed(ctx, op, s, compiles, n)
    requires forall b, g :: Reached(s, r, b) && Paired(s, b, g) ==> s.rolePermissions[g].permission == op.id
    ensures FreshVerdict(cel, n, r) == Verdict(false, NoGrant, NoScope, {})
  {
    ChangePermissionExact(ctx, op, s, compiles, n);
    assert forall b, g :: Reached(n, r, b) && Paired(n, b, g) ==> Reached(s, r, b) && Paired(s, b, g);
    DeadEndsDeny(cel, n, r);
  }

  /** Revoking the only role permission of the subject's roles denies all its checks. */
  lemma RevokedPairDenies(cel: Cel, ctx: Context, op: Operation, s: Store, compiles: string -> bool, n: Store,
                          r: Request)
    requires op.RevokeRolePermission? && Performed(ctx, op, s, compiles, n)
    requires forall b, g :: Reached(s, r, b) && Paired(s, b, g) ==> g == op.id
    ensures FreshVerdict(cel, n, r) == Verdict(false, NoGrant, NoScope, {})
  {
    RevokePairExact(ctx, op, s, compiles, n);
    assert forall b, g :: Reached(n, r, b) && Paired(n, b, g) ==> Reached(s, r, b) && Paired(s, b, g);
    DeadEndsDeny(cel, n, r);
  }

  /** Revoking the only binding that reaches the subject denies all its checks. */
  lemma RevokedBindingDenies(cel: Cel, ctx: Context, op: Operation, s: Store, compiles: string -> bool, n: Store,
                             r: Request)
    requires op.RevokeBinding? && Performed(ctx, op, s, compiles, n)
    requires forall b :: Reached(s, r, b) ==> b == op.id
    ensures FreshVerdict(cel, n, r) == Verdict(false, NoGrant, NoScope, {})
  {
    RevokeBindingExact(ctx, op, s, compiles, n);
    assert op.id in n.bindings && n.bindings[op.id].status == Revoked && n.groups == s.groups;
    forall b ensures !Reaches(n, r.tenant, r.subject, r.subjectType, b) {
      assert b in s.bindings && b != op.id ==> n.bindings[b] == s.bindings[b];
      assert b != op.id ==> !Reached(s, r, b);
    }
    DeadEndsDeny(cel, n, r);
  }

  // ----- Group events -----

  /** The event names its ids and is an addition or a removal. */
  predicate Complete(e: GroupEvent) {
    && e.eventId != "" && e.tenant != "" && e.group != "" && e.membership != ""
    && (e.change == MemberAdded || e.change == MemberRemoved)
  }

  /** The time of a delivery: the consumer's clock stands in for the year-one zero time. */
  function TimeOf(d: Delivery): int {
    if d.event.occurredAt == -62135596800 then d.now else d.event.occurredAt
  }

  /** A complete new event writes the one row it names, unless the row is younger, and raises the
      tenant's version; any other event changes nothing. */
  lemma GroupEventExact(s: Store, d: Delivery)
    ensures
      var e := d.event;
      var key := GroupKey(e.tenant, e.membership, e.group);
      var version := (if e.tenant in s.policyVersions then s.policyVersions[e.tenant] else 0) + 1;
      var row := GroupRow(if e.change == MemberAdded then Active else Removed, TimeOf(d),
                          if key in s.groups then s.groups[key].version + 1 else 1);
      Deliver(s, d) ==
      if Complete(e) && e.eventId !in s.processed then
        s.(processed := s.processed + {e.eventId}, policyVersions := s.policyVersions[e.tenant := version],
           groups := s.groups[key :=
             if key in s.groups && TimeOf(d) < s.groups[key].occurredAt then s.groups[key] else row])
      else s
  {
    if Accepted(d.event) {
      Redelivery(s, WriteOf(d));
      if d.event.eventId !in s.processed {
        GroupRuns(s, WriteOf(d));
      }
    }
  }

  /** The service's projection leaves the delivered store, and drops the member's entries
      exactly for complete events. */
  lemma ProjectionExact(n: Node, d: Delivery)
    ensures AfterGroupEvent(n, d).store == Deliver(n.store, d)
    ensures AfterGroupEvent(n, d).cache ==
            if Complete(d.event)
            then SubjectInvalidated(n.cache, d.event.tenant, d.event.membership, Membership) else n.cache
  {
    if Accepted(d.event) {
      Redelivery(n.store, WriteOf(d));
      if d.event.eventId !in n.store.processed {
        GroupRuns(n.store, WriteOf(d));
      }
    }
  }

  /** The bootstrap projection leaves the applied store, and drops the owner's entries exactly
      when the transaction commits; an event with a blank id is refused. */
  lemma CreationExact(n: Node, eventId: string, tenant: string, owner: string)
    ensures
      var w, n2 := TenantCreated(eventId, tenant, owner), AfterTenantCreated(n, eventId, tenant, owner);
      if eventId != "" && tenant != "" && owner != "" then
        && n2.store == Apply(n.store, w)
        && n2.cache == (if Outcome(n.store, w).Committed? then SubjectInvalidated(n.cache, tenant, owner, Membership)
                        else n.cache)
      else n2 == n
  {
  }

  /** A mutation leaves the applied store, and drops its tenant's entries exactly when it takes
      effect. */
  lemma MutationProjection(n: Node, w: Write)
    requires w.Mutation? && ServiceStatement(w.statement)
    ensures AfterMutation(n, w).store == Apply(n.store, w)
    ensures AfterMutation(n, w).cache ==
            if Effective(n.store, w) then TenantInvalidated(n.cache, w.tenant) else n.cache
  {
    MutationRuns(n.store, w);
  }

  /** The newest event of its row. */
  ghost predicate Newest(s: Store, d: Delivery) {
    && Complete(d.event) && d.event.eventId !in s.processed
    && var key := GroupKey(d.event.tenant, d.event.membership, d.event.group);
       key in s.groups ==> s.groups[key].occurredAt <= TimeOf(d)
  }

  /** Removing a member whose only way to roles is the group denies all its checks. */
  lemma RemovedMemberDenied(cel: Cel, s: Store, d: Delivery, r: Request)
    requires Newest(s, d) && d.event.change == MemberRemoved
    requires r.tenant == d.event.tenant && r.subject == d.event.membership && r.subjectType == Membership
    requires forall b :: Reached(s, r, b) ==>
               s.bindings[b].subjectType == Group && s.bindings[b].subject == d.event.group
    ensures FreshVerdict(cel, Deliver(s, d), r) == Verdict(false, NoGrant, NoScope, {})
  {
    GroupEventExact(s, d);
    var n := Deliver(s, d);
    assert forall b :: !Reached(n, r, b);
    DeadEndsDeny(cel, n, r);
  }

  /** Adding a member to a group that is bound to a role, which leads to a matching permission
      without condition, makes the member's checks honour that role. */
  lemma AddedMemberHonoured(cel: Cel, s: Store, d: Delivery, r: Request, b: Id, g: Id)
    requires Newest(s, d) && d.event.change == MemberAdded
    requires r.tenant == d.event.tenant && r.subject == d.event.membership && r.subjectType == Membership
    requires b in s.bindings && s.bindings[b].tenant == r.tenant && s.bindings[b].status == Active
    requires s.bindings[b].subjectType == Group && s.bindings[b].subject == d.event.group
    requires Leads(s, b, g) && PairPermission(s, g).condition == ""
    requires PairPermission(s, g).resourceType in {r.resourceType, "*"}
             && PairPermission(s, g).action in {r.action, "*"}
    ensures
      var v, scope, unit := FreshVerdict(cel, Deliver(s, d), r), s.roles[s.bindings[b].role].scope, s.bindings[b].unit;
      v != EvaluationError ==>
        && v.allowed && v.reason == MatchingGrant
        && (scope == AllScope ==> v.scope == AllScope)
        && (scope == TenantScope ==> v.scope in {TenantScope, AllScope})
        && (scope == OrganizationScope ==> v.scope in {OrganizationScope, TenantScope, AllScope})
        && (scope == SelfScope ==> v.scope != NoScope)
        && (scope == OrganizationScope && unit != "" ==> unit in v.units)
  {
    GroupEventExact(s, d);
    assert Passes(cel, Deliver(s, d), r, b, g);
    PassingRowIsHonoured(cel, Deliver(s, d), r, b, g);
  }

  // ----- Tenant creation and the super-admin command -----

  /** On a tenant without rows the bootstrap adds these four rows, marks the event and raises the
      version, and changes nothing else. */
  lemma TenantCreationExact(s: Store, w: Write)
    requires w.TenantCreated? && Good(s) && NoRows(s, w.tenant) && w.eventId !in s.processed
    ensures
      var t := w.tenant;
      var version := (if t in s.policyVersions then s.policyVersions[t] else 0) + 1;
      Apply(s, w) == s.(
        permissions := s.permissions[Boot(BootPermission, t) :=
          Permission(t, "tenant.owner-admin", "*", "*", "", Active, 1)],
        roles := s.roles[Boot(BootRole, t) := Role(t, "tenant-owner-admin", AllScope, Active, 1)],
        rolePermissions := s.rolePermissions[Boot(BootRolePermission, t) :=
          RolePermission(t, Boot(BootRole, t), Boot(BootPermission, t), Active, 1)],
        bindings := s.bindings[Boot(BootBinding(w.owner), t) :=
          Binding(t, w.owner, Membership, Boot(BootRole, t), "", Active, 1)],
        policyVersions := s.policyVersions[t := version],
        processed := s.processed + {w.eventId})
  {
    BootstrapAborts(s, w);
    BootstrapRuns(s, w);
    NewRows(s, w);
  }

  /** The super-admin command takes effect exactly on the active platform role with the reserved
      code, and then the subject has an active binding to it. */
  lemma AdminGrantColumns(s: Store, w: Write)
    requires w.SuperAdmin? && Good(s)
    ensures Effective(s, w) <==>
            && w.roleId in s.roles && s.roles[w.roleId].tenant == "__platform__"
            && s.roles[w.roleId].code == "platform-super-admin" && s.roles[w.roleId].status == Active
    ensures Effective(s, w) ==> exists b :: HasAdminBinding(Apply(s, w), b, w.subject, w.adminType, w.roleId)
  {
    AdminSucceeds(s, w);
    if Effective(s, w) {
      var b := AdminBindingExists(s, w);
      assert HasAdminBinding(Apply(s, w), b, w.subject, w.adminType, w.roleId);
    }
  }

  ghost predicate HasAdminBinding(s: Store, b: Id, subject: string, t: SubjectType, role: Id) {
    && b in s.bindings && s.bindings[b].tenant == "__platform__" && s.bindings[b].status == Active
    && s.bindings[b].subject == subject && s.bindings[b].subjectType == t && s.bindings[b].role == role
  }
}
