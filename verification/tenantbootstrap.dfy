/** The tenant-created projection: what BootstrapTenantOwner does to the tables and to decisions. */
module TenantBootstrap {
  import opened Schema
  import opened Resolution
  import opened Transactions

  /** The tables after a completed bootstrap, each as the effect of one statement. */
  ghost predicate BootstrapEffect(s: Store, w: Write, n: Store)
    requires w.TenantCreated?
  {
    var sts := BootstrapStatements(w.tenant, w.owner);
    && n.permissions == PermissionsAfter(s.permissions, sts[0])
    && n.roles == RolesAfter(s.roles, sts[1])
    && n.rolePermissions == PairsAfter(s.rolePermissions, sts[2])
    && n.bindings == BindingsAfter(s.bindings, sts[3])
    && n.groups == s.groups && n.outbox == s.outbox
    && n.policyVersions == Bumped(s.policyVersions, w.tenant)
    && n.processed == s.processed + {w.eventId}
  }

  /** The role permission or the binding can refer to a missing row. */
  ghost predicate MissingReference(s: Store, w: Write)
    requires w.TenantCreated?
  {
    var sts := BootstrapStatements(w.tenant, w.owner);
    var roles, permissions := RolesAfter(s.roles, sts[1]), PermissionsAfter(s.permissions, sts[0]);
    || (&& !PairConflict(s.rolePermissions, sts[2].id, sts[2].rolePermission)
        && !(Boot(BootRole, w.tenant) in roles && Boot(BootPermission, w.tenant) in permissions))
    || (&& sts[3].id !in s.bindings && !Assigned(s.bindings, sts[3].binding)
        && Boot(BootRole, w.tenant) !in roles)
  }

  /** The store after the event is marked and the permission and role statements ran. */
  function Prepared(s: Store, w: Write): (n: Store)
    requires w.TenantCreated?
    ensures
      var sts := BootstrapStatements(w.tenant, w.owner);
      n == s.(permissions := PermissionsAfter(s.permissions, sts[0]), roles := RolesAfter(s.roles, sts[1]),
              processed := s.processed + {w.eventId})
  {
    var sts := BootstrapStatements(w.tenant, w.owner);
    After(After(After(s, MarkProcessed(w.eventId)), sts[0]), sts[1])
  }

  lemma BootstrapHead(s: Store, w: Write)
    requires w.TenantCreated? && w.eventId !in s.processed
    ensures Outcome(s, w) == RunFrom(Prepared(s, w), Script(w), 3)
  {
    var script, sts := Script(w), BootstrapStatements(w.tenant, w.owner);
    assert script[0] == MarkProcessed(w.eventId) && script[1] == sts[0] && script[2] == sts[1];
    var s1 := After(s, script[0]);
    var s2 := After(s1, script[1]);
    assert RunFrom(s, script, 0) == RunFrom(s1, script, 1);
    assert RunFrom(s1, script, 1) == RunFrom(s2, script, 2);
  }

  lemma BootstrapRuns(s: Store, w: Write)
    requires w.TenantCreated? && w.eventId !in s.processed
    ensures Outcome(s, w).Aborted? <==> MissingReference(s, w)
    ensures Outcome(s, w).Committed? ==> Effective(s, w) && BootstrapEffect(s, w, Apply(s, w))
  {
    var script, sts := Script(w), BootstrapStatements(w.tenant, w.owner);
    BootstrapHead(s, w);
    BootstrapTail(Prepared(s, w), w);
    assert script[3] == sts[2] && script[4] == sts[3] && script[5] == BumpPolicyVersion(w.tenant);
  }

  lemma BootstrapTail(s3: Store, w: Write)
    requires w.TenantCreated?
    ensures
      var script := Script(w);
      var s4 := After(s3, script[3]);
      var s5 := After(s4, script[4]);
      RunFrom(s3, script, 3) ==
      if Rejection(s3, script[3]).Some? then Aborted(Rejection(s3, script[3]).value)
      else if Rejection(s4, script[4]).Some? then Aborted(Rejection(s4, script[4]).value)
      else Committed(After(s5, script[5]), true)
  {
    var script := Script(w);
    var s4 := After(s3, script[3]);
    var s5 := After(s4, script[4]);
    var s6 := After(s5, script[5]);
    assert script[5] == BumpPolicyVersion(w.tenant);
    assert RunFrom(s6, script, 6) == Committed(s6, true);
    assert RunFrom(s5, script, 5) == RunFrom(s6, script, 6);
  }

  lemma BootstrapKeepsClosed(s: Store, w: Write)
    requires w.TenantCreated? && Good(s) && Effective(s, w)
    ensures BootClosed(Apply(s, w))
  {
    assert w.eventId !in s.processed by {
      assert Script(w)[0] == MarkProcessed(w.eventId);
    }
    BootstrapRuns(s, w);
    var n, t := Apply(s, w), w.tenant;
    if Boot(BootRole, t) !in s.roles {
      assert forall g :: g in s.rolePermissions ==> s.rolePermissions[g].role != Boot(BootRole, t);
    }
  }

  lemma {:induction false} RunKeepsClosed(s: Store, script: seq<Statement>, i: nat)
    requires i <= |script| && BootClosed(s) && RunFrom(s, script, i).Committed?
    requires forall j :: 0 <= j < |script| && script[j].InsertRole? ==> script[j].id.Fresh?
    ensures BootClosed(RunFrom(s, script, i).store)
    decreases |script| - i
  {
    if i < |script| && Exec(s, script[i]).Done? {
      RunKeepsClosed(Exec(s, script[i]).store, script, i + 1);
    }
  }

  /** Every transaction, whichever writer issues it, keeps the store invariants. */
  lemma WriteKeepsGood(s: Store, w: Write)
    requires Good(s) && Admissible(s, w)
    ensures Good(Apply(s, w)) && Evolves(s, Apply(s, w))
  {
    if Outcome(s, w).Committed? {
      WriteSound(s, w);
      RunKeepsSane(s, Script(w), 0);
      if !w.TenantCreated? {
        RunKeepsClosed(s, Script(w), 0);
      } else if Effective(s, w) {
        BootstrapKeepsClosed(s, w);
      } else {
        Redelivery(s, w);
      }
    }
  }

  /** Tenant isolation: a write for one tenant changes no grant of any other tenant. */
  lemma OtherTenantsUnaffected(s: Store, w: Write, r: Request)
    requires Good(s) && Admissible(s, w) && r.tenant != Target(w)
    ensures Grants(Apply(s, w), r) == Grants(s, r)
    ensures PolicyVersion(Apply(s, w), r.tenant) == PolicyVersion(s, r.tenant)
  {
    WriteKeepsGood(s, w);
    WriteFrame(s, w, r.tenant);
    SliceDecides(s, Apply(s, w), r);
  }

  /** An event that was processed before commits nothing. */
  lemma Redelivery(s: Store, w: Write)
    requires w.TenantCreated? || w.GroupChanged?
    ensures w.eventId in s.processed ==> Outcome(s, w) == Committed(s, false)
    ensures w.eventId !in s.processed && Outcome(s, w).Committed? ==>
              Effective(s, w) && w.eventId in Apply(s, w).processed
  {
    assert Script(w)[0] == MarkProcessed(w.eventId);
    if w.eventId !in s.processed {
      if w.TenantCreated? {
        BootstrapRuns(s, w);
      } else {
        GroupRuns(s, w);
      }
    }
  }

  /** Delivering an event a second time changes nothing, whether or not the first
      delivery committed. */
  lemma RedeliveryIsIdempotent(s: Store, w: Write)
    requires w.TenantCreated? || w.GroupChanged?
    ensures Apply(Apply(s, w), w) == Apply(s, w)
  {
    Redelivery(s, w);
    Redelivery(Apply(s, w), w);
  }

  /** The group projection always commits a new event, and writes one row. */
  lemma GroupRuns(s: Store, w: Write)
    requires w.GroupChanged? && w.eventId !in s.processed
    ensures Effective(s, w)
    ensures Apply(s, w) == s.(
              processed := s.processed + {w.eventId},
              groups := GroupsAfter(s.groups,
                                    UpsertGroup(GroupKey(w.tenant, w.membership, w.group), w.status, w.occurredAt)),
              policyVersions := Bumped(s.policyVersions, w.tenant))
  {
    var script := Script(w);
    var s1 := After(s, script[0]);
    var s2 := After(s1, script[1]);
    var s3 := After(s2, script[2]);
    assert RunFrom(s3, script, 3) == Committed(s3, true);
    assert RunFrom(s2, script, 2) == RunFrom(s3, script, 3);
    assert RunFrom(s1, script, 1) == RunFrom(s2, script, 2);
  }

  /** The owner bootstrap aborts exactly when the reserved role code is taken by another
      role, or its permission slot by another permission, before the first bootstrap. */
  lemma BootstrapAborts(s: Store, w: Write)
    requires w.TenantCreated? && Good(s) && w.eventId !in s.processed
    ensures Outcome(s, w).Aborted? <==> Blocked(s, w.tenant)
  {
    BootstrapRuns(s, w);
    var t := w.tenant;
    if Boot(BootRole, t) in s.roles {
      assert Boot(BootRolePermission, t) in s.rolePermissions;
    } else {
      assert forall g :: g in s.rolePermissions ==> s.rolePermissions[g].role != Boot(BootRole, t);
      assert Boot(BootRolePermission, t) !in s.rolePermissions;
    }
  }

  predicate OwnedBy(w: Write, r: Request)
    requires w.TenantCreated?
  {
    r.tenant == w.tenant && r.subject == w.owner && r.subjectType == Membership
  }

  /** What a bootstrap can add: rows keep their content, a new role permission belongs to
      the new bootstrap role, and a new binding belongs to the owner. */
  ghost predicate BootstrapShape(s: Store, n: Store, t: string, owner: string) {
    && (forall p :: p in s.permissions ==> p in n.permissions && n.permissions[p] == s.permissions[p])
    && (forall p :: p in s.roles ==> p in n.roles && n.roles[p] == s.roles[p])
    && (forall p :: p in s.rolePermissions ==> p in n.rolePermissions && n.rolePermissions[p] == s.rolePermissions[p])
    && (forall p :: p in s.bindings ==> p in n.bindings && n.bindings[p] == s.bindings[p])
    && (forall p :: p in n.rolePermissions && p !in s.rolePermissions ==> n.rolePermissions[p].role !in s.roles)
    && (forall p :: p in n.bindings && p !in s.bindings ==>
          n.bindings[p].tenant == t && n.bindings[p].subject == owner && n.bindings[p].subjectType == Membership)
    && n.groups == s.groups
  }

  ghost predicate AddsAtMost<R>(m: map<Id, R>, n: map<Id, R>, id: Id, row: R) {
    n == m || (id !in m && n == m[id := row])
  }

  lemma EffectAdds(s: Store, w: Write, n: Store)
    requires w.TenantCreated? && BootstrapEffect(s, w, n)
    ensures
      var t := w.tenant;
      && AddsAtMost(s.permissions, n.permissions, Boot(BootPermission, t), OwnerPermission(t))
      && AddsAtMost(s.roles, n.roles, Boot(BootRole, t), OwnerRole(t))
      && AddsAtMost(s.rolePermissions, n.rolePermissions, Boot(BootRolePermission, t), OwnerPair(t))
      && AddsAtMost(s.bindings, n.bindings, Boot(BootBinding(w.owner), t), OwnerBinding(t, w.owner))
  {
  }

  lemma BootstrapHasShape(s: Store, w: Write, n: Store)
    requires w.TenantCreated? && BootClosed(s) && BootstrapEffect(s, w, n)
    ensures BootstrapShape(s, n, w.tenant, w.owner)
  {
    EffectAdds(s, w, n);
    AddedRowsHaveShape(s, n, w.tenant, w.owner);
  }

  lemma AddedRowsHaveShape(s: Store, n: Store, t: string, owner: string)
    requires AddsAtMost(s.permissions, n.permissions, Boot(BootPermission, t), OwnerPermission(t))
    requires AddsAtMost(s.roles, n.roles, Boot(BootRole, t), OwnerRole(t))
    requires AddsAtMost(s.rolePermissions, n.rolePermissions, Boot(BootRolePermission, t), OwnerPair(t))
    requires AddsAtMost(s.bindings, n.bindings, Boot(BootBinding(owner), t), OwnerBinding(t, owner))
    requires BootClosed(s) && n.groups == s.groups
    ensures BootstrapShape(s, n, t, owner)
  {
  }

  lemma ShapeKeepsGrants(s: Store, n: Store, t: string, owner: string, r: Request)
    requires Isolated(s) && BootstrapShape(s, n, t, owner)
    requires !(r.tenant == t && r.subject == owner && r.subjectType == Membership)
    ensures Grants(n, r) == Grants(s, r)
  {
    GrantsWithin(s, n, r);
    forall b, g | Joins(n, r, b, g)
      ensures Joins(s, r, b, g) && GrantOf(n, r, b, g) == GrantOf(s, r, b, g)
    {
      assert b in s.bindings && s.bindings[b].role in s.roles;
      assert g in s.rolePermissions;
      assert PairIsolated(s.rolePermissions[g], s.roles, s.permissions);
    }
    GrantsWithin(n, s, r);
  }

  /** A bootstrap changes no decision of any subject but the owner, in any tenant; this is
      why invalidating the owner's cache entries alone is enough. */
  lemma OnlyOwnerAffected(s: Store, w: Write, r: Request)
    requires w.TenantCreated? && Good(s) && !OwnedBy(w, r)
    ensures Grants(Apply(s, w), r) == Grants(s, r)
  {
    Redelivery(s, w);
    if Effective(s, w) {
      BootstrapRuns(s, w);
      BootstrapHasShape(s, w, Apply(s, w));
      ShapeKeepsGrants(s, Apply(s, w), w.tenant, w.owner, r);
    }
  }

  /** A group event changes no decision of any subject but the membership it names. */
  lemma OnlyMemberAffected(s: Store, w: Write, r: Request)
    requires w.GroupChanged?
    requires !(r.tenant == w.tenant && r.subject == w.membership && r.subjectType == Membership)
    ensures Grants(Apply(s, w), r) == Grants(s, r)
  {
    Redelivery(s, w);
    if w.eventId !in s.processed {
      GroupRuns(s, w);
      GrantsWithin(s, Apply(s, w), r);
      GrantsWithin(Apply(s, w), s, r);
    }
  }

  /** The binding the super-admin command writes names one subject, which is no group. */
  predicate GrantedTo(w: Write, r: Request)
    requires w.SuperAdmin?
  {
    r.tenant == PLATFORM && r.subject == w.subject && r.subjectType == w.adminType
  }

  predicate BoundTo(row: Binding, w: Write)
    requires w.SuperAdmin?
  {
    row.tenant == PLATFORM && row.subject == w.subject && row.subjectType == w.adminType
  }

  /** Bindings of all other subjects are the same before and after. */
  ghost predicate OtherBindingsSame(m: map<Id, Binding>, n: map<Id, Binding>, w: Write)
    requires w.SuperAdmin?
  {
    && (forall b :: b in m && !BoundTo(m[b], w) ==> b in n && n[b] == m[b])
    && (forall b :: b in n && !BoundTo(n[b], w) ==> b in m && m[b] == n[b])
  }

  lemma AdminKeepsOthers(s: Store, w: Write)
    requires w.SuperAdmin?
    ensures OtherBindingsSame(s.bindings,
                              BindingsAfter(s.bindings, UpsertAdminBinding(w.roleId, w.subject, w.adminType)), w)
  {
  }

  lemma OtherBindingsSameGrants(s: Store, n: Store, w: Write, r: Request)
    requires w.SuperAdmin? && w.adminType != Group && !GrantedTo(w, r) && OtherBindingsSame(s.bindings, n.bindings, w)
    requires n.permissions == s.permissions && n.roles == s.roles && n.rolePermissions == s.rolePermissions
    requires n.groups == s.groups
    ensures Grants(n, r) == Grants(s, r)
  {
    GrantsWithin(s, n, r);
    GrantsWithin(n, s, r);
  }

  /** A super-admin grant changes no decision of any subject but the one it names. */
  lemma OnlyAdminAffected(s: Store, w: Write, r: Request)
    requires w.SuperAdmin? && w.adminType != Group && !GrantedTo(w, r)
    ensures Grants(Apply(s, w), r) == Grants(s, r)
  {
    AdminRuns(s, w);
    if Effective(s, w) {
      AdminKeepsOthers(s, w);
      OtherBindingsSameGrants(s, Apply(s, w), w, r);
    }
  }

  // ----- A blocked bootstrap stays blocked -----

  /** The condition under which BootstrapAborts says the bootstrap of `t` aborts. */
  ghost predicate Blocked(s: Store, t: string) {
    && Boot(BootRole, t) !in s.roles
    && (|| RoleConflict(s.roles, Boot(BootRole, t), OwnerRole(t))
        || (Boot(BootPermission, t) !in s.permissions
            && PermissionConflict(s.permissions, Boot(BootPermission, t), OwnerPermission(t))))
  }

  /** No write but the bootstrap of `t` itself adds its reserved rows. */
  lemma ReservedRowsStayAway(s: Store, w: Write, t: string)
    requires Good(s) && Admissible(s, w) && Blocked(s, t)
    ensures Boot(BootRole, t) !in Apply(s, w).roles
    ensures Boot(BootPermission, t) !in s.permissions ==> Boot(BootPermission, t) !in Apply(s, w).permissions
  {
    if Target(w) != t {
      WriteKeepsGood(s, w);
      WriteFrame(s, w, t);
    } else {
      OwnWritesKeepAway(s, w, t);
    }
  }

  lemma OwnWritesKeepAway(s: Store, w: Write, t: string)
    requires Good(s) && Admissible(s, w) && Blocked(s, t) && Target(w) == t
    ensures Boot(BootRole, t) !in Apply(s, w).roles
    ensures Boot(BootPermission, t) !in s.permissions ==> Boot(BootPermission, t) !in Apply(s, w).permissions
  {
    match w
    case Mutation(_, _, _, _, _) => MutationRuns(s, w);
    case SuperAdmin(_, _, _) => AdminRuns(s, w);
    case GroupChanged(_, _, _, _, _, _) =>
      Redelivery(s, w);
      if w.eventId !in s.processed { GroupRuns(s, w); }
    case TenantCreated(_, _, _) =>
      Redelivery(s, w);
      if w.eventId !in s.processed { BootstrapAborts(s, w); }
  }

  lemma ConflictsEvolve(s: Store, n: Store, t: string)
    requires Evolves(s, n) && Blocked(s, t) && Boot(BootRole, t) !in n.roles
    requires Boot(BootPermission, t) !in s.permissions ==> Boot(BootPermission, t) !in n.permissions
    ensures Blocked(n, t)
  {
    if RoleConflict(s.roles, Boot(BootRole, t), OwnerRole(t)) {
      var p :| p in s.roles && SameRoleCode(s.roles[p], OwnerRole(t));
      assert p in n.roles && SameRoleCode(n.roles[p], OwnerRole(t));
    } else {
      var p :| p in s.permissions
        && (SamePermissionCode(s.permissions[p], OwnerPermission(t))
          || SamePermissionTarget(s.permissions[p], OwnerPermission(t)));
      assert p in n.permissions;
    }
  }

  lemma BlockedStays(s: Store, w: Write, t: string)
    requires Good(s) && Admissible(s, w) && Blocked(s, t)
    ensures Blocked(Apply(s, w), t)
  {
    WriteKeepsGood(s, w);
    ReservedRowsStayAway(s, w, t);
    ConflictsEvolve(s, Apply(s, w), t);
  }

  /** A tenant that owns no permission and no role, hence no row at all. */
  ghost predicate NoRows(s: Store, t: string) {
    && (forall p :: p in s.permissions ==> s.permissions[p].tenant != t)
    && (forall p :: p in s.roles ==> s.roles[p].tenant != t)
  }

  /** End to end: on a tenant without rows, a tenant-created event gives its owner every
      permission with scope `all`, whatever the resource, the action and the attributes. */
  lemma OwnerIsAllowedEverything(cel: Cel, s: Store, w: Write, r: Request)
    requires w.TenantCreated? && Good(s) && NoRows(s, w.tenant) && w.eventId !in s.processed
    requires OwnedBy(w, r)
    ensures Effective(s, w)
    ensures FreshVerdict(cel, Apply(s, w), r) == Verdict(true, MatchingGrant, AllScope, {})
  {
    BootstrapAborts(s, w);
    BootstrapRuns(s, w);
    var n, t := Apply(s, w), w.tenant;
    NewRows(s, w);
    OneGrant(s, n, t, w.owner, r);
    var grant := Grant(AllScope, "", "");
    assert Matching(cel, r, Grants(n, r), grant);
  }

  ghost predicate OwnerRowsOnly(s: Store, n: Store, t: string, owner: string) {
    && n.permissions == s.permissions[Boot(BootPermission, t) := OwnerPermission(t)]
    && n.roles == s.roles[Boot(BootRole, t) := OwnerRole(t)]
    && n.rolePermissions == s.rolePermissions[Boot(BootRolePermission, t) := OwnerPair(t)]
    && n.bindings == s.bindings[Boot(BootBinding(owner), t) := OwnerBinding(t, owner)]
    && (forall b :: b in s.bindings ==> s.bindings[b].tenant != t)
    && (forall g :: g in s.rolePermissions ==> s.rolePermissions[g].role != Boot(BootRole, t))
  }

  lemma OneGrant(s: Store, n: Store, t: string, owner: string, r: Request)
    requires OwnerRowsOnly(s, n, t, owner)
    requires r.tenant == t && r.subject == owner && r.subjectType == Membership
    ensures Grants(n, r) == {Grant(AllScope, "", "")}
  {
    var b, g := Boot(BootBinding(owner), t), Boot(BootRolePermission, t);
    assert Joins(n, r, b, g) && GrantOf(n, r, b, g) == Grant(AllScope, "", "");
    forall x | x in Grants(n, r) ensures x == Grant(AllScope, "", "") {
      var b', g' :| b' in n.bindings && g' in n.rolePermissions && Joins(n, r, b', g') && x == GrantOf(n, r, b', g');
      assert b' == b && g' == g;
    }
  }

  lemma NewRows(s: Store, w: Write)
    requires w.TenantCreated? && Good(s) && NoRows(s, w.tenant)
    requires Effective(s, w) && BootstrapEffect(s, w, Apply(s, w))
    ensures OwnerRowsOnly(s, Apply(s, w), w.tenant, w.owner)
  {
    var t := w.tenant;
    assert forall b :: b in s.bindings ==> s.roles[s.bindings[b].role].tenant == s.bindings[b].tenant;
    assert forall g :: g in s.rolePermissions ==> s.rolePermissions[g].role in s.roles;
  }
}
