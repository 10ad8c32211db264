/** The eight mutators, each as an if-and-only-if: when it takes effect, and which store it leaves. */
module Mutators {
  import opened Schema
  import opened Text
  import opened Transactions
  import opened Access
  import opened Granting

  /** The caller may manage the tenant and is known. */
  predicate MayManage(ctx: Context, tenant: string) {
    EnforceInteractiveTenant(ctx, tenant) == None && ctx.caller.Some? && Trim(ctx.caller.value.id) != ""
  }

  /** The store with the tenant's version raised by one and announced in the outbox. */
  function Recorded(s: Store, tenant: string, subject: string, t: Option<SubjectType>, reason: string): Store {
    var version := (if tenant in s.policyVersions then s.policyVersions[tenant] else 0) + 1;
    s.(policyVersions := s.policyVersions[tenant := version],
       outbox := s.outbox + [OutboxRow(tenant, subject, t, version, reason)])
  }

  /** The store with the tables a statement leaves. */
  function TablesAfter(s: Store, st: Statement): Store {
    s.(permissions := PermissionsAfter(s.permissions, st), roles := RolesAfter(s.roles, st),
       rolePermissions := PairsAfter(s.rolePermissions, st), bindings := BindingsAfter(s.bindings, st))
  }

  lemma MutationExact(s: Store, w: Write, n: Store)
    requires w.Mutation? && ServiceStatement(w.statement)
    ensures Effective(s, w) && n == Apply(s, w) <==>
            && Rejection(s, w.statement) == None
            && n == Recorded(TablesAfter(s, w.statement), w.tenant, w.subject, w.subjectType, w.reason)
  {
    MutationRuns(s, w);
    if Rejection(s, w.statement) == None {
      ServiceStatementFrame(s, w.statement);
      assert After(s, w.statement).groups == s.groups && After(s, w.statement).processed == s.processed;
    }
  }

  // ----- What the statements do -----

  lemma PermissionInsert(s: Store, id: Id, row: Permission)
    requires row.version == 1
    ensures
      var st := InsertPermission(id, row, false);
      && (Rejection(s, st) == None <==>
          id !in s.permissions && forall p :: p in s.permissions && s.permissions[p].tenant == row.tenant ==>
            s.permissions[p].code != row.code
            && !(s.permissions[p].resourceType == row.resourceType && s.permissions[p].action == row.action))
      && (Rejection(s, st) == None ==> TablesAfter(s, st) == s.(permissions := s.permissions[id := row]))
  {
  }

  lemma PermissionUpdate(s: Store, t: string, id: Id, condition: string, status: Status, version: int)
    ensures
      var st := UpdatePermission(t, id, condition, status, version);
      && (Rejection(s, st) == None <==>
            id in s.permissions && s.permissions[id].tenant == t && s.permissions[id].version == version)
      && (Rejection(s, st) == None ==>
            TablesAfter(s, st) == s.(permissions := s.permissions[id := s.permissions[id].(
                                       condition := condition, status := status, version := version + 1)]))
  {
  }

  lemma RoleInsert(s: Store, id: Id, row: Role)
    requires row.version == 1
    ensures
      var st := InsertRole(id, row, false);
      && (Rejection(s, st) == None <==>
            id !in s.roles && forall r :: r in s.roles && s.roles[r].tenant == row.tenant ==>
                s.roles[r].code != row.code)
      && (Rejection(s, st) == None ==> TablesAfter(s, st) == s.(roles := s.roles[id := row]))
  {
  }

  lemma RoleUpdate(s: Store, t: string, id: Id, scope: DataScope, status: Status, version: int)
    ensures
      var st := UpdateRole(t, id, scope, status, version);
      && (Rejection(s, st) == None <==> id in s.roles && s.roles[id].tenant == t && s.roles[id].version == version)
      && (Rejection(s, st) == None ==>
            TablesAfter(s, st) == s.(roles := s.roles[id := s.roles[id].(
                                       scope := scope, status := status, version := version + 1)]))
  {
  }

  lemma PairInsert(s: Store, id: Id, row: RolePermission)
    requires row.version == 1 && row.role in s.roles && row.permission in s.permissions
    ensures
      var st := InsertRolePermission(id, row, false);
      && (Rejection(s, st) == None <==> id !in s.rolePermissions && forall p :: p in s.rolePermissions ==>
            !(s.rolePermissions[p].role == row.role && s.rolePermissions[p].permission == row.permission))
      && (Rejection(s, st) == None ==> TablesAfter(s, st) == s.(rolePermissions := s.rolePermissions[id := row]))
  {
  }

  lemma PairUpdate(s: Store, t: string, id: Id, status: Status, version: int)
    ensures
      var st := UpdateRolePermission(t, id, status, version);
      && (Rejection(s, st) == None <==>
            id in s.rolePermissions && s.rolePermissions[id].tenant == t && s.rolePermissions[id].version == version)
      && (Rejection(s, st) == None ==>
            TablesAfter(s, st) == s.(rolePermissions := s.rolePermissions[id := s.rolePermissions[id].(
                                       status := status, version := version + 1)]))
  {
  }

  lemma BindingInsert(s: Store, id: Id, row: Binding)
    requires row.version == 1 && row.role in s.roles
    ensures
      var st := InsertBinding(id, row, false);
      && (Rejection(s, st) == None <==> id !in s.bindings && forall b :: b in s.bindings ==>
            !(s.bindings[b].tenant == row.tenant && s.bindings[b].role == row.role
              && s.bindings[b].subject == row.subject && s.bindings[b].subjectType == row.subjectType))
      && (Rejection(s, st) == None ==> TablesAfter(s, st) == s.(bindings := s.bindings[id := row]))
  {
  }

  lemma BindingUpdate(s: Store, t: string, id: Id, status: Status, version: int)
    ensures
      var st := UpdateBinding(t, id, status, version);
      && (Rejection(s, st) == None <==>
          id in s.bindings && s.bindings[id].tenant == t && s.bindings[id].version == version)
      && (Rejection(s, st) == None ==>
            TablesAfter(s, st) == s.(bindings := s.bindings[id := s.bindings[id].(status := status,
                version := version + 1)]))
  {
  }

  // ----- The operations -----

  /** CreatePermission takes effect exactly on complete input with a compiling condition, under a
      code and a target the tenant does not use yet, and adds that one active row. */
  lemma CreatePermissionExact(ctx: Context, op: Operation, s: Store, compiles: string -> bool, n: Store)
    requires op.CreatePermission?
    ensures
      var t, code, target, action, condition :=
        Trim(op.tenant), Lower(Trim(op.code)), Lower(Trim(op.resourceType)), Lower(Trim(op.action)), Trim(op.condition);
      Performed(ctx, op, s, compiles, n) <==>
      && t != "" && code != "" && Trim(op.name) != "" && target != "" && action != ""
      && MayManage(ctx, t) && (condition == "" || compiles(condition))
      && Fresh(op.uuid) !in s.permissions
      && (forall p :: p in s.permissions && s.permissions[p].tenant == t ==>
            s.permissions[p].code != code
            && !(s.permissions[p].resourceType == target && s.permissions[p].action == action))
      && n == Recorded(
                s.(permissions := s.permissions[Fresh(op.uuid) :=
                     Permission(t, code, target, action, condition, Active, 1)]),
                t, "", None, "permission_created")
  {
    var p := Prepare(ctx, op, s, compiles);
    if p.Issue? {
      MutationExact(s, p.write, n);
      PermissionInsert(s, p.write.statement.id, p.write.statement.permission);
    }
  }

  function PermissionChange(op: Operation): Write
    requires op.ChangePermission?
  {
    Mutation(Trim(op.tenant), "", None, "permission_updated",
             UpdatePermission(Trim(op.tenant), op.id, Trim(op.condition), StatusNamed(Lower(Trim(op.status))),
                              op.version))
  }

  lemma PermissionChangeIssues(ctx: Context, op: Operation, s: Store, compiles: string -> bool)
    requires op.ChangePermission?
    ensures
      var t := Trim(op.tenant);
      Prepare(ctx, op, s, compiles).Issue? <==>
      && t != "" && Trim(op.name) != "" && op.version >= 1 && Lower(Trim(op.status)) in {"active", "disabled"}
      && (Trim(op.condition) == "" || compiles(Trim(op.condition))) && MayManage(ctx, t)
      && op.id in s.permissions && s.permissions[op.id].tenant == t
    ensures Prepare(ctx, op, s, compiles).Issue? ==> Prepare(ctx, op, s, compiles).write == PermissionChange(op)
  {
  }

  lemma PermissionChangeRuns(s: Store, op: Operation, n: Store)
    requires op.ChangePermission?
    ensures
      var t := Trim(op.tenant);
      Effective(s, PermissionChange(op)) && n == Apply(s, PermissionChange(op)) <==>
      && op.id in s.permissions && s.permissions[op.id].tenant == t && s.permissions[op.id].version == op.version
      && n == Recorded(
                s.(permissions := s.permissions[op.id := s.permissions[op.id].(
                     condition := Trim(op.condition), status := StatusNamed(Lower(Trim(op.status))),
                     version := op.version + 1)]),
                t, "", None, "permission_updated")
  {
    PermissionUpdate(s, Trim(op.tenant), op.id, Trim(op.condition), StatusNamed(Lower(Trim(op.status))), op.version);
    MutationExact(s, PermissionChange(op), n);
  }

  /** UpdatePermission takes effect exactly on the tenant's row at the named version, and stores
      the given condition and status in it. */
  lemma ChangePermissionExact(ctx: Context, op: Operation, s: Store, compiles: string -> bool, n: Store)
    requires op.ChangePermission?
    ensures
      var t, condition, status := Trim(op.tenant), Trim(op.condition), Lower(Trim(op.status));
      Performed(ctx, op, s, compiles, n) <==>
      && t != "" && Trim(op.name) != "" && op.version >= 1 && status in {"active", "disabled"}
      && (condition == "" || compiles(condition)) && MayManage(ctx, t)
      && op.id in s.permissions && s.permissions[op.id].tenant == t && s.permissions[op.id].version == op.version
      && n == Recorded(
                s.(permissions := s.permissions[op.id := s.permissions[op.id].(
                     condition := condition, status := StatusNamed(status),
                     version := op.version + 1)]),
                t, "", None, "permission_updated")
  {
    PermissionChangeIssues(ctx, op, s, compiles);
    PermissionChangeRuns(s, op, n);
  }

  function NewRole(op: Operation): Role
    requires op.CreateRole?
  {
    Role(Trim(op.tenant), Lower(Trim(op.code)), ScopeNamed(Lower(Trim(op.dataScope))), Active, 1)
  }

  function RoleCreation(op: Operation): Write
    requires op.CreateRole?
  {
    Mutation(Trim(op.tenant), "", None, "role_created", InsertRole(Fresh(op.uuid), NewRole(op), false))
  }

  lemma RoleCreationIssues(ctx: Context, op: Operation, s: Store, compiles: string -> bool)
    requires op.CreateRole?
    ensures Prepare(ctx, op, s, compiles).Issue? <==>
            && Trim(op.tenant) != "" && Lower(Trim(op.code)) != "" && Trim(op.name) != ""
            && Lower(Trim(op.dataScope)) in {"none", "self", "organization", "tenant", "all"}
            && MayManage(ctx, Trim(op.tenant))
    ensures Prepare(ctx, op, s, compiles).Issue? ==> Prepare(ctx, op, s, compiles).write == RoleCreation(op)
  {
  }

  lemma RoleCreationRuns(s: Store, op: Operation, n: Store)
    requires op.CreateRole?
    ensures
      var t, row := Trim(op.tenant), NewRole(op);
      Effective(s, RoleCreation(op)) && n == Apply(s, RoleCreation(op)) <==>
      && Fresh(op.uuid) !in s.roles
      && (forall r :: r in s.roles && s.roles[r].tenant == t ==> s.roles[r].code != row.code)
      && n == Recorded(s.(roles := s.roles[Fresh(op.uuid) := row]), t, "", None, "role_created")
  {
    RoleInsert(s, Fresh(op.uuid), NewRole(op));
    MutationExact(s, RoleCreation(op), n);
  }

  /** CreateRole adds one active role with the named data scope, under a new code. */
  lemma CreateRoleExact(ctx: Context, op: Operation, s: Store, compiles: string -> bool, n: Store)
    requires op.CreateRole?
    ensures
      var t, code, name := Trim(op.tenant), Lower(Trim(op.code)), Lower(Trim(op.dataScope));
      Performed(ctx, op, s, compiles, n) <==>
      && t != "" && code != "" && Trim(op.name) != "" && name in {"none", "self", "organization", "tenant", "all"}
      && MayManage(ctx, t) && Fresh(op.uuid) !in s.roles
      && (forall r :: r in s.roles && s.roles[r].tenant == t ==> s.roles[r].code != code)
      && n == Recorded(s.(roles := s.roles[Fresh(op.uuid) := Role(t, code, ScopeNamed(name), Active, 1)]),
                       t, "", None, "role_created")
  {
    RoleCreationIssues(ctx, op, s, compiles);
    RoleCreationRuns(s, op, n);
  }

  /** The status a name stands for; other names are refused. */
  function StatusNamed(name: string): Status {
    if name == "active" then Active else Disabled
  }

  /** The scope a name stands for; other names are refused. */
  function ScopeNamed(name: string): DataScope {
    if name == "self" then SelfScope
    else if name == "organization" then OrganizationScope
    else if name == "tenant" then TenantScope
    else if name == "all" then AllScope
    else NoScope
  }

  function RoleChange(op: Operation): Write
    requires op.ChangeRole?
  {
    Mutation(Trim(op.tenant), "", None, "role_updated",
             UpdateRole(Trim(op.tenant), op.id, ScopeNamed(op.dataScope), StatusNamed(op.status), op.version))
  }

  lemma RoleChangeIssues(ctx: Context, op: Operation, s: Store, compiles: string -> bool)
    requires op.ChangeRole?
    ensures
      var t := Trim(op.tenant);
      Prepare(ctx, op, s, compiles).Issue? <==>
      && t != "" && Trim(op.name) != "" && op.version >= 1 && op.status in {"active", "disabled"}
      && op.dataScope in {"none", "self", "organization", "tenant", "all"} && MayManage(ctx, t)
      && op.id in s.roles && s.roles[op.id].tenant == t
    ensures Prepare(ctx, op, s, compiles).Issue? ==> Prepare(ctx, op, s, compiles).write == RoleChange(op)
  {
  }

  lemma RoleChangeRuns(s: Store, op: Operation, n: Store)
    requires op.ChangeRole?
    ensures
      var t := Trim(op.tenant);
      Effective(s, RoleChange(op)) && n == Apply(s, RoleChange(op)) <==>
      && op.id in s.roles && s.roles[op.id].tenant == t && s.roles[op.id].version == op.version
      && n == Recorded(
                s.(roles := s.roles[op.id := s.roles[op.id].(
                     scope := ScopeNamed(op.dataScope), status := StatusNamed(op.status), version := op.version + 1)]),
                t, "", None, "role_updated")
  {
    RoleUpdate(s, Trim(op.tenant), op.id, ScopeNamed(op.dataScope), StatusNamed(op.status), op.version);
    MutationExact(s, RoleChange(op), n);
  }

  /** UpdateRole takes effect exactly on the tenant's row at the named version, and stores the
      given scope and status in it. Scope and status are taken as they are, not normalised. */
  lemma ChangeRoleExact(ctx: Context, op: Operation, s: Store, compiles: string -> bool, n: Store)
    requires op.ChangeRole?
    ensures
      var t := Trim(op.tenant);
      Performed(ctx, op, s, compiles, n) <==>
      && t != "" && Trim(op.name) != "" && op.version >= 1 && op.status in {"active", "disabled"}
      && op.dataScope in {"none", "self", "organization", "tenant", "all"} && MayManage(ctx, t)
      && op.id in s.roles && s.roles[op.id].tenant == t && s.roles[op.id].version == op.version
      && n == Recorded(
                s.(roles := s.roles[op.id := s.roles[op.id].(
                     scope := ScopeNamed(op.dataScope), status := StatusNamed(op.status),
                     version := op.version + 1)]),
                t, "", None, "role_updated")
  {
    RoleChangeIssues(ctx, op, s, compiles);
    RoleChangeRuns(s, op, n);
  }

  ghost predicate PairRow(s: Store, op: Operation, id: Id)
    requires op.GrantRolePermission?
  {
    && id in s.rolePermissions && s.rolePermissions[id].tenant == op.tenant
    && s.rolePermissions[id].role == op.roleId && s.rolePermissions[id].permission == op.permissionId
  }

  ghost predicate MayGrant(ctx: Context, op: Operation, s: Store)
    requires op.GrantRolePermission?
  {
    && op.tenant != "" && MayManage(ctx, op.tenant)
    && op.roleId in s.roles && s.roles[op.roleId].tenant == op.tenant
    && op.permissionId in s.permissions && s.permissions[op.permissionId].tenant == op.tenant
  }

  /** GrantRolePermission on a pair without a row adds an active one. */
  lemma NewGrantExact(ctx: Context, op: Operation, s: Store, compiles: string -> bool, n: Store)
    requires op.GrantRolePermission? && Good(s) && !exists id :: PairRow(s, op, id)
    ensures Performed(ctx, op, s, compiles, n) <==>
            && MayGrant(ctx, op, s) && Fresh(op.uuid) !in s.rolePermissions
            && n == Recorded(
                      s.(rolePermissions := s.rolePermissions[Fresh(op.uuid) :=
                           RolePermission(op.tenant, op.roleId, op.permissionId, Active, 1)]),
                      op.tenant, "", None, "role_permission_granted")
  {
    var p := Prepare(ctx, op, s, compiles);
    assert forall id :: IsPair(s, op.tenant, op.roleId, op.permissionId, id) <==> PairRow(s, op, id);
    if p.Issue? {
      MutationExact(s, p.write, n);
      PairInsert(s, p.write.statement.id, p.write.statement.rolePermission);
      NoOtherPair(s, op);
    }
  }

  /** In a good store a row of the pair carries the tenant of its role. */
  lemma NoOtherPair(s: Store, op: Operation)
    requires op.GrantRolePermission? && Good(s) && op.roleId in s.roles && s.roles[op.roleId].tenant == op.tenant
    ensures forall id :: id in s.rolePermissions ==>
              (s.rolePermissions[id].role == op.roleId && s.rolePermissions[id].permission == op.permissionId ==>
                 PairRow(s, op, id))
  {
    assert forall id :: id in s.rolePermissions ==> PairIsolated(s.rolePermissions[id], s.roles, s.permissions);
  }

  function Revival(s: Store, op: Operation, id: Id): Write
    requires op.GrantRolePermission? && id in s.rolePermissions
  {
    Mutation(op.tenant, "", None, "role_permission_granted",
             UpdateRolePermission(op.tenant, id, Active, s.rolePermissions[id].version))
  }

  lemma RevivalIssues(ctx: Context, op: Operation, s: Store, compiles: string -> bool, id: Id)
    requires op.GrantRolePermission? && Good(s) && PairRow(s, op, id)
    ensures Prepare(ctx, op, s, compiles).Issue? <==> MayGrant(ctx, op, s) && s.rolePermissions[id].status != Active
    ensures Prepare(ctx, op, s, compiles).Issue? ==> Prepare(ctx, op, s, compiles).write == Revival(s, op, id)
  {
    assert IsPair(s, op.tenant, op.roleId, op.permissionId, id);
    forall other | IsPair(s, op.tenant, op.roleId, op.permissionId, other) ensures other == id {
      assert SamePair(s.rolePermissions[other], s.rolePermissions[id]);
    }
  }

  lemma RevivalRuns(s: Store, op: Operation, id: Id, n: Store)
    requires op.GrantRolePermission? && PairRow(s, op, id)
    ensures Effective(s, Revival(s, op, id)) && n == Apply(s, Revival(s, op, id)) <==>
            n == Recorded(
                   s.(rolePermissions := s.rolePermissions[id := s.rolePermissions[id].(
                        status := Active, version := s.rolePermissions[id].version + 1)]),
                   op.tenant, "", None, "role_permission_granted")
  {
    PairUpdate(s, op.tenant, id, Active, s.rolePermissions[id].version);
    MutationExact(s, Revival(s, op, id), n);
  }

  /** GrantRolePermission on a pair with a row revives that row if it is inactive, and does
      nothing if it is active. */
  lemma RevivingGrantExact(ctx: Context, op: Operation, s: Store, compiles: string -> bool, n: Store, id: Id)
    requires op.GrantRolePermission? && Good(s) && PairRow(s, op, id)
    ensures Performed(ctx, op, s, compiles, n) <==>
            && MayGrant(ctx, op, s) && s.rolePermissions[id].status != Active
            && n == Recorded(
                      s.(rolePermissions := s.rolePermissions[id := s.rolePermissions[id].(
                           status := Active, version := s.rolePermissions[id].version + 1)]),
                      op.tenant, "", None, "role_permission_granted")
  {
    RevivalIssues(ctx, op, s, compiles, id);
    if Prepare(ctx, op, s, compiles).Issue? {
      RevivalRuns(s, op, id, n);
    }
  }

  function Revocation(op: Operation): Write
    requires op.RevokeRolePermission?
  {
    Mutation(Trim(op.tenant), "", None, "role_permission_revoked",
             UpdateRolePermission(Trim(op.tenant), op.id, Revoked, op.version))
  }

  lemma RevocationIssues(ctx: Context, op: Operation, s: Store, compiles: string -> bool)
    requires op.RevokeRolePermission?
    ensures Prepare(ctx, op, s, compiles).Issue? <==>
            MayManage(ctx, Trim(op.tenant)) && op.id in s.rolePermissions
              && s.rolePermissions[op.id].tenant == Trim(op.tenant)
    ensures Prepare(ctx, op, s, compiles).Issue? ==> Prepare(ctx, op, s, compiles).write == Revocation(op)
  {
  }

  /** RevokeRolePermission takes effect exactly on the tenant's row at the named version. */
  lemma RevokePairExact(ctx: Context, op: Operation, s: Store, compiles: string -> bool, n: Store)
    requires op.RevokeRolePermission?
    ensures
      var t := Trim(op.tenant);
      Performed(ctx, op, s, compiles, n) <==>
      && MayManage(ctx, t) && op.id in s.rolePermissions && s.rolePermissions[op.id].tenant == t
      && s.rolePermissions[op.id].version == op.version
      && n == Recorded(
                s.(rolePermissions := s.rolePermissions[op.id := s.rolePermissions[op.id].(
                     status := Revoked, version := s.rolePermissions[op.id].version + 1)]),
                t, "", None, "role_permission_revoked")
  {
    RevocationIssues(ctx, op, s, compiles);
    PairUpdate(s, Trim(op.tenant), op.id, Revoked, op.version);
    if Prepare(ctx, op, s, compiles).Issue? {
      MutationExact(s, Revocation(op), n);
    }
  }

  /** The subject types a tenant may bind, by name. */
  predicate Bindable(tenant: string, name: string) {
    if Trim(tenant) == "__platform__" then name in {"user", "service_account"}
    else name in {"membership", "group", "service_account"}
  }

  function TypeNamed(name: string): SubjectType {
    if name == "membership" then Membership
    else if name == "group" then Group
    else if name == "user" then User
    else ServiceAccount
  }

  function NewBinding(op: Operation): Binding
    requires op.CreateBinding?
  {
    Binding(op.tenant, op.subject, TypeNamed(Lower(Trim(op.subjectType))), op.roleId, op.unit, Active, 1)
  }

  function BindingCreation(op: Operation): Write
    requires op.CreateBinding?
  {
    Mutation(op.tenant, op.subject, Some(TypeNamed(Lower(Trim(op.subjectType)))), "binding_created",
             InsertBinding(Fresh(op.uuid), NewBinding(op), false))
  }

  lemma BindingIssues(ctx: Context, op: Operation, s: Store, compiles: string -> bool)
    requires op.CreateBinding?
    ensures Prepare(ctx, op, s, compiles).Issue? <==>
            && op.tenant != "" && op.subject != "" && Bindable(op.tenant, Lower(Trim(op.subjectType)))
            && MayManage(ctx, op.tenant) && op.roleId in s.roles && s.roles[op.roleId].tenant == op.tenant
    ensures Prepare(ctx, op, s, compiles).Issue? ==> Prepare(ctx, op, s, compiles).write == BindingCreation(op)
  {
  }

  /** CreateBinding binds the subject to a role of the tenant, once. */
  lemma CreateBindingExact(ctx: Context, op: Operation, s: Store, compiles: string -> bool, n: Store)
    requires op.CreateBinding?
    ensures
      var name := Lower(Trim(op.subjectType));
      Performed(ctx, op, s, compiles, n) <==>
      && op.tenant != "" && op.subject != "" && Bindable(op.tenant, name) && MayManage(ctx, op.tenant)
      && op.roleId in s.roles && s.roles[op.roleId].tenant == op.tenant && Fresh(op.uuid) !in s.bindings
      && (forall b :: b in s.bindings && s.bindings[b].tenant == op.tenant && s.bindings[b].role == op.roleId ==>
            !(s.bindings[b].subject == op.subject && s.bindings[b].subjectType == TypeNamed(name)))
      && n == Recorded(
                s.(bindings := s.bindings[Fresh(op.uuid) :=
                     Binding(op.tenant, op.subject, TypeNamed(name), op.roleId, op.unit, Active, 1)]),
                op.tenant, op.subject, Some(TypeNamed(name)), "binding_created")
  {
    BindingIssues(ctx, op, s, compiles);
    if Prepare(ctx, op, s, compiles).Issue? {
      BindingInsert(s, Fresh(op.uuid), NewBinding(op));
      MutationExact(s, BindingCreation(op), n);
    }
  }

  /** RevokeBinding takes effect exactly on the tenant's row at the named version. */
  lemma RevokeBindingExact(ctx: Context, op: Operation, s: Store, compiles: string -> bool, n: Store)
    requires op.RevokeBinding?
    ensures Performed(ctx, op, s, compiles, n) <==>
            && MayManage(ctx, op.tenant) && op.id in s.bindings && s.bindings[op.id].tenant == op.tenant
            && s.bindings[op.id].version == op.version
            && var row := s.bindings[op.id];
               n == Recorded(
                      s.(bindings := s.bindings[op.id := row.(status := Revoked, version := row.version + 1)]),
                      op.tenant, row.subject, Some(row.subjectType), "binding_revoked")
  {
    var p := Prepare(ctx, op, s, compiles);
    if p.Issue? {
      MutationExact(s, p.write, n);
      var st := p.write.statement;
      BindingUpdate(s, st.tenant, st.id, st.status, st.version);
    }
  }
}
