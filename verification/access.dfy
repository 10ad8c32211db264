/** Who may change what: interactive tenant confinement and the service mutators, each as
    the transaction it issues after its checks on a snapshot of the store. */
module Access {
  import opened Schema
  import opened Text
  import opened Transactions

  datatype PrincipalType = UserPrincipal | ServiceAccountPrincipal | SystemPrincipal

  datatype Principal = Principal(id: string, kind: PrincipalType, tenant: string, membership: string)

  /** The request context: the caller, and the tenant fixed by AuthorizeUserManagementScope. */
  datatype Context = Context(authorizedTenant: Option<string>, caller: Option<Principal>)

  datatype AccessError = Unauthorized | Forbidden | InvalidInput | NotFound | Internal

  predicate HasActor(ctx: Context) {
    ctx.caller.Some? && Trim(ctx.caller.value.id) != ""
  }

  /** enforceInteractiveTenant; None means the target is permitted. */
  function EnforceInteractiveTenant(ctx: Context, target: string): Option<AccessError> {
    if ctx.authorizedTenant.Some? then
      if Trim(target) == ctx.authorizedTenant.value then None else Some(Forbidden)
    else if !HasActor(ctx) then Some(Unauthorized)
    else if ctx.caller.value.kind != UserPrincipal then None
    else if Trim(ctx.caller.value.tenant) != "" && Trim(ctx.caller.value.membership) == "" then Some(Forbidden)
    else if Trim(target) != (if Trim(ctx.caller.value.tenant) != "" then Trim(ctx.caller.value.tenant) else PLATFORM)
      then Some(Forbidden)
    else None
  }

  /** Whom the tenant check lets through, and which error the others get. */
  lemma TenantCheckExact(ctx: Context, target: string)
    ensures EnforceInteractiveTenant(ctx, target) == None <==>
            || ctx.authorizedTenant == Some(Trim(target))
            || (&& ctx.authorizedTenant == None && ctx.caller.Some?
                && var c := ctx.caller.value;
                && Trim(c.id) != ""
                && (|| c.kind == ServiceAccountPrincipal || c.kind == SystemPrincipal
                    || (Trim(c.tenant) == "" && Trim(target) == "__platform__")
                    || (Trim(c.tenant) != "" && Trim(c.membership) != "" && Trim(target) == Trim(c.tenant))))
    ensures EnforceInteractiveTenant(ctx, target) == Some(Unauthorized) <==>
            ctx.authorizedTenant == None && (ctx.caller == None || Trim(ctx.caller.value.id) == "")
    ensures EnforceInteractiveTenant(ctx, target) in {None, Some(Unauthorized), Some(Forbidden)}
  {
  }

  // ----- AuthorizeUserManagementScope -----

  datatype CheckOutcome = CheckFailed(error: AccessError) | Checked(allowed: bool)

  datatype ScopeResult = Granted(context: Context, target: string) | Denied(error: AccessError)

  /** The check to make for a management scope, or the refusal before any check. */
  datatype ScopeCheck = Ask(request: Request) | Refused(error: AccessError)

  function ManagementCheck(ctx: Context, selectedTenant: string, scopeName: string, resource: string,
                           action: string): ScopeCheck {
    var selected := Trim(selectedTenant);
    var scope := if Lower(Trim(scopeName)) == "" then "tenant" else Lower(Trim(scopeName));
    if ctx.caller == None || ctx.caller.value.kind != UserPrincipal || Trim(ctx.caller.value.membership) == ""
       || Trim(ctx.caller.value.tenant) != selected then Refused(Forbidden)
    else if scope == "platform" then Ask(Request(PLATFORM, ctx.caller.value.id, User, resource, "", action, map[]))
    else if scope == "tenant" then
      Ask(Request(selected, ctx.caller.value.membership, Membership, resource, "", action, map[]))
    else Refused(InvalidInput)
  }

  function AuthorizeUserManagementScope(ctx: Context, selectedTenant: string, scopeName: string, resource: string,
                                        action: string, check: Request -> CheckOutcome): ScopeResult {
    match ManagementCheck(ctx, selectedTenant, scopeName, resource, action)
    case Refused(error) => Denied(error)
    case Ask(r) =>
      match check(r)
      case CheckFailed(error) => Denied(error)
      case Checked(allowed) =>
        if allowed then Granted(ctx.(authorizedTenant := Some(r.tenant)), r.tenant) else Denied(Forbidden)
  }

  /** A user who has a membership in the selected tenant. */
  predicate MemberOf(ctx: Context, selectedTenant: string) {
    && ctx.caller.Some? && ctx.caller.value.kind == UserPrincipal
    && Trim(ctx.caller.value.membership) != "" && Trim(ctx.caller.value.tenant) == Trim(selectedTenant)
  }

  /** Scope "tenant", which is the default, is granted exactly to a member whose membership is
      allowed in the selected tenant, and it fixes that tenant. */
  lemma TenantScopeExact(ctx: Context, selectedTenant: string, scopeName: string, resource: string, action: string,
                         check: Request -> CheckOutcome)
    requires Lower(Trim(scopeName)) == "tenant" || Lower(Trim(scopeName)) == ""
    ensures
      var g := AuthorizeUserManagementScope(ctx, selectedTenant, scopeName, resource, action, check);
      && (g.Granted? <==>
            MemberOf(ctx, selectedTenant)
            && check(Request(Trim(selectedTenant), ctx.caller.value.membership, Membership, resource, "", action,
                             map[]))
               == Checked(true))
      && (g.Granted? ==> g == Granted(ctx.(authorizedTenant := Some(Trim(selectedTenant))), Trim(selectedTenant)))
  {
  }

  /** Scope "platform" is granted exactly to a member whose user is allowed on the platform, and
      it fixes the platform. */
  lemma PlatformScopeExact(ctx: Context, selectedTenant: string, scopeName: string, resource: string, action: string,
                           check: Request -> CheckOutcome)
    requires Lower(Trim(scopeName)) == "platform"
    ensures
      var g := AuthorizeUserManagementScope(ctx, selectedTenant, scopeName, resource, action, check);
      && (g.Granted? <==>
            MemberOf(ctx, selectedTenant)
            && check(Request("__platform__", ctx.caller.value.id, User, resource, "", action, map[])) == Checked(true))
      && (g.Granted? ==> g == Granted(ctx.(authorizedTenant := Some("__platform__")), "__platform__"))
  {
  }

  /** Any other scope is denied: as forbidden to a caller who is no member, as invalid to a
      member. Nothing is checked for it. */
  lemma OtherScopesDenied(ctx: Context, selectedTenant: string, scopeName: string, resource: string, action: string,
                          check: Request -> CheckOutcome)
    requires Lower(Trim(scopeName)) !in {"", "tenant", "platform"}
    ensures AuthorizeUserManagementScope(ctx, selectedTenant, scopeName, resource, action, check) ==
            Denied(if MemberOf(ctx, selectedTenant) then InvalidInput else Forbidden)
  {
  }

  // ----- The mutators -----

  datatype Operation =
    | CreatePermission(tenant: string, code: string, name: string, resourceType: string, action: string,
                       condition: string, uuid: nat)
    | ChangePermission(tenant: string, id: Id, name: string, condition: string, status: string, version: int)
    | CreateRole(tenant: string, code: string, name: string, description: string, dataScope: string, uuid: nat)
    | ChangeRole(tenant: string, id: Id, name: string, description: string, dataScope: string, status: string,
                 version: int)
    | GrantRolePermission(tenant: string, roleId: Id, permissionId: Id, uuid: nat)
    | RevokeRolePermission(tenant: string, id: Id, version: int)
    | CreateBinding(tenant: string, subject: string, subjectType: string, roleId: Id, unit: string, uuid: nat)
    | RevokeBinding(tenant: string, id: Id, version: int)

  function ParseDataScope(s: string): Option<DataScope> {
    if s == "none" then Some(NoScope) else if s == "self" then Some(SelfScope)
    else if s == "organization" then Some(OrganizationScope) else if s == "tenant" then Some(TenantScope)
    else if s == "all" then Some(AllScope) else None
  }

  function ParseStatus(s: string): Option<Status> {
    if s == "active" then Some(Active) else if s == "disabled" then Some(Disabled) else None
  }

  function ParseSubjectType(s: string): Option<SubjectType> {
    if s == "membership" then Some(Membership) else if s == "service_account" then Some(ServiceAccount)
    else if s == "group" then Some(Group) else if s == "user" then Some(User) else None
  }

  /** validSubjectForTenant */
  predicate ValidSubjectForTenant(tenant: string, subjectType: SubjectType) {
    if Trim(tenant) == PLATFORM then subjectType == User || subjectType == ServiceAccount
    else subjectType == Membership || subjectType == Group || subjectType == ServiceAccount
  }

  /** The result of a mutator's checks: the transaction to run, no change needed, or a refusal. */
  datatype Prepared = Issue(write: Write) | Unchanged | Refuse(error: AccessError)

  predicate HasRole(s: Store, tenant: string, id: Id) {
    id in s.roles && s.roles[id].tenant == tenant
  }

  predicate HasPermission(s: Store, tenant: string, id: Id) {
    id in s.permissions && s.permissions[id].tenant == tenant
  }

  ghost predicate IsPair(s: Store, tenant: string, roleId: Id, permissionId: Id, id: Id) {
    id in s.rolePermissions && s.rolePermissions[id].tenant == tenant
    && s.rolePermissions[id].role == roleId && s.rolePermissions[id].permission == permissionId
  }

  /** What a mutator has checked, on the snapshot it read, when it issues a transaction. */
  ghost predicate Cleared(ctx: Context, s: Store, w: Write) {
    && w.Mutation? && ServiceStatement(w.statement) && OnTenant(w.statement, w.tenant)
    && EnforceInteractiveTenant(ctx, w.tenant) == None && HasActor(ctx)
    && match w.statement
       case InsertPermission(_, row, _) =>
         Trimmed(w.tenant) && Lower(row.resourceType) == row.resourceType && Lower(row.action) == row.action
       case UpdatePermission(t, id, _, _, _) => HasPermission(s, t, id)
       case InsertRole(_, _, _) => Trimmed(w.tenant)
       case UpdateRole(t, id, _, _, _) => HasRole(s, t, id)
       case InsertRolePermission(_, row, _) => HasRole(s, row.tenant, row.role)
         && HasPermission(s, row.tenant, row.permission)
       case UpdateRolePermission(t, id, _, _) => id in s.rolePermissions && s.rolePermissions[id].tenant == t
       case InsertBinding(_, row, _) => HasRole(s, row.tenant, row.role)
       case UpdateBinding(t, id, _, _) => id in s.bindings && s.bindings[id].tenant == t
       case _ => false
  }

  /** The last check of every mutator: an actor is known. */
  function IfActor(ctx: Context, write: Write): Prepared {
    if HasActor(ctx) then Issue(write) else Refuse(Unauthorized)
  }

  ghost function PrepareCreatePermission(ctx: Context, op: Operation, s: Store, compiles: string -> bool): (p: Prepared)
    requires op.CreatePermission?
    ensures p.Issue? ==> Cleared(ctx, s, p.write)
  {
    TrimLaws(op.tenant);
    LowerLaws(Trim(op.resourceType));
    LowerLaws(Trim(op.action));
    var t, rt, act, code := Trim(op.tenant), Lower(Trim(op.resourceType)), Lower(Trim(op.action)), Lower(Trim(op.code));
    var refusal := EnforceInteractiveTenant(ctx, t);
    if t == "" || code == "" || Trim(op.name) == "" || rt == "" || act == "" then Refuse(InvalidInput)
    else if refusal.Some? then Refuse(refusal.value)
    else if Trim(op.condition) != "" && !compiles(Trim(op.condition)) then Refuse(InvalidInput)
    else
      var row := Permission(t, code, rt, act, Trim(op.condition), Active, 1);
      IfActor(ctx, Mutation(t, "", None, "permission_created", InsertPermission(Fresh(op.uuid), row, false)))
  }

  ghost function PrepareChangePermission(ctx: Context, op: Operation, s: Store, compiles: string -> bool): (p: Prepared)
    requires op.ChangePermission?
    ensures p.Issue? ==> Cleared(ctx, s, p.write)
  {
    var t, status := Trim(op.tenant), ParseStatus(Lower(Trim(op.status)));
    var refusal := EnforceInteractiveTenant(ctx, t);
    if t == "" || Trim(op.name) == "" || op.version < 1 || status == None then Refuse(InvalidInput)
    else if Trim(op.condition) != "" && !compiles(Trim(op.condition)) then Refuse(InvalidInput)
    else if refusal.Some? then Refuse(refusal.value)
    else if !HasPermission(s, t, op.id) then Refuse(NotFound)
    else
      var st := UpdatePermission(t, op.id, Trim(op.condition), status.value, op.version);
      IfActor(ctx, Mutation(t, "", None, "permission_updated", st))
  }

  ghost function PrepareCreateRole(ctx: Context, op: Operation, s: Store): (p: Prepared)
    requires op.CreateRole?
    ensures p.Issue? ==> Cleared(ctx, s, p.write)
  {
    TrimLaws(op.tenant);
    var t, scope, code := Trim(op.tenant), ParseDataScope(Lower(Trim(op.dataScope))), Lower(Trim(op.code));
    var refusal := EnforceInteractiveTenant(ctx, t);
    if t == "" || code == "" || Trim(op.name) == "" || scope == None then Refuse(InvalidInput)
    else if refusal.Some? then Refuse(refusal.value)
    else
      var row := Role(t, code, scope.value, Active, 1);
      IfActor(ctx, Mutation(t, "", None, "role_created", InsertRole(Fresh(op.uuid), row, false)))
  }

  ghost function PrepareChangeRole(ctx: Context, op: Operation, s: Store): (p: Prepared)
    requires op.ChangeRole?
    ensures p.Issue? ==> Cleared(ctx, s, p.write)
  {
    var t, scope, status := Trim(op.tenant), ParseDataScope(op.dataScope), ParseStatus(op.status);
    var refusal := EnforceInteractiveTenant(ctx, t);
    if t == "" || Trim(op.name) == "" || op.version < 1 || scope == None || status == None then Refuse(InvalidInput)
    else if refusal.Some? then Refuse(refusal.value)
    else if !HasRole(s, t, op.id) then Refuse(NotFound)
    else
      var st := UpdateRole(t, op.id, scope.value, status.value, op.version);
      IfActor(ctx, Mutation(t, "", None, "role_updated", st))
  }

  /** The statement activates the requested pair of the tenant's role and permission: it inserts
      the pair where none exists, or revives the inactive row of the pair. */
  ghost predicate GrantsPair(s: Store, op: Operation, st: Statement)
    requires op.GrantRolePermission?
  {
    && HasRole(s, op.tenant, op.roleId) && HasPermission(s, op.tenant, op.permissionId)
    && match st
       case InsertRolePermission(_, row, _) =>
         && row.tenant == op.tenant && row.role == op.roleId && row.permission == op.permissionId
         && row.status == Active
         && !exists id :: IsPair(s, op.tenant, op.roleId, op.permissionId, id)
       case UpdateRolePermission(t, id, status, version) =>
         && t == op.tenant && IsPair(s, t, op.roleId, op.permissionId, id) && status == Active
         && s.rolePermissions[id].status != Active && version == s.rolePermissions[id].version
       case _ => false
  }

  /** An existing revoked pair is revived in place, an active one needs no change. */
  ghost function PrepareGrant(ctx: Context, op: Operation, s: Store): (p: Prepared)
    requires op.GrantRolePermission?
    ensures p.Issue? ==> Cleared(ctx, s, p.write) && GrantsPair(s, op, p.write.statement)
    ensures p == Unchanged ==>
              exists id :: IsPair(s, op.tenant, op.roleId, op.permissionId, id)
                && s.rolePermissions[id].status == Active
  {
    var t, refusal := op.tenant, EnforceInteractiveTenant(ctx, op.tenant);
    if !HasRole(s, t, op.roleId) || !HasPermission(s, t, op.permissionId) then Refuse(NotFound)
    else if t == "" then Refuse(InvalidInput)
    else if refusal.Some? then Refuse(refusal.value)
    else if exists id :: IsPair(s, t, op.roleId, op.permissionId, id) then
      var id :| IsPair(s, t, op.roleId, op.permissionId, id);
      var st := UpdateRolePermission(t, id, Active, s.rolePermissions[id].version);
      if s.rolePermissions[id].status == Active then Unchanged
      else IfActor(ctx, Mutation(t, "", None, "role_permission_granted", st))
    else
      var row := RolePermission(t, op.roleId, op.permissionId, Active, 1);
      IfActor(ctx, Mutation(t, "", None, "role_permission_granted", InsertRolePermission(Fresh(op.uuid), row, false)))
  }

  ghost function PrepareRevoke(ctx: Context, op: Operation, s: Store): (p: Prepared)
    requires op.RevokeRolePermission?
    ensures p.Issue? ==> Cleared(ctx, s, p.write)
  {
    var t, refusal := Trim(op.tenant), EnforceInteractiveTenant(ctx, Trim(op.tenant));
    if refusal.Some? then Refuse(refusal.value)
    else if !(op.id in s.rolePermissions && s.rolePermissions[op.id].tenant == t) then Refuse(NotFound)
    else
      IfActor(ctx, Mutation(t, "", None, "role_permission_revoked",
                            UpdateRolePermission(t, op.id, Revoked, op.version)))
  }

  ghost function PrepareCreateBinding(ctx: Context, op: Operation, s: Store): (p: Prepared)
    requires op.CreateBinding?
    ensures p.Issue? ==> Cleared(ctx, s, p.write)
  {
    var t, kind := op.tenant, ParseSubjectType(Lower(Trim(op.subjectType)));
    var refusal := EnforceInteractiveTenant(ctx, t);
    if !HasRole(s, t, op.roleId) then Refuse(NotFound)
    else if t == "" || op.subject == "" || kind == None
      || !ValidSubjectForTenant(t, kind.value) then Refuse(InvalidInput)
    else if refusal.Some? then Refuse(refusal.value)
    else
      var row := Binding(t, op.subject, kind.value, op.roleId, op.unit, Active, 1);
      IfActor(ctx, Mutation(t, op.subject, kind, "binding_created", InsertBinding(Fresh(op.uuid), row, false)))
  }

  ghost function PrepareRevokeBinding(ctx: Context, op: Operation, s: Store): (p: Prepared)
    requires op.RevokeBinding?
    ensures p.Issue? ==> Cleared(ctx, s, p.write)
  {
    var t, refusal := op.tenant, EnforceInteractiveTenant(ctx, op.tenant);
    if refusal.Some? then Refuse(refusal.value)
    else if !(op.id in s.bindings && s.bindings[op.id].tenant == t) then Refuse(NotFound)
    else
      IfActor(ctx, Mutation(t, s.bindings[op.id].subject, Some(s.bindings[op.id].subjectType), "binding_revoked",
                            UpdateBinding(t, op.id, Revoked, op.version)))
  }

  /** The transaction a mutator issues when it reads the store `s`. `compiles` says whether
      the CEL compiler accepts a condition. */
  ghost function Prepare(ctx: Context, op: Operation, s: Store, compiles: string -> bool): (p: Prepared)
    ensures p.Issue? ==> Cleared(ctx, s, p.write)
  {
    match op
    case CreatePermission(_, _, _, _, _, _, _) => PrepareCreatePermission(ctx, op, s, compiles)
    case ChangePermission(_, _, _, _, _, _) => PrepareChangePermission(ctx, op, s, compiles)
    case CreateRole(_, _, _, _, _, _) => PrepareCreateRole(ctx, op, s)
    case ChangeRole(_, _, _, _, _, _, _) => PrepareChangeRole(ctx, op, s)
    case GrantRolePermission(_, _, _, _) => PrepareGrant(ctx, op, s)
    case RevokeRolePermission(_, _, _) => PrepareRevoke(ctx, op, s)
    case CreateBinding(_, _, _, _, _, _) => PrepareCreateBinding(ctx, op, s)
    case RevokeBinding(_, _, _) => PrepareRevokeBinding(ctx, op, s)
  }

  /** A transaction cleared on an earlier snapshot is still admissible when it runs: the
      rows it was checked against may have changed since, but not their tenants. */
  lemma ClearedStaysAdmissible(ctx: Context, snapshot: Store, s: Store, w: Write)
    requires Cleared(ctx, snapshot, w) && Evolves(snapshot, s)
    ensures Admissible(s, w)
  {
  }

  /** Every row belongs to a tenant whose name is trimmed. */
  ghost predicate Tidy(s: Store) {
    && (forall p :: p in s.permissions ==> Trimmed(s.permissions[p].tenant))
    && (forall p :: p in s.roles ==> Trimmed(s.roles[p].tenant))
  }

  lemma WriteKeepsTidy(s: Store, w: Write)
    requires Tidy(s) && Trimmed(Target(w)) && (w.Mutation? ==> OnTenant(w.statement, w.tenant))
    ensures Tidy(Apply(s, w))
  {
    var n := Apply(s, w);
    forall p | p in n.permissions ensures Trimmed(n.permissions[p].tenant) {
      if n.permissions[p].tenant != Target(w) {
        WriteFrame(s, w, n.permissions[p].tenant);
      }
    }
    forall p | p in n.roles ensures Trimmed(n.roles[p].tenant) {
      if n.roles[p].tenant != Target(w) {
        WriteFrame(s, w, n.roles[p].tenant);
      }
    }
  }

  /** The one tenant an interactive context may manage. */
  function ManagedTenant(ctx: Context): string
    requires ctx.authorizedTenant.Some? || ctx.caller.Some?
  {
    if ctx.authorizedTenant.Some? then ctx.authorizedTenant.value
    else if Trim(ctx.caller.value.tenant) != "" then Trim(ctx.caller.value.tenant)
    else PLATFORM
  }

  predicate Interactive(ctx: Context) {
    ctx.authorizedTenant.Some? || (ctx.caller.Some? && ctx.caller.value.kind == UserPrincipal)
  }

  lemma ClearedTenant(ctx: Context, s: Store, w: Write)
    requires Cleared(ctx, s, w) && Tidy(s) && Isolated(s)
    ensures Trimmed(w.tenant)
  {
    match w.statement
    case UpdateRolePermission(t, id, _, _) => assert PairIsolated(s.rolePermissions[id], s.roles, s.permissions);
    case _ =>
  }

  /** A granted management scope manages the caller's own tenant or the platform, and only
      after the check on that very tenant allowed the caller. */
  lemma ManagementScope(ctx: Context, selectedTenant: string, scopeName: string, resource: string, action: string,
                        check: Request -> CheckOutcome)
    requires AuthorizeUserManagementScope(ctx, selectedTenant, scopeName, resource, action, check).Granted?
    ensures
      var g := AuthorizeUserManagementScope(ctx, selectedTenant, scopeName, resource, action, check);
      && Interactive(g.context) && ManagedTenant(g.context) == g.target
      && ctx.caller.Some? && ctx.caller.value.kind == UserPrincipal
      && (g.target == Trim(ctx.caller.value.tenant) || g.target == PLATFORM)
      && exists r: Request :: r.tenant == g.target && r.resourceType == resource && r.action == action
                     && (r.subject == ctx.caller.value.id || r.subject == ctx.caller.value.membership)
                     && check(r) == Checked(true)
  {
    var r := ManagementCheck(ctx, selectedTenant, scopeName, resource, action).request;
    assert check(r) == Checked(true);
  }
}
