/** The authorization tables as values, and the request and decision types. */
module Schema {

  datatype Option<+T> = None | Some(value: T)

  datatype SubjectType = Membership | ServiceAccount | Group | User

  datatype DataScope = NoScope | SelfScope | OrganizationScope | TenantScope | AllScope

  datatype Status = Active | Disabled | Revoked | Removed

  datatype BootKind = BootPermission | BootRole | BootRolePermission | BootBinding(membership: string)

  /** Row identifiers: random UUIDs, the name-based UUIDs of tenant bootstrap and of
      the super-admin command, and the literal ids written by the migrations. */
  datatype Id =
    | Fresh(n: nat)
    | Boot(kind: BootKind, tenant: string)
    | AdminBinding(subjectType: SubjectType, subject: string, role: Id)
    | Seed(kind: BootKind)

  // The display columns (name, description) are left out: nothing reads them.

  datatype Permission = Permission(tenant: string, code: string, resourceType: string, action: string,
                                   condition: string, status: Status, version: nat)

  datatype Role = Role(tenant: string, code: string, scope: DataScope, status: Status, version: nat)

  datatype RolePermission = RolePermission(tenant: string, role: Id, permission: Id, status: Status, version: nat)

  /** `unit` is "" where the column is NULL. */
  datatype Binding = Binding(tenant: string, subject: string, subjectType: SubjectType, role: Id,
                             unit: string, status: Status, version: nat)

  datatype GroupKey = GroupKey(tenant: string, membership: string, group: string)

  datatype GroupRow = GroupRow(status: Status, occurredAt: int, version: nat)

  datatype OutboxRow = OutboxRow(tenant: string, subject: string, subjectType: Option<SubjectType>,
                                 policyVersion: nat, reason: string)

  datatype Store = Store(
    permissions: map<Id, Permission>,
    roles: map<Id, Role>,
    rolePermissions: map<Id, RolePermission>,
    bindings: map<Id, Binding>,
    groups: map<GroupKey, GroupRow>,
    policyVersions: map<string, nat>,
    processed: set<string>,
    outbox: seq<OutboxRow>)

  /** The stored policy version, 0 when the tenant has no row. */
  function PolicyVersion(s: Store, tenant: string): nat {
    if tenant in s.policyVersions then s.policyVersions[tenant] else 0
  }

  const PLATFORM: string := "__platform__"

  /** One authorization check. */
  datatype Request = Request(tenant: string, subject: string, subjectType: SubjectType, resourceType: string,
                             resource: string, action: string, attributes: map<string, string>)

  predicate ValidRequest(r: Request) {
    r.tenant != "" && r.subject != "" && r.resourceType != "" && r.action != ""
  }

  // ----- Invariants every writer keeps -----

  ghost predicate BindingsIsolated(bindings: map<Id, Binding>, roles: map<Id, Role>) {
    forall b :: b in bindings ==> bindings[b].role in roles && roles[bindings[b].role].tenant == bindings[b].tenant
  }

  ghost predicate PairIsolated(row: RolePermission, roles: map<Id, Role>, permissions: map<Id, Permission>) {
    && row.role in roles && roles[row.role].tenant == row.tenant
    && row.permission in permissions && permissions[row.permission].tenant == row.tenant
  }

  ghost predicate PairsIsolated(pairs: map<Id, RolePermission>, roles: map<Id, Role>,
                                permissions: map<Id, Permission>) {
    forall g :: g in pairs ==> PairIsolated(pairs[g], roles, permissions)
  }

  /** The tenant columns of joined rows agree. The join itself does not check this. */
  ghost predicate Isolated(s: Store) {
    BindingsIsolated(s.bindings, s.roles) && PairsIsolated(s.rolePermissions, s.roles, s.permissions)
  }

  predicate SamePermissionCode(p: Permission, q: Permission) {
    p.tenant == q.tenant && p.code == q.code
  }

  predicate SamePermissionTarget(p: Permission, q: Permission) {
    p.tenant == q.tenant && p.resourceType == q.resourceType && p.action == q.action
  }

  predicate SameRoleCode(p: Role, q: Role) {
    p.tenant == q.tenant && p.code == q.code
  }

  predicate SamePair(p: RolePermission, q: RolePermission) {
    p.role == q.role && p.permission == q.permission
  }

  predicate SameAssignment(p: Binding, q: Binding) {
    p.tenant == q.tenant && p.subjectType == q.subjectType && p.subject == q.subject && p.role == q.role
  }

  ghost predicate UniquePermissions(m: map<Id, Permission>) {
    forall p, q :: p in m && q in m && p != q ==> !SamePermissionCode(m[p], m[q]) && !SamePermissionTarget(m[p], m[q])
  }

  ghost predicate UniqueRoles(m: map<Id, Role>) {
    forall p, q :: p in m && q in m && p != q ==> !SameRoleCode(m[p], m[q])
  }

  ghost predicate UniquePairs(m: map<Id, RolePermission>) {
    forall p, q :: p in m && q in m && p != q ==> !SamePair(m[p], m[q])
  }

  ghost predicate UniqueBindings(m: map<Id, Binding>) {
    forall p, q :: p in m && q in m && p != q ==> !SameAssignment(m[p], m[q])
  }

  /** The unique indexes. */
  ghost predicate UniqueKeys(s: Store) {
    UniquePermissions(s.permissions) && UniqueRoles(s.roles) && UniquePairs(s.rolePermissions)
      && UniqueBindings(s.bindings)
  }

  /** Rows with a bootstrap id belong to the tenant the id names. */
  ghost predicate PermissionsNamed(m: map<Id, Permission>) {
    forall t :: Boot(BootPermission, t) in m ==> m[Boot(BootPermission, t)].tenant == t
  }

  ghost predicate RolesNamed(m: map<Id, Role>) {
    forall t :: Boot(BootRole, t) in m ==> m[Boot(BootRole, t)].tenant == t
  }

  ghost predicate PairsNamed(m: map<Id, RolePermission>) {
    forall t :: Boot(BootRolePermission, t) in m ==>
      m[Boot(BootRolePermission, t)].role == Boot(BootRole, t)
      && m[Boot(BootRolePermission, t)].permission == Boot(BootPermission, t)
  }

  ghost predicate BindingsNamed(m: map<Id, Binding>) {
    forall t, owner :: Boot(BootBinding(owner), t) in m ==> m[Boot(BootBinding(owner), t)].tenant == t
  }

  /** A row with a super-admin id is the binding the id names. */
  ghost predicate AdminsNamed(m: map<Id, Binding>) {
    forall t, subject, role :: AdminBinding(t, subject, role) in m ==>
      var row := m[AdminBinding(t, subject, role)];
      row.tenant == PLATFORM && row.subject == subject && row.subjectType == t && row.role == role
  }

  ghost predicate BootNamed(s: Store) {
    && PermissionsNamed(s.permissions) && RolesNamed(s.roles) && PairsNamed(s.rolePermissions)
    && BindingsNamed(s.bindings) && AdminsNamed(s.bindings)
  }

  /** A bootstrap role never exists without its role permission. */
  ghost predicate BootClosed(s: Store) {
    forall t :: Boot(BootRole, t) in s.roles ==> Boot(BootRolePermission, t) in s.rolePermissions
  }

  /** What every single statement keeps, and what every transaction keeps. */
  ghost predicate Sane(s: Store) {
    Isolated(s) && UniqueKeys(s) && BootNamed(s)
  }

  ghost predicate Good(s: Store) {
    Sane(s) && BootClosed(s)
  }
}
