/** The SQL statements that change the authorization tables, and the transactions
    the service, the event projections and the bootstrap command build from them. */
module Transactions {
  import opened Schema
  import opened Resolution

  /** `lenient` marks INSERT ... ON CONFLICT DO NOTHING. */
  datatype Statement =
    | InsertPermission(id: Id, permission: Permission, lenient: bool)
    | UpdatePermission(tenant: string, id: Id, condition: string, status: Status, version: int)
    | InsertRole(id: Id, role: Role, lenient: bool)
    | UpdateRole(tenant: string, id: Id, scope: DataScope, status: Status, version: int)
    | InsertRolePermission(id: Id, rolePermission: RolePermission, lenient: bool)
    | UpdateRolePermission(tenant: string, id: Id, status: Status, version: int)
    | InsertBinding(id: Id, binding: Binding, lenient: bool)
    | UpdateBinding(tenant: string, id: Id, status: Status, version: int)
    | UpsertAdminBinding(roleId: Id, subject: string, subjectType: SubjectType)
    | UpsertGroup(key: GroupKey, status: Status, occurredAt: int)
    | MarkProcessed(eventId: string)
    | BumpPolicyVersion(tenant: string)
    | AddOutbox(tenant: string, subject: string, outboxType: Option<SubjectType>, reason: string)

  datatype DbError = UniqueViolation | ForeignKeyViolation | StaleVersion | NoSuchRole

  /** `Stop` ends the transaction early and commits it. */
  datatype StepResult = Done(store: Store) | Stop(store: Store) | Fail(error: DbError)

  const SUPER_ADMIN_ROLE: string := "platform-super-admin"

  predicate PermissionConflict(m: map<Id, Permission>, id: Id, row: Permission) {
    id in m || exists p | p in m :: SamePermissionCode(m[p], row) || SamePermissionTarget(m[p], row)
  }

  predicate RoleConflict(m: map<Id, Role>, id: Id, row: Role) {
    id in m || exists p | p in m :: SameRoleCode(m[p], row)
  }

  predicate PairConflict(m: map<Id, RolePermission>, id: Id, row: RolePermission) {
    id in m || exists p | p in m :: SamePair(m[p], row)
  }

  predicate Assigned(m: map<Id, Binding>, row: Binding) {
    exists p | p in m :: SameAssignment(m[p], row)
  }

  /** The row written by the super-admin command, which runs on the platform tenant. */
  function AdminRow(roleId: Id, subject: string, subjectType: SubjectType): Binding {
    Binding(PLATFORM, subject, subjectType, roleId, "", Active, 1)
  }

  predicate IsSuperAdminRole(m: map<Id, Role>, roleId: Id) {
    roleId in m && m[roleId].tenant == PLATFORM && m[roleId].code == SUPER_ADMIN_ROLE && m[roleId].status == Active
  }

  // The WHERE clause of the versioned updates.

  predicate PermissionAt(m: map<Id, Permission>, tenant: string, id: Id, version: int) {
    id in m && m[id].tenant == tenant && m[id].version == version
  }

  predicate RoleAt(m: map<Id, Role>, tenant: string, id: Id, version: int) {
    id in m && m[id].tenant == tenant && m[id].version == version
  }

  predicate PairAt(m: map<Id, RolePermission>, tenant: string, id: Id, version: int) {
    id in m && m[id].tenant == tenant && m[id].version == version
  }

  predicate BindingAt(m: map<Id, Binding>, tenant: string, id: Id, version: int) {
    id in m && m[id].tenant == tenant && m[id].version == version
  }

  // ----- The effect of a statement on each table -----

  function PermissionsAfter(m: map<Id, Permission>, st: Statement): map<Id, Permission> {
    match st
    case InsertPermission(id, row, _) => if PermissionConflict(m, id, row) then m else m[id := row.(version := 1)]
    case UpdatePermission(tenant, id, condition, status, version) =>
      if PermissionAt(m, tenant, id, version) then
        m[id := m[id].(condition := condition, status := status, version := m[id].version + 1)]
      else m
    case _ => m
  }

  function RolesAfter(m: map<Id, Role>, st: Statement): map<Id, Role> {
    match st
    case InsertRole(id, row, _) => if RoleConflict(m, id, row) then m else m[id := row.(version := 1)]
    case UpdateRole(tenant, id, scope, status, version) =>
      if RoleAt(m, tenant, id, version) then
        m[id := m[id].(scope := scope, status := status, version := m[id].version + 1)]
      else m
    case _ => m
  }

  function PairsAfter(m: map<Id, RolePermission>, st: Statement): map<Id, RolePermission> {
    match st
    case InsertRolePermission(id, row, _) => if PairConflict(m, id, row) then m else m[id := row.(version := 1)]
    case UpdateRolePermission(tenant, id, status, version) =>
      if PairAt(m, tenant, id, version) then m[id := m[id].(status := status, version := m[id].version + 1)] else m
    case _ => m
  }

  function BindingsAfter(m: map<Id, Binding>, st: Statement): map<Id, Binding> {
    match st
    case InsertBinding(id, row, _) => if id in m || Assigned(m, row) then m else m[id := row.(version := 1)]
    case UpdateBinding(tenant, id, status, version) =>
      if BindingAt(m, tenant, id, version) then m[id := m[id].(status := status, version := m[id].version + 1)] else m
    case UpsertAdminBinding(roleId, subject, subjectType) =>
      var row := AdminRow(roleId, subject, subjectType);
      if Assigned(m, row) then
        map b | b in m ::
          if SameAssignment(m[b], row) then m[b].(status := Active, version := m[b].version + 1) else m[b]
      else if AdminBinding(subjectType, subject, roleId) in m then m
      else m[AdminBinding(subjectType, subject, roleId) := row]
    case _ => m
  }

  /** PostgreSQL: ON CONFLICT DO UPDATE ... WHERE EXCLUDED.source_occurred_at >= source_occurred_at. */
  function UpsertedGroup(current: Option<GroupRow>, status: Status, occurredAt: int): GroupRow {
    match current
    case None => GroupRow(status, occurredAt, 1)
    case Some(row) => if occurredAt >= row.occurredAt then GroupRow(status, occurredAt, row.version + 1) else row
  }

  function GroupRowOf(m: map<GroupKey, GroupRow>, key: GroupKey): Option<GroupRow> {
    if key in m then Some(m[key]) else None
  }

  function GroupsAfter(m: map<GroupKey, GroupRow>, st: Statement): map<GroupKey, GroupRow> {
    match st
    case UpsertGroup(key, status, occurredAt) => m[key := UpsertedGroup(GroupRowOf(m, key), status, occurredAt)]
    case _ => m
  }

  /** The failure a statement raises, if any. */
  function Rejection(s: Store, st: Statement): Option<DbError> {
    match st
    case InsertPermission(id, row, lenient) =>
      if PermissionConflict(s.permissions, id, row) && !lenient then Some(UniqueViolation) else None
    case UpdatePermission(tenant, id, _, _, version) =>
      if PermissionAt(s.permissions, tenant, id, version) then None else Some(StaleVersion)
    case InsertRole(id, row, lenient) =>
      if RoleConflict(s.roles, id, row) && !lenient then Some(UniqueViolation) else None
    case UpdateRole(tenant, id, _, _, version) =>
      if RoleAt(s.roles, tenant, id, version) then None else Some(StaleVersion)
    case InsertRolePermission(id, row, lenient) =>
      if PairConflict(s.rolePermissions, id, row) then (if lenient then None else Some(UniqueViolation))
      else if row.role in s.roles && row.permission in s.permissions then None
      else Some(ForeignKeyViolation)
    case UpdateRolePermission(tenant, id, _, version) =>
      if PairAt(s.rolePermissions, tenant, id, version) then None else Some(StaleVersion)
    case InsertBinding(id, row, lenient) =>
      if id in s.bindings || Assigned(s.bindings, row) then (if lenient then None else Some(UniqueViolation))
      else if row.role in s.roles then None
      else Some(ForeignKeyViolation)
    case UpdateBinding(tenant, id, _, version) =>
      if BindingAt(s.bindings, tenant, id, version) then None else Some(StaleVersion)
    case UpsertAdminBinding(roleId, subject, subjectType) =>
      if !IsSuperAdminRole(s.roles, roleId) then Some(NoSuchRole)
      else if !Assigned(s.bindings, AdminRow(roleId, subject, subjectType))
              && AdminBinding(subjectType, subject, roleId) in s.bindings then Some(UniqueViolation)
      else None
    case _ => None
  }

  function Bumped(m: map<string, nat>, tenant: string): map<string, nat> {
    m[tenant := (if tenant in m then m[tenant] else 0) + 1]
  }

  function After(s: Store, st: Statement): Store {
    Store(
      PermissionsAfter(s.permissions, st),
      RolesAfter(s.roles, st),
      PairsAfter(s.rolePermissions, st),
      BindingsAfter(s.bindings, st),
      GroupsAfter(s.groups, st),
      if st.BumpPolicyVersion? then Bumped(s.policyVersions, st.tenant) else s.policyVersions,
      if st.MarkProcessed? then s.processed + {st.eventId} else s.processed,
      if st.AddOutbox?
      then s.outbox + [OutboxRow(st.tenant, st.subject, st.outboxType, PolicyVersion(s, st.tenant), st.reason)]
      else s.outbox)
  }

  function Exec(s: Store, st: Statement): StepResult {
    if Rejection(s, st).Some? then Fail(Rejection(s, st).value)
    else if st.MarkProcessed? && st.eventId in s.processed then Stop(s)
    else Done(After(s, st))
  }

  /** The statement reads and writes rows of tenant `t` only. */
  predicate OnTenant(st: Statement, t: string) {
    match st
    case InsertPermission(_, row, _) => row.tenant == t
    case InsertRole(_, row, _) => row.tenant == t
    case InsertRolePermission(_, row, _) => row.tenant == t
    case InsertBinding(_, row, _) => row.tenant == t
    case UpsertAdminBinding(_, _, _) => t == PLATFORM
    case UpsertGroup(key, _, _) => key.tenant == t
    case MarkProcessed(_) => true
    case _ => st.tenant == t
  }

  /** What the tables do not check and the writers must guarantee before a statement. */
  ghost predicate Sound(s: Store, st: Statement) {
    match st
    case InsertPermission(id, row, _) => id.Boot? ==> id == Boot(BootPermission, row.tenant)
    case InsertRole(id, row, _) => id.Boot? ==> id == Boot(BootRole, row.tenant)
    case InsertRolePermission(id, row, _) =>
      && (row.role in s.roles ==> s.roles[row.role].tenant == row.tenant)
      && (row.permission in s.permissions ==> s.permissions[row.permission].tenant == row.tenant)
      && (id.Boot? ==> id == Boot(BootRolePermission, row.tenant) && row.role == Boot(BootRole, row.tenant)
                       && row.permission == Boot(BootPermission, row.tenant))
    case InsertBinding(id, row, _) =>
      && (row.role in s.roles ==> s.roles[row.role].tenant == row.tenant)
      && (id.Boot? ==> id == Boot(BootBinding(row.subject), row.tenant))
      && !id.AdminBinding?
    case _ => true
  }

  ghost predicate PermissionsEvolve(m: map<Id, Permission>, n: map<Id, Permission>) {
    forall p :: p in m ==>
      && p in n && n[p].tenant == m[p].tenant && n[p].code == m[p].code
      && n[p].resourceType == m[p].resourceType && n[p].action == m[p].action
      && m[p].version <= n[p].version && (m[p].version == n[p].version ==> m[p] == n[p])
  }

  ghost predicate RolesEvolve(m: map<Id, Role>, n: map<Id, Role>) {
    forall p :: p in m ==>
      && p in n && SameRoleCode(m[p], n[p])
      && m[p].version <= n[p].version && (m[p].version == n[p].version ==> m[p] == n[p])
  }

  ghost predicate PairsEvolve(m: map<Id, RolePermission>, n: map<Id, RolePermission>) {
    forall p :: p in m ==>
      && p in n && SamePair(m[p], n[p]) && n[p].tenant == m[p].tenant
      && m[p].version <= n[p].version && (m[p].version == n[p].version ==> m[p] == n[p])
  }

  ghost predicate BindingsEvolve(m: map<Id, Binding>, n: map<Id, Binding>) {
    forall p :: p in m ==>
      && p in n && SameAssignment(m[p], n[p]) && n[p].unit == m[p].unit
      && m[p].version <= n[p].version && (m[p].version == n[p].version ==> m[p] == n[p])
  }

  /** Rows are never removed, their identifying columns never change, versions never fall,
      and a row that keeps its version keeps its content. */
  ghost predicate Evolves(s: Store, s2: Store) {
    && PermissionsEvolve(s.permissions, s2.permissions)
    && RolesEvolve(s.roles, s2.roles)
    && PairsEvolve(s.rolePermissions, s2.rolePermissions)
    && BindingsEvolve(s.bindings, s2.bindings)
    && s.processed <= s2.processed
    && s.outbox <= s2.outbox
  }

  lemma EvolvesReflexive(s: Store)
    ensures Evolves(s, s)
  {
  }

  lemma EvolvesTransitive(a: Store, b: Store, c: Store)
    requires Evolves(a, b) && Evolves(b, c)
    ensures Evolves(a, c)
  {
  }

  lemma PermissionStep(m: map<Id, Permission>, st: Statement)
    ensures PermissionsEvolve(m, PermissionsAfter(m, st))
  {
  }

  lemma PermissionUnique(m: map<Id, Permission>, st: Statement)
    requires UniquePermissions(m)
    ensures UniquePermissions(PermissionsAfter(m, st))
  {
    var n := PermissionsAfter(m, st);
    match st
    case InsertPermission(id, row, _) =>
      if !PermissionConflict(m, id, row) {
        NewPermissionUnique(m, id, row.(version := 1));
      }
    case UpdatePermission(_, id, condition, status, _) =>
      if n != m {
        SamePermissionUnique(m, id, n[id]);
      }
    case _ =>
  }

  lemma NewPermissionUnique(m: map<Id, Permission>, id: Id, row: Permission)
    requires UniquePermissions(m) && id !in m
    requires forall p :: p in m ==> !SamePermissionCode(m[p], row) && !SamePermissionTarget(m[p], row)
    ensures UniquePermissions(m[id := row])
  {
    assert forall p :: p in m ==> !SamePermissionCode(row, m[p]) && !SamePermissionTarget(row, m[p]);
  }

  lemma SamePermissionUnique(m: map<Id, Permission>, id: Id, row: Permission)
    requires UniquePermissions(m) && id in m && SamePermissionCode(m[id], row) && SamePermissionTarget(m[id], row)
    ensures UniquePermissions(m[id := row])
  {
    forall p | p in m && p != id
      ensures !SamePermissionCode(m[p], row) && !SamePermissionTarget(m[p], row)
      ensures !SamePermissionCode(row, m[p]) && !SamePermissionTarget(row, m[p])
    {
      assert !SamePermissionCode(m[p], m[id]) && !SamePermissionTarget(m[p], m[id]);
    }
  }

  lemma RoleStep(m: map<Id, Role>, st: Statement)
    ensures RolesEvolve(m, RolesAfter(m, st))
  {
  }

  lemma RoleUnique(m: map<Id, Role>, st: Statement)
    requires UniqueRoles(m)
    ensures UniqueRoles(RolesAfter(m, st))
  {
    var n := RolesAfter(m, st);
    RoleStep(m, st);
    assert forall p :: p in n && p !in m ==> forall q :: q in m ==> !SameRoleCode(m[q], n[p]);
  }

  lemma PairStep(m: map<Id, RolePermission>, st: Statement)
    ensures PairsEvolve(m, PairsAfter(m, st))
  {
  }

  lemma PairUnique(m: map<Id, RolePermission>, st: Statement)
    requires UniquePairs(m)
    ensures UniquePairs(PairsAfter(m, st))
  {
    var n := PairsAfter(m, st);
    PairStep(m, st);
    assert forall p :: p in n && p !in m ==> forall q :: q in m ==> !SamePair(m[q], n[p]);
  }

  lemma BindingStep(m: map<Id, Binding>, st: Statement)
    ensures BindingsEvolve(m, BindingsAfter(m, st))
  {
  }

  lemma BindingUnique(m: map<Id, Binding>, st: Statement)
    requires UniqueBindings(m)
    ensures UniqueBindings(BindingsAfter(m, st))
  {
    var n := BindingsAfter(m, st);
    BindingStep(m, st);
    assert forall p :: p in n && p !in m ==> forall q :: q in m ==> !SameAssignment(m[q], n[p]);
  }

  lemma StatementEvolves(s: Store, st: Statement)
    ensures Evolves(s, After(s, st))
  {
    PermissionStep(s.permissions, st);
    RoleStep(s.roles, st);
    PairStep(s.rolePermissions, st);
    BindingStep(s.bindings, st);
  }

  lemma StatementKeepsUniqueness(s: Store, st: Statement)
    requires UniqueKeys(s)
    ensures UniqueKeys(After(s, st))
  {
    PermissionUnique(s.permissions, st);
    RoleUnique(s.roles, st);
    PairUnique(s.rolePermissions, st);
    BindingUnique(s.bindings, st);
  }

  lemma IsolationEvolves(s: Store, roles: map<Id, Role>, permissions: map<Id, Permission>)
    requires Isolated(s) && RolesEvolve(s.roles, roles) && PermissionsEvolve(s.permissions, permissions)
    ensures BindingsIsolated(s.bindings, roles) && PairsIsolated(s.rolePermissions, roles, permissions)
  {
  }

  lemma StatementKeepsIsolation(s: Store, st: Statement)
    requires Isolated(s) && Sound(s, st) && Rejection(s, st) == None
    ensures Isolated(After(s, st))
  {
    RoleStep(s.roles, st);
    PermissionStep(s.permissions, st);
    IsolationEvolves(s, RolesAfter(s.roles, st), PermissionsAfter(s.permissions, st));
  }

  lemma StatementKeepsNames(s: Store, st: Statement)
    requires BootNamed(s) && Sound(s, st)
    ensures PermissionsNamed(PermissionsAfter(s.permissions, st))
    ensures RolesNamed(RolesAfter(s.roles, st))
    ensures PairsNamed(PairsAfter(s.rolePermissions, st))
    ensures BindingsNamed(BindingsAfter(s.bindings, st)) && AdminsNamed(BindingsAfter(s.bindings, st))
  {
  }

  lemma StatementKeepsSane(s: Store, st: Statement)
    requires Sane(s) && Sound(s, st) && Rejection(s, st) == None
    ensures Sane(After(s, st)) && Evolves(s, After(s, st))
  {
    StatementKeepsIsolation(s, st);
    StatementKeepsUniqueness(s, st);
    StatementKeepsNames(s, st);
    StatementEvolves(s, st);
  }

  lemma PermissionFrame(m: map<Id, Permission>, st: Statement, t: string, u: string)
    requires OnTenant(st, t) && u != t
    ensures PermissionSlice(m, PermissionsAfter(m, st), u) && PermissionSlice(PermissionsAfter(m, st), m, u)
  {
  }

  lemma RoleFrame(m: map<Id, Role>, st: Statement, t: string, u: string)
    requires OnTenant(st, t) && u != t
    ensures RoleSlice(m, RolesAfter(m, st), u) && RoleSlice(RolesAfter(m, st), m, u)
  {
  }

  lemma PairFrame(m: map<Id, RolePermission>, st: Statement, t: string, u: string)
    requires OnTenant(st, t) && u != t
    ensures PairSlice(m, PairsAfter(m, st), u) && PairSlice(PairsAfter(m, st), m, u)
  {
  }

  lemma BindingFrame(m: map<Id, Binding>, st: Statement, t: string, u: string)
    requires OnTenant(st, t) && u != t
    ensures BindingSlice(m, BindingsAfter(m, st), u) && BindingSlice(BindingsAfter(m, st), m, u)
  {
  }

  /** A statement on one tenant leaves the rows of every other tenant alone. */
  lemma StatementFrame(s: Store, st: Statement, t: string, u: string)
    requires OnTenant(st, t) && u != t
    ensures SameSlice(s, After(s, st), u)
  {
    PermissionFrame(s.permissions, st, t, u);
    RoleFrame(s.roles, st, t, u);
    PairFrame(s.rolePermissions, st, t, u);
    BindingFrame(s.bindings, st, t, u);
  }

  // ----- Transactions -----

  datatype TxResult = Committed(store: Store, complete: bool) | Aborted(error: DbError)

  /** The statements of a transaction from index `i` on. A failure discards everything. */
  function RunFrom(s: Store, script: seq<Statement>, i: nat): TxResult
    requires i <= |script|
    decreases |script| - i
  {
    if i == |script| then Committed(s, true)
    else
      match Exec(s, script[i])
      case Done(next) => RunFrom(next, script, i + 1)
      case Stop(next) => Committed(next, false)
      case Fail(error) => Aborted(error)
  }

  /** One committed unit of work: a service mutation, a group event, a tenant-created
      event, or a run of the super-admin command. */
  datatype Write =
    | Mutation(tenant: string, subject: string, subjectType: Option<SubjectType>, reason: string, statement: Statement)
    | GroupChanged(eventId: string, tenant: string, membership: string, group: string, status: Status, occurredAt: int)
    | TenantCreated(eventId: string, tenant: string, owner: string)
    | SuperAdmin(roleId: Id, subject: string, adminType: SubjectType)

  function OwnerPermission(t: string): Permission {
    Permission(t, "tenant.owner-admin", "*", "*", "", Active, 1)
  }

  function OwnerRole(t: string): Role {
    Role(t, "tenant-owner-admin", AllScope, Active, 1)
  }

  function OwnerPair(t: string): RolePermission {
    RolePermission(t, Boot(BootRole, t), Boot(BootPermission, t), Active, 1)
  }

  function OwnerBinding(t: string, owner: string): Binding {
    Binding(t, owner, Membership, Boot(BootRole, t), "", Active, 1)
  }

  /** BootstrapTenantOwner: its four statements, all ON CONFLICT DO NOTHING. */
  function BootstrapStatements(t: string, owner: string): seq<Statement> {
    [InsertPermission(Boot(BootPermission, t), OwnerPermission(t), true),
     InsertRole(Boot(BootRole, t), OwnerRole(t), true),
     InsertRolePermission(Boot(BootRolePermission, t), OwnerPair(t), true),
     InsertBinding(Boot(BootBinding(owner), t), OwnerBinding(t, owner), true)]
  }

  function Script(w: Write): seq<Statement> {
    match w
    case Mutation(tenant, subject, subjectType, reason, statement) =>
      [statement, BumpPolicyVersion(tenant), AddOutbox(tenant, subject, subjectType, reason)]
    case GroupChanged(eventId, tenant, membership, group, status, occurredAt) =>
      [MarkProcessed(eventId), UpsertGroup(GroupKey(tenant, membership, group), status, occurredAt),
       BumpPolicyVersion(tenant)]
    case TenantCreated(eventId, tenant, owner) =>
      [MarkProcessed(eventId)] + BootstrapStatements(tenant, owner) + [BumpPolicyVersion(tenant)]
    case SuperAdmin(roleId, subject, adminType) =>
      [UpsertAdminBinding(roleId, subject, adminType), BumpPolicyVersion(PLATFORM)]
  }

  function Target(w: Write): string {
    if w.SuperAdmin? then PLATFORM else w.tenant
  }

  function Outcome(s: Store, w: Write): TxResult {
    RunFrom(s, Script(w), 0)
  }

  /** The store after the transaction; an aborted one changes nothing. */
  function Apply(s: Store, w: Write): Store {
    match Outcome(s, w)
    case Committed(next, _) => next
    case Aborted(_) => s
  }

  /** The transaction committed all of its statements. */
  predicate Effective(s: Store, w: Write) {
    Outcome(s, w).Committed? && Outcome(s, w).complete
  }

  /** The eight statements the service mutators issue. Inserted ids are random UUIDs. */
  predicate ServiceStatement(st: Statement) {
    match st
    case InsertPermission(id, _, lenient) => id.Fresh? && !lenient
    case InsertRole(id, _, lenient) => id.Fresh? && !lenient
    case InsertRolePermission(id, _, lenient) => id.Fresh? && !lenient
    case InsertBinding(id, _, lenient) => id.Fresh? && !lenient
    case UpdatePermission(_, _, _, _, _) => true
    case UpdateRole(_, _, _, _, _) => true
    case UpdateRolePermission(_, _, _, _) => true
    case UpdateBinding(_, _, _, _) => true
    case _ => false
  }

  /** What a caller has established before the transaction starts. */
  ghost predicate Admissible(s: Store, w: Write) {
    w.Mutation? ==> ServiceStatement(w.statement) && OnTenant(w.statement, w.tenant) && Sound(s, w.statement)
  }

  // ----- Every transaction keeps the invariants and touches one tenant -----

  ghost predicate SoundFrom(s: Store, script: seq<Statement>, i: nat)
    requires i <= |script|
    decreases |script| - i
  {
    i < |script| ==>
      Sound(s, script[i]) && (Exec(s, script[i]).Done? ==> SoundFrom(Exec(s, script[i]).store, script, i + 1))
  }

  lemma {:induction false} RunKeepsSane(s: Store, script: seq<Statement>, i: nat)
    requires i <= |script| && Sane(s) && SoundFrom(s, script, i) && RunFrom(s, script, i).Committed?
    ensures Sane(RunFrom(s, script, i).store) && Evolves(s, RunFrom(s, script, i).store)
    decreases |script| - i
  {
    if i < |script| && Exec(s, script[i]).Done? {
      var next := Exec(s, script[i]).store;
      StatementKeepsSane(s, script[i]);
      RunKeepsSane(next, script, i + 1);
      EvolvesTransitive(s, next, RunFrom(s, script, i).store);
    }
  }

  lemma SliceTransitive(a: Store, b: Store, c: Store, t: string)
    requires SliceWithin(a, b, t) && SliceWithin(b, c, t)
    ensures SliceWithin(a, c, t)
  {
  }

  lemma {:induction false} RunFrame(s: Store, script: seq<Statement>, i: nat, t: string, u: string)
    requires i <= |script| && u != t && RunFrom(s, script, i).Committed?
    requires forall j :: 0 <= j < |script| ==> OnTenant(script[j], t)
    ensures SameSlice(s, RunFrom(s, script, i).store, u)
    decreases |script| - i
  {
    if i < |script| && Exec(s, script[i]).Done? {
      var next, last := Exec(s, script[i]).store, RunFrom(s, script, i).store;
      StatementFrame(s, script[i], t, u);
      RunFrame(next, script, i + 1, t, u);
      SliceTransitive(s, next, last, u);
      SliceTransitive(last, next, s, u);
    }
  }

  /** Committed work on one tenant leaves every row of every other tenant alone. */
  lemma WriteFrame(s: Store, w: Write, u: string)
    requires w.Mutation? ==> OnTenant(w.statement, w.tenant)
    requires u != Target(w)
    ensures SameSlice(s, Apply(s, w), u)
  {
    if Outcome(s, w).Committed? {
      RunFrame(s, Script(w), 0, Target(w), u);
    }
  }

  lemma BootIdsSound(s: Store, t: string, owner: string, i: nat)
    requires Sane(s) && i < 4
    ensures Sound(s, BootstrapStatements(t, owner)[i])
  {
  }

  lemma {:induction false} BootstrapSound(s: Store, w: Write, i: nat)
    requires w.TenantCreated? && Sane(s) && i <= 6
    ensures |Script(w)| == 6 && SoundFrom(s, Script(w), i)
    decreases 6 - i
  {
    if i < 6 {
      var st := Script(w)[i];
      if 1 <= i < 5 {
        assert st == BootstrapStatements(w.tenant, w.owner)[i - 1];
        BootIdsSound(s, w.tenant, w.owner, i - 1);
      }
      if Exec(s, st).Done? {
        StatementKeepsSane(s, st);
        BootstrapSound(Exec(s, st).store, w, i + 1);
      }
    }
  }

  lemma WriteSound(s: Store, w: Write)
    requires Sane(s) && Admissible(s, w)
    ensures SoundFrom(s, Script(w), 0)
  {
    if w.TenantCreated? {
      BootstrapSound(s, w, 0);
    } else {
      forall i, x | 1 <= i <= |Script(w)| ensures SoundFrom(x, Script(w), i) {
        TailSound(x, w, i);
      }
    }
  }

  lemma {:induction false} TailSound(s: Store, w: Write, i: nat)
    requires !w.TenantCreated? && 1 <= i <= |Script(w)|
    ensures SoundFrom(s, Script(w), i)
    decreases |Script(w)| - i
  {
    if i < |Script(w)| && Exec(s, Script(w)[i]).Done? {
      TailSound(Exec(s, Script(w)[i]).store, w, i + 1);
    }
  }

  // ----- What the writes of one statement amount to -----

  lemma RunStep(s: Store, script: seq<Statement>, i: nat, next: Store)
    requires i < |script| && Exec(s, script[i]) == Done(next)
    ensures RunFrom(s, script, i) == RunFrom(next, script, i + 1)
  {
  }

  lemma BumpRuns(s: Store, tenant: string)
    ensures Exec(s, BumpPolicyVersion(tenant)) == Done(s.(policyVersions := Bumped(s.policyVersions, tenant)))
  {
  }

  function Announcement(s: Store, w: Write): OutboxRow
    requires w.Mutation?
  {
    OutboxRow(w.tenant, w.subject, w.subjectType, PolicyVersion(s, w.tenant), w.reason)
  }

  lemma OutboxRuns(s: Store, w: Write)
    requires w.Mutation?
    ensures Exec(s, AddOutbox(w.tenant, w.subject, w.subjectType, w.reason)) ==
            Done(s.(outbox := s.outbox + [Announcement(s, w)]))
  {
  }

  lemma MutationTail(s1: Store, w: Write)
    requires w.Mutation?
    ensures
      var s2 := s1.(policyVersions := Bumped(s1.policyVersions, w.tenant));
      RunFrom(s1, Script(w), 1) == Committed(s2.(outbox := s2.outbox + [Announcement(s2, w)]), true)
  {
    var script := Script(w);
    var s2 := s1.(policyVersions := Bumped(s1.policyVersions, w.tenant));
    var s3 := s2.(outbox := s2.outbox + [Announcement(s2, w)]);
    BumpRuns(s1, w.tenant);
    OutboxRuns(s2, w);
    RunStep(s1, script, 1, s2);
    RunStep(s2, script, 2, s3);
  }

  lemma ServiceStatementFrame(s: Store, st: Statement)
    requires ServiceStatement(st)
    ensures After(s, st).policyVersions == s.policyVersions && After(s, st).outbox == s.outbox
    ensures Exec(s, st) == if Rejection(s, st).Some? then Fail(Rejection(s, st).value) else Done(After(s, st))
  {
  }

  /** A service mutation is its statement plus one version bump plus one outbox row, or nothing. */
  lemma MutationRuns(s: Store, w: Write)
    requires w.Mutation? && ServiceStatement(w.statement)
    ensures Rejection(s, w.statement).Some? ==> Outcome(s, w) == Aborted(Rejection(s, w.statement).value)
    ensures Rejection(s, w.statement) == None ==>
              && Effective(s, w)
              && Apply(s, w) == After(s, w.statement).(
                   policyVersions := Bumped(s.policyVersions, w.tenant),
                   outbox := s.outbox + [OutboxRow(w.tenant, w.subject, w.subjectType, PolicyVersion(s, w.tenant) + 1,
                                                   w.reason)])
  {
    ServiceStatementFrame(s, w.statement);
    if Rejection(s, w.statement) == None {
      RunStep(s, Script(w), 0, After(s, w.statement));
      MutationTail(After(s, w.statement), w);
    }
  }

  /** On a store that keeps the invariants the command succeeds iff the role is the active
      super-admin role: the derived id is never taken by another binding. */
  lemma AdminSucceeds(s: Store, w: Write)
    requires w.SuperAdmin? && Sane(s)
    ensures Effective(s, w) <==> IsSuperAdminRole(s.roles, w.roleId)
  {
    AdminRuns(s, w);
    assert SameAssignment(AdminRow(w.roleId, w.subject, w.adminType), AdminRow(w.roleId, w.subject, w.adminType));
  }

  lemma AdminRuns(s: Store, w: Write)
    requires w.SuperAdmin?
    ensures
      var st := UpsertAdminBinding(w.roleId, w.subject, w.adminType);
      && (Rejection(s, st).Some? ==> Outcome(s, w) == Aborted(Rejection(s, st).value))
      && (Rejection(s, st) == None ==>
            Effective(s, w) && Apply(s, w) == After(s, st).(policyVersions := Bumped(s.policyVersions, PLATFORM)))
  {
    var script := Script(w);
    if Rejection(s, script[0]) == None {
      var s1 := After(s, script[0]);
      var s2 := After(s1, script[1]);
      assert RunFrom(s2, script, 2) == Committed(s2, true);
      assert RunFrom(s1, script, 1) == RunFrom(s2, script, 2);
    }
  }
}
