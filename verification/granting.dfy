/** End to end: what the mutators, the events and the super-admin command are for. */
module Granting {
  import opened Schema
  import opened Text
  import opened Resolution
  import opened Transactions
  import opened GroupProjection
  import opened Access
  import opened Monotone

  /** Operation `op`, checked on `s`, issued a transaction that took effect and left `n`. */
  ghost predicate Performed(ctx: Context, op: Operation, s: Store, compiles: string -> bool, n: Store) {
    var p := Prepare(ctx, op, s, compiles);
    p.Issue? && Effective(s, p.write) && n == Apply(s, p.write)
  }

  /** The statement of a performed operation went through, and nothing else touched the rows. */
  lemma PerformedRuns(ctx: Context, op: Operation, s: Store, compiles: string -> bool, n: Store)
    requires Performed(ctx, op, s, compiles, n)
    ensures
      var st := Prepare(ctx, op, s, compiles).write.statement;
      Rejection(s, st) == None && SameJoinTables(After(s, st), n)
  {
    MutationRuns(s, Prepare(ctx, op, s, compiles).write);
  }

  lemma PerformedIsAdmissible(ctx: Context, op: Operation, s: Store, compiles: string -> bool, n: Store)
    requires Performed(ctx, op, s, compiles, n)
    ensures Admissible(s, Prepare(ctx, op, s, compiles).write)
  {
    EvolvesReflexive(s);
    ClearedStaysAdmissible(ctx, s, s, Prepare(ctx, op, s, compiles).write);
  }

  /** The operations that grant narrow no decision in which no condition errs. */
  lemma GrantsNeverNarrow(cel: Cel, ctx: Context, op: Operation, s: Store, compiles: string -> bool, n: Store,
                          r: Request)
    requires Performed(ctx, op, s, compiles, n) && (op.GrantRolePermission? || op.CreateBinding?)
    requires FreshVerdict(cel, n, r) != EvaluationError
    ensures FreshVerdict(cel, s, r) != EvaluationError && NotNarrower(FreshVerdict(cel, s, r), FreshVerdict(cel, n, r))
  {
    PerformedIsAdmissible(ctx, op, s, compiles, n);
    GrantingNeverNarrows(cel, s, Prepare(ctx, op, s, compiles).write, r);
  }

  /** The operations that revoke widen none. */
  lemma RevocationsNeverWiden(cel: Cel, ctx: Context, op: Operation, s: Store, compiles: string -> bool, n: Store,
                              r: Request)
    requires Performed(ctx, op, s, compiles, n) && (op.RevokeRolePermission? || op.RevokeBinding?)
    requires FreshVerdict(cel, s, r) != EvaluationError
    ensures FreshVerdict(cel, n, r) != EvaluationError && NotNarrower(FreshVerdict(cel, n, r), FreshVerdict(cel, s, r))
  {
    PerformedIsAdmissible(ctx, op, s, compiles, n);
    RevokingNeverWidens(cel, s, Prepare(ctx, op, s, compiles).write, r);
  }

  /** Adding a member to a group narrows no decision, removing one widens none. */
  lemma MembershipIsMonotone(cel: Cel, s: Store, d: Delivery, r: Request)
    requires FreshVerdict(cel, s, r) != EvaluationError && FreshVerdict(cel, Deliver(s, d), r) != EvaluationError
    ensures d.event.change == MemberAdded ==> NotNarrower(FreshVerdict(cel, s, r), FreshVerdict(cel, Deliver(s, d), r))
    ensures d.event.change == MemberRemoved ==>
              NotNarrower(FreshVerdict(cel, Deliver(s, d), r), FreshVerdict(cel, s, r))
  {
    if Accepted(d.event) {
      if d.event.change == MemberAdded {
        GrantingNeverNarrows(cel, s, WriteOf(d), r);
      } else {
        RevokingNeverWidens(cel, s, WriteOf(d), r);
      }
    }
  }

  /** What a policy author expects of a new permission. */
  ghost predicate PermissionAdded(s: Store, n: Store, op: Operation)
    requires op.CreatePermission?
  {
    var id := Fresh(op.uuid);
    && id !in s.permissions && id in n.permissions && n.permissions[id].status == Active
    && n.permissions[id].tenant == Trim(op.tenant) && n.permissions[id].resourceType == Lower(Trim(op.resourceType))
    && n.permissions[id].action == Lower(Trim(op.action)) && n.permissions[id].condition == Trim(op.condition)
    && n.roles == s.roles && n.rolePermissions == s.rolePermissions && n.bindings == s.bindings && n.groups == s.groups
  }

  lemma PermissionIsAdded(ctx: Context, op: Operation, s: Store, compiles: string -> bool, n: Store)
    requires op.CreatePermission? && Performed(ctx, op, s, compiles, n)
    ensures PermissionAdded(s, n, op)
  {
    PerformedRuns(ctx, op, s, compiles, n);
  }

  ghost predicate RoleAdded(s: Store, n: Store, op: Operation)
    requires op.CreateRole?
  {
    var id := Fresh(op.uuid);
    && id !in s.roles && id in n.roles && n.roles[id].status == Active && n.roles[id].tenant == Trim(op.tenant)
    && Some(n.roles[id].scope) == ParseDataScope(Lower(Trim(op.dataScope)))
    && n.permissions == s.permissions && n.rolePermissions == s.rolePermissions && n.bindings == s.bindings
      && n.groups == s.groups
  }

  lemma RoleIsAdded(ctx: Context, op: Operation, s: Store, compiles: string -> bool, n: Store)
    requires op.CreateRole? && Performed(ctx, op, s, compiles, n)
    ensures RoleAdded(s, n, op)
  {
    PerformedRuns(ctx, op, s, compiles, n);
  }

  /** An active pair of the two rows exists, whether it was inserted or revived. */
  ghost predicate PairActive(s: Store, n: Store, op: Operation, pair: Id)
    requires op.GrantRolePermission?
  {
    && pair in n.rolePermissions && n.rolePermissions[pair].status == Active
    && n.rolePermissions[pair].role == op.roleId && n.rolePermissions[pair].permission == op.permissionId
    && n.permissions == s.permissions && n.roles == s.roles && n.bindings == s.bindings && n.groups == s.groups
  }

  lemma PairIsActive(ctx: Context, op: Operation, s: Store, compiles: string -> bool, n: Store) returns (pair: Id)
    requires op.GrantRolePermission? && Performed(ctx, op, s, compiles, n)
    ensures PairActive(s, n, op, pair)
  {
    PerformedRuns(ctx, op, s, compiles, n);
    pair := Prepare(ctx, op, s, compiles).write.statement.id;
  }

  ghost predicate BindingAdded(s: Store, n: Store, op: Operation)
    requires op.CreateBinding?
  {
    var id := Fresh(op.uuid);
    && id in n.bindings && n.bindings[id].status == Active && n.bindings[id].tenant == op.tenant
    && n.bindings[id].subject == op.subject
      && Some(n.bindings[id].subjectType) == ParseSubjectType(Lower(Trim(op.subjectType)))
    && n.bindings[id].role == op.roleId && n.bindings[id].unit == op.unit
    && n.permissions == s.permissions && n.roles == s.roles && n.rolePermissions == s.rolePermissions
      && n.groups == s.groups
  }

  lemma BindingIsAdded(ctx: Context, op: Operation, s: Store, compiles: string -> bool, n: Store)
    requires op.CreateBinding? && Performed(ctx, op, s, compiles, n)
    ensures BindingAdded(s, n, op)
  {
    PerformedRuns(ctx, op, s, compiles, n);
  }

  /** A decision that uses the grant: an evaluation error of some other grant, or allowed at
      the grant's scope at least, with its unit where the scope is the organization. */
  ghost predicate Honours(v: Verdict, grant: Grant) {
    v.EvaluationError?
    || (&& v.allowed && ScopeRank(grant.scope) <= ScopeRank(v.scope)
        && (grant.scope == OrganizationScope && grant.unit != "" ==> grant.unit in v.units))
  }

  lemma JoinedGrantIsHonoured(cel: Cel, s: Store, r: Request, b: Id, g: Id)
    requires Joins(s, r, b, g) && Evaluate(cel, r, GrantOf(s, r, b, g).condition) == Holds
    ensures Honours(FreshVerdict(cel, s, r), GrantOf(s, r, b, g))
  {
    var gs, grant := Grants(s, r), GrantOf(s, r, b, g);
    assert grant in gs;
    assert Matching(cel, r, gs, grant);
    TopScopeIsGreatest(cel, r, gs);
  }

  ghost predicate AsksFor(r: Request, permission: Operation, binding: Operation)
    requires permission.CreatePermission? && binding.CreateBinding?
  {
    && r.tenant == binding.tenant && r.subject == binding.subject
    && Some(r.subjectType) == ParseSubjectType(Lower(Trim(binding.subjectType)))
    && r.resourceType == Lower(Trim(permission.resourceType)) && r.action == Lower(Trim(permission.action))
  }

  /** Creating a permission and a role, granting one to the other and binding a subject makes
      the subject's checks on that resource type and action honour the role's scope and the
      binding's unit, whenever the permission's condition holds. */
  lemma FourStepsGrant(cel: Cel, ctx: Context, compiles: string -> bool, stores: seq<Store>,
                       permission: Operation, role: Operation, pair: Operation, binding: Operation, r: Request)
    requires |stores| == 5
    requires permission.CreatePermission? && Performed(ctx, permission, stores[0], compiles, stores[1])
    requires role.CreateRole? && Performed(ctx, role, stores[1], compiles, stores[2])
    requires pair.GrantRolePermission? && Performed(ctx, pair, stores[2], compiles, stores[3])
    requires pair.roleId == Fresh(role.uuid) && pair.permissionId == Fresh(permission.uuid)
    requires binding.CreateBinding? && Performed(ctx, binding, stores[3], compiles, stores[4])
    requires binding.roleId == Fresh(role.uuid)
    requires AsksFor(r, permission, binding) && Evaluate(cel, r, Trim(permission.condition)) == Holds
    ensures ParseDataScope(Lower(Trim(role.dataScope))).Some?
    ensures Honours(FreshVerdict(cel, stores[4], r),
                    Grant(ParseDataScope(Lower(Trim(role.dataScope))).value, binding.unit, Trim(permission.condition)))
  {
    PermissionIsAdded(ctx, permission, stores[0], compiles, stores[1]);
    RoleIsAdded(ctx, role, stores[1], compiles, stores[2]);
    var g := PairIsActive(ctx, pair, stores[2], compiles, stores[3]);
    BindingIsAdded(ctx, binding, stores[3], compiles, stores[4]);
    ChainJoins(stores[4], r, permission, role, binding, g);
    JoinedGrantIsHonoured(cel, stores[4], r, Fresh(binding.uuid), g);
  }

  lemma ChainJoins(s: Store, r: Request, permission: Operation, role: Operation, binding: Operation, g: Id)
    requires permission.CreatePermission? && role.CreateRole? && binding.CreateBinding?
             && AsksFor(r, permission, binding)
    requires Fresh(permission.uuid) in s.permissions && s.permissions[Fresh(permission.uuid)].status == Active
    requires s.permissions[Fresh(permission.uuid)].resourceType == Lower(Trim(permission.resourceType))
    requires s.permissions[Fresh(permission.uuid)].action == Lower(Trim(permission.action))
    requires Fresh(role.uuid) in s.roles && s.roles[Fresh(role.uuid)].status == Active
    requires g in s.rolePermissions && s.rolePermissions[g].status == Active
    requires s.rolePermissions[g].role == Fresh(role.uuid) && s.rolePermissions[g].permission == Fresh(permission.uuid)
    requires Fresh(binding.uuid) in s.bindings && s.bindings[Fresh(binding.uuid)].status == Active
    requires s.bindings[Fresh(binding.uuid)].tenant == binding.tenant
             && s.bindings[Fresh(binding.uuid)].role == Fresh(role.uuid)
    requires s.bindings[Fresh(binding.uuid)].subject == binding.subject
    requires Some(s.bindings[Fresh(binding.uuid)].subjectType) == ParseSubjectType(Lower(Trim(binding.subjectType)))
    ensures Joins(s, r, Fresh(binding.uuid), g)
    ensures GrantOf(s, r, Fresh(binding.uuid), g) ==
            Grant(s.roles[Fresh(role.uuid)].scope, s.bindings[Fresh(binding.uuid)].unit,
                  s.permissions[Fresh(permission.uuid)].condition)
  {
  }

  /** Role permission `g` gives the role everything, unconditionally. */
  ghost predicate Unlimited(s: Store, roleId: Id, g: Id) {
    && roleId in s.roles && s.roles[roleId].status == Active && s.roles[roleId].scope == AllScope
    && g in s.rolePermissions && s.rolePermissions[g].status == Active && s.rolePermissions[g].role == roleId
    && s.rolePermissions[g].permission in s.permissions
    && var p := s.permissions[s.rolePermissions[g].permission];
    p.status == Active && p.resourceType == "*" && p.action == "*" && p.condition == ""
  }

  lemma AdminBindingExists(s: Store, w: Write) returns (b: Id)
    requires w.SuperAdmin? && Effective(s, w)
    ensures
      var n := Apply(s, w);
      && b in n.bindings && n.bindings[b].status == Active
        && SameAssignment(n.bindings[b], AdminRow(w.roleId, w.subject, w.adminType))
      && n.roles == s.roles && n.permissions == s.permissions && n.rolePermissions == s.rolePermissions
  {
    AdminRuns(s, w);
    var row := AdminRow(w.roleId, w.subject, w.adminType);
    if Assigned(s.bindings, row) {
      b :| b in s.bindings && SameAssignment(s.bindings[b], row);
    } else {
      b := AdminBinding(w.adminType, w.subject, w.roleId);
    }
  }

  /** The super-admin command, whether it inserts the binding or revives a revoked one, gives
      the subject every permission of the platform tenant with scope `all`. */
  lemma SuperAdminIsAllowedEverything(cel: Cel, s: Store, w: Write, g: Id, r: Request)
    requires w.SuperAdmin? && Effective(s, w) && Unlimited(s, w.roleId, g)
    requires r.tenant == PLATFORM && r.subject == w.subject && r.subjectType == w.adminType
    ensures Honours(FreshVerdict(cel, Apply(s, w), r), Grant(AllScope, "", ""))
  {
    var b := AdminBindingExists(s, w);
    assert Joins(Apply(s, w), r, b, g);
    assert GrantOf(Apply(s, w), r, b, g).condition == "" && GrantOf(Apply(s, w), r, b, g).scope == AllScope;
    JoinedGrantIsHonoured(cel, Apply(s, w), r, b, g);
  }

  // ----- A grant that fills a gap -----

  /** The subject of `r` is bound to a role; an unlimited permission exists, not yet granted. */
  function GapStore(r: Request): Store {
    Store(
      map[Fresh(0) := Permission(r.tenant, "p", "*", "*", "", Active, 1)],
      map[Fresh(1) := Role(r.tenant, "r", AllScope, Active, 1)],
      map[],
      map[Fresh(3) := Binding(r.tenant, r.subject, r.subjectType, Fresh(1), "", Active, 1)],
      map[], map[], {}, [])
  }

  function GapOperation(tenant: string): Operation {
    GrantRolePermission(tenant, Fresh(1), Fresh(0), 2)
  }

  function SystemContext(): Context {
    Context(None, Some(Principal("a", SystemPrincipal, "", "")))
  }

  lemma GapIsGood(r: Request)
    ensures Good(GapStore(r)) && Grants(GapStore(r), r) == {}
  {
  }

  function GapWrite(tenant: string): Write {
    var row := RolePermission(tenant, Fresh(1), Fresh(0), Active, 1);
    Mutation(tenant, "", None, "role_permission_granted", InsertRolePermission(Fresh(2), row, false))
  }

  lemma GapIsIssued(r: Request, ctx: Context, compiles: string -> bool)
    requires r.tenant != "" && EnforceInteractiveTenant(ctx, r.tenant) == None && HasActor(ctx)
    ensures Prepare(ctx, GapOperation(r.tenant), GapStore(r), compiles) == Issue(GapWrite(r.tenant))
    ensures Effective(GapStore(r), GapWrite(r.tenant))
  {
    MutationRuns(GapStore(r), GapWrite(r.tenant));
  }

  /** Granting the permission allows the request. */
  lemma GapIsFilled(cel: Cel, r: Request, ctx: Context, compiles: string -> bool) returns (w: Write)
    requires r.tenant != "" && EnforceInteractiveTenant(ctx, r.tenant) == None && HasActor(ctx)
    ensures Prepare(ctx, GapOperation(r.tenant), GapStore(r), compiles) == Issue(w)
    ensures w.Mutation? && w.tenant == r.tenant && Effective(GapStore(r), w)
    ensures Honours(FreshVerdict(cel, Apply(GapStore(r), w), r), Grant(AllScope, "", ""))
  {
    w := GapWrite(r.tenant);
    GapIsIssued(r, ctx, compiles);
    MutationRuns(GapStore(r), w);
    assert Joins(Apply(GapStore(r), w), r, Fresh(3), Fresh(2));
    JoinedGrantIsHonoured(cel, Apply(GapStore(r), w), r, Fresh(3), Fresh(2));
  }
}
