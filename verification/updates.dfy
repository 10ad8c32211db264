/** Optimistic locking over whole runs: no update is lost, and versions count updates. */
module Updates {
  import opened Schema
  import opened Transactions
  import opened TenantBootstrap
  import opened Access
  import opened Histories

  datatype Table = Permissions | Roles | RolePermissions | Bindings

  predicate Present(s: Store, table: Table, id: Id) {
    match table
    case Permissions => id in s.permissions
    case Roles => id in s.roles
    case RolePermissions => id in s.rolePermissions
    case Bindings => id in s.bindings
  }

  /** The version column of a row, 0 where there is no row. */
  function RowVersion(s: Store, table: Table, id: Id): nat {
    if !Present(s, table, id) then 0
    else
      match table
      case Permissions => s.permissions[id].version
      case Roles => s.roles[id].version
      case RolePermissions => s.rolePermissions[id].version
      case Bindings => s.bindings[id].version
  }

  ghost predicate SameRow(s: Store, s2: Store, table: Table, id: Id) {
    && Present(s, table, id) && Present(s2, table, id)
    && match table
       case Permissions => s.permissions[id] == s2.permissions[id]
       case Roles => s.roles[id] == s2.roles[id]
       case RolePermissions => s.rolePermissions[id] == s2.rolePermissions[id]
       case Bindings => s.bindings[id] == s2.bindings[id]
  }

  /** A versioned update: the row it addresses and the version it expects. */
  predicate UpdatesAt(st: Statement, table: Table, id: Id, version: int) {
    match table
    case Permissions => st.UpdatePermission? && st.id == id && st.version == version
    case Roles => st.UpdateRole? && st.id == id && st.version == version
    case RolePermissions => st.UpdateRolePermission? && st.id == id && st.version == version
    case Bindings => st.UpdateBinding? && st.id == id && st.version == version
  }

  /** The write changes an existing row: a versioned update, or the super-admin command
      activating an assignment that is already there. */
  ghost predicate Updates(s: Store, w: Write, table: Table, id: Id) {
    || (w.Mutation? && exists version :: UpdatesAt(w.statement, table, id, version))
    || (w.SuperAdmin? && table == Bindings && id in s.bindings
        && SameAssignment(s.bindings[id], AdminRow(w.roleId, w.subject, w.adminType)))
  }

  function Inserted(s: Store, table: Table, id: Id): nat {
    if Present(s, table, id) then 1 else 0
  }

  ghost function Changes(s: Store, w: Write, table: Table, id: Id): nat {
    if Updates(s, w, table, id) then 1 else 0
  }

  lemma StatementVersions(s: Store, w: Write, st: Statement, table: Table, id: Id)
    requires (w.Mutation? && st == w.statement && ServiceStatement(st))
             || (w.SuperAdmin? && st == UpsertAdminBinding(w.roleId, w.subject, w.adminType))
    requires Rejection(s, st) == None
    ensures RowVersion(After(s, st), table, id) - Inserted(After(s, st), table, id) ==
            RowVersion(s, table, id) - Inserted(s, table, id) + Changes(s, w, table, id)
  {
    match table
    case Permissions =>
      assert st.UpdatePermission? && st.id == id ==> UpdatesAt(st, table, id, st.version);
    case Roles =>
      assert st.UpdateRole? && st.id == id ==> UpdatesAt(st, table, id, st.version);
    case RolePermissions =>
      assert st.UpdateRolePermission? && st.id == id ==> UpdatesAt(st, table, id, st.version);
    case Bindings =>
      assert st.UpdateBinding? && st.id == id ==> UpdatesAt(st, table, id, st.version);
  }

  lemma SameTables(s: Store, s2: Store, table: Table, id: Id)
    requires s2.permissions == s.permissions && s2.roles == s.roles
    requires s2.rolePermissions == s.rolePermissions && s2.bindings == s.bindings
    ensures RowVersion(s2, table, id) == RowVersion(s, table, id) && Inserted(s2, table, id) == Inserted(s, table, id)
  {
  }

  lemma AddedTables(s: Store, s2: Store, t: string, owner: string, table: Table, id: Id)
    requires AddsAtMost(s.permissions, s2.permissions, Boot(BootPermission, t), OwnerPermission(t))
    requires AddsAtMost(s.roles, s2.roles, Boot(BootRole, t), OwnerRole(t))
    requires AddsAtMost(s.rolePermissions, s2.rolePermissions, Boot(BootRolePermission, t), OwnerPair(t))
    requires AddsAtMost(s.bindings, s2.bindings, Boot(BootBinding(owner), t), OwnerBinding(t, owner))
    ensures RowVersion(s2, table, id) - Inserted(s2, table, id) == RowVersion(s, table, id) - Inserted(s, table, id)
  {
  }

  /** One write moves a row's version by one exactly when it updates the row and commits. */
  lemma WriteVersions(s: Store, w: Write, table: Table, id: Id)
    requires Admissible(s, w)
    ensures RowVersion(Apply(s, w), table, id) - Inserted(Apply(s, w), table, id) ==
            RowVersion(s, table, id) - Inserted(s, table, id)
            + (if Effective(s, w) then Changes(s, w, table, id) else 0)
  {
    match w
    case Mutation(_, _, _, _, _) =>
      MutationRuns(s, w);
      if Rejection(s, w.statement) == None {
        StatementVersions(s, w, w.statement, table, id);
        SameTables(After(s, w.statement), Apply(s, w), table, id);
      }
    case SuperAdmin(_, _, _) =>
      AdminRuns(s, w);
      var st := UpsertAdminBinding(w.roleId, w.subject, w.adminType);
      if Rejection(s, st) == None {
        StatementVersions(s, w, st, table, id);
        SameTables(After(s, st), Apply(s, w), table, id);
      }
    case GroupChanged(_, _, _, _, _, _) =>
      Redelivery(s, w);
      if w.eventId !in s.processed {
        GroupRuns(s, w);
        SameTables(s, Apply(s, w), table, id);
      }
    case TenantCreated(_, _, _) =>
      Redelivery(s, w);
      if w.eventId !in s.processed {
        BootstrapRuns(s, w);
        if Outcome(s, w).Committed? {
          EffectAdds(s, w, Apply(s, w));
          AddedTables(s, Apply(s, w), w.tenant, w.owner, table, id);
        }
      }
  }

  /** Successful updates of one row among the first `n` steps. */
  ghost function UpdateCount(h: History, table: Table, id: Id, n: nat): nat
    requires n <= |h.steps| < |h.stores|
  {
    if n == 0 then 0
    else UpdateCount(h, table, id, n - 1) +
         if h.steps[n - 1].effective then Changes(h.stores[n - 1], h.steps[n - 1].write, table, id) else 0
  }

  lemma StepVersions(h: History, compiles: string -> bool, i: nat, table: Table, id: Id)
    requires ValidHistory(h, compiles) && i < |h.steps|
    ensures RowVersion(h.stores[i + 1], table, id) - Inserted(h.stores[i + 1], table, id) ==
            RowVersion(h.stores[i], table, id) - Inserted(h.stores[i], table, id)
            + (if h.steps[i].effective then Changes(h.stores[i], h.steps[i].write, table, id) else 0)
  {
    ReachableStep(h, compiles, i);
    assert ValidStep(h, i, compiles);
    WriteVersions(h.stores[i], h.steps[i].write, table, id);
  }

  /** In every run the version of an existing row is one plus its successful updates. */
  lemma {:induction false} RowVersionConservation(h: History, compiles: string -> bool, table: Table, id: Id, n: nat)
    requires ValidHistory(h, compiles) && n <= |h.steps|
    ensures RowVersion(h.stores[n], table, id) == Inserted(h.stores[n], table, id) + UpdateCount(h, table, id, n)
  {
    if n > 0 {
      RowVersionConservation(h, compiles, table, id, n - 1);
      StepVersions(h, compiles, n - 1, table, id);
    }
  }

  lemma UpdateSeesVersion(s: Store, w: Write, table: Table, id: Id, version: int)
    requires w.Mutation? && UpdatesAt(w.statement, table, id, version) && Effective(s, w)
    ensures RowVersion(s, table, id) == version && Present(s, table, id)
    ensures RowVersion(Apply(s, w), table, id) == version + 1
  {
    MutationRuns(s, w);
    SameTables(After(s, w.statement), Apply(s, w), table, id);
  }

  lemma VersionsGrow(s: Store, s2: Store, table: Table, id: Id)
    requires Evolves(s, s2) && Present(s, table, id)
    ensures Present(s2, table, id) && RowVersion(s, table, id) <= RowVersion(s2, table, id)
    ensures RowVersion(s, table, id) == RowVersion(s2, table, id) ==> SameRow(s, s2, table, id)
  {
  }

  /** Step `i` is a committed update of the row that names version `v`. */
  ghost predicate UpdatedAt(h: History, i: nat, table: Table, id: Id, v: int)
    requires i < |h.steps|
  {
    h.steps[i].effective && h.steps[i].write.Mutation? && UpdatesAt(h.steps[i].write.statement, table, id, v)
  }

  lemma UpdateAtStep(h: History, compiles: string -> bool, i: nat, table: Table, id: Id, v: int)
    requires ValidHistory(h, compiles) && i < |h.steps| && UpdatedAt(h, i, table, id, v)
    ensures Present(h.stores[i], table, id) && RowVersion(h.stores[i], table, id) == v
    ensures Present(h.stores[i + 1], table, id) && RowVersion(h.stores[i + 1], table, id) == v + 1
  {
    assert ValidStep(h, i, compiles);
    UpdateSeesVersion(h.stores[i], h.steps[i].write, table, id, v);
    ReachableGrows(h, compiles, i, i + 1, table, id);
  }

  lemma ReachableGrows(h: History, compiles: string -> bool, i: nat, j: nat, table: Table, id: Id)
    requires ValidHistory(h, compiles) && i <= j < |h.stores| && Present(h.stores[i], table, id)
    ensures Present(h.stores[j], table, id) && RowVersion(h.stores[i], table, id) <= RowVersion(h.stores[j], table, id)
    ensures RowVersion(h.stores[i], table, id) == RowVersion(h.stores[j], table, id) ==>
              SameRow(h.stores[i], h.stores[j], table, id)
  {
    ReachableEvolves(h, compiles, i, j);
    VersionsGrow(h.stores[i], h.stores[j], table, id);
  }

  /** At most one update succeeds per row version: of two successful updates of a row, the
      later one named a greater version. */
  lemma OneUpdatePerVersion(h: History, compiles: string -> bool, i: nat, j: nat, table: Table, id: Id, v: int, v2: int)
    requires ValidHistory(h, compiles) && i < j < |h.steps| && UpdatedAt(h, i, table, id, v)
             && UpdatedAt(h, j, table, id, v2)
    ensures v < v2
  {
    UpdateAtStep(h, compiles, i, table, id, v);
    UpdateAtStep(h, compiles, j, table, id, v2);
    ReachableGrows(h, compiles, i + 1, j, table, id);
  }

  /** No lost update: when an update naming version `v` succeeds, the row it replaces is the
      very row that anyone who read version `v` earlier has seen. */
  lemma NoLostUpdate(h: History, compiles: string -> bool, k: nat, i: nat, table: Table, id: Id, v: int)
    requires ValidHistory(h, compiles) && k <= i < |h.steps|
    requires UpdatedAt(h, i, table, id, v)
    requires Present(h.stores[k], table, id) && RowVersion(h.stores[k], table, id) == v
    ensures SameRow(h.stores[k], h.stores[i], table, id)
  {
    UpdateAtStep(h, compiles, i, table, id, v);
    ReachableGrows(h, compiles, k, i, table, id);
  }

  /** Granting a revoked pair again revives its row in place; in every reachable store a
      (role, permission) pair has one row at most. */
  lemma GrantRevivesInPlace(h: History, compiles: string -> bool, i: nat, ctx: Context, op: Operation, pair: Id)
    requires ValidHistory(h, compiles) && i < |h.stores| && op.GrantRolePermission?
    requires IsPair(h.stores[i], op.tenant, op.roleId, op.permissionId, pair)
    requires Prepare(ctx, op, h.stores[i], compiles).Issue?
    ensures
      var s, w := h.stores[i], Prepare(ctx, op, h.stores[i], compiles).write;
      && w.statement == UpdateRolePermission(op.tenant, pair, Active, s.rolePermissions[pair].version)
      && Effective(s, w) && Apply(s, w).rolePermissions.Keys == s.rolePermissions.Keys
      && Apply(s, w).rolePermissions[pair].status == Active
      && forall g :: IsPair(s, op.tenant, op.roleId, op.permissionId, g) ==> g == pair
  {
    Reachable(h, compiles, i);
    var s := h.stores[i];
    forall g | IsPair(s, op.tenant, op.roleId, op.permissionId, g) ensures g == pair {
      assert SamePair(s.rolePermissions[g], s.rolePermissions[pair]);
    }
    MutationRuns(s, Prepare(ctx, op, s, compiles).write);
  }
}
