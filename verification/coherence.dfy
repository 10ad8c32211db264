/** Single-process cache coherence: in every run, a cache hit equals a fresh decision on the
    current store, although events invalidate one subject only. */
module Coherence {
  import opened Schema
  import opened Text
  import opened Resolution
  import opened Transactions
  import opened TenantBootstrap
  import opened GroupProjection
  import opened Access
  import opened Histories
  import opened CacheKey
  import opened DecisionCache
  import opened Service
  import opened Granting

  /** The atomic steps of one process, and the super-admin command, which runs beside it.
      A mutation may have made its checks on the store of an earlier moment. */
  datatype Event =
    | Check(request: Request, now: int)
    | Mutate(context: Context, operation: Operation, snapshot: nat)
    | GroupChange(delivery: Delivery)
    | TenantCreation(eventId: string, tenant: string, owner: string)
    | InvalidationMessage(tenant: string)
    | SubjectInvalidation(tenant: string, subject: string, subjectType: SubjectType)
    | RepairPass(versions: map<string, nat>, poll: string -> Option<nat>)
    | AdminGrant(roleId: Id, subject: string, subjectType: SubjectType)

  datatype Run = Run(nodes: seq<Node>, events: seq<Event>)

  ghost predicate Next(cel: Cel, ttl: int, compiles: string -> bool, run: Run, i: nat)
    requires i < |run.events| < |run.nodes|
  {
    var n, n2 := run.nodes[i], run.nodes[i + 1];
    match run.events[i]
    case Check(r, now) => exists result :: CheckStep(cel, ttl, n, r, now, n2, result)
    case Mutate(ctx, op, snapshot) =>
      && snapshot <= i
      && n2 == (match Prepare(ctx, op, run.nodes[snapshot].store, compiles)
                case Issue(w) => AfterMutation(n, w)
                case _ => n)
    case GroupChange(d) => n2 == AfterGroupEvent(n, d)
    case TenantCreation(eventId, tenant, owner) => n2 == AfterTenantCreated(n, eventId, tenant, owner)
    case InvalidationMessage(tenant) => n2 == n.(cache := TenantInvalidated(n.cache, tenant))
    case SubjectInvalidation(tenant, subject, t) => n2 == n.(cache := SubjectInvalidated(n.cache, tenant, subject, t))
    case RepairPass(versions, poll) => n2 == n.(cache := Repaired(n.cache, versions, poll))
    case AdminGrant(roleId, subject, t) =>
      AdminSubject(subject, t) && n2 == n.(store := Apply(n.store, SuperAdmin(roleId, subject, t)))
  }

  /** A run starts with an empty cache on any store that satisfies the invariants. */
  ghost predicate ValidRun(cel: Cel, ttl: int, compiles: string -> bool, run: Run) {
    && |run.nodes| == |run.events| + 1
    && Good(run.nodes[0].store) && run.nodes[0].cache == map[]
    && (forall i :: 0 <= i < |run.events| ==> Next(cel, ttl, compiles, run, i))
  }

  /** The entry under the key of `r`, if there is one, is the decision on the current store. */
  ghost predicate UpToDate(cel: Cel, n: Node, r: Request) {
    Key(r) in n.cache ==> View(n.cache[Key(r)].decision) == FreshVerdict(cel, n.store, r)
  }

  // ----- What every step keeps of the store -----

  predicate LowerCaseRow(row: Permission) {
    Lower(row.resourceType) == row.resourceType && Lower(row.action) == row.action
  }

  ghost predicate LowerCasePermissions(m: map<Id, Permission>) {
    forall p :: p in m ==> LowerCaseRow(m[p])
  }

  predicate InsertsLowerCase(st: Statement) {
    st.InsertPermission? ==> LowerCaseRow(st.permission)
  }

  /** A permission that a mutation inserts is lower-case. */
  predicate WritesLowerCase(w: Write) {
    w.Mutation? ==> InsertsLowerCase(w.statement)
  }

  /** The store is unchanged, or changed by one admissible write. */
  ghost predicate Wrote(s: Store, s2: Store) {
    s2 == s || exists w :: Admissible(s, w) && WritesLowerCase(w) && s2 == Apply(s, w)
  }

  lemma WroteKeeps(s: Store, s2: Store)
    requires Good(s) && Wrote(s, s2)
    ensures Good(s2) && Evolves(s, s2)
  {
    if s2 == s {
      EvolvesReflexive(s);
    } else {
      var w :| Admissible(s, w) && s2 == Apply(s, w);
      WriteKeepsGood(s, w);
    }
  }

  function Stores(nodes: seq<Node>): (stores: seq<Store>)
    ensures |stores| == |nodes| && forall i :: 0 <= i < |nodes| ==> stores[i] == nodes[i].store
  {
    seq(|nodes|, i requires 0 <= i < |nodes| => nodes[i].store)
  }

  /** The stores up to moment `n` satisfy the invariants and evolve. */
  ghost predicate SoundUpTo(run: Run, n: nat)
    requires n < |run.nodes|
  {
    && (forall k :: 0 <= k <= n ==> Good(run.nodes[k].store))
    && (forall k :: 0 <= k < n ==> EvolvesAt(Stores(run.nodes), k))
  }

  /** A mutation checked on an earlier store is admissible. */
  lemma IssuedIsAdmissible(run: Run, i: nat, compiles: string -> bool, ctx: Context, op: Operation, snapshot: nat)
    requires snapshot <= i < |run.nodes| && SoundUpTo(run, i)
    requires Prepare(ctx, op, run.nodes[snapshot].store, compiles).Issue?
    ensures
      var w := Prepare(ctx, op, run.nodes[snapshot].store, compiles).write;
      w.Mutation? && Admissible(run.nodes[i].store, w) && WritesLowerCase(w)
  {
    var w := Prepare(ctx, op, run.nodes[snapshot].store, compiles).write;
    ChainEvolves(Stores(run.nodes), snapshot, i);
    ClearedStaysAdmissible(ctx, run.nodes[snapshot].store, run.nodes[i].store, w);
  }

  lemma MutateWrites(run: Run, i: nat, compiles: string -> bool, ctx: Context, op: Operation, snapshot: nat)
    requires snapshot <= i < |run.nodes| && SoundUpTo(run, i)
    requires Prepare(ctx, op, run.nodes[snapshot].store, compiles).Issue?
    ensures Wrote(run.nodes[i].store,
                  AfterMutation(run.nodes[i], Prepare(ctx, op, run.nodes[snapshot].store, compiles).write).store)
  {
    var s, w := run.nodes[i].store, Prepare(ctx, op, run.nodes[snapshot].store, compiles).write;
    IssuedIsAdmissible(run, i, compiles, ctx, op, snapshot);
    assert AfterMutation(run.nodes[i], w).store == Apply(s, w);
  }

  lemma EventWrites(n: Node, d: Delivery)
    ensures Wrote(n.store, AfterGroupEvent(n, d).store)
  {
    if Accepted(d.event) {
      assert AfterGroupEvent(n, d).store == Apply(n.store, WriteOf(d)) && Admissible(n.store, WriteOf(d));
    }
  }

  lemma CreationWrites(n: Node, eventId: string, tenant: string, owner: string)
    ensures Wrote(n.store, AfterTenantCreated(n, eventId, tenant, owner).store)
  {
    if eventId != "" && tenant != "" && owner != "" {
      var w := TenantCreated(eventId, tenant, owner);
      assert AfterTenantCreated(n, eventId, tenant, owner).store == Apply(n.store, w) && Admissible(n.store, w);
    }
  }

  lemma StepWrites(cel: Cel, ttl: int, compiles: string -> bool, run: Run, i: nat)
    requires i < |run.events| < |run.nodes| && SoundUpTo(run, i) && Next(cel, ttl, compiles, run, i)
    ensures Wrote(run.nodes[i].store, run.nodes[i + 1].store)
  {
    match run.events[i]
    case Mutate(ctx, op, snapshot) =>
      if Prepare(ctx, op, run.nodes[snapshot].store, compiles).Issue? {
        MutateWrites(run, i, compiles, ctx, op, snapshot);
      }
    case GroupChange(d) => EventWrites(run.nodes[i], d);
    case TenantCreation(eventId, tenant, owner) => CreationWrites(run.nodes[i], eventId, tenant, owner);
    case AdminGrant(roleId, subject, t) =>
      var w := SuperAdmin(roleId, subject, t);
      assert Admissible(run.nodes[i].store, w);
    case _ =>
  }

  lemma SoundStep(run: Run, i: nat)
    requires i + 1 < |run.nodes| && SoundUpTo(run, i) && Wrote(run.nodes[i].store, run.nodes[i + 1].store)
    ensures SoundUpTo(run, i + 1)
  {
    WroteKeeps(run.nodes[i].store, run.nodes[i + 1].store);
    assert EvolvesAt(Stores(run.nodes), i);
  }

  lemma NextIsSound(cel: Cel, ttl: int, compiles: string -> bool, run: Run, i: nat)
    requires i < |run.events| < |run.nodes| && SoundUpTo(run, i) && Next(cel, ttl, compiles, run, i)
    ensures SoundUpTo(run, i + 1)
  {
    StepWrites(cel, ttl, compiles, run, i);
    SoundStep(run, i);
  }

  lemma EventAt(cel: Cel, ttl: int, compiles: string -> bool, run: Run, i: nat)
    requires ValidRun(cel, ttl, compiles, run) && i < |run.events|
    ensures Next(cel, ttl, compiles, run, i)
  {
  }

  lemma {:induction false} RunIsSound(cel: Cel, ttl: int, compiles: string -> bool, run: Run, n: nat)
    requires ValidRun(cel, ttl, compiles, run) && n < |run.nodes|
    ensures SoundUpTo(run, n)
  {
    if n > 0 {
      RunIsSound(cel, ttl, compiles, run, n - 1);
      EventAt(cel, ttl, compiles, run, n - 1);
      NextIsSound(cel, ttl, compiles, run, n - 1);
    }
  }

  // ----- What every step keeps of the cache -----

  lemma CheckKeepsFresh(cel: Cel, ttl: int, n: Node, q: Request, now: int, n2: Node, result: CheckResult, r: Request)
    requires UpToDate(cel, n, r) && CheckStep(cel, ttl, n, q, now, n2, result)
    requires Key(q) == Key(r) ==> FreshVerdict(cel, n.store, q) == FreshVerdict(cel, n.store, r)
    ensures UpToDate(cel, n2, r)
  {
  }

  lemma RemovalKeepsFresh(cel: Cel, n: Node, n2: Node, r: Request)
    requires UpToDate(cel, n, r) && n2.store == n.store
    requires Key(r) in n2.cache ==> Key(r) in n.cache && n2.cache[Key(r)] == n.cache[Key(r)]
    ensures UpToDate(cel, n2, r)
  {
  }

  /** The identifiers of the request that invalidation trims carry no surrounding white space:
      the tenant, and the subject if it is a membership, the kind that events invalidate. */
  predicate Neat(r: Request) {
    Trimmed(r.tenant) && (r.subjectType == Membership ==> Trimmed(r.subject))
  }

  /** After a mutation the tenant's entries are gone and the other tenants' still hold. */
  lemma MutationKeepsFresh(cel: Cel, n: Node, w: Write, r: Request)
    requires w.Mutation? && Good(n.store) && Admissible(n.store, w) && Neat(r) && UpToDate(cel, n, r)
    ensures UpToDate(cel, AfterMutation(n, w), r)
  {
    if r.tenant == w.tenant {
      TrimLaws(w.tenant);
      KeyStartsWithTenant(r);
      assert HasPrefix(Key(r), TenantPrefix(w.tenant));
    } else {
      OtherTenantsUnaffected(n.store, w, r);
    }
  }

  lemma SubjectEntriesLeave<V>(cache: map<string, V>, tenant: string, subject: string, t: SubjectType, r: Request)
    requires Trimmed(tenant) && Trimmed(subject) && tenant != "" && subject != ""
    requires r.tenant == tenant && r.subject == subject && r.subjectType == t
    ensures Key(r) !in SubjectInvalidated(cache, tenant, subject, t)
  {
    TrimLaws(tenant);
    TrimLaws(subject);
    KeyStartsWithSubject(r);
    assert HasPrefix(Key(r), SubjectPrefix(tenant, subject, t));
  }

  /** A group event invalidates one membership, and that is enough. */
  lemma GroupKeepsFresh(cel: Cel, n: Node, d: Delivery, r: Request)
    requires Neat(r) && UpToDate(cel, n, r)
    ensures UpToDate(cel, AfterGroupEvent(n, d), r)
  {
    if Accepted(d.event) {
      var e := d.event;
      if r.tenant == e.tenant && r.subject == e.membership && r.subjectType == Membership {
        SubjectEntriesLeave(n.cache, e.tenant, e.membership, Membership, r);
      } else {
        OnlyMemberAffected(n.store, WriteOf(d), r);
      }
    }
  }

  /** A bootstrap invalidates the owner, and that is enough. */
  lemma BootstrapKeepsFresh(cel: Cel, n: Node, eventId: string, tenant: string, owner: string, r: Request)
    requires Good(n.store) && Neat(r) && UpToDate(cel, n, r)
    ensures UpToDate(cel, AfterTenantCreated(n, eventId, tenant, owner), r)
  {
    if eventId != "" && tenant != "" && owner != "" {
      var w := TenantCreated(eventId, tenant, owner);
      if OwnedBy(w, r) {
        SubjectEntriesLeave(n.cache, tenant, owner, Membership, r);
      } else {
        OnlyOwnerAffected(n.store, w, r);
      }
    }
  }

  /** A super-admin grant reaches no cache, but concerns one subject only. */
  lemma AdminKeepsFresh(cel: Cel, n: Node, w: Write, r: Request)
    requires w.SuperAdmin? && w.adminType != Group && !GrantedTo(w, r) && UpToDate(cel, n, r)
    ensures UpToDate(cel, n.(store := Apply(n.store, w)), r)
  {
    OnlyAdminAffected(n.store, w, r);
  }

  /** What a decision needs so that one more matching grant changes nothing. */
  predicate Absorbs(v: Verdict, x: Grant) {
    && v.Verdict? && v.allowed && ScopeRank(x.scope) <= ScopeRank(v.scope)
    && (x.scope == OrganizationScope && x.unit != "" ==> x.unit in v.units)
  }

  /** No added grant errs, none is the first grant, and the matching ones are absorbed. */
  ghost predicate NothingNew(cel: Cel, r: Request, gs: set<Grant>, added: set<Grant>) {
    && (forall x :: x in added ==> Evaluate(cel, r, x.condition) != Errs)
    && (added != {} ==> gs != {})
    && (forall x :: x in added && Evaluate(cel, r, x.condition) == Holds ==> Absorbs(Judge(cel, r, gs), x))
  }

  lemma AbsorbedKeepsVerdict(cel: Cel, r: Request, gs: set<Grant>, added: set<Grant>)
    requires Judge(cel, r, gs).Verdict? && NothingNew(cel, r, gs, added)
    ensures Judge(cel, r, gs + added) == Judge(cel, r, gs)
  {
    var more := gs + added;
    MoreGrantsNeverNarrow(cel, r, gs, more);
    TopScopeIsGreatest(cel, r, gs);
    TopScopeIsGreatest(cel, r, more);
    if Allows(cel, r, more) {
      var x :| Matching(cel, r, more, x);
      assert x in gs ==> Matching(cel, r, gs, x);
    }
    if Allows(cel, r, gs) {
      AbsorbedScope(cel, r, gs, added);
      assert MatchingUnits(cel, r, more) == MatchingUnits(cel, r, gs);
    }
  }

  lemma AbsorbedScope(cel: Cel, r: Request, gs: set<Grant>, added: set<Grant>)
    requires Judge(cel, r, gs).Verdict? && NothingNew(cel, r, gs, added) && Allows(cel, r, gs)
    ensures TopScope(cel, r, gs + added) == TopScope(cel, r, gs)
  {
    var more := gs + added;
    TopScopeIsGreatest(cel, r, gs);
    TopScopeIsGreatest(cel, r, more);
    if x :| Matching(cel, r, more, x) && x.scope == TopScope(cel, r, more) {
      assert x in gs ==> Matching(cel, r, gs, x);
    }
    if x :| Matching(cel, r, gs, x) && x.scope == TopScope(cel, r, gs) {
      assert Matching(cel, r, more, x);
    }
  }

  /** Added grants leave a decision as it is exactly if they bring nothing new. */
  lemma AddedGrantsExact(cel: Cel, r: Request, gs: set<Grant>, added: set<Grant>)
    requires Judge(cel, r, gs).Verdict?
    ensures Judge(cel, r, gs + added) == Judge(cel, r, gs) <==> NothingNew(cel, r, gs, added)
  {
    if Judge(cel, r, gs + added) == Judge(cel, r, gs) {
      TopScopeIsGreatest(cel, r, gs + added);
      forall x | x in added && Evaluate(cel, r, x.condition) == Holds ensures Absorbs(Judge(cel, r, gs), x) {
        assert Matching(cel, r, gs + added, x);
      }
    } else if NothingNew(cel, r, gs, added) {
      AbsorbedKeepsVerdict(cel, r, gs, added);
    }
  }

  /** The unit of the binding a super-admin grant writes: that of the revived row, or none. */
  ghost function AdminUnit(s: Store, w: Write): string
    requires w.SuperAdmin?
  {
    if b :| b in s.bindings && SameAssignment(s.bindings[b], AdminRow(w.roleId, w.subject, w.adminType))
    then s.bindings[b].unit else ""
  }

  /** Role permission `g` of the role is active and covers the request. */
  ghost predicate RoleCovers(s: Store, role: Id, r: Request, g: Id) {
    && g in s.rolePermissions && s.rolePermissions[g].role == role && s.rolePermissions[g].status == Active
    && s.rolePermissions[g].permission in s.permissions
    && s.permissions[s.rolePermissions[g].permission].status == Active
    && ResourceMatches(s.permissions[s.rolePermissions[g].permission], r)
  }

  /** What the role gives to the request through a binding with unit `unit`. */
  ghost function RoleGrants(s: Store, role: Id, r: Request, unit: string): set<Grant>
    requires role in s.roles
  {
    set g | g in s.rolePermissions && RoleCovers(s, role, r, g) ::
      Grant(s.roles[role].scope, unit, s.permissions[s.rolePermissions[g].permission].condition)
  }

  lemma AdminBinds(s: Store, w: Write) returns (b: Id)
    requires w.SuperAdmin? && Effective(s, w) && UniqueBindings(s.bindings)
    ensures
      var n := Apply(s, w);
      && b in n.bindings
      && n.bindings[b] ==
           AdminRow(w.roleId, w.subject, w.adminType).(unit := AdminUnit(s, w), version := n.bindings[b].version)
      && (forall x :: x in n.bindings && x != b ==> x in s.bindings && n.bindings[x] == s.bindings[x])
      && (b in s.bindings ==>
            s.bindings[b] == n.bindings[b].(status := s.bindings[b].status, version := s.bindings[b].version))
      && n.roles == s.roles && n.permissions == s.permissions && n.rolePermissions == s.rolePermissions
      && n.groups == s.groups && s.bindings.Keys <= n.bindings.Keys
  {
    AdminRuns(s, w);
    var row := AdminRow(w.roleId, w.subject, w.adminType);
    if Assigned(s.bindings, row) {
      b :| b in s.bindings && SameAssignment(s.bindings[b], row);
    } else {
      b := AdminBinding(w.adminType, w.subject, w.roleId);
    }
  }

  /** The grant adds to the grants of its subject exactly what the role gives. */
  lemma AdminAddsRoleGrants(s: Store, w: Write, r: Request)
    requires w.SuperAdmin? && Effective(s, w) && UniqueBindings(s.bindings) && GrantedTo(w, r)
    requires IsSuperAdminRole(s.roles, w.roleId)
    ensures Grants(Apply(s, w), r) == Grants(s, r) + RoleGrants(s, w.roleId, r, AdminUnit(s, w))
  {
    var n := Apply(s, w);
    var b := AdminBinds(s, w);
    GrantsWithin(s, n, r);
    forall x | x in RoleGrants(s, w.roleId, r, AdminUnit(s, w)) ensures x in Grants(n, r) {
      var g :| g in s.rolePermissions && RoleCovers(s, w.roleId, r, g)
               && x == Grant(s.roles[w.roleId].scope, AdminUnit(s, w),
                             s.permissions[s.rolePermissions[g].permission].condition);
      assert Joins(n, r, b, g) && GrantOf(n, r, b, g) == x;
    }
    forall x | x in Grants(n, r) ensures x in Grants(s, r) + RoleGrants(s, w.roleId, r, AdminUnit(s, w)) {
      var b', g :| b' in n.bindings && g in n.rolePermissions && Joins(n, r, b', g) && x == GrantOf(n, r, b', g);
      if b' == b {
        assert RoleCovers(s, w.roleId, r, g);
      } else {
        assert Joins(s, r, b', g) && GrantOf(s, r, b', g) == x;
      }
    }
  }

  /** What a super-admin grant does to the cached decision of its subject, whatever the role
      carries: the entry stays right exactly if the role's grants bring nothing new. */
  lemma AdminGrantExact(cel: Cel, n: Node, w: Write, r: Request)
    requires w.SuperAdmin? && Good(n.store) && IsSuperAdminRole(n.store.roles, w.roleId) && GrantedTo(w, r)
    requires Key(r) in n.cache && UpToDate(cel, n, r)
    ensures UpToDate(cel, n.(store := Apply(n.store, w)), r) <==>
            NothingNew(cel, r, Grants(n.store, r), RoleGrants(n.store, w.roleId, r, AdminUnit(n.store, w)))
  {
    AdminSucceeds(n.store, w);
    AdminAddsRoleGrants(n.store, w, r);
    AddedGrantsExact(cel, r, Grants(n.store, r), RoleGrants(n.store, w.roleId, r, AdminUnit(n.store, w)));
  }

  /** With the role as migrated, of scope `all` and with an unconditional wildcard permission,
      that is: the decision had scope `all` and no condition of the role errs. */
  lemma UnlimitedGrantExact(cel: Cel, n: Node, w: Write, g: Id, r: Request)
    requires w.SuperAdmin? && Good(n.store) && IsSuperAdminRole(n.store.roles, w.roleId) && GrantedTo(w, r)
    requires Unlimited(n.store, w.roleId, g) && Key(r) in n.cache && UpToDate(cel, n, r)
    ensures UpToDate(cel, n.(store := Apply(n.store, w)), r) <==>
            FreshVerdict(cel, Apply(n.store, w), r) != EvaluationError && n.cache[Key(r)].decision.scope == AllScope
  {
    var gs, added := Grants(n.store, r), RoleGrants(n.store, w.roleId, r, AdminUnit(n.store, w));
    AdminGrantExact(cel, n, w, r);
    AdminVerdict(cel, n.store, w, r);
    UnlimitedRole(n.store, w.roleId, g, r, AdminUnit(n.store, w));
    UnlimitedAdded(cel, r, gs, added);
  }

  lemma AdminVerdict(cel: Cel, s: Store, w: Write, r: Request)
    requires w.SuperAdmin? && Good(s) && IsSuperAdminRole(s.roles, w.roleId) && GrantedTo(w, r)
    ensures FreshVerdict(cel, Apply(s, w), r) ==
            Judge(cel, r, Grants(s, r) + RoleGrants(s, w.roleId, r, AdminUnit(s, w)))
  {
    AdminSucceeds(s, w);
    AdminAddsRoleGrants(s, w, r);
  }

  lemma UnlimitedRole(s: Store, role: Id, g: Id, r: Request, unit: string)
    requires Unlimited(s, role, g)
    ensures forall x :: x in RoleGrants(s, role, r, unit) ==> x.scope == AllScope
    ensures exists x :: x in RoleGrants(s, role, r, unit) && x.condition == ""
  {
    assert RoleCovers(s, role, r, g);
    assert Grant(AllScope, unit, "") in RoleGrants(s, role, r, unit);
  }

  /** Grants of scope `all`, one of them unconditional, bring nothing new to scope `all` only. */
  lemma UnlimitedAdded(cel: Cel, r: Request, gs: set<Grant>, added: set<Grant>)
    requires Judge(cel, r, gs).Verdict? && forall x :: x in added ==> x.scope == AllScope
    requires exists x :: x in added && x.condition == ""
    ensures NothingNew(cel, r, gs, added) <==>
            Judge(cel, r, gs + added) != EvaluationError && Judge(cel, r, gs).scope == AllScope
  {
    TopScopeIsGreatest(cel, r, gs);
    var x :| x in added && x.condition == "";
    assert Evaluate(cel, r, x.condition) == Holds;
    if Judge(cel, r, gs + added) == EvaluationError {
      assert exists y :: y in added && Evaluate(cel, r, y.condition) == Errs;
    } else {
      assert forall y :: y in added ==> y in gs + added;
    }
  }

  /** Event `i` cannot leave the entry of `r` behind: a check under its key has the same fresh
      decision, and a super-admin grant names another subject. */
  ghost predicate Harmless(cel: Cel, run: Run, i: nat, r: Request)
    requires i < |run.events| < |run.nodes|
  {
    var e, s := run.events[i], run.nodes[i].store;
    && (e.Check? && Key(e.request) == Key(r) ==> FreshVerdict(cel, s, e.request) == FreshVerdict(cel, s, r))
    && !NamedByGrant(e, r)
  }

  /** The event is a super-admin grant to the subject of `r`, on the platform. */
  predicate NamedByGrant(e: Event, r: Request) {
    e.AdminGrant? && r.tenant == PLATFORM && r.subject == e.subject && r.subjectType == e.subjectType
  }

  lemma StepKeepsFresh(cel: Cel, ttl: int, compiles: string -> bool, run: Run, i: nat, r: Request)
    requires i < |run.events| < |run.nodes| && SoundUpTo(run, i)
    requires Next(cel, ttl, compiles, run, i) && Harmless(cel, run, i, r) && Neat(r)
    requires UpToDate(cel, run.nodes[i], r)
    ensures UpToDate(cel, run.nodes[i + 1], r)
  {
    var n, n2 := run.nodes[i], run.nodes[i + 1];
    match run.events[i]
    case Check(q, now) =>
      var result :| CheckStep(cel, ttl, n, q, now, n2, result);
      CheckKeepsFresh(cel, ttl, n, q, now, n2, result, r);
    case Mutate(ctx, op, snapshot) =>
      if Prepare(ctx, op, run.nodes[snapshot].store, compiles).Issue? {
        IssuedIsAdmissible(run, i, compiles, ctx, op, snapshot);
        MutationKeepsFresh(cel, n, Prepare(ctx, op, run.nodes[snapshot].store, compiles).write, r);
      }
    case GroupChange(d) => GroupKeepsFresh(cel, n, d, r);
    case TenantCreation(eventId, tenant, owner) => BootstrapKeepsFresh(cel, n, eventId, tenant, owner, r);
    case AdminGrant(roleId, subject, t) => AdminKeepsFresh(cel, n, SuperAdmin(roleId, subject, t), r);
    case _ => RemovalKeepsFresh(cel, n, n2, r);
  }

  // ----- The theorem -----

  ghost predicate AllHarmless(cel: Cel, run: Run, n: nat, r: Request)
    requires n <= |run.events| < |run.nodes|
  {
    forall i :: 0 <= i < n ==> Harmless(cel, run, i, r)
  }

  lemma NextIsFresh(cel: Cel, ttl: int, compiles: string -> bool, run: Run, i: nat, r: Request)
    requires ValidRun(cel, ttl, compiles, run) && i < |run.events| && Harmless(cel, run, i, r) && Neat(r)
    requires UpToDate(cel, run.nodes[i], r)
    ensures UpToDate(cel, run.nodes[i + 1], r)
  {
    RunIsSound(cel, ttl, compiles, run, i);
    EventAt(cel, ttl, compiles, run, i);
    StepKeepsFresh(cel, ttl, compiles, run, i, r);
  }

  lemma {:induction false} RunIsFresh(cel: Cel, ttl: int, compiles: string -> bool, run: Run, n: nat, r: Request)
    requires ValidRun(cel, ttl, compiles, run) && n < |run.nodes| && AllHarmless(cel, run, n, r) && Neat(r)
    ensures UpToDate(cel, run.nodes[n], r)
  {
    if n > 0 {
      RunIsFresh(cel, ttl, compiles, run, n - 1, r);
      assert Harmless(cel, run, n - 1, r);
      NextIsFresh(cel, ttl, compiles, run, n - 1, r);
    }
  }

  /** Resource type and action are lower-case already, as the cache key makes them. */
  predicate Folded(r: Request) {
    Lower(r.resourceType) == r.resourceType && Lower(r.action) == r.action
  }

  ghost predicate Proper(r: Request) {
    Encodable(r) && Folded(r)
  }

  /** Proper requests never share a key, so they meet the condition of HitsAreFresh. */
  lemma ProperKeysDiffer(q: Request, r: Request)
    requires Proper(q) && Proper(r)
    ensures Key(q) == Key(r) <==> q == r
  {
    KeysAreCanonical(q, r);
  }

  /** Cache coherence: over every run of mutations, events, invalidations, repairs and checks
      in which no other request shares the key of `r`, whatever a check of `r` returns is the
      fresh decision on the store at that moment. */
  lemma HitsAreFresh(cel: Cel, ttl: int, compiles: string -> bool, run: Run, n: nat, r: Request, now: int, next: Node,
                     result: CheckResult)
    requires ValidRun(cel, ttl, compiles, run) && n < |run.nodes| && Neat(r)
    requires forall i :: 0 <= i < n && run.events[i].Check? && Key(run.events[i].request) == Key(r) ==>
               run.events[i].request == r
    requires forall i :: 0 <= i < n ==> !NamedByGrant(run.events[i], r)
    requires CheckStep(cel, ttl, run.nodes[n], r, now, next, result) && result.Returned?
    ensures View(result.decision) == FreshVerdict(cel, run.nodes[n].store, r)
  {
    forall i | 0 <= i < n ensures Harmless(cel, run, i, r) {
    }
    RunIsFresh(cel, ttl, compiles, run, n, r);
  }

  // ----- Letter case -----

  predicate Hit(n: Node, key: string, now: int) {
    key in n.cache && now < n.cache[key].expiresAt
  }

  /** All checks are in `qs`, and no super-admin grant names the subject of `r`. */
  ghost predicate ChecksWithin(events: seq<Event>, qs: iset<Request>, r: Request) {
    forall i :: 0 <= i < |events| ==> (events[i].Check? ==> events[i].request in qs) && !NamedByGrant(events[i], r)
  }

  /** The permissions are lower-case, as CreatePermission makes them. */
  ghost predicate LowerCase(s: Store) {
    LowerCasePermissions(s.permissions)
  }

  /** Hits of `r` are fresh in every run whose checks lie in `qs`; with `lower`, in every such
      run that starts with lower-case permissions. */
  ghost predicate SafeFor(cel: Cel, ttl: int, compiles: string -> bool, qs: iset<Request>, r: Request, lower: bool) {
    forall run, n: nat, now ::
      ValidRun(cel, ttl, compiles, run) && n < |run.nodes| && ChecksWithin(run.events, qs, r)
      && (lower ==> LowerCase(run.nodes[0].store)) && Hit(run.nodes[n], Key(r), now)
      ==> UpToDate(cel, run.nodes[n], r)
  }

  // A store with one permission, granted without condition to the subject of `r`.

  function PatternStore(r: Request, resourceType: string, action: string): Store {
    Store(
      map[Fresh(0) := Permission(r.tenant, "p", resourceType, action, "", Active, 1)],
      map[Fresh(1) := Role(r.tenant, "r", AllScope, Active, 1)],
      map[Fresh(2) := RolePermission(r.tenant, Fresh(1), Fresh(0), Active, 1)],
      map[Fresh(3) := Binding(r.tenant, r.subject, r.subjectType, Fresh(1), "", Active, 1)],
      map[], map[], {}, [])
  }

  lemma PatternStoreIsGood(r: Request, resourceType: string, action: string)
    ensures Good(PatternStore(r, resourceType, action))
  {
  }

  predicate Matches(r: Request, resourceType: string, action: string) {
    (resourceType == r.resourceType || resourceType == "*") && (action == r.action || action == "*")
  }

  function PatternDecision(matches: bool): Decision {
    if matches then Decision(true, 0, MatchingGrant, 0, AllScope, []) else Decision(false, 0, NoGrant, 0, NoScope, [])
  }

  predicate SameSubject(q: Request, r: Request) {
    q.tenant == r.tenant && q.subject == r.subject && q.subjectType == r.subjectType
  }

  lemma PatternGrants(r: Request, q: Request, resourceType: string, action: string)
    requires SameSubject(q, r)
    ensures Grants(PatternStore(r, resourceType, action), q) ==
            if Matches(q, resourceType, action) then {Grant(AllScope, "", "")} else {}
  {
    var s := PatternStore(r, resourceType, action);
    assert ResourceMatches(s.permissions[Fresh(0)], q) <==> Matches(q, resourceType, action);
    if Matches(q, resourceType, action) {
      assert Joins(s, q, Fresh(3), Fresh(2));
      assert GrantOf(s, q, Fresh(3), Fresh(2)) == Grant(AllScope, "", "");
    }
  }

  lemma PatternVerdict(cel: Cel, r: Request, q: Request, resourceType: string, action: string)
    requires SameSubject(q, r)
    ensures FreshVerdict(cel, PatternStore(r, resourceType, action), q) ==
            View(PatternDecision(Matches(q, resourceType, action)))
  {
    PatternGrants(r, q, resourceType, action);
    var gs, grant := {Grant(AllScope, "", "")}, Grant(AllScope, "", "");
    assert Matching(cel, q, gs, grant);
    assert MatchesScope(cel, q, gs, AllScope);
    assert MatchingUnits(cel, q, gs) == {};
  }

  /** One check of `q` on the pattern store. */
  function OneCheck(s: Store, q: Request, key: string, ttl: int, decision: Decision): Run {
    Run([Node(s, map[]), Node(s, map[key := Entry(decision, ttl)])], [Check(q, 0)])
  }

  lemma OneCheckIsValid(cel: Cel, ttl: int, compiles: string -> bool, s: Store, q: Request, decision: Decision)
    requires ValidRequest(q) && Good(s) && decision.units == []
    requires FreshVerdict(cel, s, q) == View(decision) && decision.policyVersion == PolicyVersion(s, q.tenant)
    ensures ValidRun(cel, ttl, compiles, OneCheck(s, q, Key(q), ttl, decision))
  {
    var run := OneCheck(s, q, Key(q), ttl, decision);
    assert CheckStep(cel, ttl, run.nodes[0], q, 0, run.nodes[1], Returned(decision, false));
    assert Next(cel, ttl, compiles, run, 0);
  }

  /** A check of `q` that decides differently from `r` under the same key spoils `r`. */
  lemma StaleCheck(cel: Cel, ttl: int, compiles: string -> bool, qs: iset<Request>, r: Request, lower: bool,
                   s: Store, q: Request, decision: Decision)
    requires q in qs && Key(q) == Key(r) && ValidRequest(q) && ttl > 0 && Good(s) && (lower ==> LowerCase(s))
    requires decision.units == [] && decision.policyVersion == PolicyVersion(s, q.tenant)
    requires FreshVerdict(cel, s, q) == View(decision) != FreshVerdict(cel, s, r)
    ensures !SafeFor(cel, ttl, compiles, qs, r, lower)
  {
    var run := OneCheck(s, q, Key(q), ttl, decision);
    OneCheckIsValid(cel, ttl, compiles, s, q, decision);
    OneCheckSpoils(cel, ttl, qs, r, s, q, decision);
    Refuted(cel, ttl, compiles, qs, r, lower, run, 1, 0);
  }

  lemma OneCheckSpoils(cel: Cel, ttl: int, qs: iset<Request>, r: Request, s: Store, q: Request, decision: Decision)
    requires q in qs && Key(q) == Key(r) && ttl > 0 && View(decision) != FreshVerdict(cel, s, r)
    ensures
      var run := OneCheck(s, q, Key(q), ttl, decision);
      ChecksWithin(run.events, qs, r) && Hit(run.nodes[1], Key(r), 0) && !UpToDate(cel, run.nodes[1], r)
  {
  }

  /** Two requests under one key, told apart by some permission. */
  lemma SharedKeyIsStale(cel: Cel, ttl: int, compiles: string -> bool, qs: iset<Request>, r: Request, q: Request,
                         resourceType: string, action: string, lower: bool)
    requires q in qs && Key(q) == Key(r) && SameSubject(q, r) && ValidRequest(q) && ttl > 0
    requires Matches(q, resourceType, action) != Matches(r, resourceType, action)
    requires lower ==> Lower(resourceType) == resourceType && Lower(action) == action
    ensures !SafeFor(cel, ttl, compiles, qs, r, lower)
  {
    PatternStoreIsGood(r, resourceType, action);
    PatternVerdict(cel, r, q, resourceType, action);
    PatternVerdict(cel, r, r, resourceType, action);
    StaleCheck(cel, ttl, compiles, qs, r, lower, PatternStore(r, resourceType, action), q,
               PatternDecision(Matches(q, resourceType, action)));
  }

  /** One run with a stale hit refutes safety. */
  lemma Refuted(cel: Cel, ttl: int, compiles: string -> bool, qs: iset<Request>, r: Request, lower: bool, run: Run,
                n: nat, now: int)
    requires ValidRun(cel, ttl, compiles, run) && n < |run.nodes| && ChecksWithin(run.events, qs, r)
    requires (lower ==> LowerCase(run.nodes[0].store)) && Hit(run.nodes[n], Key(r), now)
             && !UpToDate(cel, run.nodes[n], r)
    ensures !SafeFor(cel, ttl, compiles, qs, r, lower)
  {
  }

  lemma StarIsLowerCase(s: string)
    ensures Lower(s) == "*" ==> s == "*"
  {
    if Lower(s) == "*" {
      assert |s| == 1 && Lower(s)[0] == '*';
    }
  }

  /** `qs` contains `r`; its members are valid and encoded without ambiguity. */
  ghost predicate Askable(qs: iset<Request>, r: Request, ks: iset<string>) {
    NoExtension(ks) && r in qs && forall q :: q in qs ==> EncodableOver(q, ks) && ValidRequest(q)
  }

  lemma AllAreHarmless(cel: Cel, run: Run, n: nat, qs: iset<Request>, r: Request)
    requires n <= |run.events| < |run.nodes| && ChecksWithin(run.events, qs, r)
    requires forall q, i :: q in qs && Key(q) == Key(r) && 0 <= i < n ==>
               FreshVerdict(cel, run.nodes[i].store, q) == FreshVerdict(cel, run.nodes[i].store, r)
    ensures AllHarmless(cel, run, n, r)
  {
  }

  lemma UnsharedIsFresh(cel: Cel, ttl: int, compiles: string -> bool, run: Run, n: nat, qs: iset<Request>, r: Request)
    requires ValidRun(cel, ttl, compiles, run) && n < |run.nodes| && ChecksWithin(run.events, qs, r) && Neat(r)
    requires forall q :: q in qs && Key(q) == Key(r) ==> q == r
    ensures UpToDate(cel, run.nodes[n], r)
  {
    AllAreHarmless(cel, run, n, qs, r);
    RunIsFresh(cel, ttl, compiles, run, n, r);
  }

  /** Exactly when hits of `r` are fresh, over all stores: its identifiers are neat and no other
      request that is checked shares its key. */
  lemma SharedKeyExact(cel: Cel, ttl: int, compiles: string -> bool, qs: iset<Request>, r: Request, ks: iset<string>)
    requires Askable(qs, r, ks) && ttl > 0
    ensures SafeFor(cel, ttl, compiles, qs, r, false) <==>
            Neat(r) && forall q :: q in qs && Key(q) == Key(r) ==> q == r
  {
    if !Neat(r) {
      UntidyIsStale(cel, ttl, compiles, qs, r, false);
    } else if q :| q in qs && Key(q) == Key(r) && q != r {
      CanonicalOver(ks, q, r);
      StarIsLowerCase(r.resourceType);
      StarIsLowerCase(r.action);
      SharedKeyIsStale(cel, ttl, compiles, qs, r, q, q.resourceType, q.action, false);
    } else {
      forall run, n: nat, now |
        ValidRun(cel, ttl, compiles, run) && n < |run.nodes| && ChecksWithin(run.events, qs, r)
        && Hit(run.nodes[n], Key(r), now)
        ensures UpToDate(cel, run.nodes[n], r)
      {
        UnsharedIsFresh(cel, ttl, compiles, run, n, qs, r);
      }
    }
  }

  /** Over a set of requests: all their hits are fresh in every run of their checks iff all are
      neat and no two of them share a key. */
  lemma SharedKeysExact(cel: Cel, ttl: int, compiles: string -> bool, qs: iset<Request>, ks: iset<string>)
    requires ttl > 0 && forall r :: r in qs ==> Askable(qs, r, ks)
    ensures (forall r :: r in qs ==> SafeFor(cel, ttl, compiles, qs, r, false)) <==>
            (forall r :: r in qs ==> Neat(r)) && (forall q, r :: q in qs && r in qs && Key(q) == Key(r) ==> q == r)
  {
    forall r | r in qs
      ensures SafeFor(cel, ttl, compiles, qs, r, false) <==>
              Neat(r) && forall q :: q in qs && Key(q) == Key(r) ==> q == r
    {
      SharedKeyExact(cel, ttl, compiles, qs, r, ks);
    }
  }

  // ----- Letter case, where the permissions are lower-case -----

  /** Both spellings are the same, or neither is lower-case. */
  predicate Alike(a: string, b: string) {
    a == b || (Lower(a) != a && Lower(b) != b)
  }

  predicate SpelledAlike(q: Request, r: Request) {
    Alike(q.resourceType, r.resourceType) && Alike(q.action, r.action)
  }

  lemma JudgedAlike(cel: Cel, q: Request, r: Request, gs: set<Grant>)
    requires q.tenant == r.tenant && q.subject == r.subject && q.resource == r.resource && q.attributes == r.attributes
    ensures Judge(cel, q, gs) == Judge(cel, r, gs)
  {
    assert forall g: Grant :: Evaluate(cel, q, g.condition) == Evaluate(cel, r, g.condition);
    assert forall g :: Matching(cel, q, gs, g) <==> Matching(cel, r, gs, g);
    forall scope: DataScope ensures MatchesScope(cel, q, gs, scope) <==> MatchesScope(cel, r, gs, scope) {
    }
    assert MatchingUnits(cel, q, gs) == MatchingUnits(cel, r, gs);
  }

  /** Lower-case permissions do not tell requests apart that are spelled alike. */
  lemma AlikeVerdicts(cel: Cel, s: Store, q: Request, r: Request)
    requires LowerCase(s) && SameCheck(q, r) && SpelledAlike(q, r)
    ensures FreshVerdict(cel, s, q) == FreshVerdict(cel, s, r)
  {
    forall b, g ensures Joins(s, q, b, g) <==> Joins(s, r, b, g) {
      if Linked(s, q, b, g) {
        var p := s.permissions[s.rolePermissions[g].permission];
        assert ResourceMatches(p, q) <==> ResourceMatches(p, r);
      }
    }
    assert Grants(s, q) == Grants(s, r);
    JudgedAlike(cel, q, r, Grants(s, q));
  }

  lemma WriteKeepsLowerCase(s: Store, w: Write)
    requires LowerCase(s) && Admissible(s, w) && WritesLowerCase(w)
    ensures LowerCase(Apply(s, w))
  {
    match w
    case Mutation(_, _, _, _, _) =>
      MutationRuns(s, w);
      StatementKeepsLowerCase(s.permissions, w.statement);
    case SuperAdmin(_, _, _) => AdminRuns(s, w);
    case GroupChanged(_, _, _, _, _, _) =>
      Redelivery(s, w);
      if w.eventId !in s.processed { GroupRuns(s, w); }
    case TenantCreated(_, _, _) =>
      Redelivery(s, w);
      if w.eventId !in s.processed {
        BootstrapRuns(s, w);
        StatementKeepsLowerCase(s.permissions, BootstrapStatements(w.tenant, w.owner)[0]);
      }
  }

  lemma StatementKeepsLowerCase(m: map<Id, Permission>, st: Statement)
    requires LowerCasePermissions(m) && InsertsLowerCase(st)
    ensures LowerCasePermissions(PermissionsAfter(m, st))
  {
    PermissionStep(m, st);
  }

  lemma {:induction false} RunStaysLowerCase(cel: Cel, ttl: int, compiles: string -> bool, run: Run, n: nat)
    requires ValidRun(cel, ttl, compiles, run) && n < |run.nodes| && LowerCase(run.nodes[0].store)
    ensures LowerCase(run.nodes[n].store)
  {
    if n > 0 {
      RunStaysLowerCase(cel, ttl, compiles, run, n - 1);
      NextStaysLowerCase(cel, ttl, compiles, run, n - 1);
    }
  }

  lemma NextStaysLowerCase(cel: Cel, ttl: int, compiles: string -> bool, run: Run, i: nat)
    requires ValidRun(cel, ttl, compiles, run) && i < |run.events| && LowerCase(run.nodes[i].store)
    ensures LowerCase(run.nodes[i + 1].store)
  {
    var s, s2 := run.nodes[i].store, run.nodes[i + 1].store;
    RunIsSound(cel, ttl, compiles, run, i);
    EventAt(cel, ttl, compiles, run, i);
    StepWrites(cel, ttl, compiles, run, i);
    if s2 != s {
      var w :| Admissible(s, w) && WritesLowerCase(w) && s2 == Apply(s, w);
      WriteKeepsLowerCase(s, w);
    }
  }

  lemma AlikeIsFresh(cel: Cel, ttl: int, compiles: string -> bool, run: Run, n: nat, qs: iset<Request>, r: Request,
                     ks: iset<string>)
    requires Askable(qs, r, ks) && Neat(r) && forall q :: q in qs && Key(q) == Key(r) ==> SpelledAlike(q, r)
    requires ValidRun(cel, ttl, compiles, run) && n < |run.nodes| && ChecksWithin(run.events, qs, r)
             && LowerCase(run.nodes[0].store)
    ensures UpToDate(cel, run.nodes[n], r)
  {
    forall q, i | q in qs && Key(q) == Key(r) && 0 <= i < n
      ensures FreshVerdict(cel, run.nodes[i].store, q) == FreshVerdict(cel, run.nodes[i].store, r)
    {
      RunStaysLowerCase(cel, ttl, compiles, run, i);
      CanonicalOver(ks, q, r);
      AlikeVerdicts(cel, run.nodes[i].store, q, r);
    }
    AllAreHarmless(cel, run, n, qs, r);
    RunIsFresh(cel, ttl, compiles, run, n, r);
  }

  /** Exactly when hits of `r` are fresh, with the lower-case permissions the service creates:
      its identifiers are neat and every checked request that shares its key is spelled alike. */
  lemma LetterCaseExact(cel: Cel, ttl: int, compiles: string -> bool, qs: iset<Request>, r: Request, ks: iset<string>)
    requires Askable(qs, r, ks) && ttl > 0
    ensures SafeFor(cel, ttl, compiles, qs, r, true) <==>
            Neat(r) && forall q :: q in qs && Key(q) == Key(r) ==> SpelledAlike(q, r)
  {
    if !Neat(r) {
      UntidyIsStale(cel, ttl, compiles, qs, r, true);
    } else if q :| q in qs && Key(q) == Key(r) && !SpelledAlike(q, r) {
      CanonicalOver(ks, q, r);
      UnlikeIsStale(cel, ttl, compiles, qs, r, q);
    } else {
      forall run, n: nat, now |
        ValidRun(cel, ttl, compiles, run) && n < |run.nodes| && ChecksWithin(run.events, qs, r)
        && LowerCase(run.nodes[0].store) && Hit(run.nodes[n], Key(r), now)
        ensures UpToDate(cel, run.nodes[n], r)
      {
        AlikeIsFresh(cel, ttl, compiles, run, n, qs, r, ks);
      }
    }
  }

  /** Of two spellings, one is lower-case: a permission for it, with a wildcard for the other
      column, matches one request only. */
  lemma UnlikeIsStale(cel: Cel, ttl: int, compiles: string -> bool, qs: iset<Request>, r: Request, q: Request)
    requires q in qs && Key(q) == Key(r) && SameCheck(q, r) && !SpelledAlike(q, r)
    requires ValidRequest(q) && ttl > 0
    ensures !SafeFor(cel, ttl, compiles, qs, r, true)
  {
    StarIsLowerCase(r.resourceType);
    StarIsLowerCase(q.resourceType);
    StarIsLowerCase(r.action);
    StarIsLowerCase(q.action);
    assert Lower("*") == "*";
    if !Alike(q.resourceType, r.resourceType) {
      var t := if Lower(q.resourceType) == q.resourceType then q.resourceType else r.resourceType;
      SharedKeyIsStale(cel, ttl, compiles, qs, r, q, t, "*", true);
    } else {
      var a := if Lower(q.action) == q.action then q.action else r.action;
      SharedKeyIsStale(cel, ttl, compiles, qs, r, q, "*", a, true);
    }
  }

  // ----- Tidy keys -----

  /** The checks of the first `n` events name trimmed tenants without NUL. */
  ghost predicate TidyChecks(events: seq<Event>, n: nat)
    requires n <= |events|
  {
    forall i :: 0 <= i < n && events[i].Check? ==>
        NulFree(events[i].request.tenant) && Trimmed(events[i].request.tenant)
  }

  lemma NextKeepsTidyKeys(cel: Cel, ttl: int, compiles: string -> bool, run: Run, i: nat)
    requires i < |run.events| < |run.nodes| && Next(cel, ttl, compiles, run, i) && TidyChecks(run.events, i + 1)
    requires TidyKeys(run.nodes[i].cache)
    ensures TidyKeys(run.nodes[i + 1].cache)
  {
    var cache, after := run.nodes[i].cache, run.nodes[i + 1].cache;
    if run.events[i].Check? {
      var result :| CheckStep(cel, ttl, run.nodes[i], run.events[i].request, run.events[i].now, run.nodes[i + 1],
                              result);
      assert after.Keys <= cache.Keys + {Key(run.events[i].request)};
      KeysStayTidy(cache, after, run.events[i].request);
    } else {
      NextRemoves(cel, ttl, compiles, run, i);
      RemovalKeepsTidy(cache, after);
    }
  }

  lemma NextRemoves(cel: Cel, ttl: int, compiles: string -> bool, run: Run, i: nat)
    requires i < |run.events| < |run.nodes| && Next(cel, ttl, compiles, run, i) && !run.events[i].Check?
    ensures run.nodes[i + 1].cache.Keys <= run.nodes[i].cache.Keys
  {
  }

  lemma StepKeepsTidyKeys(cel: Cel, ttl: int, compiles: string -> bool, run: Run, i: nat)
    requires ValidRun(cel, ttl, compiles, run) && i < |run.events| && TidyChecks(run.events, i + 1)
    requires TidyKeys(run.nodes[i].cache)
    ensures TidyKeys(run.nodes[i + 1].cache)
  {
    EventAt(cel, ttl, compiles, run, i);
    NextKeepsTidyKeys(cel, ttl, compiles, run, i);
  }

  /** In every run of such checks the cache has tidy keys, as the repair theorems ask. */
  lemma {:induction false} RunsHaveTidyKeys(cel: Cel, ttl: int, compiles: string -> bool, run: Run, n: nat)
    requires ValidRun(cel, ttl, compiles, run) && n < |run.nodes| && TidyChecks(run.events, n)
    ensures TidyKeys(run.nodes[n].cache)
  {
    if n > 0 {
      RunsHaveTidyKeys(cel, ttl, compiles, run, n - 1);
      StepKeepsTidyKeys(cel, ttl, compiles, run, n - 1);
    }
  }

  lemma RepairNext(cel: Cel, ttl: int, compiles: string -> bool, run: Run, i: nat)
    requires ValidRun(cel, ttl, compiles, run) && i < |run.events| && run.events[i].RepairPass?
    ensures run.nodes[i + 1].cache == Repaired(run.nodes[i].cache, run.events[i].versions, run.events[i].poll)
  {
    EventAt(cel, ttl, compiles, run, i);
  }

  /** Repair in a run: a pass over the true maxima keeps an entry iff the poll failed or
      returned its tenant's greatest tag. */
  lemma RepairInRuns(cel: Cel, ttl: int, compiles: string -> bool, run: Run, i: nat, k: string)
    requires ValidRun(cel, ttl, compiles, run) && i < |run.events| && TidyChecks(run.events, i)
             && k in run.nodes[i].cache
    requires run.events[i].RepairPass? && Maxima(run.nodes[i].cache, run.events[i].versions)
    ensures Cut(k) in run.events[i].versions
    ensures k in run.nodes[i + 1].cache <==> !Outdated(run.events[i].versions, run.events[i].poll, Cut(k))
  {
    RunsHaveTidyKeys(cel, ttl, compiles, run, i);
    RepairNext(cel, ttl, compiles, run, i);
    RepairExact(run.nodes[i].cache, run.events[i].versions, run.events[i].poll, k);
  }

  // ----- White space -----

  /** The entry of the subject an event names leaves the cache exactly when the event's
      identifiers are trimmed, because invalidation trims them and the key does not. */
  lemma UntrimmedEntriesStay<V>(cache: map<string, V>, r: Request)
    requires Key(r) in cache && NulFree(r.tenant) && NulFree(r.subject) && r.tenant != "" && r.subject != ""
    ensures Key(r) !in SubjectInvalidated(cache, r.tenant, r.subject, r.subjectType) <==>
              Trimmed(r.tenant) && Trimmed(r.subject)
  {
    TrimLaws(r.tenant);
    TrimLaws(r.subject);
    TrimKeepsNulFree(r.tenant);
    TrimKeepsNulFree(r.subject);
    SubjectInvalidationExact(cache, r.tenant, r.subject, r.subjectType, r);
  }

  function Denial(): Decision {
    Decision(false, 0, NoGrant, 0, NoScope, [])
  }

  /** A check of `r` that is denied, and one more event. */
  function DeniedThen(s: Store, key: string, ttl: int, r: Request, e: Event, last: Node): Run {
    Run([Node(s, map[]), Node(s, map[key := Entry(Denial(), ttl)]), last], [Check(r, 0), e])
  }

  lemma DeniedThenIsValid(cel: Cel, ttl: int, compiles: string -> bool, s: Store, r: Request, e: Event, last: Node)
    requires ValidRequest(r) && Good(s) && Grants(s, r) == {} && PolicyVersion(s, r.tenant) == 0
    requires Next(cel, ttl, compiles, DeniedThen(s, Key(r), ttl, r, e, last), 1)
    ensures ValidRun(cel, ttl, compiles, DeniedThen(s, Key(r), ttl, r, e, last))
  {
    var run := DeniedThen(s, Key(r), ttl, r, e, last);
    DenialFirst(cel, ttl, compiles, run, s, r);
    TwoEvents(cel, ttl, compiles, run);
  }

  lemma TwoEvents(cel: Cel, ttl: int, compiles: string -> bool, run: Run)
    requires |run.nodes| == 3 && |run.events| == 2 && Good(run.nodes[0].store) && run.nodes[0].cache == map[]
    requires Next(cel, ttl, compiles, run, 0) && Next(cel, ttl, compiles, run, 1)
    ensures ValidRun(cel, ttl, compiles, run)
  {
    forall i | 0 <= i < 2 ensures Next(cel, ttl, compiles, run, i) {
      assert i == 0 || i == 1;
    }
  }

  lemma DenialFirst(cel: Cel, ttl: int, compiles: string -> bool, run: Run, s: Store, r: Request)
    requires ValidRequest(r) && Grants(s, r) == {} && PolicyVersion(s, r.tenant) == 0
    requires 0 < |run.events| < |run.nodes| && run.events[0] == Check(r, 0) && run.nodes[0] == Node(s, map[])
    requires run.nodes[1] == Node(s, map[Key(r) := Entry(Denial(), ttl)])
    ensures Next(cel, ttl, compiles, run, 0)
  {
    DeniedCheck(cel, ttl, s, r);
  }

  lemma DeniedCheck(cel: Cel, ttl: int, s: Store, r: Request)
    requires ValidRequest(r) && Grants(s, r) == {} && PolicyVersion(s, r.tenant) == 0
    ensures CheckStep(cel, ttl, Node(s, map[]), r, 0, Node(s, map[Key(r) := Entry(Denial(), ttl)]),
                      Returned(Denial(), false))
  {
  }

  /** If the denied entry survives an event that allows the request, a later hit is stale. */
  lemma SurvivingDenial(cel: Cel, ttl: int, compiles: string -> bool, qs: iset<Request>, r: Request, lower: bool,
                        s: Store, e: Event, last: Node)
    requires r in qs && ValidRequest(r) && ttl > 0 && Good(s) && (lower ==> LowerCase(s))
    requires Grants(s, r) == {} && PolicyVersion(s, r.tenant) == 0 && !e.Check? && !e.AdminGrant?
    requires Next(cel, ttl, compiles, DeniedThen(s, Key(r), ttl, r, e, last), 1)
    requires Key(r) in last.cache && last.cache[Key(r)] == Entry(Denial(), ttl)
    requires FreshVerdict(cel, last.store, r) != View(Denial())
    ensures !SafeFor(cel, ttl, compiles, qs, r, lower)
  {
    var run := DeniedThen(s, Key(r), ttl, r, e, last);
    DeniedThenIsValid(cel, ttl, compiles, s, r, e, last);
    DenialIsStale(cel, ttl, qs, r, s, e, last);
    Refuted(cel, ttl, compiles, qs, r, lower, run, 2, 0);
  }

  lemma DenialIsStale(cel: Cel, ttl: int, qs: iset<Request>, r: Request, s: Store, e: Event, last: Node)
    requires r in qs && ttl > 0 && !e.Check? && !e.AdminGrant?
    requires Key(r) in last.cache && last.cache[Key(r)] == Entry(Denial(), ttl)
    requires FreshVerdict(cel, last.store, r) != View(Denial())
    ensures
      var run := DeniedThen(s, Key(r), ttl, r, e, last);
      ChecksWithin(run.events, qs, r) && Hit(run.nodes[2], Key(r), 0) && !UpToDate(cel, run.nodes[2], r)
  {
  }

  function EmptyStore(): Store {
    Store(map[], map[], map[], map[], map[], map[], {}, [])
  }

  /** A bootstrap of the very subject leaves its untrimmed entry behind. */
  lemma UntrimmedOwnerIsStale(cel: Cel, ttl: int, compiles: string -> bool, qs: iset<Request>, r: Request, lower: bool,
                              s: Store)
    requires s == EmptyStore() && r in qs && ValidRequest(r) && NulFree(r.tenant) && NulFree(r.subject) && ttl > 0
    requires r.subjectType == Membership && !(Trimmed(r.tenant) && Trimmed(r.subject))
    ensures !SafeFor(cel, ttl, compiles, qs, r, lower)
  {
    var e, w := TenantCreation("e", r.tenant, r.subject), TenantCreated("e", r.tenant, r.subject);
    var cache := map[Key(r) := Entry(Denial(), ttl)];
    OwnerIsAllowedEverything(cel, s, w, r);
    UntrimmedEntriesStay(cache, r);
    SurvivingDenial(cel, ttl, compiles, qs, r, lower, s, e,
                    AfterTenantCreated(Node(s, cache), "e", r.tenant, r.subject));
  }

  /** A mutation of an untrimmed tenant invalidates the trimmed tenant and leaves its own entries. */
  lemma MutationLeavesDenial(cel: Cel, ttl: int, compiles: string -> bool, qs: iset<Request>, r: Request, lower: bool,
                             s: Store, ctx: Context, op: Operation, w: Write)
    requires r in qs && ValidRequest(r) && NulFree(r.tenant) && ttl > 0 && !Trimmed(r.tenant)
    requires Good(s) && (lower ==> LowerCase(s)) && Grants(s, r) == {} && PolicyVersion(s, r.tenant) == 0
    requires Prepare(ctx, op, s, compiles) == Issue(w) && w.Mutation? && w.tenant == r.tenant && Effective(s, w)
    requires FreshVerdict(cel, Apply(s, w), r) != View(Denial())
    ensures !SafeFor(cel, ttl, compiles, qs, r, lower)
  {
    var cache := map[Key(r) := Entry(Denial(), ttl)];
    UntrimmedTenantEntriesStay(cache, r);
    MutateFollows(cel, ttl, compiles, s, r, ctx, op, w);
    SurvivingDenial(cel, ttl, compiles, qs, r, lower, s, Mutate(ctx, op, 1), AfterMutation(Node(s, cache), w));
  }

  /** Such a mutation: a grant in an untrimmed tenant. */
  lemma UntrimmedTenantIsStale(cel: Cel, ttl: int, compiles: string -> bool, qs: iset<Request>, r: Request, lower: bool,
                               ctx: Context)
    requires r in qs && ValidRequest(r) && NulFree(r.tenant) && ttl > 0 && !Trimmed(r.tenant)
    requires EnforceInteractiveTenant(ctx, r.tenant) == None && HasActor(ctx)
    ensures !SafeFor(cel, ttl, compiles, qs, r, lower)
  {
    GapIsGood(r);
    var w := GapIsFilled(cel, r, ctx, compiles);
    MutationLeavesDenial(cel, ttl, compiles, qs, r, lower, GapStore(r), ctx, GapOperation(r.tenant), w);
  }

  lemma MutateFollows(cel: Cel, ttl: int, compiles: string -> bool, s: Store, r: Request, ctx: Context, op: Operation,
                      w: Write)
    requires Prepare(ctx, op, s, compiles) == Issue(w) && w.Mutation?
    ensures
      var last := AfterMutation(Node(s, map[Key(r) := Entry(Denial(), ttl)]), w);
      Next(cel, ttl, compiles, DeniedThen(s, Key(r), ttl, r, Mutate(ctx, op, 1), last), 1)
  {
  }

  lemma UntrimmedTenantEntriesStay<V>(cache: map<string, V>, r: Request)
    requires Key(r) in cache && NulFree(r.tenant) && !Trimmed(r.tenant)
    ensures Key(r) in TenantInvalidated(cache, r.tenant)
  {
    TrimLaws(r.tenant);
    TrimKeepsNulFree(r.tenant);
    TenantInvalidationExact(cache, r.tenant, r);
  }

  lemma UntidyIsStale(cel: Cel, ttl: int, compiles: string -> bool, qs: iset<Request>, r: Request, lower: bool)
    requires r in qs && ValidRequest(r) && NulFree(r.tenant) && NulFree(r.subject) && ttl > 0 && !Neat(r)
    ensures !SafeFor(cel, ttl, compiles, qs, r, lower)
  {
    if !Trimmed(r.tenant) {
      UntrimmedTenantIsStale(cel, ttl, compiles, qs, r, lower, SystemContext());
    } else {
      UntrimmedOwnerIsStale(cel, ttl, compiles, qs, r, lower, EmptyStore());
    }
  }

  /** Exactly when white space is harmless: hits of a request are fresh, in every run in which
      no other request is checked, iff its tenant and, for a membership, its subject are trimmed. */
  lemma WhiteSpaceExact(cel: Cel, ttl: int, compiles: string -> bool, r: Request)
    requires ValidRequest(r) && NulFree(r.tenant) && NulFree(r.subject) && ttl > 0
    ensures SafeFor(cel, ttl, compiles, iset{r}, r, false) <==> Neat(r)
  {
    if Neat(r) {
      forall run, n: nat, now |
        ValidRun(cel, ttl, compiles, run) && n < |run.nodes| && ChecksWithin(run.events, iset{r}, r)
        && Hit(run.nodes[n], Key(r), now)
        ensures UpToDate(cel, run.nodes[n], r)
      {
        UnsharedIsFresh(cel, ttl, compiles, run, n, iset{r}, r);
      }
    } else {
      UntidyIsStale(cel, ttl, compiles, iset{r}, r, false);
    }
  }
}
