/** What a check answers, said of the table columns: an account of the join and the fold that
    shares no definition with them. */
module Columns {
  import opened Schema
  import opened Text
  import opened Resolution

  /** Active binding `b` of the tenant reaches the subject, directly or through an active
      membership in the group it is bound to. */
  ghost predicate Reaches(s: Store, tenant: string, subject: string, t: SubjectType, b: Id) {
    && b in s.bindings && s.bindings[b].tenant == tenant && s.bindings[b].status == Active
    && (|| (s.bindings[b].subjectType == t && s.bindings[b].subject == subject)
        || (&& t == Membership && s.bindings[b].subjectType == Group
            && GroupKey(tenant, subject, s.bindings[b].subject) in s.groups
            && s.groups[GroupKey(tenant, subject, s.bindings[b].subject)].status == Active))
  }

  /** Role permission `g` leads from the role of binding `b` to a permission, all of them active. */
  ghost predicate Leads(s: Store, b: Id, g: Id) {
    && b in s.bindings && g in s.rolePermissions && s.rolePermissions[g].status == Active
    && s.rolePermissions[g].role == s.bindings[b].role
    && s.bindings[b].role in s.roles && s.roles[s.bindings[b].role].status == Active
    && s.rolePermissions[g].permission in s.permissions
    && s.permissions[s.rolePermissions[g].permission].status == Active
  }

  function PairPermission(s: Store, g: Id): Permission
    requires g in s.rolePermissions && s.rolePermissions[g].permission in s.permissions
  {
    s.permissions[s.rolePermissions[g].permission]
  }

  /** One row of the query: the WHERE clause, column by column. */
  ghost predicate Row(s: Store, r: Request, b: Id, g: Id) {
    && Reaches(s, r.tenant, r.subject, r.subjectType, b) && Leads(s, b, g)
    && PairPermission(s, g).resourceType in {r.resourceType, "*"} && PairPermission(s, g).action in {r.action, "*"}
  }

  /** The selected columns. */
  function RowValue(s: Store, b: Id, g: Id): Grant
    requires b in s.bindings && s.bindings[b].role in s.roles
    requires g in s.rolePermissions && s.rolePermissions[g].permission in s.permissions
  {
    Grant(s.roles[s.bindings[b].role].scope, s.bindings[b].unit, PairPermission(s, g).condition)
  }

  /** What the row's condition says: a blank one holds, any other is put to CEL with the
      request's tenant, subject, resource and attributes. */
  ghost function Says(cel: Cel, s: Store, r: Request, g: Id): Truth
    requires g in s.rolePermissions && s.rolePermissions[g].permission in s.permissions
  {
    var c := PairPermission(s, g).condition;
    if Trim(c) == "" then Holds else cel(CelInput(c, r.tenant, r.subject, r.resource, r.attributes))
  }

  /** A row whose condition holds. */
  ghost predicate Passes(cel: Cel, s: Store, r: Request, b: Id, g: Id) {
    Row(s, r, b, g) && Says(cel, s, r, g) == Holds
  }

  ghost predicate PassesWith(cel: Cel, s: Store, r: Request, scope: DataScope) {
    exists b, g :: Passes(cel, s, r, b, g) && s.roles[s.bindings[b].role].scope == scope
  }

  ghost predicate PassesWithUnit(cel: Cel, s: Store, r: Request, b: Id, g: Id, unit: string) {
    Passes(cel, s, r, b, g) && s.roles[s.bindings[b].role].scope == OrganizationScope && s.bindings[b].unit == unit
  }

  lemma RowsAreJoined(s: Store, r: Request, b: Id, g: Id)
    ensures Joins(s, r, b, g) <==> Row(s, r, b, g)
  {
  }

  lemma LinksAreChains(s: Store, r: Request, b: Id, g: Id)
    ensures Linked(s, r, b, g) <==> Reaches(s, r.tenant, r.subject, r.subjectType, b) && Leads(s, b, g)
  {
  }

  /** Resolve selects the scope, unit and condition of exactly the rows. */
  lemma GrantsAreRows(s: Store, r: Request, x: Grant)
    ensures x in Grants(s, r) <==> exists b, g :: Row(s, r, b, g) && x == RowValue(s, b, g)
  {
    forall b, g ensures Joins(s, r, b, g) <==> Row(s, r, b, g) {
      RowsAreJoined(s, r, b, g);
    }
    if b, g :| Row(s, r, b, g) && x == RowValue(s, b, g) {
      assert Joins(s, r, b, g) && GrantOf(s, r, b, g) == x;
    }
  }

  /** The grant of a row, and what the fold makes of its condition. */
  lemma RowGrant(cel: Cel, s: Store, r: Request, b: Id, g: Id)
    requires Row(s, r, b, g)
    ensures
      var x := RowValue(s, b, g);
      x in Grants(s, r) && Evaluate(cel, r, x.condition) == Says(cel, s, r, g)
  {
    GrantsAreRows(s, r, RowValue(s, b, g));
  }

  lemma GrantRow(cel: Cel, s: Store, r: Request, x: Grant) returns (b: Id, g: Id)
    requires x in Grants(s, r)
    ensures Row(s, r, b, g) && Says(cel, s, r, g) == Evaluate(cel, r, x.condition)
    ensures x == RowValue(s, b, g)
  {
    GrantsAreRows(s, r, x);
    b, g :| Row(s, r, b, g) && x == RowValue(s, b, g);
  }

  /** The check fails exactly if the condition of some row errs. */
  lemma ErrorByColumns(cel: Cel, s: Store, r: Request)
    ensures FreshVerdict(cel, s, r) == EvaluationError <==> exists b, g :: Row(s, r, b, g) && Says(cel, s, r, g) == Errs
  {
    if x :| x in Grants(s, r) && Evaluate(cel, r, x.condition) == Errs {
      var b, g := GrantRow(cel, s, r, x);
    }
    if b, g :| Row(s, r, b, g) && Says(cel, s, r, g) == Errs {
      RowGrant(cel, s, r, b, g);
    }
  }

  /** Otherwise it allows exactly if some row passes, and gives the reason. */
  lemma AllowedByColumns(cel: Cel, s: Store, r: Request)
    ensures
      var v := FreshVerdict(cel, s, r);
      v != EvaluationError ==>
        && (v.allowed <==> exists b, g :: Passes(cel, s, r, b, g))
        && (v.reason == MatchingGrant <==> v.allowed)
        && (v.reason == NoGrant <==> !exists b, g :: Row(s, r, b, g))
  {
    if x :| x in Grants(s, r) {
      var b, g := GrantRow(cel, s, r, x);
    }
    if x :| Matching(cel, r, Grants(s, r), x) {
      var b, g := GrantRow(cel, s, r, x);
      assert Passes(cel, s, r, b, g);
    }
    if b, g :| Row(s, r, b, g) {
      RowGrant(cel, s, r, b, g);
    }
    if b, g :| Passes(cel, s, r, b, g) {
      RowGrant(cel, s, r, b, g);
      var x := RowValue(s, b, g);
      assert Matching(cel, r, Grants(s, r), x);
    }
  }

  lemma ScopeMatches(cel: Cel, s: Store, r: Request, scope: DataScope)
    ensures MatchesScope(cel, r, Grants(s, r), scope) <==> PassesWith(cel, s, r, scope)
  {
    if x :| Matching(cel, r, Grants(s, r), x) && x.scope == scope {
      var b, g := GrantRow(cel, s, r, x);
      assert Passes(cel, s, r, b, g);
    }
    if b, g :| Passes(cel, s, r, b, g) && s.roles[s.bindings[b].role].scope == scope {
      RowGrant(cel, s, r, b, g);
      var x := RowValue(s, b, g);
      assert Matching(cel, r, Grants(s, r), x);
    }
  }

  /** The scope is the widest of the roles whose rows pass. */
  lemma ScopeByColumns(cel: Cel, s: Store, r: Request)
    ensures
      var v := FreshVerdict(cel, s, r);
      v != EvaluationError ==>
        v.scope ==
        if PassesWith(cel, s, r, AllScope) then AllScope
        else if PassesWith(cel, s, r, TenantScope) then TenantScope
        else if PassesWith(cel, s, r, OrganizationScope) then OrganizationScope
        else if PassesWith(cel, s, r, SelfScope) then SelfScope
        else NoScope
  {
    forall scope: DataScope ensures MatchesScope(cel, r, Grants(s, r), scope) <==> PassesWith(cel, s, r, scope) {
      ScopeMatches(cel, s, r, scope);
    }
    if Grants(s, r) == {} || !Allows(cel, r, Grants(s, r)) {
      NothingMatches(cel, r, Grants(s, r));
    }
  }

  /** A unit is answered exactly if it is the unit of a passing row of an organization role. */
  lemma UnitsByColumns(cel: Cel, s: Store, r: Request, unit: string)
    ensures
      var v := FreshVerdict(cel, s, r);
      v != EvaluationError ==>
        (unit in v.units <==>
           unit != "" && exists b, g :: PassesWithUnit(cel, s, r, b, g, unit))
  {
    var gs := Grants(s, r);
    if x :| Matching(cel, r, gs, x) && x.scope == OrganizationScope && x.unit == unit {
      var b, g := GrantRow(cel, s, r, x);
      assert PassesWithUnit(cel, s, r, b, g, unit);
    }
    if b, g :| PassesWithUnit(cel, s, r, b, g, unit) {
      RowGrant(cel, s, r, b, g);
      var x := Grant(OrganizationScope, unit, PairPermission(s, g).condition);
      assert Matching(cel, r, gs, x);
    }
    if Allows(cel, r, gs) {
      assert unit in MatchingUnits(cel, r, gs) <==>
             unit != "" && exists x :: Matching(cel, r, gs, x) && x.scope == OrganizationScope && x.unit == unit;
    } else {
      NothingMatches(cel, r, gs);
    }
  }

  // ----- Consequences -----


  /** Role permission `g` belongs to the role of binding `b`. */
  ghost predicate Paired(s: Store, b: Id, g: Id) {
    b in s.bindings && g in s.rolePermissions && s.rolePermissions[g].role == s.bindings[b].role
  }

  lemma NoRowsDeny(cel: Cel, s: Store, r: Request)
    requires forall b, g :: !Row(s, r, b, g)
    ensures FreshVerdict(cel, s, r) == Verdict(false, NoGrant, NoScope, {})
  {
    forall x ensures x !in Grants(s, r) {
      GrantsAreRows(s, r, x);
    }
    assert Grants(s, r) == {};
  }

  /** If every active binding that reaches the subject leads only to a role, a pair or a
      permission that is not active, the check is denied for want of a grant. */
  lemma DeadEndsDeny(cel: Cel, s: Store, r: Request)
    requires forall b, g :: Reaches(s, r.tenant, r.subject, r.subjectType, b) && Paired(s, b, g) ==>
               || s.bindings[b].role !in s.roles || s.roles[s.bindings[b].role].status != Active
               || s.rolePermissions[g].status != Active
               || s.rolePermissions[g].permission !in s.permissions
               || s.permissions[s.rolePermissions[g].permission].status != Active
    ensures FreshVerdict(cel, s, r) == Verdict(false, NoGrant, NoScope, {})
  {
    NoRowsDeny(cel, s, r);
  }

  /** With a single row whose condition is not blank, CEL decides: asked for that condition with
      the request's own tenant, subject, resource and attributes. */
  lemma SoleConditionDecides(cel: Cel, s: Store, r: Request, b: Id, g: Id)
    requires Row(s, r, b, g) && Trim(PairPermission(s, g).condition) != ""
    requires forall b', g' :: Row(s, r, b', g') ==> b' == b && g' == g
    ensures
      var c, scope, unit := PairPermission(s, g).condition, s.roles[s.bindings[b].role].scope, s.bindings[b].unit;
      FreshVerdict(cel, s, r) ==
      match cel(CelInput(c, r.tenant, r.subject, r.resource, r.attributes))
      case Holds => Verdict(true, MatchingGrant, scope, if scope == OrganizationScope && unit != "" then {unit} else {})
      case Fails => Verdict(false, ConditionFailed, NoScope, {})
      case Errs => EvaluationError
  {
    var x := RowValue(s, b, g);
    RowGrant(cel, s, r, b, g);
    forall y | y in Grants(s, r) ensures y == x {
      var b', g' := GrantRow(cel, s, r, y);
    }
    assert Grants(s, r) == {x};
    SoleGrant(cel, r, x);
  }

  lemma SoleGrant(cel: Cel, r: Request, x: Grant)
    ensures
      Judge(cel, r, {x}) ==
      match Evaluate(cel, r, x.condition)
      case Holds =>
        Verdict(true, MatchingGrant, x.scope, if x.scope == OrganizationScope && x.unit != "" then {x.unit} else {})
      case Fails => Verdict(false, ConditionFailed, NoScope, {})
      case Errs => EvaluationError
  {
    assert forall y :: Matching(cel, r, {x}, y) ==> y == x;
    if Evaluate(cel, r, x.condition) == Holds {
      assert Matching(cel, r, {x}, x);
      assert MatchesScope(cel, r, {x}, x.scope);
      assert MatchingUnits(cel, r, {x}) == if x.scope == OrganizationScope && x.unit != "" then {x.unit} else {};
    }
  }

  /** A row that passes is honoured: the check allows at its role's scope at least, with its unit
      where that scope is the organization, unless the condition of another row errs. */
  lemma PassingRowIsHonoured(cel: Cel, s: Store, r: Request, b: Id, g: Id)
    requires Passes(cel, s, r, b, g)
    ensures
      var v, scope, unit := FreshVerdict(cel, s, r), s.roles[s.bindings[b].role].scope, s.bindings[b].unit;
      v != EvaluationError ==>
        && v.allowed && v.reason == MatchingGrant
        && (scope == AllScope ==> v.scope == AllScope)
        && (scope == TenantScope ==> v.scope in {TenantScope, AllScope})
        && (scope == OrganizationScope ==> v.scope in {OrganizationScope, TenantScope, AllScope})
        && (scope == SelfScope ==> v.scope != NoScope)
        && (scope == OrganizationScope && unit != "" ==> unit in v.units)
  {
    AllowedByColumns(cel, s, r);
    ScopeByColumns(cel, s, r);
    UnitsByColumns(cel, s, r, s.bindings[b].unit);
    if s.roles[s.bindings[b].role].scope == OrganizationScope {
      assert PassesWithUnit(cel, s, r, b, g, s.bindings[b].unit);
    }
    assert PassesWith(cel, s, r, s.roles[s.bindings[b].role].scope);
  }
}
