/** Grant resolution (the four-way join) and the folding of grants into a decision. */
module Resolution {
  import opened Schema
  import opened Text

  /** Outcome of evaluating a condition: true, false, or an evaluation error. */
  datatype Truth = Holds | Fails | Errs

  datatype CelInput = CelInput(expression: string, tenant: string, subject: string, resource: string,
                               attributes: map<string, string>)

  /** CEL compilation and evaluation, taken as a total function. */
  type Cel = CelInput -> Truth

  datatype Grant = Grant(scope: DataScope, unit: string, condition: string)

  // ----- Resolve -----

  predicate SubjectMatches(s: Store, r: Request, b: Binding) {
    || (b.subject == r.subject && b.subjectType == r.subjectType)
    || (&& r.subjectType == Membership && b.subjectType == Group
        && var key := GroupKey(b.tenant, r.subject, b.subject);
        key in s.groups && s.groups[key].status == Active)
  }

  predicate ResourceMatches(p: Permission, r: Request) {
    && (p.resourceType == r.resourceType || p.resourceType == "*")
    && (p.action == r.action || p.action == "*")
  }

  /** Binding `b` joins with role permission `g` through an active role and permission,
      for the subject of `r`. Only the binding is filtered by tenant. */
  predicate Linked(s: Store, r: Request, b: Id, g: Id) {
    && b in s.bindings && g in s.rolePermissions
    && s.bindings[b].role in s.roles
    && s.rolePermissions[g].role == s.bindings[b].role
    && s.rolePermissions[g].permission in s.permissions
    && s.bindings[b].tenant == r.tenant
    && SubjectMatches(s, r, s.bindings[b])
    && s.bindings[b].status == Active
    && s.roles[s.bindings[b].role].status == Active
    && s.rolePermissions[g].status == Active
    && s.permissions[s.rolePermissions[g].permission].status == Active
  }

  predicate Joins(s: Store, r: Request, b: Id, g: Id) {
    Linked(s, r, b, g) && ResourceMatches(s.permissions[s.rolePermissions[g].permission], r)
  }

  function GrantOf(s: Store, r: Request, b: Id, g: Id): Grant
    requires Linked(s, r, b, g)
  {
    Grant(s.roles[s.bindings[b].role].scope, s.bindings[b].unit,
          s.permissions[s.rolePermissions[g].permission].condition)
  }

  /** The rows selected by Resolve; duplicates do not matter to the fold below. */
  function Grants(s: Store, r: Request): set<Grant> {
    set b, g | b in s.bindings && g in s.rolePermissions && Joins(s, r, b, g) :: GrantOf(s, r, b, g)
  }

  // ----- CheckWithAttributes -----

  function Evaluate(cel: Cel, r: Request, condition: string): Truth {
    if Trim(condition) == "" then Holds
    else cel(CelInput(condition, r.tenant, r.subject, r.resource, r.attributes))
  }

  function ScopeRank(scope: DataScope): nat {
    match scope
    case NoScope => 0
    case SelfScope => 1
    case OrganizationScope => 2
    case TenantScope => 3
    case AllScope => 4
  }

  datatype Reason = NoGrant | MatchingGrant | ConditionFailed

  /** The observable content of a decision; `EvaluationError` is an evaluation error. */
  datatype Verdict = EvaluationError | Verdict(allowed: bool, reason: Reason, scope: DataScope, units: set<string>)

  ghost predicate Matching(cel: Cel, r: Request, gs: set<Grant>, g: Grant) {
    g in gs && Evaluate(cel, r, g.condition) == Holds
  }

  ghost predicate Allows(cel: Cel, r: Request, gs: set<Grant>) {
    exists g :: Matching(cel, r, gs, g)
  }

  ghost predicate MatchesScope(cel: Cel, r: Request, gs: set<Grant>, scope: DataScope) {
    exists g :: Matching(cel, r, gs, g) && g.scope == scope
  }

  /** The distinct non-empty units of the matching organization-scope grants. */
  ghost function MatchingUnits(cel: Cel, r: Request, gs: set<Grant>): set<string> {
    set g | g in gs && Matching(cel, r, gs, g) && g.scope == OrganizationScope && g.unit != "" :: g.unit
  }

  ghost function TopScope(cel: Cel, r: Request, gs: set<Grant>): DataScope {
    if MatchesScope(cel, r, gs, AllScope) then AllScope
    else if MatchesScope(cel, r, gs, TenantScope) then TenantScope
    else if MatchesScope(cel, r, gs, OrganizationScope) then OrganizationScope
    else if MatchesScope(cel, r, gs, SelfScope) then SelfScope
    else NoScope
  }

  /** The decision a set of grants stands for, with no order of evaluation. */
  ghost function Judge(cel: Cel, r: Request, gs: set<Grant>): Verdict {
    if exists g :: g in gs && Evaluate(cel, r, g.condition) == Errs then EvaluationError
    else if gs == {} then Verdict(false, NoGrant, NoScope, {})
    else if Allows(cel, r, gs) then
      Verdict(true, MatchingGrant, TopScope(cel, r, gs), MatchingUnits(cel, r, gs))
    else Verdict(false, ConditionFailed, NoScope, {})
  }

  /** The decision on the current store, computed without the cache. */
  ghost function FreshVerdict(cel: Cel, s: Store, r: Request): Verdict {
    Judge(cel, r, Grants(s, r))
  }

  /** The scope of a judgement is the greatest rank among the matching grants. */
  lemma TopScopeIsGreatest(cel: Cel, r: Request, gs: set<Grant>)
    ensures forall g :: Matching(cel, r, gs, g) ==> ScopeRank(g.scope) <= ScopeRank(TopScope(cel, r, gs))
    ensures TopScope(cel, r, gs) == NoScope || MatchesScope(cel, r, gs, TopScope(cel, r, gs))
  {
    forall g | Matching(cel, r, gs, g)
      ensures ScopeRank(g.scope) <= ScopeRank(TopScope(cel, r, gs))
    {
      assert MatchesScope(cel, r, gs, g.scope);
    }
  }

  /** A decision as returned and cached; `units` lists organization units in the order found. */
  datatype Decision = Decision(allowed: bool, decisionId: nat, reason: Reason, policyVersion: nat,
                               scope: DataScope, units: seq<string>)

  function View(d: Decision): Verdict {
    Verdict(d.allowed, d.reason, d.scope, Elements(d.units))
  }

  /** appendUnique */
  method AppendUnique(values: seq<string>, value: string) returns (r: seq<string>)
    requires Distinct(values)
    ensures Distinct(r) && values <= r
    ensures Elements(r) == Elements(values) + {value}
  {
    for i := 0 to |values|
      invariant value !in values[..i]
    {
      if values[i] == value { return values; }
    }
    r := values + [value];
  }

  /** The loop of CheckWithAttributes over the selected rows, in the order the database
      returned them. An evaluation error ends it at once. */
  method FoldGrants(cel: Cel, r: Request, grants: seq<Grant>, decisionId: nat, policyVersion: nat)
    returns (result: Option<Decision>)
    ensures result == None <==> Judge(cel, r, Elements(grants)) == EvaluationError
    ensures result.Some? ==>
              && View(result.value) == Judge(cel, r, Elements(grants))
              && Distinct(result.value.units)
              && result.value.decisionId == decisionId && result.value.policyVersion == policyVersion
  {
    if |grants| == 0 {
      return Some(Decision(false, decisionId, NoGrant, policyVersion, NoScope, []));
    }
    var allowed, scope, units := false, NoScope, [];
    ghost var gs: set<Grant> := {};
    for i := 0 to |grants|
      invariant gs == Elements(grants[..i])
      invariant forall g :: g in gs ==> Evaluate(cel, r, g.condition) != Errs
      invariant allowed <==> Allows(cel, r, gs)
      invariant scope == TopScope(cel, r, gs)
      invariant Distinct(units) && Elements(units) == MatchingUnits(cel, r, gs)
    {
      var grant := grants[i];
      assert grants[..i + 1] == grants[..i] + [grant];
      var matched := Evaluate(cel, r, grant.condition);
      if matched == Errs {
        assert grant in Elements(grants);
        return None;
      }
      OneMoreGrant(cel, r, gs, grant);
      if matched == Holds {
        allowed := true;
        if ScopeRank(grant.scope) > ScopeRank(scope) { scope := grant.scope; }
        if grant.scope == OrganizationScope && grant.unit != "" {
          units := AppendUnique(units, grant.unit);
        }
      }
      gs := gs + {grant};
    }
    assert grants[..|grants|] == grants && grants[0] in gs;
    if !allowed {
      NothingMatches(cel, r, gs);
    }
    result := Some(Decision(allowed, decisionId, if allowed then MatchingGrant else ConditionFailed,
                            policyVersion, scope, units));
  }

  lemma NothingMatches(cel: Cel, r: Request, gs: set<Grant>)
    requires !Allows(cel, r, gs)
    ensures TopScope(cel, r, gs) == NoScope && MatchingUnits(cel, r, gs) == {}
  {
  }

  lemma OneMoreMatching(cel: Cel, r: Request, gs: set<Grant>, grant: Grant, g: Grant)
    ensures Matching(cel, r, gs + {grant}, g) <==>
            Matching(cel, r, gs, g) || (Evaluate(cel, r, grant.condition) == Holds && g == grant)
  {
  }

  lemma OneMoreScope(cel: Cel, r: Request, gs: set<Grant>, grant: Grant, scope: DataScope)
    ensures MatchesScope(cel, r, gs + {grant}, scope) <==>
            MatchesScope(cel, r, gs, scope) || (Evaluate(cel, r, grant.condition) == Holds && grant.scope == scope)
  {
    forall g ensures Matching(cel, r, gs + {grant}, g) <==>
                     Matching(cel, r, gs, g) || (Evaluate(cel, r, grant.condition) == Holds && g == grant)
    {
      OneMoreMatching(cel, r, gs, grant, g);
    }
  }

  lemma OneMoreTop(cel: Cel, r: Request, gs: set<Grant>, grant: Grant)
    ensures TopScope(cel, r, gs + {grant}) ==
            if Evaluate(cel, r, grant.condition) == Holds && ScopeRank(grant.scope) > ScopeRank(TopScope(cel, r, gs))
            then grant.scope else TopScope(cel, r, gs)
  {
    OneMoreScope(cel, r, gs, grant, AllScope);
    OneMoreScope(cel, r, gs, grant, TenantScope);
    OneMoreScope(cel, r, gs, grant, OrganizationScope);
    OneMoreScope(cel, r, gs, grant, SelfScope);
  }

  lemma OneMoreUnit(cel: Cel, r: Request, gs: set<Grant>, grant: Grant)
    ensures MatchingUnits(cel, r, gs + {grant}) ==
            MatchingUnits(cel, r, gs) +
            if Evaluate(cel, r, grant.condition) == Holds && grant.scope == OrganizationScope && grant.unit != ""
            then {grant.unit} else {}
  {
    forall g ensures Matching(cel, r, gs + {grant}, g) <==>
                     Matching(cel, r, gs, g) || (Evaluate(cel, r, grant.condition) == Holds && g == grant)
    {
      OneMoreMatching(cel, r, gs, grant, g);
    }
  }

  lemma OneMoreAllows(cel: Cel, r: Request, gs: set<Grant>, grant: Grant)
    ensures Allows(cel, r, gs + {grant}) <==> Evaluate(cel, r, grant.condition) == Holds || Allows(cel, r, gs)
  {
    if Evaluate(cel, r, grant.condition) == Holds {
      assert Matching(cel, r, gs + {grant}, grant);
    }
    if g :| Matching(cel, r, gs, g) {
      assert Matching(cel, r, gs + {grant}, g);
    }
    if g :| Matching(cel, r, gs + {grant}, g) {
      OneMoreMatching(cel, r, gs, grant, g);
    }
  }

  /** What one more grant does to the judgement. */
  lemma OneMoreGrant(cel: Cel, r: Request, gs: set<Grant>, grant: Grant)
    ensures Allows(cel, r, gs + {grant}) <==> Evaluate(cel, r, grant.condition) == Holds || Allows(cel, r, gs)
    ensures TopScope(cel, r, gs + {grant}) ==
            if Evaluate(cel, r, grant.condition) == Holds && ScopeRank(grant.scope) > ScopeRank(TopScope(cel, r, gs))
            then grant.scope else TopScope(cel, r, gs)
    ensures MatchingUnits(cel, r, gs + {grant}) ==
            MatchingUnits(cel, r, gs) +
            if Evaluate(cel, r, grant.condition) == Holds && grant.scope == OrganizationScope && grant.unit != ""
            then {grant.unit} else {}
  {
    OneMoreAllows(cel, r, gs, grant);
    OneMoreTop(cel, r, gs, grant);
    OneMoreUnit(cel, r, gs, grant);
  }

  // ----- Frames over the join -----

  ghost predicate PermissionSlice(m: map<Id, Permission>, n: map<Id, Permission>, t: string) {
    forall p :: p in m && m[p].tenant == t ==> p in n && n[p] == m[p]
  }

  ghost predicate RoleSlice(m: map<Id, Role>, n: map<Id, Role>, t: string) {
    forall p :: p in m && m[p].tenant == t ==> p in n && n[p] == m[p]
  }

  ghost predicate PairSlice(m: map<Id, RolePermission>, n: map<Id, RolePermission>, t: string) {
    forall p :: p in m && m[p].tenant == t ==> p in n && n[p] == m[p]
  }

  ghost predicate BindingSlice(m: map<Id, Binding>, n: map<Id, Binding>, t: string) {
    forall p :: p in m && m[p].tenant == t ==> p in n && n[p] == m[p]
  }

  ghost predicate GroupSlice(m: map<GroupKey, GroupRow>, n: map<GroupKey, GroupRow>, t: string) {
    forall k :: k in m && k.tenant == t ==> k in n && n[k] == m[k]
  }

  /** Every row of tenant `t` in `s` is in `s2`, unchanged. */
  ghost predicate SliceWithin(s: Store, s2: Store, t: string) {
    && PermissionSlice(s.permissions, s2.permissions, t)
    && RoleSlice(s.roles, s2.roles, t)
    && PairSlice(s.rolePermissions, s2.rolePermissions, t)
    && BindingSlice(s.bindings, s2.bindings, t)
    && GroupSlice(s.groups, s2.groups, t)
    && (t in s.policyVersions ==> t in s2.policyVersions && s2.policyVersions[t] == s.policyVersions[t])
  }

  /** The rows of tenant `t` are the same in both stores. */
  ghost predicate SameSlice(s: Store, s2: Store, t: string) {
    SliceWithin(s, s2, t) && SliceWithin(s2, s, t)
  }

  lemma GrantsWithin(s: Store, s2: Store, r: Request)
    requires forall b, g :: Joins(s, r, b, g) ==> Joins(s2, r, b, g) && GrantOf(s, r, b, g) == GrantOf(s2, r, b, g)
    ensures Grants(s, r) <= Grants(s2, r)
  {
    forall x | x in Grants(s, r) ensures x in Grants(s2, r) {
      var b, g :| b in s.bindings && g in s.rolePermissions && Joins(s, r, b, g) && x == GrantOf(s, r, b, g);
      assert Joins(s2, r, b, g);
    }
  }

  lemma SliceGrants(s: Store, s2: Store, r: Request)
    requires Isolated(s) && SameSlice(s, s2, r.tenant)
    ensures Grants(s, r) <= Grants(s2, r)
  {
    forall b, g | Joins(s, r, b, g)
      ensures Joins(s2, r, b, g) && GrantOf(s, r, b, g) == GrantOf(s2, r, b, g)
    {
      assert s.roles[s.bindings[b].role].tenant == r.tenant;
      assert s.rolePermissions[g].tenant == r.tenant;
      assert s.permissions[s.rolePermissions[g].permission].tenant == r.tenant;
    }
    GrantsWithin(s, s2, r);
  }

  /** Under the isolation invariant a check sees only rows of its own tenant, although
      the join filters nothing but the binding by tenant. */
  lemma SliceDecides(s: Store, s2: Store, r: Request)
    requires Isolated(s) && Isolated(s2) && SameSlice(s, s2, r.tenant)
    ensures Grants(s, r) == Grants(s2, r)
    ensures PolicyVersion(s, r.tenant) == PolicyVersion(s2, r.tenant)
  {
    SliceGrants(s, s2, r);
    SliceGrants(s2, s, r);
  }

  // ----- Monotonicity -----

  /** Verdict `w` allows at least what `v` allows. */
  ghost predicate NotNarrower(v: Verdict, w: Verdict)
    requires v.Verdict? && w.Verdict?
  {
    && (v.allowed ==> w.allowed)
    && ScopeRank(v.scope) <= ScopeRank(w.scope)
    && v.units <= w.units
  }

  /** More grants never narrow a decision, as long as no condition errs. */
  lemma MoreGrantsNeverNarrow(cel: Cel, r: Request, gs: set<Grant>, more: set<Grant>)
    requires gs <= more && Judge(cel, r, more) != EvaluationError
    ensures Judge(cel, r, gs) != EvaluationError
    ensures NotNarrower(Judge(cel, r, gs), Judge(cel, r, more))
  {
    assert forall g :: Matching(cel, r, gs, g) ==> Matching(cel, r, more, g);
    TopScopeIsGreatest(cel, r, gs);
    TopScopeIsGreatest(cel, r, more);
    var top := TopScope(cel, r, gs);
    if top != NoScope {
      var g :| Matching(cel, r, gs, g) && g.scope == top;
      assert Matching(cel, r, more, g);
    }
  }
}
