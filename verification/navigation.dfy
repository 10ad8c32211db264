/** CheckPermissionCodes: the coarse check used to show or hide navigation entries. */
module Navigation {
  import opened Schema
  import opened Text
  import opened Resolution
  import opened Columns

  datatype CodeGrant = CodeGrant(code: string, resourceType: string, action: string, condition: string)

  /** The subject of a code check, as a request whose resource part is unused. */
  function SubjectOf(tenant: string, subject: string, subjectType: SubjectType): Request {
    Request(tenant, subject, subjectType, "", "", "", map[])
  }

  predicate Wildcard(p: Permission) {
    p.resourceType == "*" && p.action == "*"
  }

  /** The distinct rows selected by ResolvePermissionCodes. */
  function CodeGrants(s: Store, who: Request, codes: seq<string>): set<CodeGrant> {
    set b, g | b in s.bindings && g in s.rolePermissions && Linked(s, who, b, g)
               && (var p := s.permissions[s.rolePermissions[g].permission]; p.code in codes || Wildcard(p))
      :: var p := s.permissions[s.rolePermissions[g].permission];
         CodeGrant(p.code, p.resourceType, p.action, p.condition)
  }

  /** Row (b, g) proves the code without looking at a resource. */
  ghost predicate Proves(s: Store, who: Request, code: string, b: Id, g: Id) {
    && Linked(s, who, b, g)
    && var p := s.permissions[s.rolePermissions[g].permission];
       Trim(p.condition) == "" && (p.code == code || Wildcard(p))
  }

  ghost predicate Visible(s: Store, who: Request, code: string) {
    exists b, g :: Proves(s, who, code, b, g)
  }

  /** Requested codes lower-cased and trimmed, blanks and repetitions dropped. */
  function Normalised(requested: seq<string>): (codes: seq<string>)
    ensures Distinct(codes) && "" !in codes
  {
    if requested == [] then []
    else
      var codes := Normalised(requested[..|requested| - 1]);
      var code := Lower(Trim(requested[|requested| - 1]));
      if code == "" || code in codes then codes else codes + [code]
  }

  /** `a` keeps some elements of `b` in their order. */
  predicate Subsequence(a: seq<string>, b: seq<string>) {
    if a == [] then true
    else if b == [] then false
    else if a[|a| - 1] == b[|b| - 1] then Subsequence(a[..|a| - 1], b[..|b| - 1])
    else Subsequence(a, b[..|b| - 1])
  }

  /** A query result: the rows of `rows` in some order. */
  method Select(rows: set<CodeGrant>) returns (result: seq<CodeGrant>)
    ensures forall row :: row in result <==> row in rows
  {
    result := [];
    var rest := rows;
    while rest != {}
      invariant rest <= rows && forall row :: row in result <==> row in rows - rest
      decreases rest
    {
      var row :| row in rest;
      result, rest := result + [row], rest - {row};
    }
  }

  /** First loop: normalise and deduplicate the requested codes. */
  method CollectCodes(requested: seq<string>) returns (codes: seq<string>)
    ensures codes == Normalised(requested)
  {
    var seen: set<string> := {};
    codes := [];
    for i := 0 to |requested|
      invariant codes == Normalised(requested[..i]) && seen == Elements(codes)
    {
      assert requested[..i + 1][..i] == requested[..i];
      var code := Lower(Trim(requested[i]));
      if code == "" { continue; }
      if code !in seen {
        seen, codes := seen + {code}, codes + [code];
      }
    }
    assert requested[..|requested|] == requested;
  }

  /** A grant without a condition that covers the code. */
  predicate Covers(g: CodeGrant, code: string) {
    Trim(g.condition) == "" && (g.code == code || (g.resourceType == "*" && g.action == "*"))
  }

  /** One of the first `n` grants covers the code. */
  ghost predicate Covered(grants: seq<CodeGrant>, n: nat, code: string)
    requires n <= |grants|
  {
    exists i :: 0 <= i < n && Covers(grants[i], code)
  }

  lemma OneMoreCovers(grants: seq<CodeGrant>, i: nat, code: string)
    requires i < |grants|
    ensures Covered(grants, i + 1, code) <==> Covered(grants, i, code) || Covers(grants[i], code)
  {
  }

  /** Second loop: the unconditional codes, and whether everything is allowed. */
  method CollectAllowed(grants: seq<CodeGrant>) returns (allowed: set<string>, allowAll: bool)
    ensures forall c :: (c in allowed || allowAll) <==> Covered(grants, |grants|, c)
  {
    allowed, allowAll := {}, false;
    for i := 0 to |grants|
      invariant forall c :: (c in allowed || allowAll) <==> Covered(grants, i, c)
    {
      forall c ensures Covered(grants, i + 1, c) <==> Covered(grants, i, c) || Covers(grants[i], c) {
        OneMoreCovers(grants, i, c);
      }
      if Trim(grants[i].condition) != "" { continue; }
      if grants[i].resourceType == "*" && grants[i].action == "*" { allowAll := true; }
      allowed := allowed + {grants[i].code};
    }
  }

  /** Third loop: keep the allowed codes in request order. */
  method KeepAllowed(codes: seq<string>, allowed: set<string>, allowAll: bool) returns (kept: seq<string>)
    requires Distinct(codes)
    ensures Subsequence(kept, codes) && Distinct(kept)
    ensures forall c :: c in kept <==> c in codes && (c in allowed || allowAll)
  {
    kept := [];
    for i := 0 to |codes|
      invariant Subsequence(kept, codes[..i]) && Distinct(kept)
      invariant forall c :: c in kept <==> c in codes[..i] && (c in allowed || allowAll)
    {
      assert codes[..i + 1][..i] == codes[..i];
      if codes[i] in allowed || allowAll {
        assert (kept + [codes[i]])[..|kept|] == kept;
        kept := kept + [codes[i]];
      } else {
        assert kept == [] || kept[|kept| - 1] in kept;
      }
    }
    assert codes[..|codes|] == codes;
  }

  datatype CodeDecision = Invalid | CodeDecision(allowed: seq<string>, policyVersion: nat)

  /** CheckPermissionCodes. `subjectType` is None for a string that names no subject type. */
  method CheckPermissionCodes(s: Store, tenantId: string, subjectId: string, subjectType: Option<SubjectType>,
                              requested: seq<string>)
    returns (result: CodeDecision)
    ensures result == Invalid <==>
            || |requested| == 0 || |requested| > 100 || (forall i :: 0 <= i < |requested| ==> Trim(requested[i]) == "")
            || Trim(tenantId) == "" || Trim(subjectId) == "" || subjectType == None
    ensures result.CodeDecision? ==>
              var who := SubjectOf(Trim(tenantId), Trim(subjectId), subjectType.value);
              && result.policyVersion == PolicyVersion(s, Trim(tenantId))
              && Distinct(result.allowed) && Subsequence(result.allowed, Normalised(requested))
              && forall c :: c in result.allowed <==> c in Normalised(requested) && Visible(s, who, c)
    ensures result.CodeDecision? ==> forall c ::
              c in result.allowed <==>
              && c != "" && (exists i :: 0 <= i < |requested| && Lower(Trim(requested[i])) == c)
              && exists b, g :: Opens(s, Trim(tenantId), Trim(subjectId), subjectType.value, c, b, g)
    ensures result.CodeDecision? ==> InRequestOrder(requested, result.allowed)
  {
    var tenant, subject := Trim(tenantId), Trim(subjectId);
    if |requested| == 0 || |requested| > 100 { return Invalid; }
    var codes := CollectCodes(requested);
    NormalisedCodes(requested);
    NormalisedBlank(requested);
    if tenant == "" || subject == "" || subjectType == None || |codes| == 0 { return Invalid; }
    var who := SubjectOf(tenant, subject, subjectType.value);
    var grants := Select(CodeGrants(s, who, codes));
    var allowed, allowAll := CollectAllowed(grants);
    var kept := KeepAllowed(codes, allowed, allowAll);
    forall c | c in codes ensures (c in allowed || allowAll) <==> Visible(s, who, c) {
      SelectedRowsProve(s, who, codes, grants, c);
    }
    forall c ensures Visible(s, who, c) <==> exists b, g :: Opens(s, tenant, subject, subjectType.value, c, b, g) {
      VisibleByColumns(s, who, c);
    }
    forall i, j, k, m | 0 <= i < j < |kept| && FirstAt(requested, kept[i], k) && FirstAt(requested, kept[j], m)
      ensures k < m
    {
      KeptInOrder(requested, kept, i, j, k, m);
    }
    result := CodeDecision(kept, PolicyVersion(s, tenant));
  }

  /** Through binding `b` and role permission `g` the subject holds, without a condition, the
      permission with that code or a wildcard for everything. */
  ghost predicate Opens(s: Store, tenant: string, subject: string, t: SubjectType, code: string, b: Id, g: Id) {
    && Reaches(s, tenant, subject, t, b) && Leads(s, b, g)
    && Trim(PairPermission(s, g).condition) == ""
    && (|| PairPermission(s, g).code == code
        || (PairPermission(s, g).resourceType == "*" && PairPermission(s, g).action == "*"))
  }

  lemma VisibleByColumns(s: Store, who: Request, code: string)
    ensures Visible(s, who, code) <==> exists b, g :: Opens(s, who.tenant, who.subject, who.subjectType, code, b, g)
  {
    forall b, g ensures Proves(s, who, code, b, g) <==> Opens(s, who.tenant, who.subject, who.subjectType, code, b, g) {
      LinksAreChains(s, who, b, g);
    }
  }

  /** Position `k` is the first that asks for `code`. */
  ghost predicate FirstAt(requested: seq<string>, code: string, k: int) {
    && 0 <= k < |requested| && Lower(Trim(requested[k])) == code
    && forall m :: 0 <= m < k ==> Lower(Trim(requested[m])) != code
  }

  /** The codes follow their first occurrences in the request. */
  ghost predicate InRequestOrder(requested: seq<string>, codes: seq<string>) {
    forall i, j, k, m :: 0 <= i < j < |codes| && FirstAt(requested, codes[i], k) && FirstAt(requested, codes[j], m) ==>
      k < m
  }

  /** The normalised codes are the non-blank requested codes, trimmed and lower-cased. */
  lemma {:induction false} NormalisedCodes(requested: seq<string>)
    ensures forall c :: c in Normalised(requested) <==>
              c != "" && exists i :: 0 <= i < |requested| && Lower(Trim(requested[i])) == c
  {
    if requested != [] {
      var before, last := requested[..|requested| - 1], requested[|requested| - 1];
      assert requested == before + [last];
      NormalisedCodes(before);
    }
  }

  lemma NormalisedBlank(requested: seq<string>)
    ensures Normalised(requested) == [] <==> forall i :: 0 <= i < |requested| ==> Trim(requested[i]) == ""
  {
    NormalisedCodes(requested);
    if i :| 0 <= i < |requested| && Trim(requested[i]) != "" {
      assert Lower(Trim(requested[i])) in Normalised(requested);
    }
    if Normalised(requested) != [] {
      assert Normalised(requested)[0] in Normalised(requested);
    }
  }

  /** They follow their first occurrences in the request. */
  lemma {:induction false} NormalisedInOrder(requested: seq<string>, i: nat, j: nat, k: int, m: int)
    requires i < j < |Normalised(requested)|
    requires FirstAt(requested, Normalised(requested)[i], k) && FirstAt(requested, Normalised(requested)[j], m)
    ensures k < m
  {
    var before := requested[..|requested| - 1];
    var codes := Normalised(before);
    NormalisedCodes(before);
    assert Normalised(requested)[i] in codes;
    var x :| 0 <= x < |before| && Lower(Trim(before[x])) == Normalised(requested)[i];
    assert k <= x;
    if j < |codes| {
      assert codes[j] in codes;
      var y :| 0 <= y < |before| && Lower(Trim(before[y])) == codes[j];
      assert m <= y;
      NormalisedInOrder(before, i, j, k, m);
    } else {
      assert Normalised(requested)[j] !in codes;
    }
  }

  /** A kept code has a position among the normalised ones, and positions keep the order. */
  lemma {:induction false} SubsequencePlaces(a: seq<string>, b: seq<string>, i: nat, j: nat) returns (x: nat, y: nat)
    requires Subsequence(a, b) && i < j < |a|
    ensures x < y < |b| && a[i] == b[x] && a[j] == b[y]
  {
    if a[|a| - 1] == b[|b| - 1] {
      if j == |a| - 1 {
        y := |b| - 1;
        x := SubsequencePlace(a[..|a| - 1], b[..|b| - 1], i);
      } else {
        x, y := SubsequencePlaces(a[..|a| - 1], b[..|b| - 1], i, j);
      }
    } else {
      x, y := SubsequencePlaces(a, b[..|b| - 1], i, j);
    }
  }

  lemma {:induction false} SubsequencePlace(a: seq<string>, b: seq<string>, i: nat) returns (x: nat)
    requires Subsequence(a, b) && i < |a|
    ensures x < |b| && a[i] == b[x]
  {
    if a[|a| - 1] == b[|b| - 1] {
      if i == |a| - 1 {
        x := |b| - 1;
      } else {
        x := SubsequencePlace(a[..|a| - 1], b[..|b| - 1], i);
      }
    } else {
      x := SubsequencePlace(a, b[..|b| - 1], i);
    }
  }

  lemma KeptInOrder(requested: seq<string>, kept: seq<string>, i: nat, j: nat, k: int, m: int)
    requires Subsequence(kept, Normalised(requested)) && i < j < |kept|
    requires FirstAt(requested, kept[i], k) && FirstAt(requested, kept[j], m)
    ensures k < m
  {
    var x, y := SubsequencePlaces(kept, Normalised(requested), i, j);
    NormalisedInOrder(requested, x, y, k, m);
  }

  lemma SelectedRowsProve(s: Store, who: Request, codes: seq<string>, grants: seq<CodeGrant>, c: string)
    requires c in codes && forall row :: row in grants <==> row in CodeGrants(s, who, codes)
    ensures Covered(grants, |grants|, c) <==> Visible(s, who, c)
  {
    RowsProve(s, who, codes, c);
    if x :| x in CodeGrants(s, who, codes) && Covers(x, c) {
      assert x in grants;
    }
    if i :| 0 <= i < |grants| && Covers(grants[i], c) {
      assert grants[i] in CodeGrants(s, who, codes);
    }
  }

  lemma RowsProve(s: Store, who: Request, codes: seq<string>, c: string)
    requires c in codes
    ensures Visible(s, who, c) <==>
            exists x :: x in CodeGrants(s, who, codes) && Covers(x, c)
  {
    if Visible(s, who, c) {
      var b, g :| Proves(s, who, c, b, g);
      var p := s.permissions[s.rolePermissions[g].permission];
      var x := CodeGrant(p.code, p.resourceType, p.action, p.condition);
      assert x in CodeGrants(s, who, codes) && Covers(x, c);
    }
    if x :| x in CodeGrants(s, who, codes) && Covers(x, c) {
      var b, g :| b in s.bindings && g in s.rolePermissions && Linked(s, who, b, g)
                  && var p := s.permissions[s.rolePermissions[g].permission];
                     x == CodeGrant(p.code, p.resourceType, p.action, p.condition);
      assert Proves(s, who, c, b, g);
    }
  }

  /** A visible code is never denied by the full check on its permission: the check
      allows, or reports an evaluation error raised by some conditional grant. */
  lemma NavigationIsSound(cel: Cel, s: Store, p: Id, r: Request)
    requires Isolated(s) && UniqueKeys(s)
    requires p in s.permissions && s.permissions[p].tenant == r.tenant
    requires r.resourceType == s.permissions[p].resourceType && r.action == s.permissions[p].action
    requires Visible(s, SubjectOf(r.tenant, r.subject, r.subjectType), s.permissions[p].code)
    ensures FreshVerdict(cel, s, r) == EvaluationError || FreshVerdict(cel, s, r).allowed
  {
    var who := SubjectOf(r.tenant, r.subject, r.subjectType);
    var b, g :| Proves(s, who, s.permissions[p].code, b, g);
    var q := s.rolePermissions[g].permission;
    assert s.permissions[q].tenant == r.tenant;
    if s.permissions[q].code == s.permissions[p].code {
      assert SamePermissionCode(s.permissions[p], s.permissions[q]);
    }
    assert Joins(s, r, b, g);
    var grant := GrantOf(s, r, b, g);
    assert grant in Grants(s, r);
    assert Matching(cel, r, Grants(s, r), grant);
  }
}
