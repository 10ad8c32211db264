/** The route-policy tables, and what reconciling permission references means for them. */
module RouteTables {
  import opened Schema
  import opened Text

  /** The text primary keys; only their identity matters. */
  datatype PolicyId = PolicyId(n: nat)

  datatype RefId = RefId(n: nat)

  datatype PermissionInput = PermissionInput(key: string, resource: string, action: string, scope: string)

  datatype SetInput = SetInput(route: string, expression: string, description: string, status: string,
                               expectedVersion: int, permissions: seq<PermissionInput>)

  datatype PolicyRow = PolicyRow(route: string, expression: string, description: string, status: string, version: nat)

  /** `deleted` stands for a non-null deleted_at. */
  datatype RefRow = RefRow(policy: PolicyId, key: string, resource: string, action: string, scope: string,
                           deleted: bool)

  datatype Tables = Tables(routes: set<string>, policies: map<PolicyId, PolicyRow>, refs: map<RefId, RefRow>)

  datatype Scope = ForTenant | ForPlatform | ForPrincipal

  /** parseScope; None is the invalid-scope error. */
  function ParseScope(value: string): Option<Scope> {
    if value == "tenant" then Some(ForTenant)
    else if value == "platform" then Some(ForPlatform)
    else if value == "principal" then Some(ForPrincipal)
    else None
  }

  predicate ValidStatus(status: string) {
    status == "active" || status == "disabled"
  }

  // ----- Table invariants -----

  ghost predicate UniqueRoutes(policies: map<PolicyId, PolicyRow>) {
    forall p, q :: p in policies && q in policies && policies[p].route == policies[q].route ==> p == q
  }

  predicate SameKey(a: RefRow, b: RefRow) {
    a.policy == b.policy && a.key == b.key
  }

  /** One row per policy and key, live or deleted; the index itself covers live rows only. */
  ghost predicate UniqueRefs(refs: map<RefId, RefRow>) {
    forall a, b :: a in refs && b in refs && SameKey(refs[a], refs[b]) ==> a == b
  }

  ghost predicate RefsChecked(refs: map<RefId, RefRow>, policies: map<PolicyId, PolicyRow>) {
    forall a :: a in refs ==> refs[a].policy in policies && ParseScope(refs[a].scope).Some?
  }

  ghost predicate ValidTables(t: Tables) {
    && UniqueRoutes(t.policies) && UniqueRefs(t.refs) && RefsChecked(t.refs, t.policies)
    && (forall p :: p in t.policies ==> ValidStatus(t.policies[p].status) && t.policies[p].version > 0)
  }

  ghost predicate HasPolicy(policies: map<PolicyId, PolicyRow>, route: string) {
    exists p :: p in policies && policies[p].route == route
  }

  /** The version a caller must expect: 0 while the route has no policy. */
  ghost function CurrentVersion(policies: map<PolicyId, PolicyRow>, route: string): nat {
    if HasPolicy(policies, route) then
      var p :| p in policies && policies[p].route == route;
      policies[p].version
    else 0
  }

  // ----- Reconciliation -----

  /** The wanted reference of each key; the last input of a key counts. */
  function Wanted(inputs: seq<PermissionInput>): (want: map<string, PermissionInput>)
    ensures forall k :: k in want ==> want[k].key == k && want[k] in inputs
    ensures forall i :: 0 <= i < |inputs| ==> inputs[i].key in want
  {
    if inputs == [] then map[]
    else Wanted(inputs[..|inputs| - 1])[inputs[|inputs| - 1].key := inputs[|inputs| - 1]]
  }

  ghost predicate DistinctKeys(inputs: seq<PermissionInput>) {
    forall i, j :: 0 <= i < j < |inputs| ==> inputs[i].key != inputs[j].key
  }

  lemma WantedIsInput(inputs: seq<PermissionInput>, i: nat)
    requires DistinctKeys(inputs) && i < |inputs|
    ensures Wanted(inputs)[inputs[i].key] == inputs[i]
  {
    var w := Wanted(inputs)[inputs[i].key];
    var j :| 0 <= j < |inputs| && inputs[j] == w;
    assert j == i;
  }

  function LiveRow(policy: PolicyId, input: PermissionInput): RefRow {
    RefRow(policy, input.key, input.resource, input.action, input.scope, false)
  }

  ghost predicate IsRow(refs: map<RefId, RefRow>, policy: PolicyId, key: string, id: RefId) {
    id in refs && refs[id].policy == policy && refs[id].key == key
  }

  ghost predicate HasRow(refs: map<RefId, RefRow>, policy: PolicyId, key: string) {
    exists id :: IsRow(refs, policy, key, id)
  }

  /** A row of the policy takes its wanted content; if its key is not wanted it stays or is
      marked deleted. Rows of other policies stay. */
  function Updated(before: RefRow, policy: PolicyId, want: map<string, PermissionInput>, deleteOthers: bool): RefRow {
    if before.policy != policy then before
    else if before.key in want then LiveRow(policy, want[before.key])
    else if deleteOthers then before.(deleted := true)
    else before
  }

  /** Every old row keeps its id and becomes `Updated`. */
  ghost predicate OldRows(refs: map<RefId, RefRow>, after: map<RefId, RefRow>, policy: PolicyId,
                          want: map<string, PermissionInput>, deleteOthers: bool)
  {
    forall id :: id in refs ==> id in after && after[id] == Updated(refs[id], policy, want, deleteOthers)
  }

  /** A new row is a wanted reference that had no row. */
  ghost predicate NewRows(refs: map<RefId, RefRow>, after: map<RefId, RefRow>, policy: PolicyId,
                          want: map<string, PermissionInput>) {
    forall id :: id in after && id !in refs ==>
      && after[id].key in want && after[id] == LiveRow(policy, want[after[id].key])
      && !HasRow(refs, policy, after[id].key)
  }

  ghost predicate AllHaveRows(after: map<RefId, RefRow>, policy: PolicyId, want: map<string, PermissionInput>) {
    forall k :: k in want ==> HasRow(after, policy, k)
  }

  ghost predicate KeyedByKey(want: map<string, PermissionInput>) {
    forall k :: k in want ==> want[k].key == k
  }

  ghost predicate Merged(refs: map<RefId, RefRow>, after: map<RefId, RefRow>, policy: PolicyId,
                         want: map<string, PermissionInput>, deleteOthers: bool)
  {
    && OldRows(refs, after, policy, want, deleteOthers) && NewRows(refs, after, policy, want)
    && AllHaveRows(after, policy, want) && UniqueRefs(after)
  }

  ghost predicate Reconciled(refs: map<RefId, RefRow>, after: map<RefId, RefRow>, policy: PolicyId,
                             want: map<string, PermissionInput>)
  {
    Merged(refs, after, policy, want, true)
  }

  lemma OverwriteKeepsUnique(refs: map<RefId, RefRow>, id: RefId, row: RefRow)
    requires UniqueRefs(refs) && id in refs && SameKey(refs[id], row)
    ensures UniqueRefs(refs[id := row])
  {
  }

  lemma InsertKeepsUnique(refs: map<RefId, RefRow>, id: RefId, row: RefRow)
    requires UniqueRefs(refs) && id !in refs && !HasRow(refs, row.policy, row.key)
    ensures UniqueRefs(refs[id := row])
  {
    assert forall x :: x in refs && SameKey(refs[x], row) ==> IsRow(refs, row.policy, row.key, x);
  }

  lemma MoreHaveRows(now: map<RefId, RefRow>, policy: PolicyId, want: map<string, PermissionInput>,
                     input: PermissionInput, id: RefId)
    requires AllHaveRows(now, policy, want) && (id in now ==> SameKey(now[id], LiveRow(policy, input)))
    ensures AllHaveRows(now[id := LiveRow(policy, input)], policy, want[input.key := input])
  {
    var next, more := now[id := LiveRow(policy, input)], want[input.key := input];
    forall k | k in more ensures HasRow(next, policy, k) {
      if k == input.key {
        assert IsRow(next, policy, k, id);
      } else {
        var other :| IsRow(now, policy, k, other);
        assert IsRow(next, policy, k, other);
      }
    }
  }

  lemma OldRowsKeepKeys(refs: map<RefId, RefRow>, now: map<RefId, RefRow>, policy: PolicyId,
                        want: map<string, PermissionInput>, deleteOthers: bool)
    requires OldRows(refs, now, policy, want, deleteOthers) && KeyedByKey(want)
    ensures forall x :: x in refs ==> SameKey(refs[x], now[x])
  {
  }

  /** A wanted key with an old row: that row is overwritten and, if deleted, revived. */
  lemma ReviveStep(refs: map<RefId, RefRow>, now: map<RefId, RefRow>, policy: PolicyId,
                   want: map<string, PermissionInput>, input: PermissionInput, id: RefId)
    requires Merged(refs, now, policy, want, false) && IsRow(refs, policy, input.key, id) && KeyedByKey(want)
    ensures id in now && now[id].(resource := input.resource, action := input.action, scope := input.scope,
                                  deleted := false) == LiveRow(policy, input)
    ensures Merged(refs, now[id := LiveRow(policy, input)], policy, want[input.key := input], false)
  {
    OldRowsKeepKeys(refs, now, policy, want, false);
    OverwriteKeepsUnique(now, id, LiveRow(policy, input));
    MoreHaveRows(now, policy, want, input, id);
    ReviveOld(refs, now, policy, want, input, id);
    assert forall x :: x in now && x !in refs ==> now[x].key != input.key;
  }

  lemma ReviveOld(refs: map<RefId, RefRow>, now: map<RefId, RefRow>, policy: PolicyId,
                  want: map<string, PermissionInput>, input: PermissionInput, id: RefId)
    requires OldRows(refs, now, policy, want, false) && UniqueRefs(now) && IsRow(refs, policy, input.key, id)
             && KeyedByKey(want)
    ensures OldRows(refs, now[id := LiveRow(policy, input)], policy, want[input.key := input], false)
  {
    OldRowsKeepKeys(refs, now, policy, want, false);
    forall x | x in refs && x != id ensures !(refs[x].policy == policy && refs[x].key == input.key) {
      assert SameKey(now[x], refs[x]) && SameKey(now[id], refs[id]);
    }
  }

  lemma NoRowsNamed(refs: map<RefId, RefRow>, now: map<RefId, RefRow>, policy: PolicyId,
                    want: map<string, PermissionInput>, key: string)
    requires OldRows(refs, now, policy, want, false) && NewRows(refs, now, policy, want)
    requires KeyedByKey(want) && !HasRow(now, policy, key)
    ensures forall x :: x in refs && refs[x].policy == policy ==> refs[x].key != key
    ensures forall x :: x in now && x !in refs ==> now[x].key != key
  {
    OldRowsKeepKeys(refs, now, policy, want, false);
    forall x | x in refs && refs[x].policy == policy ensures refs[x].key != key {
      assert !IsRow(now, policy, key, x);
    }
    forall x | x in now && x !in refs ensures now[x].key != key {
      assert !IsRow(now, policy, key, x);
    }
  }

  /** A wanted key without any row: a new row is inserted. */
  lemma InsertStep(refs: map<RefId, RefRow>, now: map<RefId, RefRow>, policy: PolicyId,
                   want: map<string, PermissionInput>, input: PermissionInput, id: RefId)
    requires Merged(refs, now, policy, want, false) && !HasRow(now, policy, input.key) && id !in now && KeyedByKey(want)
    ensures Merged(refs, now[id := LiveRow(policy, input)], policy, want[input.key := input], false)
  {
    InsertKeepsUnique(now, id, LiveRow(policy, input));
    MoreHaveRows(now, policy, want, input, id);
    NoRowsNamed(refs, now, policy, want, input.key);
    InsertOldRows(refs, now, policy, want, input, id);
    InsertNewRows(refs, now, policy, want, input, id);
  }

  lemma InsertOldRows(refs: map<RefId, RefRow>, now: map<RefId, RefRow>, policy: PolicyId,
                      want: map<string, PermissionInput>, input: PermissionInput, id: RefId)
    requires OldRows(refs, now, policy, want, false) && id !in now
    requires forall x :: x in refs && refs[x].policy == policy ==> refs[x].key != input.key
    ensures OldRows(refs, now[id := LiveRow(policy, input)], policy, want[input.key := input], false)
  {
  }

  lemma InsertNewRows(refs: map<RefId, RefRow>, now: map<RefId, RefRow>, policy: PolicyId,
                      want: map<string, PermissionInput>, input: PermissionInput, id: RefId)
    requires NewRows(refs, now, policy, want) && id !in now && id !in refs
    requires forall x :: x in refs && refs[x].policy == policy ==> refs[x].key != input.key
    requires forall x :: x in now && x !in refs ==> now[x].key != input.key
    ensures NewRows(refs, now[id := LiveRow(policy, input)], policy, want[input.key := input])
  {
  }

  /** Soft-deletion of the rows in `ids` whose key is not wanted. */
  function Retired(refs: map<RefId, RefRow>, ids: set<RefId>, keys: set<string>): map<RefId, RefRow> {
    map id | id in refs :: if id in ids && refs[id].key !in keys then refs[id].(deleted := true) else refs[id]
  }

  function RowsOf(refs: map<RefId, RefRow>, policy: PolicyId): set<RefId> {
    set id | id in refs && refs[id].policy == policy
  }

  lemma RetiringKeepsRows(now: map<RefId, RefRow>, ids: set<RefId>, keys: set<string>, policy: PolicyId,
                          want: map<string, PermissionInput>)
    requires UniqueRefs(now) && AllHaveRows(now, policy, want)
    ensures UniqueRefs(Retired(now, ids, keys)) && AllHaveRows(Retired(now, ids, keys), policy, want)
  {
    var after := Retired(now, ids, keys);
    assert forall a, b :: a in now && b in now && SameKey(after[a], after[b]) ==> SameKey(now[a], now[b]);
    forall k | k in want ensures HasRow(after, policy, k) {
      var id :| IsRow(now, policy, k, id);
      assert IsRow(after, policy, k, id);
    }
  }

  lemma RetiringReconciles(refs: map<RefId, RefRow>, now: map<RefId, RefRow>, policy: PolicyId,
                           want: map<string, PermissionInput>)
    requires Merged(refs, now, policy, want, false) && KeyedByKey(want)
    ensures Reconciled(refs, Retired(now, RowsOf(refs, policy), want.Keys), policy, want)
  {
    var after := Retired(now, RowsOf(refs, policy), want.Keys);
    RetiringKeepsRows(now, RowsOf(refs, policy), want.Keys, policy, want);
    forall id | id in refs ensures after[id] == Updated(refs[id], policy, want, true) {
      assert now[id] == Updated(refs[id], policy, want, false);
    }
  }

  // ----- What Load sees -----

  datatype LoadedPermission = LoadedPermission(id: RefId, key: string, resource: string, action: string, scope: Scope)

  predicate IsLive(row: RefRow, policy: PolicyId) {
    row.policy == policy && !row.deleted
  }

  ghost function LiveKeys(refs: map<RefId, RefRow>, policy: PolicyId): set<string> {
    set id | id in refs && IsLive(refs[id], policy) :: refs[id].key
  }

  function PermissionOf(id: RefId, row: RefRow): LoadedPermission
    requires ParseScope(row.scope).Some?
  {
    LoadedPermission(id, row.key, row.resource, row.action, ParseScope(row.scope).value)
  }

  /** `loaded` is the permission map of a policy: one permission per live row, under its key. */
  ghost predicate IsPermissionMap(refs: map<RefId, RefRow>, policy: PolicyId, loaded: map<string, LoadedPermission>) {
    && loaded.Keys == LiveKeys(refs, policy)
    && forall id :: id in refs && IsLive(refs[id], policy) ==>
         ParseScope(refs[id].scope).Some? && refs[id].key in loaded
           && loaded[refs[id].key] == PermissionOf(id, refs[id])
  }

  // ----- Round trip -----

  /** A successful Set of policy `p`. */
  ghost predicate SetDone(t: Tables, t2: Tables, p: PolicyId, input: SetInput) {
    && input.route in t.routes && input.expectedVersion >= 0
    && t2.routes == t.routes
    && t2.policies == t.policies[p := PolicyRow(input.route, input.expression, input.description, input.status,
                                                input.expectedVersion + 1)]
    && (if p in t.policies then t.policies[p].route == input.route && t.policies[p].version == input.expectedVersion
        else !HasPolicy(t.policies, input.route) && input.expectedVersion == 0)
    && Reconciled(t.refs, t2.refs, p, Wanted(input.permissions))
  }

  ghost function Live(refs: map<RefId, RefRow>, policy: PolicyId): set<PermissionInput> {
    set id | id in refs && IsLive(refs[id], policy) ::
      PermissionInput(refs[id].key, refs[id].resource, refs[id].action, refs[id].scope)
  }

  /** Each live row is the wanted reference of its key. */
  lemma LiveRowIsWanted(refs: map<RefId, RefRow>, after: map<RefId, RefRow>, policy: PolicyId,
                        want: map<string, PermissionInput>, id: RefId)
    requires Reconciled(refs, after, policy, want) && KeyedByKey(want) && id in after && IsLive(after[id], policy)
    ensures after[id].key in want && after[id] == LiveRow(policy, want[after[id].key])
  {
    if id in refs {
      assert after[id] == Updated(refs[id], policy, want, true);
    }
  }

  lemma WantedRow(refs: map<RefId, RefRow>, after: map<RefId, RefRow>, policy: PolicyId,
                  want: map<string, PermissionInput>, k: string)
    requires Reconciled(refs, after, policy, want) && KeyedByKey(want) && k in want
    ensures exists id :: id in after && after[id] == LiveRow(policy, want[k])
  {
    var id :| IsRow(after, policy, k, id);
    if id in refs {
      assert after[id] == Updated(refs[id], policy, want, true);
    }
  }

  /** After a Set the live references are exactly the wanted ones. */
  lemma LiveIsWanted(refs: map<RefId, RefRow>, after: map<RefId, RefRow>, policy: PolicyId,
                     want: map<string, PermissionInput>)
    requires Reconciled(refs, after, policy, want) && KeyedByKey(want)
    ensures Live(after, policy) == want.Values
    ensures LiveKeys(after, policy) == want.Keys
  {
    forall id | id in after && IsLive(after[id], policy)
      ensures after[id].key in want && after[id] == LiveRow(policy, want[after[id].key])
    {
      LiveRowIsWanted(refs, after, policy, want, id);
    }
    forall k | k in want ensures want[k] in Live(after, policy) && k in LiveKeys(after, policy) {
      WantedRow(refs, after, policy, want, k);
      var id :| id in after && after[id] == LiveRow(policy, want[k]);
      assert IsLive(after[id], policy);
    }
  }

  /** The live references are exactly the input when its keys are distinct. */
  lemma LiveIsInput(t: Tables, t2: Tables, p: PolicyId, input: SetInput)
    requires SetDone(t, t2, p, input) && DistinctKeys(input.permissions)
    ensures Live(t2.refs, p) == Elements(input.permissions)
  {
    var want := Wanted(input.permissions);
    LiveIsWanted(t.refs, t2.refs, p, want);
    forall x | x in Elements(input.permissions) ensures x in want.Values {
      var i :| 0 <= i < |input.permissions| && input.permissions[i] == x;
      WantedIsInput(input.permissions, i);
      assert want[x.key] == x;
    }
  }

  /** A wanted key that ever had a row keeps that row's id. */
  lemma IdsSurvive(t: Tables, t2: Tables, p: PolicyId, input: SetInput, loaded: map<string, LoadedPermission>,
                   key: string, id: RefId)
    requires SetDone(t, t2, p, input) && IsPermissionMap(t2.refs, p, loaded)
    requires IsRow(t.refs, p, key, id) && key in Wanted(input.permissions)
    ensures key in loaded && loaded[key].id == id
  {
    assert t2.refs[id] == Updated(t.refs[id], p, Wanted(input.permissions), true);
  }

  /** A loaded permission with the content of an input. */
  predicate Carries(loaded: LoadedPermission, ref: PermissionInput) {
    loaded.key == ref.key && loaded.resource == ref.resource && loaded.action == ref.action
      && Some(loaded.scope) == ParseScope(ref.scope)
  }

  /** The loaded map holds, under each input key, that input with its parsed scope. */
  lemma LoadedIsInput(t: Tables, t2: Tables, p: PolicyId, input: SetInput, loaded: map<string, LoadedPermission>,
                      i: nat)
    requires SetDone(t, t2, p, input) && DistinctKeys(input.permissions) && IsPermissionMap(t2.refs, p, loaded)
    requires i < |input.permissions|
    ensures input.permissions[i].key in loaded && Carries(loaded[input.permissions[i].key], input.permissions[i])
  {
    var ref, want := input.permissions[i], Wanted(input.permissions);
    WantedIsInput(input.permissions, i);
    WantedRow(t.refs, t2.refs, p, want, ref.key);
    var id :| id in t2.refs && t2.refs[id] == LiveRow(p, ref);
    assert IsLive(t2.refs[id], p);
  }

  /** Nothing else is loaded for the policy. */
  lemma LoadedKeysAreInput(t: Tables, t2: Tables, p: PolicyId, input: SetInput, loaded: map<string, LoadedPermission>)
    requires SetDone(t, t2, p, input) && IsPermissionMap(t2.refs, p, loaded)
    ensures forall k :: k in loaded <==> exists i :: 0 <= i < |input.permissions| && input.permissions[i].key == k
  {
    LiveIsWanted(t.refs, t2.refs, p, Wanted(input.permissions));
    assert loaded.Keys == Wanted(input.permissions).Keys;
    forall k | k in loaded ensures exists i :: 0 <= i < |input.permissions| && input.permissions[i].key == k {
      var w := Wanted(input.permissions)[k];
      assert w in input.permissions;
    }
  }

  lemma OtherRowsUnchanged(refs: map<RefId, RefRow>, after: map<RefId, RefRow>, policy: PolicyId,
                           want: map<string, PermissionInput>, q: PolicyId)
    requires Reconciled(refs, after, policy, want) && q != policy
    ensures forall id :: id in refs && refs[id].policy == q ==> id in after && after[id] == refs[id]
    ensures forall id :: id in after && after[id].policy == q ==> id in refs && refs[id] == after[id]
  {
    assert forall id :: id in refs ==> after[id] == Updated(refs[id], policy, want, true);
  }

  /** Every other policy is loaded as before. */
  lemma OthersUnchanged(t: Tables, t2: Tables, p: PolicyId, input: SetInput, q: PolicyId,
                        loaded: map<string, LoadedPermission>)
    requires SetDone(t, t2, p, input) && q != p
    ensures IsPermissionMap(t.refs, q, loaded) <==> IsPermissionMap(t2.refs, q, loaded)
    ensures q in t2.policies <==> q in t.policies
    ensures q in t.policies ==> t2.policies[q] == t.policies[q]
  {
    OtherRowsUnchanged(t.refs, t2.refs, p, Wanted(input.permissions), q);
    SameRowsSameMap(t.refs, t2.refs, q, loaded);
  }

  lemma SameRowsSameMap(refs: map<RefId, RefRow>, after: map<RefId, RefRow>, q: PolicyId,
                        loaded: map<string, LoadedPermission>)
    requires forall id :: id in refs && refs[id].policy == q ==> id in after && after[id] == refs[id]
    requires forall id :: id in after && after[id].policy == q ==> id in refs && refs[id] == after[id]
    ensures IsPermissionMap(refs, q, loaded) <==> IsPermissionMap(after, q, loaded)
  {
    assert LiveKeys(refs, q) == LiveKeys(after, q);
  }

  /** Set keeps the table invariants. */
  lemma SetKeepsValid(t: Tables, t2: Tables, p: PolicyId, input: SetInput)
    requires ValidTables(t) && SetDone(t, t2, p, input) && ValidStatus(input.status)
    requires forall i :: 0 <= i < |input.permissions| ==> ParseScope(input.permissions[i].scope).Some?
    ensures ValidTables(t2)
  {
    ReconciledRefsChecked(t.refs, t2.refs, p, Wanted(input.permissions), t.policies, t2.policies);
    PoliciesStayUnique(t.policies, p, t2.policies[p]);
  }

  lemma PoliciesStayUnique(policies: map<PolicyId, PolicyRow>, p: PolicyId, row: PolicyRow)
    requires UniqueRoutes(policies)
    requires if p in policies then policies[p].route == row.route else !HasPolicy(policies, row.route)
    ensures UniqueRoutes(policies[p := row])
  {
  }

  lemma ReconciledRefsChecked(refs: map<RefId, RefRow>, after: map<RefId, RefRow>, policy: PolicyId,
                              want: map<string, PermissionInput>,
                              policies: map<PolicyId, PolicyRow>, policies2: map<PolicyId, PolicyRow>)
    requires RefsChecked(refs, policies) && Reconciled(refs, after, policy, want)
    requires policies.Keys + {policy} <= policies2.Keys
    requires forall k :: k in want ==> ParseScope(want[k].scope).Some?
    ensures RefsChecked(after, policies2)
  {
    forall id | id in after ensures after[id].policy in policies2 && ParseScope(after[id].scope).Some? {
      if id in refs {
        assert after[id] == Updated(refs[id], policy, want, true);
        assert refs[id].policy in policies.Keys;
      }
    }
  }
}
