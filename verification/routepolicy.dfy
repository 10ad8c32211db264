/** The route-policy repository and service: Set reconciles references, Load rebuilds definitions. */
module RoutePolicy {
  import opened Schema
  import opened Text
  import opened RouteTables

  datatype SetResult = Stored | RouteMissing | StaleVersion | ConstraintViolated

  datatype Definition = Definition(id: PolicyId, route: string, expression: string,
                                   permissions: map<string, LoadedPermission>, version: nat)

  datatype PolicyRecord = PolicyRecord(id: PolicyId, row: PolicyRow)

  datatype RefRecord = RefRecord(id: RefId, row: RefRow)

  predicate AllScopesValid(inputs: seq<PermissionInput>) {
    forall i :: 0 <= i < |inputs| ==> ParseScope(inputs[i].scope).Some?
  }

  lemma ScopesOneMore(inputs: seq<PermissionInput>, i: nat)
    requires i < |inputs| && AllScopesValid(inputs[..i]) && ParseScope(inputs[i].scope).Some?
    ensures AllScopesValid(inputs[..i + 1])
  {
    assert inputs[..i + 1] == inputs[..i] + [inputs[i]];
  }

  /** Random identifiers that no row uses yet, one for each insert that may be needed. */
  ghost predicate FreshIds(t: Tables, newPolicy: PolicyId, newRefs: seq<RefId>, count: nat) {
    && newPolicy !in t.policies
    && |newRefs| == count && Distinct(newRefs) && (forall i :: 0 <= i < |newRefs| ==> newRefs[i] !in t.refs)
  }

  class Repository {
    var routes: set<string>
    var policies: map<PolicyId, PolicyRow>
    var refs: map<RefId, RefRow>

    constructor (routes: set<string>)
      ensures this.routes == routes && policies == map[] && refs == map[] && ValidTables(State())
    {
      this.routes, this.policies, this.refs := routes, map[], map[];
    }

    function State(): Tables
      reads this
    {
      Tables(routes, policies, refs)
    }

    /** The first loop of Set: the rows of a policy, live and deleted, by key. */
    method IndexByKey(policy: PolicyId) returns (byKey: map<string, RefId>)
      requires UniqueRefs(refs)
      ensures forall k :: k in byKey ==> IsRow(refs, policy, k, byKey[k])
      ensures forall k :: HasRow(refs, policy, k) ==> k in byKey
    {
      byKey := map[];
      var pending := RowsOf(refs, policy);
      while pending != {}
        invariant pending <= RowsOf(refs, policy)
        invariant forall k :: k in byKey ==> IsRow(refs, policy, k, byKey[k])
        invariant forall id :: id in RowsOf(refs, policy) - pending ==> refs[id].key in byKey
        decreases pending
      {
        var id :| id in pending;
        byKey := byKey[refs[id].key := id];
        pending := pending - {id};
      }
      forall k | HasRow(refs, policy, k) ensures k in byKey {
        var id :| IsRow(refs, policy, k, id);
        assert id in RowsOf(refs, policy);
      }
    }

    /** The body of the second loop of Set: revive the key's old row, or insert a new one. The
        database refuses a scope outside its check constraint and a second live row for a key. */
    method UpsertOne(policy: PolicyId, byKey: map<string, RefId>, ref: PermissionInput, newId: RefId,
                     ghost before: map<RefId, RefRow>, ghost want: map<string, PermissionInput>) returns (ok: bool)
      requires Merged(before, refs, policy, want, false) && KeyedByKey(want) && newId !in refs
      requires forall k :: k in byKey ==> IsRow(before, policy, k, byKey[k])
      requires forall k :: HasRow(before, policy, k) ==> k in byKey
      modifies this`refs
      ensures ok <==> ParseScope(ref.scope).Some? && (ref.key in byKey || ref.key !in want)
      ensures ok ==> Merged(before, refs, policy, want[ref.key := ref], false)
      ensures refs.Keys <= old(refs).Keys + {newId}
    {
      if ParseScope(ref.scope) == None { return false; }
      if ref.key in byKey {
        var id := byKey[ref.key];
        ReviveStep(before, refs, policy, want, ref, id);
        refs := refs[id := refs[id].(resource := ref.resource, action := ref.action, scope := ref.scope,
                                     deleted := false)];
      } else {
        NoRowYet(before, refs, policy, want, ref.key);
        if LiveRowExists(refs, policy, ref.key) { return false; }
        InsertStep(before, refs, policy, want, ref, newId);
        refs := refs[newId := RefRow(policy, ref.key, ref.resource, ref.action, ref.scope, false)];
      }
      ok := true;
    }

    /** The second loop of Set. It stops at the first reference the database refuses. */
    method UpsertAll(policy: PolicyId, byKey: map<string, RefId>, inputs: seq<PermissionInput>,
                     newRefs: seq<RefId>) returns (ok: bool)
      requires UniqueRefs(refs)
      requires |newRefs| == |inputs| && Distinct(newRefs) && forall i :: 0 <= i < |newRefs| ==> newRefs[i] !in refs
      requires forall k :: k in byKey ==> IsRow(refs, policy, k, byKey[k])
      requires forall k :: HasRow(refs, policy, k) ==> k in byKey
      modifies this`refs
      ensures ok ==> Merged(old(refs), refs, policy, Wanted(inputs), false) && AllScopesValid(inputs)
      ensures DistinctKeys(inputs) && AllScopesValid(inputs) ==> ok
    {
      ghost var want: map<string, PermissionInput> := map[];
      for i := 0 to |inputs|
        invariant want == Wanted(inputs[..i]) && KeyedByKey(want)
        invariant Merged(old(refs), refs, policy, want, false)
        invariant forall j :: i <= j < |newRefs| ==> newRefs[j] !in refs
        invariant AllScopesValid(inputs[..i])
      {
        WantedNext(inputs, i);
        ok := UpsertOne(policy, byKey, inputs[i], newRefs[i], old(refs), want);
        if !ok {
          RepeatedKey(inputs, i);
          return false;
        }
        ScopesOneMore(inputs, i);
        want := want[inputs[i].key := inputs[i]];
      }
      assert inputs[..|inputs|] == inputs;
      ok := true;
    }

    /** The third loop of Set: rows whose key is not wanted are marked deleted. */
    method RetireOthers(ids: set<RefId>, keys: set<string>)
      requires ids <= refs.Keys
      modifies this`refs
      ensures refs == Retired(old(refs), ids, keys)
    {
      var pending := ids;
      while pending != {}
        invariant pending <= ids
        invariant refs == Retired(old(refs), ids - pending, keys)
        decreases pending
      {
        var id :| id in pending;
        if refs[id].key !in keys && !refs[id].deleted {
          refs := refs[id := refs[id].(deleted := true)];
        }
        pending := pending - {id};
      }
      assert ids - pending == ids;
    }

    /** The policy of a route, if it has one. */
    method FindPolicy(route: string) returns (found: Option<PolicyId>)
      requires UniqueRoutes(policies)
      ensures found.Some? ==> found.value in policies && policies[found.value].route == route
      ensures found.Some? ==> CurrentVersion(policies, route) == policies[found.value].version
      ensures found == None ==> !HasPolicy(policies, route)
    {
      var pending := policies.Keys;
      while pending != {}
        invariant pending <= policies.Keys
        invariant forall p :: p in policies && p !in pending ==> policies[p].route != route
        decreases pending
      {
        var p :| p in pending;
        if policies[p].route == route {
          assert HasPolicy(policies, route);
          return Some(p);
        }
        pending := pending - {p};
      }
      found := None;
    }

    /** Set: one transaction that upserts the policy and reconciles its references. */
    method Set(input: SetInput, newPolicy: PolicyId, newRefs: seq<RefId>) returns (result: SetResult)
      requires ValidTables(State()) && FreshIds(State(), newPolicy, newRefs, |input.permissions|)
      modifies this
      ensures ValidTables(State())
      ensures result == RouteMissing <==> input.route !in old(routes)
      ensures result == StaleVersion <==>
                input.route in old(routes) && CurrentVersion(old(policies), input.route) != input.expectedVersion
      ensures result == Stored ==> ValidStatus(input.status) && AllScopesValid(input.permissions)
      ensures DistinctKeys(input.permissions) && ValidStatus(input.status) && AllScopesValid(input.permissions) ==>
                result != ConstraintViolated
      ensures result == Stored ==> exists p :: SetDone(old(State()), State(), p, input)
      ensures result != Stored ==> State() == old(State())
    {
      if input.route !in routes { return RouteMissing; }
      ghost var before := State();
      var savedPolicies, savedRefs := policies, refs;
      var found := FindPolicy(input.route);
      var p := if found.Some? then found.value else newPolicy;
      var current := if found.Some? then policies[p].version else 0;
      if current != input.expectedVersion { return StaleVersion; }
      if !ValidStatus(input.status) { return ConstraintViolated; }
      policies := policies[p := PolicyRow(input.route, input.expression, input.description, input.status, current + 1)];
      var byKey := IndexByKey(p);
      var ok := UpsertAll(p, byKey, input.permissions, newRefs);
      if !ok {
        policies, refs := savedPolicies, savedRefs;
        return ConstraintViolated;
      }
      RetiringReconciles(savedRefs, refs, p, Wanted(input.permissions));
      RetireOthers(RowsOf(savedRefs, p), Wanted(input.permissions).Keys);
      assert SetDone(before, State(), p, input);
      SetKeepsValid(before, State(), p, input);
      result := Stored;
    }

    /** Load; `policyOrder` and `refOrder` are the rows the two queries return. */
    method Load(policyOrder: seq<PolicyId>, refOrder: seq<RefId>) returns (result: Option<seq<Definition>>)
      requires ValidTables(State())
      requires Distinct(policyOrder) && Elements(policyOrder) == ActivePolicies(policies)
      requires Elements(refOrder) == ActiveRefs(policies, refs)
      ensures result.Some? && |result.value| == |policyOrder|
      ensures forall i :: 0 <= i < |policyOrder| ==>
                policyOrder[i] in policies && IsDefinition(State(), policyOrder[i], result.value[i])
      ensures forall i :: 0 <= i < |policyOrder| ==>
                policyOrder[i] in policies && HasColumns(State(), policyOrder[i], result.value[i])
    {
      assert forall i :: 0 <= i < |policyOrder| ==> policyOrder[i] in Elements(policyOrder);
      assert forall i :: 0 <= i < |refOrder| ==> refOrder[i] in Elements(refOrder);
      var ps := seq(|policyOrder|, i requires 0 <= i < |policyOrder| && policyOrder[i] in policies reads this =>
        PolicyRecord(policyOrder[i], policies[policyOrder[i]]));
      var rs := seq(|refOrder|, i requires 0 <= i < |refOrder| && refOrder[i] in refs reads this =>
        RefRecord(refOrder[i], refs[refOrder[i]]));
      result := Assemble(ps, rs);
      forall i | 0 <= i < |policyOrder|
        ensures result.Some? && IsDefinition(State(), policyOrder[i], result.value[i])
        ensures HasColumns(State(), policyOrder[i], result.value[i])
      {
        RecordsAreRows(policies, refs, rs, refOrder, policyOrder[i]);
        CollectedIsMap(refs, rs, policyOrder[i]);
        DefinitionHasColumns(State(), policyOrder[i], result.value[i]);
      }
    }
  }

  /** The unique index on live rows. */
  predicate LiveRowExists(refs: map<RefId, RefRow>, policy: PolicyId, key: string) {
    exists id | id in refs :: refs[id].policy == policy && refs[id].key == key && !refs[id].deleted
  }

  lemma WantedNext(inputs: seq<PermissionInput>, i: nat)
    requires i < |inputs|
    ensures Wanted(inputs[..i + 1]) == Wanted(inputs[..i])[inputs[i].key := inputs[i]]
    ensures KeyedByKey(Wanted(inputs[..i]))
  {
    assert inputs[..i + 1][..i] == inputs[..i];
  }

  /** A key without an old row has a row, a live one, exactly if it was wanted before. */
  lemma NoRowYet(refs: map<RefId, RefRow>, now: map<RefId, RefRow>, policy: PolicyId,
                 want: map<string, PermissionInput>, key: string)
    requires Merged(refs, now, policy, want, false) && KeyedByKey(want) && !HasRow(refs, policy, key)
    ensures HasRow(now, policy, key) <==> key in want
    ensures LiveRowExists(now, policy, key) <==> key in want
  {
    OldRowsKeepKeys(refs, now, policy, want, false);
    forall id | IsRow(now, policy, key, id) ensures key in want && !now[id].deleted {
      assert id in refs ==> IsRow(refs, policy, key, id);
    }
    if HasRow(now, policy, key) {
      var id :| IsRow(now, policy, key, id);
      assert !now[id].deleted;
    }
    if LiveRowExists(now, policy, key) {
      var id :| id in now && now[id].policy == policy && now[id].key == key && !now[id].deleted;
      assert IsRow(now, policy, key, id);
    }
  }

  lemma RepeatedKey(inputs: seq<PermissionInput>, i: nat)
    requires i < |inputs|
    ensures inputs[i].key in Wanted(inputs[..i]) ==> !DistinctKeys(inputs)
  {
    if inputs[i].key in Wanted(inputs[..i]) {
      var j :| 0 <= j < i && inputs[..i][j] == Wanted(inputs[..i])[inputs[i].key];
      assert inputs[j].key == inputs[i].key;
    }
  }

  // ----- Load -----

  ghost function ActivePolicies(policies: map<PolicyId, PolicyRow>): set<PolicyId> {
    set p | p in policies && policies[p].status == "active"
  }

  ghost function ActiveRefs(policies: map<PolicyId, PolicyRow>, refs: map<RefId, RefRow>): set<RefId> {
    set id | id in refs && !refs[id].deleted && refs[id].policy in ActivePolicies(policies)
  }

  /** The definition of a policy with one permission per live reference. */
  ghost predicate IsDefinition(t: Tables, p: PolicyId, d: Definition)
    requires p in t.policies
  {
    && d.id == p && d.route == t.policies[p].route && d.expression == t.policies[p].expression
      && d.version == t.policies[p].version
    && IsPermissionMap(t.refs, p, d.permissions)
  }

  /** A loaded permission has the columns of its row, and the scope its row names. */
  predicate FromRow(l: LoadedPermission, id: RefId, row: RefRow) {
    && l.id == id && l.key == row.key && l.resource == row.resource && l.action == row.action
    && (l.scope == ForTenant <==> row.scope == "tenant") && (l.scope == ForPlatform <==> row.scope == "platform")
    && (l.scope == ForPrincipal <==> row.scope == "principal")
  }

  /** The definition of a policy, column by column: one permission per row that is not deleted. */
  ghost predicate HasColumns(t: Tables, p: PolicyId, d: Definition)
    requires p in t.policies
  {
    && d.id == p && d.route == t.policies[p].route && d.expression == t.policies[p].expression
    && d.version == t.policies[p].version
    && (forall id :: id in t.refs && t.refs[id].policy == p && !t.refs[id].deleted ==>
          t.refs[id].key in d.permissions && FromRow(d.permissions[t.refs[id].key], id, t.refs[id]))
    && (forall k :: k in d.permissions ==>
          exists id :: id in t.refs && t.refs[id].policy == p && !t.refs[id].deleted && t.refs[id].key == k)
  }

  lemma DefinitionHasColumns(t: Tables, p: PolicyId, d: Definition)
    requires p in t.policies && IsDefinition(t, p, d)
    ensures HasColumns(t, p, d)
  {
    forall id | id in t.refs && t.refs[id].policy == p && !t.refs[id].deleted
      ensures t.refs[id].key in d.permissions && FromRow(d.permissions[t.refs[id].key], id, t.refs[id])
    {
      assert IsLive(t.refs[id], p);
    }
    forall k | k in d.permissions
      ensures exists id :: id in t.refs && t.refs[id].policy == p && !t.refs[id].deleted && t.refs[id].key == k
    {
      assert k in LiveKeys(t.refs, p);
    }
  }

  /** The permissions of policy `p` among the rows read so far; the last row of a key counts. */
  ghost function Collected(rows: seq<RefRecord>, p: PolicyId): map<string, LoadedPermission> {
    if rows == [] then map[]
    else
      var last, before := rows[|rows| - 1], Collected(rows[..|rows| - 1], p);
      if last.row.policy == p && ParseScope(last.row.scope).Some? then
        before[last.row.key := PermissionOf(last.id, last.row)]
      else before
  }

  /** The loops of Load: definitions indexed by id, then filled from the references. A
      reference to a policy that was not read is skipped. */
  method Assemble(policies: seq<PolicyRecord>, rows: seq<RefRecord>) returns (result: Option<seq<Definition>>)
    requires forall i, j :: 0 <= i < j < |policies| ==> policies[i].id != policies[j].id
    ensures result == None <==> exists j :: 0 <= j < |rows| && ParseScope(rows[j].row.scope) == None
                                            && exists i :: 0 <= i < |policies| && policies[i].id == rows[j].row.policy
    ensures result.Some? ==> |result.value| == |policies| && forall i :: 0 <= i < |policies| ==>
              result.value[i] == Definition(policies[i].id, policies[i].row.route, policies[i].row.expression,
                                            Collected(rows, policies[i].id), policies[i].row.version)
  {
    var definitions: seq<Definition> := [];
    var byId: map<PolicyId, nat> := map[];
    for i := 0 to |policies|
      invariant |definitions| == i
      invariant forall k :: 0 <= k < i ==>
                  definitions[k] == Definition(policies[k].id, policies[k].row.route, policies[k].row.expression, map[],
                                               policies[k].row.version)
      invariant forall k :: 0 <= k < i ==> policies[k].id in byId && byId[policies[k].id] == k
      invariant forall p :: p in byId ==> byId[p] < i && policies[byId[p]].id == p
    {
      definitions := definitions + [Definition(policies[i].id, policies[i].row.route, policies[i].row.expression, map[],
                                               policies[i].row.version)];
      byId := byId[policies[i].id := i];
    }
    for j := 0 to |rows|
      invariant |definitions| == |policies|
      invariant forall k :: 0 <= k < |policies| ==> definitions[k] == Definition(policies[k].id, policies[k].row.route,
                  policies[k].row.expression, Collected(rows[..j], policies[k].id), policies[k].row.version)
      invariant forall m :: 0 <= m < j && ParseScope(rows[m].row.scope) == None ==> rows[m].row.policy !in byId
    {
      var record := rows[j];
      assert rows[..j + 1][..j] == rows[..j];
      if record.row.policy in byId {
        var k := byId[record.row.policy];
        if ParseScope(record.row.scope) == None { return None; }
        var permissions := definitions[k].permissions[record.row.key := PermissionOf(record.id, record.row)];
        definitions := definitions[k := definitions[k].(permissions := permissions)];
      }
    }
    assert rows[..|rows|] == rows;
    result := Some(definitions);
  }

  ghost predicate ListsRows(refs: map<RefId, RefRow>, rows: seq<RefRecord>, p: PolicyId) {
    && (forall j :: 0 <= j < |rows| && rows[j].row.policy == p ==>
          rows[j].id in refs && refs[rows[j].id] == rows[j].row && IsLive(rows[j].row, p))
    && (forall id :: id in refs && IsLive(refs[id], p) ==> RefRecord(id, refs[id]) in rows)
  }

  lemma RecordsAreRows(policies: map<PolicyId, PolicyRow>, refs: map<RefId, RefRow>, rows: seq<RefRecord>,
                       order: seq<RefId>, p: PolicyId)
    requires Elements(order) == ActiveRefs(policies, refs) && p in ActivePolicies(policies) && |rows| == |order|
    requires forall j :: 0 <= j < |order| ==> order[j] in refs && rows[j] == RefRecord(order[j], refs[order[j]])
    ensures ListsRows(refs, rows, p)
  {
    assert forall j :: 0 <= j < |order| ==> order[j] in Elements(order);
    forall id | id in refs && IsLive(refs[id], p) ensures RefRecord(id, refs[id]) in rows {
      assert id in Elements(order);
      var j :| 0 <= j < |order| && order[j] == id;
      assert rows[j] == RefRecord(id, refs[id]);
    }
  }

  /** What the fold over the rows collects under each key. */
  lemma {:induction false} CollectedRows(refs: map<RefId, RefRow>, rows: seq<RefRecord>, p: PolicyId, n: nat)
    requires UniqueRefs(refs) && n <= |rows|
    requires forall j :: 0 <= j < |rows| && rows[j].row.policy == p ==>
               rows[j].id in refs && refs[rows[j].id] == rows[j].row && ParseScope(rows[j].row.scope).Some?
    ensures forall k :: k in Collected(rows[..n], p) ==>
              exists j :: 0 <= j < n && rows[j].row.policy == p && rows[j].row.key == k
    ensures forall j :: 0 <= j < n && rows[j].row.policy == p ==>
              rows[j].row.key in Collected(rows[..n], p)
                && Collected(rows[..n], p)[rows[j].row.key] == PermissionOf(rows[j].id, rows[j].row)
  {
    if n > 0 {
      CollectedRows(refs, rows, p, n - 1);
      assert rows[..n][..n - 1] == rows[..n - 1];
      var last := rows[n - 1];
      forall j | 0 <= j < n - 1 && rows[j].row.policy == p && last.row.policy == p && rows[j].row.key == last.row.key
        ensures rows[j].id == last.id && rows[j].row == last.row
      {
        assert SameKey(refs[rows[j].id], refs[last.id]);
      }
    }
  }

  lemma CollectedIsMap(refs: map<RefId, RefRow>, rows: seq<RefRecord>, p: PolicyId)
    requires UniqueRefs(refs) && ListsRows(refs, rows, p)
    requires forall id :: id in refs ==> ParseScope(refs[id].scope).Some?
    ensures IsPermissionMap(refs, p, Collected(rows, p))
  {
    CollectedRows(refs, rows, p, |rows|);
    assert rows[..|rows|] == rows;
    var loaded := Collected(rows, p);
    forall id | id in refs && IsLive(refs[id], p)
      ensures refs[id].key in loaded && loaded[refs[id].key] == PermissionOf(id, refs[id])
    {
      var j :| 0 <= j < |rows| && rows[j] == RefRecord(id, refs[id]);
    }
    forall k | k in loaded ensures k in LiveKeys(refs, p) {
      var j :| 0 <= j < |rows| && rows[j].row.policy == p && rows[j].row.key == k;
      assert IsLive(refs[rows[j].id], p);
    }
  }

  /** Which policies Load returns after a Set. */
  lemma ActiveAfterSet(t: Tables, t2: Tables, p: PolicyId, input: SetInput)
    requires SetDone(t, t2, p, input)
    ensures ActivePolicies(t2.policies) ==
            if input.status == "active" then ActivePolicies(t.policies) + {p} else ActivePolicies(t.policies) - {p}
  {
  }

  /** Round trip: the definition Load returns for the policy just set carries exactly the
      input, under the next version, and references that ever had a row keep their ids. */
  lemma SetLoadRoundTrip(t: Tables, t2: Tables, p: PolicyId, input: SetInput, d: Definition)
    requires SetDone(t, t2, p, input) && DistinctKeys(input.permissions) && p in t2.policies && IsDefinition(t2, p, d)
    ensures d.route == input.route && d.expression == input.expression && d.version == input.expectedVersion + 1
    ensures forall k :: k in d.permissions <==>
              exists i :: 0 <= i < |input.permissions| && input.permissions[i].key == k
    ensures forall i :: 0 <= i < |input.permissions| ==>
              input.permissions[i].key in d.permissions
                && Carries(d.permissions[input.permissions[i].key], input.permissions[i])
    ensures forall key, id :: IsRow(t.refs, p, key, id) && key in d.permissions ==> d.permissions[key].id == id
  {
    LoadedKeysAreInput(t, t2, p, input, d.permissions);
    forall i | 0 <= i < |input.permissions|
      ensures input.permissions[i].key in d.permissions
              && Carries(d.permissions[input.permissions[i].key], input.permissions[i])
    {
      LoadedIsInput(t, t2, p, input, d.permissions, i);
    }
    forall key, id | IsRow(t.refs, p, key, id) && key in d.permissions ensures d.permissions[key].id == id {
      IdsSurvive(t, t2, p, input, d.permissions, key, id);
    }
  }

  /** Every other active policy is loaded as before. */
  lemma OtherDefinitionsUnchanged(t: Tables, t2: Tables, p: PolicyId, input: SetInput, q: PolicyId, d: Definition)
    requires SetDone(t, t2, p, input) && q != p && q in t.policies
    ensures q in t2.policies && (q in ActivePolicies(t.policies) <==> q in ActivePolicies(t2.policies))
    ensures IsDefinition(t, q, d) <==> IsDefinition(t2, q, d)
  {
    OthersUnchanged(t, t2, p, input, q, d.permissions);
  }

  // ----- Service.Set -----

  datatype PolicyPermission = PolicyPermission(key: string, resource: string, action: string, scope: Scope)

  datatype CompileInput = CompileInput(route: string, expression: string, permissions: map<string, PolicyPermission>)

  datatype ServiceResult = Unauthenticated | Invalid | Submitted(result: SetResult)

  function TrimRef(ref: PermissionInput): PermissionInput {
    PermissionInput(Trim(ref.key), Trim(ref.resource), Trim(ref.action), Trim(ref.scope))
  }

  function TrimAll(inputs: seq<PermissionInput>): (r: seq<PermissionInput>)
    ensures |r| == |inputs| && forall i :: 0 <= i < |inputs| ==> r[i] == TrimRef(inputs[i])
  {
    seq(|inputs|, i requires 0 <= i < |inputs| => TrimRef(inputs[i]))
  }

  predicate RefOk(ref: PermissionInput) {
    ParseScope(ref.scope).Some? && ref.key != "" && ref.resource != "" && ref.action != ""
  }

  ghost predicate RefsOk(inputs: seq<PermissionInput>) {
    DistinctKeys(TrimAll(inputs)) && forall i :: 0 <= i < |inputs| ==> RefOk(TrimAll(inputs)[i])
  }

  function ContentOf(ref: PermissionInput): PolicyPermission
    requires RefOk(ref)
  {
    PolicyPermission(ref.key, ref.resource, ref.action, ParseScope(ref.scope).value)
  }

  ghost predicate KeyAmong(refs: seq<PermissionInput>, n: nat, key: string)
    requires n <= |refs|
  {
    exists i :: 0 <= i < n && refs[i].key == key
  }

  /** `permissions` holds the first `n` references and nothing else. */
  ghost predicate Holds(refs: seq<PermissionInput>, n: nat, permissions: map<string, PolicyPermission>)
    requires n <= |refs|
  {
    && (forall i :: 0 <= i < n ==>
          RefOk(refs[i]) && refs[i].key in permissions && permissions[refs[i].key] == ContentOf(refs[i]))
    && (forall k :: k in permissions ==> KeyAmong(refs, n, k))
  }

  /** The map the service validates and compiles: every reference trimmed. */
  ghost predicate IsValidated(inputs: seq<PermissionInput>, permissions: map<string, PolicyPermission>) {
    Holds(TrimAll(inputs), |inputs|, permissions)
  }

  /** The validation loop. */
  method Validate(inputs: seq<PermissionInput>) returns (permissions: Option<map<string, PolicyPermission>>)
    ensures permissions.Some? <==> RefsOk(inputs)
    ensures permissions.Some? ==> IsValidated(inputs, permissions.value)
  {
    var validated: map<string, PolicyPermission> := map[];
    ghost var trimmed := TrimAll(inputs);
    for i := 0 to |inputs|
      invariant Holds(trimmed, i, validated)
      invariant DistinctKeys(trimmed[..i])
    {
      var ref := TrimRef(inputs[i]);
      assert ref == trimmed[i];
      if !RefOk(ref) { return None; }
      if ref.key in validated {
        assert KeyAmong(trimmed, i, ref.key);
        return None;
      }
      HoldsOneMore(trimmed, i, validated);
      KeysOneMore(trimmed, i);
      validated := validated[ref.key := ContentOf(ref)];
    }
    assert trimmed[..|inputs|] == trimmed;
    permissions := Some(validated);
  }

  lemma KeysOneMore(refs: seq<PermissionInput>, i: nat)
    requires i < |refs| && DistinctKeys(refs[..i]) && forall j :: 0 <= j < i ==> refs[j].key != refs[i].key
    ensures DistinctKeys(refs[..i + 1])
  {
    assert refs[..i + 1] == refs[..i] + [refs[i]];
  }

  lemma HoldsOneMore(refs: seq<PermissionInput>, i: nat, validated: map<string, PolicyPermission>)
    requires i < |refs| && RefOk(refs[i]) && Holds(refs, i, validated) && refs[i].key !in validated
    ensures Holds(refs, i + 1, validated[refs[i].key := ContentOf(refs[i])])
    ensures forall j :: 0 <= j < i ==> refs[j].key != refs[i].key
  {
    var more := validated[refs[i].key := ContentOf(refs[i])];
    forall k | k in more ensures KeyAmong(refs, i + 1, k) {
      if k != refs[i].key {
        assert KeyAmong(refs, i, k);
      }
    }
  }

  /** The input the repository receives: the references themselves are not trimmed. */
  function Submission(input: SetInput): SetInput {
    input.(route := Trim(input.route), expression := Trim(input.expression),
           description := Trim(input.description), status := Trim(input.status))
  }

  predicate HeaderOk(input: SetInput) {
    input.route != "" && input.expression != "" && ValidStatus(input.status) && input.expectedVersion >= 0
  }

  /** The input passes validation and the validated policy compiles. */
  ghost predicate Accepted(input: SetInput, compiles: CompileInput -> bool) {
    && HeaderOk(Submission(input)) && RefsOk(input.permissions)
    && exists m :: IsValidated(input.permissions, m)
         && compiles(CompileInput(Trim(input.route), Trim(input.expression), m))
  }

  /** There is one validated map. */
  lemma ValidatedIsUnique(inputs: seq<PermissionInput>, m: map<string, PolicyPermission>)
    requires IsValidated(inputs, m)
    ensures forall other :: IsValidated(inputs, other) ==> other == m
  {
    forall other | IsValidated(inputs, other) ensures other == m {
      HoldsUnique(TrimAll(inputs), |inputs|, m, other);
    }
  }

  lemma HoldsUnique(refs: seq<PermissionInput>, n: nat, a: map<string, PolicyPermission>,
                    b: map<string, PolicyPermission>)
    requires n <= |refs| && Holds(refs, n, a) && Holds(refs, n, b)
    ensures a == b
  {
    forall k | k in a ensures k in b && a[k] == b[k] {
      assert KeyAmong(refs, n, k);
    }
    forall k | k in b ensures k in a {
      assert KeyAmong(refs, n, k);
    }
    assert a.Keys == b.Keys;
  }

  /** Service.Set up to the repository call; `compiles` is the expression compiler. */
  method SetPolicy(repository: Repository, actor: string, input: SetInput, compiles: CompileInput -> bool,
                   newPolicy: PolicyId, newRefs: seq<RefId>) returns (result: ServiceResult)
    requires ValidTables(repository.State()) && FreshIds(repository.State(), newPolicy, newRefs, |input.permissions|)
    modifies repository
    ensures ValidTables(repository.State())
    ensures result == Unauthenticated <==> Trim(actor) == ""
    ensures result.Submitted? <==> Trim(actor) != "" && Accepted(input, compiles)
    ensures result == Submitted(Stored) ==>
              exists p :: SetDone(old(repository.State()), repository.State(), p, Submission(input))
    ensures result == Submitted(Stored) ==>
              exists p :: PolicyStored(old(repository.State()), repository.State(), p, input)
    ensures result == Submitted(RouteMissing) <==>
              Trim(actor) != "" && Accepted(input, compiles) && Trim(input.route) !in old(repository.routes)
    ensures result == Submitted(StaleVersion) <==>
              && Trim(actor) != "" && Accepted(input, compiles) && Trim(input.route) in old(repository.routes)
              && !VersionMatches(old(repository.policies), Trim(input.route), input.expectedVersion)
    ensures result != Submitted(Stored) ==> repository.State() == old(repository.State())
    ensures result == Submitted(ConstraintViolated) ==> !AllScopesValid(input.permissions)
  {
    if Trim(actor) == "" { return Unauthenticated; }
    var submission := Submission(input);
    if !HeaderOk(submission) { return Invalid; }
    var permissions := Validate(submission.permissions);
    if permissions == None { return Invalid; }
    ValidatedIsUnique(input.permissions, permissions.value);
    if !compiles(CompileInput(submission.route, submission.expression, permissions.value)) { return Invalid; }
    RawKeysDistinct(input.permissions);
    VersionIsExpected(repository.policies, submission.route, submission.expectedVersion);
    ghost var before := repository.State();
    var outcome := repository.Set(submission, newPolicy, newRefs);
    result := Submitted(outcome);
    if outcome == Stored {
      ghost var p :| SetDone(before, repository.State(), p, submission);
      StoredByColumns(before, repository.State(), p, input);
    }
  }

  /** The caller expects the version of the route's policy, or 0 while it has none. */
  ghost predicate VersionMatches(policies: map<PolicyId, PolicyRow>, route: string, expected: int) {
    || (exists p :: p in policies && policies[p].route == route && policies[p].version == expected)
    || (expected == 0 && forall p :: p in policies ==> policies[p].route != route)
  }

  lemma VersionIsExpected(policies: map<PolicyId, PolicyRow>, route: string, expected: int)
    requires UniqueRoutes(policies)
    ensures CurrentVersion(policies, route) == expected <==> VersionMatches(policies, route, expected)
  {
    if HasPolicy(policies, route) {
      var p :| p in policies && policies[p].route == route;
      assert forall q :: q in policies && policies[q].route == route ==> q == p;
    }
  }

  /** What a stored submission leaves, column by column: the policy with the trimmed fields at the
      next version, exactly the submitted references not deleted, all other policies as before. */
  ghost predicate PolicyStored(t: Tables, t2: Tables, p: PolicyId, input: SetInput) {
    && t2.routes == t.routes && input.expectedVersion >= 0
    && t2.policies == t.policies[p := PolicyRow(Trim(input.route), Trim(input.expression), Trim(input.description),
                                                Trim(input.status), input.expectedVersion + 1)]
    && (forall x :: x in input.permissions ==>
          exists id :: id in t2.refs && t2.refs[id] == RefRow(p, x.key, x.resource, x.action, x.scope, false))
    && (forall id :: id in t2.refs && t2.refs[id].policy == p && !t2.refs[id].deleted ==>
          PermissionInput(t2.refs[id].key, t2.refs[id].resource, t2.refs[id].action,
                          t2.refs[id].scope) in input.permissions)
    && (forall id :: id in t.refs && t.refs[id].policy != p ==> id in t2.refs && t2.refs[id] == t.refs[id])
    && (forall id :: id in t2.refs && t2.refs[id].policy != p ==> id in t.refs && t.refs[id] == t2.refs[id])
  }

  lemma StoredByColumns(t: Tables, t2: Tables, p: PolicyId, input: SetInput)
    requires SetDone(t, t2, p, Submission(input)) && DistinctKeys(input.permissions)
    ensures PolicyStored(t, t2, p, input)
  {
    var submission := Submission(input);
    LiveIsInput(t, t2, p, submission);
    assert Live(t2.refs, p) == Elements(input.permissions);
    forall x | x in input.permissions
      ensures exists id :: id in t2.refs && t2.refs[id] == RefRow(p, x.key, x.resource, x.action, x.scope, false)
    {
      assert x in Live(t2.refs, p);
    }
    forall id | id in t2.refs && t2.refs[id].policy == p && !t2.refs[id].deleted
      ensures PermissionInput(t2.refs[id].key, t2.refs[id].resource, t2.refs[id].action,
                              t2.refs[id].scope) in input.permissions
    {
      assert IsLive(t2.refs[id], p);
      assert PermissionInput(t2.refs[id].key, t2.refs[id].resource, t2.refs[id].action,
                             t2.refs[id].scope) in Live(t2.refs, p);
    }
    OthersByColumns(t, t2, p, submission);
  }

  lemma OthersByColumns(t: Tables, t2: Tables, p: PolicyId, submission: SetInput)
    requires SetDone(t, t2, p, submission)
    ensures forall id :: id in t.refs && t.refs[id].policy != p ==> id in t2.refs && t2.refs[id] == t.refs[id]
    ensures forall id :: id in t2.refs && t2.refs[id].policy != p ==> id in t.refs && t.refs[id] == t2.refs[id]
  {
    assert forall id :: id in t.refs ==> t2.refs[id] == Updated(t.refs[id], p, Wanted(submission.permissions), true);
  }

  /** Whatever Load returns for the stored policy carries the trimmed expression, the next version
      and each submitted reference under its key, and nothing else. */
  lemma StoredIsLoaded(t: Tables, t2: Tables, p: PolicyId, input: SetInput, d: Definition)
    requires PolicyStored(t, t2, p, input) && HasColumns(t2, p, d)
    ensures d.route == Trim(input.route) && d.expression == Trim(input.expression)
    ensures d.version == input.expectedVersion + 1
    ensures forall x :: x in input.permissions ==>
              && x.key in d.permissions && d.permissions[x.key].key == x.key
              && d.permissions[x.key].resource == x.resource && d.permissions[x.key].action == x.action
              && (d.permissions[x.key].scope == ForTenant <==> x.scope == "tenant")
              && (d.permissions[x.key].scope == ForPlatform <==> x.scope == "platform")
              && (d.permissions[x.key].scope == ForPrincipal <==> x.scope == "principal")
    ensures forall k :: k in d.permissions ==> exists x :: x in input.permissions && x.key == k
  {
    forall k | k in d.permissions ensures exists x :: x in input.permissions && x.key == k {
      var id :| id in t2.refs && t2.refs[id].policy == p && !t2.refs[id].deleted && t2.refs[id].key == k;
      assert PermissionInput(k, t2.refs[id].resource, t2.refs[id].action, t2.refs[id].scope) in input.permissions;
    }
  }

  /** A reference is complete: three parts that are not blank and one of the three scopes. */
  predicate CompleteRef(x: PermissionInput) {
    && Trim(x.key) != "" && Trim(x.resource) != "" && Trim(x.action) != ""
    && Trim(x.scope) in {"tenant", "platform", "principal"}
  }

  /** The permission a reference is validated as. */
  predicate ValidatedAs(x: PermissionInput, v: PolicyPermission) {
    && v.key == Trim(x.key) && v.resource == Trim(x.resource) && v.action == Trim(x.action)
    && (v.scope == ForTenant <==> Trim(x.scope) == "tenant")
    && (v.scope == ForPlatform <==> Trim(x.scope) == "platform")
    && (v.scope == ForPrincipal <==> Trim(x.scope) == "principal")
  }

  /** `m` holds the trimmed references and nothing else. */
  ghost predicate TrimmedMap(inputs: seq<PermissionInput>, m: map<string, PolicyPermission>) {
    && (forall i :: 0 <= i < |inputs| ==> Trim(inputs[i].key) in m && ValidatedAs(inputs[i], m[Trim(inputs[i].key)]))
    && (forall k :: k in m ==> exists i :: 0 <= i < |inputs| && Trim(inputs[i].key) == k)
  }

  lemma ValidatedByColumns(inputs: seq<PermissionInput>, m: map<string, PolicyPermission>)
    requires RefsOk(inputs)
    ensures IsValidated(inputs, m) <==> TrimmedMap(inputs, m)
  {
    var refs := TrimAll(inputs);
    forall i | 0 <= i < |inputs|
      ensures refs[i].key == Trim(inputs[i].key) && RefOk(refs[i])
      ensures forall v :: ValidatedAs(inputs[i], v) <==> v == ContentOf(refs[i])
    {
      assert refs[i] == TrimRef(inputs[i]);
    }
    forall k ensures KeyAmong(refs, |inputs|, k) <==> exists i :: 0 <= i < |inputs| && Trim(inputs[i].key) == k {
      if i :| 0 <= i < |inputs| && Trim(inputs[i].key) == k {
        assert refs[i].key == k;
      }
    }
  }

  /** Validation in plain terms: a route, an expression, one of the two statuses, no negative
      version, complete references under distinct trimmed keys, and a compiling policy. */
  lemma AcceptedExact(input: SetInput, compiles: CompileInput -> bool)
    ensures Accepted(input, compiles) <==>
            && Trim(input.route) != "" && Trim(input.expression) != "" && Trim(input.status) in {"active", "disabled"}
            && input.expectedVersion >= 0
            && (forall i :: 0 <= i < |input.permissions| ==> CompleteRef(input.permissions[i]))
            && (forall i, j :: 0 <= i < j < |input.permissions| ==>
                  Trim(input.permissions[i].key) != Trim(input.permissions[j].key))
            && exists m :: TrimmedMap(input.permissions, m)
                 && compiles(CompileInput(Trim(input.route), Trim(input.expression), m))
  {
    RefsOkByColumns(input.permissions);
    if RefsOk(input.permissions) {
      forall m ensures IsValidated(input.permissions, m) <==> TrimmedMap(input.permissions, m) {
        ValidatedByColumns(input.permissions, m);
      }
    }
  }

  lemma RefsOkByColumns(inputs: seq<PermissionInput>)
    ensures RefsOk(inputs) <==>
            && (forall i :: 0 <= i < |inputs| ==> CompleteRef(inputs[i]))
            && (forall i, j :: 0 <= i < j < |inputs| ==> Trim(inputs[i].key) != Trim(inputs[j].key))
  {
    forall i | 0 <= i < |inputs| ensures RefOk(TrimAll(inputs)[i]) <==> CompleteRef(inputs[i]) {
      assert TrimAll(inputs)[i] == TrimRef(inputs[i]);
    }
    forall i, j | 0 <= i < j < |inputs|
      ensures TrimAll(inputs)[i].key != TrimAll(inputs)[j].key <==> Trim(inputs[i].key) != Trim(inputs[j].key)
    {
      assert TrimAll(inputs)[i] == TrimRef(inputs[i]) && TrimAll(inputs)[j] == TrimRef(inputs[j]);
    }
  }

  lemma RawKeysDistinct(inputs: seq<PermissionInput>)
    requires RefsOk(inputs)
    ensures DistinctKeys(inputs)
  {
    forall i, j | 0 <= i < j < |inputs| ensures inputs[i].key != inputs[j].key {
      assert TrimAll(inputs)[i].key != TrimAll(inputs)[j].key;
    }
  }

  // ----- What was validated against what is loaded -----

  ghost predicate Agree(validated: map<string, PolicyPermission>, loaded: map<string, LoadedPermission>) {
    && validated.Keys == loaded.Keys
    && forall k :: k in validated ==>
         loaded[k].resource == validated[k].resource && loaded[k].action == validated[k].action
           && loaded[k].scope == validated[k].scope
  }

  predicate RefTrimmed(ref: PermissionInput) {
    Trimmed(ref.key) && Trimmed(ref.resource) && Trimmed(ref.action)
  }

  lemma ParsedScopesAreTrimmed(value: string)
    ensures ParseScope(value).Some? ==> Trim(value) == value
  {
    TrimLaws(value);
  }

  lemma LoadedRef(t: Tables, t2: Tables, p: PolicyId, input: SetInput, validated: map<string, PolicyPermission>,
                  loaded: map<string, LoadedPermission>, i: nat)
    requires SetDone(t, t2, p, input) && RefsOk(input.permissions) && IsValidated(input.permissions, validated)
    requires IsPermissionMap(t2.refs, p, loaded) && i < |input.permissions|
    ensures
      var ref := input.permissions[i];
      && ref.key in loaded && Trim(ref.key) in validated
      && loaded[ref.key].resource == ref.resource && validated[Trim(ref.key)].resource == Trim(ref.resource)
      && loaded[ref.key].action == ref.action && validated[Trim(ref.key)].action == Trim(ref.action)
      && loaded[ref.key].scope == validated[Trim(ref.key)].scope
  {
    RawKeysDistinct(input.permissions);
    LoadedIsInput(t, t2, p, input, loaded, i);
    ParsedScopesAreTrimmed(input.permissions[i].scope);
    assert TrimAll(input.permissions)[i] == TrimRef(input.permissions[i]);
  }

  /** The policy that was validated and compiled is the policy that Load returns exactly when
      every reference was submitted trimmed: validation trims copies, the write does not. */
  lemma ValidatedIsLoadedExactly(t: Tables, t2: Tables, p: PolicyId, input: SetInput,
                                 validated: map<string, PolicyPermission>, loaded: map<string, LoadedPermission>)
    requires SetDone(t, t2, p, input) && RefsOk(input.permissions) && IsValidated(input.permissions, validated)
    requires IsPermissionMap(t2.refs, p, loaded)
    ensures Agree(validated, loaded) <==> forall i :: 0 <= i < |input.permissions| ==> RefTrimmed(input.permissions[i])
  {
    var refs := input.permissions;
    forall i | 0 <= i < |refs| ensures RefTrimmed(refs[i]) <==>
      Trim(refs[i].key) == refs[i].key && Trim(refs[i].resource) == refs[i].resource
        && Trim(refs[i].action) == refs[i].action
    {
      TrimLaws(refs[i].key);
      TrimLaws(refs[i].resource);
      TrimLaws(refs[i].action);
    }
    if Agree(validated, loaded) {
      forall i | 0 <= i < |refs| ensures RefTrimmed(refs[i]) {
        AgreementTrims(t, t2, p, input, validated, loaded, i);
      }
    }
    if forall i :: 0 <= i < |refs| ==> RefTrimmed(refs[i]) {
      TrimmedAgree(t, t2, p, input, validated, loaded);
    }
  }

  lemma ValidatedKeysTrimmed(inputs: seq<PermissionInput>, validated: map<string, PolicyPermission>, key: string)
    requires IsValidated(inputs, validated) && key in validated
    ensures Trim(key) == key
  {
    assert KeyAmong(TrimAll(inputs), |inputs|, key);
    var j :| 0 <= j < |inputs| && TrimAll(inputs)[j].key == key;
    TrimLaws(inputs[j].key);
    TrimLaws(key);
  }

  lemma AgreementTrims(t: Tables, t2: Tables, p: PolicyId, input: SetInput,
                       validated: map<string, PolicyPermission>, loaded: map<string, LoadedPermission>, i: nat)
    requires SetDone(t, t2, p, input) && RefsOk(input.permissions) && IsValidated(input.permissions, validated)
    requires IsPermissionMap(t2.refs, p, loaded) && Agree(validated, loaded) && i < |input.permissions|
    ensures RefTrimmed(input.permissions[i])
  {
    var ref := input.permissions[i];
    LoadedRef(t, t2, p, input, validated, loaded, i);
    assert ref.key in validated by {
      assert ref.key in validated.Keys;
    }
    ValidatedKeysTrimmed(input.permissions, validated, ref.key);
    TrimLaws(ref.key);
    TrimLaws(ref.resource);
    TrimLaws(ref.action);
  }

  ghost predicate AgreeAt(validated: map<string, PolicyPermission>, loaded: map<string, LoadedPermission>, k: string) {
    && k in validated && k in loaded && loaded[k].resource == validated[k].resource
    && loaded[k].action == validated[k].action && loaded[k].scope == validated[k].scope
  }

  lemma TrimmedRefAgrees(t: Tables, t2: Tables, p: PolicyId, input: SetInput,
                         validated: map<string, PolicyPermission>, loaded: map<string, LoadedPermission>, i: nat)
    requires SetDone(t, t2, p, input) && RefsOk(input.permissions) && IsValidated(input.permissions, validated)
    requires IsPermissionMap(t2.refs, p, loaded) && i < |input.permissions| && RefTrimmed(input.permissions[i])
    ensures Trim(input.permissions[i].key) == input.permissions[i].key
            && AgreeAt(validated, loaded, input.permissions[i].key)
  {
    TrimLaws(input.permissions[i].key);
    TrimLaws(input.permissions[i].resource);
    TrimLaws(input.permissions[i].action);
    LoadedRef(t, t2, p, input, validated, loaded, i);
  }

  lemma TrimmedAgree(t: Tables, t2: Tables, p: PolicyId, input: SetInput,
                     validated: map<string, PolicyPermission>, loaded: map<string, LoadedPermission>)
    requires SetDone(t, t2, p, input) && RefsOk(input.permissions) && IsValidated(input.permissions, validated)
    requires IsPermissionMap(t2.refs, p, loaded)
    requires forall i :: 0 <= i < |input.permissions| ==> RefTrimmed(input.permissions[i])
    ensures Agree(validated, loaded)
  {
    LoadedKeysAreInput(t, t2, p, input, loaded);
    forall k | k in loaded ensures AgreeAt(validated, loaded, k) {
      var i :| 0 <= i < |input.permissions| && input.permissions[i].key == k;
      TrimmedRefAgrees(t, t2, p, input, validated, loaded, i);
    }
    forall k | k in validated ensures AgreeAt(validated, loaded, k) {
      assert KeyAmong(TrimAll(input.permissions), |input.permissions|, k);
      var i :| 0 <= i < |input.permissions| && TrimAll(input.permissions)[i].key == k;
      TrimmedRefAgrees(t, t2, p, input, validated, loaded, i);
    }
    AgreeEverywhere(validated, loaded);
  }

  lemma AgreeEverywhere(validated: map<string, PolicyPermission>, loaded: map<string, LoadedPermission>)
    requires forall k :: k in loaded || k in validated ==> AgreeAt(validated, loaded, k)
    ensures Agree(validated, loaded)
  {
  }
}
