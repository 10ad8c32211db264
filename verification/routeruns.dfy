/** Runs of route-policy writes: versions count the successful Sets, and rows keep their ids. */
module RouteRuns {
  import opened Schema
  import opened RouteTables
  import opened RoutePolicy

  /** One call of Set; `stored` names the policy if it succeeded. */
  datatype Attempt = Attempt(input: SetInput, stored: Option<PolicyId>)

  /** `tables[i]` is the state before attempt i. */
  datatype RouteRun = RouteRun(tables: seq<Tables>, attempts: seq<Attempt>)

  ghost predicate ValidAttempt(run: RouteRun, i: nat)
    requires i < |run.attempts| < |run.tables|
  {
    var a := run.attempts[i];
    match a.stored
    case None => run.tables[i + 1] == run.tables[i]
    case Some(p) =>
      && SetDone(run.tables[i], run.tables[i + 1], p, a.input)
      && ValidStatus(a.input.status) && AllScopesValid(a.input.permissions)
  }

  ghost predicate ValidRouteRun(run: RouteRun) {
    && |run.tables| == |run.attempts| + 1 && ValidTables(run.tables[0])
    && (forall i :: 0 <= i < |run.attempts| ==> ValidAttempt(run, i))
  }

  lemma {:induction false} TablesStayValid(run: RouteRun, n: nat)
    requires ValidRouteRun(run) && n < |run.tables|
    ensures ValidTables(run.tables[n])
  {
    if n > 0 {
      TablesStayValid(run, n - 1);
      assert ValidAttempt(run, n - 1);
      var a := run.attempts[n - 1];
      if a.stored.Some? {
        SetKeepsValid(run.tables[n - 1], run.tables[n], a.stored.value, a.input);
      }
    }
  }

  // ----- Versions -----

  function VersionOf(t: Tables, p: PolicyId): nat {
    if p in t.policies then t.policies[p].version else 0
  }

  ghost predicate StoredAt(run: RouteRun, i: nat, p: PolicyId)
    requires i < |run.attempts|
  {
    run.attempts[i].stored == Some(p)
  }

  /** Successful Sets of policy `p` among the attempts i..j-1. */
  ghost function Sets(run: RouteRun, p: PolicyId, i: nat, j: nat): nat
    requires i <= j <= |run.attempts|
    decreases j
  {
    if i == j then 0 else Sets(run, p, i, j - 1) + (if StoredAt(run, j - 1, p) then 1 else 0)
  }

  lemma AttemptVersion(run: RouteRun, i: nat, p: PolicyId)
    requires ValidRouteRun(run) && i < |run.attempts|
    ensures VersionOf(run.tables[i + 1], p) == VersionOf(run.tables[i], p) + (if StoredAt(run, i, p) then 1 else 0)
    ensures StoredAt(run, i, p) ==> run.attempts[i].input.expectedVersion == VersionOf(run.tables[i], p)
  {
    assert ValidAttempt(run, i);
  }

  /** In every run a policy's version grows by exactly its successful Sets. */
  lemma {:induction false} VersionsCountSets(run: RouteRun, p: PolicyId, i: nat, j: nat)
    requires ValidRouteRun(run) && i <= j <= |run.attempts|
    ensures VersionOf(run.tables[j], p) == VersionOf(run.tables[i], p) + Sets(run, p, i, j)
    decreases j
  {
    if i < j {
      VersionsCountSets(run, p, i, j - 1);
      AttemptVersion(run, j - 1, p);
    }
  }

  /** No lost update: of two successful Sets of a policy the later one expected a greater
      version, hence had seen the earlier one. */
  lemma NoLostPolicy(run: RouteRun, p: PolicyId, i: nat, j: nat)
    requires ValidRouteRun(run) && i < j < |run.attempts| && StoredAt(run, i, p) && StoredAt(run, j, p)
    ensures run.attempts[i].input.expectedVersion < run.attempts[j].input.expectedVersion
  {
    AttemptVersion(run, i, p);
    AttemptVersion(run, j, p);
    VersionsCountSets(run, p, i + 1, j);
  }

  // ----- Row ids -----

  lemma AttemptKeepsRow(run: RouteRun, i: nat, p: PolicyId, key: string, id: RefId)
    requires ValidRouteRun(run) && i < |run.attempts| && IsRow(run.tables[i].refs, p, key, id)
    ensures IsRow(run.tables[i + 1].refs, p, key, id)
  {
    assert ValidAttempt(run, i);
    var a := run.attempts[i];
    if a.stored.Some? {
      var want := Wanted(a.input.permissions);
      OldRowsKeepKeys(run.tables[i].refs, run.tables[i + 1].refs, a.stored.value, want, true);
      assert SameKey(run.tables[i].refs[id], run.tables[i + 1].refs[id]);
    }
  }

  /** A reference keeps one row id forever, through deletions and revivals. */
  lemma {:induction false} IdsAreForever(run: RouteRun, i: nat, j: nat, p: PolicyId, key: string, id: RefId)
    requires ValidRouteRun(run) && i <= j < |run.tables| && IsRow(run.tables[i].refs, p, key, id)
    ensures IsRow(run.tables[j].refs, p, key, id)
    ensures forall other :: IsRow(run.tables[j].refs, p, key, other) ==> other == id
    decreases j
  {
    if i < j {
      IdsAreForever(run, i, j - 1, p, key, id);
      AttemptKeepsRow(run, j - 1, p, key, id);
    }
    TablesStayValid(run, j);
    forall other | IsRow(run.tables[j].refs, p, key, other) ensures other == id {
      assert SameKey(run.tables[j].refs[other], run.tables[j].refs[id]);
    }
  }
}
