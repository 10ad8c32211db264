/** The authorization service: the in-memory decision cache beside the database, with the
    methods that check, mutate, project events and repair. */
module Service {
  import opened Schema
  import opened Text
  import opened Resolution
  import opened Transactions
  import opened GroupProjection
  import opened CacheKey
  import opened DecisionCache

  datatype CheckResult = InvalidCheck | EvaluationFailed | Returned(decision: Decision, hit: bool)

  /** One process: the database it talks to and its cache. */
  datatype Node = Node(store: Store, cache: Cache)

  /** What CheckWithAttributes may do. A live entry is returned as it is; otherwise the grants
      are resolved, and a decision, unless evaluation failed, is returned and cached. */
  ghost predicate CheckStep(cel: Cel, ttl: int, n: Node, r: Request, now: int, n2: Node, result: CheckResult) {
    && n2.store == n.store
    && if !ValidRequest(r) then result == InvalidCheck && n2 == n
       else if Key(r) in n.cache && now < n.cache[Key(r)].expiresAt then
         result == Returned(n.cache[Key(r)].decision, true) && n2 == n
       else if FreshVerdict(cel, n.store, r) == EvaluationError then
         result == EvaluationFailed && n2.cache == n.cache - {Key(r)}
       else
         && result.Returned? && !result.hit
         && View(result.decision) == FreshVerdict(cel, n.store, r) && Distinct(result.decision.units)
         && result.decision.policyVersion == PolicyVersion(n.store, r.tenant)
         && n2.cache == n.cache[Key(r) := Entry(result.decision, now + ttl)]
  }

  function AfterMutation(n: Node, w: Write): Node
    requires w.Mutation?
  {
    match Outcome(n.store, w)
    case Committed(next, _) => Node(next, TenantInvalidated(n.cache, w.tenant))
    case Aborted(_) => n
  }

  function AfterGroupEvent(n: Node, d: Delivery): Node {
    if !Accepted(d.event) then n
    else
      match Outcome(n.store, WriteOf(d))
      case Committed(next, _) => Node(next, SubjectInvalidated(n.cache, d.event.tenant, d.event.membership, Membership))
      case Aborted(_) => n
  }

  function AfterTenantCreated(n: Node, eventId: string, tenant: string, owner: string): Node {
    if eventId == "" || tenant == "" || owner == "" then n
    else
      match Outcome(n.store, TenantCreated(eventId, tenant, owner))
      case Committed(next, _) => Node(next, SubjectInvalidated(n.cache, tenant, owner, Membership))
      case Aborted(_) => n
  }

  /** The subjects the super-admin command accepts, once trimmed. */
  predicate AdminSubject(subject: string, t: SubjectType) {
    subject != "" && (t == User || t == ServiceAccount)
  }

  ghost predicate HasSuperAdminRole(roles: map<Id, Role>) {
    exists role :: IsSuperAdminRole(roles, role)
  }

  class AuthorizationService {
    var db: Store
    var cache: Cache
    const ttl: int
    const cel: Cel

    function State(): Node
      reads this
    {
      Node(db, cache)
    }

    constructor (db: Store, ttl: int, cel: Cel)
      ensures this.db == db && this.cache == map[] && this.ttl == ttl && this.cel == cel
    {
      this.db, this.cache, this.ttl, this.cel := db, map[], ttl, cel;
    }

    // ----- Cache methods -----

    /** cachedDecision: an expired entry is deleted. */
    method CachedDecision(key: string, now: int) returns (found: Option<Decision>)
      modifies this`cache
      ensures found.Some? <==> key in old(cache) && now < old(cache)[key].expiresAt
      ensures found.Some? ==> found.value == old(cache)[key].decision && cache == old(cache)
      ensures found == None ==> cache == old(cache) - {key}
    {
      if key !in cache { return None; }
      if now >= cache[key].expiresAt {
        cache := cache - {key};
        return None;
      }
      found := Some(cache[key].decision);
    }

    /** storeDecision */
    method StoreDecision(key: string, decision: Decision, now: int)
      modifies this`cache
      ensures cache == old(cache)[key := Entry(decision, now + ttl)]
    {
      cache := cache[key := Entry(decision, now + ttl)];
    }

    /** The loop shared by invalidateTenant and InvalidateSubject: visit every key in any
        order and delete those with the prefix. */
    method DeletePrefix(prefix: string)
      modifies this`cache
      ensures cache == Without(old(cache), prefix)
    {
      var pending := cache.Keys;
      while pending != {}
        invariant pending <= old(cache).Keys
        invariant cache == map k | k in old(cache) && (k in pending || !HasPrefix(k, prefix)) :: old(cache)[k]
        decreases pending
      {
        var key :| key in pending;
        if HasPrefix(key, prefix) {
          cache := cache - {key};
        }
        pending := pending - {key};
      }
    }

    method InvalidateTenant(tenant: string)
      modifies this`cache
      ensures cache == TenantInvalidated(old(cache), tenant)
    {
      DeletePrefix(TenantPrefix(Trim(tenant)));
    }

    /** InvalidateSubject; the subject type has been parsed. */
    method InvalidateSubject(tenant: string, subject: string, t: SubjectType) returns (ok: bool)
      modifies this`cache
      ensures ok <==> Trim(tenant) != "" && Trim(subject) != ""
      ensures cache == SubjectInvalidated(old(cache), tenant, subject, t)
    {
      if Trim(tenant) == "" || Trim(subject) == "" { return false; }
      DeletePrefix(SubjectPrefix(Trim(tenant), Trim(subject), t));
      ok := true;
    }

    /** cachedTenantVersions, visiting the entries in any order. */
    method CachedTenantVersions() returns (versions: map<string, nat>)
      ensures Maxima(cache, versions)
    {
      versions := map[];
      var pending := cache.Keys;
      ghost var seen: Cache := map[];
      while pending != {}
        invariant pending <= cache.Keys && seen.Keys == cache.Keys - pending
        invariant forall k :: k in seen ==> seen[k] == cache[k]
        invariant Maxima(seen, versions)
        decreases pending
      {
        var key :| key in pending;
        var tenant, tag := Cut(key), cache[key].decision.policyVersion;
        NotedMaxima(seen, versions, key, cache[key]);
        if tenant !in versions || tag > versions[tenant] {
          versions := versions[tenant := tag];
        }
        pending := pending - {key};
        seen := seen[key := cache[key]];
      }
      assert seen == cache;
    }

    /** The loop of repair, over the cached versions in any order. */
    method RepairTenants(versions: map<string, nat>, poll: string -> Option<nat>)
      modifies this`cache
      ensures cache == Repaired(old(cache), versions, poll)
    {
      var pending := versions.Keys;
      ghost var visited: map<string, nat> := map[];
      assert cache == Repaired(old(cache), visited, poll);
      while pending != {}
        invariant pending <= versions.Keys && visited.Keys == versions.Keys - pending
        invariant forall t :: t in visited ==> visited[t] == versions[t]
        invariant cache == Repaired(old(cache), visited, poll)
        decreases pending
      {
        var tenant :| tenant in pending;
        if poll(tenant).Some? && poll(tenant).value != versions[tenant] {
          InvalidateTenant(tenant);
        }
        RepairedStep(old(cache), visited, poll, tenant, versions[tenant]);
        pending := pending - {tenant};
        visited := visited[tenant := versions[tenant]];
      }
      assert visited == versions;
    }

    /** repair: one polling pass. `poll` answers None where reading the version failed. */
    method Repair(poll: string -> Option<nat>)
      modifies this`cache
      ensures forall versions :: Maxima(old(cache), versions) ==> cache == Repaired(old(cache), versions, poll)
    {
      var versions := CachedTenantVersions();
      RepairTenants(versions, poll);
      forall other | Maxima(old(cache), other) ensures cache == Repaired(old(cache), other, poll) {
        MaximaUnique(old(cache), versions, other);
      }
    }

    // ----- Transactions -----

    /** Transactor.Within: the statements change the database in place; a failure restores it. */
    method Within(script: seq<Statement>) returns (result: TxResult)
      modifies this`db
      ensures result == RunFrom(old(db), script, 0)
      ensures db == if result.Committed? then result.store else old(db)
    {
      var saved := db;
      var i := 0;
      while i < |script|
        invariant 0 <= i <= |script|
        invariant RunFrom(old(db), script, 0) == RunFrom(db, script, i)
      {
        match Exec(db, script[i]) {
          case Done(next) =>
            db := next;
          case Stop(next) =>
            db := next;
            return Committed(next, false);
          case Fail(error) =>
            db := saved;
            return Aborted(error);
        }
        i := i + 1;
      }
      result := Committed(db, true);
    }

    /** mutate: after a commit the whole tenant is invalidated. */
    method Mutate(w: Write) returns (result: TxResult)
      requires w.Mutation?
      modifies this`db, this`cache
      ensures result == Outcome(old(db), w)
      ensures State() == AfterMutation(old(State()), w)
    {
      result := Within(Script(w));
      if result.Committed? {
        InvalidateTenant(w.tenant);
      }
    }

    /** GroupProjection.Apply */
    method ApplyGroupEvent(d: Delivery) returns (accepted: bool)
      modifies this`db, this`cache
      ensures State() == AfterGroupEvent(old(State()), d)
    {
      if !Accepted(d.event) { return false; }
      var result := Within(Script(WriteOf(d)));
      accepted := result.Committed?;
      if accepted {
        var ok := InvalidateSubject(d.event.tenant, d.event.membership, Membership);
      }
    }

    /** TenantBootstrapProjection.Apply */
    method ApplyTenantCreated(eventId: string, tenant: string, owner: string) returns (accepted: bool)
      modifies this`db, this`cache
      ensures State() == AfterTenantCreated(old(State()), eventId, tenant, owner)
    {
      if eventId == "" || tenant == "" || owner == "" { return false; }
      var result := Within(Script(TenantCreated(eventId, tenant, owner)));
      accepted := result.Committed?;
      if accepted {
        var ok := InvalidateSubject(tenant, owner, Membership);
      }
    }

    /** The active platform role with the reserved code. */
    method FindSuperAdminRole() returns (found: Option<Id>)
      ensures found.Some? ==> IsSuperAdminRole(db.roles, found.value)
      ensures found == None ==> !HasSuperAdminRole(db.roles)
    {
      var pending := db.roles.Keys;
      while pending != {}
        invariant pending <= db.roles.Keys
        invariant forall role :: role in db.roles && role !in pending ==> !IsSuperAdminRole(db.roles, role)
        decreases pending
      {
        var role :| role in pending;
        if IsSuperAdminRole(db.roles, role) { return Some(role); }
        pending := pending - {role};
      }
      found := None;
    }

    /** GrantPlatformSuperAdmin runs in a command of its own and reaches no cache. It succeeds
        for a user or service account whenever the super-admin role is active. */
    method GrantPlatformSuperAdmin(subjectId: string, subjectType: SubjectType) returns (granted: bool)
      modifies this`db
      ensures granted ==> AdminSubject(Trim(subjectId), subjectType)
      ensures granted ==> exists role :: IsSuperAdminRole(old(db).roles, role)
                            && Effective(old(db), SuperAdmin(role, Trim(subjectId), subjectType))
                            && db == Apply(old(db), SuperAdmin(role, Trim(subjectId), subjectType))
      ensures !granted ==> db == old(db)
      ensures Sane(old(db)) ==>
                (granted <==> AdminSubject(Trim(subjectId), subjectType) && HasSuperAdminRole(old(db).roles))
    {
      if !AdminSubject(Trim(subjectId), subjectType) { return false; }
      var role := FindSuperAdminRole();
      if role == None { return false; }
      var w := SuperAdmin(role.value, Trim(subjectId), subjectType);
      AdminRuns(db, w);
      if Sane(db) {
        AdminSucceeds(db, w);
      }
      var result := Within(Script(w));
      granted := result.Committed?;
    }

    // ----- Checks -----

    /** Resolve: the selected rows in some order, and the policy version. */
    method Resolve(r: Request) returns (grants: seq<Grant>, version: nat)
      ensures Elements(grants) == Grants(db, r) && version == PolicyVersion(db, r.tenant)
    {
      grants, version := [], PolicyVersion(db, r.tenant);
      var rest := Grants(db, r);
      while rest != {}
        invariant rest <= Grants(db, r) && Elements(grants) == Grants(db, r) - rest
        decreases rest
      {
        var row :| row in rest;
        grants, rest := grants + [row], rest - {row};
      }
    }

    /** CheckWithAttributes; `order` is the iteration order of the attribute map. */
    method CheckWithAttributes(r: Request, order: seq<string>, now: int, decisionId: nat) returns (result: CheckResult)
      requires Distinct(order) && Elements(order) == r.attributes.Keys
      modifies this`cache
      ensures CheckStep(cel, ttl, old(State()), r, now, State(), result)
      ensures result == InvalidCheck <==> r.tenant == "" || r.subject == "" || r.resourceType == "" || r.action == ""
      ensures result.Returned? && result.hit <==>
                && r.tenant != "" && r.subject != "" && r.resourceType != "" && r.action != ""
                && Key(r) in old(cache) && now < old(cache)[Key(r)].expiresAt
      ensures result.Returned? && result.hit ==> result.decision == old(cache)[Key(r)].decision
      ensures result.Returned? && !result.hit ==>
                && View(result.decision) == FreshVerdict(cel, db, r)
                && result.decision.policyVersion ==
                     (if r.tenant in db.policyVersions then db.policyVersions[r.tenant] else 0)
                && cache == old(cache)[Key(r) := Entry(result.decision, now + ttl)]
      ensures result == EvaluationFailed ==>
                FreshVerdict(cel, db, r) == EvaluationError && cache == old(cache) - {Key(r)}
    {
      if !ValidRequest(r) { return InvalidCheck; }
      var key := DecisionCacheKey(r, order);
      var found := CachedDecision(key, now);
      if found.Some? { return Returned(found.value, true); }
      var grants, version := Resolve(r);
      var folded := FoldGrants(cel, r, grants, decisionId, version);
      if folded == None { return EvaluationFailed; }
      StoreDecision(key, folded.value, now);
      result := Returned(folded.value, false);
    }
  }
}
