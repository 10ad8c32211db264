/** The decision cache as a value: invalidation by prefix, version tags, and repair. */
module DecisionCache {
  import opened Schema
  import opened Text
  import opened Resolution
  import opened CacheKey

  datatype Entry = Entry(decision: Decision, expiresAt: int)

  type Cache = map<string, Entry>

  /** The entries whose key does not start with `prefix`. */
  function Without<V>(entries: map<string, V>, prefix: string): map<string, V> {
    map k | k in entries && !HasPrefix(k, prefix) :: entries[k]
  }

  /** invalidateTenant */
  function TenantInvalidated<V>(entries: map<string, V>, tenant: string): map<string, V> {
    Without(entries, TenantPrefix(Trim(tenant)))
  }

  /** InvalidateSubject; blank identifiers are refused and change nothing. */
  function SubjectInvalidated<V>(entries: map<string, V>, tenant: string, subject: string,
                                 t: SubjectType): map<string, V> {
    if Trim(tenant) == "" || Trim(subject) == "" then entries
    else Without(entries, SubjectPrefix(Trim(tenant), Trim(subject), t))
  }

  /** The keys that stay, by their prefix. */
  lemma InvalidationsByPrefix<V>(entries: map<string, V>, tenant: string, subject: string, t: SubjectType, k: string)
    ensures k in TenantInvalidated(entries, tenant) <==> k in entries && !(Trim(tenant) + ['\0'] <= k)
    ensures k in SubjectInvalidated(entries, tenant, subject, t) <==>
            && k in entries
            && (Trim(tenant) != "" && Trim(subject) != "" ==>
                  !(Trim(tenant) + ['\0'] + Trim(subject) + ['\0'] + TypeName(t) + ['\0'] <= k))
    ensures k in TenantInvalidated(entries, tenant) ==> TenantInvalidated(entries, tenant)[k] == entries[k]
    ensures k in SubjectInvalidated(entries, tenant, subject, t) ==>
              SubjectInvalidated(entries, tenant, subject, t)[k] == entries[k]
  {
  }

  /** Invalidation removes exactly the entries of the trimmed tenant. */
  lemma TenantInvalidationExact<V>(entries: map<string, V>, tenant: string, r: Request)
    requires Key(r) in entries && NulFree(r.tenant) && NulFree(Trim(tenant))
    ensures Key(r) in TenantInvalidated(entries, tenant) <==> r.tenant != Trim(tenant)
  {
    TenantPrefixExact(r, Trim(tenant));
  }

  /** Invalidation removes exactly the entries of the trimmed subject, if it names one. */
  lemma SubjectInvalidationExact<V>(entries: map<string, V>, tenant: string, subject: string, t: SubjectType,
                                    r: Request)
    requires Key(r) in entries && NulFree(r.tenant) && NulFree(r.subject)
    requires NulFree(Trim(tenant)) && NulFree(Trim(subject)) && r.tenant != "" && r.subject != ""
    ensures Key(r) in SubjectInvalidated(entries, tenant, subject, t) <==>
            !(r.tenant == Trim(tenant) && r.subject == Trim(subject) && r.subjectType == t)
  {
    SubjectPrefixExact(r, Trim(tenant), Trim(subject), t);
  }

  // ----- Version tags and repair -----

  ghost function Tenants(cache: Cache): set<string> {
    set k | k in cache :: Cut(k)
  }

  /** The policy versions recorded in the entries of one tenant. */
  ghost function Tags(cache: Cache, t: string): set<nat> {
    set k | k in cache && Cut(k) == t :: cache[k].decision.policyVersion
  }

  ghost predicate IsGreatest(x: nat, s: set<nat>) {
    x in s && forall y :: y in s ==> y <= x
  }

  /** `versions` holds, per cached tenant, the greatest policy version among its entries. */
  ghost predicate Maxima(cache: Cache, versions: map<string, nat>) {
    versions.Keys == Tenants(cache) && forall t :: t in versions ==> IsGreatest(versions[t], Tags(cache, t))
  }

  /** The maxima do not depend on the order in which the cache is iterated. */
  lemma MaximaUnique(cache: Cache, v: map<string, nat>, w: map<string, nat>)
    requires Maxima(cache, v) && Maxima(cache, w)
    ensures v == w
  {
    forall t | t in v ensures t in w && v[t] == w[t] {
      assert t in w.Keys;
      assert IsGreatest(v[t], Tags(cache, t)) && IsGreatest(w[t], Tags(cache, t));
    }
    assert v.Keys == w.Keys;
  }

  /** One iteration of cachedTenantVersions. */
  function Noted(versions: map<string, nat>, tenant: string, tag: nat): map<string, nat> {
    if tenant !in versions || tag > versions[tenant] then versions[tenant := tag] else versions
  }

  lemma OneMoreTag(seen: Cache, key: string, entry: Entry, t: string)
    requires key !in seen
    ensures Tags(seen[key := entry], t) ==
            Tags(seen, t) + (if t == Cut(key) then {entry.decision.policyVersion} else {})
  {
    var more := seen[key := entry];
    forall x | x in Tags(seen, t) ensures x in Tags(more, t) {
      var k :| k in seen && Cut(k) == t && seen[k].decision.policyVersion == x;
      assert k in more && more[k] == seen[k];
    }
    if t == Cut(key) {
      assert key in more;
    }
  }

  lemma OneMoreTenant(seen: Cache, key: string, entry: Entry)
    ensures Tenants(seen[key := entry]) == Tenants(seen) + {Cut(key)}
  {
    var more := seen[key := entry];
    assert key in more;
    forall t | t in Tenants(seen) ensures t in Tenants(more) {
      var k :| k in seen && Cut(k) == t;
      assert k in more;
    }
  }

  lemma GreatestOfMore(x: nat, s: set<nat>, tag: nat)
    requires IsGreatest(x, s)
    ensures IsGreatest(if tag > x then tag else x, s + {tag})
  {
  }

  lemma NotedMaxima(seen: Cache, versions: map<string, nat>, key: string, entry: Entry)
    requires Maxima(seen, versions) && key !in seen
    ensures Maxima(seen[key := entry], Noted(versions, Cut(key), entry.decision.policyVersion))
  {
    var tenant, tag, more := Cut(key), entry.decision.policyVersion, seen[key := entry];
    var noted := Noted(versions, tenant, tag);
    OneMoreTenant(seen, key, entry);
    forall t | t in noted ensures IsGreatest(noted[t], Tags(more, t)) {
      OneMoreTag(seen, key, entry, t);
      if t in versions {
        GreatestOfMore(versions[t], Tags(seen, t), tag);
      } else {
        NoTags(seen, t);
      }
    }
  }

  lemma NoTags(cache: Cache, t: string)
    requires t !in Tenants(cache)
    ensures Tags(cache, t) == {}
  {
    assert forall k :: k in cache ==> Cut(k) in Tenants(cache);
  }

  /** The poll answered, and with another version than the tenant's greatest tag. */
  predicate Outdated(versions: map<string, nat>, poll: string -> Option<nat>, t: string) {
    t in versions && poll(t).Some? && poll(t).value != versions[t]
  }

  ghost predicate Condemned(versions: map<string, nat>, poll: string -> Option<nat>, k: string) {
    exists t :: Outdated(versions, poll, t) && HasPrefix(k, TenantPrefix(Trim(t)))
  }

  /** The cache after a repair pass; `poll` is None where reading the version failed. */
  ghost function Repaired(cache: Cache, versions: map<string, nat>, poll: string -> Option<nat>): Cache {
    map k | k in cache && !Condemned(versions, poll, k) :: cache[k]
  }

  /** One iteration of the repair loop. */
  lemma RepairedStep(cache: Cache, visited: map<string, nat>, poll: string -> Option<nat>, t: string, version: nat)
    requires t !in visited
    ensures Repaired(cache, visited[t := version], poll) ==
            if poll(t).Some? && poll(t).value != version then TenantInvalidated(Repaired(cache, visited, poll), t)
            else Repaired(cache, visited, poll)
  {
    var more := visited[t := version];
    forall k ensures Condemned(more, poll, k) <==>
                     Condemned(visited, poll, k) || (Outdated(more, poll, t) && HasPrefix(k, TenantPrefix(Trim(t))))
    {
      if u :| Outdated(visited, poll, u) && HasPrefix(k, TenantPrefix(Trim(u))) {
        assert Outdated(more, poll, u);
      }
      if u :| Outdated(more, poll, u) && HasPrefix(k, TenantPrefix(Trim(u))) {
        assert u != t ==> Outdated(visited, poll, u);
      }
    }
  }

  /** The key of a request whose tenant is free of NUL. */
  ghost predicate NamesTenant(k: string) {
    exists r :: k == Key(r) && NulFree(r.tenant)
  }

  ghost predicate Keyed(cache: Cache) {
    forall k :: k in cache ==> NamesTenant(k)
  }

  /** The keys are those of requests with trimmed tenants. */
  ghost predicate TidyKeys(cache: Cache) {
    Keyed(cache) && forall k :: k in cache ==> Trimmed(Cut(k))
  }

  lemma KeyNamesTenant(r: Request)
    requires NulFree(r.tenant)
    ensures NamesTenant(Key(r)) && Cut(Key(r)) == r.tenant
  {
    TenantPrefixExact(r, r.tenant);
  }

  /** Storing under the key of a request and removing any entries keep the keys tidy. */
  lemma KeysStayTidy(cache: Cache, after: Cache, r: Request)
    requires TidyKeys(cache) && after.Keys <= cache.Keys + {Key(r)} && NulFree(r.tenant) && Trimmed(r.tenant)
    ensures TidyKeys(after)
  {
    KeyNamesTenant(r);
  }

  lemma RemovalKeepsTidy(cache: Cache, after: Cache)
    requires TidyKeys(cache) && after.Keys <= cache.Keys
    ensures TidyKeys(after)
  {
  }

  lemma PrefixIsCut(k: string, t: string)
    requires NulFree(t) && NamesTenant(k)
    ensures HasPrefix(k, TenantPrefix(t)) <==> t == Cut(k)
  {
    var r :| k == Key(r) && NulFree(r.tenant);
    TenantPrefixExact(r, t);
  }

  /** Repair removes exactly the entries whose tenant is the trimmed form of an outdated one. */
  lemma RepairInGeneral(cache: Cache, versions: map<string, nat>, poll: string -> Option<nat>, k: string)
    requires Maxima(cache, versions) && Keyed(cache) && k in cache
    ensures k in Repaired(cache, versions, poll) <==> !exists t :: Outdated(versions, poll, t) && Trim(t) == Cut(k)
  {
    forall t | Outdated(versions, poll, t) ensures HasPrefix(k, TenantPrefix(Trim(t))) <==> Trim(t) == Cut(k) {
      assert t in Tenants(cache);
      TrimKeepsNulFree(t);
      PrefixIsCut(k, Trim(t));
    }
  }

  lemma TidyTenantsTrimmed(cache: Cache, versions: map<string, nat>, t: string)
    requires Maxima(cache, versions) && TidyKeys(cache) && t in versions
    ensures Trim(t) == t
  {
    assert t in Tenants(cache);
    TrimLaws(t);
  }

  /** Repair removes all entries of a tenant when its greatest tag differs from the current
      version, and no entry otherwise. */
  lemma RepairExact(cache: Cache, versions: map<string, nat>, poll: string -> Option<nat>, k: string)
    requires Maxima(cache, versions) && TidyKeys(cache) && k in cache
    ensures Cut(k) in versions
    ensures k in Repaired(cache, versions, poll) <==> !Outdated(versions, poll, Cut(k))
  {
    RepairInGeneral(cache, versions, poll, k);
    assert Cut(k) in Tenants(cache);
    forall t | Outdated(versions, poll, t) ensures Trim(t) == t {
      TidyTenantsTrimmed(cache, versions, t);
    }
  }

  /** In terms of the tags themselves: an entry stays exactly if the poll failed or answered the
      greatest tag of the entry's tenant. */
  lemma RepairByTags(cache: Cache, versions: map<string, nat>, poll: string -> Option<nat>, k: string)
    requires Maxima(cache, versions) && TidyKeys(cache) && k in cache
    ensures k in Repaired(cache, versions, poll) <==>
            poll(Cut(k)) == None || IsGreatest(poll(Cut(k)).value, Tags(cache, Cut(k)))
  {
    RepairExact(cache, versions, poll, k);
    assert IsGreatest(versions[Cut(k)], Tags(cache, Cut(k)));
  }

  /** An untrimmed cached tenant is never repaired: however outdated, its own entries stay,
      and those of the trimmed tenant go in their place. */
  lemma UntrimmedTenantStays(cache: Cache, versions: map<string, nat>, poll: string -> Option<nat>, k: string,
                             other: string)
    requires Maxima(cache, versions) && Keyed(cache) && k in cache && !Trimmed(Cut(k))
    ensures k in Repaired(cache, versions, poll)
    ensures other in cache && Cut(other) == Trim(Cut(k)) && Outdated(versions, poll, Cut(k)) ==>
              other !in Repaired(cache, versions, poll)
  {
    RepairInGeneral(cache, versions, poll, k);
    forall t ensures Trim(t) != Cut(k) {
      TrimLaws(t);
    }
    if other in cache {
      RepairInGeneral(cache, versions, poll, other);
    }
  }

  /** If every cached tag of a tenant is behind, none of its entries survives a poll. */
  lemma StaleTenantIsCleared(cache: Cache, versions: map<string, nat>, poll: string -> Option<nat>, t: string,
                             current: nat)
    requires Maxima(cache, versions) && TidyKeys(cache) && poll(t) == Some(current)
    requires forall k :: k in cache && Cut(k) == t ==> cache[k].decision.policyVersion < current
    ensures forall k :: k in Repaired(cache, versions, poll) ==> Cut(k) != t
  {
    forall k | k in cache && Cut(k) == t ensures k !in Repaired(cache, versions, poll) {
      RepairExact(cache, versions, poll, k);
      assert versions[t] in Tags(cache, t);
    }
  }
}
