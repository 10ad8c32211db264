# Authorization service: verified model

This project models the authorization decision engine of the service, its decision cache, the
transactions and event projections that change the policy tables, and the reconciliation of
route policies, and proves properties of them over all inputs, all runs and all interleavings.

- `text.dfy`, `schema.dfy`: strings as the service uses them (trim, lower-case, sort, join, cut), the
  tables as maps, and the invariants every writer has to keep.
- `resolution.dfy`, `navigation.dfy`: the four-way join of `Resolve`, the folding of grants into a
  decision, and the coarser `CheckPermissionCodes`.
- `transactions.dfy`, `tenantbootstrap.dfy`, `groupprojection.dfy`, `access.dfy`: SQL statements,
  all-or-nothing transactions, the two event projections, the super-admin command, and the eight
  mutators with the checks they make before they write.
- `history.dfy`, `ledger.dfy`, `updates.dfy`, `confinement.dfy`: whole runs of those writers. A mutation
  may have made its checks on any earlier store, so two requests can race.
- `columns.dfy`: the join and the fold once more, said of the table columns; `mutators.dfy`: each mutator as an
  if-and-only-if on its input and the store it leaves.
- `monotone.dfy`, `granting.dfy`, `outcomes.dfy`: what operations and events do to decisions, end to end.
- `cachekey.dfy`, `decisioncache.dfy`, `service.dfy`: the cache key, invalidation by prefix, version
  tags and repair, and the class that holds the database and the cache.
- `coherence.dfy`: one process with atomic steps. `replicas.dfy`: any number of replicas, with a check
  split into look-up, expiry test, eviction, grant read, version read and store.
- `routetables.dfy`, `routepolicy.dfy`, `routeruns.dfy`: the route-policy tables, `Set`, `Load`, the
  service's validation, and runs of writes.

How the outside world enters:

- CEL is a total function from an expression and its variables to true, false or an error; the compilers
  of conditions and of route expressions are predicates. Clock readings, random UUIDs, map iteration
  orders and row orders are parameters, so the results hold for every choice of them.
- Identifiers are a datatype. The name-based UUIDs (section 4.3 of RFC 4122) are injective
  constructors. Their real input joins kind and tenant with `:`, which is injective only while the
  parts contain no `:` that shifts the boundary.
- A transaction is atomic. A unique, foreign-key or check constraint failure aborts it, as PostgreSQL
  and Kingbase do.

Findings where the code and a plausible expectation differ, each with its lemma:

- The cache key lower-cases resource type and action, the resolver does not. A lower-case request can hit
  the denial that another spelling of it left in the cache. Hits over a set of requests with trimmed
  identifiers are fresh exactly when no two members share a key (`Coherence.SharedKeysExact`); with the lower-case permissions the
  service creates, exactly when members under one key are spelled alike (`Coherence.LetterCaseExact`).
- Invalidation trims the tenant and the subject, the key does not. Hits of a request are fresh in every
  run exactly if its tenant and, for a membership, its subject are trimmed (`Coherence.WhiteSpaceExact`);
  otherwise a grant or a bootstrap for the very request leaves its entry in place.
- For the same reason a user who manages a tenant can write rows of an untrimmed tenant beside it, if one
  exists (`Confinement.UntrimmedTenantIsWritten`).
- Repair of an untrimmed cached tenant removes the trimmed tenant's entries and keeps its own
  (`DecisionCache.UntrimmedTenantStays`).
- An attribute key that extends another one past an `=` makes two different requests share a cache key;
  a vocabulary without such a pair is safe (`CacheKey.VocabularyExact`).
- A decision cached under the current version can be outdated, because the version is read after the
  grants (`Replicas.CurrentTag`, `Replicas.CurrentTagOnOldDecision`); until the tenant's next commit no poll
  clears it (`Replicas.PollKeepsCurrentTags`).
- The owner bootstrap aborts when the reserved role code or permission slot of the tenant is taken by
  another row before the first bootstrap (`TenantBootstrap.BootstrapAborts`), and then it aborts for good
  (`Histories.BlockedForGood`).
- The delivery order of group events matters exactly when two of the latest relevant events of a row
  disagree on the change (`GroupProjection.ConvergenceExact`).
- The route-policy service validates trimmed copies and stores the untrimmed references
  (`RoutePolicy.ValidatedIsLoadedExactly`). An untrimmed scope even fails the table's check constraint.
- The MySQL upsert would give the same status and time with its two assignments in the other order
  (`GroupProjection.MySqlUpsertTimeFirst`). The comparison is unaffected because the greater time wins both ways.
- A super-admin grant runs in a command of its own and invalidates no cache. An entry of its subject stays
  right exactly if the role brings nothing new to the decision (`Coherence.AdminGrantExact`): with the role
  as migrated, if the entry already had scope `all` and no condition errs (`Coherence.UnlimitedGrantExact`).
  Other entries of the subject stay until repair or the TTL removes them; entries of all other subjects stay
  right (`Coherence.AdminKeepsFresh`).

## Model

| member | source | states |
|---|---|---|
| Resolution.FoldGrants | internal/authorization/service.go:601-628 | whatever the row order, the fold fails iff some condition errs, and otherwise equals the order-free judgement of the set of grants: allowed iff one matches, greatest scope, the distinct non-empty units of matching organization grants |
| Resolution.TopScopeIsGreatest | internal/authorization/service.go:616-618 | the scope of a decision has the greatest rank among the matching grants and belongs to one of them |
| Resolution.AppendUnique | internal/authorization/service.go:938-945 | the list stays duplicate-free, keeps its old part as a prefix and gains exactly the value |
| Resolution.SliceDecides | internal/authorization/repository.go:300-316 | under the isolation invariant two stores that agree on the rows of one tenant give that tenant the same grants and version, although the join filters only the binding by tenant |
| Resolution.MoreGrantsNeverNarrow | internal/authorization/service.go:607-628 | a larger set of grants without evaluation errors never loses permission, scope rank or units |
| Columns.GrantsAreRows | internal/authorization/repository.go:302 | the selected rows, column by column: active binding of the tenant for the subject or an active group of the membership, active role, active pair, active permission for the type and action or a wildcard |
| Columns.ErrorByColumns | internal/authorization/service.go:607-610 | the check fails iff the condition of some row, put to CEL with the request's tenant, subject, resource and attributes, errs |
| Columns.AllowedByColumns | internal/authorization/service.go:601-626 | otherwise it allows iff some row's condition is blank or holds; the reason tells no row, a failed condition and a match apart |
| Columns.ScopeByColumns | internal/authorization/service.go:616-618 | the scope is the widest of the roles whose rows pass, in the order none, self, organization, tenant, all |
| Columns.UnitsByColumns | internal/authorization/service.go:619-621 | a unit is answered iff it is the non-empty unit of a passing row of an organization role |
| Columns.DeadEndsDeny | internal/authorization/repository.go:302 | if all active bindings that reach the subject lead only to a role, pair or permission that is not active, the check is denied without a grant |
| Columns.SoleConditionDecides | internal/authorization/service.go:706-727 | with one conditional row the answer is what CEL says of that condition with the request's tenant, subject, resource and attributes in their places |
| Columns.PassingRowIsHonoured | internal/authorization/service.go:611-621 | a passing row, direct or through a group, is allowed at its role's scope at least, unless another condition errs |
| Navigation.CheckPermissionCodes | internal/authorization/service.go:543-588 | rejects exactly the malformed requests; a code is allowed iff some requested code trims and lower-cases to it and an active, unconditional row of the subject carries it or a full wildcard; allowed codes are distinct and follow their first occurrences in the request |
| Navigation.NavigationIsSound | internal/authorization/repository.go:318-336 | a code that is allowed there is never denied by the full check on its permission, for any resource and attributes: it is allowed or reports an evaluation error |
| Transactions.StatementKeepsSane | internal/authorization/repository.go:75-282 | every accepted statement keeps tenant isolation, the unique indexes and the naming of bootstrap rows, and only moves row versions upwards |
| Transactions.MutationRuns | internal/authorization/service.go:729-750 | a mutation is its statement plus exactly one version bump plus one outbox row carrying the new version, or it aborts with the statement's error |
| Transactions.AdminRuns | internal/bootstrap/admin.go:41-55 | the command writes one binding and bumps the platform version, or aborts when the role is missing or the id is taken |
| Transactions.AdminSucceeds | internal/bootstrap/admin.go:39-51 | on a store with the invariants the command succeeds iff its role is the active super-admin role |
| Transactions.WriteFrame | internal/authorization/service.go:729-758 | any write, committed or not, leaves every row of every other tenant as it was |
| TenantBootstrap.WriteKeepsGood | internal/authorization/repository.go:338-373 | every writer keeps all store invariants, including that a bootstrap role never exists without its role permission |
| TenantBootstrap.OtherTenantsUnaffected | internal/authorization/repository.go:300-316 | a write for one tenant changes neither the grants nor the version of any request of another tenant |
| TenantBootstrap.BootstrapRuns | internal/authorization/repository.go:338-373 | the outcome of the four lenient inserts and the bump, table by table, and when a missing reference aborts them |
| TenantBootstrap.BootstrapAborts | internal/authorization/repository.go:338-373 | on a reachable store the bootstrap aborts iff there is no bootstrap role yet and the reserved role code or permission slot is taken |
| TenantBootstrap.RedeliveryIsIdempotent | internal/authorization/group_projection.go:84-98 | delivering an event twice leaves what delivering it once leaves |
| TenantBootstrap.OnlyOwnerAffected | internal/authorization/tenant_bootstrap_projection.go:48-61 | a bootstrap changes no grant of any subject but the owner, in any tenant |
| TenantBootstrap.OnlyMemberAffected | internal/authorization/group_projection.go:63-76 | a group event changes no grant of any subject but the membership it names |
| TenantBootstrap.OnlyAdminAffected | internal/bootstrap/admin.go:57-68 | a super-admin grant to a user or service account changes no grant of any other subject |
| TenantBootstrap.OwnerIsAllowedEverything | internal/authorization/tenant_bootstrap_projection.go:27-62 | on a tenant without rows the event commits, and every check by the owner is then allowed with scope all |
| Access.Prepare | internal/authorization/service.go:115-498 | whatever a mutator issues has passed the tenant and actor checks and refers only to rows of its own tenant on the store it read |
| Access.PrepareGrant | internal/authorization/service.go:351-388 | a grant that is issued activates the requested pair of the tenant's role and permission: it inserts the pair if none exists, or revives its inactive row under that row's version; nothing is issued for an active pair |
| Mutators.CreatePermissionExact | internal/authorization/service.go:115-142 | takes effect iff the input is complete, the condition compiles, the caller may manage the tenant, and code and target are unused there; the new store has that one active row, the next version and its announcement, and is otherwise the same |
| Mutators.ChangePermissionExact | internal/authorization/service.go:177-209 | takes effect iff the input is valid and the tenant's row is at the named version; the row gets the given condition and status at the next version, all else stays |
| Mutators.CreateRoleExact | internal/authorization/service.go:225-244 | the same for a new role with its named data scope and an unused code |
| Mutators.ChangeRoleExact | internal/authorization/service.go:245-268 | the row gets the given scope and status at the next version; both names are taken as they are |
| Mutators.NewGrantExact | internal/authorization/service.go:351-388 | a pair without a row is inserted active, for a role and a permission of the tenant |
| Mutators.RevivingGrantExact | internal/authorization/service.go:366-387 | a pair with an inactive row is revived in that row; with an active row nothing is written |
| Mutators.RevokePairExact | internal/authorization/service.go:390-409 | the tenant's row at the named version becomes revoked, all else stays |
| Mutators.CreateBindingExact | internal/authorization/service.go:457-478 | binds the subject to the tenant's role once, with a subject type the tenant may bind |
| Mutators.RevokeBindingExact | internal/authorization/service.go:480-498 | the tenant's row at the named version becomes revoked, all else stays |
| Access.ClearedStaysAdmissible | internal/authorization/service.go:351-388 | what was checked on an outdated store is still admissible when the transaction runs |
| Access.TenantCheckExact | internal/authorization/service.go:88-113 | the tenant check passes exactly the authorized tenant, known service and system callers, platform users on the platform and members on their tenant; who gets which error |
| Access.TenantScopeExact | internal/authorization/service.go:62-86 | scope tenant, the default, is granted iff the caller is a user with a membership in the selected tenant and that membership is allowed there; it fixes that tenant |
| Access.PlatformScopeExact | internal/authorization/service.go:62-86 | scope platform is granted iff the caller is such a user and the user is allowed on the platform; it fixes the platform |
| Access.OtherScopesDenied | internal/authorization/service.go:69-76 | any other scope is denied, as invalid to a member and as forbidden to others |
| Access.ManagementScope | internal/authorization/service.go:62-86 | a granted management scope fixes the caller's own tenant or the platform, after an allowed check on that very tenant |
| Histories.Reachable | internal/authorization/service.go:115-498 | every store of every run satisfies isolation, uniqueness, bootstrap naming and closure, and each store evolves from the one before |
| Histories.MigratedIsUntouched | migrations/kingbase/000006_platform_super_admin.up.sql:1-2 | the migrated database is a start of such runs |
| Histories.RunsAreIsolated | internal/authorization/repository.go:300-316 | in every run a step for one tenant changes no decision and no version of another |
| Histories.BlockedForGood | internal/authorization/repository.go:338-373 | once the reserved rows are blocked, every later unprocessed tenant-created event of the tenant aborts, in every run |
| Confinement.UserWritesOneTenant | internal/authorization/service.go:88-113 | in every run a user's write leaves all tenants but one alone, that one is the managed tenant up to white space, and it is the managed tenant iff it is trimmed |
| Confinement.UserWritesManagedTenant | internal/authorization/service.go:62-113 | with trimmed event tenants it is exactly the tenant fixed by the management scope, or else the caller's own tenant or the platform |
| Confinement.UntrimmedTenantIsWritten | internal/authorization/service.go:88-113 | a run in which a user who manages the trimmed tenant writes rows of an untrimmed one |
| Confinement.ScopedWritesStayInScope | internal/authorization/service.go:62-113 | a mutation issued under a granted management scope writes the scope's tenant only, which is the caller's own or the platform |
| Ledger.PolicyVersionConservation | internal/authorization/repository.go:375-392 | in every run a tenant's version is its committed mutations plus its distinct applied events plus the platform's super-admin grants |
| Ledger.VersionGrowth | internal/authorization/repository.go:375-392 | between two moments of a run a version grows by exactly the tenant's commits |
| Ledger.OutboxConservation | internal/authorization/repository.go:404-407 | each committed mutation adds exactly one outbox row, and per tenant the announced versions strictly increase |
| Ledger.RolledBackChangesNothing | internal/database/transaction.go:22-44 | a write that is not effective changes no row, version or outbox entry |
| Updates.RowVersionConservation | migrations/kingbase/000007_database_audit.up.sql:6-7 | in every run a row's version is one plus its successful updates |
| Updates.OneUpdatePerVersion | internal/authorization/repository.go:421-433 | of two successful updates of a row the later one named a greater version |
| Updates.NoLostUpdate | internal/authorization/repository.go:167-170 | a successful update naming version v replaces the very row that every reader of version v saw |
| Updates.GrantRevivesInPlace | internal/authorization/service.go:366-387 | granting a revoked pair updates its one row, adds none, and cannot fail on the store it was checked on |
| Monotone.GrantingNeverNarrows | internal/authorization/service.go:351-388 | granting a role permission, creating a binding or adding a member narrows no decision in which no condition errs |
| Monotone.RevokingNeverWidens | internal/authorization/service.go:390-409 | revoking a role permission or a binding or removing a member widens none |
| Granting.GrantsNeverNarrow | internal/authorization/service.go:351-478 | a performed grant or binding narrows no decision in which no condition errs |
| Granting.RevocationsNeverWiden | internal/authorization/service.go:390-498 | a performed revocation widens none |
| Granting.MembershipIsMonotone | internal/authorization/group_projection.go:45-53 | delivering an added member narrows no decision, delivering a removed one widens none |
| Granting.FourStepsGrant | internal/authorization/service.go:115-478 | creating a permission and a role, granting one to the other and binding a subject makes the subject's checks honour the role's scope and the binding's unit whenever the condition holds |
| Granting.SuperAdminIsAllowedEverything | internal/bootstrap/admin.go:28-68 | after the command, which may revive a revoked binding, the subject is allowed everything on the platform tenant with scope all, or some other grant's condition errs |
| GroupProjection.LatestEventWins | internal/authorization/group_projection.go:34-78 | after any deliveries, reordered and repeated, each row carries the status and time of its latest event, or its old content if that is later |
| GroupProjection.DeliveriesConverge | internal/authorization/group_projection.go:100-110 | two delivery sequences of the same events agree on a row when its latest relevant events agree on the change |
| GroupProjection.ConvergenceExact | internal/authorization/group_projection.go:100-110 | every order of the same deliveries leaves the same status and time iff any two relevant events of greatest time, not older than the stored row, agree on the change |
| GroupProjection.MySqlUpsert | internal/authorization/group_projection.go:102-104 | the left-to-right assignments of the MySQL statement keep the later of the two events |
| GroupProjection.DialectsAgree | internal/authorization/group_projection.go:100-110 | on every event sequence both dialects leave the same status and source time |
| Outcomes.DisabledRoleDenies | internal/authorization/service.go:245-268 | disabling the only role that reaches a subject denies all its checks |
| Outcomes.DisabledPermissionDenies | internal/authorization/service.go:177-209 | disabling the only permission its roles lead to denies them |
| Outcomes.RevokedPairDenies | internal/authorization/service.go:390-409 | revoking the only role permission denies them |
| Outcomes.RevokedBindingDenies | internal/authorization/service.go:480-498 | revoking the only binding denies them |
| Outcomes.RemovedMemberDenied | internal/authorization/group_projection.go:34-78 | removing a member whose only way to roles is the group denies all its checks |
| Outcomes.AddedMemberHonoured | internal/authorization/group_projection.go:34-78 | adding a member to a bound group makes its checks honour the group's role |
| Outcomes.GroupEventExact | internal/authorization/group_projection.go:34-78 | a complete new addition or removal writes its one row, unless that is younger, and raises the version; any other event changes nothing |
| Outcomes.ProjectionExact | internal/authorization/group_projection.go:63-78 | the member's entries are dropped exactly for complete additions and removals |
| Outcomes.TenantCreationExact | internal/authorization/repository.go:338-373 | on a tenant without rows the bootstrap adds exactly the four reserved rows |
| Outcomes.CreationExact | internal/authorization/tenant_bootstrap_projection.go:27-62 | the owner's entries are dropped exactly when the transaction commits; blank ids are refused |
| Outcomes.MutationProjection | internal/authorization/service.go:729-758 | the tenant's entries are dropped exactly when the mutation takes effect |
| Outcomes.AdminGrantColumns | internal/bootstrap/admin.go:28-68 | the command takes effect iff its role is the active platform role with the reserved code, and then binds the subject to it |
| CacheKey.DecisionCacheKey | internal/authorization/service.go:693-704 | the key does not depend on the iteration order of the attribute map |
| CacheKey.KeyExact | internal/authorization/service.go:693-704 | the key is the NUL-joined six fields followed by the attributes as name=value in sorted order |
| CacheKey.KeysAreCanonical | internal/authorization/service.go:693-704 | two requests share a key iff tenant, subject, resource, lower-cased types and action, and attributes agree |
| CacheKey.CanonicalOver | internal/authorization/service.go:693-704 | the same over any vocabulary of attribute keys in which no key starts with another one followed by an equals sign |
| CacheKey.VocabularyExact | internal/authorization/service.go:700-702 | a vocabulary of NUL-free attribute keys is encoded canonically iff no key of it starts with another one followed by an equals sign |
| CacheKey.TenantPrefixExact | internal/authorization/service.go:669-678 | the tenant prefix matches exactly the keys of that tenant |
| CacheKey.SubjectPrefixExact | internal/authorization/service.go:635-643 | the subject prefix matches exactly the keys of that subject |
| DecisionCache.TenantInvalidationExact | internal/authorization/service.go:669-678 | an entry survives iff it belongs to another tenant |
| DecisionCache.SubjectInvalidationExact | internal/authorization/service.go:630-644 | an entry survives iff it belongs to another subject |
| DecisionCache.InvalidationsByPrefix | internal/authorization/service.go:630-678 | both invalidations drop exactly the keys with the trimmed prefix and keep the other entries as they are |
| DecisionCache.MaximaUnique | internal/authorization/service.go:680-691 | the cached versions do not depend on the iteration order |
| DecisionCache.RepairInGeneral | internal/authorization/decision_cache_runtime.go:114-125 | over any cache of request keys, repair removes exactly the entries whose tenant is the trimmed form of an outdated cached tenant |
| DecisionCache.RepairExact | internal/authorization/decision_cache_runtime.go:114-125 | where the cached tenants are trimmed, an entry is removed iff the poll answered and differs from its own tenant's greatest tag |
| DecisionCache.RepairByTags | internal/authorization/decision_cache_runtime.go:114-125 | in terms of the tags: an entry stays iff the poll failed or answered the greatest tag of its tenant |
| DecisionCache.UntrimmedTenantStays | internal/authorization/decision_cache_runtime.go:114-125 | the entries of an untrimmed tenant survive every repair, and when they are outdated those of the trimmed tenant go instead |
| DecisionCache.StaleTenantIsCleared | internal/authorization/decision_cache_runtime.go:114-125 | if every tag of a tenant is behind, none of its entries survives |
| Service.AuthorizationService.CachedDecision | internal/authorization/service.go:646-660 | a live entry is returned and kept, an expired one is deleted, nothing else changes |
| Service.AuthorizationService.InvalidateTenant | internal/authorization/service.go:669-678 | the loop deletes exactly the keys with the trimmed tenant prefix |
| Service.AuthorizationService.InvalidateSubject | internal/authorization/service.go:630-644 | refuses blank identifiers, otherwise deletes exactly the keys with the subject prefix |
| Service.AuthorizationService.CachedTenantVersions | internal/authorization/service.go:680-691 | the greatest tag of every cached tenant |
| Service.AuthorizationService.Repair | internal/authorization/decision_cache_runtime.go:114-125 | the cache after the pass is the repaired cache of the maxima |
| Service.AuthorizationService.Within | internal/database/transaction.go:22-44 | statements change the database in place, and a failure restores it |
| Service.AuthorizationService.Mutate | internal/authorization/service.go:729-758 | after a commit, and only then, the tenant's entries are removed |
| Service.AuthorizationService.ApplyGroupEvent | internal/authorization/group_projection.go:34-78 | the projected store, and the membership's entries removed |
| Service.AuthorizationService.ApplyTenantCreated | internal/authorization/tenant_bootstrap_projection.go:27-62 | the bootstrapped store, and the owner's entries removed |
| Service.AuthorizationService.GrantPlatformSuperAdmin | internal/bootstrap/admin.go:28-55 | on a store with the invariants it succeeds iff the trimmed subject is a non-empty user or service account and the active super-admin role exists; otherwise nothing changes, and no cache is touched |
| Service.AuthorizationService.Resolve | internal/authorization/repository.go:300-316 | the rows returned are exactly the joined grants, with the stored version or 0 |
| Service.AuthorizationService.CheckWithAttributes | internal/authorization/service.go:589-628 | a live entry is returned unchanged; otherwise the decision is the fresh one, and it is cached unless evaluation failed |
| Coherence.MutationKeepsFresh | internal/authorization/service.go:752-758 | after a mutation the surviving entries still equal fresh decisions |
| Coherence.GroupKeepsFresh | internal/authorization/group_projection.go:74-76 | invalidating one membership is enough after a group event |
| Coherence.BootstrapKeepsFresh | internal/authorization/tenant_bootstrap_projection.go:59-61 | invalidating the owner is enough after a bootstrap |
| Coherence.AdminKeepsFresh | internal/bootstrap/admin.go:28-55 | a super-admin grant, which reaches no cache, leaves the entries of every other subject right, on the platform too |
| Coherence.RunIsFresh | internal/authorization/service.go:589-678 | in every run, whatever its events contain, an entry of a request with trimmed tenant and, for a membership, trimmed subject equals the fresh decision on the current store, unless a check under its key decided otherwise or a super-admin grant named its subject |
| Coherence.HitsAreFresh | internal/authorization/service.go:589-628 | in every run of checks, mutations checked on outdated stores, events, invalidations and repairs, in which no other checked request shares the key and no super-admin grant names the subject, whatever a check of a request with trimmed identifiers returns is the fresh decision on the current store |
| Coherence.ProperKeysDiffer | internal/authorization/service.go:693-704 | lower-case requests without NUL and without an equals sign in attribute keys share a key only if they are equal, so they meet the condition |
| Coherence.AdminGrantExact | internal/bootstrap/admin.go:28-68 | whatever the super-admin role carries, after the grant an up-to-date entry of the named subject is still right iff no condition of the role errs, the entry is not a decision without any grant while the role gives one, and every matching grant of the role is within the decision's scope and units |
| Coherence.UnlimitedGrantExact | internal/bootstrap/admin.go:28-68 | while the role has scope all and an unconditional wildcard permission, that is: the entry already had scope all and no condition errs now |
| Coherence.SharedKeyExact | internal/authorization/service.go:693-704 | over all stores, hits of a member of a given set are fresh in every run whose checks lie in the set iff its identifiers are trimmed and no other member shares its key |
| Coherence.SharedKeysExact | internal/authorization/service.go:693-704 | all hits over the set are fresh iff all members have trimmed identifiers and no two different members share a key |
| Coherence.LetterCaseExact | internal/authorization/service.go:589-597 | with the lower-case permissions the service creates, hits are fresh iff the identifiers are trimmed and every checked request under the same key spells type and action alike: equal, or neither lower-case |
| Coherence.RunsHaveTidyKeys | internal/authorization/service.go:662-667 | in every run whose checks name trimmed, NUL-free tenants the cache keys are as the repair results ask |
| Coherence.RepairInRuns | internal/authorization/decision_cache_runtime.go:114-125 | a repair pass in such a run keeps an entry iff its tenant's greatest tag is current or the poll failed |
| Coherence.UntrimmedEntriesStay | internal/authorization/service.go:630-644 | the entry of the subject an event names leaves the cache iff the identifiers are trimmed |
| Coherence.WhiteSpaceExact | internal/authorization/service.go:630-678 | hits of a request are fresh in every run that checks nothing else iff its tenant and, for a membership, its subject are trimmed |
| Replicas.NextKeeps | internal/authorization/decision_cache_runtime.go:77-125 | every atomic step of every replica keeps the invariant on caches, checks in flight and answers |
| Replicas.HitAtOnce | internal/authorization/service.go:646-660 | the steps of a hit, undisturbed, are the service's check |
| Replicas.ReadsAtOnce | internal/authorization/repository.go:300-316 | the two reads of a check, undisturbed, give the grants and the version of the same store |
| Replicas.ResolvedAtOnce | internal/authorization/service.go:597-627 | followed by the storing, they cache and answer the fresh decision |
| Replicas.MissAtOnce | internal/authorization/service.go:589-627 | the steps of a miss, undisturbed, are the service's check |
| Replicas.EvictedAtOnce | internal/authorization/service.go:646-660 | looking up, testing and evicting an expired entry removes just that entry |
| Replicas.ExpiredAtOnce | internal/authorization/service.go:589-667 | an expired entry is replaced as by the service's check |
| Replicas.FailedAtOnce | internal/authorization/service.go:607-610 | if its replacement cannot be evaluated it is gone and nothing is answered, as by the service's check |
| Replicas.BoundedStaleness | internal/authorization/service.go:646-667 | in every interleaving each returned decision is that of a store that was current when its grants were read, and that read lies back by less than the TTL plus the entry's own read-to-store time |
| Replicas.VersionTagLaw | internal/authorization/repository.go:300-316 | a cached tag is the version at the grant read plus the tenant's commits between the two reads, hence at least the former, and equal when none fell between |
| Replicas.CurrentTag | internal/authorization/decision_cache_runtime.go:114-125 | a tag equals the current version iff nothing was committed since the version read, and then the entry is fresh iff the stores at the two reads decide the request alike |
| Replicas.TagsAreBounded | internal/authorization/repository.go:300-316 | in every interleaving no cached tag is ahead of the tenant's current version |
| Replicas.PollKeepsCurrentTags | internal/authorization/decision_cache_runtime.go:114-125 | with trimmed, NUL-free tenants a poll that answers the current versions keeps every entry whose tag is current, fresh or not |
| Replicas.CurrentTagOnOldDecision | internal/authorization/repository.go:300-316 | from any execution with a check between its two reads, any write that commits then leaves the decision of the store read first in the cache under the version after the write |
| Replicas.GrantBetweenReads | internal/bootstrap/admin.go:28-55 | an execution in which a super-admin grant is such a write and the cached decision is outdated under the current version |
| Replicas.MigratedIsExposed | migrations/kingbase/000006_platform_super_admin.up.sql:1-2 | the migrated database is a start of such an execution |
| Replicas.InvalidationsAreSteps | internal/authorization/service.go:630-678 | the tenant and subject invalidations of the service are steps of the interleaved model |
| Replicas.QuietTenantsAreExact | internal/authorization/service.go:593-627 | an answer equals the fresh decision on the latest store if no write of its tenant took effect within that time, however many messages were lost |
| RouteTables.ReviveStep | internal/routepolicy/repository.go:245-250 | a key that has a row, live or deleted, is written in place |
| RouteTables.RetiringReconciles | internal/routepolicy/repository.go:255-261 | after the last loop all unwanted rows are deleted, wanted ones live, one row per policy and key |
| RouteTables.LiveIsInput | internal/routepolicy/repository.go:199-263 | after a Set with distinct keys the live references are exactly the input |
| RouteTables.IdsSurvive | internal/routepolicy/repository.go:245-250 | a reference that ever had a row is loaded under that row's id |
| RoutePolicy.Repository.IndexByKey | internal/routepolicy/repository.go:236-243 | the index maps every key of the policy to its row |
| RoutePolicy.Repository.UpsertAll | internal/routepolicy/repository.go:244-254 | all wanted references are in place, or a reference was refused |
| RoutePolicy.Repository.RetireOthers | internal/routepolicy/repository.go:255-261 | exactly the rows of unwanted keys become deleted |
| RoutePolicy.Repository.Set | internal/routepolicy/repository.go:199-263 | a missing route and a stale version are reported exactly when they hold; a success is a reconciliation under the next version, every failure changes nothing |
| RoutePolicy.Assemble | internal/routepolicy/repository.go:77-95 | fails iff a reference of a read policy has an invalid scope; otherwise each definition holds its own references only |
| RoutePolicy.Repository.Load | internal/routepolicy/repository.go:65-108 | one definition per active policy with its columns and one permission per live reference, whose scope is the tenant, platform or principal scope exactly as the row names it |
| RoutePolicy.SetLoadRoundTrip | internal/routepolicy/repository.go:199-263 | the definition loaded after a Set carries exactly the input, under the next version and with the old ids |
| RoutePolicy.OtherDefinitionsUnchanged | internal/routepolicy/repository.go:65-96 | every other policy is loaded as before |
| RoutePolicy.ActiveAfterSet | internal/routepolicy/repository.go:69-72 | Load returns the policy after an active Set and omits it after a disabled one |
| RoutePolicy.Validate | internal/routepolicy/service.go:74-84 | accepts iff every trimmed reference is complete with a known scope and trimmed keys are distinct |
| RoutePolicy.AcceptedExact | internal/routepolicy/service.go:70-88 | input is accepted iff route and expression are not blank, the status is active or disabled, the version is not negative, the references are complete with one of the three scopes and distinct trimmed keys, and the trimmed policy compiles |
| RoutePolicy.SetPolicy | internal/routepolicy/service.go:64-89 | a known actor's input reaches the repository iff it is accepted; a missing route and a stale version are reported exactly when they hold; when stored, the route's policy has the trimmed fields at the next version, its live references are exactly the submitted ones and all other policies are as before; a constraint can fail only on an untrimmed scope |
| RoutePolicy.StoredIsLoaded | internal/routepolicy/service.go:64-89 | whatever Load returns for a stored submission carries each submitted reference with its named scope under its key, the trimmed expression and the next version |
| RoutePolicy.ValidatedIsLoadedExactly | internal/routepolicy/service.go:74-89 | what was validated is what Load returns iff every reference was submitted trimmed |
| RouteRuns.VersionsCountSets | internal/routepolicy/repository.go:213-233 | in every run a policy's version grows by exactly its successful Sets |
| RouteRuns.NoLostPolicy | internal/routepolicy/repository.go:220-233 | of two successful Sets of a policy the later one expected a greater version |
| RouteRuns.IdsAreForever | internal/routepolicy/repository.go:240-261 | a reference keeps its one row id through every later deletion and revival |

## Left out

- HTTP and gRPC transport, middleware, configuration, logging, metrics, tracing and health: plumbing around the core.
- List, search, batch-get and pagination queries and filter normalisation: they would add easy members only.
- CEL parsing and evaluation, the route-expression compiler, JWT, locks, idempotency and the outbox dispatcher: library code.
- Operation and security logs inside `mutate`: they run after the commit and can turn a committed change into a returned error; the results are about the store.
- routepolicy.Manager (refresh and polling) and SyncRoutes: they depend on a snapshot type and timestamps that are not part of this model.
- Display names, descriptions and audit columns of the authorization tables, and `deleted_at`, which no writer there sets.
- Retention of outbox rows; the outbox of the model only grows.
- MySQL `INSERT IGNORE` in the bootstrap, which silences foreign-key failures; the abort semantics of PostgreSQL and Kingbase is used.
- Unicode: `Lower` folds ASCII letters only, and only the white space listed in `Text.IsSpace` is trimmed.
- Redis messages: over-approximated in Replicas by invalidations that may happen at any time or never; message payloads are not modelled.
- Clocks: Replicas uses one clock for all replicas; an entry's expiry is written and compared by the same replica.
- Service.AuthorizationService.Resolve: the rows are a set, since repeated rows do not change a decision; errors of the database connection are not modelled.
- RoutePolicy.Repository.Load: its two queries read the same state, and they list rows in any order instead of by route and key.
- RoutePolicy.Repository.Set: new row ids are taken as unused, and policies are never deleted, as no code deletes them.
- GroupProjection.DeliveriesConverge: events whose timestamp is the year-one zero time, which the consumer replaces by its clock, are excluded.
- Coherence.HitsAreFresh: no other checked request shares the key, the identifiers of the request are trimmed, and no super-admin grant names the subject; `Coherence.SharedKeyExact` shows the first two conditions to be exact, `Coherence.AdminGrantExact` says exactly what a grant does.
- Coherence.WhiteSpaceExact: the runs start from any store with the invariants, so rows of an untrimmed tenant may exist, as an untrimmed tenant-created event makes them.
- Replicas.BoundedStaleness: the requests asked share no cache key, the condition that `Coherence.SharedKeysExact` shows to be exact for one process.
- Stronger repair claims: an entry older than its tenant's greatest tag survives a poll while that tag is current; only the TTL bounds it.
