/** Interactive confinement over whole runs: what a user's request writes, it writes in the
    one tenant the user manages. */
module Confinement {
  import opened Schema
  import opened Text
  import opened Resolution
  import opened Transactions
  import opened Access
  import opened Histories
  import opened Ledger
  import opened Granting

  /** Step `i` is a mutation that a user issued. */
  ghost predicate IssuedByUser(h: History, i: nat)
    requires i < |h.steps|
  {
    h.steps[i].write.Mutation? && h.steps[i].origin.Some? && Interactive(h.steps[i].origin.value.context)
  }

  lemma StepIsCleared(h: History, compiles: string -> bool, i: nat)
    requires ValidHistory(h, compiles) && i < |h.steps| && h.steps[i].write.Mutation?
    ensures h.steps[i].origin.Some? && h.steps[i].origin.value.snapshot <= i
    ensures Cleared(h.steps[i].origin.value.context, h.stores[h.steps[i].origin.value.snapshot], h.steps[i].write)
    ensures h.stores[i + 1] == Apply(h.stores[i], h.steps[i].write)
  {
    assert ValidStep(h, i, compiles);
  }

  /** In every run a user's write leaves all tenants but one alone, and that one is, up to
      surrounding white space, the tenant the user manages: exactly that one iff it is trimmed. */
  lemma UserWritesOneTenant(h: History, compiles: string -> bool, i: nat, u: string)
    requires ValidHistory(h, compiles) && i < |h.steps| && IssuedByUser(h, i)
    ensures Trim(h.steps[i].write.tenant) == ManagedTenant(h.steps[i].origin.value.context)
    ensures h.steps[i].write.tenant == ManagedTenant(h.steps[i].origin.value.context) <==>
            Trimmed(h.steps[i].write.tenant)
    ensures u != h.steps[i].write.tenant ==> SameSlice(h.stores[i], h.stores[i + 1], u)
  {
    StepIsCleared(h, compiles, i);
    TrimLaws(h.steps[i].write.tenant);
    if u != h.steps[i].write.tenant {
      WriteFrame(h.stores[i], h.steps[i].write, u);
    }
  }

  /** The events among the first `n` steps name trimmed tenants. */
  ghost predicate TidyEvents(h: History, n: nat)
    requires n <= |h.steps|
  {
    forall i :: 0 <= i < n && IsEvent(h.steps[i].write) ==> Trimmed(h.steps[i].write.tenant)
  }

  lemma StepTargetTrimmed(h: History, compiles: string -> bool, i: nat)
    requires ValidHistory(h, compiles) && i < |h.steps| && TidyEvents(h, i + 1)
    requires forall k :: 0 <= k <= i ==> Tidy(h.stores[k])
    ensures Trimmed(Target(h.steps[i].write))
  {
    if h.steps[i].write.Mutation? {
      StepIsCleared(h, compiles, i);
      var o := h.steps[i].origin.value;
      Reachable(h, compiles, o.snapshot);
      ClearedTenant(o.context, h.stores[o.snapshot], h.steps[i].write);
    }
  }

  lemma StepKeepsTidy(h: History, compiles: string -> bool, i: nat)
    requires ValidHistory(h, compiles) && i < |h.steps| && Tidy(h.stores[i]) && Trimmed(Target(h.steps[i].write))
    ensures Tidy(h.stores[i + 1])
  {
    ReachableStep(h, compiles, i);
    assert ValidStep(h, i, compiles);
    WriteKeepsTidy(h.stores[i], h.steps[i].write);
  }

  lemma {:induction false} RunsAreTidy(h: History, compiles: string -> bool, n: nat)
    requires ValidHistory(h, compiles) && n <= |h.steps| && Tidy(h.stores[0]) && TidyEvents(h, n)
    ensures forall k :: 0 <= k <= n ==> Tidy(h.stores[k])
  {
    if n > 0 {
      RunsAreTidy(h, compiles, n - 1);
      StepTargetTrimmed(h, compiles, n - 1);
      StepKeepsTidy(h, compiles, n - 1);
    }
  }

  /** With trimmed event tenants the written tenant is exactly the managed one, whatever the
      mutation, and however outdated the store it was checked on. */
  lemma UserWritesManagedTenant(h: History, compiles: string -> bool, i: nat, u: string)
    requires ValidHistory(h, compiles) && i < |h.steps| && IssuedByUser(h, i)
    requires Tidy(h.stores[0]) && TidyEvents(h, i)
    ensures h.steps[i].write.tenant == ManagedTenant(h.steps[i].origin.value.context)
    ensures u != ManagedTenant(h.steps[i].origin.value.context) ==> SameSlice(h.stores[i], h.stores[i + 1], u)
  {
    RunsAreTidy(h, compiles, i);
    UserWritesOneTenant(h, compiles, i, u);
    StepTargetTrimmed(h, compiles, i);
    TrimLaws(h.steps[i].write.tenant);
  }

  /** A mutation issued after AuthorizeUserManagementScope granted a scope writes rows of that
      scope's tenant only, and that tenant is the caller's own or the platform. */
  lemma ScopedWritesStayInScope(h: History, compiles: string -> bool, i: nat, u: string, ctx: Context,
                                selectedTenant: string,
                                scopeName: string, resource: string, action: string, check: Request -> CheckOutcome)
    requires ValidHistory(h, compiles) && i < |h.steps| && Tidy(h.stores[0]) && TidyEvents(h, i)
    requires h.steps[i].write.Mutation? && h.steps[i].origin.Some?
    requires AuthorizeUserManagementScope(ctx, selectedTenant, scopeName, resource, action, check).Granted?
    requires h.steps[i].origin.value.context
             == AuthorizeUserManagementScope(ctx, selectedTenant, scopeName, resource, action, check).context
    ensures
      var target := AuthorizeUserManagementScope(ctx, selectedTenant, scopeName, resource, action, check).target;
      && h.steps[i].write.tenant == target && ctx.caller.Some?
      && (target == Trim(ctx.caller.value.tenant) || target == PLATFORM)
      && (u != target ==> SameSlice(h.stores[i], h.stores[i + 1], u))
  {
    ManagementScope(ctx, selectedTenant, scopeName, resource, action, check);
    UserWritesManagedTenant(h, compiles, i, u);
  }

  /** The exception is real: a user who manages the trimmed tenant can write rows of an untrimmed
      one that exists beside it. */
  lemma UntrimmedTenantIsWritten(tenant: string, ctx: Context, compiles: string -> bool) returns (h: History)
    requires !Trimmed(tenant) && Interactive(ctx) && HasActor(ctx) && EnforceInteractiveTenant(ctx, tenant) == None
    ensures ValidHistory(h, compiles) && |h.steps| == 1 && IssuedByUser(h, 0) && h.steps[0].effective
    ensures h.steps[0].origin.value.context == ctx && h.steps[0].write.tenant == tenant != ManagedTenant(ctx)
  {
    var r := Request(tenant, "s", Membership, "", "", "", map[]);
    var w := GapWrite(tenant);
    h := History([GapStore(r), Apply(GapStore(r), w)], [Step(w, Some(Origin(ctx, GapOperation(tenant), 0)), true)]);
    GapIsGood(r);
    GapHistory(r, ctx, compiles, h);
    UserWritesOneTenant(h, compiles, 0, tenant);
  }

  lemma GapHistory(r: Request, ctx: Context, compiles: string -> bool, h: History)
    requires r.tenant != "" && HasActor(ctx) && EnforceInteractiveTenant(ctx, r.tenant) == None
    requires Untouched(GapStore(r)) && h.stores == [GapStore(r), Apply(GapStore(r), GapWrite(r.tenant))]
    requires h.steps == [Step(GapWrite(r.tenant), Some(Origin(ctx, GapOperation(r.tenant), 0)), true)]
    ensures ValidHistory(h, compiles)
  {
    GapIsIssued(r, ctx, compiles);
    assert ValidStep(h, 0, compiles);
  }
}
