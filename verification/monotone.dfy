/** Granting never narrows a decision and revoking never widens one. */
module Monotone {
  import opened Schema
  import opened Resolution
  import opened Transactions
  import opened TenantBootstrap

  /** GrantRolePermission (insert or revive), CreateBinding, a member added. */
  predicate Widening(w: Write) {
    || (w.Mutation? && (w.statement.InsertRolePermission? || w.statement.InsertBinding?
                        || (w.statement.UpdateRolePermission? && w.statement.status == Active)))
    || (w.GroupChanged? && w.status == Active)
  }

  /** RevokeRolePermission, RevokeBinding, a member removed. */
  predicate Narrowing(w: Write) {
    || (w.Mutation? && (w.statement.UpdateRolePermission? || w.statement.UpdateBinding?)
      && w.statement.status == Revoked)
    || (w.GroupChanged? && w.status == Removed)
  }

  ghost predicate SameJoinTables(s: Store, n: Store) {
    && n.permissions == s.permissions && n.roles == s.roles && n.rolePermissions == s.rolePermissions
    && n.bindings == s.bindings && n.groups == s.groups
  }

  lemma StatementWidens(s: Store, st: Statement, n: Store, r: Request)
    requires Rejection(s, st) == None && SameJoinTables(After(s, st), n)
    requires (st.InsertRolePermission? && !st.lenient) || (st.InsertBinding? && !st.lenient)
             || (st.UpdateRolePermission? && st.status == Active) || (st.UpsertGroup? && st.status == Active)
    ensures Grants(s, r) <= Grants(n, r)
  {
    forall b, g | Joins(s, r, b, g)
      ensures Joins(n, r, b, g) && GrantOf(s, r, b, g) == GrantOf(n, r, b, g)
    {
      assert b in n.bindings && g in n.rolePermissions;
    }
    GrantsWithin(s, n, r);
  }

  lemma StatementNarrows(s: Store, st: Statement, n: Store, r: Request)
    requires Rejection(s, st) == None && SameJoinTables(After(s, st), n)
    requires (st.UpdateRolePermission? && st.status != Active) || (st.UpdateBinding? && st.status != Active)
             || (st.UpsertGroup? && st.status != Active)
    ensures Grants(n, r) <= Grants(s, r)
  {
    forall b, g | Joins(n, r, b, g)
      ensures Joins(s, r, b, g) && GrantOf(n, r, b, g) == GrantOf(s, r, b, g)
    {
      assert b in s.bindings && g in s.rolePermissions;
    }
    GrantsWithin(n, s, r);
  }

  lemma WideningAddsGrants(s: Store, w: Write, r: Request)
    requires Widening(w) && Admissible(s, w)
    ensures Grants(s, r) <= Grants(Apply(s, w), r)
  {
    if w.Mutation? {
      MutationRuns(s, w);
      if Rejection(s, w.statement) == None {
        StatementWidens(s, w.statement, Apply(s, w), r);
      }
    } else {
      Redelivery(s, w);
      if w.eventId !in s.processed {
        GroupRuns(s, w);
        StatementWidens(s, UpsertGroup(GroupKey(w.tenant, w.membership, w.group), w.status, w.occurredAt), Apply(s, w),
                        r);
      }
    }
  }

  lemma NarrowingRemovesGrants(s: Store, w: Write, r: Request)
    requires Narrowing(w) && Admissible(s, w)
    ensures Grants(Apply(s, w), r) <= Grants(s, r)
  {
    if w.Mutation? {
      MutationRuns(s, w);
      if Rejection(s, w.statement) == None {
        StatementNarrows(s, w.statement, Apply(s, w), r);
      }
    } else {
      Redelivery(s, w);
      if w.eventId !in s.processed {
        GroupRuns(s, w);
        StatementNarrows(s, UpsertGroup(GroupKey(w.tenant, w.membership, w.group), w.status, w.occurredAt), Apply(s, w),
                         r);
      }
    }
  }

  /** Granting never narrows any decision in which no condition errs. */
  lemma GrantingNeverNarrows(cel: Cel, s: Store, w: Write, r: Request)
    requires Widening(w) && Admissible(s, w) && FreshVerdict(cel, Apply(s, w), r) != EvaluationError
    ensures FreshVerdict(cel, s, r) != EvaluationError
    ensures NotNarrower(FreshVerdict(cel, s, r), FreshVerdict(cel, Apply(s, w), r))
  {
    WideningAddsGrants(s, w, r);
    MoreGrantsNeverNarrow(cel, r, Grants(s, r), Grants(Apply(s, w), r));
  }

  /** Revoking never widens any decision in which no condition errs. */
  lemma RevokingNeverWidens(cel: Cel, s: Store, w: Write, r: Request)
    requires Narrowing(w) && Admissible(s, w) && FreshVerdict(cel, s, r) != EvaluationError
    ensures FreshVerdict(cel, Apply(s, w), r) != EvaluationError
    ensures NotNarrower(FreshVerdict(cel, Apply(s, w), r), FreshVerdict(cel, s, r))
  {
    NarrowingRemovesGrants(s, w, r);
    MoreGrantsNeverNarrow(cel, r, Grants(Apply(s, w), r), Grants(s, r));
  }
}
