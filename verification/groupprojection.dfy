/** The group projection: events delivered in any order and any number of times. */
module GroupProjection {
  import opened Schema
  import opened Transactions
  import opened TenantBootstrap

  datatype Change = MemberAdded | MemberRemoved | OtherChange

  datatype GroupEvent = GroupEvent(eventId: string, tenant: string, group: string, membership: string,
                                   change: Change, occurredAt: int)

  /** A delivery of an event; `now` is the consumer's clock. */
  datatype Delivery = Delivery(event: GroupEvent, now: int)

  /** time.Time{} in Unix seconds; only this time is replaced by the consumer's clock. */
  const ZERO_TIME: int := -62135596800

  function EffectiveTime(d: Delivery): int {
    if d.event.occurredAt == ZERO_TIME then d.now else d.event.occurredAt
  }

  /** Events that reach the transaction; the others are refused or ignored. */
  predicate Accepted(e: GroupEvent) {
    e.eventId != "" && e.tenant != "" && e.group != "" && e.membership != "" && e.change != OtherChange
  }

  function StatusOf(e: GroupEvent): Status {
    if e.change == MemberAdded then Active else Removed
  }

  function KeyOf(e: GroupEvent): GroupKey {
    GroupKey(e.tenant, e.membership, e.group)
  }

  function WriteOf(d: Delivery): Write {
    GroupChanged(d.event.eventId, d.event.tenant, d.event.membership, d.event.group, StatusOf(d.event),
                 EffectiveTime(d))
  }

  function Deliver(s: Store, d: Delivery): Store {
    if Accepted(d.event) then Apply(s, WriteOf(d)) else s
  }

  function DeliverAll(s: Store, ds: seq<Delivery>): Store {
    if ds == [] then s else Deliver(DeliverAll(s, ds[..|ds| - 1]), ds[|ds| - 1])
  }

  // ----- Convergence -----

  ghost function Events(ds: seq<Delivery>): set<GroupEvent> {
    set d | d in ds :: d.event
  }

  /** The events of a delivery sequence that can change row `key`. */
  ghost function Relevant(s: Store, ds: seq<Delivery>, key: GroupKey): set<GroupEvent> {
    set e | e in Events(ds) && Accepted(e) && KeyOf(e) == key && e.eventId !in s.processed
  }

  ghost predicate OneEventPerId(ds: seq<Delivery>) {
    forall d, e :: d in ds && e in ds && d.event.eventId == e.event.eventId ==> d.event == e.event
  }

  ghost predicate Timed(ds: seq<Delivery>) {
    forall d :: d in ds ==> d.event.occurredAt != ZERO_TIME
  }

  /** The row says what the event announced. */
  predicate Reflects(row: GroupRow, e: GroupEvent) {
    row.status == (if e.change == MemberAdded then Active else Removed)
  }

  /** `row` is what the events `es` should leave of `start`: the latest event wins, and an
      older row survives only if every event is older still. */
  ghost predicate Settled(start: Option<GroupRow>, es: set<GroupEvent>, row: Option<GroupRow>) {
    && (es == {} ==> row == start)
    && (es != {} ==>
          && row.Some?
          && (forall e :: e in es ==> e.occurredAt <= row.value.occurredAt)
          && (|| (exists e :: e in es && e.occurredAt == row.value.occurredAt && Reflects(row.value, e)
                              && (start.Some? ==> start.value.occurredAt <= e.occurredAt))
              || (start.Some? && row.value == start.value
                  && forall e :: e in es ==> e.occurredAt < start.value.occurredAt)))
  }

  lemma SettledStep(start: Option<GroupRow>, es: set<GroupEvent>, row: Option<GroupRow>, e: GroupEvent)
    requires Settled(start, es, row)
    ensures Settled(start, es + {e}, Some(UpsertedGroup(row, StatusOf(e), e.occurredAt)))
  {
    var after, more := UpsertedGroup(row, StatusOf(e), e.occurredAt), es + {e};
    assert e in more;
    if row.Some? && e.occurredAt < row.value.occurredAt && es != {} {
      if w :| w in es && w.occurredAt == row.value.occurredAt && Reflects(row.value, w)
              && (start.Some? ==> start.value.occurredAt <= w.occurredAt)
      {
        assert w in more;
      }
    }
  }

  lemma {:induction false} Processed(s: Store, ds: seq<Delivery>)
    ensures DeliverAll(s, ds).processed == s.processed + set d | d in ds && Accepted(d.event) :: d.event.eventId
  {
    if ds != [] {
      var d, before := ds[|ds| - 1], ds[..|ds| - 1];
      assert ds == before + [d];
      Processed(s, before);
      var mid := DeliverAll(s, before);
      if Accepted(d.event) {
        Redelivery(mid, WriteOf(d));
        if d.event.eventId !in mid.processed {
          GroupRuns(mid, WriteOf(d));
        }
      }
    }
  }

  lemma OneMoreEvent(ds: seq<Delivery>, d: Delivery)
    ensures Events(ds + [d]) == Events(ds) + {d.event}
  {
  }

  /** One more delivery keeps the row settled. */
  lemma OneMoreRelevant(s: Store, before: seq<Delivery>, d: Delivery, key: GroupKey)
    requires Accepted(d.event) && d.event.eventId !in s.processed
    ensures Relevant(s, before + [d], key) ==
            Relevant(s, before, key) + (if KeyOf(d.event) == key then {d.event} else {})
  {
    OneMoreEvent(before, d);
  }

  lemma DeliverySettles(s: Store, before: seq<Delivery>, d: Delivery, key: GroupKey)
    requires OneEventPerId(before + [d]) && Timed([d])
    requires Settled(GroupRowOf(s.groups, key), Relevant(s, before, key), GroupRowOf(DeliverAll(s, before).groups, key))
    ensures Settled(GroupRowOf(s.groups, key), Relevant(s, before + [d], key),
                    GroupRowOf(Deliver(DeliverAll(s, before), d).groups, key))
  {
    var mid := DeliverAll(s, before);
    assert d in [d];
    DeliveredRow(mid, d, key);
    if Accepted(d.event) && d.event.eventId !in mid.processed {
      Processed(s, before);
      OneMoreRelevant(s, before, d, key);
      if KeyOf(d.event) == key {
        SettledStep(GroupRowOf(s.groups, key), Relevant(s, before, key), GroupRowOf(mid.groups, key), d.event);
      }
    } else {
      RepeatedIsKnown(s, before, d, key);
    }
  }

  lemma DeliveredRow(s: Store, d: Delivery, key: GroupKey)
    ensures GroupRowOf(Deliver(s, d).groups, key) ==
            if Accepted(d.event) && d.event.eventId !in s.processed && KeyOf(d.event) == key
            then Some(UpsertedGroup(GroupRowOf(s.groups, key), StatusOf(d.event), EffectiveTime(d)))
            else GroupRowOf(s.groups, key)
  {
    if Accepted(d.event) {
      Redelivery(s, WriteOf(d));
      if d.event.eventId !in s.processed {
        GroupRuns(s, WriteOf(d));
      }
    }
  }

  lemma RepeatedIsKnown(s: Store, before: seq<Delivery>, d: Delivery, key: GroupKey)
    requires OneEventPerId(before + [d])
    requires Accepted(d.event) ==> d.event.eventId in DeliverAll(s, before).processed
    ensures Relevant(s, before + [d], key) == Relevant(s, before, key)
  {
    Processed(s, before);
    OneMoreEvent(before, d);
    if Accepted(d.event) && d.event.eventId !in s.processed {
      var e :| e in before && Accepted(e.event) && e.event.eventId == d.event.eventId;
      assert e in before + [d] && d in before + [d];
      assert e.event == d.event;
    }
  }

  /** Whatever the order and the repetitions, the row ends with the latest event. */
  lemma {:induction false} LatestEventWins(s: Store, ds: seq<Delivery>, key: GroupKey)
    requires OneEventPerId(ds) && Timed(ds)
    ensures Settled(GroupRowOf(s.groups, key), Relevant(s, ds, key), GroupRowOf(DeliverAll(s, ds).groups, key))
  {
    if ds != [] {
      var d, before := ds[|ds| - 1], ds[..|ds| - 1];
      assert ds == before + [d];
      LatestEventWins(s, before, key);
      DeliverySettles(s, before, d, key);
    }
  }

  /** The relevant events that can decide the row: of greatest time, and not older than the
      row that was there before. */
  ghost function DecidingEvents(s: Store, ds: seq<Delivery>, key: GroupKey): set<GroupEvent> {
    set e | e in Relevant(s, ds, key)
            && (forall f :: f in Relevant(s, ds, key) ==> f.occurredAt <= e.occurredAt)
            && (key in s.groups ==> s.groups[key].occurredAt <= e.occurredAt)
  }

  /** The latest events agree on what happened. */
  ghost predicate Decided(s: Store, ds: seq<Delivery>, key: GroupKey) {
    forall d, e :: d in DecidingEvents(s, ds, key) && e in DecidingEvents(s, ds, key) ==> d.change == e.change
  }

  /** Both sequences leave the same status and source time. */
  ghost predicate SameOutcome(s: Store, ds: seq<Delivery>, ds2: seq<Delivery>, key: GroupKey) {
    var row, row2 := GroupRowOf(DeliverAll(s, ds).groups, key), GroupRowOf(DeliverAll(s, ds2).groups, key);
    && (row.Some? <==> row2.Some?)
    && (row.Some? ==> row.value.status == row2.value.status && row.value.occurredAt == row2.value.occurredAt)
  }

  /** A settled row says what one of the latest events announced, or nothing was new enough. */
  lemma SettledBy(s: Store, ds: seq<Delivery>, key: GroupKey, row: GroupRow)
    requires Settled(GroupRowOf(s.groups, key), Relevant(s, ds, key), Some(row)) && Relevant(s, ds, key) != {}
    ensures || (exists e :: e in DecidingEvents(s, ds, key) && e.occurredAt == row.occurredAt && Reflects(row, e))
            || (key in s.groups && row == s.groups[key] && DecidingEvents(s, ds, key) == {})
  {
    var es := Relevant(s, ds, key);
    if e :| e in es && e.occurredAt == row.occurredAt && Reflects(row, e)
            && (key in s.groups ==> s.groups[key].occurredAt <= e.occurredAt)
    {
      assert e in DecidingEvents(s, ds, key);
    }
  }

  /** Convergence: two delivery sequences of the same events agree on the row if its latest
      events agree on the change. */
  lemma DeliveriesConverge(s: Store, ds: seq<Delivery>, ds2: seq<Delivery>, key: GroupKey)
    requires OneEventPerId(ds) && Timed(ds) && Events(ds) == Events(ds2) && Decided(s, ds, key)
    ensures SameOutcome(s, ds, ds2, key)
  {
    SameEventsProper(ds, ds2);
    LatestEventWins(s, ds, key);
    LatestEventWins(s, ds2, key);
    assert Relevant(s, ds, key) == Relevant(s, ds2, key);
    assert DecidingEvents(s, ds, key) == DecidingEvents(s, ds2, key);
    var row, row2 := GroupRowOf(DeliverAll(s, ds).groups, key), GroupRowOf(DeliverAll(s, ds2).groups, key);
    if Relevant(s, ds, key) != {} {
      SettledBy(s, ds, key, row.value);
      SettledBy(s, ds2, key, row2.value);
    }
  }

  lemma SameEventsProper(ds: seq<Delivery>, ds2: seq<Delivery>)
    requires OneEventPerId(ds) && Timed(ds) && Events(ds2) <= Events(ds)
    ensures OneEventPerId(ds2) && Timed(ds2)
  {
    forall d | d in ds2 ensures exists x :: x in ds && x.event == d.event {
      assert d.event in Events(ds2);
    }
  }

  /** The deliveries of all events but `e`. */
  ghost function Others(ds: seq<Delivery>, e: GroupEvent): (r: seq<Delivery>)
    ensures forall d :: d in r <==> d in ds && d.event != e
  {
    if ds == [] then []
    else
      var before, last := Others(ds[..|ds| - 1], e), ds[|ds| - 1];
      assert ds == ds[..|ds| - 1] + [last];
      if last.event == e then before else before + [last]
  }

  lemma MovedToEnd(ds: seq<Delivery>, d: Delivery)
    requires d in ds
    ensures Events(Others(ds, d.event) + [d]) == Events(ds) && Events(Others(ds, d.event)) == Events(ds) - {d.event}
  {
    var before := Others(ds, d.event);
    forall e | e in Events(ds) && e != d.event ensures e in Events(before) {
      var x :| x in ds && x.event == e;
      assert x in before;
    }
    OneMoreEvent(before, d);
    assert d.event in Events(ds);
  }

  /** One of the latest events, delivered last and only then, decides the status. */
  lemma LastDecides(s: Store, before: seq<Delivery>, d: Delivery, key: GroupKey)
    requires OneEventPerId(before + [d]) && Timed(before + [d])
    requires d.event in DecidingEvents(s, before + [d], key) && d.event !in Events(before)
    ensures key in DeliverAll(s, before + [d]).groups && Reflects(DeliverAll(s, before + [d]).groups[key], d.event)
  {
    var all := before + [d];
    var mid := DeliverAll(s, before);
    assert all[..|all| - 1] == before && d in all;
    assert forall x :: x in before ==> x in all && x.event in Events(before);
    Processed(s, before);
    DeliveredRow(mid, d, key);
    LatestEventWins(s, before, key);
    OneMoreEvent(before, d);
    assert Relevant(s, before, key) <= Relevant(s, all, key);
  }

  /** Some order of the deliveries ends with `d`. */
  lemma DecidingOrder(s: Store, ds: seq<Delivery>, d: Delivery, key: GroupKey) returns (order: seq<Delivery>)
    requires OneEventPerId(ds) && Timed(ds) && d in ds && d.event in DecidingEvents(s, ds, key)
    ensures Events(order) == Events(ds)
    ensures key in DeliverAll(s, order).groups && Reflects(DeliverAll(s, order).groups[key], d.event)
  {
    var before := Others(ds, d.event);
    order := before + [d];
    MovedToEnd(ds, d);
    SameEventsProper(ds, order);
    assert Relevant(s, order, key) == Relevant(s, ds, key);
    assert DecidingEvents(s, order, key) == DecidingEvents(s, ds, key);
    LastDecides(s, before, d, key);
  }

  /** If the latest events disagree, some order of the same deliveries ends differently. */
  lemma UndecidedDiverges(s: Store, ds: seq<Delivery>, key: GroupKey) returns (other: seq<Delivery>)
    requires OneEventPerId(ds) && Timed(ds) && !Decided(s, ds, key)
    ensures Events(other) == Events(ds) && !SameOutcome(s, ds, other, key)
  {
    var e, f :| e in DecidingEvents(s, ds, key) && f in DecidingEvents(s, ds, key) && e.change != f.change;
    assert Accepted(e) && Accepted(f);
    var d :| d in ds && d.event == e;
    var g :| g in ds && g.event == f;
    var first := DecidingOrder(s, ds, d, key);
    var second := DecidingOrder(s, ds, g, key);
    other := if SameOutcome(s, ds, first, key) then second else first;
  }

  /** Exactly when the order does not matter: every sequence of the same deliveries leaves the
      row as `ds` does iff the latest relevant events agree on the change. */
  lemma ConvergenceExact(s: Store, ds: seq<Delivery>, key: GroupKey)
    requires OneEventPerId(ds) && Timed(ds)
    ensures (forall ds2 :: Events(ds2) == Events(ds) ==> SameOutcome(s, ds, ds2, key)) <==> Decided(s, ds, key)
  {
    if Decided(s, ds, key) {
      forall ds2 | Events(ds2) == Events(ds) ensures SameOutcome(s, ds, ds2, key) {
        DeliveriesConverge(s, ds, ds2, key);
      }
    } else {
      var other := UndecidedDiverges(s, ds, key);
    }
  }

  // ----- The two SQL dialects -----

  /** MySQL: ON DUPLICATE KEY UPDATE assigns from left to right and GREATEST comes last; the
      update trigger raises the row version even when nothing else changes. */
  method MySqlUpsert(current: Option<GroupRow>, status: Status, occurredAt: int) returns (row: GroupRow)
    ensures row == MySqlRow(current, status, occurredAt)
  {
    if current == None { return GroupRow(status, occurredAt, 1); }
    row := current.value;
    row := row.(status := if occurredAt >= row.occurredAt then status else row.status);
    row := row.(occurredAt := if row.occurredAt >= occurredAt then row.occurredAt else occurredAt);
    row := row.(version := current.value.version + 1);
  }

  /** The same statement with GREATEST assigned first. */
  method MySqlUpsertTimeFirst(current: Option<GroupRow>, status: Status, occurredAt: int) returns (row: GroupRow)
    ensures row == MySqlRow(current, status, occurredAt)
  {
    if current == None { return GroupRow(status, occurredAt, 1); }
    row := current.value;
    row := row.(occurredAt := if row.occurredAt >= occurredAt then row.occurredAt else occurredAt);
    row := row.(status := if occurredAt >= row.occurredAt then status else row.status);
    row := row.(version := current.value.version + 1);
  }

  function MySqlRow(current: Option<GroupRow>, status: Status, occurredAt: int): GroupRow {
    match current
    case None => GroupRow(status, occurredAt, 1)
    case Some(row) =>
      if occurredAt >= row.occurredAt then GroupRow(status, occurredAt, row.version + 1)
      else GroupRow(row.status, row.occurredAt, row.version + 1)
  }

  function PostgresRows(events: seq<(Status, int)>): Option<GroupRow> {
    if events == [] then None
    else Some(UpsertedGroup(PostgresRows(events[..|events| - 1]), events[|events| - 1].0, events[|events| - 1].1))
  }

  function MySqlRows(events: seq<(Status, int)>): Option<GroupRow> {
    if events == [] then None
    else Some(MySqlRow(MySqlRows(events[..|events| - 1]), events[|events| - 1].0, events[|events| - 1].1))
  }

  /** On every sequence of upserts both dialects leave the same status and source time; the
      row version may differ, because the MySQL trigger counts stale events too. */
  lemma {:induction false} DialectsAgree(events: seq<(Status, int)>)
    ensures
      var p, m := PostgresRows(events), MySqlRows(events);
      && (p.Some? <==> m.Some?)
      && (p.Some? ==> p.value.status == m.value.status && p.value.occurredAt == m.value.occurredAt
                      && p.value.version <= m.value.version == |events|)
  {
    if events != [] {
      DialectsAgree(events[..|events| - 1]);
    }
  }
}
