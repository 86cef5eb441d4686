/**
 * What every statement keeps of the tables, and how far one statement may move them.
 * `Integrity` is the state invariant of the three tables; `Evolves` is the step relation that
 * every statement meets and from which the properties of whole runs are drawn.
 */
module Integrity {
  import opened Basics
  import opened Tables

  ghost predicate EventIdsOk(db: Db) {
    && 1 <= db.nextEvent && 1 <= db.nextDelivery && 1 <= db.nextDlq
    && (forall e :: e in db.events ==> 1 <= e < db.nextEvent)
  }

  /** A delivery has its event, which is not one the filter refused, and an attempt left while it
      is unsettled. */
  ghost predicate DeliveriesOk(db: Db, max: nat) {
    forall d :: d in db.deliveries ==>
      var row := db.deliveries[d];
      && 1 <= d < db.nextDelivery
      && row.event in db.events && db.events[row.event].status != Filtered
      && (Unsettled(row) ==> row.attempt < max)
  }

  /** A dead-letter row has its delivery, and that delivery is exhausted. */
  ghost predicate DlqOk(db: Db) {
    forall q :: q in db.dlq ==>
      && 1 <= q < db.nextDlq && db.dlq[q].delivery in db.deliveries
      && db.deliveries[db.dlq[q].delivery].status == Exhausted
  }

  /** The unique index on (source, delivery_id). */
  ghost predicate KeysUnique(events: map<nat, EventRow>) {
    forall e, f :: e in events && f in events && e != f ==>
      events[e].source != events[f].source || events[e].deliveryId != events[f].deliveryId
  }

  /** list_held parses quarantined_at unconditionally, so it must be there. */
  ghost predicate HeldHaveTime(events: map<nat, EventRow>) {
    forall e :: e in events && events[e].status == Quarantined ==> events[e].quarantinedAt.Some?
  }

  ghost predicate DbOk(db: Db, max: nat) {
    EventIdsOk(db) && DeliveriesOk(db, max) && DlqOk(db) && KeysUnique(db.events) && HeldHaveTime(db.events)
  }

  // -- one step -----------------------------------------------------------------------------

  /** Everything of an event row but what the detector, a release and the roll-up write. */
  predicate SameEvent(a: EventRow, b: EventRow) {
    a == b.(status := a.status, detection := a.detection, quarantinedAt := a.quarantinedAt)
  }

  predicate SameDelivery(a: DeliveryRow, b: DeliveryRow) {
    a.event == b.event && a.sink == b.sink
  }

  /** New ids are fresh, `filtered` is never gained nor lost, an event leaves only when settled. */
  ghost predicate EventsEvolve(db: Db, next: Db) {
    && db.nextEvent <= next.nextEvent
    && (forall e :: e in next.events ==>
          if e in db.events then
            SameEvent(db.events[e], next.events[e])
            && (next.events[e].status == Filtered <==> db.events[e].status == Filtered)
          else db.nextEvent <= e)
    && (forall e :: e in db.events && e !in next.events ==> !HasUnsettled(db, e))
  }

  /** Rows outside `changed` stay as they are, or go with their event once settled. */
  ghost predicate DeliveriesEvolve(db: Db, next: Db, changed: set<nat>) {
    && db.nextDelivery <= next.nextDelivery
    && (forall d :: d in next.deliveries ==>
          if d in db.deliveries then
            SameDelivery(db.deliveries[d], next.deliveries[d])
            && (d !in changed ==> next.deliveries[d] == db.deliveries[d])
          else
            db.nextDelivery <= d && next.deliveries[d].status == Pending && next.deliveries[d].attempt == 0)
    && (forall d :: d in db.deliveries && d !in next.deliveries ==>
          !Unsettled(db.deliveries[d]) && db.deliveries[d].event !in next.events)
  }

  ghost predicate DlqEvolves(db: Db, next: Db) {
    && db.nextDlq <= next.nextDlq
    && (forall q :: q in next.dlq ==>
          if q in db.dlq then next.dlq[q] == db.dlq[q] else db.nextDlq <= q)
  }

  ghost predicate Evolves(db: Db, next: Db, changed: set<nat>) {
    EventsEvolve(db, next) && DeliveriesEvolve(db, next, changed) && DlqEvolves(db, next)
  }

  lemma InsertEventKeeps(db: Db, ev: Inbound, max: nat)
    requires DbOk(db, max)
    ensures DbOk(InsertEvent(db, ev), max) && Evolves(db, InsertEvent(db, ev), {})
  {
    var next := InsertEvent(db, ev);
    if !KeyTaken(db, ev) {
      forall e, f | e in next.events && f in next.events && e != f
        ensures next.events[e].source != next.events[f].source || next.events[e].deliveryId != next.events[f].deliveryId
      {
        assert e in db.events ==> !SameKey(db.events[e], ev);
        assert f in db.events ==> !SameKey(db.events[f], ev);
      }
    }
  }

  /** The three statements that rewrite an event's status touch nothing else of the row. */
  lemma RestatusKeeps(db: Db, e: nat, row: EventRow, next: Db, max: nat)
    requires DbOk(db, max)
    requires e in db.events && SameEvent(db.events[e], row)
    requires row.status == Filtered <==> db.events[e].status == Filtered
    requires row.status == Quarantined ==> row.quarantinedAt.Some?
    requires next == db.(events := db.events[e := row])
    ensures DbOk(next, max) && Evolves(db, next, {})
  {
    assert KeysUnique(next.events) by {
      forall a, b | a in next.events && b in next.events && a != b
        ensures next.events[a].source != next.events[b].source
                || next.events[a].deliveryId != next.events[b].deliveryId
      {
        assert db.events[a].source != db.events[b].source || db.events[a].deliveryId != db.events[b].deliveryId;
      }
    }
  }

  lemma RecordDetectionKeeps(db: Db, e: nat, detection: Option<real>, status: EventStatus,
                             quarantinedAt: Option<real>, max: nat)
    requires DbOk(db, max)
    requires status != Filtered
    requires status == Quarantined ==> quarantinedAt.Some?
    ensures DbOk(RecordDetection(db, e, detection, status, quarantinedAt), max)
    ensures Evolves(db, RecordDetection(db, e, detection, status, quarantinedAt), {})
  {
    var next := RecordDetection(db, e, detection, status, quarantinedAt);
    if next != db {
      RestatusKeeps(db, e, next.events[e], next, max);
    }
  }

  lemma ReleaseEventKeeps(db: Db, e: nat, max: nat)
    requires DbOk(db, max)
    ensures DbOk(ReleaseEvent(db, e), max) && Evolves(db, ReleaseEvent(db, e), {})
  {
    if CanRelease(db, e) {
      RestatusKeeps(db, e, ReleaseEvent(db, e).events[e], ReleaseEvent(db, e), max);
    }
  }

  lemma SetStatusKeeps(db: Db, e: nat, status: EventStatus, max: nat)
    requires DbOk(db, max)
    requires status == Dispatched || status == Failed
    requires e in db.events ==> db.events[e].status != Filtered
    ensures DbOk(SetStatus(db, e, status), max) && Evolves(db, SetStatus(db, e, status), {})
  {
    if e in db.events {
      RestatusKeeps(db, e, SetStatus(db, e, status).events[e], SetStatus(db, e, status), max);
    }
  }

  /** A statement on the deliveries table alone. */
  lemma DeliveriesOnly(db: Db, next: Db, changed: set<nat>, max: nat)
    requires DbOk(db, max)
    requires next == db.(deliveries := next.deliveries, nextDelivery := next.nextDelivery)
    requires DeliveriesEvolve(db, next, changed)
    requires forall d :: d in db.deliveries ==> d in next.deliveries
    requires forall d :: d in db.deliveries && db.deliveries[d].status == Exhausted ==>
               next.deliveries[d].status == Exhausted
    requires forall d :: d in next.deliveries ==>
               && d < next.nextDelivery
               && (d in db.deliveries || (next.deliveries[d].event in db.events
                                          && db.events[next.deliveries[d].event].status != Filtered))
               && (Unsettled(next.deliveries[d]) ==> next.deliveries[d].attempt < max)
    ensures DbOk(next, max) && Evolves(db, next, changed)
  {
  }

  /** How row `d` stands after one row per listed sink was inserted: new, as it was, or absent. */
  ghost predicate RowAdded(db: Db, next: Db, e: nat, sinks: seq<string>, now: real, d: nat) {
    && (d in next.deliveries <==> d in db.deliveries || Within(d, db.nextDelivery, |sinks|))
    && (d in db.deliveries ==> next.deliveries[d] == db.deliveries[d])
    && (Within(d, db.nextDelivery, |sinks|) ==>
          next.deliveries[d] == DeliveryRow(e, sinks[d - db.nextDelivery], 0, Pending, Some(now)))
  }

  lemma InsertedRow(db: Db, e: nat, sinks: seq<string>, now: real, d: nat)
    ensures var rows := InsertAll(db, e, sinks, now).deliveries;
      && (d in rows <==> d in db.deliveries || Within(d, db.nextDelivery, |sinks|))
      && (d in rows ==> rows[d] == if Within(d, db.nextDelivery, |sinks|) then NewDelivery(e, sinks[d - db.nextDelivery], now)
                                   else db.deliveries[d])
  {
  }

  /** The inserted rows are one per listed sink, in listed order, and nothing else moves. */
  lemma InsertAllRow(db: Db, e: nat, sinks: seq<string>, now: real, d: nat)
    requires forall k :: k in db.deliveries ==> k < db.nextDelivery
    ensures RowAdded(db, InsertAll(db, e, sinks, now), e, sinks, now, d)
  {
    InsertedRow(db, e, sinks, now, d);
  }

  lemma InsertAllKeeps(db: Db, e: nat, sinks: seq<string>, now: real, max: nat)
    requires DbOk(db, max) && 0 < max
    requires e in db.events && db.events[e].status != Filtered
    ensures DbOk(InsertAll(db, e, sinks, now), max) && Evolves(db, InsertAll(db, e, sinks, now), {})
  {
    DeliveriesOnly(db, InsertAll(db, e, sinks, now), {}, max);
  }

  lemma ClaimKeeps(db: Db, claimed: set<nat>, now: real, max: nat)
    requires DbOk(db, max)
    requires claimed <= Due(db, now)
    ensures DbOk(Claim(db, claimed), max) && Evolves(db, Claim(db, claimed), claimed)
  {
    DeliveriesOnly(db, Claim(db, claimed), claimed, max);
  }

  /** An attempt's outcome: settled, or pending again with an attempt still left. */
  lemma UpdateKeeps(db: Db, d: nat, status: DeliveryStatus, nextAt: Option<real>, max: nat)
    requires DbOk(db, max)
    requires status != InFlight
    requires d in db.deliveries && status == Pending ==> db.deliveries[d].attempt + 1 < max
    requires d in db.deliveries && status != Exhausted ==> db.deliveries[d].status != Exhausted
    ensures DbOk(Update(db, d, status, nextAt), max) && Evolves(db, Update(db, d, status, nextAt), {d})
  {
    DeliveriesOnly(db, Update(db, d, status, nextAt), {d}, max);
  }

  lemma RequeueKeeps(db: Db, now: real, max: nat)
    requires DbOk(db, max)
    ensures DbOk(Requeue(db, now), max)
    ensures Evolves(db, Requeue(db, now), set d | d in db.deliveries && Unsettled(db.deliveries[d]))
  {
    DeliveriesOnly(db, Requeue(db, now), (set d | d in db.deliveries && Unsettled(db.deliveries[d])), max);
  }

  lemma InsertDlqKeeps(db: Db, d: nat, now: real, max: nat)
    requires DbOk(db, max)
    requires d in db.deliveries && db.deliveries[d].status == Exhausted
    ensures DbOk(InsertDlq(db, d, now), max) && Evolves(db, InsertDlq(db, d, now), {})
  {
  }

  lemma SweepDlqKeeps(db: Db, before: real, max: nat)
    requires DbOk(db, max)
    ensures DbOk(SweepDlq(db, before), max) && Evolves(db, SweepDlq(db, before), {})
  {
  }

  lemma SweepEventsKeeps(db: Db, before: real, max: nat)
    requires DbOk(db, max)
    ensures DbOk(SweepEvents(db, before), max) && Evolves(db, SweepEvents(db, before), {})
  {
    forall d | CascadesAway(db, d, before) ensures !Unsettled(db.deliveries[d]) {
      assert !HasUnsettled(db, db.deliveries[d].event);
    }
  }
}
