/**
 * store/sqlite.py: the object that owns the tables. Each method is the method of the same name, over
 * fields that it reassigns, proved against the statement functions of `Tables`.
 */
module Store {
  import opened Basics
  import opened Tables
  import opened Integrity

  /** _settle_event_for, run through without a statement of anyone else in between. */
  ghost function Settle(db: Db, d: nat, failed: bool): Db {
    if d !in db.deliveries then db
    else
      var e := db.deliveries[d].event;
      if HasUnsettled(db, e) then db
      else SetStatus(db, e, if failed || HasExhausted(db, e) then Failed else Dispatched)
  }

  ghost function MarkDeliveredTables(db: Db, d: nat): Db {
    Settle(Update(db, d, Delivered, None), d, false)
  }

  ghost function MarkExhaustedTables(db: Db, d: nat, now: real): Db {
    var updated := Update(db, d, Exhausted, None);
    if d in updated.deliveries then Settle(InsertDlq(updated, d, now), d, true) else updated
  }

  // -- what a caller gets ------------------------------------------------------------------------------

  /** The attempt of `d` has ended in `status`: one attempt more, no other row touched. */
  ghost predicate AttemptEnded(before: map<nat, DeliveryRow>, after: map<nat, DeliveryRow>, d: nat, status: DeliveryStatus) {
    && d in before && after.Keys == before.Keys
    && SameDelivery(after[d], before[d]) && after[d].attempt == before[d].attempt + 1 && after[d].status == status
    && (status != Pending ==> after[d].nextAt == None)
    && forall k :: k in before && k != d ==> after[k] == before[k]
  }

  ghost predicate Has(db: Db, f: nat, status: DeliveryStatus) {
    exists k :: k in db.deliveries && db.deliveries[k].event == f && db.deliveries[k].status == status
  }

  /** Every delivery of the event has been delivered or dead-lettered. */
  ghost predicate Finished(db: Db, f: nat) {
    !Has(db, f, Pending) && !Has(db, f, InFlight)
  }

  /** The event of `d` has the status its deliveries call for exactly when none of them is unsettled;
      nothing else of any event has changed. */
  ghost predicate EventRolledUp(before: map<nat, EventRow>, db: Db, d: nat) {
    && db.events.Keys == before.Keys
    && forall f :: f in before ==>
         if d in db.deliveries && f == db.deliveries[d].event && Finished(db, f) then
           db.events[f] == before[f].(status := if Has(db, f, Exhausted) then Failed else Dispatched)
         else db.events[f] == before[f]
  }

  /** One row per sink in order, with consecutive ids: pending, untried, due at once. */
  ghost predicate RowsQueued(db: Db, e: nat, sinks: seq<string>, first: nat, now: real) {
    forall d: nat :: Within(d, first, |sinks|) ==>
      d in db.deliveries && db.deliveries[d] == DeliveryRow(e, sinks[d - first], 0, Pending, Some(now))
  }

  /** The event's deliveries are exactly these sinks, in this order, once each, pending and untried. */
  ghost predicate QueuedExactly(db: Db, e: nat, sinks: seq<string>, first: nat, now: real) {
    && RowsQueued(db, e, sinks, first, now)
    && (forall d :: d in db.deliveries && db.deliveries[d].event == e ==> Within(d, first, |sinks|))
  }

  lemma FirstDispatchQueuesExactly(db: Db, e: nat, sinks: seq<string>, now: real)
    requires forall d :: d in db.deliveries ==> d < db.nextDelivery
    requires CanEnqueueFirst(db, e, sinks)
    ensures QueuedExactly(EnqueueFirst(db, e, sinks, now), e, sinks, db.nextDelivery, now)
  {
    var next := InsertAll(db, e, sinks, now);
    assert forall d :: d in db.deliveries ==> db.deliveries[d].event != e;
    forall d: nat ensures RowAdded(db, next, e, sinks, now, d) {
      InsertAllRow(db, e, sinks, now, d);
    }
    forall d | d in next.deliveries && next.deliveries[d].event == e ensures Within(d, db.nextDelivery, |sinks|) {
      assert RowAdded(db, next, e, sinks, now, d);
    }
    forall d: nat | Within(d, db.nextDelivery, |sinks|)
      ensures d in next.deliveries && next.deliveries[d] == DeliveryRow(e, sinks[d - db.nextDelivery], 0, Pending, Some(now))
    {
      assert RowAdded(db, next, e, sinks, now, d);
    }
  }

  lemma SettleRollsUp(db: Db, d: nat, failed: bool)
    requires failed ==> d in db.deliveries && db.deliveries[d].status == Exhausted
    ensures EventRolledUp(db.events, Settle(db, d, failed), d)
    ensures Settle(db, d, failed) == db.(events := Settle(db, d, failed).events)
  {
  }

  lemma DeliveredRollsUp(db: Db, d: nat)
    requires d in db.deliveries
    ensures var next := MarkDeliveredTables(db, d);
      && AttemptEnded(db.deliveries, next.deliveries, d, Delivered) && EventRolledUp(db.events, next, d)
      && next.dlq == db.dlq
  {
    SettleRollsUp(Update(db, d, Delivered, None), d, false);
  }

  /** Dead-lettering the last unsettled delivery of an event makes the event `failed`. */
  lemma ExhaustedRollsUp(db: Db, d: nat, now: real)
    requires d in db.deliveries
    ensures var next := MarkExhaustedTables(db, d, now);
      && AttemptEnded(db.deliveries, next.deliveries, d, Exhausted) && EventRolledUp(db.events, next, d)
      && next.dlq == db.dlq[db.nextDlq := DlqRow(d, now)]
      && (db.deliveries[d].event in next.events && Finished(next, db.deliveries[d].event) ==>
            next.events[db.deliveries[d].event].status == Failed)
  {
    var marked := InsertDlq(Update(db, d, Exhausted, None), d, now);
    SettleRollsUp(marked, d, true);
    assert HasExhausted(marked, db.deliveries[d].event);
  }

  // -- the inner SELECT of claim_due_deliveries always has an answer ---------------------------------

  lemma {:induction false} EarliestExists(db: Db, ids: set<nat>) returns (first: nat)
    requires ids != {} && ids <= db.deliveries.Keys
    ensures first in ids
    ensures forall d :: d in ids ==> NoLater(db.deliveries[first].nextAt, db.deliveries[d].nextAt)
    decreases |ids|
  {
    first :| first in ids;
    if ids - {first} != {} {
      var other := EarliestExists(db, ids - {first});
      var one := first;
      if !NoLater(db.deliveries[first].nextAt, db.deliveries[other].nextAt) { first := other; }
      forall d | d in ids ensures NoLater(db.deliveries[first].nextAt, db.deliveries[d].nextAt) {
        if d != one { assert d in ids - {one}; }
      }
    } else {
      assert ids == {first};
    }
  }

  /** Whatever is due, a batch can be claimed, and it is empty only when nothing is due. */
  lemma {:induction false} ClaimExists(db: Db, now: real, limit: nat) returns (claimed: set<nat>)
    ensures IsClaim(db, now, limit, claimed)
    ensures limit > 0 && Due(db, now) != {} ==> claimed != {}
  {
    if limit == 0 {
      claimed := {};
    } else {
      var fewer := ClaimExists(db, now, limit - 1);
      var rest := Due(db, now) - fewer;
      if rest == {} {
        claimed := fewer;
        assert fewer == Due(db, now);
      } else {
        var first := EarliestExists(db, rest);
        claimed := fewer + {first};
        assert |fewer| < |Due(db, now)| by {
          assert Due(db, now) == fewer + rest;
        }
      }
    }
  }

  lemma InsertAllQueues(db: Db, e: nat, sinks: seq<string>, now: real)
    ensures RowsQueued(InsertAll(db, e, sinks, now), e, sinks, db.nextDelivery, now)
  {
  }

  /** What is due and left behind was left because the batch is full of rows that come no later. */
  lemma ClaimTakesTheEarliest(db: Db, now: real, limit: nat, claimed: set<nat>)
    requires IsClaim(db, now, limit, claimed)
    ensures |claimed| <= limit && forall d :: d in claimed ==> d in db.deliveries && DueBy(db.deliveries[d], now)
    ensures forall d :: d in db.deliveries && d !in claimed && DueBy(db.deliveries[d], now) ==>
      |claimed| == limit && forall c :: c in claimed ==> SortsFirst(db.deliveries[c].nextAt, db.deliveries[d].nextAt)
  {
    forall d | d in db.deliveries && d !in claimed && DueBy(db.deliveries[d], now)
      ensures |claimed| == limit && forall c :: c in claimed ==> SortsFirst(db.deliveries[c].nextAt, db.deliveries[d].nextAt)
    {
      assert d in Due(db, now) - claimed;
      assert |Due(db, now) - claimed| == |Due(db, now)| - |claimed|;
    }
  }

  /** A delivery the worker may take: waiting, with no next time or one that has come. */
  predicate DueBy(row: DeliveryRow, now: real) {
    row.status == Pending && (row.nextAt == None || row.nextAt.value <= now)
  }

  /** The order of next_attempt_at, in which NULL comes first. */
  predicate SortsFirst(a: Option<real>, b: Option<real>) {
    a == None || (b != None && a.value <= b.value)
  }

  class SqliteStore {
    var events: map<nat, EventRow>
    var deliveries: map<nat, DeliveryRow>
    var dlq: map<nat, DlqRow>
    var nextEvent: nat
    var nextDelivery: nat
    var nextDlq: nat

    constructor ()
      ensures Tables() == EmptyDb
    {
      events, deliveries, dlq := map[], map[], map[];
      nextEvent, nextDelivery, nextDlq := 1, 1, 1;
    }

    function Tables(): Db
      reads this
    {
      Db(events, deliveries, dlq, nextEvent, nextDelivery, nextDlq)
    }

    /** A duplicate is told so, with the original's id, and changes nothing; otherwise everything the request
        brought is stored under a new id. */
    method RecordEvent(ev: Inbound) returns (id: nat, duplicate: bool)
      modifies this
      ensures Tables() == InsertEvent(old(Tables()), ev)
      ensures duplicate == KeyTaken(old(Tables()), ev)
      ensures id in events && events[id].source == ev.source && events[id].deliveryId == ev.deliveryId
      ensures duplicate <==> exists e :: e in old(events) && old(events)[e].source == ev.source && old(events)[e].deliveryId == ev.deliveryId
      ensures duplicate ==> Tables() == old(Tables())
      ensures !duplicate ==>
        && id == old(nextEvent) && nextEvent == id + 1 && events.Keys == old(events.Keys) + {id}
        && events[id].eventType == ev.eventType && events[id].body == ev.body && events[id].receivedAt == ev.receivedAt
        && events[id].sinks == Some(ev.sinks) && events[id].status == (if ev.filtered then Filtered else Received)
        && events[id].detection == None && events[id].quarantinedAt == None
        && forall f :: f in old(events) && f != id ==> events[f] == old(events)[f]
      ensures deliveries == old(deliveries) && dlq == old(dlq)
    {
      if e :| e in events && SameKey(events[e], ev) {
        return e, true;
      }
      id, duplicate := nextEvent, false;
      events, nextEvent := events[nextEvent := NewEvent(ev)], nextEvent + 1;
    }

    method InsertDelivery(e: nat, sink: string, now: real) returns (id: nat)
      modifies this
      ensures Tables() == Added(old(Tables()), e, sink, now) && id == old(nextDelivery)
    {
      id := nextDelivery;
      deliveries, nextDelivery := deliveries[nextDelivery := NewDelivery(e, sink, now)], nextDelivery + 1;
    }

    /** One INSERT per sink; the foreign key stops it when the event is gone. */
    method EnqueueDeliveries(e: nat, sinks: seq<string>, now: real) returns (ids: seq<nat>)
      modifies this
      ensures Tables() == if e in old(events) then InsertAll(old(Tables()), e, sinks, now) else old(Tables())
      ensures |ids| == if e in old(events) then |sinks| else 0
      ensures e in old(events) ==> RowsQueued(Tables(), e, sinks, old(nextDelivery), now)
      ensures forall k :: 0 <= k < |ids| ==> ids[k] == old(nextDelivery) + k
    {
      ids := [];
      if e !in events { return; }
      ghost var start := Tables();
      for i := 0 to |sinks|
        invariant Tables() == InsertSome(start, e, sinks, i, now)
        invariant |ids| == i && forall k :: 0 <= k < i ==> ids[k] == start.nextDelivery + k
        invariant nextDelivery == start.nextDelivery + i
      {
        var id := InsertDelivery(e, sinks[i], now);
        ids := ids + [id];
      }
      InsertSomeIsAll(start, e, sinks, |sinks|, now);
      assert sinks[..|sinks|] == sinks;
      InsertAllQueues(start, e, sinks, now);
    }

    /** One row per listed sink or none at all; once it has inserted, no further call for the event will. */
    method EnqueueFirstDeliveries(e: nat, sinks: seq<string>, now: real) returns (queued: nat)
      modifies this
      ensures Tables() == EnqueueFirst(old(Tables()), e, sinks, now)
      ensures queued == if CanEnqueueFirst(old(Tables()), e, sinks) then |sinks| else 0
      ensures queued > 0 <==>
        && sinks != [] && e in old(events) && old(events)[e].status == Received
        && forall d :: d in old(deliveries) ==> old(deliveries)[d].event != e
      ensures queued == 0 ==> Tables() == old(Tables())
      ensures queued > 0 ==> forall more :: !CanEnqueueFirst(Tables(), e, more)
      ensures queued > 0 && (forall d :: d in old(deliveries) ==> d < old(nextDelivery)) ==>
        QueuedExactly(Tables(), e, sinks, old(nextDelivery), now)
    {
      queued := 0;
      if sinks == [] || HasDeliveries(Tables(), e) || e !in events || events[e].status != Received { return; }
      ghost var start := Tables();
      while queued < |sinks|
        invariant queued <= |sinks| && Tables() == InsertSome(start, e, sinks, queued, now)
      {
        var id := InsertDelivery(e, sinks[queued], now);
        queued := queued + 1;
      }
      InsertSomeIsAll(start, e, sinks, |sinks|, now);
      assert sinks[..|sinks|] == sinks;
      FirstDispatchIsOver(start, e, sinks, now);
    }

    /** ORDER BY next_attempt_at LIMIT 1 over the rows not yet taken. */
    method Earliest(ids: set<nat>) returns (first: nat)
      requires ids != {} && ids <= deliveries.Keys
      ensures first in ids
      ensures forall d :: d in ids ==> NoLater(deliveries[first].nextAt, deliveries[d].nextAt)
    {
      first :| first in ids;
      var rest := ids - {first};
      while rest != {}
        invariant first in ids && rest <= ids
        invariant forall d :: d in ids && d !in rest ==> NoLater(deliveries[first].nextAt, deliveries[d].nextAt)
        decreases |rest|
      {
        var d :| d in rest;
        if !NoLater(deliveries[first].nextAt, deliveries[d].nextAt) { first := d; }
        rest := rest - {d};
      }
    }

    /** ORDER BY next_attempt_at LIMIT `limit`. */
    method PickEarliest(due: set<nat>, limit: nat) returns (picked: set<nat>)
      requires due <= deliveries.Keys
      ensures picked <= due && |picked| == (if |due| < limit then |due| else limit)
      ensures forall c, d :: c in picked && d in due - picked ==> NoLater(deliveries[c].nextAt, deliveries[d].nextAt)
    {
      picked := {};
      var rest := due;
      while |picked| < limit && rest != {}
        invariant picked + rest == due && picked !! rest && |picked| <= limit
        invariant forall c, d :: c in picked && d in rest ==> NoLater(deliveries[c].nextAt, deliveries[d].nextAt)
        decreases |rest|
      {
        var first := Earliest(rest);
        picked := picked + {first};
        rest := rest - {first};
      }
      assert due - picked == rest && |due| == |picked| + |rest|;
    }

    method ClaimDueDeliveries(now: real, limit: nat) returns (claimed: set<nat>)
      modifies this
      ensures IsClaim(old(Tables()), now, limit, claimed)
      ensures Tables() == Claim(old(Tables()), claimed)
      ensures |claimed| <= limit
      ensures forall d :: d in claimed ==> d in old(deliveries) && DueBy(old(deliveries)[d], now)
      ensures forall d :: d in old(deliveries) && d !in claimed && DueBy(old(deliveries)[d], now) ==>
        |claimed| == limit && forall c :: c in claimed ==> SortsFirst(old(deliveries)[c].nextAt, old(deliveries)[d].nextAt)
      ensures deliveries.Keys == old(deliveries.Keys) && forall d :: d in deliveries ==>
        deliveries[d] == if d in claimed then old(deliveries)[d].(status := InFlight) else old(deliveries)[d]
    {
      var due := set d | d in deliveries && IsDue(deliveries[d], now);
      claimed := PickEarliest(due, limit);
      assert due == Due(Tables(), now);
      ClaimTakesTheEarliest(Tables(), now, limit, claimed);
      deliveries := map d | d in deliveries :: if d in claimed then deliveries[d].(status := InFlight) else deliveries[d];
    }

    /** The row waits again, one attempt used, if it is still in flight; otherwise nothing happens. */
    method ReleaseClaim(d: nat, nextAt: real) returns (released: bool)
      modifies this
      ensures released == CanReleaseClaim(old(Tables()), d)
      ensures Tables() == if released then Update(old(Tables()), d, Pending, Some(nextAt)) else old(Tables())
      ensures released ==>
        && AttemptEnded(old(deliveries), deliveries, d, Pending)
        && forall now: real :: IsDue(deliveries[d], now) <==> nextAt <= now
    {
      released := d in deliveries && deliveries[d].status == InFlight;
      if released {
        deliveries := deliveries[d := deliveries[d].(attempt := deliveries[d].attempt + 1, status := Pending, nextAt := Some(nextAt))];
      }
    }

    method SettleEventFor(d: nat, failed: bool)
      modifies this
      ensures Tables() == Settle(old(Tables()), d, failed)
      ensures deliveries == old(deliveries) && dlq == old(dlq)
      ensures (failed ==> d in deliveries && deliveries[d].status == Exhausted) ==> EventRolledUp(old(events), Tables(), d)
    {
      if !failed || (d in deliveries && deliveries[d].status == Exhausted) { SettleRollsUp(Tables(), d, failed); }
      if d !in deliveries { return; }
      var e := deliveries[d].event;
      if HasUnsettled(Tables(), e) { return; }
      var anyFailed := failed || HasExhausted(Tables(), e);
      if e in events {
        events := events[e := events[e].(status := if anyFailed then Failed else Dispatched)];
      }
    }

    method MarkDelivered(d: nat)
      modifies this
      ensures Tables() == MarkDeliveredTables(old(Tables()), d)
      ensures d in old(deliveries) ==>
        && AttemptEnded(old(deliveries), deliveries, d, Delivered) && EventRolledUp(old(events), Tables(), d)
        && dlq == old(dlq)
      ensures d !in old(deliveries) ==> Tables() == old(Tables())
    {
      if d in deliveries {
        DeliveredRollsUp(Tables(), d);
        deliveries := deliveries[d := deliveries[d].(attempt := deliveries[d].attempt + 1, status := Delivered, nextAt := None)];
      }
      SettleEventFor(d, false);
    }

    /** The row waits: one attempt used, and due from `nextAt` on. */
    method MarkRetry(d: nat, nextAt: real)
      modifies this
      ensures Tables() == Update(old(Tables()), d, Pending, Some(nextAt))
      ensures d in old(deliveries) ==>
        && AttemptEnded(old(deliveries), deliveries, d, Pending)
        && forall now: real :: IsDue(deliveries[d], now) <==> nextAt <= now
      ensures d !in old(deliveries) ==> deliveries == old(deliveries)
      ensures events == old(events) && dlq == old(dlq)
    {
      if d in deliveries {
        deliveries := deliveries[d := deliveries[d].(attempt := deliveries[d].attempt + 1, status := Pending, nextAt := Some(nextAt))];
      }
    }

    /** False when the foreign key of dlq refused the row, the delivery being gone. */
    method MarkExhausted(d: nat, now: real) returns (ok: bool)
      modifies this
      ensures ok == (d in old(deliveries))
      ensures Tables() == MarkExhaustedTables(old(Tables()), d, now)
      ensures ok ==>
        && AttemptEnded(old(deliveries), deliveries, d, Exhausted) && EventRolledUp(old(events), Tables(), d)
        && dlq == old(dlq)[old(nextDlq) := DlqRow(d, now)]
        && (deliveries[d].event in events && Finished(Tables(), deliveries[d].event) ==>
              events[deliveries[d].event].status == Failed)
      ensures !ok ==> Tables() == old(Tables())
    {
      ok := d in deliveries;
      if ok {
        ExhaustedRollsUp(Tables(), d, now);
        deliveries := deliveries[d := deliveries[d].(attempt := deliveries[d].attempt + 1, status := Exhausted, nextAt := None)];
        dlq, nextDlq := dlq[nextDlq := DlqRow(d, now)], nextDlq + 1;
        SettleEventFor(d, true);
      }
    }

    method RequeueIncomplete(now: real) returns (count: nat)
      modifies this
      ensures Tables() == Requeue(old(Tables()), now)
      ensures count == |set d | d in old(deliveries) && Unsettled(old(deliveries[d]))|
      ensures deliveries.Keys == old(deliveries.Keys) && forall d :: d in deliveries ==>
        if old(deliveries)[d].status == Delivered || old(deliveries)[d].status == Exhausted then deliveries[d] == old(deliveries)[d]
        else deliveries[d] == old(deliveries)[d].(status := Pending, nextAt := Some(now))
    {
      count := |set d | d in deliveries && Unsettled(deliveries[d])|;
      deliveries := map d | d in deliveries ::
        if Unsettled(deliveries[d]) then deliveries[d].(status := Pending, nextAt := Some(now)) else deliveries[d];
    }

    /** A verdict that comes too late changes nothing; one that withholds keeps every first dispatch out, and
        keeps out every later verdict too. */
    method RecordVerdict(e: nat, detection: Option<real>, status: EventStatus, quarantinedAt: Option<real>)
      modifies this
      ensures Tables() == RecordDetection(old(Tables()), e, detection, status, quarantinedAt)
      ensures e !in old(events) || old(events)[e].status != Received ==> Tables() == old(Tables())
      ensures status != Received ==> forall sinks :: !CanEnqueueFirst(Tables(), e, sinks)
      ensures status != Received ==> forall score, other, at :: RecordDetection(Tables(), e, score, other, at) == Tables()
      ensures deliveries == old(deliveries) && events.Keys == old(events.Keys)
      ensures forall f :: f in events ==> SameEvent(old(events)[f], events[f]) && (f != e ==> events[f] == old(events)[f])
      ensures e in old(events) && old(events)[e].status == Received ==>
        events[e].status == status && events[e].detection == detection && events[e].quarantinedAt == quarantinedAt
    {
      if e in events && events[e].status == Received {
        events := events[e := events[e].(status := status, detection := detection, quarantinedAt := quarantinedAt)];
      }
    }

    /** Of two concurrent releases exactly one is told true. */
    method Release(e: nat) returns (released: bool)
      modifies this
      ensures released == CanRelease(old(Tables()), e)
      ensures Tables() == ReleaseEvent(old(Tables()), e)
      ensures !CanRelease(Tables(), e)
      ensures released <==> e in old(events) && old(events)[e].status == Quarantined
      ensures released ==> events == old(events)[e := old(events)[e].(status := Received, quarantinedAt := None)]
      ensures !released ==> events == old(events)
    {
      released := e in events && events[e].status == Quarantined;
      if released {
        events := events[e := events[e].(status := Received, quarantinedAt := None)];
      }
    }

    method DeleteDlq(before: real)
      modifies this
      ensures Tables() == SweepDlq(old(Tables()), before)
    {
      dlq := map q | q in dlq && !(dlq[q].exhaustedAt < before) :: dlq[q];
    }

    /** DELETE FROM events, and what the cascades take with it. */
    method DeleteEvents(before: real)
      modifies this
      ensures Tables() == SweepEvents(old(Tables()), before)
    {
      var gone := set e | e in events && events[e].receivedAt < before && !HasUnsettled(Tables(), e);
      var cascaded := set d | d in deliveries && deliveries[d].event in gone;
      SweepIsTwoDeletes(Tables(), before, gone, cascaded);
      events := events - gone;
      deliveries := deliveries - cascaded;
      dlq := map q | q in dlq && dlq[q].delivery !in cascaded :: dlq[q];
    }

    method Sweep(eventsBefore: real, dlqBefore: real)
      modifies this
      ensures Tables() == SweepEvents(SweepDlq(old(Tables()), dlqBefore), eventsBefore)
      ensures SweptExactly(old(Tables()), Tables(), eventsBefore, dlqBefore)
    {
      SweepRemovesExactly(Tables(), eventsBefore, dlqBefore);
      DeleteDlq(dlqBefore);
      DeleteEvents(eventsBefore);
    }
  }

  /** An event leaves exactly when it is old and nothing of it is unsettled, a delivery exactly with its
      event, a dead-letter row exactly when it is old itself or its delivery leaves. Nothing else changes. */
  ghost predicate SweptExactly(db: Db, next: Db, eventsBefore: real, dlqBefore: real) {
    && (forall e :: e in db.events ==>
          (e !in next.events <==> db.events[e].receivedAt < eventsBefore && !HasUnsettled(db, e)))
    && (forall d :: d in db.deliveries && db.deliveries[d].event in db.events ==>
          (d !in next.deliveries <==> db.deliveries[d].event !in next.events))
    && (forall q :: q in db.dlq && db.dlq[q].delivery in db.deliveries ==>
          (q !in next.dlq <==> db.dlq[q].exhaustedAt < dlqBefore || db.dlq[q].delivery !in next.deliveries))
    && OnlyRemoves(db, next)
  }

  ghost predicate OnlyRemoves(db: Db, next: Db) {
    && (forall e :: e in next.events ==> e in db.events && next.events[e] == db.events[e])
    && (forall d :: d in next.deliveries ==> d in db.deliveries && next.deliveries[d] == db.deliveries[d])
    && (forall q :: q in next.dlq ==> q in db.dlq && next.dlq[q] == db.dlq[q])
    && next.nextEvent == db.nextEvent && next.nextDelivery == db.nextDelivery && next.nextDlq == db.nextDlq
  }

  lemma SweepRemovesExactly(db: Db, eventsBefore: real, dlqBefore: real)
    ensures SweptExactly(db, SweepEvents(SweepDlq(db, dlqBefore), eventsBefore), eventsBefore, dlqBefore)
  {
    var mid := SweepDlq(db, dlqBefore);
    assert forall e :: HasUnsettled(mid, e) <==> HasUnsettled(db, e);
  }

  lemma SweepIsTwoDeletes(db: Db, before: real, gone: set<nat>, cascaded: set<nat>)
    requires gone == set e | e in db.events && db.events[e].receivedAt < before && !HasUnsettled(db, e)
    requires cascaded == set d | d in db.deliveries && db.deliveries[d].event in gone
    ensures SweepEvents(db, before).events == db.events - gone
    ensures SweepEvents(db, before).deliveries == db.deliveries - cascaded
    ensures SweepEvents(db, before).dlq == map q | q in db.dlq && db.dlq[q].delivery !in cascaded :: db.dlq[q]
  {
  }

  function Added(db: Db, e: nat, sink: string, now: real): Db {
    db.(deliveries := db.deliveries[db.nextDelivery := NewDelivery(e, sink, now)], nextDelivery := db.nextDelivery + 1)
  }

  lemma InsertOneMore(db: Db, e: nat, sinks: seq<string>, sink: string, now: real)
    ensures InsertAll(db, e, sinks + [sink], now) == Added(InsertAll(db, e, sinks, now), e, sink, now)
  {
    var one := Added(InsertAll(db, e, sinks, now), e, sink, now).deliveries;
    var more := InsertAll(db, e, sinks + [sink], now).deliveries;
    forall d | d in one || d in more ensures d in one && d in more && one[d] == more[d] {
      InsertedRow(db, e, sinks, now, d);
      InsertedRow(db, e, sinks + [sink], now, d);
    }
    assert one.Keys == more.Keys;
  }

  /** After a first dispatch the event has deliveries, and they are exactly the listed ones. */
  lemma FirstDispatchIsOver(db: Db, e: nat, sinks: seq<string>, now: real)
    requires CanEnqueueFirst(db, e, sinks)
    ensures HasDeliveries(EnqueueFirst(db, e, sinks, now), e)
    ensures (forall d :: d in db.deliveries ==> d < db.nextDelivery) ==>
      QueuedExactly(EnqueueFirst(db, e, sinks, now), e, sinks, db.nextDelivery, now)
  {
    var first, next := db.nextDelivery, EnqueueFirst(db, e, sinks, now);
    InsertedRow(db, e, sinks, now, first);
    assert first in next.deliveries && next.deliveries[first].event == e;
    if forall d :: d in db.deliveries ==> d < db.nextDelivery { FirstDispatchQueuesExactly(db, e, sinks, now); }
  }

  /** The first n inserts, one after the other. */
  function InsertSome(db: Db, e: nat, sinks: seq<string>, n: nat, now: real): Db
    requires n <= |sinks|
  {
    if n == 0 then db else Added(InsertSome(db, e, sinks, n - 1, now), e, sinks[n - 1], now)
  }

  lemma {:induction false} InsertSomeIsAll(db: Db, e: nat, sinks: seq<string>, n: nat, now: real)
    requires n <= |sinks|
    ensures InsertSome(db, e, sinks, n, now) == InsertAll(db, e, sinks[..n], now)
  {
    if n == 0 {
      assert InsertAll(db, e, [], now).deliveries == db.deliveries;
    } else {
      InsertSomeIsAll(db, e, sinks, n - 1, now);
      InsertOneMore(db, e, sinks[..n - 1], sinks[n - 1], now);
      assert sinks[..n - 1] + [sinks[n - 1]] == sinks[..n];
    }
  }
}
