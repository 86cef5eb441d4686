/**
 * The tables of store/sqlite.py as one value, and each SQL statement over them as a function.
 *
 * A statement is atomic: SQLite's write lock makes it so, and the connection is in autocommit.
 * Times are real seconds. Ids come from AUTOINCREMENT counters, so an id is never used twice.
 * Columns that no statement reads back to decide anything (response code, latency, error text,
 * updated_at, headers, summary, context) are not modelled.
 */
module Tables {
  import opened Basics

  datatype EventStatus = Received | Dispatched | Failed | Filtered | Quarantined | Dropped
  datatype DeliveryStatus = Pending | InFlight | Delivered | Exhausted

  /** A verified request on its way in; `filtered` says the source's filter refused it. */
  datatype Inbound = Inbound(source: string, deliveryId: string, eventType: string, body: string,
                             receivedAt: real, sinks: seq<string>, filtered: bool)

  /** `sinks` is None for a row written before schema version 3. `detection` is the stored score. */
  datatype EventRow = EventRow(source: string, deliveryId: string, eventType: string, body: string,
                               receivedAt: real, sinks: Option<seq<string>>, status: EventStatus,
                               detection: Option<real>, quarantinedAt: Option<real>)

  datatype DeliveryRow = DeliveryRow(event: nat, sink: string, attempt: nat,
                                     status: DeliveryStatus, nextAt: Option<real>)

  datatype DlqRow = DlqRow(delivery: nat, exhaustedAt: real)

  /** `nextX` is the id the next insert into table X receives. */
  datatype Db = Db(events: map<nat, EventRow>, deliveries: map<nat, DeliveryRow>,
                   dlq: map<nat, DlqRow>, nextEvent: nat, nextDelivery: nat, nextDlq: nat)

  const EmptyDb := Db(map[], map[], map[], 1, 1, 1)

  predicate Unsettled(row: DeliveryRow) {
    row.status == Pending || row.status == InFlight
  }

  // -- what the statements' WHERE clauses ask ---------------------------------------------

  predicate SameKey(row: EventRow, ev: Inbound) {
    row.source == ev.source && row.deliveryId == ev.deliveryId
  }

  predicate KeyTaken(db: Db, ev: Inbound) {
    exists e :: e in db.events && SameKey(db.events[e], ev)
  }

  /** What `SELECT id FROM events WHERE source = ? AND delivery_id = ?` may answer. */
  predicate IsLookup(db: Db, ev: Inbound, found: Option<nat>) {
    match found
    case Some(e) => e in db.events && SameKey(db.events[e], ev)
    case None => !KeyTaken(db, ev)
  }

  predicate HasDeliveries(db: Db, e: nat) {
    exists d :: d in db.deliveries && db.deliveries[d].event == e
  }

  predicate HasUnsettled(db: Db, e: nat) {
    exists d :: d in db.deliveries && db.deliveries[d].event == e && Unsettled(db.deliveries[d])
  }

  predicate HasExhausted(db: Db, e: nat) {
    exists d :: d in db.deliveries && db.deliveries[d].event == e && db.deliveries[d].status == Exhausted
  }

  ghost predicate AllSettled(db: Db, e: nat) {
    HasDeliveries(db, e) && !HasUnsettled(db, e)
  }

  /** The status the deliveries of an event call for: `failed` wins over any number of successes. */
  ghost function RolledUp(db: Db, e: nat): EventStatus {
    if HasExhausted(db, e) then Failed else Dispatched
  }

  predicate IsDue(row: DeliveryRow, now: real) {
    row.status == Pending && (row.nextAt.None? || row.nextAt.value <= now)
  }

  function Due(db: Db, now: real): set<nat> {
    set d | d in db.deliveries && IsDue(db.deliveries[d], now)
  }

  /** ORDER BY next_attempt_at: NULL sorts first. */
  predicate NoLater(a: Option<real>, b: Option<real>) {
    a.None? || (b.Some? && a.value <= b.value)
  }

  /** `claimed` is what the inner SELECT of claim_due_deliveries may pick: as many due rows as
      the limit allows, and none that is due later than one left behind. */
  predicate IsClaim(db: Db, now: real, limit: nat, claimed: set<nat>) {
    && claimed <= Due(db, now)
    && |claimed| == (if |Due(db, now)| < limit then |Due(db, now)| else limit)
    && forall c, d :: c in claimed && d in Due(db, now) - claimed
                      ==> NoLater(db.deliveries[c].nextAt, db.deliveries[d].nextAt)
  }

  // -- events -----------------------------------------------------------------------------

  function NewEvent(ev: Inbound): EventRow {
    EventRow(ev.source, ev.deliveryId, ev.eventType, ev.body, ev.receivedAt, Some(ev.sinks),
             if ev.filtered then Filtered else Received, None, None)
  }

  /** INSERT OR IGNORE INTO events. */
  function InsertEvent(db: Db, ev: Inbound): Db {
    if KeyTaken(db, ev) then db
    else db.(events := db.events[db.nextEvent := NewEvent(ev)], nextEvent := db.nextEvent + 1)
  }

  /** record_detection: only from `received`. */
  function RecordDetection(db: Db, e: nat, detection: Option<real>, status: EventStatus,
                           quarantinedAt: Option<real>): Db
  {
    if e in db.events && db.events[e].status == Received then
      db.(events := db.events[e := db.events[e].(status := status, detection := detection,
                                                 quarantinedAt := quarantinedAt)])
    else db
  }

  predicate CanRelease(db: Db, e: nat) {
    e in db.events && db.events[e].status == Quarantined
  }

  /** release_event: only from `quarantined`. */
  function ReleaseEvent(db: Db, e: nat): Db {
    if CanRelease(db, e) then
      db.(events := db.events[e := db.events[e].(status := Received, quarantinedAt := None)])
    else db
  }

  /** The last statement of _settle_event_for, with no guard on the current status. */
  function SetStatus(db: Db, e: nat, status: EventStatus): Db {
    if e in db.events then db.(events := db.events[e := db.events[e].(status := status)]) else db
  }

  // -- deliveries -------------------------------------------------------------------------

  function NewDelivery(e: nat, sink: string, now: real): DeliveryRow {
    DeliveryRow(e, sink, 0, Pending, Some(now))
  }

  predicate Within(d: nat, low: nat, count: nat) {
    low <= d < low + count
  }

  /** One pending row per listed sink, in listed order, with consecutive ids. */
  function InsertAll(db: Db, e: nat, sinks: seq<string>, now: real): Db {
    var added := map d | db.nextDelivery <= d < db.nextDelivery + |sinks| && Within(d, db.nextDelivery, |sinks|) ::
      NewDelivery(e, sinks[d - db.nextDelivery], now);
    db.(deliveries := db.deliveries + added, nextDelivery := db.nextDelivery + |sinks|)
  }

  predicate CanEnqueueFirst(db: Db, e: nat, sinks: seq<string>) {
    sinks != [] && !HasDeliveries(db, e) && e in db.events && db.events[e].status == Received
  }

  /** enqueue_first_deliveries: the guards and the insert are one statement. */
  function EnqueueFirst(db: Db, e: nat, sinks: seq<string>, now: real): Db {
    if CanEnqueueFirst(db, e, sinks) then InsertAll(db, e, sinks, now) else db
  }

  function Claim(db: Db, claimed: set<nat>): Db {
    db.(deliveries := map d | d in db.deliveries ::
      if d in claimed then db.deliveries[d].(status := InFlight) else db.deliveries[d])
  }

  /** An UPDATE of one delivery by id; nothing happens when the row is gone. */
  function Update(db: Db, d: nat, status: DeliveryStatus, nextAt: Option<real>): Db {
    if d in db.deliveries then
      db.(deliveries := db.deliveries[d := db.deliveries[d].(attempt := db.deliveries[d].attempt + 1,
                                                             status := status, nextAt := nextAt)])
    else db
  }

  predicate CanReleaseClaim(db: Db, d: nat) {
    d in db.deliveries && db.deliveries[d].status == InFlight
  }

  /** requeue_incomplete. */
  function Requeue(db: Db, now: real): Db {
    db.(deliveries := map d | d in db.deliveries ::
      if Unsettled(db.deliveries[d]) then db.deliveries[d].(status := Pending, nextAt := Some(now))
      else db.deliveries[d])
  }

  // -- the dead-letter queue and retention --------------------------------------------------

  /** INSERT INTO dlq; the foreign key makes it an error when the delivery is gone. */
  function InsertDlq(db: Db, d: nat, now: real): Db
    requires d in db.deliveries
  {
    db.(dlq := db.dlq[db.nextDlq := DlqRow(d, now)], nextDlq := db.nextDlq + 1)
  }

  function SweepDlq(db: Db, before: real): Db {
    db.(dlq := map q | q in db.dlq && !(db.dlq[q].exhaustedAt < before) :: db.dlq[q])
  }

  predicate Sweepable(db: Db, e: nat, before: real) {
    e in db.events && db.events[e].receivedAt < before && !HasUnsettled(db, e)
  }

  predicate CascadesAway(db: Db, d: nat, before: real) {
    d in db.deliveries && Sweepable(db, db.deliveries[d].event, before)
  }

  /** DELETE FROM events, with ON DELETE CASCADE to deliveries and from there to dlq. */
  function SweepEvents(db: Db, before: real): Db {
    db.(events := map e | e in db.events && !Sweepable(db, e, before) :: db.events[e],
        deliveries := map d | d in db.deliveries && !CascadesAway(db, d, before) :: db.deliveries[d],
        dlq := map q | q in db.dlq && !CascadesAway(db, db.dlq[q].delivery, before) :: db.dlq[q])
  }
}
