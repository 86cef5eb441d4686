/**
 * engine.py, one call at a time: the methods drive the store, and each is proved against a function of
 * the tables. These are the runs in which a call is not interleaved with another; `Protocol` has the
 * rest, and the lemmas below show that a lone call of the machine's statements computes the same.
 */
module Engine {
  import opened Basics
  import opened Tables
  import opened Integrity
  import opened Settings
  import opened Retry
  import opened Protocol
  import opened Store
  import opened Answers

  /** What the producer, or the operator, is told. */
  datatype Response =
    | Deduplicated(e: nat)
    | FilteredOut(e: nat)
    | Ignored(e: nat)
    | HeldBack(e: nat, status: EventStatus)
    | Accepted(e: nat, resumed: bool)
    | NotFound
    | NotQuarantined(status: EventStatus)
    | Refused(status: EventStatus)
    | NoSinks
    | Queued(sinks: seq<string>)

  // -- the calls as functions of the tables -----------------------------------------------------------

  function ScreenTables(c: Config, db: Db, e: nat, now: real, screening: Screening): Db {
    if screening.Skipped? then db
    else
      var status := StatusAfter(c, screening);
      RecordDetection(db, e, if screening.Scored? then Some(screening.score) else None, status,
                      if status == Quarantined then Some(now) else None)
  }

  /** _screen, then enqueue_first_deliveries unless the verdict withholds. */
  function DispatchTables(c: Config, db: Db, e: nat, sinks: seq<string>, now: real, screening: Screening): Db {
    var screened := ScreenTables(c, db, e, now, screening);
    if StatusAfter(c, screening) == Received then EnqueueFirst(screened, e, sinks, now) else screened
  }

  /** The sinks a resumed dispatch goes to; empty when there is nothing to resume. */
  function ResumeSinks(c: Config, db: Db, e: nat): seq<string> {
    if e in db.events && db.events[e].status == Received && db.events[e].sinks.Some? && !HasDeliveries(db, e)
    then StillRouted(db.events[e].sinks.value, SinksFor(c, db.events[e]))
    else []
  }

  function ResumeTables(c: Config, db: Db, e: nat, now: real, screening: Screening): Db {
    if ResumeSinks(c, db, e) == [] then db else DispatchTables(c, db, e, ResumeSinks(c, db, e), now, screening)
  }

  /** `e` is the stored event of a duplicate. */
  function IngestTables(c: Config, db: Db, ev: Inbound, e: nat, now: real, screening: Screening): Db {
    if KeyTaken(db, ev) then ResumeTables(c, db, e, now, screening)
    else
      var stored := InsertEvent(db, ev);
      if ev.filtered || ev.sinks == [] then stored
      else DispatchTables(c, stored, db.nextEvent, ev.sinks, now, screening)
  }

  function ReleaseTables(c: Config, db: Db, e: nat, now: real): Db {
    if !CanRelease(db, e) then db
    else
      var released := ReleaseEvent(db, e);
      if SinksFor(c, db.events[e]) == [] then released
      else EnqueueFirst(released, e, SinksFor(c, db.events[e]), now)
  }

  function ReplayTables(c: Config, db: Db, e: nat, now: real): Db {
    if e !in db.events || NotReplayable(db.events[e].status) then db
    else InsertAll(db, e, SinksFor(c, db.events[e]), now)
  }

  /** One delivery of a batch from the sink's answer to the end of its mark_*. */
  ghost function DeliverTables(p: Policy, c: Config, db: Db, d: nat, row: DeliveryRow, now: real, answer: Answer, draw: real): Db {
    var verdict := if row.event in db.events && row.sink in c.available then Ask(p, Claimed(row), answer, draw) else Exhaust;
    match verdict
    case Deliver => MarkDeliveredTables(db, d)
    case Exhaust => MarkExhaustedTables(db, d, now)
    case Retry(wait) => Update(db, d, Pending, Some(now + wait))
    case HandBack(wait) => Update(db, d, Pending, Some(now + wait))
  }

  // -- what a caller gets ------------------------------------------------------------------------------

  predicate Withholds(c: Config, screening: Screening) {
    || (screening.Scored? && screening.score >= c.threshold && c.onDetect != Annotate)
    || (screening.Unavailable? && c.onError == QuarantineOnError)
  }

  predicate AsHeld(c: Config, screening: Screening, status: EventStatus) {
    status == if screening.Scored? && c.onDetect == Drop then Dropped else Quarantined
  }

  /** A stored event whose dispatch is unfinished and which still has somewhere to go. */
  ghost predicate Resumable(c: Config, db: Db, e: nat) {
    && e in db.events && db.events[e].status == Received && db.events[e].sinks.Some?
    && (forall d :: d in db.deliveries ==> db.deliveries[d].event != e)
    && exists sink :: sink in db.events[e].sinks.value && StillAdmitted(c, db.events[e], sink)
  }

  ghost predicate IdsBelow(db: Db) {
    forall d :: d in db.deliveries ==> d < db.nextDelivery
  }

  class Engine {
    const policy: Policy
    var config: Config
    var store: SqliteStore

    constructor (policy: Policy, config: Config)
      ensures fresh(store) && store.Tables() == EmptyDb
      ensures this.policy == policy && this.config == config
    {
      this.policy, this.config := policy, config;
      this.store := new SqliteStore();
    }

    method Screen(e: nat, now: real, screening: Screening) returns (withheld: bool)
      modifies store
      ensures store.Tables() == ScreenTables(config, old(store.Tables()), e, now, screening)
      ensures withheld <==> Withholds(config, screening)
      ensures withheld ==> forall sinks :: !CanEnqueueFirst(store.Tables(), e, sinks)
      ensures withheld && e in old(store.events) && old(store.events)[e].status == Received ==>
        AsHeld(config, screening, store.events[e].status)
      ensures e in old(store.events) && (screening.Skipped? || old(store.events)[e].status != Received) ==>
        store.events[e] == old(store.events)[e]
      ensures e in old(store.events) && !screening.Skipped? && old(store.events)[e].status == Received ==>
        && store.events[e].detection == (if screening.Scored? then Some(screening.score) else None)
        && store.events[e].quarantinedAt == (if store.events[e].status == Quarantined then Some(now) else None)
      ensures !withheld && e in old(store.events) ==> store.events[e].status == old(store.events)[e].status
      ensures store.deliveries == old(store.deliveries)
      ensures forall f :: f in old(store.events) && f != e ==> f in store.events && store.events[f] == old(store.events)[f]
    {
      var status := StatusAfter(config, screening);
      if !screening.Skipped? {
        store.RecordVerdict(e, if screening.Scored? then Some(screening.score) else None, status,
                            if status == Quarantined then Some(now) else None);
      }
      withheld := status != Received;
    }

    /** Answers exactly when there is something to resume: the event is withheld, or queued to the stored
        sinks that a route still admits. */
    method Resume(e: nat, now: real, screening: Screening) returns (response: Option<Response>, ghost sinks: seq<string>)
      modifies store
      ensures store.Tables() == ResumeTables(config, old(store.Tables()), e, now, screening)
      ensures response.None? ==> store.Tables() == old(store.Tables())
      ensures response.Some? <==> Resumable(config, old(store.Tables()), e)
      ensures response.Some? && Withholds(config, screening) ==>
        && response.value.HeldBack? && response.value.e == e && AsHeld(config, screening, response.value.status)
        && store.events[e].status == response.value.status && store.deliveries == old(store.deliveries)
      ensures response.Some? && !Withholds(config, screening) ==>
        && response.value == Accepted(e, true)
        && IsKept(config, old(store.events)[e], old(store.events)[e].sinks.value, sinks)
        && (IdsBelow(old(store.Tables())) ==> QueuedExactly(store.Tables(), e, sinks, old(store.nextDelivery), now))
    {
      sinks := [];
      response := None;
      if e !in store.events || store.events[e].status != Received { return; }
      var row := store.events[e];
      if row.sinks.None? || row.sinks.value == [] { return; }
      if HasDeliveries(store.Tables(), e) { return; }
      var kept := StillRouted(row.sinks.value, SinksFor(config, row));
      KeptIsEmptyExactlyWhen(config, row, row.sinks.value);
      StillRoutedIsKept(config, row, row.sinks.value);
      if kept == [] { return; }
      sinks := kept;
      var withheld := Screen(e, now, screening);
      if withheld {
        response := Some(HeldBack(e, StatusAfter(config, screening)));
        return;
      }
      var queued := store.EnqueueFirstDeliveries(e, kept, now);
      response := if queued == 0 then None else Some(Accepted(e, true));
    }

    method Ingest(ev: Inbound, now: real, screening: Screening) returns (response: Response, ghost e: nat)
      modifies store
      ensures IsLookup(store.Tables(), ev, Some(e))
      ensures store.Tables() == IngestTables(config, old(store.Tables()), ev, e, now, screening)
      ensures response.Deduplicated? ==> KeyTaken(old(store.Tables()), ev) && store.Tables() == old(store.Tables())
      ensures KeyTaken(old(store.Tables()), ev) ==>
        if !Resumable(config, old(store.Tables()), e) then response == Deduplicated(e)
        else if Withholds(config, screening) then
          response.HeldBack? && response.e == e && AsHeld(config, screening, response.status)
        else response == Accepted(e, true)
      ensures !KeyTaken(old(store.Tables()), ev) ==>
        && e == old(store.nextEvent)
        && if ev.filtered then response == FilteredOut(e)
           else if ev.sinks == [] then response == Ignored(e)
           else if Withholds(config, screening) then
             response.HeldBack? && response.e == e && AsHeld(config, screening, response.status)
           else response == Accepted(e, false)
      ensures response.HeldBack? ==> store.events[e].status == response.status
      ensures !response.Accepted? ==> store.deliveries == old(store.deliveries)
      ensures response == Accepted(e, false) && IdsBelow(old(store.Tables())) && (forall d :: d in old(store.deliveries) ==> old(store.deliveries)[d].event < e) ==>
        QueuedExactly(store.Tables(), e, ev.sinks, old(store.nextDelivery), now)
    {
      var id, duplicate := store.RecordEvent(ev);
      e := id;
      if duplicate {
        assert SameKey(store.events[id], ev);
        var resumed, kept := Resume(id, now, screening);
        return if resumed.Some? then resumed.value else Deduplicated(id), id;
      }
      if ev.filtered { return FilteredOut(id), id; }
      if ev.sinks == [] { return Ignored(id), id; }
      var withheld := Screen(id, now, screening);
      if withheld { return HeldBack(id, StatusAfter(config, screening)), id; }
      var queued := store.EnqueueFirstDeliveries(id, ev.sinks, now);
      response := Accepted(id, false);
    }

    method Release(e: nat, now: real) returns (response: Response)
      modifies store
      ensures store.Tables() == ReleaseTables(config, old(store.Tables()), e, now)
      ensures !response.Queued? && !response.NoSinks? ==> store.Tables() == old(store.Tables())
      ensures response.Queued? || response.NoSinks? ==> e in store.events && store.events[e].status == Received
      ensures if e !in old(store.events) then response == NotFound
        else
          var row := old(store.events)[e];
          if row.status != Quarantined then response == NotQuarantined(row.status)
          else if IsRouting(config, row, []) then response == NoSinks
          else response.Queued? && IsRouting(config, row, response.sinks)
      ensures response.Queued? && !HasDeliveries(old(store.Tables()), e) ==>
        (forall d :: d in old(store.deliveries) ==> d < old(store.nextDelivery)) ==>
        QueuedExactly(store.Tables(), e, response.sinks, old(store.nextDelivery), now)
    {
      if e !in store.events { return NotFound; }
      var row := store.events[e];
      if row.status != Quarantined { return NotQuarantined(row.status); }
      var released := store.Release(e);
      var sinks := SinksFor(config, row);
      SinksForIsTheRouting(config, row);
      if sinks == [] { return NoSinks; }
      var queued := store.EnqueueFirstDeliveries(e, sinks, now);
      response := Queued(sinks);
    }

    method Replay(e: nat, now: real) returns (response: Response)
      modifies store
      ensures store.Tables() == ReplayTables(config, old(store.Tables()), e, now)
      ensures !response.Queued? ==> store.Tables() == old(store.Tables())
      ensures response.Queued? ==>
        && store.events == old(store.events) && store.dlq == old(store.dlq)
        && RowsQueued(store.Tables(), e, response.sinks, old(store.nextDelivery), now)
        && (forall d :: d in old(store.deliveries) && d < old(store.nextDelivery) ==>
              d in store.deliveries && store.deliveries[d] == old(store.deliveries)[d])
        && forall d :: d in store.deliveries ==> d in old(store.deliveries) || Within(d, old(store.nextDelivery), |response.sinks|)
      ensures if e !in old(store.events) then response == NotFound
        else
          var row := old(store.events)[e];
          if row.status == Dropped || row.status == Quarantined || row.status == Filtered then response == Refused(row.status)
          else if IsRouting(config, row, []) then response == NoSinks
          else response.Queued? && IsRouting(config, row, response.sinks)
    {
      if e !in store.events { return NotFound; }
      var row := store.events[e];
      if NotReplayable(row.status) { return Refused(row.status); }
      var sinks := SinksFor(config, row);
      SinksForIsTheRouting(config, row);
      if sinks == [] {
        NothingToInsert(store.Tables(), e, now);
        return NoSinks;
      }
      var ids := store.EnqueueDeliveries(e, sinks, now);
      response := Queued(sinks);
    }

    method DeliverOnce(d: nat, row: DeliveryRow, now: real, answer: Answer, draw: real)
      modifies store
      ensures store.Tables() == DeliverTables(policy, config, old(store.Tables()), d, row, now, answer, draw)
      ensures d in old(store.deliveries) ==>
        && HandlesOneRow(old(store.deliveries), store.deliveries, d)
        && Handled(policy, row.event in old(store.events) && row.sink in config.available, answer, row.attempt, now, draw,
                   store.deliveries[d])
        && (if store.deliveries[d].status == Pending then store.events == old(store.events)
            else EventRolledUp(old(store.events), store.Tables(), d))
        && store.dlq == (if store.deliveries[d].status == Exhausted then old(store.dlq)[old(store.nextDlq) := DlqRow(d, now)]
                         else old(store.dlq))
    {
      if d in store.deliveries { DeliverMovesOneRow(policy, config, store.Tables(), d, row, now, answer, draw); }
      if row.event !in store.events || row.sink !in config.available {
        var ok := store.MarkExhausted(d, now);
        return;
      }
      match Ask(policy, Claimed(row), answer, draw)
      case Deliver => store.MarkDelivered(d);
      case Exhaust => var ok := store.MarkExhausted(d, now);
      case Retry(wait) => store.MarkRetry(d, now + wait);
      case HandBack(_) => assert false;
    }

    /** Claim one batch and take every delivery of it to the end, whatever each sink answers and whenever. Afterwards
        none of the batch is in flight, each has used up one attempt, and no other row has changed. */
    method RunOnce(now: real, times: nat -> real, answers: nat -> Answer, draws: nat -> real) returns (processed: nat, ghost claimed: set<nat>)
      modifies store
      ensures IsClaim(old(store.Tables()), now, 32, claimed) && processed == |claimed| <= 32
      ensures store.deliveries.Keys == old(store.deliveries.Keys)
      ensures forall d :: d in claimed ==>
        Attempted(policy, config, old(store.events.Keys), old(store.deliveries)[d], answers(d), times(d), draws(d), store.deliveries[d])
      ensures forall d :: d in store.deliveries && d !in claimed ==> store.deliveries[d] == old(store.deliveries)[d]
    {
      var due := store.ClaimDueDeliveries(now, CLAIM_BATCH);
      claimed, processed := due, |due|;
      DeliverBatch(due, times, answers, draws);
    }

    /** The handlers of a batch, each run to its end. */
    method DeliverBatch(due: set<nat>, times: nat -> real, answers: nat -> Answer, draws: nat -> real)
      requires due <= store.deliveries.Keys
      modifies store
      ensures store.deliveries.Keys == old(store.deliveries.Keys)
      ensures forall d :: d in due ==>
        Attempted(policy, config, old(store.events.Keys), old(store.deliveries)[d], answers(d), times(d), draws(d), store.deliveries[d])
      ensures forall d :: d in store.deliveries && d !in due ==> store.deliveries[d] == old(store.deliveries)[d]
    {
      var left := due;
      while left != {}
        invariant left <= due && store.events.Keys == old(store.events.Keys) && store.deliveries.Keys == old(store.deliveries.Keys)
        invariant forall d :: d in store.deliveries && (d in left || d !in due) ==> store.deliveries[d] == old(store.deliveries)[d]
        invariant forall d :: d in due && d !in left ==>
          Attempted(policy, config, old(store.events.Keys), old(store.deliveries)[d], answers(d), times(d), draws(d), store.deliveries[d])
        decreases |left|
      {
        var d :| d in left;
        DeliverOnce(d, store.deliveries[d], times(d), answers(d), draws(d));
        left := left - {d};
      }
    }
  }

  /** One attempt was used up, and the row is waiting again or settled. */
  predicate HandledRow(was: DeliveryRow, now: DeliveryRow) {
    now.status != InFlight && now.attempt == was.attempt + 1 && SameDelivery(now, was)
  }

  /** A claimed row after its attempt; it was sent if its event is stored and its sink available. */
  ghost predicate Attempted(p: Policy, c: Config, stored: set<nat>, was: DeliveryRow, answer: Answer, at: real, draw: real, now: DeliveryRow) {
    HandledRow(was, now) && Handled(p, was.event in stored && was.sink in c.available, answer, was.attempt, at, draw, now)
  }

  ghost predicate HandlesOneRow(before: map<nat, DeliveryRow>, after: map<nat, DeliveryRow>, d: nat) {
    && d in before && after.Keys == before.Keys && HandledRow(before[d], after[d])
    && forall k :: k in after && k != d ==> after[k] == before[k]
  }

  lemma SinksForIsTheRouting(c: Config, row: EventRow)
    ensures IsRouting(c, row, SinksFor(c, row))
    ensures IsRouting(c, row, []) <==> SinksFor(c, row) == []
  {
    SinksForIsRouting(c, row);
    if IsRouting(c, row, []) { RoutingIsUnique(c, row, [], SinksFor(c, row)); }
  }

  lemma KeptIsEmptyExactlyWhen(c: Config, row: EventRow, stored: seq<string>)
    ensures StillRouted(stored, SinksFor(c, row)) == [] <==> forall sink :: sink in stored ==> !StillAdmitted(c, row, sink)
  {
    var kept := StillRouted(stored, SinksFor(c, row));
    forall sink ensures sink in kept <==> sink in stored && StillAdmitted(c, row, sink) {}
    if kept != [] { assert kept[0] in kept; }
  }

  lemma NothingToInsert(db: Db, e: nat, now: real)
    ensures InsertAll(db, e, [], now) == db
  {
    assert InsertAll(db, e, [], now).deliveries == db.deliveries;
  }

  lemma DeliverMovesOneRow(p: Policy, c: Config, db: Db, d: nat, row: DeliveryRow, now: real, answer: Answer, draw: real)
    requires d in db.deliveries
    ensures HandlesOneRow(db.deliveries, DeliverTables(p, c, db, d, row, now, answer, draw).deliveries, d)
  {
  }

  // -- what a call leaves alone ---------------------------------------------------------------------------

  /** Every other event, every delivery that was there and the dead-letter queue are as before; what is new
      belongs to `e`. */
  ghost predicate TouchesOnly(db: Db, next: Db, e: nat) {
    && next.dlq == db.dlq
    && (forall f :: f in db.events ==> f in next.events && (f != e ==> next.events[f] == db.events[f]))
    && (forall f :: f in next.events ==> f in db.events || f == e)
    && (forall d :: d in db.deliveries ==> d in next.deliveries && next.deliveries[d] == db.deliveries[d])
    && (forall d :: d in next.deliveries ==> d in db.deliveries || next.deliveries[d].event == e)
  }

  lemma EnqueueTouchesOnly(db: Db, e: nat, sinks: seq<string>, now: real)
    requires IdsBelow(db)
    ensures TouchesOnly(db, EnqueueFirst(db, e, sinks, now), e)
  {
  }

  lemma DispatchTouchesOnly(c: Config, db: Db, e: nat, sinks: seq<string>, now: real, screening: Screening)
    requires IdsBelow(db)
    ensures TouchesOnly(db, DispatchTables(c, db, e, sinks, now, screening), e)
  {
    EnqueueTouchesOnly(ScreenTables(c, db, e, now, screening), e, sinks, now);
  }

  /** An ingest touches its own event alone, whether it is new, resumed or a plain duplicate. */
  lemma IngestTouchesOnly(c: Config, db: Db, ev: Inbound, e: nat, now: real, screening: Screening)
    requires IdsBelow(db) && db.nextEvent !in db.events
    ensures TouchesOnly(db, IngestTables(c, db, ev, e, now, screening), if KeyTaken(db, ev) then e else db.nextEvent)
  {
    if KeyTaken(db, ev) {
      DispatchTouchesOnly(c, db, e, ResumeSinks(c, db, e), now, screening);
    } else {
      DispatchTouchesOnly(c, InsertEvent(db, ev), db.nextEvent, ev.sinks, now, screening);
    }
  }

  lemma ReleaseTouchesOnly(c: Config, db: Db, e: nat, now: real)
    requires IdsBelow(db)
    ensures TouchesOnly(db, ReleaseTables(c, db, e, now), e)
  {
    if CanRelease(db, e) { EnqueueTouchesOnly(ReleaseEvent(db, e), e, SinksFor(c, db.events[e]), now); }
  }

  // -- an interrupted ingest is completed by one redelivery ------------------------------------------------

  /** The event is stored, its dispatch has not happened, and nothing withholds it: what a crash anywhere
      between record_event and enqueue_first_deliveries leaves behind. */
  ghost predicate Interrupted(db: Db, e: nat) {
    e in db.events && db.events[e].status == Received && db.events[e].sinks.Some? && !HasDeliveries(db, e)
  }

  lemma DispatchWithholdsOrQueues(c: Config, db: Db, e: nat, sinks: seq<string>, now: real, screening: Screening)
    requires forall d :: d in db.deliveries ==> d < db.nextDelivery
    requires e in db.events && db.events[e].status == Received && !HasDeliveries(db, e) && sinks != []
    ensures var next := DispatchTables(c, db, e, sinks, now, screening);
      && next.events.Keys == db.events.Keys && next.events[e].status == StatusAfter(c, screening)
      && SameEvent(next.events[e], db.events[e])
      && (if StatusAfter(c, screening) == Received then QueuedExactly(next, e, sinks, db.nextDelivery, now)
          else next.deliveries == db.deliveries)
  {
    var screened := ScreenTables(c, db, e, now, screening);
    assert screened.deliveries == db.deliveries;
    if StatusAfter(c, screening) == Received {
      assert !HasDeliveries(screened, e);
      FirstDispatchQueuesExactly(screened, e, sinks, now);
    }
  }

  /** One redelivery leaves an interrupted event withheld, or with exactly the stored sinks that current
      routes still accept queued once each in stored order, or as it was because no sink is left. Nothing
      of the redelivered request matters but its key. */
  lemma RedeliveryCompletesIngest(c: Config, db: Db, ev: Inbound, e: nat, now: real, screening: Screening)
    requires (forall d :: d in db.deliveries ==> d < db.nextDelivery) && KeysUnique(db.events)
    requires Interrupted(db, e) && IsLookup(db, ev, Some(e))
    ensures var stored := db.events[e];
      var sinks := StillRouted(stored.sinks.value, SinksFor(c, stored));
      var next := IngestTables(c, db, ev, e, now, screening);
      if sinks == [] then next == db
      else if StatusAfter(c, screening) == Received then QueuedExactly(next, e, sinks, db.nextDelivery, now)
      else next.events[e].status == StatusAfter(c, screening) && !HasDeliveries(next, e)
  {
    var sinks := StillRouted(db.events[e].sinks.value, SinksFor(c, db.events[e]));
    if sinks != [] { DispatchWithholdsOrQueues(c, db, e, sinks, now, screening); }
  }

  /** Two requests with the same key, whatever their bodies, sinks and filters, do the same. */
  lemma OnlyTheStoredEventCounts(c: Config, db: Db, one: Inbound, other: Inbound, e: nat, now: real, screening: Screening)
    requires IsLookup(db, one, Some(e)) && one.source == other.source && one.deliveryId == other.deliveryId
    ensures IngestTables(c, db, one, e, now, screening) == IngestTables(c, db, other, e, now, screening)
  {
    assert SameKey(db.events[e], other);
  }

  lemma DuplicateResumes(c: Config, db: Db, ev: Inbound, e: nat, now: real, screening: Screening)
    requires IsLookup(db, ev, Some(e))
    ensures IngestTables(c, db, ev, e, now, screening) == ResumeTables(c, db, e, now, screening)
  {
  }

  lemma NothingToResume(c: Config, db: Db, ev: Inbound, e: nat, now: real, screening: Screening)
    requires IsLookup(db, ev, Some(e)) && (db.events[e].status != Received || HasDeliveries(db, e))
    ensures IngestTables(c, db, ev, e, now, screening) == db
  {
  }

  /** And it is enough: after a redelivery that queued or withheld, a further one changes nothing. */
  lemma SecondRedeliveryIsQuiet(c: Config, db: Db, ev: Inbound, e: nat, now: real, screening: Screening,
                                later: real, again: Screening)
    requires (forall d :: d in db.deliveries ==> d < db.nextDelivery) && Interrupted(db, e) && IsLookup(db, ev, Some(e))
    requires ResumeSinks(c, db, e) != []
    ensures var once := IngestTables(c, db, ev, e, now, screening);
            IsLookup(once, ev, Some(e)) && IngestTables(c, once, ev, e, later, again) == once
  {
    var sinks := ResumeSinks(c, db, e);
    var once := DispatchTables(c, db, e, sinks, now, screening);
    DuplicateResumes(c, db, ev, e, now, screening);
    DispatchWithholdsOrQueues(c, db, e, sinks, now, screening);
    assert SameKey(once.events[e], ev);
    if StatusAfter(c, screening) == Received {
      assert Within(db.nextDelivery, db.nextDelivery, |sinks|);
      assert once.deliveries[db.nextDelivery].event == e;
    }
    NothingToResume(c, once, ev, e, later, again);
  }

  /** An ingest nothing interrupts does the same for the sinks it was given. */
  lemma UninterruptedIngest(c: Config, db: Db, ev: Inbound, now: real, screening: Screening, max: nat)
    requires DbOk(db, max) && !KeyTaken(db, ev)
    ensures var next := IngestTables(c, db, ev, 0, now, screening);
      && IsLookup(next, ev, Some(db.nextEvent))
      && (if ev.filtered || ev.sinks == [] then !HasDeliveries(next, db.nextEvent)
          else if StatusAfter(c, screening) == Received then
            QueuedExactly(next, db.nextEvent, ev.sinks, db.nextDelivery, now)
          else !HasDeliveries(next, db.nextEvent) && next.events[db.nextEvent].status == StatusAfter(c, screening))
  {
    var stored := InsertEvent(db, ev);
    assert !HasDeliveries(stored, db.nextEvent);
    if !ev.filtered && ev.sinks != [] { DispatchWithholdsOrQueues(c, stored, db.nextEvent, ev.sinks, now, screening); }
  }

  // -- a lone call in the machine computes the same ---------------------------------------------------------

  /** A request run to its end with no other step in between. */
  function Alone(c: Config, db: Db, task: Task, now: real, found: Option<nat>, screening: Screening, steps: nat): Db
    decreases steps
  {
    if steps == 0 then db
    else
      var (next, then') := TaskStep(c, db, task, now, found, screening);
      if then'.None? then next else Alone(c, next, then'.value, now, found, screening, steps - 1)
  }

  lemma LoneDispatch(c: Config, db: Db, e: nat, sinks: seq<string>, now: real, found: Option<nat>, screening: Screening, n: nat)
    requires 2 <= n
    ensures Alone(c, db, Screen(e, sinks), now, found, screening, n) == DispatchTables(c, db, e, sinks, now, screening)
  {
    var (next, then') := TaskStep(c, db, Screen(e, sinks), now, found, screening);
    if then'.Some? {
      assert Alone(c, next, Enqueue(e, sinks), now, found, screening, n - 1) == EnqueueFirst(next, e, sinks, now);
    }
  }

  lemma LoneResume(c: Config, db: Db, e: nat, now: real, found: Option<nat>, screening: Screening, n: nat)
    requires 4 <= n
    ensures Alone(c, db, Reload(e), now, found, screening, n) == ResumeTables(c, db, e, now, screening)
  {
    var (_, then') := TaskStep(c, db, Reload(e), now, found, screening);
    if then'.Some? {
      var check := then'.value;
      var (_, screen) := TaskStep(c, db, check, now, found, screening);
      if screen.Some? {
        LoneDispatch(c, db, e, ResumeSinks(c, db, e), now, found, screening, n - 2);
      }
    }
  }

  /** An ingest whose statements run without interruption is the Ingest method. */
  lemma LoneIngest(c: Config, db: Db, ev: Inbound, e: nat, now: real, screening: Screening)
    requires KeyTaken(db, ev) ==> IsLookup(db, ev, Some(e))
    ensures Alone(c, db, Record(ev), now, Some(e), screening, 6) == IngestTables(c, db, ev, e, now, screening)
  {
    if KeyTaken(db, ev) {
      assert Alone(c, db, FindDuplicate(ev), now, Some(e), screening, 5) == Alone(c, db, Reload(e), now, Some(e), screening, 4);
      LoneResume(c, db, e, now, Some(e), screening, 4);
    } else if !ev.filtered && ev.sinks != [] {
      LoneDispatch(c, InsertEvent(db, ev), db.nextEvent, ev.sinks, now, Some(e), screening, 5);
    }
  }

  /** The same for a release. */
  lemma LoneRelease(c: Config, db: Db, e: nat, now: real)
    ensures Alone(c, db, ReleaseLoad(e), now, None, Skipped, 3) == ReleaseTables(c, db, e, now)
  {
    if CanRelease(db, e) {
      var (next, then') := TaskStep(c, db, ReleaseSwap(e, db.events[e]), now, None, Skipped);
      assert Alone(c, db, ReleaseSwap(e, db.events[e]), now, None, Skipped, 2)
        == if then'.None? then next else Alone(c, next, then'.value, now, None, Skipped, 1);
    }
  }

  /** A handler run to its end with no other step in between. */
  ghost function HandlerAlone(p: Policy, c: Config, db: Db, d: nat, h: Handler, now: real, answer: Answer, draw: real, steps: nat): Db
    decreases steps
  {
    if steps == 0 || Idle(h) then db
    else
      var (next, h') := HandlerStep(p, c, db, d, h, now, answer, draw);
      HandlerAlone(p, c, next, d, h', now, answer, draw, steps - 1)
  }

  lemma HandlerAloneStep(p: Policy, c: Config, db: Db, d: nat, h: Handler, now: real, answer: Answer, draw: real, n: nat)
    requires !Idle(h) && 0 < n
    ensures var (next, h') := HandlerStep(p, c, db, d, h, now, answer, draw);
      HandlerAlone(p, c, db, d, h, now, answer, draw, n) == HandlerAlone(p, c, next, d, h', now, answer, draw, n - 1)
  {
  }

  lemma LoneSettle(p: Policy, c: Config, db: Db, d: nat, h: Handler, now: real, answer: Answer, draw: real, n: nat)
    requires h.pc.FindEvent? && 4 <= n
    ensures HandlerAlone(p, c, db, d, h, now, answer, draw, n) == Settle(db, d, h.pc.failed)
  {
    HandlerAloneStep(p, c, db, d, h, now, answer, draw, n);
    if d in db.deliveries {
      LoneCount(p, c, db, d, h.(pc := CountUnsettled(db.deliveries[d].event, h.pc.failed)), now, answer, draw, n - 1);
    }
  }

  lemma LoneCount(p: Policy, c: Config, db: Db, d: nat, h: Handler, now: real, answer: Answer, draw: real, n: nat)
    requires h.pc.CountUnsettled? && 3 <= n
    ensures var e := h.pc.e;
      HandlerAlone(p, c, db, d, h, now, answer, draw, n) ==
        if HasUnsettled(db, e) then db
        else SetStatus(db, e, if h.pc.failed || HasExhausted(db, e) then Failed else Dispatched)
  {
    var e := h.pc.e;
    HandlerAloneStep(p, c, db, d, h, now, answer, draw, n);
    if !HasUnsettled(db, e) {
      var found := h.(pc := CountExhausted(e, h.pc.failed));
      HandlerAloneStep(p, c, db, d, found, now, answer, draw, n - 1);
      var writing := HandlerStep(p, c, db, d, found, now, answer, draw).1;
      HandlerAloneStep(p, c, db, d, writing, now, answer, draw, n - 2);
    }
  }

  lemma LoneWrite(p: Policy, c: Config, db: Db, d: nat, h: Handler, now: real, answer: Answer, draw: real, n: nat)
    requires h.pc.Write? && !h.recovering && !h.pc.verdict.HandBack? && 6 <= n
    ensures HandlerAlone(p, c, db, d, h, now, answer, draw, n) ==
      match h.pc.verdict
      case Deliver => MarkDeliveredTables(db, d)
      case Exhaust => MarkExhaustedTables(db, d, now)
      case _ => Update(db, d, Pending, RowNextAt(h.pc.verdict, now))
  {
    var (next, h') := HandlerStep(p, c, db, d, h, now, answer, draw);
    match h.pc.verdict
    case Deliver => LoneSettle(p, c, next, d, h', now, answer, draw, n - 1);
    case Exhaust =>
      if d in next.deliveries {
        LoneSettle(p, c, InsertDlq(next, d, now), d, h'.(pc := FindEvent(true)), now, answer, draw, n - 2);
        assert HandlerAlone(p, c, next, d, h', now, answer, draw, n - 1)
          == HandlerAlone(p, c, InsertDlq(next, d, now), d, h'.(pc := FindEvent(true)), now, answer, draw, n - 2);
      } else {
        assert HandlerAlone(p, c, next, d, h', now, answer, draw, n - 1)
          == HandlerAlone(p, c, next, d, Raised(h'), now, answer, draw, n - 2) == next;
      }
    case _ =>
  }

  /** A handler whose statements run without interruption is the DeliverOnce method. */
  lemma LoneDelivery(p: Policy, c: Config, db: Db, d: nat, row: DeliveryRow, now: real, answer: Answer, draw: real)
    ensures HandlerAlone(p, c, db, d, Claimed(row), now, answer, draw, 8)
            == DeliverTables(p, c, db, d, row, now, answer, draw)
  {
    var (_, h) := HandlerStep(p, c, db, d, Claimed(row), now, answer, draw);
    if h.pc == Send {
      LoneWrite(p, c, db, d, h.(pc := Write(Ask(p, h, answer, draw))), now, answer, draw, 6);
      assert Ask(p, h, answer, draw) == Ask(p, Claimed(row), answer, draw);
    } else {
      LoneWrite(p, c, db, d, h, now, answer, draw, 7);
    }
  }
}
