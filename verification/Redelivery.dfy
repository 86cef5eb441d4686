/**
 * A crash between storing an event and queueing it loses nothing: over any run of the machine, and whatever
 * runs beside it, one redelivery that comes to its end completes what the first delivery began.
 */
module Redelivery {
  import opened Basics
  import opened Tables
  import opened Integrity
  import opened Settings
  import opened Retry
  import opened Protocol
  import opened Invariant
  import opened Safety
  import opened Holding
  import opened Store
  import opened Engine

  // -- what a stored event can be, whatever has happened -------------------------------------------------

  predicate RolledUpStatus(status: EventStatus) {
    status == Dispatched || status == Failed
  }

  /** A status written by a roll-up belongs to an event with deliveries. */
  ghost predicate DispatchedHasDeliveries(db: Db) {
    forall e :: e in db.events && RolledUpStatus(db.events[e].status) ==> HasDeliveries(db, e)
  }

  lemma StatementRollsNothingUp(c: Config, db: Db, task: Task, now: real, found: Option<nat>, screening: Screening, e: nat)
    requires EventIdsOk(db)
    ensures var next := TaskStep(c, db, task, now, found, screening).0;
      e in next.events && RolledUpStatus(next.events[e].status) ==> e in db.events && RolledUpStatus(db.events[e].status)
  {
  }

  lemma HandlerRollsOwnEventUp(p: Policy, c: Config, db: Db, d: nat, h: Handler, now: real, answer: Answer, draw: real, e: nat)
    requires HandlerOk(p, db, d, h)
    ensures var next := HandlerStep(p, c, db, d, h, now, answer, draw).0;
      e in next.events && RolledUpStatus(next.events[e].status) ==>
        e in db.events && (RolledUpStatus(db.events[e].status) || HasDeliveries(next, e))
  {
    if h.pc.WriteStatus? && h.event in db.events {
      assert db.deliveries[d].event == h.event;
    }
  }

  lemma StepKeepsDispatched(p: Policy, s: State, a: Action)
    requires Inv(p, s) && Enabled(p, s, a) && DispatchedHasDeliveries(s.db)
    ensures DispatchedHasDeliveries(Apply(p, s, a).db)
  {
    var next := Apply(p, s, a).db;
    StepEvolves(p, s, a);
    forall e | e in next.events && RolledUpStatus(next.events[e].status) ensures HasDeliveries(next, e) {
      match a {
        case RunTask(t, now, found, screening) =>
          StatementRollsNothingUp(s.config, s.db, s.tasks[t], now, found, screening, e);
        case RunHandler(d, now, answer, draw) =>
          HandlerRollsOwnEventUp(p, s.config, s.db, d, s.handlers[d], now, answer, draw, e);
        case _ =>
      }
      if RolledUpStatus(s.db.events[e].status) {
        var d :| d in s.db.deliveries && s.db.deliveries[d].event == e;
        assert d in next.deliveries && SameDelivery(s.db.deliveries[d], next.deliveries[d]);
      }
    }
  }

  lemma {:induction false} DispatchedAt(p: Policy, r: Run, i: nat)
    requires PolicyOk(p) && IsRunFromStart(p, r) && i < |r.states|
    ensures DispatchedHasDeliveries(r.states[i].db)
  {
    if i > 0 {
      DispatchedAt(p, r, i - 1);
      ReachableIsInv(p, r, i - 1);
      ActionAt(p, r, i - 1);
      StepKeepsDispatched(p, r.states[i - 1], r.actions[i - 1]);
    }
  }

  /** What an event was stored with never changes. */
  lemma {:induction false} StoredRowStands(p: Policy, r: Run, i: nat, j: nat, e: nat)
    requires PolicyOk(p) && IsRunFromStart(p, r) && i <= j < |r.states|
    requires e in r.states[i].db.events && e in r.states[j].db.events
    ensures SameEvent(r.states[i].db.events[e], r.states[j].db.events[e])
    ensures r.states[j].db.events[e].status == Filtered <==> r.states[i].db.events[e].status == Filtered
  {
    if i < j {
      GoneAt(p, r, i, e);
      if e !in r.states[j - 1].db.events {
        BelowCounter(p, r, i, j - 1, e);
        GoneAt(p, r, j - 1, e);
      }
      StoredRowStands(p, r, i, j - 1, e);
      EvolvesAt(p, r, j - 1);
    }
  }

  lemma {:induction false} BelowCounter(p: Policy, r: Run, i: nat, j: nat, e: nat)
    requires PolicyOk(p) && IsRunFromStart(p, r) && i <= j < |r.states| && e < r.states[i].db.nextEvent
    ensures e < r.states[j].db.nextEvent
  {
    if i < j {
      BelowCounter(p, r, i, j - 1, e);
      GoneAt(p, r, j - 1, e);
    }
  }

  /** At any later point of any run an admitted event is gone with the sweep, or has deliveries, or is
      withheld, or is exactly what an interrupted ingest leaves behind. */
  lemma StoredEventIsAccountedFor(p: Policy, r: Run, i: nat, j: nat, e: nat)
    requires PolicyOk(p) && IsRunFromStart(p, r) && i <= j < |r.states|
    requires e in r.states[i].db.events && r.states[i].db.events[e].sinks.Some?
    requires r.states[i].db.events[e].status != Filtered
    ensures var db := r.states[j].db;
      || e !in db.events
      || HasDeliveries(db, e)
      || db.events[e].status == Quarantined || db.events[e].status == Dropped
      || Interrupted(db, e)
  {
    if e in r.states[j].db.events {
      StoredRowStands(p, r, i, j, e);
      DispatchedAt(p, r, j);
    }
  }

  // -- a redelivery and what it is for -------------------------------------------------------------------

  /** The statement of record_event by which this request stores its event. */
  ghost predicate StoresEvent(s: State, a: Action, ev: Inbound) {
    && a.RunTask? && a.t in s.tasks && s.tasks[a.t] == Record(ev)
    && !KeyTaken(s.db, ev) && !ev.filtered
  }

  /** Where a redelivery sends the event: to each of the sinks it was stored with that is still routed. */
  function Wanted(c: Config, ev: Inbound): seq<string> {
    StillRouted(ev.sinks, SinksFor(c, NewEvent(ev)))
  }

  /** Those are the stored sinks which a route of the event's source still names and admits it to, in order. */
  lemma WantedIsKept(c: Config, ev: Inbound)
    ensures IsKept(c, NewEvent(ev), ev.sinks, Wanted(c, ev))
  {
    StillRoutedIsKept(c, NewEvent(ev), ev.sinks);
  }

  /** What one redelivery finds and leaves: an event already queued or withheld stays as it is; otherwise its
      first delivery was cut short, and the event is now withheld, or queued once to each of the sinks it was
      meant for that is still routed, in that order, or untouched because there is none. */
  ghost predicate Completed(c: Config, ev: Inbound, db: Db, next: Db, e: nat, now: real, screening: Screening)
    requires e in db.events
  {
    var sinks := Wanted(c, ev);
    if HasDeliveries(db, e) || db.events[e].status == Quarantined || db.events[e].status == Dropped then next == db
    else
      && db.events[e].status == Received
      && if sinks == [] then next == db
         else if StatusAfter(c, screening) == Received then QueuedExactly(next, e, sinks, db.nextDelivery, now)
         else e in next.events && next.events[e].status == StatusAfter(c, screening) && !HasDeliveries(next, e)
  }

  lemma EventIsStored(p: Policy, r: Run, i: nat, ev: Inbound)
    requires PolicyOk(p) && IsRunFromStart(p, r) && i < |r.actions| && StoresEvent(r.states[i], r.actions[i], ev)
    ensures var e := r.states[i].db.nextEvent;
      e in r.states[i + 1].db.events && r.states[i + 1].db.events[e] == NewEvent(ev)
  {
    ActionAt(p, r, i);
  }

  // -- one redelivery among everything else --------------------------------------------------------------

  /** The request `t`, begun by the action b and ended by its own statement at m, redelivers `ev`: the same
      key, whatever else it carries. Between its statements the run may do anything that leaves it alive. */
  ghost predicate Redelivers(r: Run, b: nat, m: nat, t: nat, ev: Inbound)
    requires |r.states| == |r.actions| + 1
  {
    && b < m < |r.actions|
    && r.actions[b].Begin? && r.actions[b].t == t && r.actions[b].task.Record?
    && SameKey(NewEvent(ev), r.actions[b].task.ev)
    && (forall k :: b < k <= m ==> t in r.states[k].tasks)
    && r.actions[m].RunTask? && r.actions[m].t == t && t !in r.states[m + 1].tasks
  }

  /** How far a redelivery of `ev`, stored as `e`, can be. */
  predicate Stage(c: Config, ev: Inbound, e: nat, task: Task) {
    match task
    case Record(again) => SameKey(NewEvent(ev), again)
    case FindDuplicate(again) => SameKey(NewEvent(ev), again)
    case Reload(f) => f == e
    case CheckDeliveries(f, row) => f == e && SameEvent(row, NewEvent(ev))
    case Screen(f, sinks) => f == e && sinks == Wanted(c, ev)
    case Enqueue(f, sinks) => f == e && sinks == Wanted(c, ev)
    case _ => false
  }

  /** The state of a redelivery in progress: its event is gone, or it is at one of its stages. */
  ghost predicate InProgress(s: State, t: nat, c: Config, ev: Inbound, e: nat) {
    && t in s.tasks && s.up && s.config == c && e < s.db.nextEvent
    && (e in s.db.events ==> SameEvent(NewEvent(ev), s.db.events[e]) && Stage(c, ev, e, s.tasks[t]))
  }

  lemma StatementAdvances(c: Config, db: Db, task: Task, now: real, found: Option<nat>, screening: Screening, ev: Inbound, e: nat)
    requires KeysUnique(db.events) && e in db.events && SameEvent(NewEvent(ev), db.events[e])
    requires Stage(c, ev, e, task) && (task.FindDuplicate? ==> IsLookup(db, task.ev, found))
    ensures var then' := TaskStep(c, db, task, now, found, screening).1;
      then'.Some? ==> Stage(c, ev, e, then'.value)
  {
    match task
    case Record(again) => assert SameKey(db.events[e], again);
    case FindDuplicate(again) => assert SameKey(db.events[e], again);
    case _ =>
  }

  lemma StepAdvances(p: Policy, s: State, a: Action, t: nat, c: Config, ev: Inbound, e: nat)
    requires Inv(p, s) && Enabled(p, s, a) && InProgress(s, t, c, ev, e) && t in Apply(p, s, a).tasks
    ensures InProgress(Apply(p, s, a), t, c, ev, e)
  {
    StepEvolves(p, s, a);
    if a.RunTask? && a.t == t && e in s.db.events {
      StatementAdvances(c, s.db, s.tasks[t], a.now, a.found, a.screening, ev, e);
    }
  }

  lemma {:induction false} RedeliveryAdvances(p: Policy, r: Run, i: nat, b: nat, m: nat, k: nat, t: nat, ev: Inbound)
    requires PolicyOk(p) && IsRunFromStart(p, r) && i < b < |r.actions| && StoresEvent(r.states[i], r.actions[i], ev)
    requires Redelivers(r, b, m, t, ev) && b < k <= m
    ensures InProgress(r.states[k], t, r.states[b].config, ev, r.states[i].db.nextEvent)
  {
    var e := r.states[i].db.nextEvent;
    ReachableIsInv(p, r, k - 1);
    ActionAt(p, r, k - 1);
    if k == b + 1 {
      EventIsStored(p, r, i, ev);
      GoneAt(p, r, i + 1, e);
      BelowCounter(p, r, i + 1, b, e);
      if e in r.states[b].db.events { StoredRowStands(p, r, i + 1, b, e); }
    } else {
      RedeliveryAdvances(p, r, i, b, m, k - 1, t, ev);
      StepAdvances(p, r.states[k - 1], r.actions[k - 1], t, r.states[b].config, ev, e);
    }
  }

  /** The event is gone, or queued, or withheld, or has nowhere to go. */
  ghost predicate TakenCareOf(c: Config, ev: Inbound, db: Db, e: nat) {
    e !in db.events || HasDeliveries(db, e) || Holds(db.events[e].status) || Wanted(c, ev) == []
  }

  lemma LastStatement(c: Config, db: Db, task: Task, now: real, found: Option<nat>, screening: Screening, ev: Inbound, e: nat)
    requires DispatchedHasDeliveries(db) && TaskOk(db, task)
    requires e in db.events && SameEvent(NewEvent(ev), db.events[e]) && db.events[e].status != Filtered
    requires Stage(c, ev, e, task) && TaskStep(c, db, task, now, found, screening).1.None?
    ensures TakenCareOf(c, ev, TaskStep(c, db, task, now, found, screening).0, e)
  {
    var next := TaskStep(c, db, task, now, found, screening).0;
    if task.Enqueue? && CanEnqueueFirst(db, e, task.sinks) {
      assert Within(db.nextDelivery, db.nextDelivery, |task.sinks|);
      assert db.nextDelivery in next.deliveries && next.deliveries[db.nextDelivery].event == e;
    } else {
      assert next.deliveries == db.deliveries;
    }
  }

  /** Whatever else goes on, once a redelivery has come to its end its event is taken care of. */
  lemma RedeliveryTakesCare(p: Policy, r: Run, i: nat, b: nat, m: nat, t: nat, ev: Inbound)
    requires PolicyOk(p) && IsRunFromStart(p, r) && i < b < |r.actions| && StoresEvent(r.states[i], r.actions[i], ev)
    requires Redelivers(r, b, m, t, ev)
    ensures TakenCareOf(r.states[b].config, ev, r.states[m + 1].db, r.states[i].db.nextEvent)
  {
    var e, s, a := r.states[i].db.nextEvent, r.states[m], r.actions[m];
    RedeliveryAdvances(p, r, i, b, m, m, t, ev);
    ReachableIsInv(p, r, m);
    ActionAt(p, r, m);
    DispatchedAt(p, r, m);
    if e in s.db.events {
      EventIsStored(p, r, i, ev);
      StoredRowStands(p, r, i + 1, m, e);
      LastStatement(s.config, s.db, s.tasks[t], a.now, a.found, a.screening, ev, e);
    } else {
      GoneAt(p, r, m, e);
    }
  }

  /** Another request screens, queues or replays the same event. */
  ghost predicate Rivals(s: State, a: Action, t: nat, e: nat) {
    a.RunTask? && a.t != t && a.t in s.tasks &&
      match s.tasks[a.t]
      case Screen(f, _) => f == e
      case Enqueue(f, _) => f == e
      case ReplayInsert(f, _) => f == e
      case _ => false
  }

  lemma StatementLeavesInterrupted(c: Config, db: Db, task: Task, now: real, found: Option<nat>, screening: Screening, e: nat)
    requires EventIdsOk(db) && Interrupted(db, e)
    requires (task.Screen? || task.Enqueue? || task.ReplayInsert?) && task.e == e ==>
      task.Screen? && TaskStep(c, db, task, now, found, screening).1.Some?
    ensures var next := TaskStep(c, db, task, now, found, screening).0; e in next.events ==> Interrupted(next, e)
  {
  }

  lemma HandlerLeavesInterrupted(p: Policy, c: Config, db: Db, d: nat, h: Handler, now: real, answer: Answer, draw: real, e: nat)
    requires HandlerOk(p, db, d, h) && Interrupted(db, e)
    ensures Interrupted(HandlerStep(p, c, db, d, h, now, answer, draw).0, e)
  {
  }

  /** Every step but those, and the last of the redelivery itself, leaves the event as the crash left it. */
  lemma StepLeavesInterrupted(p: Policy, s: State, a: Action, t: nat, c: Config, ev: Inbound, e: nat)
    requires Inv(p, s) && Enabled(p, s, a) && InProgress(s, t, c, ev, e) && t in Apply(p, s, a).tasks
    requires Interrupted(s.db, e) && !Rivals(s, a, t, e)
    ensures e in Apply(p, s, a).db.events ==> Interrupted(Apply(p, s, a).db, e)
  {
    match a
    case RunTask(u, now, found, screening) =>
      StatementLeavesInterrupted(s.config, s.db, s.tasks[u], now, found, screening, e);
    case RunHandler(d, now, answer, draw) =>
      assert HandlerOk(p, s.db, d, s.handlers[d]);
      HandlerLeavesInterrupted(p, s.config, s.db, d, s.handlers[d], now, answer, draw, e);
    case _ =>
  }

  ghost predicate RivalsAt(r: Run, k: nat, t: nat, e: nat)
    requires k < |r.actions| < |r.states|
  {
    Rivals(r.states[k], r.actions[k], t, e)
  }

  lemma {:induction false} StaysInterrupted(p: Policy, r: Run, i: nat, b: nat, m: nat, k: nat, t: nat, ev: Inbound)
    requires PolicyOk(p) && IsRunFromStart(p, r) && i < b < |r.actions| && StoresEvent(r.states[i], r.actions[i], ev)
    requires Redelivers(r, b, m, t, ev) && b < k <= m && Interrupted(r.states[b].db, r.states[i].db.nextEvent)
    requires forall j :: b < j < m ==> !RivalsAt(r, j, t, r.states[i].db.nextEvent)
    ensures var e, db := r.states[i].db.nextEvent, r.states[k].db; e in db.events ==> Interrupted(db, e)
  {
    var e := r.states[i].db.nextEvent;
    if k == b + 1 {
      ActionAt(p, r, b);
    } else {
      StaysInterrupted(p, r, i, b, m, k - 1, t, ev);
      RedeliveryAdvances(p, r, i, b, m, k - 1, t, ev);
      assert !RivalsAt(r, k - 1, t, e);
      InterruptedAt(p, r, k - 1, t, r.states[b].config, ev, e);
    }
  }

  lemma InterruptedAt(p: Policy, r: Run, k: nat, t: nat, c: Config, ev: Inbound, e: nat)
    requires PolicyOk(p) && IsRunFromStart(p, r) && k < |r.actions| && t in r.states[k + 1].tasks
    requires InProgress(r.states[k], t, c, ev, e) && !RivalsAt(r, k, t, e)
    requires e in r.states[k].db.events ==> Interrupted(r.states[k].db, e)
    ensures e in r.states[k + 1].db.events ==> Interrupted(r.states[k + 1].db, e)
  {
    ReachableIsInv(p, r, k);
    ActionAt(p, r, k);
    GoneAt(p, r, k, e);
    if e in r.states[k].db.events { StepLeavesInterrupted(p, r.states[k], r.actions[k], t, c, ev, e); }
  }

  /** How the last statement leaves an interrupted event that is still there: untouched if it has nowhere to
      go, withheld by the verdict, or queued once to each wanted sink in order. */
  ghost predicate CompletedBy(c: Config, ev: Inbound, db: Db, task: Task, a: Action, next: Db, e: nat)
    requires a.RunTask? && e in next.events
  {
    if Wanted(c, ev) == [] then next == db
    else if task.Screen? then
      next.events[e].status == StatusAfter(c, a.screening) && Holds(next.events[e].status) && !HasDeliveries(next, e)
    else
      task.Enqueue? && next.events[e].status == Received
      && QueuedExactly(next, e, Wanted(c, ev), db.nextDelivery, a.now)
  }

  lemma LastStatementCompletes(c: Config, db: Db, task: Task, a: Action, ev: Inbound, e: nat)
    requires (forall d :: d in db.deliveries ==> d < db.nextDelivery) && TaskOk(db, task) && a.RunTask?
    requires Interrupted(db, e) && SameEvent(NewEvent(ev), db.events[e]) && Stage(c, ev, e, task)
    requires TaskStep(c, db, task, a.now, a.found, a.screening).1.None?
    ensures var next := TaskStep(c, db, task, a.now, a.found, a.screening).0;
      e in next.events && CompletedBy(c, ev, db, task, a, next, e)
  {
    if task.Enqueue? { FirstDispatchQueuesExactly(db, e, task.sinks, a.now); }
  }

  /** The redelivery's own screening takes place at k. */
  ghost predicate ScreensAt(r: Run, k: nat, t: nat)
    requires k < |r.actions| < |r.states|
  {
    r.actions[k].RunTask? && r.actions[k].t == t && t in r.states[k].tasks && r.states[k].tasks[t].Screen?
  }

  /** A verdict that withholds ends the request. */
  lemma VerdictLetsThrough(p: Policy, r: Run, b: nat, m: nat, k: nat, t: nat, ev: Inbound)
    requires IsRun(p, r) && Redelivers(r, b, m, t, ev) && b < k < m && ScreensAt(r, k, t)
    ensures StatusAfter(r.states[k].config, r.actions[k].screening) == Received
  {
    ActionAt(p, r, k);
  }

  /** With no other request screening, queueing or replaying the same event meanwhile, the redelivery does
      exactly what the interrupted ingest would have done: deliveries of other events, claims, sweeps and all
      other requests change nothing about it. It queues only after a verdict that lets the event through. */
  lemma RedeliveryCompletes(p: Policy, r: Run, i: nat, b: nat, m: nat, t: nat, ev: Inbound)
    requires PolicyOk(p) && IsRunFromStart(p, r) && i < b < |r.actions| && StoresEvent(r.states[i], r.actions[i], ev)
    requires Redelivers(r, b, m, t, ev) && Interrupted(r.states[b].db, r.states[i].db.nextEvent)
    requires forall k :: b < k < m ==> !RivalsAt(r, k, t, r.states[i].db.nextEvent)
    ensures var e, db, next := r.states[i].db.nextEvent, r.states[m].db, r.states[m + 1].db;
      e in next.events ==> CompletedBy(r.states[b].config, ev, db, r.states[m].tasks[t], r.actions[m], next, e)
    ensures forall k :: b < k < m && ScreensAt(r, k, t) ==>
      StatusAfter(r.states[k].config, r.actions[k].screening) == Received
  {
    var e, s, a := r.states[i].db.nextEvent, r.states[m], r.actions[m];
    forall k | b < k < m && ScreensAt(r, k, t) ensures StatusAfter(r.states[k].config, r.actions[k].screening) == Received {
      VerdictLetsThrough(p, r, b, m, k, t, ev);
    }
    RedeliveryAdvances(p, r, i, b, m, m, t, ev);
    StaysInterrupted(p, r, i, b, m, m, t, ev);
    ReachableIsInv(p, r, m);
    ActionAt(p, r, m);
    GoneAt(p, r, m, e);
    if e in s.db.events {
      LastStatementCompletes(s.config, s.db, s.tasks[t], a, ev, e);
    }
  }

  // -- one redelivery alone ------------------------------------------------------------------------------

  /** Whatever happens after the statement that stored the event - a crash at once, between any two later
      statements, restarts with another configuration, sweeps, other requests - one redelivery with the same
      key and with no step of anything in between completes it. Of the redelivered request only the key matters. */
  lemma CrashedIngestIsCompleted(p: Policy, r: Run, i: nat, j: nat, ev: Inbound, again: Inbound, now: real, screening: Screening)
    requires PolicyOk(p) && IsRunFromStart(p, r) && i < j < |r.states| && StoresEvent(r.states[i], r.actions[i], ev)
    requires again.source == ev.source && again.deliveryId == ev.deliveryId
    requires r.states[i].db.nextEvent in r.states[j].db.events
    ensures var e, c, db := r.states[i].db.nextEvent, r.states[j].config, r.states[j].db;
      && IsLookup(db, again, Some(e))
      && Completed(c, ev, db, Alone(c, db, Record(again), now, Some(e), screening, 6), e, now, screening)
  {
    var e, c, db := r.states[i].db.nextEvent, r.states[j].config, r.states[j].db;
    EventIsStored(p, r, i, ev);
    StoredRowStands(p, r, i + 1, j, e);
    StoredEventIsAccountedFor(p, r, i + 1, j, e);
    ReachableIsInv(p, r, j);
    assert SameKey(db.events[e], again);
    LoneIngest(c, db, again, e, now, screening);
    if Interrupted(db, e) {
      RedeliveryCompletesIngest(c, db, again, e, now, screening);
    } else {
      NothingToResume(c, db, again, e, now, screening);
    }
  }

  // -- a lone request is a run of the machine ------------------------------------------------------------

  lemma OneStepBefore(p: Policy, s: State, a: Action, rest: Run)
    requires IsRun(p, rest) && Next(p, s, a, rest.states[0])
    ensures IsRun(p, Run([s] + rest.states, [a] + rest.actions))
  {
    var r := Run([s] + rest.states, [a] + rest.actions);
    forall k | 0 <= k < |r.actions| ensures StepOf(p, r, k) {
      if k > 0 { assert StepOf(p, rest, k - 1); }
    }
  }

  /** What the lookup of a duplicate may answer, if the request is going to ask. */
  ghost predicate LookupOk(db: Db, task: Task, found: Option<nat>) {
    task.FindDuplicate? || (task.Record? && KeyTaken(db, task.ev)) ==> IsLookup(db, task.ev, found)
  }

  lemma LoneStep(p: Policy, s: State, t: nat, now: real, found: Option<nat>, screening: Screening, n: nat)
    requires s.up && t in s.tasks && 0 < n && LookupOk(s.db, s.tasks[t], found)
    ensures var next := Apply(p, s, RunTask(t, now, found, screening));
      && Enabled(p, s, RunTask(t, now, found, screening))
      && next.up && next.config == s.config && next.handlers == s.handlers
      && Alone(s.config, s.db, s.tasks[t], now, found, screening, n) ==
           (if t in next.tasks then Alone(s.config, next.db, next.tasks[t], now, found, screening, n - 1) else next.db)
      && (t in next.tasks ==> LookupOk(next.db, next.tasks[t], found))
  {
  }

  /** A request that has begun, run to its end with no other step in between, is a run, and its tables are
      those of `Alone`. */
  lemma {:induction false} AloneIsARun(p: Policy, s: State, t: nat, now: real, found: Option<nat>, screening: Screening, n: nat)
    returns (r: Run)
    requires s.up && t in s.tasks && LookupOk(s.db, s.tasks[t], found)
    ensures IsRun(p, r) && r.states[0] == s
    ensures var last := r.states[|r.states| - 1];
      last.up && last.config == s.config && last.handlers == s.handlers
      && last.db == Alone(s.config, s.db, s.tasks[t], now, found, screening, n)
    decreases n
  {
    r := Run([s], []);
    if n > 0 {
      var a := RunTask(t, now, found, screening);
      var next := Apply(p, s, a);
      LoneStep(p, s, t, now, found, screening, n);
      var rest := Run([next], []);
      if t in next.tasks { rest := AloneIsARun(p, next, t, now, found, screening, n - 1); }
      r := Run([s] + rest.states, [a] + rest.actions);
      OneStepBefore(p, s, a, rest);
    }
  }
}
