/**
 * When a held event can have deliveries. A quarantined event is meant to have none until its release, and a
 * dropped one none ever; `Limits` shows that the code does not always see to it. These lemmas name the steps
 * that break the rule, and show that nothing else does.
 */
module Holding {
  import opened Basics
  import opened Tables
  import opened Integrity
  import opened Settings
  import opened Retry
  import opened Protocol
  import opened Invariant
  import opened Safety

  predicate Holds(status: EventStatus) {
    status == Quarantined || status == Dropped
  }

  /** The rule for one event and one of the two holding statuses. */
  ghost predicate HeldHasNone(db: Db, e: nat, held: EventStatus) {
    e in db.events && db.events[e].status == held ==> !HasDeliveries(db, e)
  }

  /** A verdict is written over an event that was queued while it was being screened. */
  ghost predicate VerdictComesLate(s: State, a: Action, e: nat, held: EventStatus) {
    && a.RunTask? && a.t in s.tasks && s.tasks[a.t].Screen? && s.tasks[a.t].e == e
    && !a.screening.Skipped? && StatusAfter(s.config, a.screening) == held
    && e in s.db.events && s.db.events[e].status == Received && HasDeliveries(s.db, e)
  }

  /** A replay that passed its status check earlier inserts a row for an event that is held by now. */
  ghost predicate ReplayComesLate(s: State, a: Action, e: nat, held: EventStatus) {
    && a.RunTask? && a.t in s.tasks && s.tasks[a.t].ReplayInsert? && s.tasks[a.t].e == e
    && e in s.db.events && s.db.events[e].status == held
  }

  ghost predicate BreaksHold(s: State, a: Action, e: nat, held: EventStatus) {
    VerdictComesLate(s, a, e, held) || ReplayComesLate(s, a, e, held)
  }

  lemma StatementBreaksHold(p: Policy, s: State, a: Action, e: nat, held: EventStatus)
    requires Inv(p, s) && Enabled(p, s, a) && a.RunTask? && Holds(held) && HeldHasNone(s.db, e, held)
    requires BreaksHold(s, a, e, held)
    ensures !HeldHasNone(Apply(p, s, a).db, e, held)
  {
    var next := Apply(p, s, a).db;
    if VerdictComesLate(s, a, e, held) {
      assert next.deliveries == s.db.deliveries;
    } else {
      assert TaskOk(s.db, s.tasks[a.t]);
      assert Within(s.db.nextDelivery, s.db.nextDelivery, 1);
      assert s.db.nextDelivery in next.deliveries && next.deliveries[s.db.nextDelivery].event == e;
    }
  }

  lemma StatementKeepsHold(c: Config, db: Db, task: Task, now: real, found: Option<nat>, screening: Screening, e: nat, held: EventStatus)
    requires EventIdsOk(db) && Holds(held) && HeldHasNone(db, e, held)
    requires forall d :: d in db.deliveries ==> db.deliveries[d].event in db.events
    requires !(task.ReplayInsert? && task.e == e && e in db.events && db.events[e].status == held)
    requires !(task.Screen? && task.e == e && !screening.Skipped? && StatusAfter(c, screening) == held
               && e in db.events && db.events[e].status == Received && HasDeliveries(db, e))
    ensures HeldHasNone(TaskStep(c, db, task, now, found, screening).0, e, held)
  {
  }

  lemma HandlerKeepsHold(p: Policy, c: Config, db: Db, d: nat, h: Handler, now: real, answer: Answer, draw: real, e: nat, held: EventStatus)
    requires HandlerOk(p, db, d, h) && Holds(held) && HeldHasNone(db, e, held)
    ensures HeldHasNone(HandlerStep(p, c, db, d, h, now, answer, draw).0, e, held)
  {
  }

  /** From a state that keeps the rule, a step breaks it exactly when it is a verdict on an event queued in
      the meantime or a row of a replay that checked the status too early. */
  lemma HoldBreaksExactlyWhen(p: Policy, s: State, a: Action, e: nat, held: EventStatus)
    requires Inv(p, s) && Enabled(p, s, a) && Holds(held) && HeldHasNone(s.db, e, held)
    ensures HeldHasNone(Apply(p, s, a).db, e, held) <==> !BreaksHold(s, a, e, held)
  {
    if BreaksHold(s, a, e, held) {
      StatementBreaksHold(p, s, a, e, held);
    } else {
      match a
      case RunTask(t, now, found, screening) =>
        StatementKeepsHold(s.config, s.db, s.tasks[t], now, found, screening, e, held);
      case RunHandler(d, now, answer, draw) =>
        assert HandlerOk(p, s.db, d, s.handlers[d]);
        HandlerKeepsHold(p, s.config, s.db, d, s.handlers[d], now, answer, draw, e, held);
      case _ =>
    }
  }

  ghost predicate BreaksHoldAt(r: Run, k: nat, e: nat, held: EventStatus)
    requires k < |r.actions| < |r.states|
  {
    BreaksHold(r.states[k], r.actions[k], e, held)
  }

  lemma HoldBreaksAt(p: Policy, r: Run, k: nat, e: nat, held: EventStatus)
    requires PolicyOk(p) && IsRunFromStart(p, r) && k < |r.actions| && Holds(held)
    ensures HeldHasNone(r.states[k].db, e, held) ==>
      (BreaksHoldAt(r, k, e, held) <==> !HeldHasNone(r.states[k + 1].db, e, held))
  {
    if HeldHasNone(r.states[k].db, e, held) {
      ReachableIsInv(p, r, k);
      ActionAt(p, r, k);
      HoldBreaksExactlyWhen(p, r.states[k], r.actions[k], e, held);
    }
  }

  /** From the start of a run: no held event has had deliveries so far exactly when no such step was taken. */
  lemma {:induction false} HoldIsKeptExactlyWhen(p: Policy, r: Run, i: nat, e: nat, held: EventStatus)
    requires PolicyOk(p) && IsRunFromStart(p, r) && i < |r.states| && Holds(held)
    ensures (forall j :: 0 <= j <= i ==> HeldHasNone(r.states[j].db, e, held))
       <==> (forall k :: 0 <= k < i ==> !BreaksHoldAt(r, k, e, held))
  {
    if i > 0 {
      HoldIsKeptExactlyWhen(p, r, i - 1, e, held);
      HoldBreaksAt(p, r, i - 1, e, held);
    }
  }
}
