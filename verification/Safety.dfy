/**
 * Safety over whole runs: references, nothing lost, settled is final, withholding is sticky, a first
 * dispatch happens at most once. All of it for any interleaving, with crashes and restarts.
 */
module Safety {
  import opened Basics
  import opened Tables
  import opened Integrity
  import opened Settings
  import opened Retry
  import opened Protocol
  import opened Invariant

  lemma ActionAt(p: Policy, r: Run, k: nat)
    requires IsRun(p, r) && k < |r.actions|
    ensures Enabled(p, r.states[k], r.actions[k]) && r.states[k + 1] == Apply(p, r.states[k], r.actions[k])
  {
    assert StepOf(p, r, k);
  }

  lemma EvolvesAt(p: Policy, r: Run, k: nat)
    requires PolicyOk(p) && IsRunFromStart(p, r) && k < |r.actions|
    ensures Evolves(r.states[k].db, r.states[k + 1].db, Changed(r.states[k], r.actions[k]))
  {
    ReachableIsInv(p, r, k);
    ActionAt(p, r, k);
    StepEvolves(p, r.states[k], r.actions[k]);
  }

  // -- references ---------------------------------------------------------------------------------

  /** The dead-letter rows the two inner joins of list_dlq let through. */
  function JoinedDlq(db: Db): set<nat> {
    set q | q in db.dlq && db.dlq[q].delivery in db.deliveries
            && db.deliveries[db.dlq[q].delivery].event in db.events
  }

  /** The joins drop no dead-letter row, and a delivery about to be sent always finds its event. */
  lemma ReferencesStayWhole(p: Policy, r: Run, i: nat)
    requires PolicyOk(p) && IsRunFromStart(p, r) && i < |r.states|
    ensures JoinedDlq(r.states[i].db) == r.states[i].db.dlq.Keys
    ensures forall d :: d in r.states[i].db.deliveries ==> r.states[i].db.deliveries[d].event in r.states[i].db.events
    ensures forall d :: d in r.states[i].handlers && (r.states[i].handlers[d].pc == Fetch || r.states[i].handlers[d].pc == Send)
              ==> r.states[i].handlers[d].event in r.states[i].db.events
  {
    ReachableIsInv(p, r, i);
  }

  // -- nothing is lost ------------------------------------------------------------------------------

  lemma TaskStepRows(c: Config, db: Db, task: Task, now: real, found: Option<nat>, screening: Screening)
    ensures !task.PurgeEvents? ==> db.deliveries.Keys <= TaskStep(c, db, task, now, found, screening).0.deliveries.Keys
  {
  }

  lemma HandlerStepRows(p: Policy, c: Config, db: Db, d: nat, h: Handler, now: real, answer: Answer, draw: real)
    ensures HandlerStep(p, c, db, d, h, now, answer, draw).0.deliveries.Keys == db.deliveries.Keys
    ensures HandlerStep(p, c, db, d, h, now, answer, draw).0.events.Keys == db.events.Keys
  {
  }

  /** The one way a delivery leaves the table: its event is swept, all of whose deliveries settled. */
  ghost predicate SweptBy(s: State, a: Action, next: State, d: nat) {
    && d in s.db.deliveries && d !in next.db.deliveries
    && a.RunTask? && a.t in s.tasks && s.tasks[a.t].PurgeEvents?
    && Sweepable(s.db, s.db.deliveries[d].event, s.tasks[a.t].eventsBefore)
    && s.db.deliveries[d].event !in next.db.events
  }

  lemma LeavesOnlyBySweep(p: Policy, s: State, a: Action, d: nat)
    requires Enabled(p, s, a)
    requires d in s.db.deliveries && d !in Apply(p, s, a).db.deliveries
    ensures SweptBy(s, a, Apply(p, s, a), d)
  {
    match a
    case RunTask(t, now, found, screening) => TaskStepRows(s.config, s.db, s.tasks[t], now, found, screening);
    case RunHandler(k, now, answer, draw) => HandlerStepRows(p, s.config, s.db, k, s.handlers[k], now, answer, draw);
    case _ =>
  }

  lemma LeavesAt(p: Policy, r: Run, k: nat, d: nat)
    requires PolicyOk(p) && IsRunFromStart(p, r) && k < |r.actions|
    requires d in r.states[k].db.deliveries
    ensures if d in r.states[k + 1].db.deliveries
            then SameDelivery(r.states[k].db.deliveries[d], r.states[k + 1].db.deliveries[d])
            else SweptBy(r.states[k], r.actions[k], r.states[k + 1], d)
  {
    ActionAt(p, r, k);
    EvolvesAt(p, r, k);
    if d !in r.states[k + 1].db.deliveries { LeavesOnlyBySweep(p, r.states[k], r.actions[k], d); }
  }

  /** Every delivery ever inserted is still there, for the same event and sink, or was swept with
      its event once nothing of that event was unsettled. */
  lemma {:induction false} NoDeliveryIsLost(p: Policy, r: Run, i: nat, j: nat, d: nat)
    requires PolicyOk(p) && IsRunFromStart(p, r) && i <= j < |r.states|
    requires d in r.states[i].db.deliveries
    ensures if d in r.states[j].db.deliveries
            then SameDelivery(r.states[i].db.deliveries[d], r.states[j].db.deliveries[d])
            else exists k :: i <= k < j && SweptBy(r.states[k], r.actions[k], r.states[k + 1], d)
  {
    if i < j {
      NoDeliveryIsLost(p, r, i, j - 1, d);
      if d in r.states[j - 1].db.deliveries {
        LeavesAt(p, r, j - 1, d);
      } else {
        IdsAreNotReused(p, r, i, j - 1, d);
        EvolvesAt(p, r, j - 1);
      }
    }
  }

  lemma {:induction false} IdsAreNotReused(p: Policy, r: Run, i: nat, j: nat, d: nat)
    requires PolicyOk(p) && IsRunFromStart(p, r) && i <= j < |r.states|
    requires d < r.states[i].db.nextDelivery || d in r.states[i].db.deliveries
    ensures d < r.states[j].db.nextDelivery
  {
    ReachableIsInv(p, r, i);
    if i < j {
      IdsAreNotReused(p, r, i, j - 1, d);
      EvolvesAt(p, r, j - 1);
    }
  }

  /** After start() every unsettled row is pending and due, with the attempts it had; settled rows are
      untouched, and nothing is in flight. */
  lemma StartLeavesEverythingDue(p: Policy, s: State, a: Action)
    requires Inv(p, s) && Enabled(p, s, a) && a.Start?
    ensures var next := Apply(p, s, a).db.deliveries;
            && next.Keys == s.db.deliveries.Keys
            && forall d :: d in next ==>
                 && next[d].attempt == s.db.deliveries[d].attempt
                 && (Unsettled(s.db.deliveries[d]) ==> IsDue(next[d], a.now))
                 && (!Unsettled(s.db.deliveries[d]) ==> next[d] == s.db.deliveries[d])
  {
  }

  // -- settled is final -----------------------------------------------------------------------------

  /** The write of a recovery that dead-letters a row its faulted handler had already settled. */
  predicate RepeatsASettledRow(s: State, a: Action, d: nat) {
    && a.RunHandler? && a.d == d && d in s.handlers
    && s.handlers[d].pc == Write(Exhaust) && s.handlers[d].recovering && s.handlers[d].wrote
  }

  lemma OwnStepOnSettled(p: Policy, c: Config, db: Db, d: nat, h: Handler, now: real, answer: Answer, draw: real)
    requires HandlerOk(p, db, d, h) && d in db.deliveries && !Unsettled(db.deliveries[d])
    ensures var next := HandlerStep(p, c, db, d, h, now, answer, draw).0;
      d in next.deliveries
      && (next.deliveries[d] != db.deliveries[d] <==> h.pc == Write(Exhaust) && h.recovering && h.wrote)
  {
  }

  lemma OtherStepOnSettled(p: Policy, s: State, a: Action, d: nat)
    requires Inv(p, s) && Enabled(p, s, a) && !(a.RunHandler? && a.d == d)
    requires d in s.db.deliveries && !Unsettled(s.db.deliveries[d]) && d in Apply(p, s, a).db.deliveries
    ensures Apply(p, s, a).db.deliveries[d] == s.db.deliveries[d]
  {
    StepEvolves(p, s, a);
    assert d !in Changed(s, a);
  }

  /** Exactly one kind of step changes a settled row: mark_exhausted, called by the recovery of a
      handler whose own mark_* raised after its first statement, on the last attempt. */
  lemma SettledRowChangesExactlyWhen(p: Policy, s: State, a: Action, d: nat)
    requires Inv(p, s) && Enabled(p, s, a)
    requires d in s.db.deliveries && !Unsettled(s.db.deliveries[d]) && d in Apply(p, s, a).db.deliveries
    ensures Apply(p, s, a).db.deliveries[d] != s.db.deliveries[d] <==> RepeatsASettledRow(s, a, d)
  {
    if a.RunHandler? && a.d == d {
      assert HandlerOk(p, s.db, d, s.handlers[d]);
      OwnStepOnSettled(p, s.config, s.db, d, s.handlers[d], a.now, a.answer, a.draw);
    } else {
      OtherStepOnSettled(p, s, a, d);
    }
  }

  lemma SettledStep(p: Policy, s: State, a: Action, d: nat)
    requires Inv(p, s) && Enabled(p, s, a)
    requires d in s.db.deliveries && !Unsettled(s.db.deliveries[d]) && d in Apply(p, s, a).db.deliveries
    ensures var was, now := s.db.deliveries[d], Apply(p, s, a).db.deliveries[d];
      now == if RepeatsASettledRow(s, a, d) then was.(attempt := was.attempt + 1, status := Exhausted, nextAt := None) else was
  {
    SettledRowChangesExactlyWhen(p, s, a, d);
  }

  lemma SettledAt(p: Policy, r: Run, k: nat, d: nat)
    requires PolicyOk(p) && IsRunFromStart(p, r) && k < |r.actions|
    requires d in r.states[k].db.deliveries && !Unsettled(r.states[k].db.deliveries[d])
    requires d in r.states[k + 1].db.deliveries
    ensures var was, now := r.states[k].db.deliveries[d], r.states[k + 1].db.deliveries[d];
      now == if RepeatsASettledRow(r.states[k], r.actions[k], d)
             then was.(attempt := was.attempt + 1, status := Exhausted, nextAt := None) else was
  {
    ReachableIsInv(p, r, k);
    ActionAt(p, r, k);
    SettledStep(p, r.states[k], r.actions[k], d);
  }

  /** How many of the actions i, ..., j - 1 repeat a settled row. */
  function RepeatsBetween(r: Run, i: nat, j: nat, d: nat): nat
    requires i <= j <= |r.actions| && |r.states| == |r.actions| + 1
  {
    if i == j then 0
    else RepeatsBetween(r, i, j - 1, d) + if RepeatsASettledRow(r.states[j - 1], r.actions[j - 1], d) then 1 else 0
  }

  /** Delivered and exhausted never change, across crashes, restarts and store faults: a settled row is the
      same, or gone with its event, exactly when no recovery dead-letters it once more; each such recovery
      costs it one attempt, and nothing else does. */
  lemma {:induction false} SettledIsFinal(p: Policy, r: Run, i: nat, j: nat, d: nat)
    requires PolicyOk(p) && IsRunFromStart(p, r) && i <= j < |r.states|
    requires d in r.states[i].db.deliveries && !Unsettled(r.states[i].db.deliveries[d])
    requires d in r.states[j].db.deliveries
    ensures !Unsettled(r.states[j].db.deliveries[d])
    ensures r.states[j].db.deliveries[d].attempt == r.states[i].db.deliveries[d].attempt + RepeatsBetween(r, i, j, d)
    ensures r.states[j].db.deliveries[d] == r.states[i].db.deliveries[d] <==> RepeatsBetween(r, i, j, d) == 0
    ensures RepeatsBetween(r, i, j, d) > 0 ==> r.states[j].db.deliveries[d].status == Exhausted
  {
    if i < j {
      IdsAreNotReused(p, r, i, j - 1, d);
      EvolvesAt(p, r, j - 1);
      SettledIsFinal(p, r, i, j - 1, d);
      SettledAt(p, r, j - 1, d);
    }
  }

  /** No exception strikes the handler of `d` after the first statement of its mark_* on its last attempt. */
  predicate CleanStep(p: Policy, s: State, a: Action, d: nat) {
    a.FailHandler? && a.d == d && d in s.handlers && LastAttempt(p, s.handlers[d]) ==> !s.handlers[d].wrote
  }

  predicate CleanBefore(p: Policy, r: Run, n: nat, d: nat) {
    && |r.states| == |r.actions| + 1 && n <= |r.actions|
    && forall k :: 0 <= k < n ==> CleanStep(p, r.states[k], r.actions[k], d)
  }

  /** Then a handler that raised after writing on its last attempt lost its row to the sweep. */
  predicate FaultIsClean(p: Policy, db: Db, d: nat, h: Handler) {
    h.wrote && LastAttempt(p, h) && (h.pc == Faulted || (h.recovering && h.pc.Write?)) ==> d !in db.deliveries
  }

  predicate FaultsAreClean(p: Policy, s: State, d: nat) {
    d in s.handlers ==> FaultIsClean(p, s.db, d, s.handlers[d])
  }

  lemma CleanHandlerStep(p: Policy, c: Config, db: Db, d: nat, h: Handler, now: real, answer: Answer, draw: real)
    requires HandlerOk(p, db, d, h) && FaultIsClean(p, db, d, h) && !Idle(h)
    ensures var (next, h') := HandlerStep(p, c, db, d, h, now, answer, draw); FaultIsClean(p, next, d, h')
  {
  }

  lemma CleanStepKeeps(p: Policy, s: State, a: Action, d: nat)
    requires Inv(p, s) && Enabled(p, s, a) && FaultsAreClean(p, s, d) && CleanStep(p, s, a, d)
    ensures FaultsAreClean(p, Apply(p, s, a), d)
  {
    StepEvolves(p, s, a);
    if d in Apply(p, s, a).handlers && !a.ClaimBatch? {
      assert HandlerOk(p, s.db, d, s.handlers[d]);
      if a.RunHandler? && a.d == d {
        CleanHandlerStep(p, s.config, s.db, d, s.handlers[d], a.now, a.answer, a.draw);
      }
    }
  }

  lemma {:induction false} CleanRunKeeps(p: Policy, r: Run, i: nat, d: nat)
    requires PolicyOk(p) && IsRunFromStart(p, r) && i < |r.states| && CleanBefore(p, r, i, d)
    ensures FaultsAreClean(p, r.states[i], d)
  {
    if i > 0 {
      CleanRunKeeps(p, r, i - 1, d);
      ReachableIsInv(p, r, i - 1);
      ActionAt(p, r, i - 1);
      CleanStepKeeps(p, r.states[i - 1], r.actions[i - 1], d);
    }
  }

  lemma {:induction false} CleanRunRepeatsNothing(p: Policy, r: Run, i: nat, j: nat, d: nat)
    requires PolicyOk(p) && IsRunFromStart(p, r) && i <= j < |r.states| && CleanBefore(p, r, j, d)
    requires d in r.states[i].db.deliveries && d in r.states[j].db.deliveries
    ensures RepeatsBetween(r, i, j, d) == 0
  {
    if i < j {
      IdsAreNotReused(p, r, i, j - 1, d);
      EvolvesAt(p, r, j - 1);
      CleanRunRepeatsNothing(p, r, i, j - 1, d);
      CleanRunKeeps(p, r, j - 1, d);
      ReachableIsInv(p, r, j - 1);
      if d in r.states[j - 1].handlers { assert HandlerOk(p, r.states[j - 1].db, d, r.states[j - 1].handlers[d]); }
    }
  }

  /** A fault that leaves the last mark_* of a row whole is enough to keep the row for good. */
  lemma SettledIsFinalWithoutLateFaults(p: Policy, r: Run, i: nat, j: nat, d: nat)
    requires PolicyOk(p) && IsRunFromStart(p, r) && i <= j < |r.states| && CleanBefore(p, r, j, d)
    requires d in r.states[i].db.deliveries && !Unsettled(r.states[i].db.deliveries[d])
    ensures d in r.states[j].db.deliveries ==> r.states[j].db.deliveries[d] == r.states[i].db.deliveries[d]
  {
    if d in r.states[j].db.deliveries {
      SettledIsFinal(p, r, i, j, d);
      CleanRunRepeatsNothing(p, r, i, j, d);
    }
  }

  // -- withholding is sticky --------------------------------------------------------------------------

  ghost predicate ReplayInFlight(s: State, e: nat) {
    exists t :: t in s.tasks && s.tasks[t].ReplayInsert? && s.tasks[t].e == e
  }

  ghost predicate Withheld(s: State, e: nat) {
    && e in s.db.events && (s.db.events[e].status == Quarantined || s.db.events[e].status == Dropped)
    && !HasDeliveries(s.db, e)
    && !ReplayInFlight(s, e)
  }

  predicate ReleasesNow(s: State, a: Action, e: nat) {
    && a.RunTask? && a.t in s.tasks && s.tasks[a.t].ReleaseSwap? && s.tasks[a.t].e == e
    && CanRelease(s.db, e)
  }

  /** A verdict that withholds, landing before anything was queued, withholds. */
  lemma VerdictWithholds(p: Policy, s: State, a: Action, e: nat)
    requires Inv(p, s) && Enabled(p, s, a) && a.RunTask? && s.tasks[a.t].Screen? && s.tasks[a.t].e == e
    requires e in s.db.events && s.db.events[e].status == Received
    requires !HasDeliveries(s.db, e) && !ReplayInFlight(s, e)
    ensures Withheld(Apply(p, s, a), e) <==> StatusAfter(s.config, a.screening) != Received
  {
    var next := Apply(p, s, a);
    forall t | t in next.tasks ensures !(next.tasks[t].ReplayInsert? && next.tasks[t].e == e) {
      if t != a.t { assert next.tasks[t] == s.tasks[t]; }
    }
  }

  lemma NoStatementQueues(c: Config, db: Db, task: Task, now: real, found: Option<nat>, screening: Screening, e: nat)
    requires e in db.events && (db.events[e].status == Quarantined || db.events[e].status == Dropped)
    requires !HasDeliveries(db, e) && !(task.ReplayInsert? && task.e == e)
    ensures var (next, then') := TaskStep(c, db, task, now, found, screening);
            !HasDeliveries(next, e) && !(then'.Some? && then'.value.ReplayInsert? && then'.value.e == e)
  {
  }

  lemma NoTaskQueuesWithheld(p: Policy, s: State, a: Action, e: nat)
    requires Inv(p, s) && Enabled(p, s, a) && Withheld(s, e)
    ensures !HasDeliveries(Apply(p, s, a).db, e) && !ReplayInFlight(Apply(p, s, a), e)
  {
    match a
    case RunTask(t, now, found, screening) =>
      NoStatementQueues(s.config, s.db, s.tasks[t], now, found, screening, e);
    case RunHandler(d, now, answer, draw) =>
      HandlerStepKeepsDb(p, s.config, s.db, d, s.handlers[d], now, answer, draw);
      HandlerStepRows(p, s.config, s.db, d, s.handlers[d], now, answer, draw);
    case _ =>
  }

  lemma StatementOnHeld(c: Config, db: Db, task: Task, now: real, found: Option<nat>, screening: Screening, e: nat)
    requires e in db.events && (db.events[e].status == Quarantined || db.events[e].status == Dropped)
    requires EventIdsOk(db)
    ensures var next := TaskStep(c, db, task, now, found, screening).0;
            e in next.events ==>
              next.events[e].status ==
                if task.ReleaseSwap? && task.e == e && CanRelease(db, e) then Received else db.events[e].status
  {
  }

  /** While it is stored, a withheld event stays withheld, with the same status, exactly until a
      release takes it out of quarantine; no verdict, replay, resume or roll-up gets past it. */
  lemma WithheldExactlyUntilReleased(p: Policy, s: State, a: Action, e: nat)
    requires Inv(p, s) && Enabled(p, s, a) && Withheld(s, e) && e in Apply(p, s, a).db.events
    ensures Withheld(Apply(p, s, a), e) <==> !ReleasesNow(s, a, e)
    ensures Withheld(Apply(p, s, a), e) ==> Apply(p, s, a).db.events[e].status == s.db.events[e].status
  {
    NoTaskQueuesWithheld(p, s, a, e);
    match a
    case RunTask(t, now, found, screening) => StatementOnHeld(s.config, s.db, s.tasks[t], now, found, screening, e);
    case RunHandler(d, _, _, _) => assert HandlerOk(p, s.db, d, s.handlers[d]);
    case _ =>
  }

  /** The other half: a replay past its status check gets through, whatever the event's status is by now. */
  lemma ReplayInFlightGetsThrough(p: Policy, s: State, e: nat) returns (a: Action)
    requires Inv(p, s) && s.up && e in s.db.events && ReplayInFlight(s, e)
    ensures Enabled(p, s, a) && HasDeliveries(Apply(p, s, a).db, e)
    ensures Apply(p, s, a).db.events == s.db.events
  {
    var t :| t in s.tasks && s.tasks[t].ReplayInsert? && s.tasks[t].e == e;
    assert TaskOk(s.db, s.tasks[t]);
    a := RunTask(t, 0.0, None, Skipped);
    var first, next := s.db.nextDelivery, Apply(p, s, a).db;
    assert Within(first, first, 1);
    assert first in next.deliveries && next.deliveries[first].event == e;
  }

  /** So "no deliveries, no replay past its check" is not one step stronger than it must be: a quarantined or
      dropped event without deliveries is safe from every step that can come next exactly when it is withheld. */
  lemma WithheldExactlyWhenNothingCanQueue(p: Policy, s: State, e: nat)
    requires Inv(p, s) && s.up && e in s.db.events && !HasDeliveries(s.db, e)
    requires s.db.events[e].status == Quarantined || s.db.events[e].status == Dropped
    ensures Withheld(s, e) <==> forall a :: Enabled(p, s, a) ==> !HasDeliveries(Apply(p, s, a).db, e)
  {
    if Withheld(s, e) {
      forall a | Enabled(p, s, a) ensures !HasDeliveries(Apply(p, s, a).db, e) {
        NoTaskQueuesWithheld(p, s, a, e);
      }
    } else {
      var a := ReplayInFlightGetsThrough(p, s, e);
    }
  }

  lemma HeldAt(p: Policy, r: Run, k: nat, e: nat)
    requires PolicyOk(p) && IsRunFromStart(p, r) && k < |r.actions|
    requires Withheld(r.states[k], e) && !ReleasesNow(r.states[k], r.actions[k], e)
    ensures e in r.states[k + 1].db.events ==>
      Withheld(r.states[k + 1], e) && r.states[k + 1].db.events[e].status == r.states[k].db.events[e].status
  {
    ReachableIsInv(p, r, k);
    ActionAt(p, r, k);
    if e in r.states[k + 1].db.events { WithheldExactlyUntilReleased(p, r.states[k], r.actions[k], e); }
  }

  /** An event that is gone stays gone: its id is below the counter and never used again. */
  lemma GoneAt(p: Policy, r: Run, k: nat, e: nat)
    requires PolicyOk(p) && IsRunFromStart(p, r) && k < |r.actions|
    ensures e < r.states[k].db.nextEvent ==> e < r.states[k + 1].db.nextEvent
    ensures e < r.states[k].db.nextEvent && e !in r.states[k].db.events ==> e !in r.states[k + 1].db.events
    ensures e in r.states[k].db.events ==> e < r.states[k].db.nextEvent
  {
    ReachableIsInv(p, r, k);
    EvolvesAt(p, r, k);
  }

  /** Over a run: a withheld event is withheld still, or was swept, or was released. */
  lemma {:induction false} WithholdingIsSticky(p: Policy, r: Run, i: nat, j: nat, e: nat)
    requires PolicyOk(p) && IsRunFromStart(p, r) && i <= j < |r.states| && Withheld(r.states[i], e)
    requires forall k :: i <= k < j ==> !ReleasesNow(r.states[k], r.actions[k], e)
    ensures e < r.states[j].db.nextEvent
    ensures e in r.states[j].db.events ==>
              Withheld(r.states[j], e) && r.states[j].db.events[e].status == r.states[i].db.events[e].status
  {
    ReachableIsInv(p, r, i);
    if i < j {
      WithholdingIsSticky(p, r, i, j - 1, e);
      GoneAt(p, r, j - 1, e);
      if e in r.states[j].db.events { HeldAt(p, r, j - 1, e); }
    }
  }

  /** `dropped` has no way out: no release can take it. */
  lemma DroppedIsForGood(p: Policy, r: Run, i: nat, j: nat, e: nat)
    requires PolicyOk(p) && IsRunFromStart(p, r) && i <= j < |r.states| && Withheld(r.states[i], e)
    requires r.states[i].db.events[e].status == Dropped
    ensures e in r.states[j].db.events ==> Withheld(r.states[j], e) && r.states[j].db.events[e].status == Dropped
    decreases j - i
  {
    if i < j {
      GoneAt(p, r, i, e);
      if e in r.states[i + 1].db.events {
        HeldAt(p, r, i, e);
        DroppedIsForGood(p, r, i + 1, j, e);
      } else {
        GoneIsForGood(p, r, i + 1, j, e);
      }
    }
  }

  lemma {:induction false} GoneIsForGood(p: Policy, r: Run, i: nat, j: nat, e: nat)
    requires PolicyOk(p) && IsRunFromStart(p, r) && i <= j < |r.states|
    requires e < r.states[i].db.nextEvent && e !in r.states[i].db.events
    ensures e < r.states[j].db.nextEvent && e !in r.states[j].db.events
  {
    if i < j {
      GoneIsForGood(p, r, i, j - 1, e);
      GoneAt(p, r, j - 1, e);
    }
  }

  /** An event its source's filter refused never gets a delivery, replay included. */
  lemma {:induction false} FilteredNeverGetsADelivery(p: Policy, r: Run, i: nat, j: nat, e: nat)
    requires PolicyOk(p) && IsRunFromStart(p, r) && i <= j < |r.states|
    requires e in r.states[i].db.events && r.states[i].db.events[e].status == Filtered
    ensures !HasDeliveries(r.states[j].db, e)
    ensures e in r.states[j].db.events ==> r.states[j].db.events[e].status == Filtered
    ensures e < r.states[j].db.nextEvent
  {
    ReachableIsInv(p, r, j);
    if i < j {
      FilteredNeverGetsADelivery(p, r, i, j - 1, e);
      EvolvesAt(p, r, j - 1);
    }
  }

  // -- the first dispatch -----------------------------------------------------------------------------

  /** A call of enqueue_first_deliveries for `e` that inserts something. */
  ghost predicate QueuesFirst(s: State, a: Action, e: nat) {
    && a.RunTask? && a.t in s.tasks && s.tasks[a.t].Enqueue? && s.tasks[a.t].e == e
    && CanEnqueueFirst(s.db, e, s.tasks[a.t].sinks)
  }

  /** All or nothing: the event's deliveries afterwards are one pending row per listed sink in listed
      order and no other; a call that does not insert leaves the tables as they were. */
  lemma FirstDispatchIsWhole(p: Policy, s: State, a: Action, e: nat)
    requires Inv(p, s) && Enabled(p, s, a) && a.RunTask? && s.tasks[a.t].Enqueue? && s.tasks[a.t].e == e
    ensures !QueuesFirst(s, a, e) ==> Apply(p, s, a).db == s.db
    ensures QueuesFirst(s, a, e) ==>
      var sinks, next, first := s.tasks[a.t].sinks, Apply(p, s, a).db, s.db.nextDelivery;
      && (forall d: nat :: Within(d, first, |sinks|) ==>
            d in next.deliveries && next.deliveries[d] == DeliveryRow(e, sinks[d - first], 0, Pending, Some(a.now)))
      && (forall d :: d in next.deliveries && next.deliveries[d].event == e ==> Within(d, first, |sinks|))
      && (forall d :: d in s.db.deliveries ==> d in next.deliveries && next.deliveries[d] == s.db.deliveries[d])
  {
    if QueuesFirst(s, a, e) {
      forall d: nat ensures RowAdded(s.db, Apply(p, s, a).db, e, s.tasks[a.t].sinks, a.now, d) {
        InsertAllRow(s.db, e, s.tasks[a.t].sinks, a.now, d);
      }
    }
  }

  /** Nothing can queue a first set for `e` any more. */
  ghost predicate DispatchIsOver(s: State, e: nat) {
    e < s.db.nextEvent && (e in s.db.events ==> HasDeliveries(s.db, e))
  }

  lemma DispatchStaysOver(p: Policy, s: State, a: Action, e: nat)
    requires Inv(p, s) && Enabled(p, s, a) && DispatchIsOver(s, e)
    ensures DispatchIsOver(Apply(p, s, a), e)
  {
    StepEvolves(p, s, a);
    var next := Apply(p, s, a);
    if e in next.db.events {
      var d :| d in s.db.deliveries && s.db.deliveries[d].event == e;
      assert d in next.db.deliveries && SameDelivery(s.db.deliveries[d], next.db.deliveries[d]);
    }
  }

  lemma {:induction false} OverIsForGood(p: Policy, r: Run, i: nat, j: nat, e: nat)
    requires PolicyOk(p) && IsRunFromStart(p, r) && i <= j < |r.states| && DispatchIsOver(r.states[i], e)
    ensures DispatchIsOver(r.states[j], e)
  {
    if i < j {
      OverIsForGood(p, r, i, j - 1, e);
      ReachableIsInv(p, r, j - 1);
      ActionAt(p, r, j - 1);
      DispatchStaysOver(p, r.states[j - 1], r.actions[j - 1], e);
    }
  }

  lemma QueueingEndsDispatch(p: Policy, s: State, a: Action, e: nat)
    requires Inv(p, s) && Enabled(p, s, a) && QueuesFirst(s, a, e)
    ensures DispatchIsOver(Apply(p, s, a), e)
  {
    var first, next := s.db.nextDelivery, Apply(p, s, a).db;
    assert Within(first, first, |s.tasks[a.t].sinks|);
    assert first in next.deliveries && next.deliveries[first].event == e;
  }

  /** At most one of all the ingests, resumed redeliveries and releases of an event, over the whole
      run, queues its first deliveries. */
  lemma FirstDispatchAtMostOnce(p: Policy, r: Run, i: nat, j: nat, e: nat)
    requires PolicyOk(p) && IsRunFromStart(p, r) && i < j < |r.actions|
    ensures !(QueuesFirst(r.states[i], r.actions[i], e) && QueuesFirst(r.states[j], r.actions[j], e))
  {
    if QueuesFirst(r.states[i], r.actions[i], e) {
      OverAfter(p, r, i, e);
      OverIsForGood(p, r, i + 1, j, e);
    }
  }

  lemma OverAfter(p: Policy, r: Run, i: nat, e: nat)
    requires PolicyOk(p) && IsRunFromStart(p, r) && i < |r.actions| && QueuesFirst(r.states[i], r.actions[i], e)
    ensures DispatchIsOver(r.states[i + 1], e)
  {
    ReachableIsInv(p, r, i);
    ActionAt(p, r, i);
    QueueingEndsDispatch(p, r.states[i], r.actions[i], e);
  }
}
