/**
 * The roll-up of delivery outcomes to the event's status is confluent: whatever the interleaving of
 * sibling handlers, replays, releases and late verdicts, an event whose deliveries are all settled
 * and which no handler is still settling has the one status its deliveries determine.
 */
module RollUp {
  import opened Basics
  import opened Tables
  import opened Integrity
  import opened Settings
  import opened Retry
  import opened Protocol
  import opened Invariant
  import opened Safety

  ghost predicate NoneInFlight(db: Db, e: nat) {
    forall d :: d in db.deliveries && db.deliveries[d].event == e ==> db.deliveries[d].status != InFlight
  }

  /** Between the row's own update and the end of _settle_event_for. */
  predicate Settling(h: Handler) {
    match h.pc
    case DeadLetter(_) => true
    case FindEvent(_) => true
    case CountUnsettled(_, _) => true
    case CountExhausted(_, _) => true
    case WriteStatus(_, _, _) => true
    case _ => false
  }

  ghost predicate BeingSettled(handlers: map<nat, Handler>, e: nat) {
    exists d :: d in handlers && handlers[d].event == e && Settling(handlers[d])
  }

  ghost predicate StatusRight(db: Db, handlers: map<nat, Handler>, e: nat) {
    e in db.events && AllSettled(db, e) && !BeingSettled(handlers, e) ==> db.events[e].status == RolledUp(db, e)
  }

  /** What a handler past its count of unsettled rows knows. The batch barrier is what keeps it
      true: no row of the event can be claimed, and so settle, before this batch is over. */
  ghost predicate CountsRight(db: Db, h: Handler) {
    match h.pc
    case CountExhausted(e, _) => NoneInFlight(db, e)
    case WriteStatus(e, _, status) => NoneInFlight(db, e) && (e in db.events ==> status == RolledUp(db, e))
    case _ => true
  }

  /** Recovery runs after gather() has returned: while one handler recovers, every other one is idle. */
  ghost predicate RecoveryIsAlone(s: State) {
    forall d, k :: d in s.handlers && k in s.handlers && d != k && s.handlers[d].recovering && !Idle(s.handlers[d])
      ==> Idle(s.handlers[k])
  }

  ghost predicate CountsInv(s: State) {
    && RecoveryIsAlone(s)
    && forall d :: d in s.handlers ==> CountsRight(s.db, s.handlers[d])
  }

  /** A handler of `e` is stopped between the row it wrote and the end of its roll-up: by a crash, or by an
      exception inside its mark_*. */
  ghost predicate Interrupts(s: State, a: Action, e: nat) {
    || (a.Crash? && BeingSettled(s.handlers, e))
    || (a.FailHandler? && a.d in s.handlers && s.handlers[a.d].event == e && Settling(s.handlers[a.d]))
  }

  /** Another handler that will still write the status of `e` after step `a`. */
  ghost predicate LeftToSettle(s: State, a: Action, e: nat) {
    a.FailHandler? && exists k :: k in s.handlers && k != a.d && s.handlers[k].event == e && Settling(s.handlers[k])
  }

  /** An interruption that strikes after the event's last delivery has settled, with a status that is not
      right yet and nobody left to write it. */
  ghost predicate LosesStatus(s: State, a: Action, e: nat) {
    && Interrupts(s, a, e) && !LeftToSettle(s, a, e)
    && e in s.db.events && AllSettled(s.db, e) && s.db.events[e].status != RolledUp(s.db, e)
  }

  /** The last statement of a roll-up of `e`. */
  predicate WritesStatus(s: State, a: Action, e: nat) {
    a.RunHandler? && a.d in s.handlers && s.handlers[a.d].pc.WriteStatus? && s.handlers[a.d].pc.e == e
  }

  // -- requests -------------------------------------------------------------------------------------

  /** What a statement of a request may do to the deliveries and the status of one stored event. */
  ghost predicate Harmless(db: Db, next: Db, e: nat) {
    e in next.events ==>
      && (HasExhausted(next, e) <==> HasExhausted(db, e))
      && (AllSettled(next, e) ==> e in db.events && AllSettled(db, e))
      && (NoneInFlight(db, e) ==> NoneInFlight(next, e))
      && (e in db.events && (db.events[e].status == Dispatched || db.events[e].status == Failed)
          ==> next.events[e].status == db.events[e].status)
  }

  lemma InsertIsHarmless(db: Db, f: nat, sinks: seq<string>, now: real, e: nat)
    requires EventIdsOk(db) && sinks != [] && f in db.events
    requires forall d :: d in db.deliveries ==> d < db.nextDelivery && db.deliveries[d].event in db.events
    ensures Harmless(db, InsertAll(db, f, sinks, now), e)
  {
    var next := InsertAll(db, f, sinks, now);
    forall d: nat ensures RowAdded(db, next, f, sinks, now, d) {
      InsertAllRow(db, f, sinks, now, d);
    }
    assert RowAdded(db, next, f, sinks, now, db.nextDelivery);
    forall d | d in db.deliveries || d in next.deliveries
      ensures d in db.deliveries ==> d in next.deliveries && next.deliveries[d] == db.deliveries[d]
      ensures d !in db.deliveries ==> next.deliveries[d].event == f && next.deliveries[d].status == Pending
    {
      assert RowAdded(db, next, f, sinks, now, d);
    }
  }

  lemma SweepIsHarmless(db: Db, before: real, e: nat)
    ensures Harmless(db, SweepEvents(db, before), e)
  {
    var next := SweepEvents(db, before);
    if e in next.events {
      assert forall d :: d in db.deliveries && db.deliveries[d].event == e ==> d in next.deliveries;
    }
  }

  /** A statement that leaves the deliveries alone and takes no event out of `dispatched` or `failed`. */
  lemma EventStatementIsHarmless(db: Db, next: Db, e: nat)
    requires next.deliveries == db.deliveries
    requires e in next.events ==>
      if e in db.events then
        db.events[e].status == Dispatched || db.events[e].status == Failed ==>
          next.events[e].status == db.events[e].status
      else !HasDeliveries(db, e)
    ensures Harmless(db, next, e)
  {
  }

  lemma RequestIsHarmless(c: Config, db: Db, task: Task, now: real, found: Option<nat>, screening: Screening, max: nat, e: nat)
    requires DbOk(db, max) && !task.Enqueue? && !task.ReplayInsert? && !task.PurgeEvents? && !task.PurgeDlq?
    ensures Harmless(db, TaskStep(c, db, task, now, found, screening).0, e)
  {
    EventStatementIsHarmless(db, TaskStep(c, db, task, now, found, screening).0, e);
  }

  lemma TaskStepIsHarmless(c: Config, db: Db, task: Task, now: real, found: Option<nat>, screening: Screening, max: nat, e: nat)
    requires DbOk(db, max) && TaskOk(db, task)
    ensures Harmless(db, TaskStep(c, db, task, now, found, screening).0, e)
  {
    match task
    case Enqueue(f, sinks) => if CanEnqueueFirst(db, f, sinks) { InsertIsHarmless(db, f, sinks, now, e); }
    case ReplayInsert(f, sinks) => if f in db.events { InsertIsHarmless(db, f, [sinks[0]], now, e); }
    case PurgeEvents(before) => SweepIsHarmless(db, before, e);
    case PurgeDlq(_, _) =>
    case _ => RequestIsHarmless(c, db, task, now, found, screening, max, e);
  }

  /** What CountsRight is about is the handler's own event. */
  predicate CountsOwnEvent(h: Handler) {
    match h.pc
    case CountExhausted(e, _) => e == h.event
    case WriteStatus(e, _, _) => e == h.event
    case _ => true
  }

  lemma HarmlessKeepsCounts(db: Db, next: Db, h: Handler)
    requires CountsRight(db, h) && CountsOwnEvent(h) && Harmless(db, next, h.event)
    requires h.event in next.events ==> h.event in db.events
    requires h.event !in next.events ==> !HasDeliveries(next, h.event)
    ensures CountsRight(next, h)
  {
  }

  lemma RunTaskKeepsCounts(p: Policy, s: State, a: Action)
    requires Inv(p, s) && Enabled(p, s, a) && a.RunTask? && CountsInv(s)
    ensures CountsInv(Apply(p, s, a))
  {
    var next := Apply(p, s, a);
    StepEvolves(p, s, a);
    assert next.handlers == s.handlers;
    forall d | d in s.handlers ensures CountsRight(next.db, s.handlers[d]) {
      var e := s.handlers[d].event;
      assert HandlerOk(p, s.db, d, s.handlers[d]);
      TaskStepIsHarmless(s.config, s.db, s.tasks[a.t], a.now, a.found, a.screening, p.maxAttempts, e);
      assert e !in next.db.events ==> !HasDeliveries(next.db, e);
      HarmlessKeepsCounts(s.db, next.db, s.handlers[d]);
    }
  }

  // -- handlers -------------------------------------------------------------------------------------

  /** A step of a handler of another event touches nothing of `e`. */
  lemma OtherEventUntouched(p: Policy, c: Config, db: Db, d: nat, h: Handler, now: real, answer: Answer, draw: real, e: nat)
    requires HandlerOk(p, db, d, h) && e != h.event
    ensures var next := HandlerStep(p, c, db, d, h, now, answer, draw).0;
      && (e in next.events <==> e in db.events)
      && (e in db.events ==> next.events[e] == db.events[e])
      && (HasExhausted(next, e) <==> HasExhausted(db, e))
      && (AllSettled(next, e) <==> AllSettled(db, e))
      && (NoneInFlight(next, e) <==> NoneInFlight(db, e))
  {
    var next := HandlerStep(p, c, db, d, h, now, answer, draw).0;
    assert forall k :: (k in next.deliveries <==> k in db.deliveries)
                    && (k in db.deliveries && db.deliveries[k].event == e ==> next.deliveries[k] == db.deliveries[k]);
    assert forall k :: k in next.deliveries && next.deliveries[k].event == e ==> db.deliveries[k].event == e;
  }

  /** The handler's own event, after its step. */
  lemma OwnEventSettles(p: Policy, c: Config, db: Db, d: nat, h: Handler, now: real, answer: Answer, draw: real)
    requires HandlerOk(p, db, d, h) && CountsRight(db, h) && !Idle(h)
    ensures var (next, h') := HandlerStep(p, c, db, d, h, now, answer, draw);
      h.event in next.events && AllSettled(next, h.event) && !Settling(h') ==>
        next.events[h.event].status == RolledUp(next, h.event) || (!Settling(h) && next == db)
  {
    var (next, h') := HandlerStep(p, c, db, d, h, now, answer, draw);
    match h.pc
    case Write(verdict) =>
      if h.event in next.events && !Settling(h') && next != db {
        assert d in next.deliveries && next.deliveries[d].event == h.event;
        assert Unsettled(next.deliveries[d]);
      }
    case WriteStatus(e, _, status) =>
      assert next.deliveries == db.deliveries;
    case _ =>
  }

  lemma OwnCountsRight(p: Policy, c: Config, db: Db, d: nat, h: Handler, now: real, answer: Answer, draw: real)
    requires HandlerOk(p, db, d, h) && CountsRight(db, h)
    ensures var (next, h') := HandlerStep(p, c, db, d, h, now, answer, draw); CountsRight(next, h')
  {
    match h.pc
    case CountExhausted(e, failed) =>
      if failed && e in db.events { assert d in db.deliveries && db.deliveries[d].event == e && db.deliveries[d].status == Exhausted; }
    case _ =>
  }

  /** A handler that has counted stands still while `d` moves: `d` itself is not about to write. */
  lemma SiblingCountsRight(p: Policy, c: Config, db: Db, d: nat, h: Handler, now: real, answer: Answer, draw: real, other: Handler)
    requires HandlerOk(p, db, d, h) && !h.recovering && CountsRight(db, other)
    ensures CountsRight(HandlerStep(p, c, db, d, h, now, answer, draw).0, other)
  {
    match other.pc
    case CountExhausted(e, _) => CountedEventStands(p, c, db, d, h, now, answer, draw, e);
    case WriteStatus(e, _, _) => CountedEventStands(p, c, db, d, h, now, answer, draw, e);
    case _ =>
  }

  lemma CountedEventStands(p: Policy, c: Config, db: Db, d: nat, h: Handler, now: real, answer: Answer, draw: real, e: nat)
    requires HandlerOk(p, db, d, h) && !h.recovering && NoneInFlight(db, e)
    ensures var next := HandlerStep(p, c, db, d, h, now, answer, draw).0;
      && NoneInFlight(next, e) && (e in next.events <==> e in db.events)
      && (HasExhausted(next, e) <==> HasExhausted(db, e))
  {
    if e != h.event {
      OtherEventUntouched(p, c, db, d, h, now, answer, draw, e);
    } else {
      assert !h.pc.Write?;
      assert HandlerStep(p, c, db, d, h, now, answer, draw).0.deliveries == db.deliveries;
    }
  }

  lemma RunHandlerKeepsCounts(p: Policy, s: State, a: Action)
    requires Inv(p, s) && Enabled(p, s, a) && a.RunHandler? && CountsInv(s)
    ensures CountsInv(Apply(p, s, a))
  {
    var next := Apply(p, s, a);
    var d, h := a.d, s.handlers[a.d];
    assert HandlerOk(p, s.db, d, h);
    forall k | k in next.handlers ensures CountsRight(next.db, next.handlers[k]) {
      if k == d {
        OwnCountsRight(p, s.config, s.db, d, h, a.now, a.answer, a.draw);
      } else if !Idle(s.handlers[k]) {
        SiblingCountsRight(p, s.config, s.db, d, h, a.now, a.answer, a.draw, s.handlers[k]);
      }
    }
  }

  lemma RunHandlerKeepsStatus(p: Policy, s: State, a: Action, e: nat)
    requires Inv(p, s) && Enabled(p, s, a) && a.RunHandler? && CountsInv(s) && StatusRight(s.db, s.handlers, e)
    ensures StatusRight(Apply(p, s, a).db, Apply(p, s, a).handlers, e)
  {
    var next := Apply(p, s, a);
    var d, h := a.d, s.handlers[a.d];
    assert HandlerOk(p, s.db, d, h);
    assert forall k :: k in s.handlers && k != d ==> next.handlers[k] == s.handlers[k];
    if e != h.event {
      OtherEventUntouched(p, s.config, s.db, d, h, a.now, a.answer, a.draw, e);
      if BeingSettled(s.handlers, e) {
        var k :| k in s.handlers && s.handlers[k].event == e && Settling(s.handlers[k]);
        assert next.handlers[k] == s.handlers[k];
      }
    } else if e in next.db.events && AllSettled(next.db, e) && !BeingSettled(next.handlers, e) {
      assert next.handlers[d].event == e && !Settling(next.handlers[d]);
      OwnEventSettles(p, s.config, s.db, d, h, a.now, a.answer, a.draw);
    }
  }

  /** The last statement of a roll-up makes the status right, whatever it was. */
  lemma WritingMakesRight(p: Policy, s: State, a: Action, e: nat)
    requires Inv(p, s) && Enabled(p, s, a) && CountsInv(s) && WritesStatus(s, a, e)
    ensures StatusRight(Apply(p, s, a).db, Apply(p, s, a).handlers, e)
  {
    assert HandlerOk(p, s.db, a.d, s.handlers[a.d]) && CountsRight(s.db, s.handlers[a.d]);
    assert Apply(p, s, a).db.deliveries == s.db.deliveries;
  }

  // -- the machine ------------------------------------------------------------------------------------

  lemma ClaimSettlesNothing(db: Db, claimed: set<nat>, now: real, e: nat)
    requires claimed <= Due(db, now)
    ensures HasExhausted(Claim(db, claimed), e) <==> HasExhausted(db, e)
    ensures AllSettled(Claim(db, claimed), e) <==> AllSettled(db, e)
  {
    var next := Claim(db, claimed);
    assert forall d :: d in db.deliveries ==>
      d in next.deliveries && next.deliveries[d].event == db.deliveries[d].event
      && (Unsettled(next.deliveries[d]) <==> Unsettled(db.deliveries[d]))
      && (next.deliveries[d].status == Exhausted <==> db.deliveries[d].status == Exhausted);
  }

  lemma RequeueSettlesNothing(db: Db, now: real, e: nat)
    ensures HasExhausted(Requeue(db, now), e) <==> HasExhausted(db, e)
    ensures AllSettled(Requeue(db, now), e) <==> AllSettled(db, e)
  {
    var next := Requeue(db, now);
    assert forall d :: d in db.deliveries ==>
      d in next.deliveries && next.deliveries[d].event == db.deliveries[d].event
      && (Unsettled(next.deliveries[d]) <==> Unsettled(db.deliveries[d]))
      && (next.deliveries[d].status == Exhausted <==> db.deliveries[d].status == Exhausted);
  }

  /** In every reachable state, whatever was interrupted before, every handler past its count is right. */
  lemma StepKeepsCounts(p: Policy, s: State, a: Action)
    requires Inv(p, s) && Enabled(p, s, a) && CountsInv(s)
    ensures CountsInv(Apply(p, s, a))
  {
    match a
    case RunTask(_, _, _, _) => RunTaskKeepsCounts(p, s, a);
    case RunHandler(_, _, _, _) => RunHandlerKeepsCounts(p, s, a);
    case _ =>
  }

  lemma RunTaskKeepsStatus(p: Policy, s: State, a: Action, e: nat)
    requires Inv(p, s) && Enabled(p, s, a) && a.RunTask? && StatusRight(s.db, s.handlers, e)
    ensures StatusRight(Apply(p, s, a).db, Apply(p, s, a).handlers, e)
  {
    TaskStepIsHarmless(s.config, s.db, s.tasks[a.t], a.now, a.found, a.screening, p.maxAttempts, e);
    assert Apply(p, s, a).handlers == s.handlers;
  }

  /** Bookkeeping steps end nothing. */
  lemma QuietStepKeepsStatus(p: Policy, s: State, a: Action, e: nat)
    requires Enabled(p, s, a) && StatusRight(s.db, s.handlers, e)
    requires a.Begin? || a.FailTask? || a.Recover? || a.EndBatch?
    ensures StatusRight(Apply(p, s, a).db, Apply(p, s, a).handlers, e)
  {
    if BeingSettled(s.handlers, e) {
      var k :| k in s.handlers && s.handlers[k].event == e && Settling(s.handlers[k]);
      assert k in Apply(p, s, a).handlers && Apply(p, s, a).handlers[k] == s.handlers[k];
    }
  }

  /** A crash or an exception: the status stays right unless the last one to settle `e` is stopped. */
  lemma FaultOnStatus(p: Policy, s: State, a: Action, e: nat)
    requires Inv(p, s) && Enabled(p, s, a) && StatusRight(s.db, s.handlers, e)
    requires a.FailHandler? || a.Crash?
    ensures StatusRight(Apply(p, s, a).db, Apply(p, s, a).handlers, e) <==> !LosesStatus(s, a, e)
  {
    var next := Apply(p, s, a);
    if BeingSettled(s.handlers, e) && !Interrupts(s, a, e) {
      var k :| k in s.handlers && s.handlers[k].event == e && Settling(s.handlers[k]);
      assert k in next.handlers && next.handlers[k] == s.handlers[k];
    }
    if LeftToSettle(s, a, e) {
      var k :| k in s.handlers && k != a.d && s.handlers[k].event == e && Settling(s.handlers[k]);
      assert next.handlers[k] == s.handlers[k];
    }
    forall k | k in next.handlers && Settling(next.handlers[k])
      ensures k in s.handlers && next.handlers[k] == s.handlers[k] && !(a.FailHandler? && k == a.d) {}
  }

  lemma ClaimKeepsStatus(p: Policy, s: State, a: Action, e: nat)
    requires Enabled(p, s, a) && a.ClaimBatch? && StatusRight(s.db, s.handlers, e)
    ensures StatusRight(Apply(p, s, a).db, Apply(p, s, a).handlers, e)
  {
    assert !BeingSettled(s.handlers, e);
    ClaimSettlesNothing(s.db, a.claimed, a.now, e);
  }

  lemma StartKeepsStatus(p: Policy, s: State, a: Action, e: nat)
    requires Inv(p, s) && Enabled(p, s, a) && a.Start? && StatusRight(s.db, s.handlers, e)
    ensures StatusRight(Apply(p, s, a).db, Apply(p, s, a).handlers, e)
  {
    assert !BeingSettled(s.handlers, e);
    RequeueSettlesNothing(s.db, a.now, e);
  }

  /** A step leaves a right status right if and only if it does not stop the last handler that would still
      have written it. */
  lemma StatusLostExactlyWhen(p: Policy, s: State, a: Action, e: nat)
    requires Inv(p, s) && Enabled(p, s, a) && CountsInv(s) && StatusRight(s.db, s.handlers, e)
    ensures StatusRight(Apply(p, s, a).db, Apply(p, s, a).handlers, e) <==> !LosesStatus(s, a, e)
  {
    match a
    case RunTask(_, _, _, _) => RunTaskKeepsStatus(p, s, a, e);
    case ClaimBatch(_, _) => ClaimKeepsStatus(p, s, a, e);
    case RunHandler(_, _, _, _) => RunHandlerKeepsStatus(p, s, a, e);
    case Start(_, _) => StartKeepsStatus(p, s, a, e);
    case FailHandler(_) => FaultOnStatus(p, s, a, e);
    case Crash => FaultOnStatus(p, s, a, e);
    case _ => QuietStepKeepsStatus(p, s, a, e);
  }

  // -- over a run -------------------------------------------------------------------------------------

  lemma {:induction false} CountsAt(p: Policy, r: Run, i: nat)
    requires PolicyOk(p) && IsRunFromStart(p, r) && i < |r.states|
    ensures CountsInv(r.states[i])
  {
    if i > 0 {
      CountsAt(p, r, i - 1);
      ReachableIsInv(p, r, i - 1);
      ActionAt(p, r, i - 1);
      StepKeepsCounts(p, r.states[i - 1], r.actions[i - 1]);
    }
  }

  ghost predicate RightAt(r: Run, i: nat, e: nat)
    requires i < |r.states|
  {
    StatusRight(r.states[i].db, r.states[i].handlers, e)
  }

  /** No step from m to i - 1 loses the status of `e`. */
  ghost predicate NothingLost(r: Run, m: nat, i: nat, e: nat)
    requires m <= i <= |r.actions| && |r.states| == |r.actions| + 1
  {
    forall k :: m <= k < i ==> !LosesStatus(r.states[k], r.actions[k], e)
  }

  /** The status of `e` has a right beginning at m: nothing has happened yet, or a roll-up has just ended. */
  ghost predicate RollUpBegins(r: Run, m: nat, e: nat)
    requires m <= |r.actions| && |r.states| == |r.actions| + 1
  {
    m == 0 || WritesStatus(r.states[m - 1], r.actions[m - 1], e)
  }

  lemma RightFromBeginning(p: Policy, r: Run, m: nat, e: nat)
    requires PolicyOk(p) && IsRunFromStart(p, r) && m <= |r.actions| && RollUpBegins(r, m, e)
    ensures RightAt(r, m, e)
  {
    if m > 0 {
      CountsAt(p, r, m - 1);
      ReachableIsInv(p, r, m - 1);
      ActionAt(p, r, m - 1);
      WritingMakesRight(p, r.states[m - 1], r.actions[m - 1], e);
    }
  }

  lemma RightStepAt(p: Policy, r: Run, k: nat, e: nat)
    requires PolicyOk(p) && IsRunFromStart(p, r) && k < |r.actions| && RightAt(r, k, e)
    ensures RightAt(r, k + 1, e) <==> !LosesStatus(r.states[k], r.actions[k], e)
  {
    CountsAt(p, r, k);
    ReachableIsInv(p, r, k);
    ActionAt(p, r, k);
    StatusLostExactlyWhen(p, r.states[k], r.actions[k], e);
  }

  lemma {:induction false} RightThroughout(p: Policy, r: Run, m: nat, i: nat, e: nat)
    requires PolicyOk(p) && IsRunFromStart(p, r) && m <= i <= |r.actions| && RollUpBegins(r, m, e)
    requires NothingLost(r, m, i, e)
    ensures RightAt(r, i, e)
  {
    if i == m {
      RightFromBeginning(p, r, m, e);
    } else {
      RightThroughout(p, r, m, i - 1, e);
      RightStepAt(p, r, i - 1, e);
    }
  }

  /** Once all of an event's deliveries are settled and no handler is mid-settle, its status is `failed`
      exactly when one of them is exhausted, and `dispatched` otherwise: for every interleaving, with
      crashes, restarts and exceptions anywhere, unless one of them has stopped the last handler that would
      have written the status. And if one has, the next roll-up to get through repairs it: only what comes
      after that one counts. */
  lemma RollUpIsConfluent(p: Policy, r: Run, m: nat, i: nat, e: nat)
    requires PolicyOk(p) && IsRunFromStart(p, r) && m <= i <= |r.actions|
    requires RollUpBegins(r, m, e) && NothingLost(r, m, i, e)
    requires e in r.states[i].db.events && HasDeliveries(r.states[i].db, e) && !HasUnsettled(r.states[i].db, e)
    requires forall d :: d in r.states[i].handlers && r.states[i].handlers[d].event == e
               ==> !Settling(r.states[i].handlers[d])
    ensures r.states[i].db.events[e].status == Failed <==> HasExhausted(r.states[i].db, e)
    ensures r.states[i].db.events[e].status == Dispatched <==> !HasExhausted(r.states[i].db, e)
  {
    RightThroughout(p, r, m, i, e);
    assert !BeingSettled(r.states[i].handlers, e);
  }
}
