/**
 * Where three natural claims about the protocol stop being true: concrete runs from the empty
 * database. Safety and RollUp say exactly when.
 */
module Limits {
  import opened Basics
  import opened Tables
  import opened Settings
  import opened Retry
  import opened Protocol

  ghost predicate Reachable(p: Policy, s: State) {
    exists r :: IsRunFromStart(p, r) && r.states[|r.states| - 1] == s
  }

  lemma InitialIsReachable(p: Policy, s: State)
    requires Initial(s)
    ensures Reachable(p, s)
  {
    assert IsRunFromStart(p, Run([s], []));
  }

  lemma OneMore(p: Policy, s: State, a: Action)
    requires Reachable(p, s) && Enabled(p, s, a)
    ensures Reachable(p, Apply(p, s, a))
  {
    var r :| IsRunFromStart(p, r) && r.states[|r.states| - 1] == s;
    var more := Run(r.states + [Apply(p, s, a)], r.actions + [a]);
    forall k | 0 <= k < |more.actions| ensures StepOf(p, more, k) {
      if k < |r.actions| { assert StepOf(p, r, k); }
    }
    assert IsRunFromStart(p, more) && more.states[|more.states| - 1] == Apply(p, s, a);
  }

  // -- one event on its way, written out ---------------------------------------------------------------

  const ORDER := Inbound("shop", "1", "order", "body", 0.0, ["chat"], false)

  function Stored(status: EventStatus): EventRow { NewEvent(ORDER).(status := status) }

  function OneEvent(status: EventStatus): Db {
    Db(map[1 := Stored(status)], map[], map[], 2, 1, 1)
  }

  function OneDelivery(status: EventStatus, row: DeliveryRow): Db {
    Db(map[1 := Stored(status)], map[1 := row], map[], 2, 2, 1)
  }

  function Busy(c: Config, db: Db, tasks: map<nat, Task>): State {
    State(true, c, db, tasks, map[], {}, multiset{})
  }

  function Working(c: Config, db: Db, h: Handler): State {
    State(true, c, db, map[], map[1 := h], {}, multiset{})
  }

  function Chat(attempt: nat, status: DeliveryStatus, nextAt: Option<real>): DeliveryRow {
    DeliveryRow(1, "chat", attempt, status, nextAt)
  }

  lemma StoredAndWaiting(p: Policy, c: Config)
    ensures Reachable(p, Busy(c, OneEvent(Received), map[0 := Screen(1, ["chat"])]))
  {
    var s0 := State(false, c, EmptyDb, map[], map[], {}, multiset{});
    InitialIsReachable(p, s0);
    OneMore(p, s0, Start(c, 0.0));
    var s1 := Busy(c, EmptyDb, map[]);
    assert Apply(p, s0, Start(c, 0.0)) == s1;
    OneMore(p, s1, Begin(0, Record(ORDER)));
    var s2 := Busy(c, EmptyDb, map[0 := Record(ORDER)]);
    assert Apply(p, s1, Begin(0, Record(ORDER))) == s2;
    OneMore(p, s2, RunTask(0, 0.0, None, Skipped));
    assert Apply(p, s2, RunTask(0, 0.0, None, Skipped)) == Busy(c, OneEvent(Received), map[0 := Screen(1, ["chat"])]);
  }

  lemma QueuedUp(p: Policy, c: Config)
    ensures Reachable(p, Busy(c, OneDelivery(Received, Chat(0, Pending, Some(0.0))), map[]))
  {
    StoredAndWaiting(p, c);
    var run := RunTask(0, 0.0, None, Skipped);
    var s3 := Busy(c, OneEvent(Received), map[0 := Screen(1, ["chat"])]);
    OneMore(p, s3, run);
    var s4 := Busy(c, OneEvent(Received), map[0 := Enqueue(1, ["chat"])]);
    assert Apply(p, s3, run) == s4;
    OneMore(p, s4, run);
    assert EnqueueFirst(s4.db, 1, ["chat"], 0.0).deliveries == map[1 := Chat(0, Pending, Some(0.0))] by {
      assert Within(1, 1, 1);
    }
    assert Apply(p, s4, run) == Busy(c, OneDelivery(Received, Chat(0, Pending, Some(0.0))), map[]);
  }

  lemma QueuedAndClaimed(p: Policy, c: Config)
    ensures Reachable(p, Working(c, OneDelivery(Received, Chat(0, InFlight, Some(0.0))), Handler(1, "chat", 0, Fetch, false, false)))
  {
    QueuedUp(p, c);
    var s := Busy(c, OneDelivery(Received, Chat(0, Pending, Some(0.0))), map[]);
    assert Due(s.db, 0.0) == {1};
    var claim := ClaimBatch(0.0, {1});
    OneMore(p, s, claim);
    assert Apply(p, s, claim)
      == Working(c, OneDelivery(Received, Chat(0, InFlight, Some(0.0))), Handler(1, "chat", 0, Fetch, false, false));
  }

  /** The sink has accepted and the row says so; _settle_event_for comes next. */
  lemma DeliveredNotSettled(p: Policy, c: Config)
    requires "chat" in c.available
    ensures Reachable(p, Working(c, OneDelivery(Received, Chat(1, Delivered, None)),
                                 Handler(1, "chat", 0, FindEvent(false), true, false)).(counters := multiset{Counter("chat", Increments)}))
  {
    QueuedAndClaimed(p, c);
    var db := OneDelivery(Received, Chat(0, InFlight, Some(0.0)));
    var h := Handler(1, "chat", 0, Fetch, false, false);
    var step := RunHandler(1, 0.0, Accepts, 0.0);
    OneMore(p, Working(c, db, h), step);
    assert Apply(p, Working(c, db, h), step) == Working(c, db, h.(pc := Send));
    OneMore(p, Working(c, db, h.(pc := Send)), step);
    var s := Working(c, db, h.(pc := Write(Deliver)));
    assert Apply(p, Working(c, db, h.(pc := Send)), step) == s;
    OneMore(p, s, step);
    assert Apply(p, s, step).db.deliveries == map[1 := Chat(1, Delivered, None)];
    assert Apply(p, s, step).counters == multiset{Counter("chat", Increments)};
    assert Apply(p, s, step)
      == Working(c, OneDelivery(Received, Chat(1, Delivered, None)), h.(pc := FindEvent(false), wrote := true))
           .(counters := multiset{Counter("chat", Increments)});
  }

  lemma FaultedAfterWriting(p: Policy, c: Config)
    requires "chat" in c.available
    ensures Reachable(p, Working(c, OneDelivery(Received, Chat(1, Delivered, None)),
                                 Handler(1, "chat", 0, Faulted, true, false)).(counters := multiset{Counter("chat", Increments)}))
  {
    DeliveredNotSettled(p, c);
    var h := Handler(1, "chat", 0, FindEvent(false), true, false);
    var before := Working(c, OneDelivery(Received, Chat(1, Delivered, None)), h).(counters := multiset{Counter("chat", Increments)});
    OneMore(p, before, FailHandler(1));
    assert Apply(p, before, FailHandler(1)).handlers == map[1 := h.(pc := Faulted)];
  }

  /** "Settled is final" needs mark_* to be all or nothing: when mark_delivered raises after its first
      statement on the last attempt, recovery turns the delivered row into an exhausted one. */
  lemma DeliveredCanBecomeExhausted(p: Policy, c: Config) returns (before: State, after: State)
    requires p.maxAttempts == 1 && "chat" in c.available
    ensures Reachable(p, before) && Reachable(p, after)
    ensures before.db.deliveries == map[1 := Chat(1, Delivered, None)]
    ensures after.db.deliveries == map[1 := Chat(2, Exhausted, None)]
  {
    FaultedAfterWriting(p, c);
    var h := Handler(1, "chat", 0, Faulted, true, false);
    before := Working(c, OneDelivery(Received, Chat(1, Delivered, None)), h).(counters := multiset{Counter("chat", Increments)});
    OneMore(p, before, Recover(1, 0.0));
    var recovering := Apply(p, before, Recover(1, 0.0));
    assert recovering.handlers == map[1 := h.(pc := Write(Exhaust), recovering := true)];
    OneMore(p, recovering, RunHandler(1, 0.0, Accepts, 0.0));
    after := Apply(p, recovering, RunHandler(1, 0.0, Accepts, 0.0));
  }

  /** The roll-up needs its process to survive: a crash between the row's update and the last statement
      of _settle_event_for leaves a delivered event `received`, with nobody left to settle it. */
  lemma CrashLosesTheRollUp(p: Policy, c: Config) returns (s: State)
    requires "chat" in c.available
    ensures Reachable(p, s) && s.up && s.handlers == map[] && s.tasks == map[]
    ensures HasDeliveries(s.db, 1) && !HasUnsettled(s.db, 1) && s.db.events == map[1 := Stored(Received)]
  {
    DeliveredNotSettled(p, c);
    var before := Working(c, OneDelivery(Received, Chat(1, Delivered, None)),
                          Handler(1, "chat", 0, FindEvent(false), true, false)).(counters := multiset{Counter("chat", Increments)});
    OneMore(p, before, Crash);
    OneMore(p, Apply(p, before, Crash), Start(c, 0.0));
    s := Apply(p, Apply(p, before, Crash), Start(c, 0.0));
    assert 1 in s.db.deliveries;
  }

  /** A replay is past its status check while the event is still being screened. */
  lemma ReplayPastItsCheck(p: Policy, c: Config)
    requires "shop" in c.routes && Routed(c.routes["shop"], "order", "body") == ["chat"]
    ensures Reachable(p, Busy(c, OneEvent(Received), map[0 := Screen(1, ["chat"]), 1 := ReplayInsert(1, ["chat"])]))
  {
    StoredAndWaiting(p, c);
    var screen := Screen(1, ["chat"]);
    var s3 := Busy(c, OneEvent(Received), map[0 := screen]);
    OneMore(p, s3, Begin(1, ReplayLoad(1)));
    var s4 := Busy(c, OneEvent(Received), map[0 := screen, 1 := ReplayLoad(1)]);
    assert Apply(p, s3, Begin(1, ReplayLoad(1))) == s4;
    OneMore(p, s4, RunTask(1, 0.0, None, Skipped));
    assert Apply(p, s4, RunTask(1, 0.0, None, Skipped))
      == Busy(c, OneEvent(Received), map[0 := screen, 1 := ReplayInsert(1, ["chat"])]);
  }

  /** "Quarantined implies no deliveries" is false: replay checks the status and enqueues later, so one
      that overlaps the screening queues an event the detector then holds. */
  lemma QuarantinedCanHaveDeliveries(p: Policy, c: Config) returns (s: State)
    requires "shop" in c.routes && Routed(c.routes["shop"], "order", "body") == ["chat"]
    requires c.onDetect == Quarantine
    ensures Reachable(p, s)
    ensures 1 in s.db.events && s.db.events[1].status == Quarantined && HasDeliveries(s.db, 1)
  {
    ReplayPastItsCheck(p, c);
    var screen := Screen(1, ["chat"]);
    var s5 := Busy(c, OneEvent(Received), map[0 := screen, 1 := ReplayInsert(1, ["chat"])]);
    OneMore(p, s5, RunTask(1, 0.0, None, Skipped));
    var s6 := Apply(p, s5, RunTask(1, 0.0, None, Skipped));
    assert Within(1, 1, 1);
    assert 1 in s6.db.deliveries && s6.db.deliveries[1].event == 1;
    assert 0 in s6.tasks && s6.tasks[0] == screen;
    OneMore(p, s6, RunTask(0, 0.0, None, Scored(c.threshold)));
    s := Apply(p, s6, RunTask(0, 0.0, None, Scored(c.threshold)));
  }
}
