/** The machine never gets stuck: there is always a step to take, and every batch of deliveries comes to its end. */
module Progress {
  import opened Basics
  import opened Tables
  import opened Settings
  import opened Retry
  import opened Protocol
  import opened Invariant
  import opened Store
  import opened Answers

  /** Whatever a request is at, it can take its next statement, or fail, or the process can crash; a process
      that is down can start with any configuration. */
  lemma RequestsCanGoOn(p: Policy, s: State, t: nat, now: real, screening: Screening, config: Config)
    ensures !s.up ==> Enabled(p, s, Start(config, now))
    ensures s.up ==> Enabled(p, s, Crash)
    ensures s.up && t in s.tasks ==>
      Enabled(p, s, FailTask(t)) && exists found :: Enabled(p, s, RunTask(t, now, found, screening))
    ensures s.up && t !in s.tasks ==> forall task: Task :: task.Record? || task.ReleaseLoad? || task.ReplayLoad? || task.PurgeDlq? ==>
      Enabled(p, s, Begin(t, task))
  {
    if s.up && t in s.tasks {
      var found := Lookup(s.db, s.tasks[t]);
      assert Enabled(p, s, RunTask(t, now, found, screening));
    }
  }

  lemma Lookup(db: Db, task: Task) returns (found: Option<nat>)
    ensures task.FindDuplicate? ==> IsLookup(db, task.ev, found)
  {
    found := None;
    if task.FindDuplicate? && KeyTaken(db, task.ev) {
      var e :| e in db.events && SameKey(db.events[e], task.ev);
      found := Some(e);
    }
  }

  /** The worker can always go on, whatever the sinks answer: with no batch it can claim one; a handler at work
      can be moved, or fail; once none is at work, one that raised can be recovered, or else the batch ends. */
  lemma WorkerCanGoOn(p: Policy, s: State, now: real, answer: Answer, draw: real)
    requires s.up && -1.0 <= draw <= 1.0
    ensures s.handlers == map[] ==> exists claimed :: Enabled(p, s, ClaimBatch(now, claimed))
    ensures forall d :: d in s.handlers && !Idle(s.handlers[d]) ==>
      Enabled(p, s, RunHandler(d, now, answer, draw)) && Enabled(p, s, FailHandler(d))
    ensures (forall d :: d in s.handlers ==> Idle(s.handlers[d])) ==>
      Enabled(p, s, EndBatch) || exists d :: Enabled(p, s, Recover(d, draw))
  {
    if s.handlers == map[] {
      var claimed := ClaimExists(s.db, now, CLAIM_BATCH);
      assert Enabled(p, s, ClaimBatch(now, claimed));
    }
    if (forall d :: d in s.handlers ==> Idle(s.handlers[d])) && !Enabled(p, s, EndBatch) {
      var d :| d in s.handlers && s.handlers[d].pc != Done;
      assert Enabled(p, s, Recover(d, draw));
    }
  }

  /** How many moves a handler has left at most, its recovery included. */
  function MovesLeft(h: Handler): nat {
    var before := if h.recovering then 0 else 8;
    match h.pc
    case Fetch => before + 8
    case Send => before + 7
    case Write(_) => before + 6
    case DeadLetter(_) => before + 5
    case FindEvent(_) => before + 4
    case CountUnsettled(_, _) => before + 3
    case CountExhausted(_, _) => before + 2
    case WriteStatus(_, _, _) => before + 1
    case Faulted => 8
    case Done => 0
  }

  lemma OwnMove(p: Policy, c: Config, db: Db, d: nat, h: Handler, now: real, answer: Answer, draw: real)
    requires !Idle(h) && PcOk(p, h)
    ensures MovesLeft(HandlerStep(p, c, db, d, h, now, answer, draw).1) < MovesLeft(h)
  {
  }

  lemma OtherMove(p: Policy, h: Handler, draw: real)
    requires PcOk(p, h)
    ensures !Idle(h) ==> MovesLeft(Raised(h)) < MovesLeft(h)
    ensures h.pc == Faulted ==> MovesLeft(RecoverStep(p, h, draw)) < MovesLeft(h)
  {
  }

  lemma StepMoves(p: Policy, s: State, a: Action, d: nat)
    requires Enabled(p, s, a) && d in s.handlers && d in Apply(p, s, a).handlers && PcOk(p, s.handlers[d])
    ensures var before, after := s.handlers[d], Apply(p, s, a).handlers[d];
      if MovesHandler(a, d) then MovesLeft(after) < MovesLeft(before) else after == before
  {
    match a
    case RunHandler(k, now, answer, draw) =>
      if k == d { OwnMove(p, s.config, s.db, d, s.handlers[d], now, answer, draw); }
    case FailHandler(k) => if k == d { OtherMove(p, s.handlers[d], 0.0); }
    case Recover(k, draw) => if k == d { OtherMove(p, s.handlers[d], draw); }
    case _ =>
  }

  /** Every move of a handler uses one up, whatever the answer, also if it raises; no other step gives or takes
      any while the batch lasts. So a handler is done after at most 16 moves. */
  lemma MovesRunOut(p: Policy, s: State, a: Action, d: nat)
    requires Inv(p, s) && Enabled(p, s, a) && d in s.handlers && d in Apply(p, s, a).handlers
    ensures var before, after := s.handlers[d], Apply(p, s, a).handlers[d];
      if MovesHandler(a, d) then MovesLeft(after) < MovesLeft(before) else after == before
    ensures MovesLeft(s.handlers[d]) <= 16
  {
    assert HandlerOk(p, s.db, d, s.handlers[d]);
    StepMoves(p, s, a, d);
  }
}
