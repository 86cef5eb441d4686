/**
 * The invariant of the protocol and the proof that every step keeps it, faults and crashes included.
 */
module Invariant {
  import opened Basics
  import opened Tables
  import opened Integrity
  import opened Settings
  import opened Retry
  import opened Protocol

  /** What a request still knows about the event it read some statements ago. */
  ghost predicate TaskOk(db: Db, task: Task) {
    match task
    case CheckDeliveries(e, row) => e < db.nextEvent && (e in db.events ==> SameEvent(row, db.events[e]))
    case Screen(e, sinks) => e < db.nextEvent && sinks != []
    case Enqueue(e, sinks) => e < db.nextEvent && sinks != []
    case ReleaseSwap(e, row) => e < db.nextEvent && (e in db.events ==> SameEvent(row, db.events[e]))
    case ReplayInsert(e, sinks) =>
      e < db.nextEvent && sinks != [] && (e in db.events ==> db.events[e].status != Filtered)
    case _ => true
  }

  /** The verdicts a handler may be about to write. */
  predicate VerdictOk(p: Policy, h: Handler, verdict: Verdict) {
    if h.recovering then (if LastAttempt(p, h) then verdict.Exhaust? else verdict.HandBack?)
    else !verdict.HandBack? && (verdict.Retry? ==> !LastAttempt(p, h))
  }

  predicate WaitOk(p: Policy, verdict: Verdict) {
    match verdict
    case Retry(wait) => 0.0 <= wait <= LongestWait(p)
    case HandBack(wait) => 0.0 <= wait <= LongestWait(p)
    case _ => true
  }

  predicate PcOk(p: Policy, h: Handler) {
    match h.pc
    case Fetch => !h.wrote && !h.recovering
    case Send => !h.wrote && !h.recovering
    case Write(verdict) => (h.recovering || !h.wrote) && VerdictOk(p, h, verdict) && WaitOk(p, verdict)
    case DeadLetter(_) => h.wrote
    case FindEvent(_) => h.wrote
    case CountUnsettled(e, _) => h.wrote && e == h.event
    case CountExhausted(e, _) => h.wrote && e == h.event
    case WriteStatus(e, failed, status) =>
      h.wrote && e == h.event && (status == Dispatched || status == Failed) && (failed ==> status == Failed)
    case Faulted => !h.recovering
    case Done => true
  }

  /** The status a settling handler has already given its row. */
  predicate RowAfterWrite(h: Handler, status: DeliveryStatus) {
    match h.pc
    case DeadLetter(_) => status == Exhausted
    case FindEvent(failed) => status == if failed then Exhausted else Delivered
    case CountUnsettled(_, failed) => status == if failed then Exhausted else Delivered
    case CountExhausted(_, failed) => status == if failed then Exhausted else Delivered
    case WriteStatus(_, failed, _) => status == if failed then Exhausted else Delivered
    case Done => status != InFlight
    case _ => status == Exhausted || status == Delivered
  }

  ghost predicate HandlerOk(p: Policy, db: Db, d: nat, h: Handler) {
    && PcOk(p, h)
    && h.attempt < p.maxAttempts
    && d < db.nextDelivery && h.event < db.nextEvent
    && (h.event in db.events ==> d in db.deliveries)
    && (d in db.deliveries ==>
          var row := db.deliveries[d];
          && row.event == h.event && row.sink == h.sink
          && (if h.wrote then RowAfterWrite(h, row.status)
              else row.status == InFlight && row.attempt == h.attempt))
    && (!h.wrote ==> d in db.deliveries)
  }

  ghost predicate TasksOk(s: State) {
    forall t :: t in s.tasks ==> TaskOk(s.db, s.tasks[t])
  }

  ghost predicate HandlersOk(p: Policy, s: State) {
    forall d :: d in s.handlers ==> HandlerOk(p, s.db, d, s.handlers[d])
  }

  /** Who is responsible for a row that is in flight. */
  ghost predicate InFlightOwned(s: State) {
    forall d :: d in s.db.deliveries && s.db.deliveries[d].status == InFlight ==>
      (d in s.handlers && !s.handlers[d].wrote) || d in s.stuck
  }

  predicate PolicyOk(p: Policy) {
    1 <= p.maxAttempts && NonNegative(p)
  }

  ghost predicate Inv(p: Policy, s: State) {
    && PolicyOk(p)
    && DbOk(s.db, p.maxAttempts)
    && TasksOk(s)
    && HandlersOk(p, s)
    && (s.up ==> InFlightOwned(s))
    && (!s.up ==> s.tasks == map[] && s.handlers == map[])
  }

  /** The delivery rows a step rewrites. */
  function Changed(s: State, a: Action): set<nat> {
    match a
    case ClaimBatch(_, claimed) => claimed
    case RunHandler(d, _, _, _) => if d in s.handlers && s.handlers[d].pc.Write? then {d} else {}
    case Start(_, _) => set d | d in s.db.deliveries && Unsettled(s.db.deliveries[d])
    case _ => {}
  }

  // -- frames ---------------------------------------------------------------------------------

  lemma TaskOkStable(db: Db, next: Db, changed: set<nat>, task: Task)
    requires TaskOk(db, task) && Evolves(db, next, changed)
    ensures TaskOk(next, task)
  {
  }

  lemma HandlerOkStable(p: Policy, db: Db, next: Db, changed: set<nat>, d: nat, h: Handler)
    requires HandlerOk(p, db, d, h) && Evolves(db, next, changed) && d !in changed
    ensures HandlerOk(p, next, d, h)
  {
  }

  // -- steps of requests ------------------------------------------------------------------------

  lemma ScreenKeeps(p: Policy, c: Config, db: Db, e: nat, now: real, screening: Screening)
    requires PolicyOk(p) && DbOk(db, p.maxAttempts)
    ensures var next := TaskStep(c, db, Screen(e, ["sink"]), now, None, screening).0;
            DbOk(next, p.maxAttempts) && Evolves(db, next, {})
  {
    if !screening.Skipped? {
      var status := StatusAfter(c, screening);
      RecordDetectionKeeps(db, e, if screening.Scored? then Some(screening.score) else None, status,
                           if status == Quarantined then Some(now) else None, p.maxAttempts);
    }
  }

  lemma NothingKeeps(db: Db, max: nat)
    requires DbOk(db, max)
    ensures Evolves(db, db, {})
  {
  }

  lemma TaskStepKeepsDb(p: Policy, c: Config, db: Db, task: Task, now: real, found: Option<nat>, screening: Screening)
    requires PolicyOk(p) && DbOk(db, p.maxAttempts) && TaskOk(db, task)
    ensures var next := TaskStep(c, db, task, now, found, screening).0;
            DbOk(next, p.maxAttempts) && Evolves(db, next, {})
  {
    var max := p.maxAttempts;
    match task
    case Record(ev) => InsertEventKeeps(db, ev, max);
    case Screen(e, sinks) => ScreenKeeps(p, c, db, e, now, screening);
    case Enqueue(e, sinks) =>
      if CanEnqueueFirst(db, e, sinks) { InsertAllKeeps(db, e, sinks, now, max); }
    case ReleaseSwap(e, row) => ReleaseEventKeeps(db, e, max);
    case ReplayInsert(e, sinks) =>
      if e in db.events { InsertAllKeeps(db, e, [sinks[0]], now, max); }
    case PurgeDlq(_, dlqBefore) => SweepDlqKeeps(db, dlqBefore, max);
    case PurgeEvents(eventsBefore) => SweepEventsKeeps(db, eventsBefore, max);
    case _ => NothingKeeps(db, max);
  }

  lemma TaskStepKeepsTask(p: Policy, c: Config, db: Db, task: Task, now: real, found: Option<nat>, screening: Screening)
    requires EventIdsOk(db) && TaskOk(db, task)
    ensures var (next, then') := TaskStep(c, db, task, now, found, screening);
            then'.Some? ==> TaskOk(next, then'.value)
  {
  }

  // -- steps of handlers --------------------------------------------------------------------------

  lemma WriteStepKeepsDb(p: Policy, db: Db, d: nat, h: Handler, now: real)
    requires PolicyOk(p) && DbOk(db, p.maxAttempts) && HandlerOk(p, db, d, h) && h.pc.Write?
    ensures DbOk(WriteStep(db, d, h.pc.verdict, now), p.maxAttempts)
    ensures Evolves(db, WriteStep(db, d, h.pc.verdict, now), {d})
  {
    var verdict := h.pc.verdict;
    if !verdict.HandBack? || CanReleaseClaim(db, d) {
      UpdateKeeps(db, d, RowStatus(verdict), RowNextAt(verdict, now), p.maxAttempts);
    }
  }

  lemma WriteStepKeepsHandler(p: Policy, db: Db, d: nat, h: Handler, now: real)
    requires HandlerOk(p, db, d, h) && h.pc.Write?
    ensures HandlerOk(p, WriteStep(db, d, h.pc.verdict, now), d,
                      h.(pc := PcAfterWrite(h.pc.verdict, now), wrote := true))
  {
  }

  lemma AskIsOk(p: Policy, h: Handler, answer: Answer, draw: real)
    requires PolicyOk(p) && !h.recovering && -1.0 <= draw <= 1.0
    ensures VerdictOk(p, h, Ask(p, h, answer, draw)) && WaitOk(p, Ask(p, h, answer, draw))
  {
    match answer
    case Busy(retryAfter) => WaitIsBounded(p, h.attempt + 1, retryAfter, draw);
    case Raises => WaitIsBounded(p, h.attempt + 1, None, draw);
    case _ =>
  }

  lemma HandlerStepKeepsDb(p: Policy, c: Config, db: Db, d: nat, h: Handler, now: real, answer: Answer, draw: real)
    requires PolicyOk(p) && DbOk(db, p.maxAttempts) && HandlerOk(p, db, d, h)
    ensures var next := HandlerStep(p, c, db, d, h, now, answer, draw).0;
            DbOk(next, p.maxAttempts) && Evolves(db, next, if h.pc.Write? then {d} else {})
  {
    match h.pc
    case Write(_) => WriteStepKeepsDb(p, db, d, h, now);
    case DeadLetter(at) => if d in db.deliveries { InsertDlqKeeps(db, d, at, p.maxAttempts); }
    case WriteStatus(e, _, status) => SetStatusKeeps(db, e, status, p.maxAttempts);
    case _ =>
  }

  lemma HandlerStepKeepsHandler(p: Policy, c: Config, db: Db, d: nat, h: Handler, now: real, answer: Answer, draw: real)
    requires PolicyOk(p) && HandlerOk(p, db, d, h) && -1.0 <= draw <= 1.0
    ensures var (next, h') := HandlerStep(p, c, db, d, h, now, answer, draw); HandlerOk(p, next, d, h')
  {
    match h.pc
    case Send => AskIsOk(p, h, answer, draw);
    case Write(_) => WriteStepKeepsHandler(p, db, d, h, now);
    case _ =>
  }

  // -- the machine --------------------------------------------------------------------------------

  /** No step moves the tables further than `Evolves` allows. */
  lemma StepEvolves(p: Policy, s: State, a: Action)
    requires Inv(p, s) && Enabled(p, s, a)
    ensures DbOk(Apply(p, s, a).db, p.maxAttempts) && Evolves(s.db, Apply(p, s, a).db, Changed(s, a))
  {
    match a
    case RunTask(t, now, found, screening) =>
      TaskStepKeepsDb(p, s.config, s.db, s.tasks[t], now, found, screening);
    case ClaimBatch(now, claimed) => ClaimKeeps(s.db, claimed, now, p.maxAttempts);
    case RunHandler(d, now, answer, draw) =>
      HandlerStepKeepsDb(p, s.config, s.db, d, s.handlers[d], now, answer, draw);
    case Start(_, now) => RequeueKeeps(s.db, now, p.maxAttempts);
    case _ =>
  }

  lemma OthersStable(p: Policy, s: State, db: Db, changed: set<nat>)
    requires TasksOk(s) && HandlersOk(p, s) && Evolves(s.db, db, changed)
    ensures forall t :: t in s.tasks ==> TaskOk(db, s.tasks[t])
    ensures forall d :: d in s.handlers && d !in changed ==> HandlerOk(p, db, d, s.handlers[d])
  {
    forall t | t in s.tasks ensures TaskOk(db, s.tasks[t]) {
      TaskOkStable(s.db, db, changed, s.tasks[t]);
    }
    forall d | d in s.handlers && d !in changed ensures HandlerOk(p, db, d, s.handlers[d]) {
      HandlerOkStable(p, s.db, db, changed, d, s.handlers[d]);
    }
  }

  lemma RunTaskKeeps(p: Policy, s: State, a: Action)
    requires Inv(p, s) && Enabled(p, s, a) && a.RunTask?
    ensures Inv(p, Apply(p, s, a))
  {
    StepEvolves(p, s, a);
    TaskStepKeepsTask(p, s.config, s.db, s.tasks[a.t], a.now, a.found, a.screening);
    OthersStable(p, s, Apply(p, s, a).db, {});
  }

  /** A row in flight after the step was in flight before it, or has just been claimed. */
  lemma InFlightStaysOwned(s: State, next: State, changed: set<nat>)
    requires InFlightOwned(s) && DeliveriesEvolve(s.db, next.db, changed)
    requires s.stuck <= next.stuck
    requires forall d :: d in s.handlers && d !in changed && !s.handlers[d].wrote ==>
               (d in next.handlers && !next.handlers[d].wrote) || d in next.stuck
    requires forall d :: d in changed && d in next.db.deliveries && next.db.deliveries[d].status == InFlight ==>
               d in next.handlers && !next.handlers[d].wrote
    ensures InFlightOwned(next)
  {
  }

  lemma RunHandlerKeepsOthers(p: Policy, s: State, a: Action)
    requires Inv(p, s) && Enabled(p, s, a) && a.RunHandler?
    ensures HandlersOk(p, Apply(p, s, a)) && TasksOk(Apply(p, s, a))
  {
    HandlerStepKeepsDb(p, s.config, s.db, a.d, s.handlers[a.d], a.now, a.answer, a.draw);
    HandlerStepKeepsHandler(p, s.config, s.db, a.d, s.handlers[a.d], a.now, a.answer, a.draw);
    OthersStable(p, s, Apply(p, s, a).db, Changed(s, a));
  }

  lemma RunHandlerKeepsOwners(p: Policy, s: State, a: Action)
    requires HandlersOk(p, s) && InFlightOwned(s) && Enabled(p, s, a) && a.RunHandler?
    requires DeliveriesEvolve(s.db, Apply(p, s, a).db, Changed(s, a)) && HandlersOk(p, Apply(p, s, a))
    ensures InFlightOwned(Apply(p, s, a))
  {
    var next := Apply(p, s, a);
    assert HandlerOk(p, s.db, a.d, s.handlers[a.d]) && HandlerOk(p, next.db, a.d, next.handlers[a.d]);
    InFlightStaysOwned(s, next, Changed(s, a));
  }

  lemma RunHandlerKeeps(p: Policy, s: State, a: Action)
    requires Inv(p, s) && Enabled(p, s, a) && a.RunHandler?
    ensures Inv(p, Apply(p, s, a))
  {
    StepEvolves(p, s, a);
    RunHandlerKeepsOthers(p, s, a);
    RunHandlerKeepsOwners(p, s, a);
  }

  lemma ClaimedHandlersOk(p: Policy, s: State, a: Action)
    requires DbOk(s.db, p.maxAttempts) && Enabled(p, s, a) && a.ClaimBatch?
    ensures HandlersOk(p, Apply(p, s, a))
  {
  }

  lemma ClaimBatchKeeps(p: Policy, s: State, a: Action)
    requires Inv(p, s) && Enabled(p, s, a) && a.ClaimBatch?
    ensures Inv(p, Apply(p, s, a))
  {
    var next := Apply(p, s, a);
    StepEvolves(p, s, a);
    ClaimedHandlersOk(p, s, a);
    OthersStable(p, s, next.db, Changed(s, a));
    InFlightStaysOwned(s, next, Changed(s, a));
  }

  lemma RecoverKeeps(p: Policy, s: State, a: Action)
    requires Inv(p, s) && Enabled(p, s, a) && a.Recover?
    ensures Inv(p, Apply(p, s, a))
  {
    WaitIsBounded(p, s.handlers[a.d].attempt + 1, None, a.draw);
    InFlightStaysOwned(s, Apply(p, s, a), {});
  }

  /** The steps that touch no table: a request begins or fails, a handler fails, a batch ends, a crash. */
  lemma QuietKeeps(p: Policy, s: State, a: Action)
    requires Inv(p, s) && Enabled(p, s, a)
    requires a.Begin? || a.FailTask? || a.FailHandler? || a.EndBatch? || a.Crash?
    ensures Inv(p, Apply(p, s, a))
  {
  }

  lemma StartKeeps(p: Policy, s: State, a: Action)
    requires Inv(p, s) && Enabled(p, s, a) && a.Start?
    ensures Inv(p, Apply(p, s, a))
  {
    StepEvolves(p, s, a);
  }

  /** Every step, whatever the interleaving, keeps the invariant. */
  lemma StepKeeps(p: Policy, s: State, a: Action)
    requires Inv(p, s) && Enabled(p, s, a)
    ensures Inv(p, Apply(p, s, a))
  {
    match a
    case RunTask(_, _, _, _) => RunTaskKeeps(p, s, a);
    case ClaimBatch(_, _) => ClaimBatchKeeps(p, s, a);
    case RunHandler(_, _, _, _) => RunHandlerKeeps(p, s, a);
    case Recover(_, _) => RecoverKeeps(p, s, a);
    case Start(_, _) => StartKeeps(p, s, a);
    case _ => QuietKeeps(p, s, a);
  }

  lemma {:induction false} RunKeeps(p: Policy, r: Run, i: nat)
    requires IsRun(p, r) && Inv(p, r.states[0]) && i < |r.states|
    ensures Inv(p, r.states[i])
  {
    if i > 0 {
      RunKeeps(p, r, i - 1);
      assert StepOf(p, r, i - 1);
      StepKeeps(p, r.states[i - 1], r.actions[i - 1]);
    }
  }

  /** In every reachable state of every run the invariant holds. */
  lemma ReachableIsInv(p: Policy, r: Run, i: nat)
    requires PolicyOk(p) && IsRunFromStart(p, r) && i < |r.states|
    ensures Inv(p, r.states[i])
  {
    RunKeeps(p, r, i);
  }
}
