/**
 * The store and the engine as one state machine. A step is one SQL statement of one coroutine, the
 * answer of one sink, an exception, a crash or a start; coroutines interleave freely between steps.
 * Everything the code does not decide (verdicts, answers, clocks, which due rows a claim picks) is
 * in the action, so `Apply` is a function and a run is a sequence of actions.
 */
module Protocol {
  import opened Basics
  import opened Tables
  import opened Settings
  import opened Retry

  /** A request or sweep in progress, at the statement it is about to execute. */
  datatype Task =
    | Record(ev: Inbound)
    | FindDuplicate(ev: Inbound)
    | Reload(e: nat)
    | CheckDeliveries(e: nat, row: EventRow)
    | Screen(e: nat, sinks: seq<string>)
    | Enqueue(e: nat, sinks: seq<string>)
    | ReleaseLoad(e: nat)
    | ReleaseSwap(e: nat, row: EventRow)
    | ReplayLoad(e: nat)
    | ReplayInsert(e: nat, sinks: seq<string>)
    | PurgeDlq(eventsBefore: real, dlqBefore: real)
    | PurgeEvents(eventsBefore: real)

  /** How a sink's deliver() ends. */
  datatype Answer = Accepts | Refuses | Busy(retryAfter: Option<real>) | Raises

  /** The mark_* call a handler has decided on. HandBack is release_claim, used by recovery only. */
  datatype Verdict = Deliver | Exhaust | Retry(wait: real) | HandBack(wait: real)

  datatype Pc =
    | Fetch
    | Send
    | Write(verdict: Verdict)
    | DeadLetter(at: real)
    | FindEvent(failed: bool)
    | CountUnsettled(e: nat, failed: bool)
    | CountExhausted(e: nat, failed: bool)
    | WriteStatus(e: nat, failed: bool, status: EventStatus)
    | Faulted
    | Done

  /** One _deliver coroutine of the current batch; event, sink and attempt are the claimed snapshot.
      `wrote` says its mark_* has already updated the delivery row. */
  datatype Handler = Handler(event: nat, sink: string, attempt: nat, pc: Pc, wrote: bool, recovering: bool)

  /** The counters of this process: the outcomes of delivery_attempts_total, the count of the latency
      histogram, and how often the attempt column has been incremented. */
  datatype Series = DeliveredTotal | RetryTotal | PermanentTotal | ExhaustedTotal | ErrorTotal
                  | Observations | Increments

  datatype Counter = Counter(sink: string, series: Series)

  /** `stuck` are rows whose recovery failed and which stay in flight until the next start. */
  datatype State = State(up: bool, config: Config, db: Db, tasks: map<nat, Task>,
                         handlers: map<nat, Handler>, stuck: set<nat>, counters: multiset<Counter>)

  datatype Action =
    | Begin(t: nat, task: Task)
    | RunTask(t: nat, now: real, found: Option<nat>, screening: Screening)
    | FailTask(t: nat)
    | ClaimBatch(now: real, claimed: set<nat>)
    | RunHandler(d: nat, now: real, answer: Answer, draw: real)
    | FailHandler(d: nat)
    | Recover(d: nat, draw: real)
    | EndBatch
    | Crash
    | Start(config: Config, now: real)

  const CLAIM_BATCH: nat := 32

  predicate NotReplayable(status: EventStatus) {
    status == Dropped || status == Quarantined || status == Filtered
  }

  // -- requests -----------------------------------------------------------------------------

  predicate FirstStep(task: Task) {
    task.Record? || task.ReleaseLoad? || task.ReplayLoad? || task.PurgeDlq?
  }

  /** One statement of a request: the tables after it, and the statement that comes next, if any. */
  function TaskStep(c: Config, db: Db, task: Task, now: real, found: Option<nat>, screening: Screening)
    : (Db, Option<Task>)
  {
    match task
    case Record(ev) =>
      if KeyTaken(db, ev) then (db, Some(FindDuplicate(ev)))
      else (InsertEvent(db, ev),
            if ev.filtered || ev.sinks == [] then None else Some(Screen(db.nextEvent, ev.sinks)))
    case FindDuplicate(ev) =>
      (db, Some(Reload(match found case Some(e) => e case None => 0)))
    case Reload(e) =>
      if e in db.events && db.events[e].status == Received
         && db.events[e].sinks.Some? && db.events[e].sinks.value != []
      then (db, Some(CheckDeliveries(e, db.events[e])))
      else (db, None)
    case CheckDeliveries(e, row) =>
      var sinks := if row.sinks.Some? then StillRouted(row.sinks.value, SinksFor(c, row)) else [];
      (db, if HasDeliveries(db, e) || sinks == [] then None else Some(Screen(e, sinks)))
    case Screen(e, sinks) =>
      if screening.Skipped? then (db, Some(Enqueue(e, sinks)))
      else
        var status := StatusAfter(c, screening);
        (RecordDetection(db, e, if screening.Scored? then Some(screening.score) else None, status,
                         if status == Quarantined then Some(now) else None),
         if status == Received then Some(Enqueue(e, sinks)) else None)
    case Enqueue(e, sinks) => (EnqueueFirst(db, e, sinks, now), None)
    case ReleaseLoad(e) =>
      (db, if CanRelease(db, e) then Some(ReleaseSwap(e, db.events[e])) else None)
    case ReleaseSwap(e, row) =>
      (ReleaseEvent(db, e),
       if CanRelease(db, e) && SinksFor(c, row) != [] then Some(Enqueue(e, SinksFor(c, row))) else None)
    case ReplayLoad(e) =>
      (db, if e in db.events && !NotReplayable(db.events[e].status) && SinksFor(c, db.events[e]) != []
           then Some(ReplayInsert(e, SinksFor(c, db.events[e]))) else None)
    case ReplayInsert(e, sinks) =>
      // The foreign key refuses a row for a swept event, and the exception ends the request.
      if sinks == [] || e !in db.events then (db, None)
      else (InsertAll(db, e, [sinks[0]], now),
            if |sinks| == 1 then None else Some(ReplayInsert(e, sinks[1..])))
    case PurgeDlq(eventsBefore, dlqBefore) => (SweepDlq(db, dlqBefore), Some(PurgeEvents(eventsBefore)))
    case PurgeEvents(eventsBefore) => (SweepEvents(db, eventsBefore), None)
  }

  // -- the worker's batch -------------------------------------------------------------------

  function Claimed(row: DeliveryRow): Handler {
    Handler(row.event, row.sink, row.attempt, Fetch, false, false)
  }

  predicate LastAttempt(p: Policy, h: Handler) {
    h.attempt + 1 >= p.maxAttempts
  }

  /** _schedule_retry: dead-letter on the last attempt, wait otherwise. */
  function RetryOrExhaust(p: Policy, h: Handler, retryAfter: Option<real>, draw: real): Verdict {
    if LastAttempt(p, h) then Exhaust else Retry(RetryDelay(p, h.attempt + 1, retryAfter, draw))
  }

  function Ask(p: Policy, h: Handler, answer: Answer, draw: real): Verdict {
    match answer
    case Accepts => Deliver
    case Refuses => Exhaust
    case Busy(retryAfter) => RetryOrExhaust(p, h, retryAfter, draw)
    case Raises => RetryOrExhaust(p, h, None, draw)
  }

  /** What a verdict makes of the row: SET status = ..., next_attempt_at = .... */
  function RowStatus(verdict: Verdict): DeliveryStatus {
    match verdict
    case Deliver => Delivered
    case Exhaust => Exhausted
    case Retry(_) => Pending
    case HandBack(_) => Pending
  }

  function RowNextAt(verdict: Verdict, now: real): Option<real> {
    match verdict
    case Deliver => None
    case Exhaust => None
    case Retry(wait) => Some(now + wait)
    case HandBack(wait) => Some(now + wait)
  }

  function PcAfterWrite(verdict: Verdict, now: real): Pc {
    match verdict
    case Deliver => FindEvent(false)
    case Exhaust => DeadLetter(now)
    case Retry(_) => Done
    case HandBack(_) => Done
  }

  /** The first statement of each mark_* updates by id alone; release_claim asks for `in_flight`. */
  function WriteStep(db: Db, d: nat, verdict: Verdict, now: real): Db {
    if verdict.HandBack? && !CanReleaseClaim(db, d) then db
    else Update(db, d, RowStatus(verdict), RowNextAt(verdict, now))
  }

  /** Where an exception takes a handler: to gather, or, during recovery, to the log. */
  function Raised(h: Handler): Handler {
    h.(pc := if h.recovering then Done else Faulted)
  }

  function HandlerStep(p: Policy, c: Config, db: Db, d: nat, h: Handler, now: real, answer: Answer, draw: real)
    : (Db, Handler)
  {
    match h.pc
    case Fetch =>
      (db, h.(pc := if h.event in db.events && h.sink in c.available then Send else Write(Exhaust)))
    case Send => (db, h.(pc := Write(Ask(p, h, answer, draw))))
    case Write(verdict) =>
      (WriteStep(db, d, verdict, now), h.(pc := PcAfterWrite(verdict, now), wrote := true))
    case DeadLetter(at) =>
      if d in db.deliveries then (InsertDlq(db, d, at), h.(pc := FindEvent(true))) else (db, Raised(h))
    case FindEvent(failed) =>
      (db, h.(pc := if d in db.deliveries then CountUnsettled(db.deliveries[d].event, failed) else Done))
    case CountUnsettled(e, failed) =>
      (db, h.(pc := if HasUnsettled(db, e) then Done else CountExhausted(e, failed)))
    case CountExhausted(e, failed) =>
      (db, h.(pc := WriteStatus(e, failed, if failed || HasExhausted(db, e) then Failed else Dispatched)))
    case WriteStatus(e, failed, status) => (SetStatus(db, e, status), h.(pc := Done))
    case Faulted => (db, h)
    case Done => (db, h)
  }

  function RecoverStep(p: Policy, h: Handler, draw: real): Handler {
    h.(pc := Write(if LastAttempt(p, h) then Exhaust else HandBack(RetryDelay(p, h.attempt + 1, None, draw))),
       recovering := true)
  }

  predicate Idle(h: Handler) {
    h.pc == Faulted || h.pc == Done
  }

  // -- metrics ------------------------------------------------------------------------------

  function Bump(m: multiset<Counter>, sink: string, series: Series): multiset<Counter> {
    m + multiset{Counter(sink, series)}
  }

  /** What the sink's answer counts, before anything is written. */
  function CountAnswer(p: Policy, h: Handler, answer: Answer, m: multiset<Counter>): multiset<Counter> {
    var outcome := if LastAttempt(p, h) then ExhaustedTotal else RetryTotal;
    match answer
    case Accepts => m
    case Refuses => Bump(Bump(m, h.sink, Observations), h.sink, PermanentTotal)
    case Busy(_) => Bump(Bump(m, h.sink, Observations), h.sink, outcome)
    case Raises => Bump(m, h.sink, outcome)
  }

  /** Inside mark_delivered's _settle_event_for. */
  predicate SettlingDelivered(h: Handler) {
    match h.pc
    case FindEvent(failed) => !failed
    case CountUnsettled(_, failed) => !failed
    case CountExhausted(_, failed) => !failed
    case WriteStatus(_, failed, _) => !failed
    case _ => false
  }

  predicate UpdatesRow(db: Db, d: nat, h: Handler) {
    h.pc.Write? && (if h.pc.verdict.HandBack? then CanReleaseClaim(db, d) else d in db.deliveries)
  }

  /** A failed attempt is counted with the answer, a delivered one once mark_delivered has returned. */
  function CountStep(p: Policy, db: Db, d: nat, before: Handler, after: Handler, answer: Answer, m: multiset<Counter>)
    : multiset<Counter>
  {
    if before.pc == Send then CountAnswer(p, before, answer, m)
    else if UpdatesRow(db, d, before) then Bump(m, before.sink, Increments)
    else if SettlingDelivered(before) && after.pc == Done then
      Bump(Bump(m, before.sink, Observations), before.sink, DeliveredTotal)
    else m
  }

  function CountRecovery(p: Policy, h: Handler, m: multiset<Counter>): multiset<Counter> {
    Bump(m, h.sink, if LastAttempt(p, h) then ExhaustedTotal else ErrorTotal)
  }

  // -- the machine --------------------------------------------------------------------------

  ghost predicate Enabled(p: Policy, s: State, a: Action) {
    match a
    case Begin(t, task) => s.up && t !in s.tasks && FirstStep(task)
    case RunTask(t, now, found, screening) =>
      s.up && t in s.tasks && (s.tasks[t].FindDuplicate? ==> IsLookup(s.db, s.tasks[t].ev, found))
    case FailTask(t) => s.up && t in s.tasks
    case ClaimBatch(now, claimed) => s.up && s.handlers == map[] && IsClaim(s.db, now, CLAIM_BATCH, claimed)
    case RunHandler(d, now, answer, draw) =>
      s.up && d in s.handlers && !Idle(s.handlers[d]) && -1.0 <= draw <= 1.0
    case FailHandler(d) => s.up && d in s.handlers && !Idle(s.handlers[d])
    // gather() has returned: no handler is running, so neither is another recovery.
    case Recover(d, draw) =>
      && s.up && d in s.handlers && s.handlers[d].pc == Faulted && -1.0 <= draw <= 1.0
      && forall k :: k in s.handlers ==> Idle(s.handlers[k])
    case EndBatch => s.up && forall k :: k in s.handlers ==> s.handlers[k].pc == Done
    case Crash => s.up
    case Start(config, now) => !s.up
  }

  function Apply(p: Policy, s: State, a: Action): State {
    match a
    case Begin(t, task) => s.(tasks := s.tasks[t := task])
    case RunTask(t, now, found, screening) =>
      if t !in s.tasks then s else
      var (db, next) := TaskStep(s.config, s.db, s.tasks[t], now, found, screening);
      s.(db := db, tasks := if next.Some? then s.tasks[t := next.value] else s.tasks - {t})
    case FailTask(t) => s.(tasks := s.tasks - {t})
    case ClaimBatch(now, claimed) =>
      s.(db := Claim(s.db, claimed),
         handlers := map d | d in claimed && d in s.db.deliveries :: Claimed(s.db.deliveries[d]))
    case RunHandler(d, now, answer, draw) =>
      if d !in s.handlers then s else
      var h := s.handlers[d];
      var (db, next) := HandlerStep(p, s.config, s.db, d, h, now, answer, draw);
      s.(db := db, handlers := s.handlers[d := next],
         counters := CountStep(p, s.db, d, h, next, answer, s.counters))
    case FailHandler(d) => if d in s.handlers then s.(handlers := s.handlers[d := Raised(s.handlers[d])]) else s
    case Recover(d, draw) =>
      if d !in s.handlers then s else
      var h := s.handlers[d];
      s.(handlers := s.handlers[d := RecoverStep(p, h, draw)],
         counters := CountRecovery(p, h, s.counters))
    case EndBatch =>
      s.(handlers := map[], stuck := s.stuck + set d | d in s.handlers && !s.handlers[d].wrote)
    case Crash => s.(up := false, tasks := map[], handlers := map[])
    case Start(config, now) =>
      s.(up := true, config := config, db := Requeue(s.db, now), stuck := {}, counters := multiset{})
  }

  ghost predicate Next(p: Policy, s: State, a: Action, next: State) {
    Enabled(p, s, a) && next == Apply(p, s, a)
  }

  predicate Initial(s: State) {
    !s.up && s.db == EmptyDb && s.tasks == map[] && s.handlers == map[] && s.stuck == {}
  }

  /** A run: states[i] goes to states[i+1] by actions[i]. */
  datatype Run = Run(states: seq<State>, actions: seq<Action>)

  ghost predicate StepOf(p: Policy, r: Run, k: nat)
    requires k < |r.actions| && |r.states| == |r.actions| + 1
  {
    Next(p, r.states[k], r.actions[k], r.states[k + 1])
  }

  ghost predicate IsRun(p: Policy, r: Run) {
    && |r.states| == |r.actions| + 1
    && forall k :: 0 <= k < |r.actions| ==> StepOf(p, r, k)
  }

  ghost predicate IsRunFromStart(p: Policy, r: Run) {
    IsRun(p, r) && Initial(r.states[0])
  }
}
