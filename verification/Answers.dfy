/**
 * What a sink's answer does to its delivery, on the machine: from the answer to the write, whatever other steps
 * the run takes in between.
 */
module Answers {
  import opened Basics
  import opened Tables
  import opened Settings
  import opened Retry
  import opened Protocol
  import opened Invariant
  import opened Safety

  /** One more attempt, after the wait this attempt's number and the destination call for; or none if this
      was the last. */
  ghost predicate WaitsOrEnds(p: Policy, attempt: nat, retryAfter: Option<real>, now: real, draw: real, row: DeliveryRow) {
    if attempt + 1 >= p.maxAttempts then row.status == Exhausted && row.nextAt == None
    else row.status == Pending && row.nextAt == Some(now + RetryDelay(p, attempt + 1, retryAfter, draw))
  }

  /** The row after an answer to the attempt that had `attempt` before it. */
  ghost predicate Obeys(p: Policy, answer: Answer, attempt: nat, now: real, draw: real, row: DeliveryRow) {
    match answer
    case Accepts => row.status == Delivered && row.nextAt == None
    case Refuses => row.status == Exhausted && row.nextAt == None
    case Busy(retryAfter) => WaitsOrEnds(p, attempt, retryAfter, now, draw, row)
    case Raises => WaitsOrEnds(p, attempt, None, now, draw, row)
  }

  /** The row after one attempt: dead-lettered unsent, or as the answer says. */
  ghost predicate Handled(p: Policy, sent: bool, answer: Answer, attempt: nat, now: real, draw: real, row: DeliveryRow) {
    if sent then Obeys(p, answer, attempt, now, draw, row) else row.status == Exhausted && row.nextAt == None
  }

  predicate MovesHandler(a: Action, d: nat) {
    (a.RunHandler? || a.FailHandler? || a.Recover?) && a.d == d
  }

  /** The handler of `d` takes the actions k and m, and none between them. */
  ghost predicate NextMoves(r: Run, k: nat, m: nat, d: nat)
    requires |r.states| == |r.actions| + 1
  {
    && k < m < |r.actions| && MovesHandler(r.actions[k], d) && r.actions[m].RunHandler? && r.actions[m].d == d
    && (forall j :: k <= j <= m ==> d in r.states[j].handlers)
    && (forall j :: k < j < m ==> !MovesHandler(r.actions[j], d))
  }

  lemma {:induction false} HandlerStands(p: Policy, r: Run, k: nat, j: nat, m: nat, d: nat)
    requires IsRun(p, r) && NextMoves(r, k, m, d) && k < j <= m
    ensures r.states[j].handlers[d] == r.states[k + 1].handlers[d]
    decreases j
  {
    if j > k + 1 {
      HandlerStands(p, r, k, j - 1, m, d);
      ActionAt(p, r, j - 1);
    }
  }

  lemma WriteIsObeyed(p: Policy, s: State, a: Action)
    requires Inv(p, s) && Enabled(p, s, a) && a.RunHandler? && s.handlers[a.d].pc.Write?
    ensures !s.handlers[a.d].wrote ==> a.d in s.db.deliveries
    ensures var h := s.handlers[a.d]; var rows, next := s.db.deliveries, Apply(p, s, a).db.deliveries;
      a.d in rows && (h.pc.verdict.HandBack? ==> rows[a.d].status == InFlight) ==>
        a.d in next && next[a.d] == rows[a.d].(attempt := rows[a.d].attempt + 1,
                                               status := RowStatus(h.pc.verdict), nextAt := RowNextAt(h.pc.verdict, a.now))
    ensures !s.handlers[a.d].wrote ==>
      var h, row := s.handlers[a.d], s.db.deliveries[a.d];
      && row.status == InFlight && row.attempt == h.attempt && row.event == h.event && row.sink == h.sink
  {
    assert HandlerOk(p, s.db, a.d, s.handlers[a.d]);
  }

  lemma SentIsUnwritten(p: Policy, s: State, d: nat)
    requires Inv(p, s) && d in s.handlers && (s.handlers[d].pc == Fetch || s.handlers[d].pc == Send)
    ensures !s.handlers[d].wrote && !s.handlers[d].recovering
  {
    assert HandlerOk(p, s.db, d, s.handlers[d]);
  }

  lemma AnswerDecides(p: Policy, c: Config, db: Db, d: nat, h: Handler, now: real, answer: Answer, draw: real, row: DeliveryRow, later: real)
    requires h.pc == Send
    ensures var (next, h') := HandlerStep(p, c, db, d, h, now, answer, draw);
      && h' == h.(pc := h'.pc) && h'.pc.Write? && !h'.pc.verdict.HandBack?
      && Obeys(p, answer, h.attempt, later, draw,
               row.(status := RowStatus(h'.pc.verdict), nextAt := RowNextAt(h'.pc.verdict, later)))
  {
  }

  /** A sink has answered at k and its handler writes at m: the row then obeys the answer, with one attempt
      more than it was claimed with. */
  lemma AnswerIsObeyed(p: Policy, r: Run, k: nat, m: nat, d: nat)
    requires PolicyOk(p) && IsRunFromStart(p, r) && NextMoves(r, k, m, d)
    requires r.actions[k].RunHandler? && r.states[k].handlers[d].pc == Send
    ensures var h, rows := r.states[k].handlers[d], r.states[m + 1].db.deliveries;
      && d in rows && rows[d].event == h.event && rows[d].sink == h.sink && rows[d].attempt == h.attempt + 1
      && Obeys(p, r.actions[k].answer, h.attempt, r.actions[m].now, r.actions[k].draw, rows[d])
  {
    HandlerStands(p, r, k, m, m, d);
    ReachableIsInv(p, r, k);
    ReachableIsInv(p, r, m);
    ActionAt(p, r, k);
    ActionAt(p, r, m);
    SentIsUnwritten(p, r.states[k], d);
    WriteIsObeyed(p, r.states[m], r.actions[m]);
    var s, a := r.states[k], r.actions[k];
    AnswerDecides(p, s.config, s.db, d, s.handlers[d], a.now, a.answer, a.draw, r.states[m].db.deliveries[d], r.actions[m].now);
  }

  /** A delivery whose event is gone or whose sink is not available is not sent: its handler's next move
      dead-letters it. Any other is sent. */
  lemma UnreachableIsDeadLettered(p: Policy, r: Run, k: nat, m: nat, d: nat)
    requires PolicyOk(p) && IsRunFromStart(p, r) && NextMoves(r, k, m, d)
    requires r.actions[k].RunHandler? && r.states[k].handlers[d].pc == Fetch
    ensures var h, s, rows := r.states[k].handlers[d], r.states[k], r.states[m + 1].db.deliveries;
      if h.event in s.db.events && h.sink in s.config.available then r.states[m].handlers[d] == h.(pc := Send)
      else d in rows && rows[d].status == Exhausted && rows[d].attempt == h.attempt + 1
  {
    HandlerStands(p, r, k, m, m, d);
    ReachableIsInv(p, r, k);
    ReachableIsInv(p, r, m);
    SentIsUnwritten(p, r.states[k], d);
    ActionAt(p, r, k);
    ActionAt(p, r, m);
    if r.states[m].handlers[d].pc.Write? { WriteIsObeyed(p, r.states[m], r.actions[m]); }
  }

  lemma RecoveryDecides(p: Policy, h: Handler, draw: real, row: DeliveryRow, later: real)
    ensures var h' := RecoverStep(p, h, draw);
      && h' == h.(pc := h'.pc, recovering := true) && h'.pc.Write?
      && WaitsOrEnds(p, h.attempt, None, later, draw,
                     row.(status := RowStatus(h'.pc.verdict), nextAt := RowNextAt(h'.pc.verdict, later)))
  {
  }

  /** A handler that raised before it wrote is recovered like a failed attempt: dead-lettered if it was the
      last, else handed back for a retry on the backoff curve. */
  lemma RecoveryIsObeyed(p: Policy, r: Run, k: nat, m: nat, d: nat)
    requires PolicyOk(p) && IsRunFromStart(p, r) && NextMoves(r, k, m, d)
    requires r.actions[k].Recover? && !r.states[k].handlers[d].wrote
    ensures var h, rows := r.states[k].handlers[d], r.states[m + 1].db.deliveries;
      && d in rows && rows[d].attempt == h.attempt + 1
      && WaitsOrEnds(p, h.attempt, None, r.actions[m].now, r.actions[k].draw, rows[d])
  {
    HandlerStands(p, r, k, m, m, d);
    ReachableIsInv(p, r, k);
    ReachableIsInv(p, r, m);
    ActionAt(p, r, k);
    ActionAt(p, r, m);
    WriteIsObeyed(p, r.states[m], r.actions[m]);
    RecoveryDecides(p, r.states[k].handlers[d], r.actions[k].draw, r.states[m].db.deliveries[d], r.actions[m].now);
  }

  /** The outcome counted for a failed attempt is the one its row will get: `permanent` for a refusal,
      otherwise `retry` or, on the last attempt, `exhausted`. An accepted one is not counted yet. */
  lemma AnswerIsCounted(p: Policy, s: State, a: Action)
    requires Enabled(p, s, a) && a.RunHandler? && s.handlers[a.d].pc == Send
    ensures var h, before, after := s.handlers[a.d], s.counters, Apply(p, s, a).counters;
      var last := h.attempt + 1 >= p.maxAttempts;
      && after[Counter(h.sink, PermanentTotal)] == before[Counter(h.sink, PermanentTotal)] + (if a.answer == Refuses then 1 else 0)
      && after[Counter(h.sink, RetryTotal)]
           == before[Counter(h.sink, RetryTotal)] + (if (a.answer.Busy? || a.answer.Raises?) && !last then 1 else 0)
      && after[Counter(h.sink, ExhaustedTotal)]
           == before[Counter(h.sink, ExhaustedTotal)] + (if (a.answer.Busy? || a.answer.Raises?) && last then 1 else 0)
      && after[Counter(h.sink, DeliveredTotal)] == before[Counter(h.sink, DeliveredTotal)]
      && forall c: Counter :: c.sink != h.sink || c.series == ErrorTotal ==> after[c] == before[c]
  {
  }

  /** A delivered attempt is counted, with its latency, when mark_delivered has come to its end, and not before. */
  lemma DeliveryIsCounted(p: Policy, s: State, a: Action)
    requires Enabled(p, s, a) && a.RunHandler? && SettlingDelivered(s.handlers[a.d])
    ensures var h, before, after := s.handlers[a.d], s.counters, Apply(p, s, a).counters;
      var ended := if Apply(p, s, a).handlers[a.d].pc == Done then 1 else 0;
      && after[Counter(h.sink, DeliveredTotal)] == before[Counter(h.sink, DeliveredTotal)] + ended
      && after[Counter(h.sink, Observations)] == before[Counter(h.sink, Observations)] + ended
      && forall c: Counter :: c != Counter(h.sink, DeliveredTotal) && c != Counter(h.sink, Observations) ==> after[c] == before[c]
  {
  }

  /** A recovery is counted as `exhausted` on the last attempt and as `error` before it. */
  lemma RecoveryIsCounted(p: Policy, s: State, a: Action)
    requires Enabled(p, s, a) && a.Recover?
    ensures var h, before, after := s.handlers[a.d], s.counters, Apply(p, s, a).counters;
      var outcome := if h.attempt + 1 >= p.maxAttempts then ExhaustedTotal else ErrorTotal;
      && after[Counter(h.sink, outcome)] == before[Counter(h.sink, outcome)] + 1
      && forall c: Counter :: c != Counter(h.sink, outcome) ==> after[c] == before[c]
  {
  }
}
