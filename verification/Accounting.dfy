/**
 * Attempt accounting over one process lifetime: the outcomes of delivery_attempts_total, the latency
 * histogram's count and the increments of the attempt column agree, sink by sink, after every batch.
 */
module Accounting {
  import opened Tables
  import opened Settings
  import opened Retry
  import opened Protocol
  import opened Invariant
  import opened Safety

  /** The sum of delivery_attempts_total over its outcomes, for one sink. */
  function Outcomes(m: multiset<Counter>, sink: string): nat {
    m[Counter(sink, DeliveredTotal)] + m[Counter(sink, RetryTotal)] + m[Counter(sink, PermanentTotal)]
    + m[Counter(sink, ExhaustedTotal)] + m[Counter(sink, ErrorTotal)]
  }

  /** No store fault, no unexpected sink exception, and the routed sink is there. */
  predicate SmoothStep(s: State, a: Action) {
    match a
    case RunHandler(d, _, answer, _) =>
      && !answer.Raises?
      && (d in s.handlers && s.handlers[d].pc == Fetch ==> s.handlers[d].sink in s.config.available)
      && (d in s.handlers && s.handlers[d].pc.DeadLetter? ==> d in s.db.deliveries)
    case FailHandler(_) => false
    case Crash => false
    case Start(_, _) => false
    case _ => true
  }

  /** Counted when the sink answered, not yet written: every failed attempt. */
  predicate CountedEarly(h: Handler) {
    h.pc.Write? && !h.pc.verdict.Deliver?
  }

  function One(b: bool): int { if b then 1 else 0 }

  /** What handler `d` has written for `sink` beyond what it has counted: -1, 0 or 1. */
  function OwedBy(handlers: map<nat, Handler>, sink: string, d: nat): int {
    if d in handlers && handlers[d].sink == sink
    then One(SettlingDelivered(handlers[d])) - One(CountedEarly(handlers[d])) else 0
  }

  /** The same over all handlers with ids below n. */
  function Owed(handlers: map<nat, Handler>, sink: string, n: nat): int {
    if n == 0 then 0 else Owed(handlers, sink, n - 1) + OwedBy(handlers, sink, n - 1)
  }

  ghost predicate InBalance(m: multiset<Counter>, sink: string, owed: int) {
    && Outcomes(m, sink) == m[Counter(sink, Observations)]
    && m[Counter(sink, Increments)] == m[Counter(sink, Observations)] + owed
  }

  ghost predicate Balanced(s: State, sink: string, n: nat) {
    InBalance(s.counters, sink, Owed(s.handlers, sink, n))
  }

  ghost predicate NoneFaulted(s: State) {
    forall d :: d in s.handlers ==> s.handlers[d].pc != Faulted && !s.handlers[d].recovering
  }

  predicate SmoothHandler(c: Config, db: Db, d: nat, h: Handler, answer: Answer) {
    && !Idle(h) && !h.recovering && !answer.Raises?
    && (h.pc == Fetch ==> h.sink in c.available && h.event in db.events)
    && (h.pc.DeadLetter? ==> d in db.deliveries)
  }

  /** How a handler's own debt moves with its step. */
  function DebtMoves(h: Handler, h': Handler): int {
    One(SettlingDelivered(h')) - One(CountedEarly(h')) - One(SettlingDelivered(h)) + One(CountedEarly(h))
  }

  /** A failed answer is counted once as an outcome and once as an observation. */
  lemma OneOutcomeOneObservation(m: multiset<Counter>, who: string, series: Series, sink: string, owed: int)
    requires InBalance(m, sink, owed) && series != Observations && series != Increments
    ensures InBalance(Bump(Bump(m, who, Observations), who, series), sink, if who == sink then owed - 1 else owed)
  {
    var n := Bump(Bump(m, who, Observations), who, series);
    assert n[Counter(sink, Increments)] == m[Counter(sink, Increments)];
    if who != sink { assert forall x :: n[Counter(sink, x)] == m[Counter(sink, x)]; }
  }

  lemma SendBalances(p: Policy, db: Db, d: nat, h: Handler, answer: Answer, draw: real,
                     m: multiset<Counter>, sink: string, owed: int)
    requires h.pc == Send && !answer.Raises? && InBalance(m, sink, owed)
    ensures var h' := h.(pc := Write(Ask(p, h, answer, draw)));
            InBalance(CountStep(p, db, d, h, h', answer, m), sink,
                      if h.sink != sink then owed else owed + DebtMoves(h, h'))
  {
    match answer
    case Accepts =>
    case Refuses => OneOutcomeOneObservation(m, h.sink, PermanentTotal, sink, owed);
    case Busy(_) => OneOutcomeOneObservation(m, h.sink, if LastAttempt(p, h) then ExhaustedTotal else RetryTotal, sink, owed);
  }

  lemma CountersBalance(p: Policy, db: Db, d: nat, h: Handler, h': Handler, answer: Answer,
                        m: multiset<Counter>, sink: string, owed: int)
    requires h.pc != Send && InBalance(m, sink, owed)
    requires DebtMoves(h, h') ==
      if UpdatesRow(db, d, h) then 1 else if SettlingDelivered(h) && h'.pc == Done then -1 else 0
    ensures InBalance(CountStep(p, db, d, h, h', answer, m), sink,
                      if h.sink != sink then owed else owed + DebtMoves(h, h'))
  {
  }

  lemma DebtIsAccountedFor(p: Policy, c: Config, db: Db, d: nat, h: Handler, now: real, answer: Answer, draw: real)
    requires HandlerOk(p, db, d, h) && SmoothHandler(c, db, d, h, answer) && h.pc != Send
    ensures var h' := HandlerStep(p, c, db, d, h, now, answer, draw).1;
      DebtMoves(h, h') ==
        if UpdatesRow(db, d, h) then 1 else if SettlingDelivered(h) && h'.pc == Done then -1 else 0
  {
  }

  /** One handler's step changes what it owes by what it writes and counts, and no other sink. */
  lemma StepBalances(p: Policy, c: Config, db: Db, d: nat, h: Handler, now: real, answer: Answer, draw: real,
                     m: multiset<Counter>, sink: string, owed: int)
    requires HandlerOk(p, db, d, h) && SmoothHandler(c, db, d, h, answer) && InBalance(m, sink, owed)
    ensures var h' := HandlerStep(p, c, db, d, h, now, answer, draw).1;
            InBalance(CountStep(p, db, d, h, h', answer, m), sink,
                      if h.sink != sink then owed else owed + DebtMoves(h, h'))
  {
    if h.pc == Send {
      SendBalances(p, db, d, h, answer, draw, m, sink, owed);
    } else {
      DebtIsAccountedFor(p, c, db, d, h, now, answer, draw);
      CountersBalance(p, db, d, h, HandlerStep(p, c, db, d, h, now, answer, draw).1, answer, m, sink, owed);
    }
  }

  lemma {:induction false} ReplaceOne(handlers: map<nat, Handler>, d: nat, h: Handler, sink: string, n: nat)
    requires d in handlers
    ensures Owed(handlers[d := h], sink, n) ==
      Owed(handlers, sink, n)
      + if d < n then OwedBy(handlers[d := h], sink, d) - OwedBy(handlers, sink, d) else 0
  {
    if n > 0 { ReplaceOne(handlers, d, h, sink, n - 1); }
  }

  lemma {:induction false} NothingOwed(handlers: map<nat, Handler>, sink: string, n: nat)
    requires forall d :: d in handlers ==> !SettlingDelivered(handlers[d]) && !CountedEarly(handlers[d])
    ensures Owed(handlers, sink, n) == 0
  {
    if n > 0 { NothingOwed(handlers, sink, n - 1); }
  }

  lemma RunHandlerBalances(p: Policy, s: State, a: Action, sink: string, n: nat)
    requires Inv(p, s) && Enabled(p, s, a) && a.RunHandler? && SmoothStep(s, a) && NoneFaulted(s)
    requires Balanced(s, sink, n) && s.db.nextDelivery <= n
    ensures Balanced(Apply(p, s, a), sink, n)
  {
    var d, h, next := a.d, s.handlers[a.d], Apply(p, s, a);
    assert HandlerOk(p, s.db, d, h);
    StepBalances(p, s.config, s.db, d, h, a.now, a.answer, a.draw, s.counters, sink, Owed(s.handlers, sink, n));
    ReplaceOne(s.handlers, d, next.handlers[d], sink, n);
  }

  lemma RunHandlerStaysUp(p: Policy, s: State, a: Action)
    requires Inv(p, s) && Enabled(p, s, a) && a.RunHandler? && SmoothStep(s, a) && NoneFaulted(s)
    ensures NoneFaulted(Apply(p, s, a))
  {
    assert HandlerOk(p, s.db, a.d, s.handlers[a.d]);
  }

  lemma SmoothStepBalances(p: Policy, s: State, a: Action, sink: string, n: nat)
    requires Inv(p, s) && Enabled(p, s, a) && SmoothStep(s, a) && NoneFaulted(s)
    requires Balanced(s, sink, n) && s.db.nextDelivery <= n
    ensures Balanced(Apply(p, s, a), sink, n) && NoneFaulted(Apply(p, s, a))
  {
    match a
    case RunHandler(_, _, _, _) =>
      RunHandlerBalances(p, s, a, sink, n);
      RunHandlerStaysUp(p, s, a);
    case ClaimBatch(_, _) =>
      NothingOwed(s.handlers, sink, n);
      NothingOwed(Apply(p, s, a).handlers, sink, n);
    case EndBatch =>
      NothingOwed(s.handlers, sink, n);
      NothingOwed(Apply(p, s, a).handlers, sink, n);
    case _ =>
  }

  lemma SmoothAt(p: Policy, r: Run, k: nat, sink: string, n: nat)
    requires PolicyOk(p) && IsRunFromStart(p, r) && k < |r.actions| && SmoothStep(r.states[k], r.actions[k])
    requires NoneFaulted(r.states[k]) && Balanced(r.states[k], sink, n) && r.states[k + 1].db.nextDelivery <= n
    ensures NoneFaulted(r.states[k + 1]) && Balanced(r.states[k + 1], sink, n)
    ensures r.states[k].db.nextDelivery <= n
  {
    ReachableIsInv(p, r, k);
    ActionAt(p, r, k);
    EvolvesAt(p, r, k);
    SmoothStepBalances(p, r.states[k], r.actions[k], sink, n);
  }

  lemma StartBalances(p: Policy, r: Run, k: nat, sink: string, n: nat)
    requires PolicyOk(p) && IsRunFromStart(p, r) && k < |r.actions| && r.actions[k].Start?
    ensures NoneFaulted(r.states[k + 1]) && Balanced(r.states[k + 1], sink, n)
  {
    ReachableIsInv(p, r, k);
    ActionAt(p, r, k);
    NothingOwed(r.states[k + 1].handlers, sink, n);
  }

  ghost predicate SmoothBetween(r: Run, start: nat, j: nat) {
    && |r.states| == |r.actions| + 1 && j < |r.states|
    && forall k :: start < k < j ==> SmoothStep(r.states[k], r.actions[k])
  }

  lemma {:induction false} BalancedThroughout(p: Policy, r: Run, start: nat, j: nat, sink: string, n: nat)
    requires PolicyOk(p) && IsRunFromStart(p, r) && start < j < |r.states| && r.actions[start].Start?
    requires SmoothBetween(r, start, j) && r.states[j].db.nextDelivery <= n
    ensures NoneFaulted(r.states[j]) && Balanced(r.states[j], sink, n)
  {
    if j == start + 1 {
      StartBalances(p, r, start, sink, n);
    } else {
      EvolvesAt(p, r, j - 1);
      BalancedThroughout(p, r, start, j - 1, sink, n);
      SmoothAt(p, r, j - 1, sink, n);
    }
  }

  /** Between batches of a smooth lifetime the three totals of each sink are the same number. */
  lemma AttemptAccountingAgrees(p: Policy, r: Run, start: nat, j: nat, sink: string)
    requires PolicyOk(p) && IsRunFromStart(p, r) && start < j < |r.states| && r.actions[start].Start?
    requires SmoothBetween(r, start, j)
    requires r.states[j].handlers == map[]
    ensures var m := r.states[j].counters;
            Outcomes(m, sink) == m[Counter(sink, Observations)] == m[Counter(sink, Increments)]
  {
    var n := r.states[j].db.nextDelivery;
    BalancedThroughout(p, r, start, j, sink, n);
    NothingOwed(r.states[j].handlers, sink, n);
  }
}
