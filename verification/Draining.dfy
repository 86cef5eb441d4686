/**
 * Draining terminates whatever the sinks answer: a measure over the unsettled rows, the number of
 * attempts one delivery can take, and the waits scheduled over its life.
 */
module Draining {
  import opened Basics
  import opened Tables
  import opened Integrity
  import opened Settings
  import opened Retry
  import opened Protocol
  import opened Invariant
  import opened Safety

  /** The write that ends a handled claim of `d`: by its handler, or by the recovery of it. */
  predicate Handles(s: State, a: Action, d: nat) {
    a.RunHandler? && a.d == d && d in s.handlers && s.handlers[d].pc.Write? && !s.handlers[d].wrote
  }

  /** A statement that may insert deliveries. */
  predicate Queues(s: State, a: Action) {
    a.RunTask? && a.t in s.tasks && (s.tasks[a.t].Enqueue? || s.tasks[a.t].ReplayInsert?)
  }

  // -- the measure ----------------------------------------------------------------------------------

  /** Attempts still to be had from row `d`. */
  function Weight(max: nat, db: Db, d: nat): int {
    if d in db.deliveries && Unsettled(db.deliveries[d]) then max - db.deliveries[d].attempt else 0
  }

  function WorkBelow(max: nat, db: Db, n: nat): int {
    if n == 0 then 0 else WorkBelow(max, db, n - 1) + Weight(max, db, n - 1)
  }

  /** The sum of `max_attempts - attempt` over all unsettled rows. */
  function Work(max: nat, db: Db): int {
    WorkBelow(max, db, db.nextDelivery)
  }

  lemma {:induction false} WorkIsNatural(max: nat, db: Db, n: nat)
    requires DeliveriesOk(db, max)
    ensures WorkBelow(max, db, n) >= 0
  {
    if n > 0 { WorkIsNatural(max, db, n - 1); }
  }

  lemma {:induction false} WorkShrinks(max: nat, db: Db, next: Db, n: nat, d: nat)
    requires forall k: nat :: k < n ==> Weight(max, next, k) <= Weight(max, db, k)
    ensures WorkBelow(max, next, n) <= WorkBelow(max, db, n)
    ensures d < n && Weight(max, next, d) < Weight(max, db, d) ==> WorkBelow(max, next, n) < WorkBelow(max, db, n)
  {
    if n > 0 { WorkShrinks(max, db, next, n - 1, d); }
  }

  lemma OnlyQueueingInserts(p: Policy, s: State, a: Action)
    requires Enabled(p, s, a) && !Queues(s, a)
    ensures Apply(p, s, a).db.nextDelivery == s.db.nextDelivery
  {
    match a
    case RunTask(t, now, found, screening) => StatementKeepsCounter(s.config, s.db, s.tasks[t], now, found, screening);
    case RunHandler(d, now, answer, draw) =>
      HandlerKeepsCounter(p, s.config, s.db, d, s.handlers[d], now, answer, draw);
    case _ =>
  }

  lemma StatementKeepsCounter(c: Config, db: Db, task: Task, now: real, found: Option<nat>, screening: Screening)
    requires !task.Enqueue? && !task.ReplayInsert?
    ensures TaskStep(c, db, task, now, found, screening).0.nextDelivery == db.nextDelivery
  {
  }

  lemma HandlerKeepsCounter(p: Policy, c: Config, db: Db, d: nat, h: Handler, now: real, answer: Answer, draw: real)
    ensures HandlerStep(p, c, db, d, h, now, answer, draw).0.nextDelivery == db.nextDelivery
  {
  }

  lemma WriteLightens(p: Policy, db: Db, d: nat, h: Handler, now: real)
    requires HandlerOk(p, db, d, h) && h.pc.Write?
    ensures Weight(p.maxAttempts, WriteStep(db, d, h.pc.verdict, now), d) <= Weight(p.maxAttempts, db, d)
    ensures !h.wrote ==> Weight(p.maxAttempts, WriteStep(db, d, h.pc.verdict, now), d) < Weight(p.maxAttempts, db, d)
  {
  }

  lemma RowsOnlyLighten(p: Policy, s: State, a: Action, d: nat)
    requires Inv(p, s) && Enabled(p, s, a) && !Queues(s, a)
    ensures Weight(p.maxAttempts, Apply(p, s, a).db, d) <= Weight(p.maxAttempts, s.db, d)
    ensures Handles(s, a, d) ==> Weight(p.maxAttempts, Apply(p, s, a).db, d) < Weight(p.maxAttempts, s.db, d)
  {
    if a.RunHandler? && a.d == d && s.handlers[d].pc.Write? {
      assert HandlerOk(p, s.db, d, s.handlers[d]);
      WriteLightens(p, s.db, d, s.handlers[d], a.now);
    } else {
      RowStandsStill(p, s, a, d);
    }
  }

  lemma RowStandsStill(p: Policy, s: State, a: Action, d: nat)
    requires Inv(p, s) && Enabled(p, s, a) && !Queues(s, a)
    requires !(a.RunHandler? && a.d == d && s.handlers[d].pc.Write?)
    ensures Weight(p.maxAttempts, Apply(p, s, a).db, d) <= Weight(p.maxAttempts, s.db, d)
  {
    StepEvolves(p, s, a);
    OnlyQueueingInserts(p, s, a);
  }

  /** Without new rows, no step adds work, and each handled claim removes some. */
  lemma WorkNeverGrows(p: Policy, s: State, a: Action, d: nat)
    requires Inv(p, s) && Enabled(p, s, a) && !Queues(s, a)
    ensures Work(p.maxAttempts, Apply(p, s, a).db) <= Work(p.maxAttempts, s.db)
    ensures Handles(s, a, d) ==> Work(p.maxAttempts, Apply(p, s, a).db) < Work(p.maxAttempts, s.db)
  {
    var max, next := p.maxAttempts, Apply(p, s, a).db;
    forall k: nat | k < s.db.nextDelivery ensures Weight(max, next, k) <= Weight(max, s.db, k) {
      RowsOnlyLighten(p, s, a, k);
    }
    OnlyQueueingInserts(p, s, a);
    RowsOnlyLighten(p, s, a, d);
    WorkShrinks(max, s.db, next, s.db.nextDelivery, d);
    if Handles(s, a, d) { assert HandlerOk(p, s.db, d, s.handlers[d]); }
  }

  ghost predicate HandlesAny(s: State, a: Action) {
    a.RunHandler? && Handles(s, a, a.d)
  }

  /** Handled claims among the actions i, ..., j - 1. */
  ghost function HandledBetween(r: Run, i: nat, j: nat): nat
    requires i <= j <= |r.actions| && |r.states| == |r.actions| + 1
  {
    if i == j then 0
    else HandledBetween(r, i, j - 1) + if HandlesAny(r.states[j - 1], r.actions[j - 1]) then 1 else 0
  }

  lemma WorkAt(p: Policy, r: Run, k: nat)
    requires PolicyOk(p) && IsRunFromStart(p, r) && k < |r.actions| && !Queues(r.states[k], r.actions[k])
    ensures Work(p.maxAttempts, r.states[k + 1].db) + (if HandlesAny(r.states[k], r.actions[k]) then 1 else 0)
            <= Work(p.maxAttempts, r.states[k].db)
  {
    ReachableIsInv(p, r, k);
    ActionAt(p, r, k);
    WorkNeverGrows(p, r.states[k], r.actions[k], if r.actions[k].RunHandler? then r.actions[k].d else 0);
  }

  lemma WorkIsNaturalAt(p: Policy, r: Run, k: nat)
    requires PolicyOk(p) && IsRunFromStart(p, r) && k < |r.states|
    ensures Work(p.maxAttempts, r.states[k].db) >= 0
  {
    ReachableIsInv(p, r, k);
    WorkIsNatural(p.maxAttempts, r.states[k].db, r.states[k].db.nextDelivery);
  }

  /** Termination of draining: however long it goes on, and through crashes and restarts, a stretch
      that queues nothing new handles at most as many claims as there was work at its beginning. */
  lemma {:induction false} DrainingIsBounded(p: Policy, r: Run, i: nat, j: nat)
    requires PolicyOk(p) && IsRunFromStart(p, r) && i <= j <= |r.actions|
    requires forall k :: i <= k < j ==> !Queues(r.states[k], r.actions[k])
    ensures HandledBetween(r, i, j) + Work(p.maxAttempts, r.states[j].db) <= Work(p.maxAttempts, r.states[i].db)
    ensures Work(p.maxAttempts, r.states[j].db) >= 0
  {
    WorkIsNaturalAt(p, r, j);
    if i < j {
      DrainingIsBounded(p, r, i, j - 1);
      WorkAt(p, r, j - 1);
    }
  }

  // -- one delivery -----------------------------------------------------------------------------------

  /** Until its handler has written, a claimed row is in flight with the attempt the handler saw, and
      at least one attempt is left. */
  lemma SnapshotIsCurrent(p: Policy, r: Run, i: nat, d: nat)
    requires PolicyOk(p) && IsRunFromStart(p, r) && i < |r.states|
    requires d in r.states[i].handlers && !r.states[i].handlers[d].wrote
    ensures d in r.states[i].db.deliveries
    ensures r.states[i].db.deliveries[d].status == InFlight
    ensures r.states[i].db.deliveries[d].attempt == r.states[i].handlers[d].attempt < p.maxAttempts
  {
    ReachableIsInv(p, r, i);
    assert HandlerOk(p, r.states[i].db, d, r.states[i].handlers[d]);
  }

  /** Handled claims of `d` among the first n actions. */
  ghost function HandledCount(r: Run, n: nat, d: nat): nat
    requires n <= |r.actions| && |r.states| == |r.actions| + 1
  {
    if n == 0 then 0
    else HandledCount(r, n - 1, d) + if Handles(r.states[n - 1], r.actions[n - 1], d) then 1 else 0
  }

  predicate Present(db: Db, d: nat) {
    d in db.deliveries
  }

  /** What a step does to the attempt column of one row. */
  ghost predicate AttemptMoves(s: State, a: Action, next: State, d: nat) {
    && (Handles(s, a, d) ==> Present(s.db, d) && Unsettled(s.db.deliveries[d]) && Present(next.db, d))
    && (RepeatsASettledRow(s, a, d) && Present(s.db, d) ==> !Unsettled(s.db.deliveries[d]))
    && (Present(s.db, d) && Present(next.db, d) ==>
          && (!Unsettled(s.db.deliveries[d]) ==> !Unsettled(next.db.deliveries[d]))
          && next.db.deliveries[d].attempt == s.db.deliveries[d].attempt
             + (if Handles(s, a, d) then 1 else 0) + (if RepeatsASettledRow(s, a, d) then 1 else 0))
    && (!Present(s.db, d) && Present(next.db, d) ==>
          s.db.nextDelivery <= d && next.db.deliveries[d].attempt == 0)
  }

  lemma OwnAttempt(p: Policy, s: State, a: Action, d: nat)
    requires Inv(p, s) && Enabled(p, s, a) && a.RunHandler? && a.d == d
    ensures AttemptMoves(s, a, Apply(p, s, a), d)
  {
    assert HandlerOk(p, s.db, d, s.handlers[d]);
    HandlerStepRows(p, s.config, s.db, d, s.handlers[d], a.now, a.answer, a.draw);
  }

  lemma OtherAttempt(p: Policy, s: State, a: Action, d: nat)
    requires Inv(p, s) && Enabled(p, s, a) && !(a.RunHandler? && a.d == d)
    ensures AttemptMoves(s, a, Apply(p, s, a), d)
  {
    StepEvolves(p, s, a);
    if !a.ClaimBatch? && !a.Start? {
      UnchangedAttempt(s, a, Apply(p, s, a), d);
    }
  }

  lemma UnchangedAttempt(s: State, a: Action, next: State, d: nat)
    requires DeliveriesEvolve(s.db, next.db, Changed(s, a)) && d !in Changed(s, a)
    requires !Handles(s, a, d) && !RepeatsASettledRow(s, a, d)
    ensures AttemptMoves(s, a, next, d)
  {
  }

  /** The attempt column moves by one with each handled claim, by one with each recovery that dead-letters
      a settled row once more, and never otherwise. */
  lemma AttemptStep(p: Policy, s: State, a: Action, d: nat)
    requires Inv(p, s) && Enabled(p, s, a)
    ensures AttemptMoves(s, a, Apply(p, s, a), d)
  {
    if a.RunHandler? && a.d == d { OwnAttempt(p, s, a, d); } else { OtherAttempt(p, s, a, d); }
  }

  lemma AttemptAt(p: Policy, r: Run, k: nat, d: nat)
    requires PolicyOk(p) && IsRunFromStart(p, r) && k < |r.actions|
    ensures AttemptMoves(r.states[k], r.actions[k], r.states[k + 1], d)
    ensures r.states[k].db.nextDelivery <= r.states[k + 1].db.nextDelivery
    ensures Present(r.states[k].db, d) ==> d < r.states[k].db.nextDelivery
  {
    ReachableIsInv(p, r, k);
    ActionAt(p, r, k);
    EvolvesAt(p, r, k);
    AttemptStep(p, r.states[k], r.actions[k], d);
  }

  /** In every run, store faults included: no delivery is ever handled more than max_attempts times, one
      handled that often has settled, and the attempt column is the number of handled claims, plus one for
      each time a recovery dead-letters a row that had already settled. */
  lemma {:induction false} AttemptsAreHandledClaims(p: Policy, r: Run, n: nat, d: nat)
    requires PolicyOk(p) && IsRunFromStart(p, r) && n <= |r.actions|
    ensures HandledCount(r, n, d) <= p.maxAttempts
    ensures Present(r.states[n].db, d) ==>
      r.states[n].db.deliveries[d].attempt == HandledCount(r, n, d) + RepeatsBetween(r, 0, n, d)
    ensures Present(r.states[n].db, d) && Unsettled(r.states[n].db.deliveries[d]) ==>
      RepeatsBetween(r, 0, n, d) == 0 && HandledCount(r, n, d) < p.maxAttempts
    ensures r.states[n].db.nextDelivery <= d ==> HandledCount(r, n, d) == RepeatsBetween(r, 0, n, d) == 0
  {
    if n > 0 {
      AttemptsAreHandledClaims(p, r, n - 1, d);
      AttemptAt(p, r, n - 1, d);
      NothingToRepeatYet(p, r, n - 1, d);
    }
    UnsettledHasAttempts(p, r, n, d);
  }

  lemma NothingToRepeatYet(p: Policy, r: Run, k: nat, d: nat)
    requires PolicyOk(p) && IsRunFromStart(p, r) && k < |r.actions|
    ensures Handles(r.states[k], r.actions[k], d) || RepeatsASettledRow(r.states[k], r.actions[k], d) ==>
      d < r.states[k].db.nextDelivery
  {
    ReachableIsInv(p, r, k);
    if d in r.states[k].handlers { assert HandlerOk(p, r.states[k].db, d, r.states[k].handlers[d]); }
  }

  lemma UnsettledHasAttempts(p: Policy, r: Run, n: nat, d: nat)
    requires PolicyOk(p) && IsRunFromStart(p, r) && n < |r.states|
    ensures Present(r.states[n].db, d) && Unsettled(r.states[n].db.deliveries[d]) ==>
              r.states[n].db.deliveries[d].attempt < p.maxAttempts
  {
    ReachableIsInv(p, r, n);
  }

  // -- waits --------------------------------------------------------------------------------------------

  function WaitOf(s: State, a: Action, d: nat): real {
    if Handles(s, a, d) then
      match s.handlers[d].pc.verdict
      case Retry(wait) => wait
      case HandBack(wait) => wait
      case _ => 0.0
    else 0.0
  }

  /** The waits scheduled for `d` by the first n actions. */
  ghost function WaitSum(r: Run, n: nat, d: nat): real
    requires n <= |r.actions| && |r.states| == |r.actions| + 1
  {
    if n == 0 then 0.0 else WaitSum(r, n - 1, d) + WaitOf(r.states[n - 1], r.actions[n - 1], d)
  }

  lemma ScheduledWait(p: Policy, s: State, a: Action, d: nat)
    requires Inv(p, s) && Enabled(p, s, a)
    ensures 0.0 <= WaitOf(s, a, d) <= LongestWait(p)
    ensures Handles(s, a, d) && WaitOf(s, a, d) > 0.0 ==> Unsettled(Apply(p, s, a).db.deliveries[d])
  {
    if Handles(s, a, d) { assert HandlerOk(p, s.db, d, s.handlers[d]); }
    WaitIsBounded(p, 1, None, 0.0);
  }

  lemma WaitAt(p: Policy, r: Run, k: nat, d: nat)
    requires PolicyOk(p) && IsRunFromStart(p, r) && k < |r.actions|
    ensures var wait, now := WaitOf(r.states[k], r.actions[k], d), r.states[k + 1].db;
      && 0.0 <= wait <= LongestWait(p)
      && (wait > 0.0 ==> Handles(r.states[k], r.actions[k], d) && Present(now, d) && Unsettled(now.deliveries[d]))
  {
    ReachableIsInv(p, r, k);
    ActionAt(p, r, k);
    AttemptAt(p, r, k, d);
    ScheduledWait(p, r.states[k], r.actions[k], d);
  }

  /** n waits of length w. */
  function Waits(n: nat, w: real): real {
    if n == 0 then 0.0 else Waits(n - 1, w) + w
  }

  lemma {:induction false} WaitsGrow(a: nat, b: nat, w: real)
    requires a <= b && w >= 0.0
    ensures Waits(a, w) <= Waits(b, w)
  {
    if a < b { WaitsGrow(a, b - 1, w); }
  }

  lemma {:induction false} WaitsMultiply(n: nat, w: real)
    ensures Waits(n, w) == (n as real) * w
  {
    if n > 0 {
      WaitsMultiply(n - 1, w);
      assert (n as real) * w == ((n - 1) as real) * w + w;
    }
  }

  lemma {:induction false} WaitsAddUp(p: Policy, r: Run, n: nat, d: nat)
    requires PolicyOk(p) && IsRunFromStart(p, r) && n <= |r.actions|
    ensures WaitSum(r, n, d) <= Waits(p.maxAttempts - 1, LongestWait(p))
    ensures WaitSum(r, n, d) <= Waits(HandledCount(r, n, d), LongestWait(p))
  {
    WaitIsBounded(p, 1, None, 0.0);
    var count, most := HandledCount(r, n, d), p.maxAttempts - 1;
    if n > 0 {
      WaitsAddUp(p, r, n - 1, d);
      WaitAt(p, r, n - 1, d);
      if WaitOf(r.states[n - 1], r.actions[n - 1], d) > 0.0 {
        AttemptsAreHandledClaims(p, r, n, d);
        UnsettledHasAttempts(p, r, n, d);
        WaitsGrow(count, most, LongestWait(p));
      } else {
        WaitsGrow(HandledCount(r, n - 1, d), count, LongestWait(p));
      }
    } else {
      WaitsGrow(0, most, LongestWait(p));
    }
  }

  /** Over its whole life, one delivery is made to wait at most (max_attempts - 1) times the longest
      wait: no Retry-After header can stretch that. */
  lemma TotalWaitIsBounded(p: Policy, r: Run, n: nat, d: nat)
    requires PolicyOk(p) && IsRunFromStart(p, r) && n <= |r.actions|
    ensures WaitSum(r, n, d) <= ((p.maxAttempts - 1) as real) * (p.maxBackoff * (1.0 + p.jitter))
  {
    WaitsAddUp(p, r, n, d);
    WaitsMultiply(p.maxAttempts - 1, LongestWait(p));
    SameProduct((p.maxAttempts - 1) as real, LongestWait(p), p.maxBackoff * (1.0 + p.jitter));
  }

  lemma SameProduct(x: real, a: real, b: real)
    requires a == b
    ensures x * a == x * b
  {
  }

  // -- the end of a batch ---------------------------------------------------------------------------------

  /** When run_once returns, a claimed row is still in flight exactly if no write of its handler or
      its recovery succeeded; with none such now or before, nothing is in flight. */
  lemma BatchLeavesNothingInFlight(p: Policy, s: State, a: Action)
    requires Inv(p, s) && Enabled(p, s, a) && a.EndBatch?
    ensures forall d :: d in s.handlers && d in s.db.deliveries ==>
              (Apply(p, s, a).db.deliveries[d].status == InFlight <==> !s.handlers[d].wrote)
    ensures s.stuck == {} && (forall d :: d in s.handlers ==> s.handlers[d].wrote) ==>
              forall d :: d in Apply(p, s, a).db.deliveries ==> Apply(p, s, a).db.deliveries[d].status != InFlight
  {
    forall d | d in s.handlers ensures HandlerOk(p, s.db, d, s.handlers[d]) {}
  }

  /** Waiting ends: between batches, once every next time has passed, each unsettled row can be claimed,
      unless its recovery failed and it stays in flight until the next start. */
  lemma WaitingEnds(p: Policy, r: Run, i: nat, now: real, d: nat)
    requires PolicyOk(p) && IsRunFromStart(p, r) && i < |r.states|
    requires r.states[i].up && r.states[i].handlers == map[]
    requires d in r.states[i].db.deliveries && Unsettled(r.states[i].db.deliveries[d])
    requires r.states[i].db.deliveries[d].nextAt.Some? ==> r.states[i].db.deliveries[d].nextAt.value <= now
    ensures d in Due(r.states[i].db, now) <==> r.states[i].db.deliveries[d].status == Pending
    ensures d in Due(r.states[i].db, now) || d in r.states[i].stuck
  {
    ReachableIsInv(p, r, i);
  }
}
