/**
 * One statement of a request on the machine, whatever other requests have done since its last one: what it
 * changes, and what the request goes on with. Said of the tables, the routes and the policy alone.
 */
module Statements {
  import opened Basics
  import opened Tables
  import opened Integrity
  import opened Settings
  import opened Protocol
  import opened Store
  import opened Engine

  function After(c: Config, db: Db, task: Task, now: real, screening: Screening): (Db, Option<Task>) {
    TaskStep(c, db, task, now, None, screening)
  }

  /** The checks of a resumed dispatch come one by one: first the status and the stored sinks, then the
      deliveries and the current routes. */
  lemma ResumeGoesOn(c: Config, db: Db, e: nat, row: EventRow, now: real, screening: Screening)
    ensures var (next, then') := After(c, db, Reload(e), now, screening);
      && next == db
      && (then'.Some? <==> e in db.events && db.events[e].status == Received
                           && db.events[e].sinks.Some? && db.events[e].sinks.value != [])
      && (then'.Some? ==> then'.value == CheckDeliveries(e, db.events[e]))
    ensures var (next, then') := After(c, db, CheckDeliveries(e, row), now, screening);
      && next == db
      && (then'.Some? <==>
            && (forall d :: d in db.deliveries ==> db.deliveries[d].event != e)
            && row.sinks.Some? && exists sink :: sink in row.sinks.value && StillAdmitted(c, row, sink))
      && (then'.Some? ==> then'.value.Screen? && then'.value.e == e && IsKept(c, row, row.sinks.value, then'.value.sinks))
  {
    if row.sinks.Some? {
      KeptIsEmptyExactlyWhen(c, row, row.sinks.value);
      StillRoutedIsKept(c, row, row.sinks.value);
    }
  }

  /** A verdict lands only on an event that is still `received`; the request goes on to queue the event
      exactly when the policy lets it, wherever the verdict landed. */
  lemma VerdictGoesOn(c: Config, db: Db, e: nat, sinks: seq<string>, now: real, screening: Screening)
    ensures var (next, then') := After(c, db, Screen(e, sinks), now, screening);
      && then' == (if Withholds(c, screening) then None else Some(Enqueue(e, sinks)))
      && (next != db ==> e in db.events && db.events[e].status == Received && !screening.Skipped?)
      && (e in db.events && db.events[e].status == Received && !screening.Skipped? ==>
            && e in next.events
            && (if Withholds(c, screening) then AsHeld(c, screening, next.events[e].status)
                else next.events[e].status == Received)
            && next.events[e].detection == (if screening.Scored? then Some(screening.score) else None)
            && next.events[e].quarantinedAt == (if next.events[e].status == Quarantined then Some(now) else None))
  {
  }

  /** Of several releases that have all found the event quarantined, one changes it and goes on to queue it;
      the others change nothing and end. */
  lemma ReleaseGoesOn(c: Config, db: Db, e: nat, row: EventRow, now: real, screening: Screening)
    ensures var (next, then') := After(c, db, ReleaseSwap(e, row), now, screening);
      if e in db.events && db.events[e].status == Quarantined then
        && next == db.(events := db.events[e := db.events[e].(status := Received, quarantinedAt := None)])
        && (then'.None? <==> IsRouting(c, row, []))
        && (then'.Some? ==> then'.value.Enqueue? && then'.value.e == e && IsRouting(c, row, then'.value.sinks))
      else next == db && then' == None
  {
    SinksForIsTheRouting(c, row);
  }

  /** A replay is decided by the status it finds, once, and then inserts a row for each route. */
  lemma ReplayGoesOn(c: Config, db: Db, e: nat, now: real, screening: Screening)
    ensures var (next, then') := After(c, db, ReplayLoad(e), now, screening);
      && next == db
      && (then'.Some? <==> e in db.events && db.events[e].status != Dropped && db.events[e].status != Quarantined
                           && db.events[e].status != Filtered && !IsRouting(c, db.events[e], []))
      && (then'.Some? ==>
            then'.value.ReplayInsert? && then'.value.e == e && IsRouting(c, db.events[e], then'.value.sinks))
  {
    if e in db.events { SinksForIsTheRouting(c, db.events[e]); }
  }

  lemma RowOneByOne(db: Db, one: Db, e: nat, sinks: seq<string>, now: real, d: nat)
    requires sinks != [] && one == InsertAll(db, e, [sinks[0]], now)
    ensures var left, right := InsertAll(one, e, sinks[1..], now).deliveries, InsertAll(db, e, sinks, now).deliveries;
      (d in left <==> d in right) && (d in left ==> left[d] == right[d])
  {
    InsertedRow(db, e, [sinks[0]], now, d);
    InsertedRow(one, e, sinks[1..], now, d);
    InsertedRow(db, e, sinks, now, d);
  }

  lemma InsertsOneByOne(db: Db, e: nat, sinks: seq<string>, now: real)
    requires sinks != []
    ensures InsertAll(InsertAll(db, e, [sinks[0]], now), e, sinks[1..], now) == InsertAll(db, e, sinks, now)
  {
    var one := InsertAll(db, e, [sinks[0]], now);
    var left, right := InsertAll(one, e, sinks[1..], now).deliveries, InsertAll(db, e, sinks, now).deliveries;
    forall d: nat ensures (d in left <==> d in right) && (d in left ==> left[d] == right[d]) {
      RowOneByOne(db, one, e, sinks, now, d);
    }
    assert left == right;
  }

  lemma {:induction false} LoneInserts(c: Config, db: Db, e: nat, sinks: seq<string>, now: real, found: Option<nat>, screening: Screening, n: nat)
    requires e in db.events && sinks != [] && |sinks| <= n
    ensures Alone(c, db, ReplayInsert(e, sinks), now, found, screening, n) == InsertAll(db, e, sinks, now)
    decreases n
  {
    if |sinks| == 1 {
      assert sinks == [sinks[0]];
    } else {
      InsertsOneByOne(db, e, sinks, now);
      LoneInserts(c, InsertAll(db, e, [sinks[0]], now), e, sinks[1..], now, found, screening, n - 1);
    }
  }

  lemma OneStepAlone(c: Config, db: Db, task: Task, now: real, found: Option<nat>, screening: Screening, n: nat)
    requires 0 < n
    ensures var (next, then') := TaskStep(c, db, task, now, found, screening);
      Alone(c, db, task, now, found, screening, n)
      == if then'.None? then next else Alone(c, next, then'.value, now, found, screening, n - 1)
  {
  }

  /** The machine's statements of one replay, run alone, are the Replay method. */
  lemma LoneReplay(c: Config, db: Db, e: nat, now: real, n: nat)
    requires e in db.events ==> |SinksFor(c, db.events[e])| < n
    requires 0 < n
    ensures Alone(c, db, ReplayLoad(e), now, None, Skipped, n) == ReplayTables(c, db, e, now)
  {
    OneStepAlone(c, db, ReplayLoad(e), now, None, Skipped, n);
    if e in db.events && !NotReplayable(db.events[e].status) {
      if SinksFor(c, db.events[e]) == [] {
        NothingToInsert(db, e, now);
      } else {
        LoneInserts(c, db, e, SinksFor(c, db.events[e]), now, None, Skipped, n - 1);
      }
    }
  }

  /** The machine's statements of one sweep, run alone, are the Sweep method: exactly the same rows leave. */
  lemma LoneSweep(c: Config, db: Db, eventsBefore: real, dlqBefore: real, now: real)
    ensures SweptExactly(db, Alone(c, db, PurgeDlq(eventsBefore, dlqBefore), now, None, Skipped, 2), eventsBefore, dlqBefore)
  {
    SweepRemovesExactly(db, eventsBefore, dlqBefore);
    var mid := SweepDlq(db, dlqBefore);
    assert Alone(c, mid, PurgeEvents(eventsBefore), now, None, Skipped, 1) == SweepEvents(mid, eventsBefore);
  }
}
