/**
 * Keyset paging of /admin/dlq and /admin/held while rows come and go between the pages.
 * A snapshot is the set of ids the query could return at the moment a page is read.
 */
module Paging {
  import opened Basics
  import opened Tables
  import opened Retry
  import opened Protocol
  import opened Invariant
  import opened Safety

  const MAX_LIMIT := 100

  /** The handlers' clamp: any integer a client sends becomes 1..100. */
  function Effective(limit: int): (n: nat)
    ensures 1 <= n <= MAX_LIMIT
    ensures 1 <= limit <= 100 ==> n == limit
    ensures limit < 1 ==> n == 1
    ensures limit > 100 ==> n == 100
  {
    if limit < 1 then 1 else if limit > MAX_LIMIT then MAX_LIMIT else limit
  }

  /** WHERE id < below ORDER BY id DESC LIMIT limit. */
  function Page(ids: set<nat>, limit: nat, below: nat): seq<nat> {
    if limit == 0 || below == 0 then []
    else if below - 1 in ids then [below - 1] + Page(ids, limit - 1, below - 1)
    else Page(ids, limit, below - 1)
  }

  /** The cursor rule: the last id of a full page, nothing after a short one. */
  function NextCursor(page: seq<nat>, limit: nat): Option<nat> {
    if |page| == limit && page != [] then Some(page[|page| - 1]) else None
  }

  /** Following next_before_id over successive snapshots; stops when no cursor is offered. */
  function Follow(snapshots: seq<set<nat>>, limit: nat, below: nat): seq<nat> {
    if snapshots == [] then []
    else
      var page := Page(snapshots[0], limit, below);
      match NextCursor(page, limit)
      case None => page
      case Some(cursor) => page + Follow(snapshots[1..], limit, cursor)
  }

  /** The client has been given a page without a cursor. */
  predicate Ended(snapshots: seq<set<nat>>, limit: nat, below: nat) {
    && snapshots != []
    && match NextCursor(Page(snapshots[0], limit, below), limit)
       case None => true
       case Some(cursor) => Ended(snapshots[1..], limit, cursor)
  }

  ghost predicate Decreasing(ids: seq<nat>, below: nat) {
    && (forall i :: 0 <= i < |ids| ==> ids[i] < below)
    && (forall i, j :: 0 <= i < j < |ids| ==> ids[j] < ids[i])
  }

  /** A page is the `limit` largest visible ids below the cursor, largest first: what it leaves out is
      invisible, or below everything it holds once it is full. */
  lemma {:induction false} PageIsExact(ids: set<nat>, limit: nat, below: nat)
    ensures var page := Page(ids, limit, below);
      && |page| <= limit && Decreasing(page, below)
      && (forall id :: id in page ==> id in ids)
      && (forall id :: id in ids && id < below && id !in page ==>
            |page| == limit && forall k :: 0 <= k < |page| ==> id < page[k])
  {
    if limit == 0 || below == 0 {
    } else if below - 1 in ids {
      PageIsExact(ids, limit - 1, below - 1);
    } else {
      PageIsExact(ids, limit, below - 1);
    }
  }

  lemma {:induction false} PageSize(ids: set<nat>, limit: nat, below: nat)
    ensures var visible := set id | id in ids && id < below;
      |Page(ids, limit, below)| == if |visible| < limit then |visible| else limit
  {
    var visible := set id | id in ids && id < below;
    if limit > 0 && below > 0 {
      var lower := set id | id in ids && id < below - 1;
      if below - 1 in ids {
        assert visible == lower + {below - 1};
        PageSize(ids, limit - 1, below - 1);
      } else {
        assert visible == lower;
        PageSize(ids, limit, below - 1);
      }
    } else if below == 0 {
      assert visible == {};
    }
  }

  /** No cursor is offered exactly when fewer rows are left than were asked for; otherwise it is the last id of
      the page. */
  lemma CursorExactlyWhen(ids: set<nat>, limit: nat, below: nat)
    requires limit > 0
    ensures var page := Page(ids, limit, below); var next := NextCursor(page, limit);
      && (next.None? <==> |set id | id in ids && id < below| < limit)
      && (next.Some? ==> page != [] && next.value == page[|page| - 1])
  {
    PageSize(ids, limit, below);
  }

  /** Everything the client sees has been there, and comes in strictly decreasing order: nothing twice. */
  lemma {:induction false} FollowDecreases(snapshots: seq<set<nat>>, limit: nat, below: nat)
    ensures Decreasing(Follow(snapshots, limit, below), below)
    ensures forall id :: id in Follow(snapshots, limit, below) ==> exists k :: 0 <= k < |snapshots| && id in snapshots[k]
  {
    if snapshots != [] {
      var page := Page(snapshots[0], limit, below);
      PageIsExact(snapshots[0], limit, below);
      var next := NextCursor(page, limit);
      if next.Some? {
        FollowDecreases(snapshots[1..], limit, next.value);
        forall id | id in Follow(snapshots[1..], limit, next.value)
          ensures exists k :: 0 <= k < |snapshots| && id in snapshots[k]
        {
          var k :| 0 <= k < |snapshots[1..]| && id in snapshots[1..][k];
          assert id in snapshots[k + 1];
        }
      }
    }
  }

  /** The walk ends: a cursor is a smaller id each time, so `below + 1` pages are enough. */
  lemma {:induction false} FollowTerminates(snapshots: seq<set<nat>>, limit: nat, below: nat)
    requires 1 <= limit && below < |snapshots|
    ensures Ended(snapshots, limit, below)
  {
    var page := Page(snapshots[0], limit, below);
    PageIsExact(snapshots[0], limit, below);
    var next := NextCursor(page, limit);
    if next.Some? {
      assert next.value < below;
      FollowTerminates(snapshots[1..], limit, next.value);
    }
  }

  /** When the walk has ended, no row that was there at every page read has been skipped, whatever was
      inserted or deleted in between. */
  lemma {:induction false} FollowSkipsNothing(snapshots: seq<set<nat>>, limit: nat, below: nat, id: nat)
    requires Ended(snapshots, limit, below) && id < below
    requires forall k :: 0 <= k < |snapshots| ==> id in snapshots[k]
    ensures limit > 0 ==> id in Follow(snapshots, limit, below)
  {
    var page := Page(snapshots[0], limit, below);
    PageIsExact(snapshots[0], limit, below);
    if limit > 0 && id !in page {
      FollowSkipsNothing(snapshots[1..], limit, page[|page| - 1], id);
    }
  }

  // -- over a run of the protocol ------------------------------------------------------------------------

  /** The ids list_dlq sees, and those list_held sees. */
  function DlqIds(db: Db): set<nat> { JoinedDlq(db) }

  function HeldIds(db: Db): set<nat> {
    set e | e in db.events && db.events[e].status == Quarantined
  }

  /** A client reads its pages, of what `visible` shows, at the given points of a run. */
  ghost function Snapshots(r: Run, at: seq<nat>, visible: Db -> set<nat>): seq<set<nat>>
    requires forall k :: 0 <= k < |at| ==> at[k] < |r.states|
  {
    if at == [] then [] else [visible(r.states[at[0]].db)] + Snapshots(r, at[1..], visible)
  }

  lemma {:induction false} SnapshotsAre(r: Run, at: seq<nat>, visible: Db -> set<nat>, k: nat)
    requires (forall k :: 0 <= k < |at| ==> at[k] < |r.states|) && k < |at|
    ensures |Snapshots(r, at, visible)| == |at| && Snapshots(r, at, visible)[k] == visible(r.states[at[k]].db)
  {
    if k > 0 {
      SnapshotsAre(r, at[1..], visible, k - 1);
    } else if |at| > 1 {
      SnapshotsAre(r, at[1..], visible, 0);
    }
  }

  /** For any limit and any interleaving of other work with the client: once the client is offered no
      further cursor, a row visible at every page read has been returned, no row twice; and that
      happens after at most `below + 1` pages. */
  lemma PagingIsExact(r: Run, at: seq<nat>, visible: Db -> set<nat>, limit: int, below: nat, id: nat)
    requires forall k :: 0 <= k < |at| ==> at[k] < |r.states|
    requires id < below && forall k :: 0 <= k < |at| ==> id in visible(r.states[at[k]].db)
    ensures var seen := Follow(Snapshots(r, at, visible), Effective(limit), below);
      && (Ended(Snapshots(r, at, visible), Effective(limit), below) ==> id in seen)
      && (forall i, j :: 0 <= i < j < |seen| ==> seen[j] < seen[i])
    ensures below < |at| ==> Ended(Snapshots(r, at, visible), Effective(limit), below)
  {
    var snapshots := Snapshots(r, at, visible);
    if at != [] { SnapshotsAre(r, at, visible, 0); }
    forall k | 0 <= k < |snapshots| ensures id in snapshots[k] {
      SnapshotsAre(r, at, visible, k);
    }
    if Ended(snapshots, Effective(limit), below) { FollowSkipsNothing(snapshots, Effective(limit), below, id); }
    FollowDecreases(snapshots, Effective(limit), below);
    if below < |at| { FollowTerminates(snapshots, Effective(limit), below); }
  }

  /** /admin/dlq against the whole protocol: every dead-letter row stored throughout is returned,
      because the joins hide none. */
  lemma DlqPagingIsExact(p: Policy, r: Run, at: seq<nat>, limit: int, below: nat, q: nat)
    requires PolicyOk(p) && IsRunFromStart(p, r)
    requires forall k :: 0 <= k < |at| ==> at[k] < |r.states|
    requires q < below && forall k :: 0 <= k < |at| ==> q in r.states[at[k]].db.dlq
    requires Ended(Snapshots(r, at, DlqIds), Effective(limit), below)
    ensures q in Follow(Snapshots(r, at, DlqIds), Effective(limit), below)
  {
    forall k | 0 <= k < |at| ensures q in DlqIds(r.states[at[k]].db) {
      ReferencesStayWhole(p, r, at[k]);
    }
    PagingIsExact(r, at, DlqIds, limit, below, q);
  }

  /** /admin/held: every event quarantined throughout is returned, and nothing that was not quarantined when
      some page was read. */
  lemma HeldPagingIsExact(r: Run, at: seq<nat>, limit: int, below: nat, e: nat)
    requires forall k :: 0 <= k < |at| ==> at[k] < |r.states|
    requires Ended(Snapshots(r, at, HeldIds), Effective(limit), below) && e < below
    ensures (forall k :: 0 <= k < |at| ==> IsHeld(r.states[at[k]].db, e)) ==>
      e in Follow(Snapshots(r, at, HeldIds), Effective(limit), below)
    ensures e in Follow(Snapshots(r, at, HeldIds), Effective(limit), below) ==>
      exists k :: 0 <= k < |at| && IsHeld(r.states[at[k]].db, e)
  {
    if forall k :: 0 <= k < |at| ==> IsHeld(r.states[at[k]].db, e) {
      PagingIsExact(r, at, HeldIds, limit, below, e);
    }
    var snapshots := Snapshots(r, at, HeldIds);
    FollowDecreases(snapshots, Effective(limit), below);
    if e in Follow(snapshots, Effective(limit), below) {
      var k :| 0 <= k < |snapshots| && e in snapshots[k];
      if at != [] { SnapshotsAre(r, at, HeldIds, 0); }
      SnapshotsAre(r, at, HeldIds, k);
    }
  }

  predicate IsHeld(db: Db, e: nat) {
    e in db.events && db.events[e].status == Quarantined
  }

  /** A first page without `before_id` reads below the counter, where every row is. */
  lemma EveryRowIsBelowTheCounter(p: Policy, r: Run, i: nat)
    requires PolicyOk(p) && IsRunFromStart(p, r) && i < |r.states|
    ensures forall q :: q in DlqIds(r.states[i].db) ==> q < r.states[i].db.nextDlq
    ensures forall e :: e in HeldIds(r.states[i].db) ==>
              e < r.states[i].db.nextEvent && r.states[i].db.events[e].quarantinedAt.Some?
  {
    ReachableIsInv(p, r, i);
  }
}
