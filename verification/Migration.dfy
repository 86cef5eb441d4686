/**
 * store/sqlite.py, _apply_schema: bringing an existing database file up to the current schema, with a
 * crash possible between any two statements. Creating a fresh database is taken as one step.
 */
module Migration {
  import opened Basics

  /** The columns of `events`, and the other tables and indexes. */
  datatype Column = Id | Source | DeliveryId | EventType | Summary | ReceivedAt | HeadersJson | Body
                  | ContextJson | Verified | Status
                  | UntrustedFieldsJson | DetectionJson | QuarantinedAt | SinksJson

  datatype Thing = Deliveries | Dlq | Meta | IdxDedup | IdxReceived | IdxDue | IdxEvent | IdxExhausted | IdxStatus

  /** ALTER TABLE events ADD COLUMN with its default (None for NULL), or CREATE ... IF NOT EXISTS. */
  datatype Statement = AddColumn(column: Column, value: Option<string>) | CreateIfMissing(thing: Thing)

  /** A committed database file. `columns` is empty when there is no events table. */
  datatype File = File(columns: seq<Column>, things: set<Thing>,
                       rows: map<nat, map<Column, Option<string>>>, version: nat)

  const BASE_COLUMNS: seq<Column> :=
    [Id, Source, DeliveryId, EventType, Summary, ReceivedAt, HeadersJson, Body, ContextJson, Verified, Status]

  const BASE_THINGS: set<Thing> := {Deliveries, Dlq, IdxDedup, IdxReceived, IdxDue, IdxEvent, IdxExhausted}

  const SCHEMA_VERSION: nat := 3

  /** _SCHEMA: what a fresh database is given. */
  const FRESH_COLUMNS: seq<Column> :=
    [Id, Source, DeliveryId, EventType, Summary, ReceivedAt, HeadersJson, Body, ContextJson, Verified, Status,
     UntrustedFieldsJson, DetectionJson, QuarantinedAt, SinksJson]

  const FRESH_THINGS: set<Thing> :=
    {Deliveries, Dlq, Meta, IdxDedup, IdxReceived, IdxDue, IdxEvent, IdxExhausted, IdxStatus}

  /** _MIGRATIONS, by target version. */
  function Migration(target: nat): seq<Statement> {
    if target == 2 then
      [AddColumn(UntrustedFieldsJson, Some("[]")), AddColumn(DetectionJson, None),
       AddColumn(QuarantinedAt, None), CreateIfMissing(IdxStatus)]
    else if target == 3 then
      [AddColumn(SinksJson, None), CreateIfMissing(Meta)]
    else []
  }

  // -- statements -------------------------------------------------------------------------------------

  /** SQLite refuses to add a column that is there; IF NOT EXISTS never fails. */
  predicate CanExecute(f: File, st: Statement) {
    st.AddColumn? ==> st.column !in f.columns
  }

  function Execute(f: File, st: Statement): File {
    match st
    case AddColumn(column, value) =>
      f.(columns := f.columns + [column], rows := map r | r in f.rows :: f.rows[r][column := value])
    case CreateIfMissing(thing) => f.(things := f.things + {thing})
  }

  /** The first n statements, or None when one of them fails. */
  function ExecuteSome(f: File, statements: seq<Statement>, n: nat): Option<File>
    requires n <= |statements|
  {
    if n == 0 then Some(f)
    else
      match ExecuteSome(f, statements, n - 1)
      case None => None
      case Some(g) => if CanExecute(g, statements[n - 1]) then Some(Execute(g, statements[n - 1])) else None
  }

  /** One version's transaction: its statements and the version it writes, or nothing. */
  function Transaction(f: File, target: nat): Option<File> {
    match ExecuteSome(f, Migration(target), |Migration(target)|)
    case None => None
    case Some(g) => Some(g.(version := target))
  }

  /** What the version pragma means: a populated file that says 0 is at the baseline. */
  function ReadVersion(f: File): nat {
    if f.version == 0 then 1 else f.version
  }

  /** All transactions from `current` on, up to the first that fails. */
  function MigrateFrom(f: File, current: nat): (File, bool)
    decreases SCHEMA_VERSION - current
  {
    if current >= SCHEMA_VERSION then (f, true)
    else
      match Transaction(f, current + 1)
      case None => (f, false)
      case Some(g) => MigrateFrom(g, current + 1)
  }

  datatype Outcome = Nothing | MigratedFrom(version: nat) | Newer | StatementFailed

  /** The open connection: the committed file, and the copy an open transaction works on. */
  class Connection {
    var file: File
    var work: Option<File>

    constructor (file: File)
      ensures this.file == file && work == None
    {
      this.file, work := file, None;
    }

    method ExecuteStatement(st: Statement) returns (ok: bool)
      requires work.Some?
      modifies this
      ensures file == old(file)
      ensures ok == CanExecute(old(work).value, st)
      ensures work == if ok then Some(Execute(old(work).value, st)) else old(work)
    {
      ok := CanExecute(work.value, st);
      if ok { work := Some(Execute(work.value, st)); }
    }

    /** The versions in between are applied one transaction at a time; a failing statement rolls its own
        transaction back and stops. */
    method ApplySchema() returns (outcome: Outcome)
      requires work == None
      modifies this
      ensures work == None
      ensures old(file).columns == [] ==>
                outcome == Nothing
                && file == old(file).(columns := FRESH_COLUMNS, things := FRESH_THINGS, version := SCHEMA_VERSION)
      ensures old(file).columns != [] ==>
        var current := ReadVersion(old(file));
        if current > SCHEMA_VERSION then outcome == Newer && file == old(file)
        else if current == SCHEMA_VERSION then outcome == Nothing && file == old(file)
        else
          var (after, ok) := MigrateFrom(old(file), current);
          file == after && outcome == if ok then MigratedFrom(current) else StatementFailed
    {
      if file.columns == [] {
        file := file.(columns := FRESH_COLUMNS, things := FRESH_THINGS, version := SCHEMA_VERSION);
        return Nothing;
      }
      var startedAt := ReadVersion(file);
      if startedAt > SCHEMA_VERSION { return Newer; }
      if startedAt == SCHEMA_VERSION { return Nothing; }
      ghost var before := file;
      var target := startedAt + 1;
      while target <= SCHEMA_VERSION
        invariant startedAt < target <= SCHEMA_VERSION + 1 && work == None
        invariant MigrateFrom(file, target - 1) == MigrateFrom(before, startedAt)
      {
        var statements := Migration(target);
        work := Some(file);
        ghost var atBegin := file;
        for i := 0 to |statements|
          invariant file == atBegin && work.Some? && ExecuteSome(file, statements, i) == work
        {
          var ok := ExecuteStatement(statements[i]);
          if !ok {
            FailureIsFinal(file, statements, i + 1);
            work := None;
            return StatementFailed;
          }
        }
        file, work := work.value.(version := target), None;
        target := target + 1;
      }
      outcome := MigratedFrom(startedAt);
    }
  }

  lemma {:induction false} FailureIsFinal(f: File, statements: seq<Statement>, i: nat)
    requires i <= |statements| && ExecuteSome(f, statements, i) == None
    ensures ExecuteSome(f, statements, |statements|) == None
    decreases |statements| - i
  {
    if i < |statements| { FailureIsFinal(f, statements, i + 1); }
  }

  // -- what the transactions achieve --------------------------------------------------------------------

  /** The schema that belongs to each version. */
  predicate SchemaIs(f: File, version: nat) {
    && (version == 1 ==> f.columns == BASE_COLUMNS && f.things == BASE_THINGS)
    && (version == 2 ==> f.columns == BASE_COLUMNS + [UntrustedFieldsJson, DetectionJson, QuarantinedAt]
                         && f.things == BASE_THINGS + {IdxStatus})
    && (version == 3 ==> f.columns == FRESH_COLUMNS && f.things == FRESH_THINGS)
  }

  predicate Consistent(f: File) {
    1 <= ReadVersion(f) <= SCHEMA_VERSION && SchemaIs(f, ReadVersion(f))
  }

  /** No row is lost, no value of a column that was there changes, and a new column has its default. */
  ghost predicate RowsKept(f: File, g: File) {
    && g.rows.Keys == f.rows.Keys
    && (forall r, c :: r in f.rows && c in f.columns && c in f.rows[r] ==> c in g.rows[r] && g.rows[r][c] == f.rows[r][c])
    && (forall r, c :: r in g.rows && c in g.columns && c !in f.columns ==>
          c in g.rows[r] && g.rows[r][c] == if c == UntrustedFieldsJson then Some("[]") else None)
    && (forall c :: c in f.columns ==> c in g.columns)
  }

  lemma ExecuteOneMore(f: File, statements: seq<Statement>, n: nat, g: File)
    requires n < |statements| && ExecuteSome(f, statements, n) == Some(g) && CanExecute(g, statements[n])
    ensures ExecuteSome(f, statements, n + 1) == Some(Execute(g, statements[n]))
  {
  }

  /** One ADD COLUMN: the rows keep every value and get the default of the new column. */
  ghost predicate ColumnAdded(f: File, g: File, column: Column, value: Option<string>) {
    && g.columns == f.columns + [column] && g.things == f.things && g.rows.Keys == f.rows.Keys
    && forall r :: r in f.rows ==> g.rows[r] == f.rows[r][column := value]
  }

  lemma AddColumnAdds(f: File, column: Column, value: Option<string>)
    ensures ColumnAdded(f, Execute(f, AddColumn(column, value)), column, value)
  {
  }

  lemma ColumnAddedKeepsRows(f: File, g: File, column: Column, value: Option<string>)
    requires ColumnAdded(f, g, column, value) && column !in f.columns
    requires value == if column == UntrustedFieldsJson then Some("[]") else None
    ensures RowsKept(f, g)
  {
  }

  lemma AddsThree(f: File, one: File, two: File, three: File)
    requires UntrustedFieldsJson !in f.columns && DetectionJson !in f.columns && QuarantinedAt !in f.columns
    requires ColumnAdded(f, one, UntrustedFieldsJson, Some("[]")) && ColumnAdded(one, two, DetectionJson, None)
    requires ColumnAdded(two, three, QuarantinedAt, None)
    ensures three.columns == f.columns + [UntrustedFieldsJson, DetectionJson, QuarantinedAt]
    ensures three.things == f.things && RowsKept(f, three)
  {
    ColumnAddedKeepsRows(f, one, UntrustedFieldsJson, Some("[]"));
    ColumnAddedKeepsRows(one, two, DetectionJson, None);
    ColumnAddedKeepsRows(two, three, QuarantinedAt, None);
    RowsKeptTwice(f, one, two);
    RowsKeptTwice(f, two, three);
  }

  lemma TransactionTwo(f: File)
    requires UntrustedFieldsJson !in f.columns && DetectionJson !in f.columns && QuarantinedAt !in f.columns
    ensures Transaction(f, 2).Some?
    ensures Transaction(f, 2).value.columns == f.columns + [UntrustedFieldsJson, DetectionJson, QuarantinedAt]
    ensures Transaction(f, 2).value.things == f.things + {IdxStatus} && RowsKept(f, Transaction(f, 2).value)
  {
    var statements := Migration(2);
    var one := Execute(f, statements[0]);
    var two := Execute(one, statements[1]);
    var three := Execute(two, statements[2]);
    ExecuteOneMore(f, statements, 0, f);
    ExecuteOneMore(f, statements, 1, one);
    ExecuteOneMore(f, statements, 2, two);
    ExecuteOneMore(f, statements, 3, three);
    AddColumnAdds(f, UntrustedFieldsJson, Some("[]"));
    AddColumnAdds(one, DetectionJson, None);
    AddColumnAdds(two, QuarantinedAt, None);
    AddsThree(f, one, two, three);
  }

  lemma ToVersionTwo(f: File)
    requires SchemaIs(f, 1)
    ensures Transaction(f, 2).Some? && SchemaIs(Transaction(f, 2).value, 2) && RowsKept(f, Transaction(f, 2).value)
  {
    TransactionTwo(f);
  }

  lemma ToVersionThree(f: File)
    requires SchemaIs(f, 2)
    ensures Transaction(f, 3).Some? && SchemaIs(Transaction(f, 3).value, 3) && RowsKept(f, Transaction(f, 3).value)
  {
    var statements := Migration(3);
    var one := Execute(f, statements[0]);
    ExecuteOneMore(f, statements, 0, f);
    ExecuteOneMore(f, statements, 1, one);
    assert one.columns == FRESH_COLUMNS;
  }

  lemma NextVersion(f: File, v: nat)
    requires 1 <= v < SCHEMA_VERSION && SchemaIs(f, v)
    ensures Transaction(f, v + 1).Some?
    ensures SchemaIs(Transaction(f, v + 1).value, v + 1) && RowsKept(f, Transaction(f, v + 1).value)
    ensures Transaction(f, v + 1).value.version == v + 1
  {
    if v == 1 { ToVersionTwo(f); } else { ToVersionThree(f); }
  }

  lemma RowsKeptTwice(f: File, g: File, h: File)
    requires RowsKept(f, g) && RowsKept(g, h)
    ensures RowsKept(f, h)
  {
  }

  /** A file whose schema matches its version ends with the fresh schema, its rows kept. */
  lemma {:induction false} MigrationReachesFresh(f: File, v: nat)
    requires 1 <= v <= SCHEMA_VERSION && SchemaIs(f, v)
    ensures var (after, ok) := MigrateFrom(f, v);
            ok && after.columns == FRESH_COLUMNS && after.things == FRESH_THINGS && RowsKept(f, after)
    ensures v < SCHEMA_VERSION ==> MigrateFrom(f, v).0.version == SCHEMA_VERSION
    decreases SCHEMA_VERSION - v
  {
    if v < SCHEMA_VERSION {
      NextVersion(f, v);
      var g := Transaction(f, v + 1).value;
      MigrationReachesFresh(g, v + 1);
      RowsKeptTwice(f, g, MigrateFrom(g, v + 1).0);
    }
  }

  // -- crashes --------------------------------------------------------------------------------------------

  /** Where the process is: not running, between two transactions, or inside one after `done` statements
      (`stamped`: the version is written too). */
  datatype Process =
    | Down
    | Between(current: nat)
    | Inside(target: nat, done: nat, work: File, stamped: bool)
    | Refused
    | Ready

  datatype Disk = Disk(file: File, process: Process)

  datatype Event = Open | Begin | Exec | Stamp | Commit | Crash

  predicate CanHappen(s: Disk, ev: Event) {
    match ev
    case Open => s.process == Down
    case Begin => s.process.Between?
    case Exec => s.process.Inside? && s.process.done < |Migration(s.process.target)|
    case Stamp => s.process.Inside? && s.process.done == |Migration(s.process.target)| && !s.process.stamped
    case Commit => s.process.Inside? && s.process.stamped
    case Crash => true
  }

  /** After reading the version, or after a commit. */
  function Settle(current: nat): Process {
    if current > SCHEMA_VERSION then Refused else if current == SCHEMA_VERSION then Ready else Between(current)
  }

  function Happen(s: Disk, ev: Event): Disk {
    match ev
    case Open => s.(process := Settle(ReadVersion(s.file)))
    case Begin => if s.process.Between? then s.(process := Inside(s.process.current + 1, 0, s.file, false)) else s
    case Exec =>
      if !s.process.Inside? || s.process.done >= |Migration(s.process.target)| then s else
      var st := Migration(s.process.target)[s.process.done];
      // A failing statement rolls back and ends the process with the exception.
      if !CanExecute(s.process.work, st) then s.(process := Down)
      else s.(process := s.process.(work := Execute(s.process.work, st), done := s.process.done + 1))
    case Stamp =>
      if s.process.Inside? then
        s.(process := s.process.(work := s.process.work.(version := s.process.target), stamped := true))
      else s
    case Commit => if s.process.Inside? then Disk(s.process.work, Settle(s.process.target)) else s
    // The journal rolls an open transaction back: what is committed stays, the rest is gone.
    case Crash => s.(process := Down)
  }

  ghost predicate IsHistory(states: seq<Disk>, events: seq<Event>) {
    && |states| == |events| + 1
    && forall k :: 0 <= k < |events| ==> CanHappen(states[k], events[k]) && states[k + 1] == Happen(states[k], events[k])
  }

  /** The transactions of the versions above `f`'s up to v, each exactly once and in order. */
  function Upgraded(f: File, v: nat): File
    decreases v
  {
    if v <= ReadVersion(f) then f
    else
      match Transaction(Upgraded(f, v - 1), v)
      case None => Upgraded(f, v - 1)
      case Some(g) => g
  }

  lemma {:induction false} UpgradedIs(f: File, v: nat)
    requires Consistent(f) && ReadVersion(f) <= v <= SCHEMA_VERSION
    ensures SchemaIs(Upgraded(f, v), v) && ReadVersion(Upgraded(f, v)) == v && RowsKept(f, Upgraded(f, v))
  {
    if v > ReadVersion(f) {
      UpgradedIs(f, v - 1);
      NextVersion(Upgraded(f, v - 1), v - 1);
      RowsKeptTwice(f, Upgraded(f, v - 1), Upgraded(f, v));
    }
  }

  /** `origin` is the file as it was found. */
  ghost predicate SafeAt(origin: File, s: Disk) {
    && ReadVersion(origin) <= ReadVersion(s.file) <= SCHEMA_VERSION
    && s.file == Upgraded(origin, ReadVersion(s.file))
    && match s.process
       case Down => true
       case Between(current) => current == ReadVersion(s.file) < SCHEMA_VERSION
       case Inside(target, done, work, stamped) =>
         && target == ReadVersion(s.file) + 1 <= SCHEMA_VERSION && done <= |Migration(target)|
         && (stamped ==> done == |Migration(target)|)
         && ExecuteSome(s.file, Migration(target), done).Some?
         && work == if stamped then ExecuteSome(s.file, Migration(target), done).value.(version := target)
                    else ExecuteSome(s.file, Migration(target), done).value
       case Refused => false
       case Ready => ReadVersion(s.file) == SCHEMA_VERSION
  }

  lemma {:induction false} PrefixSucceeds(f: File, statements: seq<Statement>, i: nat, n: nat)
    requires i <= n <= |statements| && ExecuteSome(f, statements, n).Some?
    ensures ExecuteSome(f, statements, i).Some?
  {
    if i < n { PrefixSucceeds(f, statements, i, n - 1); }
  }

  lemma EventIsSafe(origin: File, s: Disk, ev: Event)
    requires Consistent(origin) && SafeAt(origin, s) && CanHappen(s, ev)
    ensures SafeAt(origin, Happen(s, ev))
    ensures ReadVersion(s.file) <= ReadVersion(Happen(s, ev).file)
  {
    var v := ReadVersion(s.file);
    UpgradedIs(origin, v);
    if s.process.Inside? {
      NextVersion(s.file, v);
      if ev == Exec { PrefixSucceeds(s.file, Migration(v + 1), s.process.done + 1, |Migration(v + 1)|); }
    }
  }

  /** With any number of crashes between any two statements: what is committed is at every moment the
      original file with exactly the transactions up to its own version, its schema matches that version,
      and no row is lost; the version never goes back; and a process that gets ready has the fresh schema. */
  lemma {:induction false} MigrationIsCrashSafe(states: seq<Disk>, events: seq<Event>, i: nat)
    requires IsHistory(states, events) && i < |states|
    requires states[0].process == Down && Consistent(states[0].file)
    ensures var origin, now := states[0].file, states[i];
      && SafeAt(origin, now)
      && Consistent(now.file) && RowsKept(origin, now.file)
      && (now.process == Ready ==> now.file.columns == FRESH_COLUMNS && now.file.things == FRESH_THINGS)
    ensures i > 0 ==> ReadVersion(states[i - 1].file) <= ReadVersion(states[i].file)
  {
    var origin := states[0].file;
    if i > 0 {
      MigrationIsCrashSafe(states, events, i - 1);
      EventIsSafe(origin, states[i - 1], events[i - 1]);
    }
    UpgradedIs(origin, ReadVersion(states[i].file));
  }

  /** A database from a newer build is refused and never written. */
  lemma {:induction false} NewerIsUntouched(states: seq<Disk>, events: seq<Event>, i: nat)
    requires IsHistory(states, events) && i < |states|
    requires states[0].process == Down && ReadVersion(states[0].file) > SCHEMA_VERSION
    ensures states[i].file == states[0].file && (states[i].process == Down || states[i].process == Refused)
  {
    if i > 0 { NewerIsUntouched(states, events, i - 1); }
  }

  /** The columns that the migrations from version v on add. */
  function StillToAdd(v: nat): set<Column> {
    (if v < 2 then {UntrustedFieldsJson, DetectionJson, QuarantinedAt} else {}) + (if v < 3 then {SinksJson} else {})
  }

  /** The columns added by the first n statements. */
  function AddedBy(statements: seq<Statement>, n: nat): seq<Column>
    requires n <= |statements|
  {
    if n == 0 then []
    else AddedBy(statements, n - 1) + if statements[n - 1].AddColumn? then [statements[n - 1].column] else []
  }

  predicate Distinct(columns: seq<Column>) {
    forall i, j :: 0 <= i < j < |columns| ==> columns[i] != columns[j]
  }

  lemma {:induction false} ExecutionSucceedsExactlyWhen(f: File, statements: seq<Statement>, n: nat)
    requires n <= |statements| && Distinct(AddedBy(statements, n))
    ensures ExecuteSome(f, statements, n).Some? <==> forall c :: c in AddedBy(statements, n) ==> c !in f.columns
    ensures ExecuteSome(f, statements, n).Some? ==>
              ExecuteSome(f, statements, n).value.columns == f.columns + AddedBy(statements, n)
  {
    if n > 0 {
      var before, now := AddedBy(statements, n - 1), AddedBy(statements, n);
      assert Distinct(before) by {
        forall i, j | 0 <= i < j < |before| ensures before[i] != before[j] {
          assert now[i] == before[i] && now[j] == before[j];
        }
      }
      ExecutionSucceedsExactlyWhen(f, statements, n - 1);
      if statements[n - 1].AddColumn? {
        var c := statements[n - 1].column;
        assert now[|before|] == c;
        forall i | 0 <= i < |before| ensures before[i] != c {
          assert now[i] == before[i];
        }
      }
    }
  }

  lemma TransactionSucceedsExactlyWhen(f: File, target: nat)
    requires target == 2 || target == 3
    ensures Transaction(f, target).Some? <==> StillToAdd(target - 1) - StillToAdd(target) !! set c | c in f.columns
    ensures Transaction(f, target).Some? ==>
              forall c :: c in Transaction(f, target).value.columns <==>
                c in f.columns || c in StillToAdd(target - 1) - StillToAdd(target)
  {
    var statements := Migration(target);
    var added := if target == 2 then [UntrustedFieldsJson, DetectionJson, QuarantinedAt] else [SinksJson];
    assert AddedBy(statements, 1) == added[..1];
    if target == 2 {
      assert AddedBy(statements, 2) == added[..2];
      assert AddedBy(statements, 3) == added;
    }
    assert AddedBy(statements, |statements|) == added;
    assert forall c :: c in added <==> c in StillToAdd(target - 1) - StillToAdd(target);
    ExecutionSucceedsExactlyWhen(f, statements, |statements|);
  }

  /** For any file whatever, a migration from version v goes through exactly when none of the columns it
      has to add is there already. */
  lemma {:induction false} MigrationSucceedsExactlyWhen(f: File, v: nat)
    requires 1 <= v <= SCHEMA_VERSION
    ensures MigrateFrom(f, v).1 <==> StillToAdd(v) !! set c | c in f.columns
    decreases SCHEMA_VERSION - v
  {
    if v < SCHEMA_VERSION {
      TransactionSucceedsExactlyWhen(f, v + 1);
      if Transaction(f, v + 1).Some? { MigrationSucceedsExactlyWhen(Transaction(f, v + 1).value, v + 1); }
    }
  }

  /** So a crash between _SCHEMA and its version write is for good: the complete schema says 0, is read as
      the baseline, its first ADD COLUMN fails, and no later start gets further. */
  lemma UnversionedFreshFileIsStuck(f: File)
    requires f.columns == FRESH_COLUMNS && f.version == 0
    ensures MigrateFrom(f, ReadVersion(f)) == (f, false)
  {
    assert UntrustedFieldsJson == FRESH_COLUMNS[11];
    assert ExecuteSome(f, Migration(2), 1) == None;
    FailureIsFinal(f, Migration(2), 1);
  }
}
