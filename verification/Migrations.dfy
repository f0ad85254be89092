/**
 Schema migrations. SQLite (internal/metadata/sqlite/sqlite.go) applies all pending ones in one transaction, Postgres
 (internal/metadata/postgres/postgres.go) each in its own, under an advisory lock that concurrent processes share. Any
 statement may fail, and a failed Postgres commit may have taken effect.
 */
module Migrations {
  import opened Wrappers
  import SqlSplit

  /** A migration file; files that are not "up" migrations are skipped. */
  datatype File = File(version: int, up: bool, sql: string)

  /** The statements executed so far, and the versions recorded, in order. */
  datatype Db = Db(schema: seq<string>, ledger: seq<int>)

  datatype Dialect = Sqlite | Postgres

  /** SQLite executes statement by statement, Postgres the whole text at once. */
  function Effect(dialect: Dialect, sql: string): seq<string> {
    match dialect
    case Sqlite => SqlSplit.Statements(sql)
    case Postgres => [sql]
  }

  /** Executing a migration and recording its version, unless that is recorded already. */
  function ApplyOne(dialect: Dialect, db: Db, f: File): Db {
    Db(db.schema + Effect(dialect, f.sql), if f.version in db.ledger then db.ledger else db.ledger + [f.version])
  }

  /** Applying what is pending, with the recorded versions read once, before the first. */
  function ApplyPending(dialect: Dialect, db: Db, files: seq<File>, applied: set<int>): Db {
    if files == [] then db
    else
      var last := files[|files| - 1];
      var before := ApplyPending(dialect, db, files[..|files| - 1], applied);
      if last.up && last.version !in applied then ApplyOne(dialect, before, last) else before
  }

  /** Applying what is pending, with the recorded versions read before each. */
  function ApplyChecked(dialect: Dialect, db: Db, files: seq<File>): Db {
    if files == [] then db
    else
      var last := files[|files| - 1];
      var before := ApplyChecked(dialect, db, files[..|files| - 1]);
      if last.up && last.version !in before.ledger then ApplyOne(dialect, before, last) else before
  }

  function Recorded(db: Db): set<int> {
    set v | v in db.ledger
  }

  /** Applying a file adds what it executes at the end, in SQLite its statements, and its version unless it is there. */
  lemma ApplyingAdds(db: Db, f: File)
    ensures db.schema <= ApplyOne(Sqlite, db, f).schema
    ensures SqlSplit.Executes(SqlSplit.Segments(f.sql), ApplyOne(Sqlite, db, f).schema[|db.schema|..])
    ensures ApplyOne(Postgres, db, f).schema == db.schema + [f.sql]
    ensures forall d: Dialect ::
              ApplyOne(d, db, f).ledger == db.ledger + if f.version in db.ledger then [] else [f.version]
  {
    hide SqlSplit.Statements, SqlSplit.Executes, SqlSplit.Segments;
    SqlSplit.StatementsIff(f.sql, SqlSplit.Statements(f.sql));
    assert ApplyOne(Sqlite, db, f).schema[|db.schema|..] == SqlSplit.Statements(f.sql);
  }

  // ---------- SQLite ----------

  function Insert(f: File, files: seq<File>): seq<File> {
    if files == [] || f.version <= files[0].version then [f] + files else [files[0]] + Insert(f, files[1..])
  }

  function Sorted(files: seq<File>): seq<File> {
    if files == [] then [] else Insert(files[0], Sorted(files[1..]))
  }

  /** The transaction after the non-blank ones of some statements. */
  ghost function Executed(tx: Db, statements: seq<string>): Db {
    tx.(schema := tx.schema + SqlSplit.NonBlank(statements))
  }

  lemma NothingExecuted(tx: Db, statements: seq<string>)
    ensures Executed(tx, statements[..0]) == tx && |SqlSplit.NonBlank(statements[..0])| == 0
  {
    assert statements[..0] == [];
  }

  lemma ExecutedStep(tx: Db, statements: seq<string>, i: nat)
    requires i < |statements|
    ensures var before, stmt := Executed(tx, statements[..i]), SqlSplit.TrimSpace(statements[i]);
            Executed(tx, statements[..i + 1]) ==
              if stmt == "" then before else before.(schema := before.schema + [stmt])
  {
    assert statements[..i + 1] == statements[..i] + [statements[i]];
    SqlSplit.NonBlankSnoc(statements[..i], statements[i]);
    hide SqlSplit.NonBlank, SqlSplit.TrimSpace;
  }

  lemma CountStep(statements: seq<string>, i: nat)
    requires i < |statements|
    ensures |SqlSplit.NonBlank(statements[..i + 1])| ==
              |SqlSplit.NonBlank(statements[..i])| + if SqlSplit.TrimSpace(statements[i]) == "" then 0 else 1
    ensures |SqlSplit.NonBlank(statements[..i + 1])| <= |SqlSplit.NonBlank(statements)|
  {
    hide SqlSplit.TrimSpace;
    assert statements[..i + 1] == statements[..i] + [statements[i]];
    SqlSplit.NonBlankSnoc(statements[..i], statements[i]);
    assert statements == statements[..i + 1] + statements[i + 1..];
    SqlSplit.NonBlankAppend(statements[..i + 1], statements[i + 1..]);
  }

  lemma AllExecuted(tx: Db, f: File)
    ensures var after := Executed(tx, SqlSplit.Parts(SqlSplit.Segments(f.sql)));
            ApplyOne(Sqlite, tx, f) ==
              if f.version in after.ledger then after else after.(ledger := after.ledger + [f.version])
  {
    hide SqlSplit.NonBlank, SqlSplit.Parts, SqlSplit.Segments;
  }

  class SqliteStore {
    var db: Db
    var migrated: bool

    constructor (db: Db)
      ensures this.db == db && !migrated
    {
      this.db := db;
      migrated := false;
    }

    /** `execMigrationInConn`, inside the open transaction; execution number `failAt` fails, if there are so many. */
    method ExecMigrationInConn(tx: Db, f: File, failAt: nat) returns (ok: bool, after: Db)
      ensures ok <==> |SqlSplit.Statements(f.sql)| < failAt
      ensures ok ==> after == ApplyOne(Sqlite, tx, f)
    {
      hide *;
      var statements := SqlSplit.SplitStatements(f.sql);
      var executed := 0;
      after := tx;
      ok := true;
      NothingExecuted(tx, statements);
      StatementsOf(f.sql);
      for i := 0 to |statements|
        invariant after == Executed(tx, statements[..i])
        invariant executed == |SqlSplit.NonBlank(statements[..i])| <= failAt
      {
        ExecutedStep(tx, statements, i);
        CountStep(statements, i);
        var stmt := SqlSplit.TrimSpace(statements[i]);
        if stmt == "" {
          continue;
        }
        if executed == failAt {
          return false, tx;
        }
        executed := executed + 1;
        after := after.(schema := after.schema + [stmt]);
      }
      assert statements[..|statements|] == statements;
      AllExecuted(tx, f);
      if executed == failAt {
        return false, tx;
      }
      if f.version !in after.ledger {
        after := after.(ledger := after.ledger + [f.version]);
      }
    }

    /**
     `Migrate`: all or nothing. Reading the ledger may end early without being noticed, so `luck.read` is any part of
     it; what it leaves out is applied again.
     */
    method Migrate(files: seq<File>, luck: Luck) returns (ok: bool)
      requires luck.read <= Recorded(db)
      modifies this
      ensures ok <==> old(migrated) ||
                      (luck.begins && Executions(Sorted(files), luck.read) <= luck.failAt && luck.commits)
      ensures migrated == (ok || old(migrated))
      ensures db == if ok && !old(migrated) then ApplyPending(Sqlite, old(db), Sorted(files), luck.read) else old(db)
    {
      if migrated {
        return true;
      }
      if !luck.begins {
        return false;
      }
      var tx := db;
      var applied := luck.read;
      var sorted := Sorted(files);
      ghost var executed := 0;
      for i := 0 to |sorted|
        invariant db == old(db) && !migrated
        invariant tx == ApplyPending(Sqlite, db, sorted[..i], applied)
        invariant executed == Executions(sorted[..i], applied) <= luck.failAt
      {
        hide Sorted, SqlSplit.Statements, ApplyOne;
        assert sorted[..i + 1][..i] == sorted[..i];
        ExecutionsGrow(sorted, i + 1, applied);
        if !sorted[i].up || sorted[i].version in applied {
          continue;
        }
        var done: bool;
        done, tx := ExecMigrationInConn(tx, sorted[i], luck.failAt - Executions(sorted[..i], applied));
        if !done {
          return false;
        }
        executed := executed + |SqlSplit.Statements(sorted[i].sql)| + 1;
      }
      assert sorted[..|sorted|] == sorted;
      if !luck.commits {
        return false;
      }
      db := tx;
      migrated := true;
      return true;
    }
  }

  /**
   What a SQLite run meets: whether it gets the write lock, what it reads of the ledger, the number of the execution
   that fails, counting those that record a version, and whether the commit succeeds.
   */
  datatype Luck = Luck(begins: bool, read: set<int>, failAt: nat, commits: bool)

  /** How many executions a run over the files needs. */
  function Executions(files: seq<File>, applied: set<int>): nat {
    if files == [] then 0
    else
      var last := files[|files| - 1];
      Executions(files[..|files| - 1], applied) +
      if last.up && last.version !in applied then |SqlSplit.Statements(last.sql)| + 1 else 0
  }

  lemma {:induction false} ExecutionsGrow(files: seq<File>, n: nat, applied: set<int>)
    requires n <= |files|
    ensures Executions(files[..n], applied) <= Executions(files, applied)
    decreases |files|
  {
    hide SqlSplit.Statements;
    if n < |files| {
      assert files[..|files| - 1][..n] == files[..n];
      ExecutionsGrow(files[..|files| - 1], n, applied);
    } else {
      assert files[..n] == files;
    }
  }

  lemma StatementsOf(sql: string)
    ensures SqlSplit.Statements(sql) == SqlSplit.NonBlank(SqlSplit.Parts(SqlSplit.Segments(sql)))
  {
  }

  // ---------- Postgres, one process ----------

  class PostgresStore {
    var db: Db
    var migrated: bool

    constructor (db: Db)
      ensures this.db == db && !migrated
    {
      this.db := db;
      migrated := false;
    }

    /** `applyMigrationOnConn`: on failure the transaction has no effect, unless the commit was only not confirmed. */
    method ApplyMigrationOnConn(f: File, fails: bool, committed: bool) returns (ok: bool)
      modifies this`db
      ensures ok == !fails
      ensures db == if ok || committed then ApplyOne(Postgres, old(db), f) else old(db)
    {
      ok := !fails;
      if ok || committed {
        db := Db(db.schema + [f.sql], if f.version in db.ledger then db.ledger else db.ledger + [f.version]);
      }
    }

    /**
     `Migrate`: a failed run leaves the first `n` migrations applied. If it gets the lock, it fails at migration
     `failAt`, at its check or when it is applied, and then the commit may have taken effect.
     */
    method Migrate(migrations: seq<File>, locks: bool, failAt: nat, atCheck: bool, committed: bool)
      returns (ok: bool, ghost n: nat)
      requires forall k :: 0 <= k < |migrations| ==> migrations[k].up
      modifies this
      ensures migrated == ok
      ensures n <= |migrations| && db == ApplyChecked(Postgres, old(db), migrations[..n])
      ensures old(migrated) ==> ok && n == 0
      ensures !old(migrated) ==> (ok <==> locks && NeverFails(old(db), migrations, failAt, atCheck))
      ensures !old(migrated) && ok ==> n == |migrations|
      ensures !ok ==> n == if !locks then 0 else if !atCheck && committed then failAt + 1 else failAt
    {
      n := 0;
      if migrated {
        return true, 0;
      }
      if !locks {
        return false, 0;
      }
      for i := 0 to |migrations|
        invariant db == ApplyChecked(Postgres, old(db), migrations[..i]) && !migrated && n == i
        invariant failAt < i ==> NeverFails(old(db), migrations, failAt, atCheck)
      {
        hide ApplyOne;
        assert migrations[..i + 1][..i] == migrations[..i];
        if i == failAt && atCheck {
          return false, n;
        }
        if migrations[i].version !in db.ledger {
          var applied := ApplyMigrationOnConn(migrations[i], i == failAt, committed);
          if !applied {
            if committed {
              n := i + 1;
            }
            return false, n;
          }
        }
        n := i + 1;
      }
      assert migrations[..|migrations|] == migrations;
      migrated := true;
      return true, n;
    }
  }

  /** There is no migration `failAt`, or it is only applied and is recorded already when its turn comes. */
  predicate NeverFails(db: Db, migrations: seq<File>, failAt: nat, atCheck: bool) {
    failAt < |migrations| ==>
      !atCheck && migrations[failAt].version in ApplyChecked(Postgres, db, migrations[..failAt]).ledger
  }

  // ---------- What a run applies ----------

  /** No two "up" files have the same version. */
  ghost predicate DistinctUps(files: seq<File>) {
    forall i, j :: 0 <= i < j < |files| && files[i].up && files[j].up ==> files[i].version != files[j].version
  }

  function PendingIn(files: seq<File>, applied: set<int>): seq<File> {
    if files == [] then []
    else
      var last := files[|files| - 1];
      PendingIn(files[..|files| - 1], applied) + if last.up && last.version !in applied then [last] else []
  }

  function Effects(dialect: Dialect, files: seq<File>): seq<string> {
    if files == [] then []
    else Effects(dialect, files[..|files| - 1]) + Effect(dialect, files[|files| - 1].sql)
  }

  function Versions(files: seq<File>): (r: seq<int>)
    ensures |r| == |files| && forall k :: 0 <= k < |r| ==> r[k] == files[k].version
  {
    seq(|files|, k requires 0 <= k < |files| => files[k].version)
  }

  lemma {:induction false} PendingMembers(files: seq<File>, applied: set<int>)
    ensures forall f :: f in PendingIn(files, applied) <==> f in files && f.up && f.version !in applied
  {
    if files != [] {
      var n := |files| - 1;
      PendingMembers(files[..n], applied);
      assert files == files[..n] + [files[n]];
    }
  }

  lemma ApplyNew(dialect: Dialect, db: Db, pending: seq<File>, last: File)
    requires last.version !in db.ledger && last.version !in Versions(pending)
    ensures ApplyOne(dialect, Db(db.schema + Effects(dialect, pending), db.ledger + Versions(pending)), last) ==
              Db(db.schema + Effects(dialect, pending + [last]), db.ledger + Versions(pending + [last]))
  {
    hide Effect;
    assert (pending + [last])[..|pending|] == pending;
    assert Versions(pending + [last]) == Versions(pending) + [last.version];
  }

  /** With distinct versions every pending migration takes effect once, in order, and is recorded once, in order. */
  lemma {:induction false} PendingAppliedInOrder(dialect: Dialect, db: Db, files: seq<File>)
    requires DistinctUps(files)
    ensures var pending := PendingIn(files, Recorded(db));
            ApplyPending(dialect, db, files, Recorded(db)) ==
              Db(db.schema + Effects(dialect, pending), db.ledger + Versions(pending))
  {
    if files == [] {
      assert db.schema + Effects(dialect, []) == db.schema && db.ledger + Versions([]) == db.ledger;
    } else {
      hide Effects, Versions, ApplyOne;
      var n := |files| - 1;
      var last := files[n];
      PendingAppliedInOrder(dialect, db, files[..n]);
      var before := PendingIn(files[..n], Recorded(db));
      if last.up && last.version !in Recorded(db) {
        LastIsNew(files, Recorded(db));
        ApplyNew(dialect, db, before, last);
      } else {
        assert before + [] == before;
      }
    }
  }

  lemma LastIsNew(files: seq<File>, applied: set<int>)
    requires DistinctUps(files) && files != [] && files[|files| - 1].up
    ensures files[|files| - 1].version !in Versions(PendingIn(files[..|files| - 1], applied))
  {
    var n := |files| - 1;
    var before := PendingIn(files[..n], applied);
    PendingMembers(files[..n], applied);
    forall k | 0 <= k < |before|
      ensures before[k].version != files[n].version
    {
      assert before[k] in before;
    }
  }

  /** Of two "up" files with the same unrecorded version, the later one has nothing to execute. */
  ghost predicate NoRework(dialect: Dialect, db: Db, files: seq<File>) {
    forall i, j :: 0 <= i < j < |files| && Reworks(db, files[i], files[j]) ==> Effect(dialect, files[j].sql) == []
  }

  predicate Reworks(db: Db, first: File, second: File) {
    first.up && second.up && first.version == second.version && second.version !in db.ledger
  }

  predicate HasUp(files: seq<File>, v: int) {
    exists i :: 0 <= i < |files| && files[i].up && files[i].version == v
  }

  lemma HasUpStep(files: seq<File>, v: int)
    requires files != []
    ensures var n := |files| - 1;
            HasUp(files, v) <==> HasUp(files[..n], v) || (files[n].up && files[n].version == v)
  {
    var n := |files| - 1;
    assert forall i :: 0 <= i < n ==> files[..n][i] == files[i];
  }

  lemma {:induction false} CheckedLedger(dialect: Dialect, db: Db, files: seq<File>, v: int)
    ensures v in ApplyChecked(dialect, db, files).ledger <==> v in db.ledger || HasUp(files, v)
  {
    hide Effect, HasUp;
    if files == [] {
      NoUps(v);
    } else {
      CheckedLedger(dialect, db, files[..|files| - 1], v);
      HasUpStep(files, v);
    }
  }

  lemma NoUps(v: int)
    ensures !HasUp([], v)
  {
  }

  /**
   Whether recorded versions are read once or before each migration makes a difference exactly when two pending files
   share a version and the later one has something to execute; then reading once executes more.
   */
  lemma {:induction false} CheckingOftenAgreesIff(dialect: Dialect, db: Db, files: seq<File>)
    ensures var once, often := ApplyPending(dialect, db, files, Recorded(db)), ApplyChecked(dialect, db, files);
            && once.ledger == often.ledger
            && (once == often <==> NoRework(dialect, db, files))
            && (!NoRework(dialect, db, files) ==> |once.schema| > |often.schema|)
  {
    hide Effect, NoRework;
    if files == [] {
      NoReworkStep(dialect, db, files);
    } else {
      var n := |files| - 1;
      CheckingOftenAgreesIff(dialect, db, files[..n]);
      CheckedLedger(dialect, db, files[..n], files[n].version);
      NoReworkStep(dialect, db, files);
      assert forall i :: 0 <= i < n ==> files[..n][i] == files[i];
    }
  }

  lemma NoReworkStep(dialect: Dialect, db: Db, files: seq<File>)
    ensures files == [] ==> NoRework(dialect, db, files)
    ensures files != [] ==>
              var n := |files| - 1;
              NoRework(dialect, db, files) <==>
                && NoRework(dialect, db, files[..n])
                && ((exists i :: 0 <= i < n && Reworks(db, files[i], files[n])) ==> Effect(dialect, files[n].sql) == [])
  {
    hide Effect, Reworks;
    if files != [] {
      var n := |files| - 1;
      assert forall i :: 0 <= i < n ==> files[..n][i] == files[i];
    }
  }

  /** For instance two files of one version: read once, both take effect; read before each, only the first does. */
  lemma SharedVersion(dialect: Dialect, db: Db, first: File, second: File)
    requires first.up && second.up && first.version == second.version && first.version !in db.ledger
    ensures var once := ApplyPending(dialect, db, [first, second], Recorded(db));
            once.schema == db.schema + Effect(dialect, first.sql) + Effect(dialect, second.sql)
    ensures ApplyChecked(dialect, db, [first, second]).schema == db.schema + Effect(dialect, first.sql)
  {
    hide Effect;
    assert [first, second][..1] == [first] && [first][..0] == [];
    assert ApplyPending(dialect, db, [first], Recorded(db)) == ApplyOne(dialect, db, first);
    assert ApplyChecked(dialect, db, [first]) == ApplyOne(dialect, db, first);
  }

  /** In particular with distinct versions it makes none. */
  lemma CheckingOftenAgrees(dialect: Dialect, db: Db, files: seq<File>)
    requires DistinctUps(files)
    ensures ApplyChecked(dialect, db, files) == ApplyPending(dialect, db, files, Recorded(db))
  {
    CheckingOftenAgreesIff(dialect, db, files);
  }

  // ---------- Incomplete reads of the ledger ----------

  /** Recorded files that the read left out have nothing to execute. */
  ghost predicate NothingMissed(dialect: Dialect, db: Db, files: seq<File>, read: set<int>) {
    forall k :: 0 <= k < |files| && Missed(db, files[k], read) ==> Effect(dialect, files[k].sql) == []
  }

  predicate Missed(db: Db, f: File, read: set<int>) {
    f.up && f.version in db.ledger && f.version !in read
  }

  lemma {:induction false} LedgerGrows(dialect: Dialect, db: Db, files: seq<File>, read: set<int>)
    ensures Recorded(db) <= Recorded(ApplyPending(dialect, db, files, read))
  {
    hide Effect;
    if files != [] {
      LedgerGrows(dialect, db, files[..|files| - 1], read);
    }
  }

  /**
   A run that read part of the ledger does what one that read all of it does exactly when no recorded migration with
   something to execute was left out; otherwise it executes more. The ledger is the same in any case.
   */
  lemma {:induction false} PartialReadAgreesIff(dialect: Dialect, db: Db, files: seq<File>, read: set<int>)
    requires read <= Recorded(db)
    ensures var part, full := ApplyPending(dialect, db, files, read), ApplyPending(dialect, db, files, Recorded(db));
            && part.ledger == full.ledger
            && (part == full <==> NothingMissed(dialect, db, files, read))
            && (!NothingMissed(dialect, db, files, read) ==> |part.schema| > |full.schema|)
  {
    hide Effect;
    if files != [] {
      var n := |files| - 1;
      PartialReadAgreesIff(dialect, db, files[..n], read);
      LedgerGrows(dialect, db, files[..n], read);
      MissedStep(dialect, db, files, read);
      assert files[n].version in Recorded(db) <==> files[n].version in db.ledger;
      hide NothingMissed;
      PartialStep(dialect, db, files, read);
    }
  }

  lemma MissedStep(dialect: Dialect, db: Db, files: seq<File>, read: set<int>)
    requires files != []
    ensures var n := |files| - 1;
            NothingMissed(dialect, db, files, read) <==>
              && NothingMissed(dialect, db, files[..n], read)
              && (Missed(db, files[n], read) ==> Effect(dialect, files[n].sql) == [])
  {
    hide Effect, Missed;
    var n := |files| - 1;
    assert forall i :: 0 <= i < n ==> files[..n][i] == files[i];
  }

  lemma PartialStep(dialect: Dialect, db: Db, files: seq<File>, read: set<int>)
    requires files != [] && read <= Recorded(db)
    ensures var n := |files| - 1;
            var part := ApplyPending(dialect, db, files[..n], read);
            var full := ApplyPending(dialect, db, files[..n], Recorded(db));
            Recorded(db) <= Recorded(part) && part.ledger == full.ledger ==>
              var e := Effect(dialect, files[n].sql);
              && ApplyPending(dialect, db, files, read).ledger == ApplyPending(dialect, db, files, Recorded(db)).ledger
              && ApplyPending(dialect, db, files, read).schema ==
                   (if files[n].up && files[n].version !in read then part.schema + e else part.schema)
              && ApplyPending(dialect, db, files, Recorded(db)).schema ==
                   (if files[n].up && files[n].version !in db.ledger then full.schema + e else full.schema)
  {
    hide Effect;
    var n := |files| - 1;
    assert files[n].version in Recorded(db) <==> files[n].version in db.ledger;
  }

  // ---------- Ascending order ----------

  ghost predicate Ascending(files: seq<File>) {
    forall i, j :: 0 <= i < j < |files| ==> files[i].version <= files[j].version
  }

  lemma {:induction false} InsertMembers(f: File, files: seq<File>)
    ensures forall g :: g in Insert(f, files) <==> g == f || g in files
  {
    if files != [] && files[0].version < f.version {
      InsertMembers(f, files[1..]);
      assert files == [files[0]] + files[1..];
    }
  }

  lemma {:induction false} InsertAscends(f: File, files: seq<File>)
    requires Ascending(files)
    ensures Ascending(Insert(f, files))
  {
    if files != [] && files[0].version < f.version {
      InsertAscends(f, files[1..]);
      InsertMembers(f, files[1..]);
      var rest := Insert(f, files[1..]);
      forall k | 0 <= k < |rest|
        ensures files[0].version <= rest[k].version
      {
        assert rest[k] in rest;
      }
    }
  }

  lemma {:induction false} InsertDistinct(f: File, files: seq<File>)
    requires DistinctUps(files)
    requires f.up ==> forall k :: 0 <= k < |files| && files[k].up ==> files[k].version != f.version
    ensures DistinctUps(Insert(f, files))
  {
    if files != [] && files[0].version < f.version {
      InsertDistinct(f, files[1..]);
      InsertMembers(f, files[1..]);
      var rest := Insert(f, files[1..]);
      forall k | 0 <= k < |rest| && rest[k].up && files[0].up
        ensures files[0].version != rest[k].version
      {
        assert rest[k] in rest;
      }
    }
  }

  lemma {:induction false} SortedKeeps(files: seq<File>)
    requires DistinctUps(files)
    ensures var r := Sorted(files);
            Ascending(r) && DistinctUps(r) && forall g :: g in r <==> g in files
  {
    hide Insert;
    if files != [] {
      SortedKeeps(files[1..]);
      assert files == [files[0]] + files[1..];
      var rest := Sorted(files[1..]);
      forall k | 0 <= k < |rest| && rest[k].up && files[0].up
        ensures rest[k].version != files[0].version
      {
        assert rest[k] in files[1..];
      }
      InsertMembers(files[0], rest);
      InsertAscends(files[0], rest);
      InsertDistinct(files[0], rest);
    }
  }

  lemma PendingStep(files: seq<File>, applied: set<int>)
    requires files != []
    ensures var n := |files| - 1;
            PendingIn(files, applied) ==
              if files[n].up && files[n].version !in applied then PendingIn(files[..n], applied) + [files[n]]
              else PendingIn(files[..n], applied)
  {
  }

  ghost predicate Increasing(v: seq<int>) {
    forall i, j :: 0 <= i < j < |v| ==> v[i] < v[j]
  }

  lemma {:induction false} PendingAscends(files: seq<File>, applied: set<int>)
    requires Ascending(files) && DistinctUps(files)
    ensures Increasing(Versions(PendingIn(files, applied)))
  {
    if files != [] {
      var n := |files| - 1;
      PendingAscends(files[..n], applied);
      PendingStep(files, applied);
      var before := PendingIn(files[..n], applied);
      PendingMembers(files[..n], applied);
      if files[n].up && files[n].version !in applied {
        LastIsNew(files, applied);
        forall k | 0 <= k < |before|
          ensures before[k].version < files[n].version
        {
          assert before[k] in files[..n];
          assert Versions(before)[k] in Versions(before);
        }
        assert Versions(before + [files[n]]) == Versions(before) + [files[n].version];
      }
    }
  }

  /** A successful SQLite run applies what is pending, each migration once, in ascending order of version. */
  lemma SqliteRunAscends(db: Db, files: seq<File>)
    requires DistinctUps(files)
    ensures var pending := PendingIn(Sorted(files), Recorded(db));
            && ApplyPending(Sqlite, db, Sorted(files), Recorded(db)) ==
                 Db(db.schema + Effects(Sqlite, pending), db.ledger + Versions(pending))
            && (forall f :: f in pending <==> f in files && f.up && f.version !in db.ledger)
            && forall i, j :: 0 <= i < j < |pending| ==> pending[i].version < pending[j].version
  {
    hide Sorted, PendingIn, Effects, ApplyPending;
    SortedKeeps(files);
    PendingAppliedInOrder(Sqlite, db, Sorted(files));
    PendingMembers(Sorted(files), Recorded(db));
    PendingAscends(Sorted(files), Recorded(db));
    var pending := PendingIn(Sorted(files), Recorded(db));
    assert forall k :: 0 <= k < |pending| ==> Versions(pending)[k] == pending[k].version;
  }

  // ---------- Which ascending order does not matter ----------

  ghost predicate Rising(files: seq<File>) {
    forall i, j :: 0 <= i < j < |files| ==> files[i].version < files[j].version
  }

  lemma {:induction false} OneRisingOrder(p: seq<File>, q: seq<File>)
    requires Rising(p) && Rising(q) && forall f :: f in p <==> f in q
    ensures p == q
  {
    assert q != [] ==> q[0] in p;
    assert p != [] ==> p[0] in q;
    if p != [] && q != [] {
      var n, m := |p| - 1, |q| - 1;
      assert p[n] in q && q[m] in p;
      forall f
        ensures f in p[..n] <==> f in q[..m]
      {
        assert f in p[..n] <==> f in p && f != p[n];
        assert f in q[..m] <==> f in q && f != q[m];
      }
      OneRisingOrder(p[..n], q[..m]);
      assert p == p[..n] + [p[n]] && q == q[..m] + [q[m]];
    }
  }

  lemma ApplyLast(dialect: Dialect, db: Db, files: seq<File>, last: File, applied: set<int>)
    requires last.up && last.version !in applied
    ensures ApplyPending(dialect, db, files + [last], applied) ==
              ApplyOne(dialect, ApplyPending(dialect, db, files, applied), last)
  {
    assert (files + [last])[..|files|] == files;
  }

  lemma {:induction false} OnlyPendingCounts(dialect: Dialect, db: Db, files: seq<File>, applied: set<int>)
    ensures ApplyPending(dialect, db, files, applied) == ApplyPending(dialect, db, PendingIn(files, applied), applied)
  {
    hide ApplyOne;
    if files != [] {
      var last := files[|files| - 1];
      var before := PendingIn(files[..|files| - 1], applied);
      OnlyPendingCounts(dialect, db, files[..|files| - 1], applied);
      PendingStep(files, applied);
      if last.up && last.version !in applied {
        ApplyLast(dialect, db, before, last, applied);
      }
    }
  }

  lemma PendingRises(files: seq<File>, applied: set<int>)
    requires Ascending(files) && DistinctUps(files)
    ensures Rising(PendingIn(files, applied))
    ensures forall f :: f in PendingIn(files, applied) <==> f in files && f.up && f.version !in applied
  {
    hide PendingIn;
    PendingAscends(files, applied);
    PendingMembers(files, applied);
    var pending := PendingIn(files, applied);
    assert forall k :: 0 <= k < |pending| ==> Versions(pending)[k] == pending[k].version;
  }

  /** An unstable sort may order files of equal version either way; with distinct "up" versions a run does the same. */
  lemma AnyAscendingOrder(dialect: Dialect, db: Db, files: seq<File>, sorted: seq<File>, read: set<int>)
    requires DistinctUps(files) && Ascending(sorted) && DistinctUps(sorted) && forall f :: f in sorted <==> f in files
    ensures PendingIn(sorted, read) == PendingIn(Sorted(files), read)
    ensures ApplyPending(dialect, db, sorted, read) == ApplyPending(dialect, db, Sorted(files), read)
  {
    hide Ascending, DistinctUps, Sorted, PendingIn, ApplyPending, Rising;
    SortedKeeps(files);
    PendingRises(sorted, read);
    PendingRises(Sorted(files), read);
    OneRisingOrder(PendingIn(sorted, read), PendingIn(Sorted(files), read));
    OnlyPendingCounts(dialect, db, sorted, read);
    OnlyPendingCounts(dialect, db, Sorted(files), read);
  }

  // ---------- Repeated runs ----------

  lemma {:induction false} AllRecorded(dialect: Dialect, db: Db, files: seq<File>, applied: set<int>)
    requires applied <= Recorded(db)
    ensures var after := ApplyPending(dialect, db, files, applied);
            && Recorded(db) <= Recorded(after)
            && forall f :: f in files && f.up ==> f.version in after.ledger
  {
    hide Effect;
    if files != [] {
      var n := |files| - 1;
      AllRecorded(dialect, db, files[..n], applied);
      assert files == files[..n] + [files[n]];
      assert files[n].version in applied ==> files[n].version in Recorded(db);
    }
  }

  lemma {:induction false} NothingPending(dialect: Dialect, db: Db, files: seq<File>)
    requires forall f :: f in files && f.up ==> f.version in db.ledger
    ensures ApplyPending(dialect, db, files, Recorded(db)) == db
  {
    if files != [] {
      assert files[|files| - 1] in files;
      NothingPending(dialect, db, files[..|files| - 1]);
    }
  }

  /** A run's outcome: it failed, or it succeeded having read the ledger but for some versions. */
  datatype Outcome = Failure | Success(overlooked: set<int>)

  /** The database after runs one after another, as the write lock forces them to be. */
  function AfterRuns(db: Db, files: seq<File>, outcomes: seq<Outcome>): Db
    decreases |outcomes|
  {
    if outcomes == [] then db
    else AfterRuns(AfterRun(db, files, outcomes[0]), files, outcomes[1..])
  }

  function AfterRun(db: Db, files: seq<File>, o: Outcome): Db {
    match o
    case Failure => db
    case Success(overlooked) => ApplyPending(Sqlite, db, files, Recorded(db) - overlooked)
  }

  /** No successful run overlooked a recorded migration with something to execute. */
  ghost predicate NothingOverlooked(db: Db, files: seq<File>, outcomes: seq<Outcome>)
    decreases |outcomes|
  {
    if outcomes == [] then true
    else
      && (outcomes[0].Success? ==> NothingMissed(Sqlite, db, files, Recorded(db) - outcomes[0].overlooked))
      && NothingOverlooked(AfterRun(db, files, outcomes[0]), files, outcomes[1..])
  }

  predicate SomeSuccess(outcomes: seq<Outcome>) {
    outcomes != [] && (outcomes[0].Success? || SomeSuccess(outcomes[1..]))
  }

  lemma {:induction false} SchemaGrows(db: Db, files: seq<File>, read: set<int>)
    ensures |ApplyPending(Sqlite, db, files, read).schema| >= |db.schema|
  {
    hide Effect;
    if files != [] {
      SchemaGrows(db, files[..|files| - 1], read);
    }
  }

  lemma {:induction false} RunsGrow(db: Db, files: seq<File>, outcomes: seq<Outcome>)
    ensures |AfterRuns(db, files, outcomes).schema| >= |db.schema|
    decreases |outcomes|
  {
    hide ApplyPending;
    if outcomes != [] {
      RunsGrow(AfterRun(db, files, outcomes[0]), files, outcomes[1..]);
      if outcomes[0].Success? {
        SchemaGrows(db, files, Recorded(db) - outcomes[0].overlooked);
      }
    }
  }

  /**
   Many SQLite runs, some of which fail, have the effect of one complete run or of none exactly when no successful one
   overlooked a recorded migration with something to execute.
   */
  lemma {:induction false} RunsApplyOnceIff(db: Db, files: seq<File>, outcomes: seq<Outcome>)
    ensures var once := if SomeSuccess(outcomes) then ApplyPending(Sqlite, db, files, Recorded(db)) else db;
            AfterRuns(db, files, outcomes) == once <==> NothingOverlooked(db, files, outcomes)
    decreases |outcomes|
  {
    hide ApplyPending, NothingMissed;
    if outcomes != [] {
      var after := AfterRun(db, files, outcomes[0]);
      RunsApplyOnceIff(after, files, outcomes[1..]);
      if outcomes[0].Success? {
        PartialReadAgreesIff(Sqlite, db, files, Recorded(db) - outcomes[0].overlooked);
        AllRecorded(Sqlite, db, files, Recorded(db));
        NothingPending(Sqlite, ApplyPending(Sqlite, db, files, Recorded(db)), files);
        RunsGrow(after, files, outcomes[1..]);
      }
    }
  }

  lemma {:induction false} CheckedRecords(dialect: Dialect, db: Db, files: seq<File>)
    ensures var after := ApplyChecked(dialect, db, files);
            && Recorded(db) <= Recorded(after)
            && forall f :: f in files && f.up ==> f.version in after.ledger
  {
    hide Effect;
    if files != [] {
      var n := |files| - 1;
      CheckedRecords(dialect, db, files[..n]);
      assert files == files[..n] + [files[n]];
    }
  }

  lemma {:induction false} NothingToCheck(dialect: Dialect, db: Db, files: seq<File>)
    requires forall f :: f in files && f.up ==> f.version in db.ledger
    ensures ApplyChecked(dialect, db, files) == db
  {
    if files != [] {
      assert files[|files| - 1] in files;
      NothingToCheck(dialect, db, files[..|files| - 1]);
    }
  }

  /** A Postgres run that stopped after `n` migrations is completed by another run as if it had not stopped. */
  lemma {:induction false} RunResumes(dialect: Dialect, db: Db, files: seq<File>, n: nat)
    requires n <= |files|
    ensures ApplyChecked(dialect, ApplyChecked(dialect, db, files[..n]), files) == ApplyChecked(dialect, db, files)
    decreases |files|
  {
    hide ApplyOne;
    if n == |files| {
      assert files[..n] == files;
      CheckedRecords(dialect, db, files);
      NothingToCheck(dialect, ApplyChecked(dialect, db, files), files);
    } else {
      var k := |files| - 1;
      assert files[..k][..n] == files[..n];
      RunResumes(dialect, db, files[..k], n);
    }
  }

  // ---------- Postgres, concurrent processes ----------

  /** A process knows the first `upto` migrations of one common list; older releases know fewer. */
  datatype Process =
    | Waiting(upto: nat)
    | Checking(upto: nat, next: nat)
    | Applying(upto: nat, next: nat)
    | Succeeded(upto: nat)
    | Failed

  datatype System = System(db: Db, holder: Option<nat>, processes: map<nat, Process>)

  datatype Event =
    | Start(id: nat, upto: nat)
    | Lock(id: nat)
    | Check(id: nat)
    | Commit(id: nat, confirmed: bool) // the transaction took effect
    | Finish(id: nat)
    | Fail(id: nat)                    // an error or a crash, without effect; the session's lock is released

  predicate Enabled(ms: seq<File>, s: System, e: Event) {
    match e
    case Start(id, upto) => id !in s.processes && upto <= |ms|
    case Lock(id) => id in s.processes && s.processes[id].Waiting? && s.holder.None?
    case Check(id) =>
      id in s.processes && s.processes[id].Checking? && s.processes[id].next < s.processes[id].upto <= |ms|
    case Commit(id, _) => id in s.processes && s.processes[id].Applying? && s.processes[id].next < |ms|
    case Finish(id) => id in s.processes && s.processes[id].Checking? && s.processes[id].next == s.processes[id].upto
    case Fail(id) => id in s.processes && !s.processes[id].Succeeded?
  }

  function Stop(s: System, id: nat, p: Process): System {
    s.(processes := s.processes[id := p], holder := if s.holder == Some(id) then None else s.holder)
  }

  function Apply(ms: seq<File>, s: System, e: Event): System
    requires Enabled(ms, s, e)
  {
    match e
    case Start(id, upto) => s.(processes := s.processes[id := Waiting(upto)])
    case Lock(id) => s.(holder := Some(id), processes := s.processes[id := Checking(s.processes[id].upto, 0)])
    case Check(id) =>
      var p := s.processes[id];
      s.(processes := s.processes[id :=
           if ms[p.next].version in s.db.ledger then Checking(p.upto, p.next + 1) else Applying(p.upto, p.next)])
    case Commit(id, confirmed) =>
      var p := s.processes[id];
      var t := s.(db := ApplyOne(Postgres, s.db, ms[p.next]));
      if confirmed then t.(processes := t.processes[id := Checking(p.upto, p.next + 1)]) else Stop(t, id, Failed)
    case Finish(id) => Stop(s, id, Succeeded(s.processes[id].upto))
    case Fail(id) => Stop(s, id, Failed)
  }

  ghost predicate CanRun(ms: seq<File>, s: System, events: seq<Event>)
    decreases |events|
  {
    events == [] || (Enabled(ms, s, events[0]) && CanRun(ms, Apply(ms, s, events[0]), events[1..]))
  }

  ghost function Run(ms: seq<File>, s: System, events: seq<Event>): System
    requires CanRun(ms, s, events)
    decreases |events|
  {
    if events == [] then s else Run(ms, Apply(ms, s, events[0]), events[1..])
  }

  /** The database after exactly the first `n` migrations, each executed once. */
  function FirstApplied(dialect: Dialect, ms: seq<File>, n: nat): Db
    requires n <= |ms|
  {
    Db(Effects(dialect, ms[..n]), Versions(ms[..n]))
  }

  function Initial(ms: seq<File>, n: nat): System
    requires n <= |ms|
  {
    System(FirstApplied(Postgres, ms, n), None, map[])
  }

  /** Where a process can be when the first `n` of `total` migrations are applied. */
  predicate ProcessOk(holder: Option<nat>, id: nat, p: Process, n: nat, total: nat) {
    match p
    case Waiting(upto) => upto <= total
    case Checking(upto, next) => holder == Some(id) && next <= upto <= total && next <= n
    case Applying(upto, next) => holder == Some(id) && next < upto <= total && next == n
    case Succeeded(upto) => upto <= n
    case Failed => true
  }

  ghost predicate Inv(ms: seq<File>, s: System, n: nat) {
    && n <= |ms| && s.db == FirstApplied(Postgres, ms, n)
    && (forall id :: id in s.processes ==> ProcessOk(s.holder, id, s.processes[id], n, |ms|))
    && (s.holder.Some? ==> s.holder.value in s.processes)
  }

  ghost predicate DistinctVersions(ms: seq<File>) {
    forall i, j :: 0 <= i < j < |ms| ==> ms[i].version != ms[j].version
  }

  lemma NextApplied(dialect: Dialect, ms: seq<File>, n: nat)
    requires n < |ms| && DistinctVersions(ms)
    ensures ms[n].version !in FirstApplied(dialect, ms, n).ledger
    ensures forall k :: 0 <= k < n ==> ms[k].version in FirstApplied(dialect, ms, n).ledger
    ensures ApplyOne(dialect, FirstApplied(dialect, ms, n), ms[n]) == FirstApplied(dialect, ms, n + 1)
  {
    hide Effect;
    var v := FirstApplied(dialect, ms, n).ledger;
    assert forall k :: 0 <= k < n ==> v[k] == ms[k].version;
    assert ms[..n + 1][..n] == ms[..n];
    assert Versions(ms[..n + 1]) == Versions(ms[..n]) + [ms[n].version];
  }

  function AppliedAfter(e: Event, n: nat): nat {
    if e.Commit? then n + 1 else n
  }

  lemma StepKeeps(ms: seq<File>, s: System, e: Event, n: nat)
    requires DistinctVersions(ms) && Inv(ms, s, n) && Enabled(ms, s, e)
    ensures Inv(ms, Apply(ms, s, e), AppliedAfter(e, n))
  {
    hide FirstApplied, ApplyOne, DistinctVersions;
    match e
    case Check(id) => CheckKeeps(ms, s, e, n);
    case Commit(id, _) => NextApplied(Postgres, ms, n);
    case _ =>
  }

  lemma CheckKeeps(ms: seq<File>, s: System, e: Event, n: nat)
    requires DistinctVersions(ms) && Inv(ms, s, n) && Enabled(ms, s, e) && e.Check?
    ensures Inv(ms, Apply(ms, s, e), n)
  {
    hide FirstApplied, DistinctVersions;
    if n < |ms| {
      NextApplied(Postgres, ms, n);
    } else {
      AllOfThem(Postgres, ms);
    }
  }

  lemma AllOfThem(dialect: Dialect, ms: seq<File>)
    ensures forall k :: 0 <= k < |ms| ==> ms[k].version in FirstApplied(dialect, ms, |ms|).ledger
  {
    assert forall k :: 0 <= k < |ms| ==> Versions(ms[..|ms|])[k] == ms[k].version;
  }

  /** How many migrations a run applies. */
  function Commits(events: seq<Event>): nat {
    if events == [] then 0 else Commits(events[1..]) + if events[0].Commit? then 1 else 0
  }

  lemma {:induction false} RunKeeps(ms: seq<File>, s: System, events: seq<Event>, n: nat)
    requires DistinctVersions(ms) && Inv(ms, s, n) && CanRun(ms, s, events)
    ensures Inv(ms, Run(ms, s, events), n + Commits(events))
    decreases |events|
  {
    hide DistinctVersions, Inv, Enabled, Apply;
    if events != [] {
      StepKeeps(ms, s, events[0], n);
      RunKeeps(ms, Apply(ms, s, events[0]), events[1..], AppliedAfter(events[0], n));
    }
  }

  /**
   However processes interleave, fail and crash, the database holds an initial segment of the migrations, each executed
   once and in order, the commits so far extend it one by one, and who succeeds finds all it knows applied.
   */
  lemma ConcurrentRunsApplyASegment(ms: seq<File>, start: nat, events: seq<Event>)
    requires DistinctVersions(ms) && start <= |ms| && CanRun(ms, Initial(ms, start), events)
    ensures var s := Run(ms, Initial(ms, start), events);
            var n := start + Commits(events);
            && n <= |ms| && s.db == FirstApplied(Postgres, ms, n)
            && forall id :: id in s.processes && s.processes[id].Succeeded? ==> s.processes[id].upto <= n
  {
    hide FirstApplied, DistinctVersions;
    RunKeeps(ms, Initial(ms, start), events, start);
  }

  /** A process that runs alone, from any such database, does what its sequential run does. */
  lemma {:induction false} SegmentIsSequential(dialect: Dialect, ms: seq<File>, n: nat, upto: nat)
    requires DistinctVersions(ms) && n <= |ms| && upto <= |ms|
    requires forall k :: 0 <= k < |ms| ==> ms[k].up
    ensures ApplyChecked(dialect, FirstApplied(dialect, ms, n), ms[..upto]) ==
              FirstApplied(dialect, ms, if upto <= n then n else upto)
  {
    hide FirstApplied, ApplyOne, DistinctVersions;
    if upto > 0 {
      SegmentIsSequential(dialect, ms, n, upto - 1);
      assert ms[..upto][..upto - 1] == ms[..upto - 1];
      if upto - 1 >= n {
        NextApplied(dialect, ms, upto - 1);
      } else if n < |ms| {
        NextApplied(dialect, ms, n);
      } else {
        AllOfThem(dialect, ms);
      }
    }
  }

  /** A process may fail at any time before it has succeeded; that frees its lock and leaves the database as it is. */
  lemma MayFail(ms: seq<File>, s: System, id: nat)
    requires id in s.processes && !s.processes[id].Succeeded?
    ensures Enabled(ms, s, Fail(id))
    ensures var t := Apply(ms, s, Fail(id));
            && t.db == s.db && t.processes == s.processes[id := Failed]
            && t.holder == if s.holder == Some(id) then None else s.holder
  {
  }

  /** A process that has the lock, and to which nothing happens, works off its list and succeeds. */
  lemma {:induction false} WorksOff(ms: seq<File>, s: System, id: nat, db: Db) returns (events: seq<Event>)
    requires s.holder == Some(id) && id in s.processes && s.processes[id].Checking?
    requires var p := s.processes[id];
             && p.next <= p.upto <= |ms| && s.db == ApplyChecked(Postgres, db, ms[..p.next])
             && forall k :: 0 <= k < p.upto ==> ms[k].up
    ensures var p := s.processes[id];
            && CanRun(ms, s, events)
            && Run(ms, s, events) == System(ApplyChecked(Postgres, db, ms[..p.upto]), None,
                                            s.processes[id := Succeeded(p.upto)])
    decreases s.processes[id].upto - s.processes[id].next
  {
    hide ApplyOne;
    var p := s.processes[id];
    if p.next == p.upto {
      events := [Finish(id)];
      assert Run(ms, Apply(ms, s, Finish(id)), events[1..]) == Apply(ms, s, Finish(id));
    } else {
      assert ms[..p.next + 1][..p.next] == ms[..p.next];
      var t := Apply(ms, s, Check(id));
      if t.processes[id].Checking? {
        var rest := WorksOff(ms, t, id, db);
        events := [Check(id)] + rest;
      } else {
        var u := Apply(ms, t, Commit(id, true));
        var rest := WorksOff(ms, u, id, db);
        var later := [Commit(id, true)] + rest;
        assert later[1..] == rest && CanRun(ms, t, later);
        events := [Check(id)] + later;
        assert events[1..] == later;
      }
    }
  }

  /** So a process that comes when the lock is free can do what a sequential run does, and nothing else. */
  lemma LoneProcess(ms: seq<File>, s: System, id: nat, upto: nat) returns (events: seq<Event>)
    requires s.holder == None && id !in s.processes && upto <= |ms| && forall k :: 0 <= k < |ms| ==> ms[k].up
    ensures CanRun(ms, s, events)
    ensures Run(ms, s, events) ==
              System(ApplyChecked(Postgres, s.db, ms[..upto]), None, s.processes[id := Succeeded(upto)])
  {
    var waiting := s.(processes := s.processes[id := Waiting(upto)]);
    var locked := System(s.db, Some(id), s.processes[id := Checking(upto, 0)]);
    var rest := WorksOff(ms, locked, id, s.db);
    assert waiting.processes[id := Checking(upto, 0)] == locked.processes;
    var later := [Lock(id)] + rest;
    assert later[1..] == rest && CanRun(ms, waiting, later);
    events := [Start(id, upto)] + later;
    assert events[1..] == later;
  }
}
