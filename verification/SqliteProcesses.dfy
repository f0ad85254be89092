/**
 Concurrent processes migrating one SQLite file (internal/metadata/sqlite/sqlite.go). BEGIN IMMEDIATE takes the write
 lock before the ledger is read; everything else happens in that transaction. A transaction whose COMMIT or ROLLBACK
 failed stays open on its connection, with the lock, until the connection is closed.
 */
module SqliteProcesses {
  import opened Migrations
  import opened Wrappers

  /** `upto` as for Postgres; `read` is the part of the ledger that was read, `tx` what the transaction has written. */
  datatype Member =
    | Pending(upto: nat)
    | Migrating(upto: nat, next: nat, read: set<int>, tx: Db)
    | Migrated(upto: nat)
    | Abandoned // failed, with the transaction still open
    | Stopped

  datatype Shared = Shared(db: Db, holder: Option<nat>, members: map<nat, Member>)

  datatype Move =
    | Open(id: nat, upto: nat)
    | Begin(id: nat, read: set<int>)
    | Execute(id: nat)
    | Commit(id: nat)
    | Fail(id: nat, rolledBack: bool)
    | Disconnect(id: nat)

  predicate CanMove(ms: seq<File>, s: Shared, m: Move) {
    match m
    case Open(id, upto) => id !in s.members && upto <= |ms|
    case Begin(id, read) => id in s.members && s.members[id].Pending? && s.holder.None? && read <= Recorded(s.db)
    case Execute(id) =>
      id in s.members && s.members[id].Migrating? && s.members[id].next < s.members[id].upto <= |ms|
    case Commit(id) => id in s.members && s.members[id].Migrating? && s.members[id].next == s.members[id].upto
    case Fail(id, _) => id in s.members && (s.members[id].Pending? || s.members[id].Migrating?)
    case Disconnect(id) => id in s.members && s.members[id].Abandoned?
  }

  function Released(s: Shared, id: nat): Option<nat> {
    if s.holder == Some(id) then None else s.holder
  }

  function Moved(ms: seq<File>, s: Shared, m: Move): Shared
    requires CanMove(ms, s, m)
  {
    match m
    case Open(id, upto) => s.(members := s.members[id := Pending(upto)])
    case Begin(id, read) =>
      s.(holder := Some(id), members := s.members[id := Migrating(s.members[id].upto, 0, read, s.db)])
    case Execute(id) =>
      var p := s.members[id];
      var f := ms[p.next];
      var tx := if f.version in p.read then p.tx else ApplyOne(Sqlite, p.tx, f);
      s.(members := s.members[id := Migrating(p.upto, p.next + 1, p.read, tx)])
    case Commit(id) =>
      var p := s.members[id];
      s.(db := p.tx, holder := Released(s, id), members := s.members[id := Migrated(p.upto)])
    case Fail(id, rolledBack) =>
      if rolledBack || s.members[id].Pending? then
        s.(holder := Released(s, id), members := s.members[id := Stopped])
      else s.(members := s.members[id := Abandoned])
    case Disconnect(id) => s.(holder := Released(s, id), members := s.members[id := Stopped])
  }

  ghost predicate CanRunAll(ms: seq<File>, s: Shared, moves: seq<Move>)
    decreases |moves|
  {
    moves == [] || (CanMove(ms, s, moves[0]) && CanRunAll(ms, Moved(ms, s, moves[0]), moves[1..]))
  }

  ghost function RunAll(ms: seq<File>, s: Shared, moves: seq<Move>): Shared
    requires CanRunAll(ms, s, moves)
    decreases |moves|
  {
    if moves == [] then s else RunAll(ms, Moved(ms, s, moves[0]), moves[1..])
  }

  /** What a process commits includes again a recorded migration that it knows and that has something to execute. */
  ghost predicate CommitsAgain(ms: seq<File>, s: Shared, m: Move)
    requires CanMove(ms, s, m)
  {
    m.Commit? && var p := s.members[m.id];
                 p.upto <= |ms| && !NothingMissed(Sqlite, s.db, ms[..p.upto], p.read)
  }

  ghost predicate NoneAgain(ms: seq<File>, s: Shared, moves: seq<Move>)
    requires CanRunAll(ms, s, moves)
    decreases |moves|
  {
    if moves == [] then true
    else !CommitsAgain(ms, s, moves[0]) && NoneAgain(ms, Moved(ms, s, moves[0]), moves[1..])
  }

  // ---------- What every run keeps ----------

  function Max(a: nat, b: nat): nat {
    if a >= b then a else b
  }

  /** The first `n` migrations are recorded; `clean` tells whether also nothing was executed again. */
  ghost predicate Holds(ms: seq<File>, db: Db, n: nat, clean: bool) {
    && n <= |ms| && db.ledger == FirstApplied(Sqlite, ms, n).ledger
    && (if clean then db == FirstApplied(Sqlite, ms, n) else |db.schema| > |FirstApplied(Sqlite, ms, n).schema|)
  }

  ghost predicate MemberOk(ms: seq<File>, s: Shared, id: nat, p: Member, n: nat) {
    match p
    case Pending(upto) => upto <= |ms|
    case Migrating(upto, next, read, tx) =>
      && s.holder == Some(id) && next <= upto <= |ms| && read <= Recorded(s.db)
      && tx == ApplyPending(Sqlite, s.db, ms[..next], read)
    case Migrated(upto) => upto <= n
    case Abandoned => s.holder == Some(id)
    case Stopped => true
  }

  ghost predicate Inv(ms: seq<File>, s: Shared, n: nat, clean: bool) {
    && Holds(ms, s.db, n, clean)
    && forall id :: id in s.members ==> MemberOk(ms, s, id, s.members[id], n)
  }

  /** How many migrations are recorded after a move, when `n` are before. */
  function AppliedAfter(s: Shared, m: Move, n: nat): nat {
    if m.Commit? && m.id in s.members && s.members[m.id].Migrating? then Max(n, s.members[m.id].upto) else n
  }

  /** A run that reads the whole ledger extends the segment to the files it knows. */
  lemma WholeRun(ms: seq<File>, db: Db, n: nat, clean: bool, upto: nat)
    requires forall k :: 0 <= k < |ms| ==> ms[k].up
    requires DistinctVersions(ms) && Holds(ms, db, n, clean) && upto <= |ms|
    ensures Holds(ms, ApplyPending(Sqlite, db, ms[..upto], Recorded(db)), Max(n, upto), clean)
  {
    hide FirstApplied, ApplyPending, Effects, ApplyChecked;
    var first := FirstApplied(Sqlite, ms, n);
    SegmentIsSequential(Sqlite, ms, n, upto);
    CheckingOftenAgrees(Sqlite, first, ms[..upto]);
    PendingAppliedInOrder(Sqlite, first, ms[..upto]);
    PendingAppliedInOrder(Sqlite, db, ms[..upto]);
  }

  /** Committing what was executed after a partial read. */
  lemma PartialRun(ms: seq<File>, db: Db, n: nat, clean: bool, upto: nat, read: set<int>)
    requires forall k :: 0 <= k < |ms| ==> ms[k].up
    requires DistinctVersions(ms) && Holds(ms, db, n, clean) && upto <= |ms| && read <= Recorded(db)
    ensures Holds(ms, ApplyPending(Sqlite, db, ms[..upto], read), Max(n, upto),
                  clean && NothingMissed(Sqlite, db, ms[..upto], read))
  {
    hide FirstApplied, ApplyPending, NothingMissed;
    WholeRun(ms, db, n, clean, upto);
    PartialReadAgreesIff(Sqlite, db, ms[..upto], read);
  }

  /** Executing one more file in the transaction. */
  lemma ExecuteOne(ms: seq<File>, db: Db, next: nat, read: set<int>)
    requires next < |ms| && ms[next].up
    ensures var tx := ApplyPending(Sqlite, db, ms[..next], read);
            ApplyPending(Sqlite, db, ms[..next + 1], read) ==
              if ms[next].version in read then tx else ApplyOne(Sqlite, tx, ms[next])
  {
    hide ApplyOne;
    assert ms[..next + 1][..next] == ms[..next];
  }

  lemma MoveKeeps(ms: seq<File>, s: Shared, m: Move, n: nat, clean: bool)
    requires forall k :: 0 <= k < |ms| ==> ms[k].up
    requires DistinctVersions(ms) && Inv(ms, s, n, clean) && CanMove(ms, s, m)
    ensures Inv(ms, Moved(ms, s, m), AppliedAfter(s, m, n), clean && !CommitsAgain(ms, s, m))
  {
    hide Holds, ApplyOne, DistinctVersions, NothingMissed, ApplyPending;
    match m
    case Begin(id, read) => NothingYet(s.db, ms, read);
    case Execute(id) =>
      var p := s.members[id];
      ExecuteOne(ms, s.db, p.next, p.read);
    case Commit(id) =>
      var p := s.members[id];
      PartialRun(ms, s.db, n, clean, p.upto, p.read);
    case _ =>
  }

  lemma NothingYet(db: Db, ms: seq<File>, read: set<int>)
    ensures ApplyPending(Sqlite, db, ms[..0], read) == db
  {
  }

  /** How many migrations are recorded at the end of a run. */
  ghost function Reached(ms: seq<File>, s: Shared, moves: seq<Move>, n: nat): nat
    requires CanRunAll(ms, s, moves)
    decreases |moves|
  {
    if moves == [] then n else Reached(ms, Moved(ms, s, moves[0]), moves[1..], AppliedAfter(s, moves[0], n))
  }

  lemma {:induction false} RunKeeps(ms: seq<File>, s: Shared, moves: seq<Move>, n: nat, clean: bool)
    requires forall k :: 0 <= k < |ms| ==> ms[k].up
    requires DistinctVersions(ms) && Inv(ms, s, n, clean) && CanRunAll(ms, s, moves)
    ensures Inv(ms, RunAll(ms, s, moves), Reached(ms, s, moves, n), clean && NoneAgain(ms, s, moves))
    ensures n <= Reached(ms, s, moves, n)
    decreases |moves|
  {
    hide DistinctVersions, Inv, CanMove, Moved, CommitsAgain;
    if moves != [] {
      MoveKeeps(ms, s, moves[0], n, clean);
      RunKeeps(ms, Moved(ms, s, moves[0]), moves[1..], AppliedAfter(s, moves[0], n),
               clean && !CommitsAgain(ms, s, moves[0]));
    }
  }

  /**
   However processes, also of older releases, interleave, fail and misread the ledger: an initial segment of the
   migrations is recorded, each once and in order, it only grows, and who succeeds finds all it knows recorded. Each of
   them was executed once, and in order, exactly when nobody committed with a recorded migration executed again.
   */
  lemma ProcessesApplyASegment(ms: seq<File>, start: nat, moves: seq<Move>)
    requires forall k :: 0 <= k < |ms| ==> ms[k].up
    requires DistinctVersions(ms) && start <= |ms|
    requires CanRunAll(ms, Shared(FirstApplied(Sqlite, ms, start), None, map[]), moves)
    ensures var s := Shared(FirstApplied(Sqlite, ms, start), None, map[]);
            var t, n := RunAll(ms, s, moves), Reached(ms, s, moves, start);
            && start <= n <= |ms| && t.db.ledger == Versions(ms[..n])
            && (t.db == FirstApplied(Sqlite, ms, n) <==> NoneAgain(ms, s, moves))
            && forall id :: id in t.members && t.members[id].Migrated? ==> t.members[id].upto <= n
  {
    hide DistinctVersions, NoneAgain;
    RunKeeps(ms, Shared(FirstApplied(Sqlite, ms, start), None, map[]), moves, start, true);
  }

  /**
   A process may fail at any time before it has succeeded, without effect on the file; rolling back, or disconnecting
   later, frees its lock.
   */
  lemma MayFail(ms: seq<File>, s: Shared, id: nat, rolledBack: bool)
    requires id in s.members && s.members[id].Migrating? && s.holder == Some(id)
    ensures CanMove(ms, s, Move.Fail(id, rolledBack))
    ensures var t := Moved(ms, s, Move.Fail(id, rolledBack));
            && t.db == s.db && (t.holder == None <==> rolledBack)
            && (!rolledBack ==> CanMove(ms, t, Disconnect(id)) &&
                                Moved(ms, t, Disconnect(id)) == Shared(s.db, None, s.members[id := Stopped]))
            && (rolledBack ==> t == Shared(s.db, None, s.members[id := Stopped]))
  {
  }

  lemma {:induction false} WorksOff(ms: seq<File>, s: Shared, id: nat) returns (moves: seq<Move>)
    requires s.holder == Some(id) && id in s.members && s.members[id].Migrating?
    requires var p := s.members[id];
             && p.next <= p.upto <= |ms| && p.tx == ApplyPending(Sqlite, s.db, ms[..p.next], p.read)
             && forall k :: 0 <= k < p.upto ==> ms[k].up
    ensures var p := s.members[id];
            && CanRunAll(ms, s, moves)
            && RunAll(ms, s, moves) == Shared(ApplyPending(Sqlite, s.db, ms[..p.upto], p.read), None,
                                              s.members[id := Migrated(p.upto)])
    decreases s.members[id].upto - s.members[id].next
  {
    hide ApplyOne;
    var p := s.members[id];
    if p.next == p.upto {
      moves := [Move.Commit(id)];
      assert RunAll(ms, Moved(ms, s, Move.Commit(id)), moves[1..]) == Moved(ms, s, Move.Commit(id));
    } else {
      assert ms[..p.next + 1][..p.next] == ms[..p.next];
      var rest := WorksOff(ms, Moved(ms, s, Execute(id)), id);
      moves := [Execute(id)] + rest;
    }
  }

  /** A process that comes when the lock is free can do what a sequential run does, and nothing else. */
  lemma LoneProcess(ms: seq<File>, s: Shared, id: nat, upto: nat, read: set<int>) returns (moves: seq<Move>)
    requires s.holder == None && id !in s.members && upto <= |ms| && forall k :: 0 <= k < |ms| ==> ms[k].up
    requires read <= Recorded(s.db)
    ensures CanRunAll(ms, s, moves)
    ensures RunAll(ms, s, moves) ==
              Shared(ApplyPending(Sqlite, s.db, ms[..upto], read), None, s.members[id := Migrated(upto)])
  {
    var waiting := s.(members := s.members[id := Pending(upto)]);
    var begun := Shared(s.db, Some(id), s.members[id := Migrating(upto, 0, read, s.db)]);
    var rest := WorksOff(ms, begun, id);
    assert waiting.members[id := Migrating(upto, 0, read, s.db)] == begun.members;
    var later := [Begin(id, read)] + rest;
    assert later[1..] == rest && CanRunAll(ms, waiting, later);
    moves := [Open(id, upto)] + later;
    assert moves[1..] == later;
  }
}
