/**
 Inserting a batch of spans into the Lake (internal/lake/lake.go): an all-or-nothing transaction, retried up to
 three times on transaction conflicts, the whole retried once after a reconnect when the connection went stale.
 What the clock, the database and the context answer are parameters, so every claim holds for all answers.
 */
module LakeInsert {
  import opened Wrappers
  import opened TextLines

  // ---------- Errors ----------

  datatype Err = Nil | Err(msg: string)

  const STALE_MARKS: seq<string> := ["Invalid connection id", "Could not connect to server", "Authentication failed",
                                     "context canceled", "ATTACH", "INTERRUPT"]

  predicate IsStaleConn(e: Err) {
    e.Err? && exists k :: 0 <= k < |STALE_MARKS| && Contains(e.msg, STALE_MARKS[k])
  }

  predicate IsTxConflict(e: Err) {
    e.Err? && Contains(e.msg, "Transaction conflict")
  }

  /** The texts that mark a stale connection and a conflict. */
  lemma ClassifiedBy(msg: string)
    ensures IsStaleConn(Err(msg)) <==>
              || Contains(msg, "Invalid connection id") || Contains(msg, "Could not connect to server")
              || Contains(msg, "Authentication failed") || Contains(msg, "context canceled")
              || Contains(msg, "ATTACH") || Contains(msg, "INTERRUPT")
    ensures IsTxConflict(Err(msg)) <==> Contains(msg, "Transaction conflict")
    ensures !IsStaleConn(Nil) && !IsTxConflict(Nil)
  {
    hide Contains;
    assert forall k :: 0 <= k < 6 ==> STALE_MARKS[k] in STALE_MARKS;
    assert STALE_MARKS[0] == "Invalid connection id" && STALE_MARKS[1] == "Could not connect to server";
    assert STALE_MARKS[2] == "Authentication failed" && STALE_MARKS[3] == "context canceled";
    assert STALE_MARKS[4] == "ATTACH" && STALE_MARKS[5] == "INTERRUPT" && |STALE_MARKS| == 6;
  }

  function Wrap(before: string, e: Err, after: string): Err
    requires e.Err?
  {
    Err(before + e.msg + after)
  }

  lemma ContainsWrap(before: string, s: string, after: string, sub: string)
    requires Contains(s, sub)
    ensures Contains(before + s + after, sub)
  {
    var i :| 0 <= i <= |s| && OccursAt(s, sub, i);
    assert (before + s + after)[|before| + i..|before| + i + |sub|] == s[i..i + |sub|];
    assert OccursAt(before + s + after, sub, |before| + i);
  }

  /** Wrapping an error never hides what it is classified as. */
  lemma WrapKeepsClass(before: string, e: Err, after: string)
    requires e.Err?
    ensures IsStaleConn(e) ==> IsStaleConn(Wrap(before, e, after))
    ensures IsTxConflict(e) ==> IsTxConflict(Wrap(before, e, after))
  {
    forall k | 0 <= k < |STALE_MARKS| && Contains(e.msg, STALE_MARKS[k])
      ensures Contains(before + e.msg + after, STALE_MARKS[k])
    {
      ContainsWrap(before, e.msg, after, STALE_MARKS[k]);
    }
    if IsTxConflict(e) {
      ContainsWrap(before, e.msg, after, "Transaction conflict");
    }
  }

  // ---------- Spans and rows ----------

  /** A span; the fields that are written as they are stand together in `other`. */
  datatype Span = Span(spanId: string, start: Option<int>, end: Option<int>, input: string, output: string,
                       other: string)

  datatype Row = Row(spanId: string, start: int, end: int, input: Option<string>, output: Option<string>, other: string)

  function OrNow(t: Option<int>, now: int): int {
    if t.Some? then t.value else now
  }

  function OrNull(s: string): Option<string> {
    if s == "" then None else Some(s)
  }

  function Encode(span: Span, now: int): Row {
    Row(span.spanId, OrNow(span.start, now), OrNow(span.end, now), OrNull(span.input), OrNull(span.output), span.other)
  }

  function EncodeAll(spans: seq<Span>, now: int): (rows: seq<Row>)
    ensures |rows| == |spans|
    ensures forall k :: 0 <= k < |spans| ==> rows[k] == Encode(spans[k], now)
  {
    seq(|spans|, k requires 0 <= k < |spans| => Encode(spans[k], now))
  }

  // ---------- Transactions ----------

  /** How one transaction goes. A failing commit may or may not have taken effect. */
  datatype Fault =
    | NoFault
    | BeginFails(msg: string)
    | PrepareFails(msg: string)
    | RowFails(k: nat, msg: string)
    | CommitFails(msg: string, applied: bool)

  function FaultErr(spans: seq<Span>, fault: Fault): Err {
    match fault
    case NoFault => Nil
    case BeginFails(msg) => Err("lake: begin tx: " + msg)
    case PrepareFails(msg) => Err("lake: prepare: " + msg)
    case RowFails(k, msg) => if k < |spans| then Err("lake: insert span " + spans[k].spanId + ": " + msg) else Nil
    case CommitFails(msg, _) => Err("lake: commit: " + msg)
  }

  /** What matters of one transaction: its error, whether it took effect, and the rows it carries. */
  datatype Trial = Trial(err: Err, applied: bool, batch: seq<Row>)

  function TrialOf(spans: seq<Span>, now: int, fault: Fault): Trial {
    var err := FaultErr(spans, fault);
    Trial(err, err == Nil || (fault.CommitFails? && fault.applied), EncodeAll(spans, now))
  }

  /** The rows that a series of transactions adds. */
  function Added(trials: seq<Trial>): seq<Row> {
    if trials == [] then []
    else Added(trials[..|trials| - 1]) + (if trials[|trials| - 1].applied then trials[|trials| - 1].batch else [])
  }

  /** How many of these transactions take effect. */
  function Copies(trials: seq<Trial>): nat {
    if trials == [] then 0
    else Copies(trials[..|trials| - 1]) + (if trials[|trials| - 1].applied then 1 else 0)
  }

  /** What a batch of rows holds, column by column. */
  lemma RowsHoldSpans(spans: seq<Span>, now: int, k: nat)
    requires k < |spans|
    ensures |EncodeAll(spans, now)| == |spans|
    ensures var span, row := spans[k], EncodeAll(spans, now)[k];
            && row.spanId == span.spanId && row.other == span.other
            && (span.start == None ==> row.start == now) && (span.start.Some? ==> row.start == span.start.value)
            && (span.end == None ==> row.end == now) && (span.end.Some? ==> row.end == span.end.value)
            && (span.input == "" ==> row.input == None) && (span.input != "" ==> row.input == Some(span.input))
            && (span.output == "" ==> row.output == None) && (span.output != "" ==> row.output == Some(span.output))
  {
  }

  /** The span that a row was written from, with its times filled in. */
  function ReadBack(row: Row): Span {
    Span(row.spanId, Some(row.start), Some(row.end), if row.input == None then "" else row.input.value,
         if row.output == None then "" else row.output.value, row.other)
  }

  /** Reading the rows back gives the spans, but for missing times, which have become the current one. */
  lemma RowsReadBack(spans: seq<Span>, now: int, k: nat)
    requires k < |spans|
    ensures var span, back := spans[k], ReadBack(EncodeAll(spans, now)[k]);
            back == span.(start := if span.start == None then Some(now) else span.start,
                          end := if span.end == None then Some(now) else span.end)
  {
  }

  /**
   A transaction fails exactly when one of its statements does. It takes effect when it does not fail, or when the
   commit did and only its answer was an error; then with all rows.
   */
  lemma TransactionFails(spans: seq<Span>, now: int, fault: Fault)
    ensures var trial := TrialOf(spans, now, fault);
            && (trial.err == Nil <==> fault == NoFault || (fault.RowFails? && |spans| <= fault.k))
            && (trial.applied <==> trial.err == Nil || (fault.CommitFails? && fault.applied))
            && |trial.batch| == |spans|
  {
  }

  /** Its error is classified as the database's message is. */
  lemma FaultKeepsClass(spans: seq<Span>, fault: Fault)
    requires fault != NoFault && (fault.RowFails? ==> fault.k < |spans|)
    ensures IsStaleConn(Err(fault.msg)) ==> IsStaleConn(FaultErr(spans, fault))
    ensures IsTxConflict(Err(fault.msg)) ==> IsTxConflict(FaultErr(spans, fault))
  {
    hide Contains;
    var before :=
      match fault
      case BeginFails(_) => "lake: begin tx: "
      case PrepareFails(_) => "lake: prepare: "
      case RowFails(k, _) => "lake: insert span " + spans[k].spanId + ": "
      case CommitFails(_, _) => "lake: commit: "
      case NoFault => "";
    WrapKeepsClass(before, Err(fault.msg), "");
    assert FaultErr(spans, fault) == Wrap(before, Err(fault.msg), "");
  }

  // ---------- The nested retries ----------

  function GaveUp(last: Err): Err
    requires last.Err?
  {
    Wrap("lake: insertSpans after 4 attempts (last: ", last, ")")
  }

  /** A pass through the inner loop: up to four transactions, each but the last ending in a conflict. */
  ghost predicate InnerRun(trials: seq<Trial>, err: Err) {
    && 1 <= |trials| <= 4
    && (forall k :: 0 <= k < |trials| - 1 ==> IsTxConflict(trials[k].err))
    && var last := trials[|trials| - 1].err;
       if !IsTxConflict(last) then err == last
       else if |trials| == 4 then err == GaveUp(last)
       else err != Nil // the context ended while waiting for the next attempt
  }

  /** What an attempt meets: the clock, how its transaction goes, and the context's error while waiting after it. */
  datatype Luck = Luck(now: int, fault: Fault, ended: Err)

  /** The pass goes on exactly after a conflict, up to three times, while the context has not ended. */
  ghost predicate FollowsLuck(spans: seq<Span>, luck: seq<Luck>, trials: seq<Trial>, err: Err) {
    && 1 <= |trials| <= 4 && |luck| == 4
    && (forall k :: 0 <= k < |trials| ==> trials[k] == TrialOf(spans, luck[k].now, luck[k].fault))
    && (forall k :: 0 <= k < |trials| - 1 ==> IsTxConflict(trials[k].err) && luck[k].ended == Nil)
    && var last := trials[|trials| - 1].err;
       if !IsTxConflict(last) then err == last
       else if |trials| == 4 then err == GaveUp(last)
       else err != Nil && err == luck[|trials| - 1].ended
  }

  /** A whole call: one pass, and after a stale connection one reconnect and, if it succeeds, a second pass. */
  ghost predicate InsertRun(first: seq<Trial>, firstErr: Err, second: seq<Trial>, err: Err, reconnects: int) {
    && InnerRun(first, firstErr)
    && if !IsStaleConn(firstErr) then second == [] && err == firstErr && reconnects == 0
       else reconnects == 1 && ((second == [] && err != Nil) || InnerRun(second, err))
  }

  // ---------- The client ----------

  class Lake {
    var rows: seq<Row>
    var reconnects: nat
    ghost var log: seq<Trial> // every transaction so far

    constructor ()
      ensures rows == [] && reconnects == 0 && log == []
    {
      rows, reconnects, log := [], 0, [];
    }

    /** One transaction: rows are staged one by one and become visible together at the commit. */
    method DoInsertSpans(spans: seq<Span>, now: int, fault: Fault) returns (err: Err)
      modifies this`rows, this`log
      ensures var trial := TrialOf(spans, now, fault);
              && err == trial.err
              && log == old(log) + [trial]
              && rows == old(rows) + (if trial.applied then trial.batch else [])
      ensures err == Nil <==> fault == NoFault || (fault.RowFails? && |spans| <= fault.k)
      ensures |rows| == |old(rows)| + if err == Nil || (fault.CommitFails? && fault.applied) then |spans| else 0
      ensures forall k :: 0 <= k < |rows| - |old(rows)| ==>
                var span, row := spans[k], rows[|old(rows)| + k];
                && row.spanId == span.spanId && row.other == span.other
                && row.start == (if span.start == None then now else span.start.value)
                && row.end == (if span.end == None then now else span.end.value)
                && row.input == (if span.input == "" then None else Some(span.input))
                && row.output == (if span.output == "" then None else Some(span.output))
    {
      log := log + [TrialOf(spans, now, fault)];
      if fault.BeginFails? {
        return Err("lake: begin tx: " + fault.msg);
      }
      if fault.PrepareFails? {
        return Err("lake: prepare: " + fault.msg);
      }
      var tx: seq<Row> := [];
      for i := 0 to |spans|
        invariant |tx| == i && forall k :: 0 <= k < i ==> tx[k] == Encode(spans[k], now)
        invariant fault.RowFails? ==> i <= fault.k
      {
        var span := spans[i];
        var startTime := if span.start.None? then now else span.start.value;
        var endTime := if span.end.None? then now else span.end.value;
        var inputVal, outputVal := None, None;
        if span.input != "" {
          inputVal := Some(span.input);
        }
        if span.output != "" {
          outputVal := Some(span.output);
        }
        if fault.RowFails? && fault.k == i {
          return Err("lake: insert span " + span.spanId + ": " + fault.msg);
        }
        tx := tx + [Row(span.spanId, startTime, endTime, inputVal, outputVal, span.other)];
      }
      assert tx == EncodeAll(spans, now);
      if fault.CommitFails? {
        if fault.applied {
          rows := rows + tx;
        }
        return Err("lake: commit: " + fault.msg);
      }
      rows := rows + tx;
      return Nil;
    }

    /** At most four attempts under the shared lock. */
    method InsertSpansLocked(spans: seq<Span>, luck: seq<Luck>) returns (err: Err, ghost trials: seq<Trial>)
      requires |luck| == 4
      modifies this`rows, this`log
      ensures FollowsLuck(spans, luck, trials, err)
      ensures InnerRun(trials, err) && TrialsOf(spans, trials)
      ensures log == old(log) + trials && rows == old(rows) + Added(trials)
    {
      hide *;
      var lastErr := Nil;
      trials := [];
      NoTrialsYet(spans, luck);
      for attempt := 0 to 4
        invariant |trials| == attempt && (attempt < 4 ==> OnlyConflicts(spans, luck, trials))
        invariant log == old(log) + trials && rows == old(rows) + Added(trials)
        invariant attempt == 4 ==> lastErr.Err? && FollowsLuck(spans, luck, trials, GaveUp(lastErr))
      {
        var now, fault := luck[attempt].now, luck[attempt].fault;
        OneMoreTrial(spans, luck, trials);
        err := DoInsertSpans(spans, now, fault);
        trials := trials + [TrialOf(spans, now, fault)];
        FollowedIsRun(spans, luck, trials);
        if err == Nil {
          return;
        }
        if !IsTxConflict(err) {
          return;
        }
        lastErr := err;
        if attempt < 3 {
          var ctxErr := luck[attempt].ended;
          if ctxErr != Nil {
            err := ctxErr;
            return;
          }
        }
      }
      FollowedIsRun(spans, luck, trials);
      GaveUpText(lastErr);
      err := Err("lake: insertSpans after 4 attempts (last: " + lastErr.msg + ")");
    }

    /** `again` is what the second pass meets, `rerr` the reconnect's error. */
    method InsertSpans(spans: seq<Span>, luck: seq<Luck>, rerr: Err, again: seq<Luck>)
      returns (err: Err, ghost first: seq<Trial>, ghost firstErr: Err, ghost second: seq<Trial>)
      requires |luck| == 4 && |again| == 4
      modifies this
      ensures spans == [] ==> err == Nil && first == [] && second == [] && unchanged(this)
      ensures spans != [] ==> InsertRun(first, firstErr, second, err, reconnects - old(reconnects))
      ensures spans != [] ==> FollowsLuck(spans, luck, first, firstErr)
      ensures spans != [] && IsStaleConn(firstErr) && rerr == Nil ==> FollowsLuck(spans, again, second, err)
      ensures spans != [] && IsStaleConn(firstErr) && rerr.Err? ==>
                second == [] && err == Err("lake: reconnect: " + rerr.msg)
      ensures TrialsOf(spans, first) && TrialsOf(spans, second)
      ensures log == old(log) + first + second && rows == old(rows) + Added(first) + Added(second)
    {
      first, firstErr, second := [], Nil, [];
      if |spans| == 0 {
        return Nil, [], Nil, [];
      }
      err, first := InsertSpansLocked(spans, luck);
      firstErr := err;
      if IsStaleConn(err) {
        reconnects := reconnects + 1;
        if rerr != Nil {
          err := Err("lake: reconnect: " + rerr.msg);
          return;
        }
        err, second := InsertSpansLocked(spans, again);
      }
    }
  }

  /** A pass succeeds at its first attempt without fault if those before it, at most three, end in conflicts. */
  lemma SucceedsAfterConflicts(spans: seq<Span>, luck: seq<Luck>, trials: seq<Trial>, err: Err, n: nat)
    requires FollowsLuck(spans, luck, trials, err) && n < 4 && luck[n].fault == NoFault
    requires forall k :: 0 <= k < n ==> luck[k].ended == Nil && IsTxConflict(FaultErr(spans, luck[k].fault))
    ensures err == Nil && |trials| == n + 1 && trials[n].applied
  {
    hide Contains;
    assert TrialOf(spans, luck[n].now, luck[n].fault).err == Nil;
  }

  /** Each of these transactions is one on the given spans. */
  ghost predicate TrialsOf(spans: seq<Span>, trials: seq<Trial>) {
    forall k :: 0 <= k < |trials| ==> IsTrialOf(spans, trials[k])
  }

  ghost predicate IsTrialOf(spans: seq<Span>, t: Trial) {
    exists now, fault :: t == TrialOf(spans, now, fault)
  }

  /** The attempts so far ended in conflicts, and the context let each be followed by another. */
  ghost predicate OnlyConflicts(spans: seq<Span>, luck: seq<Luck>, trials: seq<Trial>) {
    && |trials| < |luck| == 4
    && forall k :: 0 <= k < |trials| ==>
         && trials[k] == TrialOf(spans, luck[k].now, luck[k].fault)
         && IsTxConflict(trials[k].err) && luck[k].ended == Nil
  }

  lemma NoTrialsYet(spans: seq<Span>, luck: seq<Luck>)
    requires |luck| == 4
    ensures OnlyConflicts(spans, luck, []) && Added([]) == []
  {
  }

  lemma GaveUpText(last: Err)
    requires last.Err?
    ensures GaveUp(last) == Err("lake: insertSpans after 4 attempts (last: " + last.msg + ")")
  {
  }

  /** The next attempt is the last unless it ends in a conflict, was not the fourth and the context lets it go on. */
  lemma LastTrial(spans: seq<Span>, luck: seq<Luck>, trials: seq<Trial>, t: Trial, err: Err)
    requires OnlyConflicts(spans, luck, trials)
    requires t == TrialOf(spans, luck[|trials|].now, luck[|trials|].fault)
    requires if !IsTxConflict(t.err) then err == t.err
             else if |trials| == 3 then t.err != Nil && err == GaveUp(t.err)
             else err != Nil && err == luck[|trials|].ended
    ensures FollowsLuck(spans, luck, trials + [t], err)
  {
    hide IsTxConflict, TrialOf, GaveUp;
    var all := trials + [t];
    assert all[..|trials|] == trials && all[|trials|] == t;
  }

  lemma NotTheLast(spans: seq<Span>, luck: seq<Luck>, trials: seq<Trial>, t: Trial)
    requires OnlyConflicts(spans, luck, trials) && |trials| < 3
    requires t == TrialOf(spans, luck[|trials|].now, luck[|trials|].fault)
    requires IsTxConflict(t.err) && luck[|trials|].ended == Nil
    ensures OnlyConflicts(spans, luck, trials + [t])
  {
    hide IsTxConflict, TrialOf;
  }

  lemma SomeAreLeft(spans: seq<Span>, luck: seq<Luck>, trials: seq<Trial>)
    requires OnlyConflicts(spans, luck, trials)
    ensures |trials| < |luck| == 4
  {
  }

  lemma OneMoreTrial(spans: seq<Span>, luck: seq<Luck>, trials: seq<Trial>)
    requires OnlyConflicts(spans, luck, trials)
    ensures var n := |trials|;
            var t := TrialOf(spans, luck[n].now, luck[n].fault);
            var all := trials + [t];
            && Added(all) == Added(trials) + (if t.applied then t.batch else [])
            && (t.err == Nil || !IsTxConflict(t.err) ==> FollowsLuck(spans, luck, all, t.err))
            && (IsTxConflict(t.err) && n == 3 ==> t.err.Err? && FollowsLuck(spans, luck, all, GaveUp(t.err)))
            && (IsTxConflict(t.err) && n < 3 && luck[n].ended != Nil ==> FollowsLuck(spans, luck, all, luck[n].ended))
            && (IsTxConflict(t.err) && n < 3 && luck[n].ended == Nil ==> OnlyConflicts(spans, luck, all))
  {
    hide IsTxConflict, TrialOf, Added, GaveUp, FollowsLuck, OnlyConflicts;
    SomeAreLeft(spans, luck, trials);
    var n := |trials|;
    var t := TrialOf(spans, luck[n].now, luck[n].fault);
    AddedPush(trials, t);
    ConflictIsError(t.err);
    if !IsTxConflict(t.err) {
      LastTrial(spans, luck, trials, t, t.err);
    } else if n == 3 {
      LastTrial(spans, luck, trials, t, GaveUp(t.err));
    } else if luck[n].ended != Nil {
      LastTrial(spans, luck, trials, t, luck[n].ended);
    } else {
      NotTheLast(spans, luck, trials, t);
    }
  }

  lemma ConflictIsError(e: Err)
    ensures IsTxConflict(e) ==> e != Nil
  {
  }

  lemma FollowedIsRun(spans: seq<Span>, luck: seq<Luck>, trials: seq<Trial>)
    ensures forall err :: FollowsLuck(spans, luck, trials, err) ==> InnerRun(trials, err) && TrialsOf(spans, trials)
  {
    hide Contains, TrialOf, GaveUp;
    assert forall k :: 0 <= k < |trials| && k < |luck| && trials[k] == TrialOf(spans, luck[k].now, luck[k].fault) ==>
        IsTrialOf(spans, trials[k]);
  }

  lemma AddedPush(trials: seq<Trial>, t: Trial)
    ensures Added(trials + [t]) == Added(trials) + (if t.applied then t.batch else [])
    ensures Copies(trials + [t]) == Copies(trials) + (if t.applied then 1 else 0)
  {
    assert (trials + [t])[..|trials|] == trials;
  }

  // ---------- How many copies a call leaves ----------

  /** A transaction that reports success has taken effect, and it carries the whole batch. */
  lemma SuccessApplies(spans: seq<Span>, trials: seq<Trial>, k: nat)
    requires TrialsOf(spans, trials) && k < |trials|
    ensures trials[k].err == Nil ==> trials[k].applied
    ensures exists now :: trials[k].batch == EncodeAll(spans, now)
  {
    var now, fault :| trials[k] == TrialOf(spans, now, fault);
    assert trials[k].batch == EncodeAll(spans, now);
  }

  /** None of these transactions fails after taking effect. */
  ghost predicate FailuresAreClean(trials: seq<Trial>) {
    forall k :: 0 <= k < |trials| && trials[k].applied ==> trials[k].err == Nil
  }

  /** A transaction that fails after taking effect reports a stale connection and no conflict. */
  ghost predicate OnlyStaleCommitsAreUnclear(trials: seq<Trial>) {
    forall k :: 0 <= k < |trials| && trials[k].applied && trials[k].err != Nil ==>
      IsStaleConn(trials[k].err) && !IsTxConflict(trials[k].err)
  }

  lemma {:induction false} NothingApplied(trials: seq<Trial>)
    requires forall k :: 0 <= k < |trials| ==> !trials[k].applied
    ensures Added(trials) == [] && Copies(trials) == 0
  {
    if trials != [] {
      NothingApplied(trials[..|trials| - 1]);
    }
  }

  /** In one pass only the last transaction can take effect, and it has when the pass reports success. */
  lemma InnerCopies(spans: seq<Span>, trials: seq<Trial>, err: Err)
    requires InnerRun(trials, err) && TrialsOf(spans, trials) && OnlyStaleCommitsAreUnclear(trials)
    ensures var last := trials[|trials| - 1];
            && Added(trials) == (if last.applied then last.batch else [])
            && Copies(trials) == (if last.applied then 1 else 0)
            && (err == Nil ==> last.applied)
            && (last.applied ==> err == last.err)
  {
    NothingApplied(trials[..|trials| - 1]);
    SuccessApplies(spans, trials, |trials| - 1);
  }

  /** If failing attempts leave no rows, success means the batch is there exactly once and an error that it is not. */
  lemma ExactlyOnceOrNotAtAll(spans: seq<Span>, first: seq<Trial>, firstErr: Err, second: seq<Trial>, err: Err,
                              reconnects: int)
    requires InsertRun(first, firstErr, second, err, reconnects) && TrialsOf(spans, first) && TrialsOf(spans, second)
    requires FailuresAreClean(first) && FailuresAreClean(second)
    ensures |first| + |second| <= 8 && reconnects <= 1
    ensures err != Nil ==> Added(first) + Added(second) == []
    ensures err == Nil ==> exists now :: Added(first) + Added(second) == EncodeAll(spans, now)
  {
    InnerCopies(spans, first, firstErr);
    var last := first;
    if second != [] {
      InnerCopies(spans, second, err);
      last := second;
    }
    SuccessApplies(spans, last, |last| - 1);
    assert [] + Added(second) == Added(second) && Added(first) + [] == Added(first);
  }

  /** If a commit may take effect and yet report a stale connection, at most two copies are left. */
  lemma AtMostTwoCopies(spans: seq<Span>, first: seq<Trial>, firstErr: Err, second: seq<Trial>, err: Err,
                        reconnects: int)
    requires InsertRun(first, firstErr, second, err, reconnects) && TrialsOf(spans, first) && TrialsOf(spans, second)
    requires OnlyStaleCommitsAreUnclear(first) && OnlyStaleCommitsAreUnclear(second)
    ensures Copies(first) + Copies(second) <= 2
    ensures err == Nil ==> Copies(first) + Copies(second) >= 1
    ensures Copies(first) + Copies(second) == 2 ==> reconnects == 1 && IsStaleConn(firstErr)
  {
    InnerCopies(spans, first, firstErr);
    if second != [] {
      InnerCopies(spans, second, err);
    }
  }

  const MAX_COPIES: nat := 8

  lemma {:induction false} CopiesBound(trials: seq<Trial>)
    ensures Copies(trials) <= |trials|
  {
    if trials != [] {
      CopiesBound(trials[..|trials| - 1]);
    }
  }

  /** Whatever the transactions answer, every attempt leaves at most one copy, and success means that there is one. */
  lemma AtMostOneCopyAnAttempt(spans: seq<Span>, first: seq<Trial>, firstErr: Err, second: seq<Trial>, err: Err,
                               reconnects: int)
    requires InsertRun(first, firstErr, second, err, reconnects) && TrialsOf(spans, first) && TrialsOf(spans, second)
    ensures Copies(first) + Copies(second) <= |first| + |second| <= MAX_COPIES
    ensures err == Nil ==> Copies(first) + Copies(second) >= 1
  {
    hide TrialsOf;
    CopiesBound(first);
    CopiesBound(second);
    PassIff(spans, first, firstErr);
    if second != [] {
      PassIff(spans, second, err);
    }
  }

  lemma {:induction false} NoCopiesIff(trials: seq<Trial>)
    ensures Copies(trials) == 0 <==> forall k :: 0 <= k < |trials| ==> !trials[k].applied
  {
    if trials != [] {
      NoCopiesIff(trials[..|trials| - 1]);
    }
  }

  /** One pass: the answer tells the number of copies exactly when no transaction failed after taking effect. */
  lemma PassIff(spans: seq<Span>, trials: seq<Trial>, err: Err)
    requires InnerRun(trials, err) && TrialsOf(spans, trials)
    ensures FailuresAreClean(trials) <==> Copies(trials) == if err == Nil then 1 else 0
    ensures err == Nil ==> Copies(trials) >= 1
  {
    hide Contains, TrialsOf;
    var n := |trials| - 1;
    NoCopiesIff(trials);
    NoCopiesIff(trials[..n]);
    SuccessApplies(spans, trials, n);
    assert forall k :: 0 <= k < n ==> trials[..n][k] == trials[k];
  }

  /** A call: the answer tells the number of copies exactly when no transaction failed after taking effect. */
  lemma AnswerIsTrueIff(spans: seq<Span>, first: seq<Trial>, firstErr: Err, second: seq<Trial>, err: Err,
                        reconnects: int)
    requires InsertRun(first, firstErr, second, err, reconnects) && TrialsOf(spans, first) && TrialsOf(spans, second)
    ensures Copies(first) + Copies(second) == (if err == Nil then 1 else 0) <==>
              FailuresAreClean(first) && FailuresAreClean(second)
  {
    hide TrialsOf;
    PassIff(spans, first, firstErr);
    if second != [] {
      PassIff(spans, second, err);
    }
  }

  lemma OneTrial(spans: seq<Span>, now: int, fault: Fault)
    ensures var t := TrialOf(spans, now, fault);
            TrialsOf(spans, [t]) && Copies([t]) == (if t.applied then 1 else 0)
  {
    var t := TrialOf(spans, now, fault);
    AddedPush([], t);
    assert [] + [t] == [t];
  }

  /** Two copies do occur: the first commit takes effect but reports an interrupt, the second succeeds. */
  lemma TwoCopiesReachable(spans: seq<Span>) returns (a: Trial, b: Trial)
    ensures InsertRun([a], a.err, [b], Nil, 1) && TrialsOf(spans, [a]) && TrialsOf(spans, [b])
    ensures OnlyStaleCommitsAreUnclear([a]) && OnlyStaleCommitsAreUnclear([b])
    ensures Copies([a]) + Copies([b]) == 2
  {
    a, b := TrialOf(spans, 0, CommitFails("INTERRUPT", true)), TrialOf(spans, 1, NoFault);
    OneTrial(spans, 0, CommitFails("INTERRUPT", true));
    OneTrial(spans, 1, NoFault);
    assert a.err.msg == "lake: commit: INTERRUPT";
    InterruptIsStale();
  }

  lemma InterruptIsStale()
    ensures IsStaleConn(Err("lake: commit: INTERRUPT")) && !IsTxConflict(Err("lake: commit: INTERRUPT"))
  {
    assert OccursAt("lake: commit: INTERRUPT", STALE_MARKS[5], 14);
    NoConflict();
  }

  lemma NoConflict()
    ensures !Contains("lake: commit: INTERRUPT", "Transaction conflict")
  {
    var s, sub := "lake: commit: INTERRUPT", "Transaction conflict";
    forall i | 0 <= i <= |s|
      ensures !OccursAt(s, sub, i)
    {
      if i + |sub| <= |s| {
        assert s[i..i + |sub|][0] == s[i];
      }
    }
  }
}
