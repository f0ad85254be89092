/**
 How the writers drain the lists while no fault occurs: whatever state earlier crashes and errors have left, each entry
 takes a bounded number of steps, however the writers interleave, and ends off both lists.
 */
module IngestDrains {
  import opened IngestQueue
  import opened IngestProtocol
  import opened IngestExactlyOnce
  import LakeInsert

  // ---------- How much work is left ----------

  const QUEUED := 10

  function TaskFuel(t: Task): nat {
    match t
    case Free => 0
    case Check(_) => 9
    case Fetch(_) => 8
    case Mark(_) => 4
    case Push(_) => 13
    case Remove(_) => 2
  }

  /** For an entry of the window. */
  function WindowFuel(p: Phase): nat {
    match p
    case Collecting => 7
    case Settling => 5
    case Returning => 14
  }

  function WriterFuel(w: Writer): nat {
    |w.rest| * WindowFuel(w.phase) + TaskFuel(w.task) + if w.phase == Collecting then 0 else 1
  }

  function WritersFuel(ws: seq<Writer>): nat {
    if ws == [] then 0 else WriterFuel(ws[0]) + WritersFuel(ws[1..])
  }

  function Fuel(s: World): nat {
    |s.queue| * QUEUED + WritersFuel(s.writers)
  }

  lemma {:induction false} FuelUpdate(ws: seq<Writer>, i: nat, w: Writer)
    requires i < |ws|
    ensures WritersFuel(ws[i := w]) == WritersFuel(ws) - WriterFuel(ws[i]) + WriterFuel(w)
  {
    if i == 0 {
      assert ws[i := w][1..] == ws[1..];
    } else {
      assert ws[i := w][1..] == ws[1..][i - 1 := w];
      FuelUpdate(ws[1..], i - 1, w);
    }
  }

  lemma {:induction false} FuelAppend(ws: seq<Writer>, w: Writer)
    ensures WritersFuel(ws + [w]) == WritersFuel(ws) + WriterFuel(w)
  {
    if ws == [] {
      assert ws + [w] == [w];
    } else {
      assert (ws + [w])[1..] == ws[1..] + [w];
      FuelAppend(ws[1..], w);
    }
  }

  /** Every step of a writer without fault uses some of it up. */
  lemma ActBurns(s: World, w: Writer, act: Act, i: nat)
    requires WriterSound(s, w) && CanAct(s, w, act) && FaultFree(Work(i, act))
    ensures WriterFuel(ActWriter(s, w, act)) + |ActWorld(s, w, act).queue| * QUEUED
            < WriterFuel(w) + |s.queue| * QUEUED
  {
  }

  /** How many events put an entry on the queue. */
  function Pushes(events: seq<Event>): nat {
    if events == [] then 0
    else
      Pushes(events[1..]) +
      if events[0].Offer? || events[0].EnqueueLegacy? || events[0].Foreign? || events[0].Recover? then 1 else 0
  }

  function Works(events: seq<Event>): nat {
    if events == [] then 0 else Works(events[1..]) + if events[0].Work? then 1 else 0
  }

  lemma StepBurns(s: World, ev: Event)
    requires Durable(s) && Can(s, ev) && FaultFree(ev)
    ensures Fuel(Step(s, ev)) + Works([ev]) <= Fuel(s) + QUEUED * Pushes([ev])
  {
    match ev
    case Work(i, act) =>
      var w := s.writers[i];
      ActBurns(s, w, act, i);
      FuelUpdate(s.writers, i, ActWriter(s, w, act));
    case Hire => FuelAppend(s.writers, IDLE);
    case _ =>
  }

  /**
   From any state, writers that meet no fault take at most ten steps for every entry that waits or is added, and what
   they still have to do for the entries they hold: they cannot go on for ever.
   */
  lemma {:induction false} WorkIsBounded(s: World, events: seq<Event>, t: World)
    requires Durable(s) && Run(s, events, t) && NoFaults(events)
    ensures Works(events) + Fuel(t) <= Fuel(s) + QUEUED * Pushes(events)
    decreases |events|
  {
    hide Fuel, Step, Can, Durable, FaultFree;
    if events != [] {
      assert forall k :: 0 < k < |events| ==> events[k] == events[1..][k - 1];
      StepDurable(s, events[0]);
      StepBurns(s, events[0]);
      WorkIsBounded(Step(s, events[0]), events[1..], t);
      assert Works(events) == Works(events[1..]) + Works([events[0]]);
      assert Pushes(events) == Pushes(events[1..]) + Pushes([events[0]]);
    }
  }

  // ---------- Where they end ----------

  /** No writer has a step to take that meets no fault. */
  ghost predicate AtRest(s: World) {
    s.writers != [] && forall i, act :: Can(s, Work(i, act)) ==> !FaultFree(Work(i, act))
  }

  function NextAct(w: Writer): Act {
    match w.task
    case Check(_) => LookUp(true)
    case Fetch(_) => Download(true)
    case Mark(_) => Record(Done, 0)
    case Push(_) => PushBack(Done)
    case Remove(_) => Drop(Done)
    case Free =>
      if w.rest == [] then (if w.phase == Collecting then Take(Done) else NextWindow)
      else
        match w.phase
        case Collecting => Insert(1, true)
        case Settling => Settle
        case Returning => GiveBack
  }

  /** A writer is never stuck while there is something to do. */
  lemma RestingWriter(s: World, i: nat)
    requires AtRest(s) && i < |s.writers|
    ensures s.writers[i] == IDLE && s.queue == []
  {
    var act := NextAct(s.writers[i]);
    assert FaultFree(Work(i, act));
    assert !Can(s, Work(i, act));
  }

  /** Copies on the processing list that no live writer holds, as a crash or a failed command leaves them. */
  function Stranded(s: World, e: Raw): int {
    Count(s.processing, e) - Sum(s.writers, Held, e)
  }

  /** Without faults no entry is stranded, and none that was comes off the list. */
  lemma ActStrandsNone(s: World, w: Writer, act: Act, i: nat, e: Raw, others: nat)
    requires CanAct(s, w, act) && FaultFree(Work(i, act))
    requires others + Weight(w, Held, e) <= Count(s.processing, e)
    ensures Count(ActWorld(s, w, act).processing, e) - Weight(ActWriter(s, w, act), Held, e)
            == Count(s.processing, e) - Weight(w, Held, e)
  {
    ActLists(s, w, act, e);
    match act
    case Take(_) => CountAppend(w.rest, [s.queue[|s.queue| - 1]], e);
    case Download(_) => CountAppend(w.rest, [w.task.e], e);
    case Drop(_) => CountMember(s.processing, e);
    case _ =>
  }

  lemma StepStrandsNone(s: World, ev: Event, e: Raw)
    requires CopiesCovered(s) && Can(s, ev) && FaultFree(ev)
    ensures Stranded(Step(s, ev), e) == Stranded(s, e)
  {
    match ev
    case Work(i, act) =>
      var w := s.writers[i];
      SumUpdate(s.writers, i, ActWriter(s, w, act), Held, e);
      ActStrandsNone(s, w, act, i, e, Sum(s.writers, Held, e) - Weight(w, Held, e));
    case Hire => SumAppend(s.writers, IDLE, Held, e);
    case _ =>
  }

  lemma {:induction false} RunStrandsNone(s: World, events: seq<Event>, t: World, e: Raw)
    requires Tracked(s) && Run(s, events, t) && NoFaults(events)
    ensures Stranded(t, e) == Stranded(s, e)
    decreases |events|
  {
    hide Stranded, Step, Can, Tracked, FaultFree;
    if events != [] {
      assert forall k :: 0 < k < |events| ==> events[k] == events[1..][k - 1];
      NoLoss(s, events[0]);
      StepStrandsNone(s, events[0], e);
      RunStrandsNone(Step(s, events[0]), events[1..], t, e);
    }
  }

  lemma NoLoss(s: World, ev: Event)
    requires Tracked(s) && Can(s, ev) && FaultFree(ev)
    ensures CopiesCovered(s) && Tracked(Step(s, ev))
  {
    StepTracked(s, ev);
  }

  lemma {:induction false} IdleHoldNothing(ws: seq<Writer>, e: Raw)
    requires forall i :: 0 <= i < |ws| ==> ws[i] == IDLE
    ensures Sum(ws, Held, e) == 0
  {
    if ws != [] {
      IdleHoldNothing(ws[1..], e);
    }
  }

  /**
   After any run in which Redis kept its lists, once faults stop: when the writers come to rest the queue is empty and
   the processing list holds just the entries that were stranded before, for a later sweep or nobody.
   */
  lemma FaultsLeaveOnlyStranded(before: seq<Event>, s: World, after: seq<Event>, t: World)
    requires Run(START, before, s) && ListsSurvive(before)
    requires Run(s, after, t) && NoFaults(after) && AtRest(t)
    ensures t.queue == [] && forall e :: Count(t.processing, e) == Stranded(s, e)
  {
    RunTracked(START, before, s);
    RestingWriter(t, 0);
    forall i | 0 <= i < |t.writers| ensures t.writers[i] == IDLE { RestingWriter(t, i); }
    forall e ensures Count(t.processing, e) == Stranded(s, e) {
      RunStrandsNone(s, after, t, e);
      IdleHoldNothing(t.writers, e);
    }
  }

  /** Without faults from the start: the lists drain, and everything accepted is committed and in the Lake. */
  lemma DrainsWithoutFaults(events: seq<Event>, t: World)
    requires Run(START, events, t) && NoFaults(events) && AtRest(t)
    ensures t.queue == [] && t.processing == []
    ensures forall id :: id != "" && Ref(id) in t.accepted ==> id in t.ledger && Ref(id) in t.lake
    ensures forall e: Raw :: e.Payload? ==> Count(t.accepted, e) <= InLake(t, e)
  {
    assert Run(START, [], START);
    FaultsLeaveOnlyStranded([], START, events, t);
    assert forall e :: Count(t.processing, e) == 0;
    NothingListed(t.processing);
    DrainedMeansCommitted(events, t);
  }

  lemma NothingListed(list: seq<Raw>)
    requires forall e :: Count(list, e) == 0
    ensures list == []
  {
    assert list != [] ==> Count(list, list[0]) > 0;
  }

  // ---------- Nothing is pushed back ----------

  /** Nothing is about to be pushed back. */
  predicate Forward(w: Writer) {
    !w.task.Push? && w.phase != Returning
  }

  lemma {:induction false} RunGoesForward(s: World, events: seq<Event>, t: World)
    requires forall i :: 0 <= i < |s.writers| ==> Forward(s.writers[i])
    requires Run(s, events, t) && NoFaults(events)
    ensures forall i :: 0 <= i < |t.writers| ==> Forward(t.writers[i])
    decreases |events|
  {
    if events != [] {
      assert forall k :: 0 < k < |events| ==> events[k] == events[1..][k - 1];
      StepGoesForward(s, events[0]);
      RunGoesForward(Step(s, events[0]), events[1..], t);
    }
  }

  lemma StepGoesForward(s: World, ev: Event)
    requires forall i :: 0 <= i < |s.writers| ==> Forward(s.writers[i])
    requires Can(s, ev) && FaultFree(ev)
    ensures forall i :: 0 <= i < |Step(s, ev).writers| ==> Forward(Step(s, ev).writers[i])
  {
  }

  /** Without faults no writer ever pushes an entry back, and the processing list holds just what writers hold. */
  lemma NothingIsPushedBack(events: seq<Event>, t: World)
    requires Run(START, events, t) && NoFaults(events)
    ensures forall i :: 0 <= i < |t.writers| ==> !t.writers[i].task.Push?
    ensures forall e :: Count(t.processing, e) == Sum(t.writers, Held, e)
  {
    RunGoesForward(START, events, t);
    forall e ensures Count(t.processing, e) == Sum(t.writers, Held, e) {
      RunStrandsNone(START, events, t, e);
    }
  }

  // ---------- One entry, handled alone ----------

  /** These acts of one writer lead from one world and writer to another. */
  ghost predicate Leads(u: World, w: Writer, acts: seq<Act>, u': World, w': Writer)
    decreases |acts|
  {
    if acts == [] then u == u' && w == w'
    else CanAct(u, w, acts[0]) && Leads(ActWorld(u, w, acts[0]), ActWriter(u, w, acts[0]), acts[1..], u', w')
  }

  lemma First(u: World, w: Writer, act: Act, rest: seq<Act>, u': World, w': Writer)
    requires CanAct(u, w, act) && Leads(ActWorld(u, w, act), ActWriter(u, w, act), rest, u', w')
    ensures Leads(u, w, [act] + rest, u', w')
  {
    assert ([act] + rest)[1..] == rest;
  }

  function WorkOf(i: nat, acts: seq<Act>): seq<Event> {
    if acts == [] then [] else [Work(i, acts[0])] + WorkOf(i, acts[1..])
  }

  function With(u: World, ws: seq<Writer>, i: nat, w: Writer): World
    requires i < |ws|
  {
    u.(writers := ws[i := w])
  }

  /** An act depends on no other writer, and changes none. */
  lemma OneWriter(u: World, ws: seq<Writer>, w: Writer, act: Act)
    requires CanAct(u, w, act)
    ensures var v := u.(writers := ws);
            && CanAct(v, w, act) && ActWriter(v, w, act) == ActWriter(u, w, act)
            && ActWorld(v, w, act).(writers := ws) == ActWorld(u, w, act).(writers := ws)
  {
  }

  lemma {:induction false} LeadsIsARun(u: World, ws: seq<Writer>, i: nat, w: Writer, acts: seq<Act>, u': World,
                                       w': Writer)
    requires i < |ws| && Leads(u, w, acts, u', w')
    ensures Run(With(u, ws, i, w), WorkOf(i, acts), With(u', ws, i, w'))
    decreases |acts|
  {
    hide CanAct, ActWorld, ActWriter;
    if acts != [] {
      var v, x := ActWorld(u, w, acts[0]), ActWriter(u, w, acts[0]);
      LeadsIsARun(v, ws, i, x, acts[1..], u', w');
      OneWriter(u, ws[i := w], w, acts[0]);
      assert ws[i := w][i := x] == ws[i := x];
    }
  }

  /** What a writer does with an entry when nothing goes wrong. */
  function Handling(s: World, e: Raw, now: int): seq<Act> {
    if Unreadable(e) then [Take(Done), Drop(Done)]
    else if e.Payload? then [Take(Done), Insert(1, true), Settle, Drop(Done), NextWindow]
    else if e.batchId in s.ledger then [Take(Done), LookUp(true), Drop(Done)]
    else if e.batchId in s.staged then
      [Take(Done), LookUp(true), Download(true), Insert(1, true), Settle, Record(Done, now), Drop(Done), NextWindow]
    else [Take(Done), LookUp(true), Download(true), Drop(Done)]
  }

  lemma {:induction false} WorkOfHasNoFaults(i: nat, acts: seq<Act>)
    requires forall k :: 0 <= k < |acts| ==> FaultFree(Work(i, acts[k]))
    ensures NoFaults(WorkOf(i, acts))
  {
    if acts != [] {
      WorkOfHasNoFaults(i, acts[1..]);
    }
  }

  lemma HandlingHasNoFaults(s: World, e: Raw, now: int, i: nat)
    ensures NoFaults(WorkOf(i, Handling(s, e, now)))
  {
    WorkOfHasNoFaults(i, Handling(s, e, now));
  }

  lemma DropEnds(u: World, p: seq<Raw>, e: Raw, phase: Phase)
    requires u.processing == LPush(p, e)
    ensures var w := Writer(phase, [], Remove(e));
            && CanAct(u, w, Drop(Done))
            && ActWorld(u, w, Drop(Done)) == u.(processing := p)
            && ActWriter(u, w, Drop(Done)) == Writer(phase, [], Free)
  {
    assert LPush(p, e)[1..] == p;
  }

  /** Settling or giving back the only entry of a window. */
  lemma OneEntry(u: World, e: Raw)
    ensures var settling := Writer(Settling, [e], Free);
            && CanAct(u, settling, Settle) && ActWorld(u, settling, Settle) == u
            && ActWriter(u, settling, Settle) == Writer(Settling, [], if e.Ref? then Mark(e) else Remove(e))
    ensures var returning := Writer(Returning, [e], Free);
            && CanAct(u, returning, GiveBack) && ActWorld(u, returning, GiveBack) == u
            && ActWriter(u, returning, GiveBack) == Writer(Returning, [], Push(e))
  {
    assert [e][1..] == [] && [e][0] == e;
  }

  /** A window of one entry, inserted and settled. */
  lemma Settles(u: World, p: seq<Raw>, e: Raw, now: int)
    requires u.processing == LPush(p, e) && !e.Malformed?
    ensures var t := u.(processing := p, lake := u.lake + [e],
                        ledger := if e.Ref? then MarkFirst(u.ledger, e.batchId, now) else u.ledger);
            Leads(u, Writer(Collecting, [e], Free),
                  [Insert(1, true), Settle] + (if e.Ref? then [Record(Done, now)] else []) + [Drop(Done), NextWindow],
                  t, IDLE)
  {
    var inserted := u.(lake := u.lake + [e]);
    var marked := inserted.(ledger := if e.Ref? then MarkFirst(u.ledger, e.batchId, now) else u.ledger);
    var t := marked.(processing := p);
    var closing := Writer(Settling, [], Remove(e));
    DropEnds(marked, p, e, Settling);
    First(t, Writer(Settling, [], Free), NextWindow, [], t, IDLE);
    First(marked, closing, Drop(Done), [NextWindow], t, IDLE);
    var rest := [Drop(Done), NextWindow];
    if e.Ref? {
      First(inserted, Writer(Settling, [], Mark(e)), Record(Done, now), rest, t, IDLE);
      rest := [Record(Done, now)] + rest;
    }
    OneEntry(inserted, e);
    First(inserted, Writer(Settling, [e], Free), Settle, rest, t, IDLE);
    OneTime(e);
    First(u, Writer(Collecting, [e], Free), Insert(1, true), [Settle] + rest, t, IDLE);
    assert [Insert(1, true)] + ([Settle] + rest) ==
           [Insert(1, true), Settle] + (if e.Ref? then [Record(Done, now)] else []) + [Drop(Done), NextWindow];
  }

  lemma HandlesInActs(s: World, e: Raw, now: int) returns (t: World)
    requires s.queue != [] && s.queue[|s.queue| - 1] == e
    ensures var isNew := e.Ref? && e.batchId != "" && e.batchId !in s.ledger && e.batchId in s.staged;
            t == s.(queue := s.queue[..|s.queue| - 1],
                    ledger := if isNew then s.ledger[e.batchId := now] else s.ledger,
                    lake := if isNew || e.Payload? then s.lake + [e] else s.lake)
    ensures Leads(s, IDLE, Handling(s, e, now), t, IDLE)
  {
    hide Leads;
    var q, p := s.queue[..|s.queue| - 1], s.processing;
    var taken := s.(queue := q, processing := LPush(p, e));
    var done := s.(queue := q);
    var dropping, checking, fetching := IDLE.(task := Remove(e)), IDLE.(task := Check(e)), IDLE.(task := Fetch(e));
    DropEnds(taken, p, e, Collecting);
    Ended(done);
    First(taken, dropping, Drop(Done), [], done, IDLE);
    assert [Drop(Done)] + [] == [Drop(Done)];
    assert IDLE.rest + [e] == [e];
    if Unreadable(e) {
      t := done;
      First(s, IDLE, Take(Done), [Drop(Done)], t, IDLE);
      assert [Take(Done)] + [Drop(Done)] == Handling(s, e, now);
    } else if e.Payload? {
      Settles(taken, p, e, now);
      t := done.(lake := s.lake + [e]);
      First(s, IDLE, Take(Done), [Insert(1, true), Settle] + [] + [Drop(Done), NextWindow], t, IDLE);
      assert [Take(Done)] + ([Insert(1, true), Settle] + [] + [Drop(Done), NextWindow]) == Handling(s, e, now);
    } else if e.batchId in s.ledger {
      t := done;
      First(taken, checking, LookUp(true), [Drop(Done)], t, IDLE);
      First(s, IDLE, Take(Done), [LookUp(true)] + [Drop(Done)], t, IDLE);
      assert [Take(Done)] + ([LookUp(true)] + [Drop(Done)]) == Handling(s, e, now);
    } else if e.batchId in s.staged {
      Settles(taken, p, e, now);
      t := done.(lake := s.lake + [e], ledger := s.ledger[e.batchId := now]);
      var last := [Insert(1, true), Settle] + [Record(Done, now)] + [Drop(Done), NextWindow];
      First(taken, fetching, Download(true), last, t, IDLE);
      First(taken, checking, LookUp(true), [Download(true)] + last, t, IDLE);
      First(s, IDLE, Take(Done), [LookUp(true)] + ([Download(true)] + last), t, IDLE);
      assert [Take(Done)] + ([LookUp(true)] + ([Download(true)] + last)) == Handling(s, e, now);
    } else {
      t := done;
      First(taken, fetching, Download(true), [Drop(Done)], t, IDLE);
      First(taken, checking, LookUp(true), [Download(true)] + [Drop(Done)], t, IDLE);
      First(s, IDLE, Take(Done), [LookUp(true)] + ([Download(true)] + [Drop(Done)]), t, IDLE);
      assert [Take(Done)] + ([LookUp(true)] + ([Download(true)] + [Drop(Done)])) == Handling(s, e, now);
    }
  }

  lemma Ended(u: World)
    ensures Leads(u, IDLE, [], u, IDLE)
  {
  }

  /**
   An idle writer that meets no fault takes the oldest entry off the queue and off the processing list again. It inserts
   a payload, or a staged batch that is not committed, once, commits such a batch, and changes nothing else.
   */
  lemma HandlesOne(s: World, i: nat, now: int)
    requires i < |s.writers| && s.writers[i] == IDLE && s.queue != []
    ensures var n := |s.queue| - 1;
            var e := s.queue[n];
            var isNew := e.Ref? && e.batchId != "" && e.batchId !in s.ledger && e.batchId in s.staged;
            var t := s.(queue := s.queue[..n],
                        ledger := if isNew then s.ledger[e.batchId := now] else s.ledger,
                        lake := if isNew || e.Payload? then s.lake + [e] else s.lake);
            && Run(s, WorkOf(i, Handling(s, e, now)), t) && NoFaults(WorkOf(i, Handling(s, e, now)))
  {
    var e := s.queue[|s.queue| - 1];
    var t := HandlesInActs(s, e, now);
    LeadsIsARun(s, s.writers, i, IDLE, Handling(s, e, now), t, IDLE);
    assert s.writers[i := IDLE] == s.writers;
    HandlingHasNoFaults(s, e, now, i);
  }

  // ---------- One entry, given back ----------

  /** What can fail while an entry is handled. */
  datatype Failure =
    | LookUpFails
    | DownloadFails
    | InsertFails(copies: nat)
    | MarkFails(r: Reply, now: int)

  predicate CanFail(s: World, e: Raw, f: Failure) {
    match f
    case LookUpFails => e.Ref? && e.batchId != ""
    case DownloadFails => e.Ref? && e.batchId != "" && e.batchId !in s.ledger
    case InsertFails(copies) => copies <= LakeInsert.MAX_COPIES && (e.Payload? || IsNew(s, e))
    case MarkFails(r, _) => r != Done && IsNew(s, e)
  }

  predicate IsNew(s: World, e: Raw) {
    e.Ref? && e.batchId != "" && e.batchId !in s.ledger && e.batchId in s.staged
  }

  /** The acts up to the failure. */
  function Until(e: Raw, f: Failure): seq<Act> {
    match f
    case LookUpFails => [Take(Done), LookUp(false)]
    case DownloadFails => [Take(Done), LookUp(true), Download(false)]
    case InsertFails(copies) =>
      [Take(Done)] + (if e.Ref? then [LookUp(true), Download(true)] else []) + [Insert(copies, false), GiveBack]
    case MarkFails(r, now) =>
      [Take(Done), LookUp(true), Download(true)] + [Insert(1, true), Settle, Record(r, now)]
  }

  function PhaseAt(f: Failure): Phase {
    if f.InsertFails? then Returning else if f.MarkFails? then Settling else Collecting
  }

  /** And those that give the entry back. */
  function GivingBack(f: Failure, push: Reply, remove: Reply): seq<Act> {
    [PushBack(push)] + (if push == Done then [Drop(remove)] else []) +
    (if f.InsertFails? || f.MarkFails? then [NextWindow] else [])
  }

  lemma {:induction false} LeadsOn(u: World, w: Writer, a: seq<Act>, v: World, x: Writer, b: seq<Act>, t: World,
                                   z: Writer)
    requires Leads(u, w, a, v, x) && Leads(v, x, b, t, z)
    ensures Leads(u, w, a + b, t, z)
    decreases |a|
  {
    hide CanAct, ActWorld, ActWriter;
    if a == [] {
      assert a + b == b;
    } else {
      LeadsOn(ActWorld(u, w, a[0]), ActWriter(u, w, a[0]), a[1..], v, x, b, t, z);
      assert (a + b)[1..] == a[1..] + b;
    }
  }

  lemma GivesBack(u: World, q: seq<Raw>, p: seq<Raw>, e: Raw, f: Failure, push: Reply, remove: Reply)
    requires u.queue == q && u.processing == LPush(p, e)
    ensures var w := Writer(PhaseAt(f), [], Push(e));
            var t := u.(queue := if push == Refused then q else [e] + q,
                        processing := if push == Done && remove != Refused then p else [e] + p);
            Leads(u, w, GivingBack(f, push, remove), t, IDLE)
  {
    var phase := PhaseAt(f);
    var pushed := u.(queue := if push == Refused then q else [e] + q);
    var t := pushed.(processing := if push == Done && remove != Refused then p else [e] + p);
    assert LPush(p, e)[1..] == p;
    var last := if phase == Collecting then [] else [NextWindow];
    Ended(t);
    if phase != Collecting {
      First(t, Writer(phase, [], Free), NextWindow, [], t, IDLE);
      assert [NextWindow] + [] == last;
    }
    if push == Done {
      First(pushed, Writer(phase, [], Remove(e)), Drop(remove), last, t, IDLE);
      First(u, Writer(phase, [], Push(e)), PushBack(push), [Drop(remove)] + last, t, IDLE);
      assert [PushBack(push)] + ([Drop(remove)] + last) == GivingBack(f, push, remove);
    } else {
      First(u, Writer(phase, [], Push(e)), PushBack(push), last, t, IDLE);
      assert [PushBack(push)] + last == GivingBack(f, push, remove);
    }
  }

  /** The world at the failure: the entry is on the processing list, and the Lake and the ledger may have changed. */
  function AtFailure(s: World, e: Raw, f: Failure): World
    requires s.queue != [] && CanFail(s, e, f)
  {
    s.(queue := s.queue[..|s.queue| - 1], processing := LPush(s.processing, e),
       ledger := if f.MarkFails? && f.r == Lost then s.ledger[e.batchId := f.now] else s.ledger,
       lake := s.lake + if f.InsertFails? then Times([e], f.copies) else if f.MarkFails? then [e] else [])
  }

  /** Taking a new batch or a payload up to the insert. */
  lemma WindowOfOne(s: World, e: Raw, rest: seq<Act>, u: World, w: Writer)
    requires s.queue != [] && s.queue[|s.queue| - 1] == e && (e.Payload? || IsNew(s, e))
    requires var taken := s.(queue := s.queue[..|s.queue| - 1], processing := LPush(s.processing, e));
             Leads(taken, Writer(Collecting, [e], Free), rest, u, w)
    ensures Leads(s, IDLE, [Take(Done)] + (if e.Ref? then [LookUp(true), Download(true)] else []) + rest, u, w)
  {
    hide Leads;
    var taken := s.(queue := s.queue[..|s.queue| - 1], processing := LPush(s.processing, e));
    var all := rest;
    assert IDLE.rest + [e] == [e];
    if e.Ref? {
      First(taken, IDLE.(task := Fetch(e)), Download(true), rest, u, w);
      First(taken, IDLE.(task := Check(e)), LookUp(true), [Download(true)] + rest, u, w);
      all := [LookUp(true)] + ([Download(true)] + rest);
    }
    First(s, IDLE, Take(Done), all, u, w);
    assert [Take(Done)] + all == [Take(Done)] + (if e.Ref? then [LookUp(true), Download(true)] else []) + rest;
  }

  lemma FailsEarly(s: World, e: Raw, f: Failure)
    requires s.queue != [] && s.queue[|s.queue| - 1] == e && CanFail(s, e, f) && (f.LookUpFails? || f.DownloadFails?)
    ensures Leads(s, IDLE, Until(e, f), AtFailure(s, e, f), Writer(Collecting, [], Push(e)))
  {
    hide Leads;
    var u, pushing := AtFailure(s, e, f), IDLE.(task := Push(e));
    var checking, fetching := IDLE.(task := Check(e)), IDLE.(task := Fetch(e));
    assert s.lake + [] == s.lake;
    if f.LookUpFails? {
      LastAct(u, checking, LookUp(false), u, pushing);
      First(s, IDLE, Take(Done), [LookUp(false)], u, pushing);
      assert [Take(Done)] + [LookUp(false)] == Until(e, f);
    } else {
      LastAct(u, fetching, Download(false), u, pushing);
      First(u, checking, LookUp(true), [Download(false)], u, pushing);
      First(s, IDLE, Take(Done), [LookUp(true)] + [Download(false)], u, pushing);
      assert [Take(Done)] + ([LookUp(true)] + [Download(false)]) == Until(e, f);
    }
  }

  lemma MarkNotDone(s: World, e: Raw, f: Failure)
    requires s.queue != [] && s.queue[|s.queue| - 1] == e && CanFail(s, e, f) && f.MarkFails?
    ensures var w := Writer(Settling, [], Mark(e));
            var inserted := s.(queue := s.queue[..|s.queue| - 1], processing := LPush(s.processing, e),
                               lake := s.lake + [e]);
            && CanAct(inserted, w, Record(f.r, f.now))
            && ActWorld(inserted, w, Record(f.r, f.now)) == AtFailure(s, e, f)
            && ActWriter(inserted, w, Record(f.r, f.now)) == Writer(PhaseAt(f), [], Push(e))
  {
  }

  lemma FailsLate(s: World, e: Raw, f: Failure)
    requires s.queue != [] && s.queue[|s.queue| - 1] == e && CanFail(s, e, f) && (f.InsertFails? || f.MarkFails?)
    ensures Leads(s, IDLE, Until(e, f), AtFailure(s, e, f), Writer(PhaseAt(f), [], Push(e)))
  {
    hide Leads, Times;
    var taken := s.(queue := s.queue[..|s.queue| - 1], processing := LPush(s.processing, e));
    var u, end := AtFailure(s, e, f), Writer(PhaseAt(f), [], Push(e));
    var window := Writer(Collecting, [e], Free);
    if f.InsertFails? {
      OneEntry(u, e);
      LastAct(u, Writer(Returning, [e], Free), GiveBack, u, end);
      First(taken, window, Insert(f.copies, false), [GiveBack], u, end);
      WindowOfOne(s, e, [Insert(f.copies, false)] + [GiveBack], u, end);
      assert [Insert(f.copies, false)] + [GiveBack] == [Insert(f.copies, false), GiveBack];
    } else {
      var inserted := taken.(lake := s.lake + [e]);
      var last := Record(f.r, f.now);
      OneTime(e);
      MarkNotDone(s, e, f);
      LastAct(inserted, Writer(Settling, [], Mark(e)), last, u, end);
      OneEntry(inserted, e);
      First(inserted, Writer(Settling, [e], Free), Settle, [last], u, end);
      First(taken, window, Insert(1, true), [Settle] + [last], u, end);
      WindowOfOne(s, e, [Insert(1, true)] + ([Settle] + [last]), u, end);
      assert [Take(Done)] + [LookUp(true), Download(true)] + ([Insert(1, true)] + ([Settle] + [last])) == Until(e, f);
    }
  }

  lemma OneTime(e: Raw)
    ensures Times([e], 1) == [e]
  {
    assert Times([e], 0) == [];
  }

  lemma LastAct(u: World, w: Writer, act: Act, t: World, x: Writer)
    requires CanAct(u, w, act) && t == ActWorld(u, w, act) && x == ActWriter(u, w, act)
    ensures Leads(u, w, [act], t, x)
  {
    assert [act][1..] == [];
  }

  /**
   An idle writer that fails to look an entry up, to fetch, insert or mark it, pushes it back as the newest and takes it
   off the processing list. If the push fails too, or the removal, the entry stays there.
   */
  lemma ReturnsOne(s: World, i: nat, f: Failure, push: Reply, remove: Reply)
    requires i < |s.writers| && s.writers[i] == IDLE && s.queue != [] && CanFail(s, s.queue[|s.queue| - 1], f)
    ensures var e, q := s.queue[|s.queue| - 1], s.queue[..|s.queue| - 1];
            var t := s.(
              queue := if push == Refused then q else [e] + q,
              processing := if push == Done && remove != Refused then s.processing else [e] + s.processing,
              ledger := if f.MarkFails? && f.r == Lost then s.ledger[e.batchId := f.now] else s.ledger,
              lake := s.lake + if f.InsertFails? then Times([e], f.copies) else if f.MarkFails? then [e] else []);
            Run(s, WorkOf(i, Until(e, f) + GivingBack(f, push, remove)), t)
  {
    hide Leads, Run, Until, GivingBack, WorkOf, CanFail;
    var e, q := s.queue[|s.queue| - 1], s.queue[..|s.queue| - 1];
    var u := AtFailure(s, e, f);
    if f.LookUpFails? || f.DownloadFails? {
      FailsEarly(s, e, f);
    } else {
      FailsLate(s, e, f);
    }
    var w := Writer(PhaseAt(f), [], Push(e));
    GivesBack(u, q, s.processing, e, f, push, remove);
    var t := u.(queue := if push == Refused then q else [e] + q,
                processing := if push == Done && remove != Refused then s.processing else [e] + s.processing);
    LeadsOn(s, IDLE, Until(e, f), u, w, GivingBack(f, push, remove), t, IDLE);
    LeadsIsARun(s, s.writers, i, IDLE, Until(e, f) + GivingBack(f, push, remove), t, IDLE);
    assert s.writers[i := IDLE] == s.writers;
  }
}
