/**
 When the ingest protocol inserts a batch exactly once. Four kinds of steps are risky for a batch. Runs without them
 leave at most one copy in the Lake, and the first such step of a run can always be followed, without another, by a
 second copy.
 */
module IngestExactlyOnce {
  import opened IngestQueue
  import opened IngestProtocol

  /** Writers that may still insert the batch, or have inserted it and not yet recorded it. */
  function Active(s: World, id: string): nat {
    Sum(s.writers, Claims, Ref(id)) + Sum(s.writers, Unmarked, Ref(id))
  }

  /**
   The risky steps: passing the ledger check while the batch is active already, an insert whose answer does not tell
   how many copies it left, a mark that is not carried out, and a crash between insert and mark.
   */
  predicate Risky(s: World, ev: Event, id: string)
    requires Can(s, ev)
  {
    ev.Work? &&
    var w := s.writers[ev.i];
    match ev.act
    case LookUp(ok) => ok && w.task.e == Ref(id) && id !in s.ledger && Active(s, id) > 0
    case Insert(copies, ok) => Ref(id) in w.rest && copies != if ok then 1 else 0
    case Record(r, _) => w.task.e == Ref(id) && !Applied(r)
    case Crash => Weight(w, Unmarked, Ref(id)) > 0
    case _ => false
  }

  /** A run without risky steps for the batch. */
  ghost predicate SafeRun(s: World, events: seq<Event>, t: World, id: string)
    decreases |events|
  {
    if events == [] then s == t
    else Can(s, events[0]) && !Risky(s, events[0], id) && SafeRun(Step(s, events[0]), events[1..], t, id)
  }

  /** A committed batch is in the Lake once and no longer active; an uncommitted one as often as it is unmarked. */
  ghost predicate Once(s: World, id: string) {
    && Active(s, id) <= 1
    && if id in s.ledger then Active(s, id) == 0 && InLake(s, Ref(id)) == 1
       else InLake(s, Ref(id)) == Sum(s.writers, Unmarked, Ref(id))
  }

  // ---------- Safe steps keep it ----------

  /** One writer's share of `Once`, given the others' shares. */
  ghost predicate OnceWith(s: World, w: Writer, id: string, claims: nat, unmarked: nat) {
    var c := claims + Weight(w, Claims, Ref(id));
    var u := unmarked + Weight(w, Unmarked, Ref(id));
    && c + u <= 1
    && if id in s.ledger then c + u == 0 && InLake(s, Ref(id)) == 1 else InLake(s, Ref(id)) == u
  }

  /** The acting writer takes no risk. */
  predicate ActSafe(s: World, w: Writer, act: Act, id: string, active: nat)
    requires CanAct(s, w, act)
  {
    match act
    case LookUp(ok) => ok && w.task.e == Ref(id) && id !in s.ledger ==> active == 0
    case Insert(copies, ok) => Ref(id) in w.rest ==> copies == if ok then 1 else 0
    case Record(r, _) => w.task.e == Ref(id) ==> Applied(r)
    case Crash => Weight(w, Unmarked, Ref(id)) == 0
    case _ => true
  }

  lemma ActOnce(s: World, w: Writer, act: Act, id: string, claims: nat, unmarked: nat)
    requires WriterSound(s, w) && CanAct(s, w, act) && id != ""
    requires OnceWith(s, w, id, claims, unmarked)
    requires ActSafe(s, w, act, id, claims + unmarked + Weight(w, Claims, Ref(id)) + Weight(w, Unmarked, Ref(id)))
    ensures OnceWith(ActWorld(s, w, act), ActWriter(s, w, act), id, claims, unmarked)
  {
    hide Count;
    CountNone(Ref(id));
    match act
    case Insert(copies, ok) => InsertOnceWith(s, w, act, id, claims, unmarked);
    case Download(_) =>
      CountAppend(w.rest, [w.task.e], Ref(id));
      CountSingle(w.task.e, Ref(id));
    case Take(_) =>
      var e := s.queue[|s.queue| - 1];
      CountAppend(w.rest, [e], Ref(id));
      CountSingle(e, Ref(id));
    case Settle => CountFirst(w.rest, Ref(id));
    case GiveBack => CountFirst(w.rest, Ref(id));
    case _ =>
  }

  lemma CountNone(x: Raw)
    ensures Count([], x) == 0
  {
  }

  lemma CountSingle(e: Raw, x: Raw)
    ensures Count([e], x) == if e == x then 1 else 0
  {
  }

  lemma CountFirst(list: seq<Raw>, x: Raw)
    requires list != []
    ensures Count(list, x) == (if list[0] == x then 1 else 0) + Count(list[1..], x)
  {
  }

  lemma SmallTimes(copies: nat, n: nat)
    ensures copies * n == if n == 0 || copies == 0 then 0 else if copies == 1 then n else copies * n
  {
  }

  lemma InsertOnceWith(s: World, w: Writer, act: Act, id: string, claims: nat, unmarked: nat)
    requires WriterSound(s, w) && act.Insert? && CanAct(s, w, act) && id != ""
    requires OnceWith(s, w, id, claims, unmarked)
    requires Ref(id) in w.rest ==> act.copies == if act.ok then 1 else 0
    ensures OnceWith(ActWorld(s, w, act), ActWriter(s, w, act), id, claims, unmarked)
  {
    TimesCounts(w.rest, act.copies, Ref(id));
    CountAppend(s.lake, Times(w.rest, act.copies), Ref(id));
    CountMember(w.rest, Ref(id));
    SmallTimes(act.copies, Count(w.rest, Ref(id)));
  }

  lemma StepOnce(s: World, ev: Event, id: string)
    requires Durable(s) && Once(s, id) && id != "" && Can(s, ev) && !Risky(s, ev, id)
    ensures Once(Step(s, ev), id)
  {
    hide Weight, WorldSound, WriterSound;
    match ev
    case Work(i, act) =>
      var w := s.writers[i];
      var w' := ActWriter(s, w, act);
      SumUpdate(s.writers, i, w', Claims, Ref(id));
      SumUpdate(s.writers, i, w', Unmarked, Ref(id));
      ActOnce(s, w, act, id, Sum(s.writers, Claims, Ref(id)) - Weight(w, Claims, Ref(id)),
              Sum(s.writers, Unmarked, Ref(id)) - Weight(w, Unmarked, Ref(id)));
    case Hire =>
      SumAppend(s.writers, IDLE, Claims, Ref(id));
      SumAppend(s.writers, IDLE, Unmarked, Ref(id));
      IdleIsInactive(id);
    case _ =>
  }

  lemma IdleIsInactive(id: string)
    ensures Weight(IDLE, Claims, Ref(id)) == 0 && Weight(IDLE, Unmarked, Ref(id)) == 0
  {
  }

  lemma {:induction false} SafeRunOnce(s: World, events: seq<Event>, t: World, id: string)
    requires Durable(s) && Once(s, id) && id != "" && SafeRun(s, events, t, id)
    ensures Durable(t) && Once(t, id) && Run(s, events, t)
    decreases |events|
  {
    hide Durable, Once, Risky, Can, Step;
    if events != [] {
      StepDurable(s, events[0]);
      StepOnce(s, events[0], id);
      SafeRunOnce(Step(s, events[0]), events[1..], t, id);
    }
  }

  lemma StartOnce(id: string)
    ensures Durable(START) && Once(START, id)
  {
  }

  /** Without risky steps a batch is in the Lake at most once, and exactly once when it is in the ledger. */
  lemma SafeRunsInsertOnce(events: seq<Event>, t: World, id: string)
    requires SafeRun(START, events, t, id) && id != ""
    ensures InLake(t, Ref(id)) <= 1
    ensures id in t.ledger ==> InLake(t, Ref(id)) == 1
  {
    StartOnce(id);
    SafeRunOnce(START, events, t, id);
  }

  /** With Redis keeping its lists: drained lists mean that an accepted batch is in the Lake exactly once. */
  lemma DrainedMeansExactlyOnce(events: seq<Event>, t: World, id: string)
    requires SafeRun(START, events, t, id) && ListsSurvive(events) && id != ""
    requires t.queue == [] && t.processing == [] && Ref(id) in t.accepted
    ensures InLake(t, Ref(id)) == 1
  {
    StartOnce(id);
    SafeRunOnce(START, events, t, id);
    DrainedMeansCommitted(events, t);
  }

  // ---------- The first risky step is enough for a second copy ----------

  lemma {:induction false} SafeExtend(s: World, events: seq<Event>, t: World, ev: Event, id: string)
    requires SafeRun(s, events, t, id) && Can(t, ev) && !Risky(t, ev, id)
    ensures SafeRun(s, events + [ev], Step(t, ev), id)
    decreases |events|
  {
    hide Can, Risky, Step;
    if events == [] {
      assert events + [ev] == [ev];
      assert SafeRun(Step(t, ev), ([ev])[1..], Step(t, ev), id);
    } else {
      assert (events + [ev])[1..] == events[1..] + [ev];
      SafeExtend(Step(s, events[0]), events[1..], t, ev, id);
    }
  }

  /** Extends a continuation of `u` by one safe event. */
  lemma Next(u: World, events: seq<Event>, s: World, ev: Event, id: string) returns (events': seq<Event>, t: World)
    requires SafeRun(u, events, s, id) && Durable(s) && Can(s, ev) && !Risky(s, ev, id)
    ensures t == Step(s, ev) && SafeRun(u, events', t, id) && Durable(t)
  {
    events', t := events + [ev], Step(s, ev);
    SafeExtend(u, events, s, ev, id);
    StepDurable(s, ev);
  }

  /** What deliveries by fresh writers leave as it is. */
  predicate SameBatch(s: World, t: World, id: string) {
    && s.lake == t.lake && s.staged == t.staged && s.ledger == t.ledger
    && Active(t, id) == Active(s, id)
  }

  /** A new writer takes the next entry. */
  lemma TakeByNewWriter(u: World, events: seq<Event>, s: World, id: string) returns (events': seq<Event>, t: World)
    requires SafeRun(u, events, s, id) && Durable(s) && s.queue != []
    ensures SafeRun(u, events', t, id) && Durable(t) && SameBatch(s, t, id)
    ensures t.queue == s.queue[..|s.queue| - 1]
    ensures var w := ActWriter(s, IDLE, Take(Done));
            t.writers == s.writers + [w]
  {
    hide SafeRun, Durable, Weight;
    var n := |s.writers|;
    events', t := Next(u, events, s, Hire, id);
    var h := t;
    events', t := Next(u, events', t, Work(n, Take(Done)), id);
    var w := ActWriter(s, IDLE, Take(Done));
    assert (s.writers + [IDLE])[n := w] == s.writers + [w];
    SumAppend(s.writers, w, Claims, Ref(id));
    SumAppend(s.writers, w, Unmarked, Ref(id));
    TakenIsInactive(s, id);
  }

  lemma TakenIsInactive(s: World, id: string)
    requires s.queue != []
    ensures var w := ActWriter(s, IDLE, Take(Done));
            Weight(w, Claims, Ref(id)) == 0 && Weight(w, Unmarked, Ref(id)) == 0
  {
    var e := s.queue[|s.queue| - 1];
    assert [] + [e] == [e];
    CountMember([e], Ref(id));
  }

  /** New writers take everything that waits. */
  lemma {:induction false} Drain(u: World, events: seq<Event>, s: World, id: string)
    returns (events': seq<Event>, t: World)
    requires SafeRun(u, events, s, id) && Durable(s)
    ensures SafeRun(u, events', t, id) && Durable(t) && SameBatch(s, t, id) && t.queue == []
    decreases |s.queue|
  {
    hide SafeRun, Durable, Active;
    events', t := events, s;
    if s.queue != [] {
      events', t := TakeByNewWriter(u, events, s, id);
      events', t := Drain(u, events', t, id);
    }
  }

  /** A sweep recovers an uncommitted batch that nobody is working on, and a new writer inserts it. */
  lemma DeliverAgain(u: World, events: seq<Event>, s: World, id: string) returns (events': seq<Event>, t: World)
    requires SafeRun(u, events, s, id) && Durable(s) && id != ""
    requires id in s.staged && id !in s.ledger && Active(s, id) == 0
    ensures SafeRun(u, events', t, id) && InLake(t, Ref(id)) == InLake(s, Ref(id)) + 1
  {
    hide SafeRun, Durable, Sum;
    events', t := Drain(u, events, s, id);
    events', t := Next(u, events', t, SpotLost(id), id);
    events', t := Next(u, events', t, Recover(id, Done), id);
    assert t.queue == [Ref(id)];
    var n := |t.writers|;
    events', t := TakeByNewWriter(u, events', t, id);
    assert t.writers[n].task == Check(Ref(id));
    events', t := Next(u, events', t, Work(n, LookUp(true)), id);
    events', t := Next(u, events', t, Work(n, Download(true)), id);
    assert t.writers[n].rest == [Ref(id)];
    var before := t.lake;
    events', t := Next(u, events', t, Work(n, Insert(1, true)), id);
    OneCopy(before, [Ref(id)], Ref(id));
  }

  lemma OneCopy(lake: seq<Raw>, window: seq<Raw>, e: Raw)
    ensures Count(lake + Times(window, 1), e) == Count(lake, e) + Count(window, e)
  {
    assert Times(window, 1) == window + Times(window, 0);
    TimesCounts(window, 1, e);
    CountAppend(lake, Times(window, 1), e);
  }

  /** How far other writers and the batch are left alone. */
  ghost predicate OnlyWriter(s: World, t: World, j: nat, id: string) {
    && |t.writers| == |s.writers| && t.staged == s.staged
    && (id in t.ledger <==> id in s.ledger)
    && forall k :: 0 <= k < |s.writers| && k != j ==> t.writers[k] == s.writers[k]
  }

  /** A writer settles the entry at hand, which is not the batch on its way into or out of the Lake. */
  lemma ClearTask(u: World, events: seq<Event>, s: World, j: nat, id: string)
    returns (events': seq<Event>, t: World)
    requires SafeRun(u, events, s, id) && Durable(s) && j < |s.writers|
    requires s.writers[j].task != Mark(Ref(id))
    ensures SafeRun(u, events', t, id) && Durable(t) && OnlyWriter(s, t, j, id) && t.lake == s.lake
    ensures t.writers[j] == s.writers[j].(task := Free)
  {
    hide SafeRun, Durable, Active, Weight;
    events', t := events, s;
    if t.writers[j].task.Check? {
      events', t := Next(u, events', t, Work(j, LookUp(false)), id);
    } else if t.writers[j].task.Fetch? {
      events', t := Next(u, events', t, Work(j, Download(false)), id);
    } else if t.writers[j].task.Mark? {
      events', t := Next(u, events', t, Work(j, Record(Done, 0)), id);
    }
    if t.writers[j].task.Push? {
      events', t := Next(u, events', t, Work(j, PushBack(Refused)), id);
    } else if t.writers[j].task.Remove? {
      events', t := Next(u, events', t, Work(j, Drop(Refused)), id);
    }
  }

  /** A writer past the check inserts what it has of the batch. */
  lemma FinishInsert(u: World, events: seq<Event>, s: World, j: nat, id: string)
    returns (events': seq<Event>, t: World)
    requires SafeRun(u, events, s, id) && Durable(s) && j < |s.writers|
    requires id in s.staged && id !in s.ledger && Weight(s.writers[j], Claims, Ref(id)) > 0
    requires s.writers[j].task != Mark(Ref(id))
    ensures SafeRun(u, events', t, id) && Durable(t) && OnlyWriter(s, t, j, id)
    ensures InLake(t, Ref(id)) == InLake(s, Ref(id)) + Weight(s.writers[j], Claims, Ref(id))
  {
    hide SafeRun, Active, WorldSound;
    var w := s.writers[j];
    assert WriterSound(s, w);
    if w.task == Fetch(Ref(id)) {
      events', t := Next(u, events, s, Work(j, Download(true)), id);
      CountAppend(w.rest, [Ref(id)], Ref(id));
    } else {
      events', t := ClearTask(u, events, s, j, id);
    }
    var before := t;
    assert Count(t.writers[j].rest, Ref(id)) == Weight(w, Claims, Ref(id));
    OneCopy(before.lake, before.writers[j].rest, Ref(id));
    events', t := Next(u, events', t, Work(j, Insert(1, true)), id);
  }

  lemma {:induction false} SomeoneActive(ws: seq<Writer>, m: Measure, e: Raw) returns (j: nat)
    requires Sum(ws, m, e) > 0
    ensures j < |ws| && Weight(ws[j], m, e) > 0
  {
    hide Weight;
    if Weight(ws[0], m, e) > 0 {
      j := 0;
    } else {
      j := SomeoneActive(ws[1..], m, e);
      j := j + 1;
    }
  }

  lemma StagedWhileUncommitted(s: World, w: Writer, id: string)
    requires WorldSound(s) && WriterSound(s, w) && id != "" && id !in s.ledger
    requires Ref(id) in w.rest || (!w.task.Free? && w.task.e == Ref(id))
    ensures id in s.staged
  {
    assert Known(s.used, Ref(id));
  }

  /** An insert that leaves a second copy, or one copy under an error report. */
  lemma UnclearInsertDuplicates(s: World, i: nat, act: Act, id: string) returns (after: seq<Event>, t: World)
    requires Durable(s) && Once(s, id) && id != "" && act.Insert?
    requires Can(s, Work(i, act)) && Risky(s, Work(i, act), id)
    ensures SafeRun(Step(s, Work(i, act)), after, t, id) && InLake(t, Ref(id)) >= 2
  {
    hide WorldSound, Weight, Count;
    var w := s.writers[i];
    var u := Step(s, Work(i, act));
    after, t := [], u;
    InsertedWeights(s, w, act, id);
    SumUpdate(s.writers, i, u.writers[i], Claims, Ref(id));
    SumUpdate(s.writers, i, u.writers[i], Unmarked, Ref(id));
    assert Weight(w, Claims, Ref(id)) == 1;
    assert InLake(u, Ref(id)) == act.copies;
    if act.copies == 1 {
      StepDurable(s, Work(i, act));
      StagedWhileUncommitted(s, w, id);
      after, t := DeliverAgain(u, [], u, id);
    }
  }

  /** What the inserting writer had of the batch, and what becomes of it. */
  lemma InsertedWeights(s: World, w: Writer, act: Act, id: string)
    requires WriterSound(s, w) && act.Insert? && CanAct(s, w, act) && Ref(id) in w.rest
    ensures var w', n := ActWriter(s, w, act), Weight(w, Claims, Ref(id));
            && n > 0 && Weight(w, Unmarked, Ref(id)) == 0
            && Weight(w', Claims, Ref(id)) == 0 && Weight(w', Unmarked, Ref(id)) == (if act.ok then n else 0)
            && InLake(ActWorld(s, w, act), Ref(id)) == InLake(s, Ref(id)) + act.copies * n
  {
    CountMember(w.rest, Ref(id));
    TimesCounts(w.rest, act.copies, Ref(id));
    CountAppend(s.lake, Times(w.rest, act.copies), Ref(id));
  }

  /** A crash before the mark, or a mark that is not carried out. */
  lemma LostMarkDuplicates(s: World, i: nat, act: Act, id: string) returns (after: seq<Event>, t: World)
    requires Durable(s) && Once(s, id) && id != "" && (act.Record? || act.Crash?)
    requires Can(s, Work(i, act)) && Risky(s, Work(i, act), id)
    ensures SafeRun(Step(s, Work(i, act)), after, t, id) && InLake(t, Ref(id)) >= 2
  {
    hide WorldSound;
    var w := s.writers[i];
    var u := Step(s, Work(i, act));
    SumUpdate(s.writers, i, u.writers[i], Claims, Ref(id));
    SumUpdate(s.writers, i, u.writers[i], Unmarked, Ref(id));
    CountMember(w.rest, Ref(id));
    StepDurable(s, Work(i, act));
    StagedWhileUncommitted(s, w, id);
    after, t := DeliverAgain(u, [], u, id);
  }

  /** A ledger check passed while the batch was active already. */
  lemma OverlapDuplicates(s: World, i: nat, act: Act, id: string) returns (after: seq<Event>, t: World)
    requires Durable(s) && Once(s, id) && id != "" && act.LookUp?
    requires Can(s, Work(i, act)) && Risky(s, Work(i, act), id)
    ensures SafeRun(Step(s, Work(i, act)), after, t, id) && InLake(t, Ref(id)) >= 2
  {
    hide WorldSound, Weight;
    var w := s.writers[i];
    var u := Step(s, Work(i, act));
    StepDurable(s, Work(i, act));
    StagedWhileUncommitted(s, w, id);
    OverlapWeights(s, w, act, id);
    after, t := FinishInsert(u, [], u, i, id);
    if Sum(s.writers, Unmarked, Ref(id)) == 0 {
      var j := SomeoneActive(s.writers, Claims, Ref(id));
      if j != i {
        NotMarking(s, j, id);
        after, t := FinishInsert(u, after, t, j, id);
      }
    }
  }

  lemma OverlapWeights(s: World, w: Writer, act: Act, id: string)
    requires WriterSound(s, w) && act == LookUp(true) && CanAct(s, w, act) && w.task.e == Ref(id) && id !in s.ledger
    ensures var w' := ActWriter(s, w, act);
            Weight(w', Claims, Ref(id)) == Weight(w, Claims, Ref(id)) + 1 && w'.task == Fetch(Ref(id))
  {
  }

  lemma NotMarking(s: World, j: nat, id: string)
    requires j < |s.writers| && Sum(s.writers, Unmarked, Ref(id)) == 0
    ensures s.writers[j].task != Mark(Ref(id))
  {
    SumUpdate(s.writers, j, IDLE, Unmarked, Ref(id));
  }

  /**
   The first risky step of a run is enough: without any further risk the run can go on to leave two copies. Together
   with `SafeRunsInsertOnce` this says exactly which runs are sure to insert a batch no more than once.
   */
  lemma FirstRiskDuplicates(before: seq<Event>, s: World, ev: Event, id: string)
    returns (after: seq<Event>, t: World)
    requires SafeRun(START, before, s, id) && id != "" && Can(s, ev) && Risky(s, ev, id)
    ensures SafeRun(Step(s, ev), after, t, id) && InLake(t, Ref(id)) >= 2
  {
    hide SafeRun, Durable, Once;
    StartOnce(id);
    SafeRunOnce(START, before, s, id);
    var act := ev.act;
    if act.Insert? {
      after, t := UnclearInsertDuplicates(s, ev.i, act, id);
    } else if act.LookUp? {
      after, t := OverlapDuplicates(s, ev.i, act, id);
    } else {
      after, t := LostMarkDuplicates(s, ev.i, act, id);
    }
  }

  /**
   After a run without risk, a step is risky exactly when a second copy can follow it without further risk: runs free
   of risky steps are the ones that are sure to insert a batch no more than once.
   */
  lemma RiskyIff(before: seq<Event>, s: World, ev: Event, id: string)
    requires SafeRun(START, before, s, id) && id != "" && Can(s, ev)
    ensures Risky(s, ev, id) <==> exists after, t :: SafeRun(Step(s, ev), after, t, id) && InLake(t, Ref(id)) >= 2
  {
    hide SafeRun, Durable, Risky, Step;
    if Risky(s, ev, id) {
      var after, t := FirstRiskDuplicates(before, s, ev, id);
    } else {
      StartOnce(id);
      SafeRunOnce(START, before, s, id);
      StepDurable(s, ev);
      StepOnce(s, ev, id);
      forall after, t | SafeRun(Step(s, ev), after, t, id)
        ensures InLake(t, Ref(id)) <= 1
      {
        SafeRunOnce(Step(s, ev), after, t, id);
      }
    }
  }

  // ---------- Each kind of risk occurs ----------

  /** Batch "b" is referenced twice: by the API, and by a sweep that saw it before the API had pushed. */
  lemma TwoReferences() returns (events: seq<Event>, t: World)
    ensures SafeRun(START, events, t, "b") && Durable(t) && NoFaults(events)
    ensures t.queue == [Ref("b"), Ref("b")] && t.writers == [IDLE, IDLE]
    ensures t.staged == {"b"} && t.ledger == map[] && t.lake == []
  {
    hide SafeRun, Durable, NoFaults, Active;
    StartOnce("b");
    NoFaultsYet();
    SafeNow(START, "b");
    events, t := Go([], START, Stage("b", Done));
    events, t := Go(events, t, Offer("b", Done));
    events, t := Go(events, t, SpotLost("b"));
    events, t := Go(events, t, Recover("b", Done));
    events, t := Go(events, t, Hire);
    events, t := Go(events, t, Hire);
  }

  /** Two writers are about to look it up. */
  lemma TwoChecks() returns (events: seq<Event>, t: World)
    ensures SafeRun(START, events, t, "b") && Durable(t) && NoFaults(events)
    ensures t.writers == [IDLE.(task := Check(Ref("b"))), IDLE.(task := Check(Ref("b")))] && Active(t, "b") == 0
    ensures t.staged == {"b"} && t.ledger == map[] && t.lake == []
  {
    hide SafeRun, Durable, NoFaults, Active;
    events, t := TwoReferences();
    events, t := Go(events, t, Work(0, Take(Done)));
    assert t.queue == [Ref("b")];
    events, t := Go(events, t, Work(1, Take(Done)));
    CheckingIsInactive(t);
  }

  lemma CheckingIsInactive(s: World)
    requires s.writers == [IDLE.(task := Check(Ref("b"))), IDLE.(task := Check(Ref("b")))]
    ensures Active(s, "b") == 0
  {
    var w := s.writers[0];
    assert [] + [w] == [w] && [w] + [w] == s.writers;
    SumAppend([], w, Claims, Ref("b"));
    SumAppend([w], w, Claims, Ref("b"));
    SumAppend([], w, Unmarked, Ref("b"));
    SumAppend([w], w, Unmarked, Ref("b"));
  }

  lemma SafeNow(s: World, id: string)
    ensures SafeRun(s, [], s, id)
  {
  }

  /** No crash, no loss, and every answer is a prompt success. */
  predicate NoFaults(events: seq<Event>) {
    forall k :: 0 <= k < |events| ==> FaultFree(events[k])
  }

  predicate FaultFree(ev: Event) {
    match ev
    case Stage(_, r) => r == Done
    case Offer(_, r) => r == Done
    case EnqueueLegacy(_, r) => r == Done
    case Recover(_, r) => r == Done
    case RedisLoss => false
    case Work(_, act) =>
      (match act
       case Take(r) => r == Done
       case LookUp(ok) => ok
       case Download(ok) => ok
       case Insert(copies, ok) => copies == 1 && ok
       case Record(r, _) => r == Done
       case PushBack(r) => r == Done
       case Drop(r) => r == Done
       case Crash => false
       case _ => true)
    case _ => true
  }

  lemma NoFaultsYet()
    ensures NoFaults([])
  {
  }

  /** Extends a run for batch "b" by a step without risk and without fault. */
  lemma Go(events: seq<Event>, s: World, ev: Event) returns (events': seq<Event>, t: World)
    requires SafeRun(START, events, s, "b") && Durable(s) && Can(s, ev) && !Risky(s, ev, "b")
    requires NoFaults(events) && FaultFree(ev)
    ensures t == Step(s, ev) && SafeRun(START, events', t, "b") && Durable(t)
    ensures NoFaults(events') && events' == events + [ev]
  {
    events', t := events + [ev], Step(s, ev);
    SafeExtend(START, events, s, ev, "b");
    StepDurable(s, ev);
  }

  /** Both pass the check, without any fault. */
  lemma TwoPassed() returns (events: seq<Event>, t: World)
    ensures Run(START, events, t) && NoFaults(events)
    ensures t.writers == [IDLE.(task := Fetch(Ref("b"))), IDLE.(task := Fetch(Ref("b")))]
    ensures t.staged == {"b"} && t.ledger == map[] && t.lake == []
  {
    hide SafeRun, Durable, Run, NoFaults, Active;
    events, t := TwoChecks();
    StartOnce("b");
    SafeRunOnce(START, events, t, "b");
    events, t := GoOn(events, t, Work(0, LookUp(true)));
    events, t := GoOn(events, t, Work(1, LookUp(true)));
  }

  /** Without any fault at all: both writers pass the check, and the batch is inserted twice. */
  lemma OverlapWithoutFaults() returns (events: seq<Event>, t: World)
    ensures Run(START, events, t) && NoFaults(events) && InLake(t, Ref("b")) == 2
  {
    hide Run, NoFaults;
    events, t := TwoPassed();
    events, t := GoOn(events, t, Work(0, Download(true)));
    events, t := GoOn(events, t, Work(1, Download(true)));
    assert t.writers[0].rest == [Ref("b")] && t.writers[1].rest == [Ref("b")];
    OneCopy([], [Ref("b")], Ref("b"));
    events, t := GoOn(events, t, Work(0, Insert(1, true)));
    OneCopy(t.lake, [Ref("b")], Ref("b"));
    events, t := GoOn(events, t, Work(1, Insert(1, true)));
  }

  /** Extends any run without faults by one more such step, risky or not. */
  lemma GoOn(events: seq<Event>, s: World, ev: Event) returns (events': seq<Event>, t: World)
    requires Run(START, events, s) && NoFaults(events) && Can(s, ev) && FaultFree(ev)
    ensures t == Step(s, ev) && Run(START, events', t) && NoFaults(events')
  {
    events', t := events + [ev], Step(s, ev);
    RunExtend(START, events, s, ev);
  }

  /** One writer has the batch in its window. */
  lemma OneWindow() returns (events: seq<Event>, t: World)
    ensures SafeRun(START, events, t, "b") && Durable(t)
    ensures |t.writers| > 0 && t.writers[0] == IDLE.(rest := [Ref("b")])
  {
    hide SafeRun, Durable, NoFaults, Active;
    events, t := TwoChecks();
    events, t := Go(events, t, Work(0, LookUp(true)));
    events, t := Go(events, t, Work(0, Download(true)));
    assert [] + [Ref("b")] == [Ref("b")];
  }

  /** An unclear insert occurs. */
  lemma UnclearInsertOccurs() returns (events: seq<Event>, t: World)
    ensures SafeRun(START, events, t, "b")
    ensures var twice, unclear := Work(0, Insert(2, true)), Work(0, Insert(1, false));
            && Can(t, twice) && Risky(t, twice, "b") && Can(t, unclear) && Risky(t, unclear, "b")
  {
    hide SafeRun, Durable;
    events, t := OneWindow();
  }

  /** A lost mark and a crash before the mark occur. */
  lemma LostMarkOccurs() returns (events: seq<Event>, t: World)
    ensures SafeRun(START, events, t, "b")
    ensures var lost, crash := Work(0, Record(Refused, 0)), Work(0, Crash);
            && Can(t, lost) && Risky(t, lost, "b") && Can(t, crash) && Risky(t, crash, "b")
  {
    hide SafeRun, Durable, Active;
    events, t := OneWindow();
    events, t := Next(START, events, t, Work(0, Insert(1, true)), "b");
    events, t := Next(START, events, t, Work(0, Settle), "b");
    assert t.writers[0].task == Mark(Ref("b"));
  }
}
