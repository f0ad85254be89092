/**
 The reliable ingest protocol as a step system: the Ingest API stages and offers batches
 (internal/buffer/buffer.go), any number of writers run the batch processor's loop
 (services/writer/internal/pipeline/batch_processor.go), and the reconciliation sweep recovers and collects
 staged objects (services/writer/internal/reconcile/worker.go). Every Redis, S3, ledger or Lake command is one
 step; a writer may crash between any two of them, and Redis may lose both lists.
 */
module IngestProtocol {
  import opened IngestQueue
  import LakeInsert

  // ---------- State ----------

  /** The command a writer is about to issue for one entry. */
  datatype Task =
    | Free
    | Check(e: Raw)   // look the batch up in the ledger
    | Fetch(e: Raw)   // read the staged object
    | Mark(e: Raw)    // record the batch in the ledger
    | Push(e: Raw)    // first half of a requeue
    | Remove(e: Raw)  // ack, or second half of a requeue

  datatype Phase = Collecting | Settling | Returning

  /** `rest` is the window being collected, or what is left of it to settle or to return. */
  datatype Writer = Writer(phase: Phase, rest: seq<Raw>, task: Task)

  const IDLE := Writer(Collecting, [], Free)

  datatype World = World(
    queue: seq<Raw>,
    processing: seq<Raw>,
    used: set<string>,            // batch ids drawn so far
    staged: set<string>,          // batch ids with an object in the buffer
    offering: set<string>,        // staged, reference not yet pushed by the Ingest API
    accepted: seq<Raw>,           // entries whose enqueue reported success
    ledger: map<string, int>,     // committed batches and when they were first marked
    lake: seq<Raw>,               // entries whose spans were inserted into the Lake, once per copy
    recovering: multiset<string>, // seen uncommitted, once per sweep that has yet to push the reference
    condemned: set<string>,       // seen committed by a sweep, object not yet deleted
    writers: seq<Writer>)

  const START := World([], [], {}, {}, {}, [], map[], [], multiset{}, {}, [])

  // ---------- Steps ----------

  datatype Act =
    | Take(r: Reply)
    | LookUp(ok: bool)
    | Download(ok: bool)
    | Insert(copies: nat, ok: bool)
    | Settle
    | Record(r: Reply, now: int)
    | GiveBack
    | PushBack(r: Reply)
    | Drop(r: Reply)
    | NextWindow
    | Crash

  datatype Event =
    | Stage(id: string, r: Reply)
    | Offer(id: string, r: Reply)
    | EnqueueLegacy(e: Raw, r: Reply)
    | Foreign(e: Raw)
    | Hire
    | Work(i: nat, act: Act)
    | SpotLost(id: string)
    | Recover(id: string, r: Reply)
    | SpotDone(id: string)
    | Collect(id: string)
    | RedisLoss

  predicate CanAct(s: World, w: Writer, act: Act) {
    match act
    case Take(r) => w.phase == Collecting && w.task.Free? && s.queue != [] && Applied(r)
    case LookUp(_) => w.task.Check?
    case Download(_) => w.task.Fetch?
    // What a call of the Lake client can leave, by LakeInsert.AtMostOneCopyAnAttempt.
    case Insert(copies, ok) =>
      w.phase == Collecting && w.task.Free? && w.rest != [] && copies <= LakeInsert.MAX_COPIES && (ok ==> copies >= 1)
    case Settle => w.phase == Settling && w.task.Free? && w.rest != []
    case Record(_, _) => w.task.Mark?
    case GiveBack => w.phase == Returning && w.task.Free? && w.rest != []
    case PushBack(_) => w.task.Push?
    case Drop(_) => w.task.Remove?
    case NextWindow => w.phase != Collecting && w.task.Free? && w.rest == []
    case Crash => true
  }

  function Times(window: seq<Raw>, copies: nat): seq<Raw> {
    if copies == 0 then [] else window + Times(window, copies - 1)
  }

  function MarkFirst(ledger: map<string, int>, id: string, now: int): map<string, int> {
    if id in ledger then ledger else ledger[id := now]
  }

  /** The writer's next state; the world it leaves is `ActWorld`. */
  function ActWriter(s: World, w: Writer, act: Act): Writer
    requires CanAct(s, w, act)
  {
    match act
    case Take(r) =>
      var e := s.queue[|s.queue| - 1];
      if r != Done then w
      else if Unreadable(e) then w.(task := Remove(e))
      else if e.Ref? then w.(task := Check(e))
      else w.(rest := w.rest + [e])
    case LookUp(ok) =>
      if !ok then w.(task := Push(w.task.e))
      else if w.task.e.Ref? && w.task.e.batchId in s.ledger then w.(task := Remove(w.task.e))
      else w.(task := Fetch(w.task.e))
    case Download(ok) =>
      if !ok then w.(task := Push(w.task.e))
      else if w.task.e.Ref? && w.task.e.batchId in s.staged then w.(rest := w.rest + [w.task.e], task := Free)
      else w.(task := Remove(w.task.e))
    case Insert(_, ok) => w.(phase := if ok then Settling else Returning)
    case Settle => w.(rest := w.rest[1..], task := if w.rest[0].Ref? then Mark(w.rest[0]) else Remove(w.rest[0]))
    case Record(r, _) => w.(task := if r == Done then Remove(w.task.e) else Push(w.task.e))
    case GiveBack => w.(rest := w.rest[1..], task := Push(w.rest[0]))
    case PushBack(r) => w.(task := if r == Done then Remove(w.task.e) else Free)
    case Drop(_) => w.(task := Free)
    case NextWindow => w.(phase := Collecting)
    case Crash => IDLE
  }

  function ActWorld(s: World, w: Writer, act: Act): World
    requires CanAct(s, w, act)
  {
    match act
    case Take(_) =>
      s.(queue := s.queue[..|s.queue| - 1], processing := LPush(s.processing, s.queue[|s.queue| - 1]))
    case Insert(copies, _) => s.(lake := s.lake + Times(w.rest, copies))
    case Record(r, now) =>
      if Applied(r) && w.task.e.Ref? then s.(ledger := MarkFirst(s.ledger, w.task.e.batchId, now)) else s
    case PushBack(r) => if Applied(r) then s.(queue := LPush(s.queue, w.task.e)) else s
    case Drop(r) => if Applied(r) then s.(processing := LRem(s.processing, w.task.e)) else s
    case _ => s
  }

  predicate Can(s: World, ev: Event) {
    match ev
    case Stage(id, _) => id != "" && id !in s.used
    case Offer(id, _) => id in s.offering
    case EnqueueLegacy(e, _) => e.Payload?
    case Foreign(e) => Unreadable(e)
    case Hire => true
    case Work(i, act) => i < |s.writers| && CanAct(s, s.writers[i], act)
    case SpotLost(id) => id in s.staged && id !in s.ledger
    case Recover(id, _) => id in s.recovering
    case SpotDone(id) => id in s.ledger
    case Collect(id) => id in s.condemned
    case RedisLoss => true
  }

  function Enqueued(s: World, e: Raw, r: Reply): World {
    s.(queue := if Applied(r) then LPush(s.queue, e) else s.queue,
       accepted := if r == Done then s.accepted + [e] else s.accepted)
  }

  function Step(s: World, ev: Event): World
    requires Can(s, ev)
  {
    match ev
    case Stage(id, r) =>
      s.(used := if Applied(r) then s.used + {id} else s.used,
         staged := if Applied(r) then s.staged + {id} else s.staged,
         offering := if r == Done then s.offering + {id} else s.offering)
    case Offer(id, r) => Enqueued(s.(offering := s.offering - {id}), Ref(id), r)
    case EnqueueLegacy(e, r) => Enqueued(s, e, r)
    case Foreign(e) => s.(queue := LPush(s.queue, e))
    case Hire => s.(writers := s.writers + [IDLE])
    case Work(i, act) =>
      var w := s.writers[i];
      ActWorld(s, w, act).(writers := s.writers[i := ActWriter(s, w, act)])
    case SpotLost(id) => s.(recovering := s.recovering + multiset{id})
    case Recover(id, r) =>
      s.(recovering := s.recovering - multiset{id},
         queue := if Applied(r) then LPush(s.queue, Ref(id)) else s.queue)
    case SpotDone(id) => s.(condemned := s.condemned + {id})
    case Collect(id) => s.(staged := s.staged - {id})
    case RedisLoss => s.(queue := [], processing := [])
  }

  ghost predicate Run(s: World, events: seq<Event>, t: World)
    decreases |events|
  {
    if events == [] then s == t
    else Can(s, events[0]) && Run(Step(s, events[0]), events[1..], t)
  }

  // ---------- Counting entries over all writers ----------

  datatype Measure =
    | Held      // taken and not yet dropped, requeued or acked
    | Removing  // about to be removed from the processing list
    | Due       // will be removed from the processing list without being pushed again
    | Claims    // past the ledger check, spans may still be inserted
    | Unmarked  // inserted, not yet recorded in the ledger

  function Entry(t: Task, e: Raw): nat {
    if !t.Free? && t.e == e then 1 else 0
  }

  /** How often the writer has `e` in the given role. */
  function Weight(w: Writer, m: Measure, e: Raw): nat {
    match m
    case Held => Count(w.rest, e) + Entry(w.task, e)
    case Removing => if w.task.Remove? then Entry(w.task, e) else 0
    case Due =>
      (if w.phase == Settling then Count(w.rest, e) else 0) + (if w.task.Remove? then Entry(w.task, e) else 0)
    case Claims =>
      (if w.phase == Collecting then Count(w.rest, e) else 0) + (if w.task.Fetch? then Entry(w.task, e) else 0)
    case Unmarked =>
      (if w.phase == Settling then Count(w.rest, e) else 0) + (if w.task.Mark? then Entry(w.task, e) else 0)
  }

  function Sum(ws: seq<Writer>, m: Measure, e: Raw): nat {
    if ws == [] then 0 else Weight(ws[0], m, e) + Sum(ws[1..], m, e)
  }

  lemma {:induction false} SumUpdate(ws: seq<Writer>, i: nat, w: Writer, m: Measure, e: Raw)
    requires i < |ws|
    ensures Sum(ws[i := w], m, e) == Sum(ws, m, e) - Weight(ws[i], m, e) + Weight(w, m, e)
    ensures Weight(ws[i], m, e) <= Sum(ws, m, e)
  {
    if i == 0 {
      assert ws[i := w][1..] == ws[1..];
    } else {
      assert ws[i := w][1..] == ws[1..][i - 1 := w];
      SumUpdate(ws[1..], i - 1, w, m, e);
    }
  }

  lemma {:induction false} SumAppend(ws: seq<Writer>, w: Writer, m: Measure, e: Raw)
    ensures Sum(ws + [w], m, e) == Sum(ws, m, e) + Weight(w, m, e)
  {
    if ws == [] {
      assert ws + [w] == [w];
    } else {
      assert (ws + [w])[1..] == ws[1..] + [w];
      SumAppend(ws[1..], w, m, e);
    }
  }

  lemma {:induction false} TimesCounts(window: seq<Raw>, copies: nat, e: Raw)
    ensures Count(Times(window, copies), e) == copies * Count(window, e)
  {
    if copies > 0 {
      TimesCounts(window, copies - 1, e);
      CountAppend(window, Times(window, copies - 1), e);
      assert copies * Count(window, e) == Count(window, e) + (copies - 1) * Count(window, e);
    }
  }

  /** Copies of `e` on the two lists together. */
  function Listed(s: World, e: Raw): nat {
    Count(s.queue, e) + Count(s.processing, e)
  }

  function InLake(s: World, e: Raw): nat {
    Count(s.lake, e)
  }

  // ---------- What every run keeps, even when Redis loses its lists ----------

  /** A reference names a batch that was staged; the empty id is not a reference to anything. */
  predicate Known(used: set<string>, e: Raw) {
    e.Ref? && e.batchId != "" ==> e.batchId in used
  }

  ghost predicate WriterSound(s: World, w: Writer) {
    && (forall e :: e in w.rest ==> Known(s.used, e) && !Unreadable(e))
    && (!w.task.Free? ==> Known(s.used, w.task.e))
    && (w.task.Check? || w.task.Fetch? || w.task.Mark? ==> w.task.e.Ref? && !Unreadable(w.task.e))
    && (w.task.Check? || w.task.Fetch? ==> w.phase == Collecting)
    // Only what is in the Lake is settled or marked.
    && (w.phase == Settling ==> forall e :: e in w.rest ==> e in s.lake)
    && (w.task.Mark? ==> w.task.e in s.lake)
  }

  ghost predicate WorldSound(s: World) {
    && s.staged <= s.used && s.offering <= s.used && (forall id :: id in s.recovering ==> id in s.used)
    && (forall id :: id in s.used ==> id in s.staged || id in s.ledger)
    && (forall id :: id in s.condemned ==> id in s.ledger)
    && (forall id :: id in s.ledger ==> Ref(id) in s.lake)
    && (forall e :: e in s.queue ==> Known(s.used, e))
    && (forall e :: e in s.processing ==> Known(s.used, e))
    && (forall e :: e in s.accepted ==> Known(s.used, e))
  }

  /** Nothing accepted can vanish: a batch leaves the buffer only after it is in the ledger, and so in the Lake. */
  ghost predicate Durable(s: World) {
    WorldSound(s) && forall i :: 0 <= i < |s.writers| ==> WriterSound(s, s.writers[i])
  }

  /** What a sound writer relies on only grows. */
  predicate Grows(s: World, t: World) {
    s.used <= t.used && s.lake <= t.lake
  }

  lemma SoundStays(s: World, t: World, w: Writer)
    requires WriterSound(s, w) && Grows(s, t)
    ensures WriterSound(t, w)
  {
  }

  lemma LRemMembers(list: seq<Raw>, e: Raw)
    ensures forall x :: x in LRem(list, e) ==> x in list
  {
    forall x | x in LRem(list, e) ensures x in list {
      LRemCounts(list, e, x);
      CountMember(LRem(list, e), x);
      CountMember(list, x);
    }
  }

  lemma ActWriterSound(s: World, w: Writer, act: Act)
    requires WorldSound(s) && WriterSound(s, w) && CanAct(s, w, act)
    ensures WriterSound(ActWorld(s, w, act), ActWriter(s, w, act))
    ensures Grows(s, ActWorld(s, w, act))
  {
    match act
    case Take(r) => assert s.queue[|s.queue| - 1] in s.queue;
    case LookUp(ok) =>
    case Download(ok) =>
    case Insert(copies, ok) =>
      if copies >= 1 {
        assert forall e :: e in w.rest ==> e in Times(w.rest, copies);
      }
    case Settle =>
    case Record(r, now) =>
    case GiveBack =>
    case PushBack(r) =>
    case Drop(r) =>
    case NextWindow =>
    case Crash =>
  }

  lemma ActWorldSound(s: World, w: Writer, act: Act)
    requires WorldSound(s) && WriterSound(s, w) && CanAct(s, w, act)
    ensures WorldSound(ActWorld(s, w, act))
  {
    match act
    case Drop(r) => LRemMembers(s.processing, w.task.e);
    case _ =>
  }

  lemma StepDurable(s: World, ev: Event)
    requires Durable(s) && Can(s, ev)
    ensures Durable(Step(s, ev))
  {
    var t := Step(s, ev);
    if ev.Work? {
      var w := s.writers[ev.i];
      ActWriterSound(s, w, ev.act);
      ActWorldSound(s, w, ev.act);
      SoundStays(ActWorld(s, w, ev.act), t, ActWriter(s, w, ev.act));
    }
    assert Grows(s, t);
    forall k | 0 <= k < |s.writers| ensures WriterSound(t, s.writers[k]) {
      SoundStays(s, t, s.writers[k]);
    }
  }

  /** Every accepted batch is staged or committed, in every run, whatever crashes and losses it contains. */
  lemma {:induction false} AcceptedBatchesSurvive(s: World, events: seq<Event>, t: World)
    requires Durable(s) && Run(s, events, t)
    ensures Durable(t)
    ensures forall id :: id != "" && Ref(id) in t.accepted ==> id in t.staged || (id in t.ledger && Ref(id) in t.lake)
    decreases |events|
  {
    if events == [] {
      forall id | id != "" && Ref(id) in t.accepted
        ensures id in t.staged || (id in t.ledger && Ref(id) in t.lake)
      {
        assert Known(t.used, Ref(id));
      }
    } else {
      StepDurable(s, events[0]);
      AcceptedBatchesSurvive(Step(s, events[0]), events[1..], t);
    }
  }

  // ---------- What every run keeps while Redis keeps its lists ----------

  /** References of uncommitted batches: enough copies are listed that pending removals cannot take the last one. */
  ghost predicate Referenced(s: World) {
    forall id :: id != "" && id !in s.ledger ==>
      Sum(s.writers, Removing, Ref(id)) + (if Ref(id) in s.accepted then 1 else 0) <= Listed(s, Ref(id))
  }

  /** Legacy payloads: every accepted copy is listed or in the Lake, counting copies still to be removed. */
  ghost predicate PayloadsKept(s: World) {
    forall e: Raw :: e.Payload? ==> Sum(s.writers, Due, e) + Count(s.accepted, e) <= Listed(s, e) + InLake(s, e)
  }

  /** Each value is on the processing list at least as often as live writers hold it. */
  ghost predicate CopiesCovered(s: World) {
    forall e :: Sum(s.writers, Held, e) <= Count(s.processing, e)
  }

  ghost predicate Tracked(s: World) {
    Durable(s) && Referenced(s) && PayloadsKept(s) && CopiesCovered(s)
  }

  /** How the two lists change with one act. */
  lemma ActLists(s: World, w: Writer, act: Act, e: Raw)
    requires CanAct(s, w, act)
    ensures var t := ActWorld(s, w, act);
            && Listed(t, e) == Listed(s, e)
                 + (if act.PushBack? && Applied(act.r) then Entry(w.task, e) else 0)
                 - (if act.Drop? && Applied(act.r) && e in s.processing then Entry(w.task, e) else 0)
            && Count(t.processing, e) == Count(s.processing, e)
                 + (if act.Take? && s.queue[|s.queue| - 1] == e then 1 else 0)
                 - (if act.Drop? && Applied(act.r) && e in s.processing then Entry(w.task, e) else 0)
  {
    match act
    case Take(_) => CountLast(s.queue, e);
    case Drop(r) => LRemCounts(s.processing, w.task.e, e);
    case _ =>
  }

  /** The acting writer's holdings change by no more than the processing list does. */
  lemma ActHeld(s: World, w: Writer, act: Act, e: Raw, others: nat)
    requires CanAct(s, w, act)
    requires others + Weight(w, Held, e) <= Count(s.processing, e)
    ensures others + Weight(ActWriter(s, w, act), Held, e) <= Count(ActWorld(s, w, act).processing, e)
  {
    ActLists(s, w, act, e);
    match act
    case Take(_) => CountAppend(w.rest, [s.queue[|s.queue| - 1]], e);
    case Download(_) => CountAppend(w.rest, [w.task.e], e);
    case _ =>
  }

  lemma ActReferenced(s: World, w: Writer, act: Act, id: string, others: nat, owed: nat)
    requires WorldSound(s) && WriterSound(s, w) && CanAct(s, w, act) && id != ""
    requires id !in ActWorld(s, w, act).ledger
    requires others + Weight(w, Removing, Ref(id)) + owed <= Listed(s, Ref(id))
    ensures others + Weight(ActWriter(s, w, act), Removing, Ref(id)) + owed <= Listed(ActWorld(s, w, act), Ref(id))
  {
    ActLists(s, w, act, Ref(id));
  }

  lemma ActPayloads(s: World, w: Writer, act: Act, e: Raw, others: nat, owed: nat)
    requires WriterSound(s, w) && CanAct(s, w, act) && e.Payload?
    requires others + Weight(w, Due, e) + owed <= Listed(s, e) + InLake(s, e)
    ensures others + Weight(ActWriter(s, w, act), Due, e) + owed
            <= Listed(ActWorld(s, w, act), e) + InLake(ActWorld(s, w, act), e)
  {
    ActLists(s, w, act, e);
    match act
    case Insert(copies, ok) => InsertAdds(s.lake, w.rest, copies, e);
    case _ =>
  }

  lemma InsertAdds(lake: seq<Raw>, window: seq<Raw>, copies: nat, e: Raw)
    ensures Count(lake + Times(window, copies), e) >= Count(lake, e) + if copies >= 1 then Count(window, e) else 0
  {
    TimesCounts(window, copies, e);
    CountAppend(lake, Times(window, copies), e);
    if copies >= 1 {
      assert copies * Count(window, e) >= Count(window, e);
    }
  }

  lemma WorkTracked(s: World, i: nat, act: Act)
    requires Tracked(s) && Can(s, Work(i, act))
    ensures Tracked(Step(s, Work(i, act)))
  {
    var w := s.writers[i];
    var u, w' := ActWorld(s, w, act), ActWriter(s, w, act);
    var t := Step(s, Work(i, act));
    StepDurable(s, Work(i, act));
    forall e ensures Sum(t.writers, Held, e) <= Count(t.processing, e) {
      SumUpdate(s.writers, i, w', Held, e);
      ActHeld(s, w, act, e, Sum(s.writers, Held, e) - Weight(w, Held, e));
    }
    forall id | id != "" && id !in t.ledger
      ensures Sum(t.writers, Removing, Ref(id)) + (if Ref(id) in t.accepted then 1 else 0) <= Listed(t, Ref(id))
    {
      SumUpdate(s.writers, i, w', Removing, Ref(id));
      assert id !in s.ledger;
      ActReferenced(s, w, act, id, Sum(s.writers, Removing, Ref(id)) - Weight(w, Removing, Ref(id)),
                    if Ref(id) in s.accepted then 1 else 0);
    }
    forall e: Raw | e.Payload?
      ensures Sum(t.writers, Due, e) + Count(t.accepted, e) <= Listed(t, e) + InLake(t, e)
    {
      SumUpdate(s.writers, i, w', Due, e);
      ActPayloads(s, w, act, e, Sum(s.writers, Due, e) - Weight(w, Due, e), Count(s.accepted, e));
    }
  }

  lemma EnqueueTracked(s: World, e: Raw, r: Reply)
    requires Referenced(s) && PayloadsKept(s) && CopiesCovered(s)
    ensures Referenced(Enqueued(s, e, r)) && PayloadsKept(Enqueued(s, e, r)) && CopiesCovered(Enqueued(s, e, r))
  {
    forall x ensures Count(s.accepted + [e], x) == Count(s.accepted, x) + (if x == e then 1 else 0) {
      CountAppend(s.accepted, [e], x);
    }
  }

  lemma StepTracked(s: World, ev: Event)
    requires Tracked(s) && Can(s, ev) && !ev.RedisLoss?
    ensures Tracked(Step(s, ev))
  {
    StepDurable(s, ev);
    match ev
    case Work(i, act) => WorkTracked(s, i, act);
    case Hire =>
      forall m, e {
        SumAppend(s.writers, IDLE, m, e);
      }
    case Offer(id, r) => EnqueueTracked(s.(offering := s.offering - {id}), Ref(id), r);
    case EnqueueLegacy(e, r) => EnqueueTracked(s, e, r);
    case _ =>
  }

  predicate ListsSurvive(events: seq<Event>) {
    forall k :: 0 <= k < |events| ==> !events[k].RedisLoss?
  }

  lemma {:induction false} RunTracked(s: World, events: seq<Event>, t: World)
    requires Tracked(s) && Run(s, events, t) && ListsSurvive(events)
    ensures Tracked(t)
    decreases |events|
  {
    if events != [] {
      StepTracked(s, events[0]);
      RunTracked(Step(s, events[0]), events[1..], t);
    }
  }

  /**
   While Redis keeps its lists, every accepted batch is committed or still referenced, every accepted payload is in
   the Lake or still listed, and each value has a copy on the processing list for every writer that holds it.
   */
  lemma NothingAcceptedIsForgotten(events: seq<Event>, t: World)
    requires Run(START, events, t) && ListsSurvive(events)
    ensures forall id :: id != "" && Ref(id) in t.accepted ==>
              || (id in t.ledger && Ref(id) in t.lake)
              || (id in t.staged && (Ref(id) in t.queue || Ref(id) in t.processing))
    ensures forall e: Raw :: e.Payload? ==> Count(t.accepted, e) <= Listed(t, e) + InLake(t, e)
    ensures forall e :: Sum(t.writers, Held, e) <= Count(t.processing, e)
  {
    RunTracked(START, events, t);
    forall id | id != "" && Ref(id) in t.accepted && id !in t.ledger
      ensures id in t.staged && (Ref(id) in t.queue || Ref(id) in t.processing)
    {
      assert Known(t.used, Ref(id));
      CountMember(t.queue, Ref(id));
      CountMember(t.processing, Ref(id));
    }
  }

  /** When both lists have drained, everything accepted is in the Lake. */
  lemma DrainedMeansCommitted(events: seq<Event>, t: World)
    requires Run(START, events, t) && ListsSurvive(events)
    requires t.queue == [] && t.processing == []
    ensures forall id :: id != "" && Ref(id) in t.accepted ==> id in t.ledger && Ref(id) in t.lake
    ensures forall e: Raw :: e.Payload? ==> Count(t.accepted, e) <= InLake(t, e)
  {
    NothingAcceptedIsForgotten(events, t);
  }

  /** An ack, or the second half of a requeue, takes away exactly one copy of the writer's own entry. */
  lemma DropTakesOneCopy(events: seq<Event>, t: World, i: nat, x: Raw)
    requires Run(START, events, t) && ListsSurvive(events)
    requires i < |t.writers| && t.writers[i].task.Remove?
    ensures var u := Step(t, Work(i, Drop(Done)));
            && Listed(u, x) == Listed(t, x) - (if x == t.writers[i].task.e then 1 else 0)
            && u.queue == t.queue
  {
    NothingAcceptedIsForgotten(events, t);
    var w := t.writers[i];
    SumUpdate(t.writers, i, w, Held, w.task.e);
    CountMember(t.processing, w.task.e);
    LRemCounts(t.processing, w.task.e, x);
  }

  // ---------- Recovery after Redis lost its lists ----------

  /** A sweep over staged objects: one lookup and one push for each uncommitted one. */
  function Sweep(ids: seq<string>): seq<Event> {
    if ids == [] then [] else [SpotLost(ids[0]), Recover(ids[0], Done)] + Sweep(ids[1..])
  }

  /** From any state, however it came about, a sweep over uncommitted staged batches puts all of them on the queue. */
  lemma {:induction false} SweepRecovers(s: World, ids: seq<string>) returns (t: World)
    requires forall k :: 0 <= k < |ids| ==> ids[k] in s.staged && ids[k] !in s.ledger
    ensures Run(s, Sweep(ids), t)
    ensures t.ledger == s.ledger && t.staged == s.staged && t.accepted == s.accepted
    ensures forall e :: e in s.queue ==> e in t.queue
    ensures forall k :: 0 <= k < |ids| ==> Ref(ids[k]) in t.queue
    decreases |ids|
  {
    if ids == [] {
      t := s;
    } else {
      var s1 := Step(s, SpotLost(ids[0]));
      var s2 := Step(s1, Recover(ids[0], Done));
      t := SweepRecovers(s2, ids[1..]);
      var events := Sweep(ids);
      assert events[1..][1..] == Sweep(ids[1..]);
      assert Run(s1, events[1..], t);
      assert Ref(ids[0]) in s2.queue;
    }
  }

  // ---------- Redelivery is idempotent ----------

  /** Copies in the Lake plus those that writers already past the ledger check may still add. */
  function Potential(s: World, id: string): nat {
    InLake(s, Ref(id)) + LakeInsert.MAX_COPIES * Sum(s.writers, Claims, Ref(id))
  }

  lemma AtMostSoOften(copies: nat, n: nat)
    requires copies <= LakeInsert.MAX_COPIES
    ensures copies * n <= LakeInsert.MAX_COPIES * n
  {
  }

  lemma ActPotential(s: World, w: Writer, act: Act, id: string)
    requires CanAct(s, w, act) && WriterSound(s, w) && id != "" && id in s.ledger
    ensures InLake(s, Ref(id)) <= InLake(ActWorld(s, w, act), Ref(id))
    ensures InLake(ActWorld(s, w, act), Ref(id)) + LakeInsert.MAX_COPIES * Weight(ActWriter(s, w, act), Claims, Ref(id))
            <= InLake(s, Ref(id)) + LakeInsert.MAX_COPIES * Weight(w, Claims, Ref(id))
  {
    match act
    case Take(r) => CountAppend(w.rest, [s.queue[|s.queue| - 1]], Ref(id));
    case Download(_) => CountAppend(w.rest, [w.task.e], Ref(id));
    case Insert(copies, ok) =>
      TimesCounts(w.rest, copies, Ref(id));
      CountAppend(s.lake, Times(w.rest, copies), Ref(id));
      AtMostSoOften(copies, Count(w.rest, Ref(id)));
    case _ =>
  }

  lemma StepPotential(s: World, ev: Event, id: string)
    requires Durable(s) && Can(s, ev) && id != "" && id in s.ledger
    ensures id in Step(s, ev).ledger && Step(s, ev).ledger[id] == s.ledger[id]
    ensures InLake(s, Ref(id)) <= InLake(Step(s, ev), Ref(id))
    ensures Potential(Step(s, ev), id) <= Potential(s, id)
  {
    match ev
    case Work(i, act) =>
      var w := s.writers[i];
      SumUpdate(s.writers, i, ActWriter(s, w, act), Claims, Ref(id));
      ActPotential(s, w, act, id);
    case Hire => SumAppend(s.writers, IDLE, Claims, Ref(id));
    case _ =>
  }

  lemma {:induction false} RunPotential(s: World, events: seq<Event>, t: World, id: string)
    requires Durable(s) && Run(s, events, t) && id != "" && id in s.ledger
    ensures id in t.ledger && t.ledger[id] == s.ledger[id]
    ensures InLake(s, Ref(id)) <= InLake(t, Ref(id))
    ensures Potential(t, id) <= Potential(s, id)
    decreases |events|
  {
    if events != [] {
      StepDurable(s, events[0]);
      StepPotential(s, events[0], id);
      RunPotential(Step(s, events[0]), events[1..], t, id);
    }
  }

  /**
   Once a batch is in the ledger it stays there with its first commit time, and however often its reference is
   delivered again, the Lake gains no more copies than the writers past the check at that moment could add.
   */
  lemma RedeliveryAddsNothingNew(before: seq<Event>, s: World, after: seq<Event>, t: World, id: string)
    requires Run(START, before, s) && Run(s, after, t) && id != "" && id in s.ledger
    ensures id in t.ledger && t.ledger[id] == s.ledger[id]
    ensures InLake(t, Ref(id)) <= InLake(s, Ref(id)) + LakeInsert.MAX_COPIES * Sum(s.writers, Claims, Ref(id))
    ensures Sum(s.writers, Claims, Ref(id)) == 0 ==> InLake(t, Ref(id)) == InLake(s, Ref(id))
  {
    AcceptedBatchesSurvive(START, before, s);
    RunPotential(s, after, t, id);
  }

  lemma {:induction false} RunExtend(s: World, events: seq<Event>, t: World, ev: Event)
    requires Run(s, events, t) && Can(t, ev)
    ensures Run(s, events + [ev], Step(t, ev))
    decreases |events|
  {
    if events == [] {
      assert events + [ev] == [ev];
      assert Run(Step(t, ev), ([ev])[1..], Step(t, ev));
    } else {
      assert (events + [ev])[1..] == events[1..] + [ev];
      RunExtend(Step(s, events[0]), events[1..], t, ev);
    }
  }

  /** Extends a run by one event. */
  lemma Then(events: seq<Event>, s: World, ev: Event) returns (events': seq<Event>, t: World)
    requires Run(START, events, s) && ListsSurvive(events) && Can(s, ev) && !ev.RedisLoss?
    ensures events' == events + [ev] && t == Step(s, ev)
    ensures Run(START, events', t) && ListsSurvive(events')
  {
    events', t := events + [ev], Step(s, ev);
    RunExtend(START, events, s, ev);
  }

  /** One writer takes the only waiting reference, finds it uncommitted, fetches it and inserts it. */
  lemma InsertOnce(events: seq<Event>, s: World) returns (events': seq<Event>, t: World)
    requires Run(START, events, s) && ListsSurvive(events)
    requires s.queue == [Ref("b")] && "b" in s.staged && s.ledger == map[] && s.writers == [IDLE]
    ensures Run(START, events', t) && ListsSurvive(events')
    ensures t.queue == [] && t.lake == s.lake + [Ref("b")]
    ensures t.staged == s.staged && t.ledger == map[] && |t.writers| == 1
  {
    events', t := Then(events, s, Work(0, Take(Done)));
    assert t.writers[0].task == Check(Ref("b"));
    events', t := Then(events', t, Work(0, LookUp(true)));
    events', t := Then(events', t, Work(0, Download(true)));
    assert t.writers[0].rest == [Ref("b")];
    assert Times([Ref("b")], 1) == [Ref("b")] + Times([Ref("b")], 0);
    events', t := Then(events', t, Work(0, Insert(1, true)));
  }

  /** The first delivery of batch "b" ends in a crash after the insert and before the mark. */
  lemma CrashBeforeMark() returns (events: seq<Event>, t: World)
    ensures Run(START, events, t) && ListsSurvive(events)
    ensures t.queue == [] && t.lake == [Ref("b")]
    ensures "b" in t.staged && t.ledger == map[] && t.writers == [IDLE]
  {
    events, t := Then([], START, Stage("b", Done));
    events, t := Then(events, t, Offer("b", Done));
    events, t := Then(events, t, Hire);
    events, t := InsertOnce(events, t);
    events, t := Then(events, t, Work(0, Crash));
    assert t.writers == [IDLE];
  }

  /** Not exactly once: the sweep then recovers the batch and a second copy is inserted. */
  lemma CrashBeforeMarkDuplicates() returns (events: seq<Event>, t: World)
    ensures Run(START, events, t) && ListsSurvive(events)
    ensures InLake(t, Ref("b")) == 2
  {
    events, t := CrashBeforeMark();
    events, t := Then(events, t, SpotLost("b"));
    events, t := Then(events, t, Recover("b", Done));
    assert t.queue == [Ref("b")];
    events, t := InsertOnce(events, t);
    assert t.lake == [Ref("b"), Ref("b")];
    assert Count([Ref("b")], Ref("b")) == 1;
  }
}
