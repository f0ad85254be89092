/**
 What recovery after a loss of the Redis lists achieves, with writers at work all the while. A writer that was about to
 remove an entry when the lists were lost may later remove the recovered reference instead, so it is not enough that a
 reference was pushed: there have to be more copies than pending removals.
 */
module IngestRecovery {
  import opened IngestQueue
  import opened IngestProtocol

  /** Committed, or listed more often than writers are about to remove it. */
  predicate Anchored(s: World, id: string) {
    id in s.ledger || Sum(s.writers, Removing, Ref(id)) < Listed(s, Ref(id))
  }

  /** Committed, or still staged and on one of the lists. */
  predicate Safe(s: World, id: string) {
    || (id in s.ledger && Ref(id) in s.lake)
    || (id in s.staged && (Ref(id) in s.queue || Ref(id) in s.processing))
  }

  // ---------- Anchored batches stay safe ----------

  lemma StepAnchored(s: World, ev: Event, id: string)
    requires Durable(s) && Anchored(s, id) && id != "" && Can(s, ev) && !ev.RedisLoss?
    ensures Anchored(Step(s, ev), id)
  {
    hide Weight, WorldSound, WriterSound;
    var t := Step(s, ev);
    match ev
    case Work(i, act) =>
      var w := s.writers[i];
      if id !in t.ledger {
        SumUpdate(s.writers, i, ActWriter(s, w, act), Removing, Ref(id));
        assert id !in s.ledger;
        ActReferenced(s, w, act, id, Sum(s.writers, Removing, Ref(id)) - Weight(w, Removing, Ref(id)), 1);
      }
    case Hire =>
      SumAppend(s.writers, IDLE, Removing, Ref(id));
      IdleRemovesNothing(id);
    case _ =>
  }

  lemma IdleRemovesNothing(id: string)
    ensures Weight(IDLE, Removing, Ref(id)) == 0
  {
  }

  lemma {:induction false} RunAnchored(s: World, events: seq<Event>, t: World, id: string)
    requires Durable(s) && Anchored(s, id) && id != "" && Run(s, events, t) && ListsSurvive(events)
    ensures Durable(t) && Anchored(t, id)
    decreases |events|
  {
    hide Durable, Anchored, Can, Step;
    if events != [] {
      StepDurable(s, events[0]);
      StepAnchored(s, events[0], id);
      assert ListsSurvive(events[1..]);
      RunAnchored(Step(s, events[0]), events[1..], t, id);
    }
  }

  lemma AnchoredIsSafe(s: World, id: string)
    requires Durable(s) && Anchored(s, id) && id != "" && id in s.used
    ensures Safe(s, id)
  {
    CountMember(s.queue, Ref(id));
    CountMember(s.processing, Ref(id));
  }

  /**
   A recovered batch is safe from then on: whatever came before, losses included, and whatever the writers do after,
   short of another loss, it is committed or staged and listed. The push needs to be carried out, even if its reply is
   lost, at a moment with no more removals of the reference pending than copies listed.
   */
  lemma RecoveryLasts(before: seq<Event>, s: World, id: string, r: Reply, after: seq<Event>, t: World)
    requires Run(START, before, s) && id != "" && Can(s, Recover(id, r)) && Applied(r)
    requires Sum(s.writers, Removing, Ref(id)) <= Listed(s, Ref(id))
    requires Run(Step(s, Recover(id, r)), after, t) && ListsSurvive(after)
    ensures Safe(t, id)
    ensures t.queue == [] && t.processing == [] ==> id in t.ledger && Ref(id) in t.lake
  {
    hide WriterSound;
    AcceptedBatchesSurvive(START, before, s);
    StepDurable(s, Recover(id, r));
    RunAnchored(Step(s, Recover(id, r)), after, t, id);
    UsedStays(Step(s, Recover(id, r)), after, t, id);
    AnchoredIsSafe(t, id);
  }

  lemma {:induction false} UsedStays(s: World, events: seq<Event>, t: World, id: string)
    requires Run(s, events, t) && id in s.used
    ensures id in t.used
    decreases |events|
  {
    if events != [] {
      UsedStays(Step(s, events[0]), events[1..], t, id);
    }
  }

  // ---------- Batches that are not anchored can be lost ----------

  /** Extends a run by one step. */
  lemma Extend(u: World, events: seq<Event>, s: World, ev: Event) returns (events': seq<Event>, t: World)
    requires Run(u, events, s) && ListsSurvive(events) && Durable(s) && Can(s, ev) && !ev.RedisLoss?
    ensures t == Step(s, ev) && Run(u, events', t) && ListsSurvive(events') && Durable(t)
  {
    events', t := events + [ev], Step(s, ev);
    RunExtend(u, events, s, ev);
    StepDurable(s, ev);
  }

  /** New writers take everything that waits: what is listed is then on the processing list. */
  lemma {:induction false} TakeAll(u: World, events: seq<Event>, s: World, id: string)
    returns (events': seq<Event>, t: World)
    requires Run(u, events, s) && ListsSurvive(events) && Durable(s) && id != ""
    ensures Run(u, events', t) && ListsSurvive(events') && Durable(t)
    ensures t.queue == [] && t.ledger == s.ledger && Listed(t, Ref(id)) == Listed(s, Ref(id))
    ensures Sum(t.writers, Removing, Ref(id)) == Sum(s.writers, Removing, Ref(id))
    decreases |s.queue|
  {
    hide Run, Durable, Weight, Count, ListsSurvive;
    events', t := events, s;
    if s.queue != [] {
      var n := |s.writers|;
      events', t := Extend(u, events, s, Hire);
      var w := ActWriter(t, IDLE, Take(Done));
      events', t := Extend(u, events', t, Work(n, Take(Done)));
      assert (s.writers + [IDLE])[n := w] == s.writers + [w];
      SumAppend(s.writers, w, Removing, Ref(id));
      TakenIsNotRemoved(s, id);
      events', t := TakeAll(u, events', t, id);
    }
  }

  lemma TakenIsNotRemoved(s: World, id: string)
    requires s.queue != [] && id != ""
    ensures Weight(ActWriter(s, IDLE, Take(Done)), Removing, Ref(id)) == 0
    ensures var n := |s.queue| - 1;
            Count(s.queue[..n], Ref(id)) + Count(LPush(s.processing, s.queue[n]), Ref(id)) == Listed(s, Ref(id))
  {
    CountLast(s.queue, Ref(id));
  }

  /** The pending removals are carried out. */
  lemma {:induction false} DropAll(u: World, events: seq<Event>, s: World, id: string)
    returns (events': seq<Event>, t: World)
    requires Run(u, events, s) && ListsSurvive(events) && Durable(s) && s.queue == []
    requires Listed(s, Ref(id)) <= Sum(s.writers, Removing, Ref(id))
    ensures Run(u, events', t) && ListsSurvive(events')
    ensures t.queue == [] && t.ledger == s.ledger && Listed(t, Ref(id)) == 0
    decreases Sum(s.writers, Removing, Ref(id))
  {
    hide Run, Durable, ListsSurvive;
    events', t := events, s;
    if Sum(s.writers, Removing, Ref(id)) > 0 {
      var j := SomeoneRemoving(s.writers, Ref(id));
      var w := s.writers[j];
      SumUpdate(s.writers, j, w.(task := Free), Removing, Ref(id));
      LRemCounts(s.processing, Ref(id), Ref(id));
      CountMember(s.processing, Ref(id));
      events', t := Extend(u, events, s, Work(j, Drop(Done)));
      events', t := DropAll(u, events', t, id);
    }
  }

  lemma {:induction false} SomeoneRemoving(ws: seq<Writer>, e: Raw) returns (j: nat)
    requires Sum(ws, Removing, e) > 0
    ensures j < |ws| && ws[j].task == Remove(e)
  {
    if ws[0].task == Remove(e) {
      j := 0;
    } else {
      j := SomeoneRemoving(ws[1..], e);
      j := j + 1;
    }
  }

  lemma UnanchoredCanBeLost(before: seq<Event>, s: World, id: string) returns (after: seq<Event>, t: World)
    requires Run(START, before, s) && id != "" && !Anchored(s, id)
    ensures Run(s, after, t) && ListsSurvive(after) && !Safe(t, id)
  {
    hide Run, Durable, Weight, ListsSurvive;
    EmptyRun(s);
    StartIsDurable();
    AcceptedBatchesSurvive(START, before, s);
    after, t := TakeAll(s, [], s, id);
    after, t := DropAll(s, after, t, id);
    CountMember(t.processing, Ref(id));
  }

  lemma EmptyRun(s: World)
    ensures Run(s, [], s) && ListsSurvive([])
  {
  }

  lemma StartIsDurable()
    ensures Durable(START)
  {
  }

  /** So a staged batch is out of danger exactly when it is anchored. */
  lemma AnchoredIff(before: seq<Event>, s: World, id: string)
    requires Run(START, before, s) && id != "" && id in s.used
    ensures Anchored(s, id) <==> forall after, t :: Run(s, after, t) && ListsSurvive(after) ==> Safe(t, id)
  {
    hide Run, ListsSurvive, Safe, Anchored, Durable;
    StartIsDurable();
    AcceptedBatchesSurvive(START, before, s);
    if Anchored(s, id) {
      forall after, t | Run(s, after, t) && ListsSurvive(after)
        ensures Safe(t, id)
      {
        RunAnchored(s, after, t, id);
        UsedStays(s, after, t, id);
        AnchoredIsSafe(t, id);
      }
    } else {
      var after, t := UnanchoredCanBeLost(before, s, id);
    }
  }
}
