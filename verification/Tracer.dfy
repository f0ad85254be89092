/**
 The manual tracer of the TypeScript SDK (sdk/ts/src/tracer.ts): spans wait in a pending list until an export that
 contains them reports success. A flush is two steps, before and after it awaits the exporter, and any calls may
 happen in between. Generated ids are parameters, distinct from every id used before.
 */
module Tracer {
  import opened Wrappers

  /** `info` holds the descriptive fields (name, kind, model, input, tokens, attributes and so on) by field name. */
  datatype Span = Span(id: string, trace: string, parent: Option<string>, endTime: Option<int>,
                       info: map<string, string>)

  /** What a flush has handed to the exporter and is waiting for. */
  datatype Export = Export(spans: seq<Span>)

  /** An absent and an empty parent id both mean that there is no parent. */
  predicate HasParent(parent: Option<string>) {
    parent.Some? && parent.value != ""
  }

  // ---------- The pending list ----------

  /** The first pending span with the id, as a list of at most one. */
  function Find(pending: seq<Span>, id: string): (r: Option<Span>)
    ensures r.Some? ==> r.value in pending && r.value.id == id
    ensures r.None? ==> forall s :: s in pending ==> s.id != id
  {
    if pending == [] then None
    else if pending[0].id == id then Some(pending[0])
    else Find(pending[1..], id)
  }

  /** The list with the first span of that id replaced by `f` of it. */
  function Amend(pending: seq<Span>, id: string, f: Span -> Span): seq<Span> {
    if pending == [] then []
    else if pending[0].id == id then [f(pending[0])] + pending[1..]
    else [pending[0]] + Amend(pending[1..], id, f)
  }

  function EndedOf(pending: seq<Span>): seq<Span> {
    if pending == [] then []
    else (if pending[0].endTime.Some? then [pending[0]] else []) + EndedOf(pending[1..])
  }

  function Ids(spans: seq<Span>): set<string> {
    set s | s in spans :: s.id
  }

  /** The list without the spans whose id is in `ids`. */
  function Without(pending: seq<Span>, ids: set<string>): seq<Span> {
    if pending == [] then []
    else (if pending[0].id in ids then [] else [pending[0]]) + Without(pending[1..], ids)
  }

  predicate DistinctIds(spans: seq<Span>) {
    forall k, l :: 0 <= k < l < |spans| ==> spans[k].id != spans[l].id
  }

  // ---------- Trace ids through the chain of parents ----------

  /** The loop of `findTraceId` with `steps` rounds left; `None` where it generates a new trace id. */
  function TraceWithin(pending: seq<Span>, id: string, steps: nat): Option<string>
    decreases steps
  {
    if steps == 0 then None
    else
      var tracked := Find(pending, id);
      if tracked.None? then None
      else if !HasParent(tracked.value.parent) then Some(tracked.value.trace)
      else TraceWithin(pending, tracked.value.parent.value, steps - 1)
  }

  function FindTrace(pending: seq<Span>, id: string): Option<string> {
    TraceWithin(pending, id, |pending|)
  }

  /** `path` climbs from `id` through pending parents to a parentless span. */
  ghost predicate Climbs(pending: seq<Span>, id: string, path: seq<Span>) {
    && path != [] && path[0].id == id
    && (forall k :: 0 <= k < |path| ==> Find(pending, path[k].id) == Some(path[k]))
    && (forall k :: 0 <= k < |path| - 1 ==> HasParent(path[k].parent) && path[k].parent.value == path[k + 1].id)
    && !HasParent(path[|path| - 1].parent)
  }

  /** A climb never meets the same span twice: from there it would go round for ever. */
  lemma {:induction false} ClimbNoRepeat(pending: seq<Span>, id: string, path: seq<Span>, a: nat, b: nat)
    requires Climbs(pending, id, path) && a < b < |path|
    ensures path[a].id != path[b].id
    decreases |path| - b
  {
    if path[a].id == path[b].id {
      assert path[a] == path[b];
      if b < |path| - 1 {
        ClimbNoRepeat(pending, id, path, a + 1, b + 1);
      }
      assert false;
    }
  }

  lemma {:induction false} DistinctFit(path: seq<Span>, ids: set<string>)
    requires DistinctIds(path) && forall k :: 0 <= k < |path| ==> path[k].id in ids
    ensures |path| <= |ids|
  {
    if path != [] {
      var n := |path| - 1;
      DistinctFit(path[..n], ids - {path[n].id});
    }
  }

  lemma {:induction false} IdsFit(spans: seq<Span>)
    ensures |Ids(spans)| <= |spans|
  {
    if spans == [] {
      assert Ids(spans) == {};
    } else {
      IdsFit(spans[1..]);
      assert Ids(spans) == {spans[0].id} + Ids(spans[1..]);
    }
  }

  lemma ClimbFits(pending: seq<Span>, id: string, path: seq<Span>)
    requires Climbs(pending, id, path)
    ensures |path| <= |pending|
  {
    forall a, b | 0 <= a < b < |path| ensures path[a].id != path[b].id {
      ClimbNoRepeat(pending, id, path, a, b);
    }
    forall k | 0 <= k < |path| ensures path[k].id in Ids(pending) {
      assert Find(pending, path[k].id).Some?;
    }
    DistinctFit(path, Ids(pending));
    IdsFit(pending);
  }

  lemma {:induction false} ClimbFound(pending: seq<Span>, id: string, path: seq<Span>, steps: nat)
    requires Climbs(pending, id, path) && |path| <= steps
    ensures TraceWithin(pending, id, steps) == Some(path[|path| - 1].trace)
    decreases steps
  {
    if |path| > 1 {
      ClimbFound(pending, path[1].id, path[1..], steps - 1);
    }
  }

  lemma {:induction false} FoundClimbs(pending: seq<Span>, id: string, steps: nat) returns (path: seq<Span>)
    requires TraceWithin(pending, id, steps).Some?
    ensures Climbs(pending, id, path) && TraceWithin(pending, id, steps) == Some(path[|path| - 1].trace)
    decreases steps
  {
    var span := Find(pending, id).value;
    if HasParent(span.parent) {
      var rest := FoundClimbs(pending, span.parent.value, steps - 1);
      path := [span] + rest;
    } else {
      path := [span];
    }
  }

  /**
   An existing trace id is returned exactly when the chain of parents inside the pending list ends at a parentless
   span, and it is that span's; the loop bound is always enough.
   */
  lemma TraceIffClimb(pending: seq<Span>, id: string, trace: string)
    ensures FindTrace(pending, id) == Some(trace)
       <==> exists path: seq<Span> :: Climbs(pending, id, path) && path[|path| - 1].trace == trace
  {
    if FindTrace(pending, id) == Some(trace) {
      var path := FoundClimbs(pending, id, |pending|);
    }
    forall path: seq<Span> | Climbs(pending, id, path) && path[|path| - 1].trace == trace
      ensures FindTrace(pending, id) == Some(trace)
    {
      ClimbFits(pending, id, path);
      ClimbFound(pending, id, path, |pending|);
    }
  }

  // ---------- The tracer as a step system ----------

  /** What a span was started with; `order` counts the spans started before it. */
  datatype Birth = Birth(trace: string, parent: Option<string>, order: nat)

  datatype State = State(
    pending: seq<Span>,
    started: map<string, Birth>, // every span ever started, by id
    ended: set<string>,          // ids of spans that `endSpan` found
    delivered: set<string>,      // ids in exports that reported success
    waiting: seq<Export>)        // flushes that await their exporter

  const EMPTY := State([], map[], {}, {}, [])

  datatype Event =
    | Start(id: string, freshTrace: string, parent: Option<string>, info: map<string, string>)
    | End(id: string, now: int, info: map<string, string>)
    | Annotate(id: string, field: string, value: string)
    | BeginFlush
    | FinishFlush(k: nat, success: bool)

  predicate Can(s: State, ev: Event) {
    match ev
    case Start(id, _, _, _) => id != "" && id !in s.started
    case FinishFlush(k, _) => k < |s.waiting|
    case _ => true
  }

  function TraceFor(pending: seq<Span>, parent: Option<string>, freshTrace: string): string {
    if !HasParent(parent) then freshTrace
    else
      var found := FindTrace(pending, parent.value);
      if found.Some? then found.value else freshTrace
  }

  /** `endSpan` sets the output afresh and merges the attributes. */
  function Close(span: Span, now: int, info: map<string, string>): Span {
    span.(endTime := Some(now), info := (span.info - {"output"}) + info)
  }

  function Noted(span: Span, field: string, value: string): Span {
    span.(info := span.info[field := value])
  }

  function Step(s: State, ev: Event): State
    requires Can(s, ev)
  {
    match ev
    case Start(id, freshTrace, parent, info) =>
      var trace := TraceFor(s.pending, parent, freshTrace);
      s.(pending := s.pending + [Span(id, trace, parent, None, info)],
         started := s.started[id := Birth(trace, parent, |s.started|)])
    case End(id, now, info) =>
      if Find(s.pending, id).None? then s
      else s.(pending := Amend(s.pending, id, span => Close(span, now, info)), ended := s.ended + {id})
    case Annotate(id, field, value) =>
      s.(pending := Amend(s.pending, id, span => Noted(span, field, value)))
    case BeginFlush =>
      if EndedOf(s.pending) == [] then s else s.(waiting := s.waiting + [Export(EndedOf(s.pending))])
    case FinishFlush(k, success) =>
      var ids := Ids(s.waiting[k].spans);
      var left := s.waiting[..k] + s.waiting[k + 1..];
      if success then s.(pending := Without(s.pending, ids), delivered := s.delivered + ids, waiting := left)
      else s.(waiting := left)
  }

  ghost predicate Run(s: State, events: seq<Event>, t: State)
    decreases |events|
  {
    if events == [] then s == t
    else Can(s, events[0]) && Run(Step(s, events[0]), events[1..], t)
  }

  // ---------- No span is lost ----------

  /** What a pending span has to agree with. */
  ghost predicate Recorded(started: map<string, Birth>, ended: set<string>, span: Span) {
    && span.id in started
    && span.trace == started[span.id].trace && span.parent == started[span.id].parent
    && (span.endTime.Some? <==> span.id in ended)
  }

  ghost predicate Safe(s: State) {
    && DistinctIds(s.pending)
    && (forall span :: span in s.pending ==> Recorded(s.started, s.ended, span))
    // Every started span is pending or delivered, never both; until it has ended it is pending.
    && (forall id :: id in s.started ==> (id in Ids(s.pending) <==> id !in s.delivered))
    && s.delivered <= s.ended <= s.started.Keys
    // Exports carry ended spans only.
    && (forall x, span :: x in s.waiting && span in x.spans ==> span.endTime.Some? && span.id in s.ended)
  }

  lemma {:induction false} AmendFacts(pending: seq<Span>, id: string, f: Span -> Span)
    requires forall span: Span :: f(span).id == span.id && f(span).trace == span.trace && f(span).parent == span.parent
    ensures var after := Amend(pending, id, f);
            && |after| == |pending|
            && (forall k :: 0 <= k < |pending| ==>
                  after[k] == pending[k] || (pending[k].id == id && after[k] == f(pending[k])))
            && (DistinctIds(pending) ==>
                  forall k :: 0 <= k < |pending| && pending[k].id == id ==> after[k] == f(pending[k]))
  {
    if pending != [] && pending[0].id != id {
      AmendFacts(pending[1..], id, f);
    }
  }

  lemma {:induction false} EndedFacts(pending: seq<Span>)
    ensures forall span :: span in EndedOf(pending) <==> span in pending && span.endTime.Some?
  {
    if pending != [] {
      EndedFacts(pending[1..]);
    }
  }

  lemma {:induction false} WithoutFacts(pending: seq<Span>, ids: set<string>)
    ensures forall span :: span in Without(pending, ids) <==> span in pending && span.id !in ids
    ensures DistinctIds(pending) ==> DistinctIds(Without(pending, ids))
  {
    if pending != [] {
      WithoutFacts(pending[1..], ids);
      if DistinctIds(pending) {
        assert DistinctIds(pending[1..]);
        assert forall span :: span in Without(pending[1..], ids) ==> span.id != pending[0].id;
      }
    }
  }

  lemma AmendIds(pending: seq<Span>, id: string, f: Span -> Span)
    requires forall span: Span :: f(span).id == span.id && f(span).trace == span.trace && f(span).parent == span.parent
    ensures Ids(Amend(pending, id, f)) == Ids(pending)
  {
    var after := Amend(pending, id, f);
    AmendFacts(pending, id, f);
    forall x | x in Ids(after) ensures x in Ids(pending) {
      var k :| 0 <= k < |after| && after[k].id == x;
      assert pending[k] in pending && pending[k].id == x;
    }
    forall x | x in Ids(pending) ensures x in Ids(after) {
      var k :| 0 <= k < |pending| && pending[k].id == x;
      assert after[k] in after && after[k].id == x;
    }
  }

  lemma AmendDistinct(pending: seq<Span>, id: string, f: Span -> Span)
    requires forall span: Span :: f(span).id == span.id && f(span).trace == span.trace && f(span).parent == span.parent
    requires DistinctIds(pending)
    ensures DistinctIds(Amend(pending, id, f))
  {
    AmendFacts(pending, id, f);
    assert forall k :: 0 <= k < |pending| ==> Amend(pending, id, f)[k].id == pending[k].id;
  }

  /** One amended span, before and after. */
  lemma AmendRecorded(s: State, id: string, f: Span -> Span, ended: set<string>, before: Span, after: Span)
    requires forall span: Span :: f(span).id == span.id && f(span).trace == span.trace && f(span).parent == span.parent
    requires || (ended == s.ended && forall span: Span :: f(span).endTime == span.endTime)
             || (ended == s.ended + {id} && forall span: Span :: f(span).endTime.Some?)
    requires Recorded(s.started, s.ended, before)
    requires if before.id == id then after == f(before) else after == before
    ensures Recorded(s.started, ended, after)
  {
  }

  lemma PendingWasStarted(s: State)
    requires Safe(s)
    ensures Ids(s.pending) <= s.started.Keys
  {
    hide DistinctIds;
  }

  lemma AmendSafe(s: State, id: string, f: Span -> Span, ended: set<string>)
    requires Safe(s)
    requires forall span: Span :: f(span).id == span.id && f(span).trace == span.trace && f(span).parent == span.parent
    requires || (ended == s.ended && forall span: Span :: f(span).endTime == span.endTime)
             || (ended == s.ended + {id} && id in Ids(s.pending) && forall span: Span :: f(span).endTime.Some?)
    ensures Safe(s.(pending := Amend(s.pending, id, f), ended := ended))
  {
    hide Amend, DistinctIds, Recorded;
    var after := Amend(s.pending, id, f);
    AmendFacts(s.pending, id, f);
    AmendIds(s.pending, id, f);
    AmendDistinct(s.pending, id, f);
    PendingWasStarted(s);
    forall k | 0 <= k < |after|
      ensures Recorded(s.started, ended, after[k])
    {
      assert s.pending[k] in s.pending;
      AmendRecorded(s, id, f, ended, s.pending[k], after[k]);
    }
  }

  lemma StartSafe(s: State, ev: Event)
    requires Safe(s) && Can(s, ev) && ev.Start?
    ensures Safe(Step(s, ev))
  {
    assert Ids(Step(s, ev).pending) == Ids(s.pending) + {ev.id};
  }

  lemma FinishSafe(s: State, ev: Event)
    requires Safe(s) && Can(s, ev) && ev.FinishFlush?
    ensures Safe(Step(s, ev))
  {
    WithoutFacts(s.pending, Ids(s.waiting[ev.k].spans));
    assert s.waiting[ev.k] in s.waiting;
  }

  lemma StepSafe(s: State, ev: Event)
    requires Safe(s) && Can(s, ev)
    ensures Safe(Step(s, ev))
  {
    match ev
    case Start(_, _, _, _) => StartSafe(s, ev);
    case End(id, now, info) =>
      if Find(s.pending, id).Some? {
        assert id in Ids(s.pending);
        AmendSafe(s, id, span => Close(span, now, info), s.ended + {id});
      }
    case Annotate(id, field, value) => AmendSafe(s, id, span => Noted(span, field, value), s.ended);
    case BeginFlush => EndedFacts(s.pending);
    case FinishFlush(_, _) => FinishSafe(s, ev);
  }

  lemma {:induction false} RunSafe(s: State, events: seq<Event>, t: State)
    requires Safe(s) && Run(s, events, t)
    ensures Safe(t) && s.started.Keys <= t.started.Keys && s.ended <= t.ended
    decreases |events|
  {
    if events != [] {
      StepSafe(s, events[0]);
      RunSafe(Step(s, events[0]), events[1..], t);
    }
  }

  /**
   However calls are interleaved with waiting flushes, every started span is pending or was in an export that reported
   success, and a span that has not ended is pending, in no export and not delivered.
   */
  lemma NoSpanLost(events: seq<Event>, t: State)
    requires Run(EMPTY, events, t)
    ensures forall id :: id in t.started ==> (id in Ids(t.pending) <==> id !in t.delivered)
    ensures forall id :: id in t.started && id !in t.ended ==>
              && id in Ids(t.pending) && id !in t.delivered
              && forall x, span :: x in t.waiting && span in x.spans ==> span.id != id
  {
    RunSafe(EMPTY, events, t);
  }

  /** A flush hands over every span that has ended, as it is at that moment. */
  lemma FlushTakesEveryEnded(s: State, events: seq<Event>)
    requires Run(EMPTY, events, s)
    ensures var t := Step(s, BeginFlush);
            if exists span :: span in s.pending && span.endTime.Some? then
              && |t.waiting| == |s.waiting| + 1
              && forall span :: span in t.waiting[|s.waiting|].spans <==> span in s.pending && span.endTime.Some?
            else t == s
  {
    EndedFacts(s.pending);
    if EndedOf(s.pending) != [] {
      assert EndedOf(s.pending)[0] in EndedOf(s.pending);
    }
  }

  /** A span started while an export is under way survives that export's completion unchanged. */
  lemma StartedMeanwhileSurvives(before: seq<Event>, s: State, x: Export, after: seq<Event>, t: State, k: nat,
                                 success: bool, span: Span)
    requires Run(EMPTY, before, s) && x in s.waiting
    requires Run(s, after, t) && k < |t.waiting| && t.waiting[k] == x
    requires span in t.pending && span.id !in s.started
    ensures span in Step(t, FinishFlush(k, success)).pending
  {
    RunSafe(EMPTY, before, s);
    RunSafe(s, after, t);
    WithoutFacts(t.pending, Ids(x.spans));
    assert Ids(x.spans) <= s.ended;
  }

  // ---------- What a delivered span leaves out ----------

  /** A span after a call that may concern it. */
  function AfterCall(span: Span, ev: Event): Span {
    match ev
    case End(id, now, info) => if id == span.id then Close(span, now, info) else span
    case Annotate(id, field, value) => if id == span.id then Noted(span, field, value) else span
    case _ => span
  }

  function Later(span: Span, events: seq<Event>): Span
    decreases |events|
  {
    if events == [] then span else Later(AfterCall(span, events[0]), events[1..])
  }

  predicate Untouched(events: seq<Event>, id: string) {
    forall ev :: ev in events ==> !(ev.End? && ev.id == id) && !(ev.Annotate? && ev.id == id)
  }

  lemma {:induction false} UntouchedStays(span: Span, events: seq<Event>)
    requires Untouched(events, span.id)
    ensures Later(span, events) == span
  {
    if events != [] {
      assert events[0] in events;
      UntouchedStays(span, events[1..]);
    }
  }

  lemma AmendAt(pending: seq<Span>, id: string, f: Span -> Span, span: Span)
    requires forall span: Span :: f(span).id == span.id && f(span).trace == span.trace && f(span).parent == span.parent
    requires DistinctIds(pending) && span in pending
    ensures (if span.id == id then f(span) else span) in Amend(pending, id, f)
  {
    hide Amend, DistinctIds;
    AmendFacts(pending, id, f);
    var k :| 0 <= k < |pending| && pending[k] == span;
    assert Amend(pending, id, f)[k] in Amend(pending, id, f);
  }

  lemma StepOnSpan(s: State, ev: Event, span: Span)
    requires Safe(s) && Can(s, ev) && span in s.pending
    ensures AfterCall(span, ev) in Step(s, ev).pending || span.id in Step(s, ev).delivered
  {
    hide Amend, Without, Close, Noted;
    match ev
    case End(id, now, info) => AmendClose(s, id, now, info, span);
    case Annotate(id, field, value) => AmendNote(s, id, field, value, span);
    case FinishFlush(k, _) => WithoutFacts(s.pending, Ids(s.waiting[k].spans));
    case _ =>
  }

  lemma AmendClose(s: State, id: string, now: int, info: map<string, string>, span: Span)
    requires Safe(s) && span in s.pending
    ensures AfterCall(span, End(id, now, info)) in Step(s, End(id, now, info)).pending
  {
    AmendAt(s.pending, id, span => Close(span, now, info), span);
  }

  lemma AmendNote(s: State, id: string, field: string, value: string, span: Span)
    requires Safe(s) && span in s.pending
    ensures AfterCall(span, Annotate(id, field, value)) in Step(s, Annotate(id, field, value)).pending
  {
    AmendAt(s.pending, id, span => Noted(span, field, value), span);
  }

  lemma {:induction false} RunOnSpan(s: State, events: seq<Event>, t: State, span: Span)
    requires Safe(s) && Run(s, events, t) && (span in s.pending || span.id in s.delivered)
    ensures Later(span, events) in t.pending || span.id in t.delivered
    decreases |events|
  {
    hide Safe, Can, Step;
    if events != [] {
      StepSafe(s, events[0]);
      if span in s.pending {
        StepOnSpan(s, events[0], span);
      } else {
        DeliveredStays(s, events[0], span.id);
      }
      assert AfterCall(span, events[0]).id == span.id;
      RunOnSpan(Step(s, events[0]), events[1..], t, AfterCall(span, events[0]));
    }
  }

  lemma DeliveredStays(s: State, ev: Event, id: string)
    requires Can(s, ev) && id in s.delivered
    ensures id in Step(s, ev).delivered
  {
  }

  /**
   What an export delivers of a span misses exactly the calls made for it while the export was under way: when it
   succeeds, the span leaves the pending list for good as those calls made it, unless another export delivered it
   first. So the delivered value is the span's last one exactly when the calls change nothing, as when there are none.
   */
  lemma DeliveredIsLastIff(before: seq<Event>, s: State, span: Span, during: seq<Event>, t: State, k: nat)
    requires Run(EMPTY, before, s) && span in s.pending && span.endTime.Some?
    requires Run(Step(s, BeginFlush), during, t) && k < |t.waiting| && t.waiting[k] == Export(EndedOf(s.pending))
    ensures span in t.waiting[k].spans
    ensures span.id in t.delivered || Find(t.pending, span.id) == Some(Later(span, during))
    ensures span.id !in t.delivered ==> (Find(t.pending, span.id) == Some(span) <==> Later(span, during) == span)
    ensures Untouched(during, span.id) ==> Later(span, during) == span
    ensures var u := Step(t, FinishFlush(k, true));
            span.id in u.delivered && Find(u.pending, span.id) == None
  {
    hide Safe, Untouched, Later, DistinctIds, EndedOf, Without, Find;
    RunSafe(EMPTY, before, s);
    EndedFacts(s.pending);
    StepSafe(s, BeginFlush);
    RunOnSpan(Step(s, BeginFlush), during, t, span);
    RunSafe(Step(s, BeginFlush), during, t);
    LaterId(span, during);
    if Later(span, during) in t.pending {
      FindOnly(t, Later(span, during));
    }
    if Untouched(during, span.id) {
      UntouchedStays(span, during);
    }
    WithoutFacts(t.pending, Ids(EndedOf(s.pending)));
  }

  lemma {:induction false} LaterId(span: Span, events: seq<Event>)
    ensures Later(span, events).id == span.id
    decreases |events|
  {
    if events != [] {
      LaterId(AfterCall(span, events[0]), events[1..]);
    }
  }

  lemma FindOnly(s: State, span: Span)
    requires Safe(s) && span in s.pending
    ensures Find(s.pending, span.id) == Some(span)
  {
  }

  lemma FourSteps(s: State, a: Event, b: Event, c: Event, d: Event)
    requires Can(s, a) && Can(Step(s, a), b) && Can(Step(Step(s, a), b), c) && Can(Step(Step(Step(s, a), b), c), d)
    ensures Run(s, [a, b, c, d], Step(Step(Step(Step(s, a), b), c), d))
  {
    hide Can, Step;
    var s1, s2, s3 := Step(s, a), Step(Step(s, a), b), Step(Step(Step(s, a), b), c);
    assert [a, b, c, d][1..] == [b, c, d] && [b, c, d][1..] == [c, d] && [c, d][1..] == [d] && [d][1..] == [];
    assert Run(s3, [d], Step(s3, d));
    assert Run(s2, [c, d], Step(s3, d));
  }

  lemma OneEnded(id: string, trace: string, now: int) returns (s: State)
    requires id != ""
    ensures Can(EMPTY, Start(id, trace, None, map[]))
    ensures s == Step(Step(EMPTY, Start(id, trace, None, map[])), End(id, now, map[]))
    ensures s.pending == [Span(id, trace, None, Some(now), map[])] == EndedOf(s.pending) && s.waiting == []
  {
    var s1 := Step(EMPTY, Start(id, trace, None, map[]));
    assert s1.pending == [Span(id, trace, None, None, map[])];
    s := Step(s1, End(id, now, map[]));
    var none: map<string, string> := map[];
    assert (none - {"output"}) + none == none;
    assert EndedOf(s.pending[1..]) == [];
  }

  /** A setter called while the export is under way: the span is gone, and its export does not have the value. */
  lemma LateCallIsLost(id: string, trace: string, now: int, field: string, value: string) returns (t: State)
    requires id != ""
    ensures var events := [Start(id, trace, None, map[]), End(id, now, map[]), BeginFlush, Annotate(id, field, value)];
            var sent := Span(id, trace, None, Some(now), map[]);
            && Run(EMPTY, events, t) && t.waiting == [Export([sent])]
            && t.pending == [Noted(sent, field, value)] != [sent]
            && Step(t, FinishFlush(0, true)).pending == []
  {
    var sent := Span(id, trace, None, Some(now), map[]);
    var s := OneEnded(id, trace, now);
    FourSteps(EMPTY, Start(id, trace, None, map[]), End(id, now, map[]), BeginFlush, Annotate(id, field, value));
    t := Step(Step(s, BeginFlush), Annotate(id, field, value));
    assert t.pending == [Noted(sent, field, value)] + [];
    assert field in Noted(sent, field, value).info;
    assert sent in [sent] && id in Ids([sent]);
    assert Without(t.pending[1..], Ids([sent])) == [];
  }

  /** Two flushes that overlap export the same span twice. */
  lemma OverlapExportsTwice(id: string, trace: string, now: int) returns (t: State)
    requires id != ""
    ensures Run(EMPTY, [Start(id, trace, None, map[]), End(id, now, map[]), BeginFlush, BeginFlush], t)
    ensures var sent := Export([Span(id, trace, None, Some(now), map[])]);
            t.waiting == [sent, sent]
  {
    var s := OneEnded(id, trace, now);
    t := Step(Step(s, BeginFlush), BeginFlush);
    FourSteps(EMPTY, Start(id, trace, None, map[]), End(id, now, map[]), BeginFlush, BeginFlush);
  }

  // ---------- Children share their root's trace ----------

  /** Spans start as roots or under a started span that has not ended, and end after all their children. */
  ghost predicate Disciplined(s: State, ev: Event) {
    match ev
    case Start(_, _, parent, _) => HasParent(parent) ==> parent.value in s.started && parent.value !in s.ended
    case End(id, _, _) =>
      forall c :: c in s.started && HasParent(s.started[c].parent) && s.started[c].parent.value == id ==> c in s.ended
    case _ => true
  }

  ghost predicate DisciplinedRun(s: State, events: seq<Event>, t: State)
    decreases |events|
  {
    if events == [] then s == t
    else Can(s, events[0]) && Disciplined(s, events[0]) && DisciplinedRun(Step(s, events[0]), events[1..], t)
  }

  /** The parent of a child is an earlier span with the same trace that ends no sooner. */
  ghost predicate ParentFits(s: State, id: string)
    requires id in s.started
  {
    var b := s.started[id];
    HasParent(b.parent) ==>
      && b.parent.value in s.started
      && s.started[b.parent.value].order < b.order
      && s.started[b.parent.value].trace == b.trace
      && (b.parent.value in s.ended ==> id in s.ended)
  }

  ghost predicate Traced(s: State) {
    Safe(s) && forall id :: id in s.started ==> s.started[id].order < |s.started| && ParentFits(s, id)
  }

  /** A span that has not ended is pending, with the fields it was started with. */
  lemma PendingOf(s: State, id: string) returns (span: Span)
    requires Safe(s) && id in s.started && id !in s.ended
    ensures Find(s.pending, id) == Some(span)
    ensures span.trace == s.started[id].trace && span.parent == s.started[id].parent
  {
    assert id in Ids(s.pending);
    span := Find(s.pending, id).value;
  }

  /** From a span that has not ended the chain of parents is pending up to the root. */
  lemma {:induction false} ClimbFrom(s: State, id: string) returns (path: seq<Span>)
    requires Traced(s) && id in s.started && id !in s.ended
    ensures Climbs(s.pending, id, path) && path[|path| - 1].trace == s.started[id].trace
    decreases s.started[id].order
  {
    var span := PendingOf(s, id);
    path := [span];
    if HasParent(s.started[id].parent) {
      assert ParentFits(s, id);
      var rest := ClimbFrom(s, s.started[id].parent.value);
      path := [span] + rest;
    }
  }

  lemma StepTraced(s: State, ev: Event)
    requires Traced(s) && Can(s, ev) && Disciplined(s, ev)
    ensures Traced(Step(s, ev))
  {
    StepSafe(s, ev);
    var t := Step(s, ev);
    if ev.Start? {
      if HasParent(ev.parent) {
        var path := ClimbFrom(s, ev.parent.value);
        TraceIffClimb(s.pending, ev.parent.value, s.started[ev.parent.value].trace);
      }
      assert |t.started| == |s.started| + 1;
    }
    forall id | id in t.started ensures t.started[id].order < |t.started| && ParentFits(t, id) {
      if id in s.started {
        assert ParentFits(s, id);
      }
    }
  }

  lemma {:induction false} RunTraced(s: State, events: seq<Event>, t: State)
    requires Traced(s) && DisciplinedRun(s, events, t)
    ensures Traced(t)
    decreases |events|
  {
    if events != [] {
      StepTraced(s, events[0]);
      RunTraced(Step(s, events[0]), events[1..], t);
    }
  }

  /** `path` leads from a span over parent ids to a parentless span, whether pending or not. */
  ghost predicate Ancestry(started: map<string, Birth>, path: seq<string>) {
    && path != [] && (forall k :: 0 <= k < |path| ==> path[k] in started)
    && (forall k :: 0 <= k < |path| - 1 ==>
          HasParent(started[path[k]].parent) && started[path[k]].parent.value == path[k + 1])
    && !HasParent(started[path[|path| - 1]].parent)
  }

  lemma {:induction false} AncestryOf(s: State, id: string) returns (path: seq<string>)
    requires Traced(s) && id in s.started
    ensures Ancestry(s.started, path) && path[0] == id
    ensures s.started[path[|path| - 1]].trace == s.started[id].trace
    decreases s.started[id].order
  {
    path := [id];
    if HasParent(s.started[id].parent) {
      assert ParentFits(s, id);
      var rest := AncestryOf(s, s.started[id].parent.value);
      path := [id] + rest;
    }
  }

  /** In a disciplined run every span descends from a root and carries that root's trace id. */
  lemma EverySpanHasItsRootsTrace(events: seq<Event>, t: State, id: string)
    requires DisciplinedRun(EMPTY, events, t) && id in t.started
    ensures exists path :: Ancestry(t.started, path) && path[0] == id
              && t.started[path[|path| - 1]].trace == t.started[id].trace
  {
    RunTraced(EMPTY, events, t);
    var path := AncestryOf(t, id);
  }

  // ---------- The trace id a span starts with ----------

  /**
   What a `startSpan` sets lasts: without a parent the span has the fresh trace id of its own start, and so it has if no
   chain of pending parents leads from its parent to a parentless span; if one does, it has that span's trace id.
   */
  lemma TraceOfStart(before: seq<Event>, s: State, id: string, freshTrace: string, parent: Option<string>,
                     info: map<string, string>, after: seq<Event>, t: State)
    requires Run(EMPTY, before, s) && Can(s, Start(id, freshTrace, parent, info))
    requires Run(Step(s, Start(id, freshTrace, parent, info)), after, t)
    ensures id in t.started && t.started[id].parent == parent
    ensures Span(id, t.started[id].trace, parent, None, info) in Step(s, Start(id, freshTrace, parent, info)).pending
    ensures parent == None || parent == Some("") ==> t.started[id].trace == freshTrace
    ensures parent.Some? && (forall path :: !Climbs(s.pending, parent.value, path)) ==>
              t.started[id].trace == freshTrace
    ensures forall path: seq<Span> :: parent.Some? && parent.value != "" && Climbs(s.pending, parent.value, path) ==>
              t.started[id].trace == path[|path| - 1].trace
    ensures forall span :: span in t.pending && span.id == id ==>
              span.trace == t.started[id].trace && span.parent == parent
  {
    hide Climbs, TraceFor, Safe;
    var ev := Start(id, freshTrace, parent, info);
    RunSafe(EMPTY, before, s);
    StepSafe(s, ev);
    RunSafe(Step(s, ev), after, t);
    BirthStays(Step(s, ev), after, t, id);
    TraceChosen(s.pending, parent, freshTrace);
    SafeRecords(t);
  }

  lemma SafeRecords(s: State)
    requires Safe(s)
    ensures forall span :: span in s.pending ==> Recorded(s.started, s.ended, span)
  {
  }

  lemma TraceChosen(pending: seq<Span>, parent: Option<string>, freshTrace: string)
    ensures var trace := TraceFor(pending, parent, freshTrace);
            && (parent == None || parent == Some("") ==> trace == freshTrace)
            && (parent.Some? && (forall path :: !Climbs(pending, parent.value, path)) ==> trace == freshTrace)
            && (forall path: seq<Span> :: parent.Some? && parent.value != "" && Climbs(pending, parent.value, path) ==>
                  trace == path[|path| - 1].trace)
  {
    hide FindTrace, Climbs;
    if parent.Some? {
      if FindTrace(pending, parent.value).Some? {
        PathOfTrace(pending, parent.value);
      }
      forall path: seq<Span> | Climbs(pending, parent.value, path)
        ensures path != [] && FindTrace(pending, parent.value) == Some(path[|path| - 1].trace)
      {
        ClimbIsFound(pending, parent.value, path);
      }
    }
  }

  lemma PathOfTrace(pending: seq<Span>, id: string)
    requires FindTrace(pending, id).Some?
    ensures exists path :: Climbs(pending, id, path)
  {
    var path := FoundClimbs(pending, id, |pending|);
  }

  lemma ClimbIsFound(pending: seq<Span>, id: string, path: seq<Span>)
    requires Climbs(pending, id, path)
    ensures path != [] && FindTrace(pending, id) == Some(path[|path| - 1].trace)
  {
    ClimbFits(pending, id, path);
    ClimbFound(pending, id, path, |pending|);
  }

  lemma {:induction false} BirthStays(s: State, events: seq<Event>, t: State, id: string)
    requires Run(s, events, t) && id in s.started
    ensures id in t.started && t.started[id] == s.started[id]
    decreases |events|
  {
    if events != [] {
      BirthStays(Step(s, events[0]), events[1..], t, id);
    }
  }

  /** A start whose generated trace id no span has. */
  ghost predicate NewTrace(s: State, ev: Event) {
    ev.Start? ==> forall id :: id in s.started ==> s.started[id].trace != ev.freshTrace
  }

  ghost predicate NewTraces(s: State, events: seq<Event>)
    decreases |events|
  {
    events == [] || (NewTrace(s, events[0]) && Can(s, events[0]) && NewTraces(Step(s, events[0]), events[1..]))
  }

  predicate IsRoot(s: State, id: string) {
    id in s.started && !HasParent(s.started[id].parent)
  }

  ghost predicate RootsApart(s: State) {
    forall a, b | IsRoot(s, a) && IsRoot(s, b) :: s.started[a].trace == s.started[b].trace ==> a == b
  }

  lemma StepRootsApart(s: State, ev: Event)
    requires RootsApart(s) && Can(s, ev) && NewTrace(s, ev)
    ensures RootsApart(Step(s, ev))
  {
    hide FindTrace;
  }

  lemma {:induction false} RunRootsApart(s: State, events: seq<Event>, t: State)
    requires RootsApart(s) && DisciplinedRun(s, events, t) && NewTraces(s, events)
    ensures RootsApart(t)
    decreases |events|
  {
    hide RootsApart;
    if events != [] {
      StepRootsApart(s, events[0]);
      RunRootsApart(Step(s, events[0]), events[1..], t);
    }
  }

  lemma {:induction false} AncestorsShareTrace(s: State, path: seq<string>)
    requires Traced(s) && Ancestry(s.started, path)
    ensures s.started[path[0]].trace == s.started[path[|path| - 1]].trace
  {
    if |path| > 1 {
      AncestorsShareTrace(s, path[1..]);
      assert ParentFits(s, path[0]);
    }
  }

  /** If generated trace ids are new, two spans of a disciplined run share a trace exactly when they share a root. */
  lemma SameTraceIffSameRoot(events: seq<Event>, t: State, a: seq<string>, b: seq<string>)
    requires DisciplinedRun(EMPTY, events, t) && NewTraces(EMPTY, events)
    requires Ancestry(t.started, a) && Ancestry(t.started, b)
    ensures t.started[a[0]].trace == t.started[b[0]].trace <==> a[|a| - 1] == b[|b| - 1]
  {
    hide Traced;
    assert Traced(EMPTY) by { EmptyTraced(); }
    RunTraced(EMPTY, events, t);
    RunRootsApart(EMPTY, events, t);
    AncestorsShareTrace(t, a);
    AncestorsShareTrace(t, b);
  }

  lemma EmptyTraced()
    ensures Traced(EMPTY)
  {
  }

  /** What `endSpan` and the setters set, field by field. */
  lemma CallsSetFields(span: Span, now: int, info: map<string, string>, field: string, value: string, f: string)
    ensures var ended := Close(span, now, info);
            && ended.(endTime := span.endTime, info := span.info) == span && ended.endTime == Some(now)
            && (f in info ==> f in ended.info && ended.info[f] == info[f])
            && (f !in info && f != "output" ==> (f in ended.info <==> f in span.info))
            && (f !in info && f != "output" && f in span.info ==> ended.info[f] == span.info[f])
            && (f !in info && f == "output" ==> f !in ended.info)
    ensures var noted := Noted(span, field, value);
            && noted.(info := span.info) == span && field in noted.info && noted.info[field] == value
            && (f != field ==> (f in noted.info <==> f in span.info))
            && (f != field && f in span.info ==> noted.info[f] == span.info[f])
  {
  }

  // ---------- The tracer itself ----------

  class ManualTracer {
    var pending: seq<Span>
    ghost var state: State // `pending` together with the history of calls

    ghost predicate Valid()
      reads this
    {
      state.pending == pending
    }

    constructor ()
      ensures Valid() && state == EMPTY
    {
      pending, state := [], EMPTY;
    }

    /** `findTraceId`: climbs at most as many steps as there are pending spans. */
    method FindTraceId(spanId: string, freshTrace: string) returns (trace: string)
      ensures trace == (if FindTrace(pending, spanId).Some? then FindTrace(pending, spanId).value else freshTrace)
    {
      var currentSpanId := spanId;
      for iteration := 0 to |pending|
        invariant FindTrace(pending, spanId) == TraceWithin(pending, currentSpanId, |pending| - iteration)
      {
        var tracked := Find(pending, currentSpanId);
        if tracked.None? {
          return freshTrace;
        }
        if !HasParent(tracked.value.parent) {
          return tracked.value.trace;
        }
        currentSpanId := tracked.value.parent.value;
      }
      return freshTrace;
    }

    method StartSpan(spanId: string, freshTrace: string, parent: Option<string>, info: map<string, string>)
      requires Valid() && Can(state, Start(spanId, freshTrace, parent, info))
      modifies this
      ensures Valid() && state == Step(old(state), Start(spanId, freshTrace, parent, info))
    {
      var traceId := freshTrace;
      if HasParent(parent) {
        traceId := FindTraceId(parent.value, freshTrace);
      }
      state := Step(state, Start(spanId, freshTrace, parent, info));
      pending := pending + [Span(spanId, traceId, parent, None, info)];
    }

    /** `endSpan` up to the point where its flush awaits the exporter. */
    method EndSpan(spanId: string, now: int, info: map<string, string>) returns (batch: seq<Span>)
      requires Valid()
      modifies this
      ensures Valid()
      ensures Find(old(pending), spanId).None? ==> state == old(state) && batch == []
      ensures Find(old(pending), spanId).Some? ==>
                state == Step(Step(old(state), End(spanId, now, info)), BeginFlush) && batch == EndedOf(pending)
    {
      batch := [];
      if Find(pending, spanId).Some? {
        state := Step(state, End(spanId, now, info));
        pending := Amend(pending, spanId, span => Close(span, now, info));
        batch := BeginExport();
      }
    }

    /** `flush` before its await: what is handed to the exporter, nothing if no pending span has ended. */
    method BeginExport() returns (batch: seq<Span>)
      requires Valid()
      modifies this
      ensures Valid() && state == Step(old(state), BeginFlush)
      ensures pending == old(pending) && batch == EndedOf(pending)
      ensures forall span :: span in batch <==> span in pending && span.endTime.Some?
    {
      EndedFacts(pending);
      batch := EndedOf(pending);
      state := Step(state, BeginFlush);
    }

    /** `flush` after its await. */
    method FinishExport(batch: seq<Span>, success: bool, ghost k: nat)
      requires Valid() && k < |state.waiting| && state.waiting[k] == Export(batch)
      modifies this
      ensures Valid() && state == Step(old(state), FinishFlush(k, success))
    {
      state := Step(state, FinishFlush(k, success));
      if success {
        pending := Without(pending, Ids(batch));
      }
    }

    /** `setModel`, `setInput` and the other setters. */
    method Set(spanId: string, field: string, value: string)
      requires Valid()
      modifies this
      ensures Valid() && state == Step(old(state), Annotate(spanId, field, value))
    {
      state := Step(state, Annotate(spanId, field, value));
      pending := Amend(pending, spanId, span => Noted(span, field, value));
    }
  }
}
