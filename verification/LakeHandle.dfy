/**
 The Lake client's database handle under its reader-writer lock (internal/lake/lake.go): any number of callers use
 the current handle under the shared lock; a caller that sees a stale connection swaps the handle under the
 exclusive lock and tries once more. Each action between two lock or database operations is one step.
 */
module LakeHandle {

  type Handle = nat

  /** Where a caller is. `Opening` to `Installing` hold the exclusive lock, `Reading` holds the shared one. */
  datatype Caller =
    | Outside
    | WantRead(again: bool)
    | Reading(h: Handle, again: bool)
    | WantWrite
    | Opening
    | Attaching(h: Handle)
    | Closing(h: Handle)
    | Installing(h: Handle)
    | Failed

  datatype State = State(
    db: Handle,              // the installed handle
    open: set<Handle>,
    made: nat,               // handles opened so far; the next one gets this number
    history: seq<Handle>,    // every handle that was ever installed, the current one last
    callers: seq<Caller>)

  datatype Action =
    | Call
    | RLock
    | Answer(stale: bool)    // the query returns and the shared lock is released
    | Lock
    | Open(ok: bool)
    | SetUp(ok: bool)        // attach, limits and tables
    | CloseOld
    | Install                // and release the exclusive lock
    | Leave

  predicate HoldsWrite(c: Caller) {
    c.Opening? || c.Attaching? || c.Closing? || c.Installing?
  }

  predicate Can(s: State, i: nat, a: Action) {
    && i < |s.callers|
    && match a
       case Call => s.callers[i].Outside?
       case RLock => s.callers[i].WantRead? && forall k :: 0 <= k < |s.callers| ==> !HoldsWrite(s.callers[k])
       case Answer(_) => s.callers[i].Reading?
       case Lock =>
         s.callers[i].WantWrite?
         && forall k :: 0 <= k < |s.callers| ==> !HoldsWrite(s.callers[k]) && !s.callers[k].Reading?
       case Open(_) => s.callers[i].Opening?
       case SetUp(_) => s.callers[i].Attaching?
       case CloseOld => s.callers[i].Closing?
       case Install => s.callers[i].Installing?
       case Leave => s.callers[i].Failed?
  }

  function Moved(s: State, i: nat, c: Caller): State
    requires i < |s.callers|
  {
    s.(callers := s.callers[i := c])
  }

  function Step(s: State, i: nat, a: Action): State
    requires Can(s, i, a)
  {
    var c := s.callers[i];
    match a
    case Call => Moved(s, i, WantRead(false))
    case RLock => Moved(s, i, Reading(s.db, c.again))
    case Answer(stale) => Moved(s, i, if !stale then Outside else if c.again then Failed else WantWrite)
    case Lock => Moved(s, i, Opening)
    case Open(ok) =>
      if ok then Moved(s.(open := s.open + {s.made}, made := s.made + 1), i, Attaching(s.made)) else Moved(s, i, Failed)
    case SetUp(ok) => if ok then Moved(s, i, Closing(c.h)) else Moved(s.(open := s.open - {c.h}), i, Failed)
    case CloseOld => Moved(s.(open := s.open - {s.db}), i, Installing(c.h))
    case Install => Moved(s.(db := c.h, history := s.history + [c.h]), i, WantRead(true))
    case Leave => Moved(s, i, Outside)
  }

  /** A Lake with its first handle open and `n` callers outside. */
  function Start(n: nat): State {
    State(0, {0}, 1, [0], seq(n, _ => Outside))
  }

  datatype Event = Event(i: nat, a: Action)

  ghost predicate Run(s: State, events: seq<Event>, t: State)
    decreases |events|
  {
    if events == [] then s == t
    else Can(s, events[0].i, events[0].a) && Run(Step(s, events[0].i, events[0].a), events[1..], t)
  }

  // ---------- The invariant ----------

  /** The handle a caller is preparing, if any. */
  function Prepared(c: Caller): set<Handle> {
    if c.Attaching? || c.Closing? || c.Installing? then {c.h} else {}
  }

  function PreparedBy(cs: seq<Caller>): set<Handle> {
    if cs == [] then {} else Prepared(cs[0]) + PreparedBy(cs[1..])
  }

  /** No caller has closed the current handle without having installed its successor yet. */
  predicate Intact(s: State) {
    forall k :: 0 <= k < |s.callers| ==> !s.callers[k].Installing?
  }

  ghost predicate Sound(s: State) {
    // The lock: at most one holder of the exclusive lock, and then no holder of the shared one.
    && (forall k, l :: 0 <= k < |s.callers| && 0 <= l < |s.callers| && HoldsWrite(s.callers[k]) ==>
          !s.callers[l].Reading? && (HoldsWrite(s.callers[l]) ==> k == l))
    // A caller under the shared lock uses the current handle.
    && (forall k :: 0 <= k < |s.callers| && s.callers[k].Reading? ==> s.callers[k].h == s.db)
    // Exactly the current handle and the one being prepared are open.
    && s.open == (if Intact(s) then {s.db} else {}) + PreparedBy(s.callers)
    && s.db !in PreparedBy(s.callers)
    && (forall h :: h in s.history || h in PreparedBy(s.callers) ==> h < s.made)
    && s.history != [] && s.history[|s.history| - 1] == s.db
    && (forall h :: h in s.history && h in PreparedBy(s.callers) ==> false)
    && (forall k, l :: 0 <= k < l < |s.history| ==> s.history[k] != s.history[l])
  }

  lemma {:induction false} PreparedNone(cs: seq<Caller>)
    requires forall k :: 0 <= k < |cs| ==> !HoldsWrite(cs[k])
    ensures PreparedBy(cs) == {}
  {
    if cs != [] {
      PreparedNone(cs[1..]);
    }
  }

  /** When only caller `i` may hold the exclusive lock, what is prepared is what it prepares. */
  lemma {:induction false} PreparedOne(cs: seq<Caller>, i: nat)
    requires i < |cs| && forall k :: 0 <= k < |cs| && HoldsWrite(cs[k]) ==> k == i
    ensures PreparedBy(cs) == Prepared(cs[i])
  {
    if i == 0 {
      PreparedNone(cs[1..]);
    } else {
      assert !HoldsWrite(cs[0]);
      PreparedOne(cs[1..], i - 1);
    }
  }

  /** A move between two places outside the exclusive lock prepares nothing new. */
  lemma {:induction false} PreparedSame(cs: seq<Caller>, i: nat, c: Caller)
    requires i < |cs| && Prepared(cs[i]) == Prepared(c)
    ensures PreparedBy(cs[i := c]) == PreparedBy(cs)
  {
    if i == 0 {
      assert cs[i := c][1..] == cs[1..];
    } else {
      assert cs[i := c][1..] == cs[1..][i - 1 := c];
      PreparedSame(cs[1..], i - 1, c);
    }
  }

  lemma OutsideStepSound(s: State, i: nat, a: Action)
    requires Sound(s) && Can(s, i, a) && !HoldsWrite(s.callers[i])
    ensures Sound(Step(s, i, a))
  {
    hide PreparedBy;
    var t := Step(s, i, a);
    PreparedSame(s.callers, i, t.callers[i]);
    assert forall k :: 0 <= k < |t.callers| ==> (t.callers[k].Installing? <==> s.callers[k].Installing?);
  }

  lemma InsideStepSound(s: State, i: nat, a: Action)
    requires Sound(s) && Can(s, i, a) && HoldsWrite(s.callers[i])
    ensures Sound(Step(s, i, a))
  {
    hide PreparedBy;
    var t := Step(s, i, a);
    PreparedOne(s.callers, i);
    PreparedOne(t.callers, i);
    assert forall k :: 0 <= k < |t.callers| && k != i ==> t.callers[k] == s.callers[k] && !t.callers[k].Installing?;
  }

  lemma StepSound(s: State, i: nat, a: Action)
    requires Sound(s) && Can(s, i, a)
    ensures Sound(Step(s, i, a))
  {
    if HoldsWrite(s.callers[i]) {
      InsideStepSound(s, i, a);
    } else {
      OutsideStepSound(s, i, a);
    }
  }

  lemma {:induction false} RunSound(s: State, events: seq<Event>, t: State)
    requires Sound(s) && Run(s, events, t)
    ensures Sound(t)
    decreases |events|
  {
    if events != [] {
      StepSound(s, events[0].i, events[0].a);
      RunSound(Step(s, events[0].i, events[0].a), events[1..], t);
    }
  }

  lemma StartSound(n: nat)
    ensures Sound(Start(n))
  {
    PreparedNone(Start(n).callers);
  }

  // ---------- What holds in every run ----------

  /** A caller under the shared lock only ever uses a handle that is open and current. */
  lemma ReadersUseOpenHandle(n: nat, events: seq<Event>, t: State, i: nat)
    requires Run(Start(n), events, t) && i < |t.callers| && t.callers[i].Reading?
    ensures t.callers[i].h == t.db && t.db in t.open
  {
    StartSound(n);
    RunSound(Start(n), events, t);
    assert Intact(t);
  }

  /**
   No handle leaks and none is closed too early: the handles ever opened that are open now are the current one and
   the one being prepared; with nobody reconnecting that is the current one alone.
   */
  lemma OneHandleOpen(n: nat, events: seq<Event>, t: State)
    requires Run(Start(n), events, t)
    requires forall k :: 0 <= k < |t.callers| ==> !HoldsWrite(t.callers[k])
    ensures t.open == {t.db}
  {
    StartSound(n);
    RunSound(Start(n), events, t);
    PreparedNone(t.callers);
    assert Intact(t);
  }

  /** A reconnect that fails, at whichever point, leaves the old handle installed and as the only open one. */
  lemma FailedReconnectChangesNothing(n: nat, events: seq<Event>, s: State, i: nat, a: Action)
    requires Run(Start(n), events, s) && Can(s, i, a)
    requires a == Open(false) || a == SetUp(false)
    ensures var t := Step(s, i, a);
            && t.db == s.db && t.open == {s.db} && t.history == s.history
            && (forall k :: 0 <= k < |t.callers| ==> !HoldsWrite(t.callers[k]))
  {
    StartSound(n);
    RunSound(Start(n), events, s);
    StepSound(s, i, a);
    PreparedNone(Step(s, i, a).callers);
    assert Intact(Step(s, i, a));
  }

  /** A successful reconnect replaces the handle and closes exactly the one it replaced. */
  lemma SuccessfulReconnectSwaps(n: nat, events: seq<Event>, s: State, i: nat)
    requires Run(Start(n), events, s) && Can(s, i, CloseOld)
    ensures var mid := Step(s, i, CloseOld);
            && Can(mid, i, Install)
            && var t := Step(mid, i, Install);
               && s.open == {s.db, t.db} && t.open == {t.db} && s.db != t.db
               && t.history == s.history + [t.db]
               && t.callers[i] == WantRead(true)
  {
    StartSound(n);
    RunSound(Start(n), events, s);
    PreparedOne(s.callers, i);
    assert Intact(s);
  }

  /** What an answer leads to: only a first stale one to a reconnect, and a second stale one is reported. */
  lemma AnswerDecides(s: State, i: nat, stale: bool)
    requires Can(s, i, Answer(stale))
    ensures var t := Step(s, i, Answer(stale));
            && t.(callers := s.callers) == s
            && (t.callers[i] == WantWrite <==> stale && !s.callers[i].again)
            && (t.callers[i] == Failed <==> stale && s.callers[i].again)
            && (t.callers[i] == Outside <==> !stale)
  {
  }

  /** Nobody waits for ever: whenever some caller is inside, some caller can take its next step. */
  lemma NoDeadlock(n: nat, events: seq<Event>, t: State, i: nat)
    requires Run(Start(n), events, t) && i < |t.callers| && !t.callers[i].Outside?
    ensures exists k, a :: Can(t, k, a) && a != Call
  {
    StartSound(n);
    RunSound(Start(n), events, t);
    if k :| 0 <= k < |t.callers| && HoldsWrite(t.callers[k]) {
      assert Can(t, k, NextStep(t.callers[k]));
    } else if k :| 0 <= k < |t.callers| && t.callers[k].Reading? {
      assert Can(t, k, Answer(false));
    } else {
      assert Can(t, i, NextStep(t.callers[i]));
    }
  }

  function NextStep(c: Caller): Action {
    match c
    case Outside => Call
    case WantRead(_) => RLock
    case Reading(_, _) => Answer(false)
    case WantWrite => Lock
    case Opening => Open(true)
    case Attaching(_) => SetUp(true)
    case Closing(_) => CloseOld
    case Installing(_) => Install
    case Failed => Leave
  }

  /** These actions of one caller, the others waiting, lead from one state to another. */
  ghost predicate Alone(s: State, i: nat, actions: seq<Action>, t: State)
    decreases |actions|
  {
    if actions == [] then s == t else Can(s, i, actions[0]) && Alone(Step(s, i, actions[0]), i, actions[1..], t)
  }

  function With(s: State, i: nat, c: Caller): State
    requires i < |s.callers|
  {
    s.(callers := s.callers[i := c])
  }

  /** One more action at the beginning; `u` gives everything but where caller `i` is. */
  lemma First(s: State, i: nat, c: Caller, a: Action, u: State, d: Caller, rest: seq<Action>, t: State)
    requires i < |s.callers| && u.callers == s.callers
    requires Can(With(s, i, c), i, a) && Alone(With(u, i, d), i, rest, t)
    requires var v := Step(With(s, i, c), i, a);
             v.db == u.db && v.open == u.open && v.made == u.made && v.history == u.history && v.callers[i] == d
    ensures Alone(With(s, i, c), i, [a] + rest, t)
  {
    assert ([a] + rest)[1..] == rest;
    assert s.callers[i := c][i := d] == s.callers[i := d];
  }

  lemma Back(s: State, i: nat)
    requires i < |s.callers|
    ensures With(s, i, s.callers[i]) == s && Alone(s, i, [], s)
  {
    assert s.callers[i := s.callers[i]] == s.callers;
  }

  ghost predicate Idle(s: State) {
    s.open == {s.db} && s.db < s.made && forall k :: 0 <= k < |s.callers| ==> s.callers[k] == Outside
  }

  /** A call on a stale connection gets as far as the exclusive lock. */
  lemma StaleAlone(s: State, i: nat, rest: seq<Action>, t: State)
    requires Idle(s) && i < |s.callers| && Alone(With(s, i, Opening), i, rest, t)
    ensures Alone(s, i, [Call, RLock, Answer(true), Lock] + rest, t)
  {
    hide Alone;
    First(s, i, WantWrite, Lock, s, Opening, rest, t);
    First(s, i, Reading(s.db, false), Answer(true), s, WantWrite, [Lock] + rest, t);
    First(s, i, WantRead(false), RLock, s, Reading(s.db, false), [Answer(true)] + ([Lock] + rest), t);
    First(s, i, Outside, Call, s, WantRead(false), [RLock] + ([Answer(true)] + ([Lock] + rest)), t);
    Back(s, i);
    assert [Call] + ([RLock] + ([Answer(true)] + ([Lock] + rest))) == [Call, RLock, Answer(true), Lock] + rest;
  }

  /**
   A call that nobody disturbs, on a stale connection, comes back through a new handle, which is then the only one open.
   */
  lemma SwapsAlone(s: State, i: nat)
    requires Idle(s) && i < |s.callers|
    ensures Alone(s, i,
                  [Call, RLock, Answer(true), Lock] +
                  [Open(true), SetUp(true), CloseOld, Install, RLock, Answer(false)],
                  State(s.made, {s.made}, s.made + 1, s.history + [s.made], s.callers))
  {
    hide Alone;
    var h := s.made;
    var larger := s.(open := {s.db, h}, made := h + 1);
    var closed := larger.(open := {h});
    var t := State(h, {h}, h + 1, s.history + [h], s.callers);
    Back(t, i);
    First(t, i, Reading(h, true), Answer(false), t, Outside, [], t);
    First(t, i, WantRead(true), RLock, t, Reading(h, true), [Answer(false)] + [], t);
    var end := [RLock] + ([Answer(false)] + []);
    First(closed, i, Installing(h), Install, t, WantRead(true), end, t);
    First(larger, i, Closing(h), CloseOld, closed, Installing(h), [Install] + end, t);
    First(larger, i, Attaching(h), SetUp(true), larger, Closing(h), [CloseOld] + ([Install] + end), t);
    var all := [SetUp(true)] + ([CloseOld] + ([Install] + end));
    First(s, i, Opening, Open(true), larger, Attaching(h), all, t);
    assert [Open(true)] + all == [Open(true), SetUp(true), CloseOld, Install, RLock, Answer(false)];
    StaleAlone(s, i, [Open(true)] + all, t);
  }

  /** Where opening or setting up the new handle fails, it ends with the old one. */
  lemma FailsAlone(s: State, i: nat)
    requires Idle(s) && i < |s.callers|
    ensures Alone(s, i, [Call, RLock, Answer(true), Lock] + [Open(false), Leave], s)
    ensures Alone(s, i, [Call, RLock, Answer(true), Lock] + [Open(true), SetUp(false), Leave], s.(made := s.made + 1))
  {
    hide Alone;
    var h := s.made;
    var larger := s.(open := {s.db, h}, made := h + 1);
    var t := s.(made := h + 1);
    Back(s, i);
    First(s, i, Failed, Leave, s, Outside, [], s);
    First(s, i, Opening, Open(false), s, Failed, [Leave] + [], s);
    assert [Open(false)] + ([Leave] + []) == [Open(false), Leave];
    StaleAlone(s, i, [Open(false), Leave], s);
    Back(t, i);
    First(t, i, Failed, Leave, t, Outside, [], t);
    First(larger, i, Attaching(h), SetUp(false), t, Failed, [Leave] + [], t);
    First(s, i, Opening, Open(true), larger, Attaching(h), [SetUp(false)] + ([Leave] + []), t);
    assert [Open(true)] + ([SetUp(false)] + ([Leave] + [])) == [Open(true), SetUp(false), Leave];
    StaleAlone(s, i, [Open(true), SetUp(false), Leave], t);
  }

  /** How many events of a run are such actions of caller `i`. */
  function Calls(events: seq<Event>, i: nat): nat {
    if events == [] then 0 else Calls(events[1..], i) + if events[0] == Event(i, Call) then 1 else 0
  }

  function Stales(events: seq<Event>, i: nat): nat {
    if events == [] then 0 else Stales(events[1..], i) + if events[0] == Event(i, Answer(true)) then 1 else 0
  }

  function Reads(events: seq<Event>, i: nat): nat {
    if events == [] then 0 else Reads(events[1..], i) + if events[0] == Event(i, RLock) then 1 else 0
  }

  function Reconnects(events: seq<Event>, i: nat): nat {
    if events == [] then 0 else Reconnects(events[1..], i) + if events[0] == Event(i, Lock) then 1 else 0
  }

  function ReadsLeft(c: Caller): nat {
    if (c.WantRead? && !c.again) then 2
    else if c.Outside? || c.Failed? || (c.Reading? && c.again) then 0
    else 1
  }

  function ReconnectsLeft(c: Caller): nat {
    if ((c.WantRead? || c.Reading?) && !c.again) || c.WantWrite? then 1 else 0
  }

  lemma {:induction false} RunCounts(s: State, events: seq<Event>, t: State, i: nat)
    requires Run(s, events, t) && i < |s.callers|
    ensures |t.callers| == |s.callers|
    ensures Reads(events, i) + ReadsLeft(t.callers[i]) <= 2 * Calls(events, i) + ReadsLeft(s.callers[i])
    ensures Reconnects(events, i) + ReconnectsLeft(t.callers[i]) <= Calls(events, i) + ReconnectsLeft(s.callers[i])
    ensures Reconnects(events, i) + (if t.callers[i].WantWrite? then 1 else 0)
            <= Stales(events, i) + if s.callers[i].WantWrite? then 1 else 0
    decreases |events|
  {
    if events != [] {
      RunCounts(Step(s, events[0].i, events[0].a), events[1..], t, i);
    }
  }

  /** A call queries at most twice and reconnects at most once, and only after an answer that was stale. */
  lemma RetriesAreBounded(n: nat, events: seq<Event>, t: State, i: nat)
    requires Run(Start(n), events, t) && i < n
    ensures Reads(events, i) <= 2 * Calls(events, i)
    ensures Reconnects(events, i) <= Calls(events, i) && Reconnects(events, i) <= Stales(events, i)
  {
    RunCounts(Start(n), events, t, i);
  }

  /**
   A handle kept from an earlier moment without the lock, as an unlocked caller would: while nobody reconnects it is
   open exactly when it is still the current one.
   */
  lemma KeptHandleOpenIffCurrent(n: nat, events: seq<Event>, s: State, later: seq<Event>, t: State)
    requires Run(Start(n), events, s) && Run(s, later, t)
    requires forall k :: 0 <= k < |t.callers| ==> !HoldsWrite(t.callers[k])
    ensures s.db in t.open <==> |t.history| == |s.history|
  {
    StartSound(n);
    RunSound(Start(n), events, s);
    RunSound(s, later, t);
    HistoryGrows(s, later, t);
    PreparedNone(t.callers);
    assert Intact(t);
    assert t.history[|s.history| - 1] == s.db;
  }

  lemma {:induction false} HistoryGrows(s: State, events: seq<Event>, t: State)
    requires Run(s, events, t)
    ensures s.history <= t.history
    decreases |events|
  {
    if events != [] {
      HistoryGrows(Step(s, events[0].i, events[0].a), events[1..], t);
    }
  }
}
