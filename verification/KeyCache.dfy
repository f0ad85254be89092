/**
 Validating API keys through a cache (internal/auth/auth.go). Calls run concurrently: each reads the clock once, then
 the cache, then possibly the store, and finally writes the cache, and anything may happen between two of these steps.
 A key stands for its own hash.
 */
module KeyCache {
  import opened Wrappers

  const SECOND := 1_000_000_000
  const CACHE_TTL := 60 * SECOND

  const PREFIX_PROJECT := "oev_proj_"
  const PREFIX_SERVICE := "oev_svc_"

  datatype Kind = Project | Service

  function KindFromRaw(rawKey: string): Option<Kind> {
    if PREFIX_PROJECT <= rawKey then Some(Project)
    else if PREFIX_SERVICE <= rawKey then Some(Service)
    else None
  }

  /** The kind is read off the prefix, and there are no others. */
  lemma KindIsThePrefix(rest: string, rawKey: string)
    ensures KindFromRaw("oev_proj_" + rest) == Some(Project) && KindFromRaw("oev_svc_" + rest) == Some(Service)
    ensures !("oev_proj_" <= rawKey) && !("oev_svc_" <= rawKey) ==> KindFromRaw(rawKey) == None
  {
    assert ("oev_svc_" + rest)[4] == 's' && PREFIX_PROJECT[4] == 'p';
  }

  datatype ValidatedKey = ValidatedKey(projectId: string, kind: Kind, serviceName: string)

  /** A stored key; `revokedAt` is overwritten when a key is revoked again. */
  datatype Record = Record(key: ValidatedKey, revokedAt: Option<int>)

  datatype CacheEntry = CacheEntry(result: ValidatedKey, expiresAt: int)

  datatype Outcome = Ok(result: ValidatedKey) | InvalidFormat | InvalidKey | Revoked

  /** Where a call is; `now` is the time it read when it began. */
  datatype Call =
    | Begun(rawKey: string, now: int)
    | Missed(rawKey: string, now: int)
    | Found(rawKey: string, now: int, result: ValidatedKey)
    | Returned(rawKey: string, now: int, outcome: Outcome)

  /** `revokedSince` remembers when each key was first revoked. */
  datatype State = State(clock: int, store: map<string, Record>, cache: map<string, CacheEntry>,
                         calls: map<nat, Call>, revokedSince: map<string, int>)

  datatype Event =
    | Tick(time: int)
    | Create(rawKey: string, key: ValidatedKey)
    | Revoke(rawKey: string)
    | Begin(id: nat, rawKey: string)
    | ReadCache(id: nat)
    | Lookup(id: nat, fails: bool)
    | WriteCache(id: nat)

  // ---------- The steps of a call ----------

  function AfterCache(call: Call, cache: map<string, CacheEntry>): Call
    requires call.Begun?
  {
    if call.rawKey in cache && call.now < cache[call.rawKey].expiresAt then
      Returned(call.rawKey, call.now, Ok(cache[call.rawKey].result))
    else if KindFromRaw(call.rawKey).None? then Returned(call.rawKey, call.now, InvalidFormat)
    else Missed(call.rawKey, call.now)
  }

  function AfterLookup(call: Call, store: map<string, Record>, fails: bool): Call
    requires call.Missed?
  {
    if fails || call.rawKey !in store then Returned(call.rawKey, call.now, InvalidKey)
    else if store[call.rawKey].revokedAt.Some? then Returned(call.rawKey, call.now, Revoked)
    else Found(call.rawKey, call.now, store[call.rawKey].key)
  }

  predicate Enabled(s: State, e: Event) {
    match e
    case Tick(time) => s.clock <= time
    case Create(rawKey, _) => rawKey !in s.store
    case Revoke(rawKey) => rawKey in s.store
    case Begin(id, _) => id !in s.calls
    case ReadCache(id) => id in s.calls && s.calls[id].Begun?
    case Lookup(id, _) => id in s.calls && s.calls[id].Missed?
    case WriteCache(id) => id in s.calls && s.calls[id].Found?
  }

  function Apply(s: State, e: Event): State
    requires Enabled(s, e)
  {
    match e
    case Tick(time) => s.(clock := time)
    case Create(rawKey, key) => s.(store := s.store[rawKey := Record(key, None)])
    case Revoke(rawKey) =>
      s.(store := s.store[rawKey := s.store[rawKey].(revokedAt := Some(s.clock))],
         revokedSince := if rawKey in s.revokedSince then s.revokedSince else s.revokedSince[rawKey := s.clock])
    case Begin(id, rawKey) => s.(calls := s.calls[id := Begun(rawKey, s.clock)])
    case ReadCache(id) => s.(calls := s.calls[id := AfterCache(s.calls[id], s.cache)])
    case Lookup(id, fails) => s.(calls := s.calls[id := AfterLookup(s.calls[id], s.store, fails)])
    case WriteCache(id) =>
      var c := s.calls[id];
      s.(cache := s.cache[c.rawKey := CacheEntry(c.result, c.now + CACHE_TTL)],
         calls := s.calls[id := Returned(c.rawKey, c.now, Ok(c.result))])
  }

  ghost predicate CanRun(s: State, events: seq<Event>)
    decreases |events|
  {
    events == [] || (Enabled(s, events[0]) && CanRun(Apply(s, events[0]), events[1..]))
  }

  ghost function Run(s: State, events: seq<Event>): State
    requires CanRun(s, events)
    decreases |events|
  {
    if events == [] then s else Run(Apply(s, events[0]), events[1..])
  }

  function Initial(clock: int): State {
    State(clock, map[], map[], map[], map[])
  }

  // ---------- What every run keeps ----------

  /** The store knows the key under these data, and if it was ever revoked, `time` was not later. */
  predicate Vouched(s: State, rawKey: string, key: ValidatedKey, time: int) {
    && rawKey in s.store && s.store[rawKey].key == key
    && (rawKey in s.revokedSince ==> time <= s.revokedSince[rawKey])
  }

  predicate CallOk(s: State, c: Call) {
    && c.now <= s.clock
    && (c.Found? ==> Vouched(s, c.rawKey, c.result, c.now))
    && (c.Returned? && c.outcome.Ok? ==> Vouched(s, c.rawKey, c.outcome.result, c.now - CACHE_TTL + 1))
    && (c.Returned? && c.outcome.Revoked? ==> c.rawKey in s.revokedSince)
    && (c.Returned? && c.outcome.InvalidFormat? ==> KindFromRaw(c.rawKey).None?)
  }

  ghost predicate Inv(s: State) {
    && (forall k :: k in s.revokedSince ==> k in s.store && s.revokedSince[k] <= s.clock)
    && (forall k :: k in s.store ==> (s.store[k].revokedAt.Some? <==> k in s.revokedSince))
    && (forall k :: k in s.cache ==>
          s.cache[k].expiresAt <= s.clock + CACHE_TTL &&
          Vouched(s, k, s.cache[k].result, s.cache[k].expiresAt - CACHE_TTL))
    && (forall id :: id in s.calls ==> CallOk(s, s.calls[id]))
  }

  lemma StepKeeps(s: State, e: Event)
    requires Inv(s) && Enabled(s, e)
    ensures Inv(Apply(s, e))
  {
    match e
    case Tick(_) => ClockStepKeeps(s, e);
    case Create(_, _) => StoreStepKeeps(s, e);
    case Revoke(_) => StoreStepKeeps(s, e);
    case Begin(_, _) => CallStepKeeps(s, e);
    case ReadCache(_) => CallStepKeeps(s, e);
    case Lookup(_, _) => CallStepKeeps(s, e);
    case WriteCache(_) => WriteStepKeeps(s, e);
  }

  lemma ClockStepKeeps(s: State, e: Event)
    requires Inv(s) && Enabled(s, e) && e.Tick?
    ensures Inv(Apply(s, e))
  {
    hide KindFromRaw;
  }

  /** What is vouched for stays so while the store changes; `time` cannot lie after a revocation happening now. */
  lemma StillVouched(s: State, e: Event, rawKey: string, key: ValidatedKey, time: int)
    requires Enabled(s, e) && (e.Create? || e.Revoke?)
    requires Vouched(s, rawKey, key, time) && time <= s.clock
    ensures Vouched(Apply(s, e), rawKey, key, time)
  {
  }

  lemma StoreStepKeeps(s: State, e: Event)
    requires Inv(s) && Enabled(s, e) && (e.Create? || e.Revoke?)
    ensures Inv(Apply(s, e))
  {
    hide KindFromRaw, Vouched;
    var s' := Apply(s, e);
    forall k | k in s.cache
      ensures Vouched(s', k, s.cache[k].result, s.cache[k].expiresAt - CACHE_TTL)
    {
      StillVouched(s, e, k, s.cache[k].result, s.cache[k].expiresAt - CACHE_TTL);
    }
    forall id | id in s.calls
      ensures CallOk(s', s.calls[id])
    {
      var c := s.calls[id];
      if c.Found? {
        StillVouched(s, e, c.rawKey, c.result, c.now);
      } else if c.Returned? && c.outcome.Ok? {
        StillVouched(s, e, c.rawKey, c.outcome.result, c.now - CACHE_TTL + 1);
      }
    }
  }

  lemma CallStepKeeps(s: State, e: Event)
    requires Inv(s) && Enabled(s, e) && (e.Begin? || e.ReadCache? || e.Lookup?)
    ensures Inv(Apply(s, e))
  {
    hide KindFromRaw;
  }

  lemma WriteStepKeeps(s: State, e: Event)
    requires Inv(s) && Enabled(s, e) && e.WriteCache?
    ensures Inv(Apply(s, e))
  {
    hide KindFromRaw;
  }

  lemma {:induction false} RunKeeps(s: State, events: seq<Event>)
    requires Inv(s) && CanRun(s, events)
    ensures Inv(Run(s, events))
    decreases |events|
  {
    hide Inv, Enabled, Apply;
    if events != [] {
      StepKeeps(s, events[0]);
      RunKeeps(Apply(s, events[0]), events[1..]);
    }
  }

  /** However calls interleave, one that begins a full TTL or more after its key was revoked does not succeed. */
  lemma RevocationIsBounded(clock: int, events: seq<Event>, id: nat)
    requires CanRun(Initial(clock), events)
    requires id in Run(Initial(clock), events).calls
    ensures var s := Run(Initial(clock), events);
            var c := s.calls[id];
            c.rawKey in s.revokedSince && c.now >= s.revokedSince[c.rawKey] + 60_000_000_000 ==>
              !(c.Returned? && c.outcome.Ok?)
  {
    RunKeeps(Initial(clock), events);
  }

  /** A success hands out what the store holds for the key. */
  lemma SuccessIsGenuine(clock: int, events: seq<Event>, id: nat)
    requires CanRun(Initial(clock), events)
    requires id in Run(Initial(clock), events).calls
    ensures var s := Run(Initial(clock), events);
            var c := s.calls[id];
            c.Returned? && c.outcome.Ok? ==> c.rawKey in s.store && s.store[c.rawKey].key == c.outcome.result
    ensures var s := Run(Initial(clock), events);
            var c := s.calls[id];
            c.Returned? && c.outcome.Revoked? ==> c.rawKey in s.revokedSince
  {
    RunKeeps(Initial(clock), events);
  }

  lemma {:induction false} RunMore(s: State, events: seq<Event>, e: Event)
    requires CanRun(s, events) && Enabled(Run(s, events), e)
    ensures CanRun(s, events + [e]) && Run(s, events + [e]) == Apply(Run(s, events), e)
    decreases |events|
  {
    hide Enabled, Apply;
    if events == [] {
      assert events + [e] == [e] && [e][1..] == [];
      assert CanRun(Apply(s, e), []);
    } else {
      assert (events + [e])[1..] == events[1..] + [e];
      RunMore(Apply(s, events[0]), events[1..], e);
    }
  }

  /** A first call that puts the key into the cache; it is revoked just then. */
  lemma WarmThenRevoke(clock: int, rawKey: string, key: ValidatedKey) returns (events: seq<Event>)
    requires KindFromRaw(rawKey).Some?
    ensures CanRun(Initial(clock), events)
    ensures var s := Run(Initial(clock), events);
            && s.clock == clock && s.revokedSince == map[rawKey := clock] && s.calls.Keys == {0}
            && s.cache == map[rawKey := CacheEntry(key, clock + CACHE_TTL)]
  {
    hide KindFromRaw, CanRun, Run;
    var s := Initial(clock);
    events := [];
    assert CanRun(s, events) && Run(s, events) == s by { EmptyRun(s); }
    var steps := [Create(rawKey, key), Begin(0, rawKey), ReadCache(0), Lookup(0, false), WriteCache(0), Revoke(rawKey)];
    RunMore(s, events, steps[0]);
    RunMore(s, events + [steps[0]], steps[1]);
    events := events + [steps[0]] + [steps[1]];
    RunMore(s, events, steps[2]);
    RunMore(s, events + [steps[2]], steps[3]);
    events := events + [steps[2]] + [steps[3]];
    RunMore(s, events, steps[4]);
    RunMore(s, events + [steps[4]], steps[5]);
    events := events + [steps[4]] + [steps[5]];
  }

  lemma EmptyRun(s: State)
    ensures CanRun(s, []) && Run(s, []) == s
  {
  }

  /** The bound is exact: a nanosecond earlier a call can still succeed, through the cache. */
  lemma JustBeforeTheBound(clock: int, rawKey: string, key: ValidatedKey) returns (events: seq<Event>)
    requires KindFromRaw(rawKey).Some?
    ensures CanRun(Initial(clock), events)
    ensures var s := Run(Initial(clock), events);
            rawKey in s.revokedSince && 1 in s.calls &&
            s.calls[1] == Returned(rawKey, s.revokedSince[rawKey] + 60_000_000_000 - 1, Ok(key))
  {
    hide KindFromRaw, CanRun, Run;
    var s := Initial(clock);
    events := WarmThenRevoke(clock, rawKey, key);
    RunMore(s, events, Tick(clock + CACHE_TTL - 1));
    events := events + [Tick(clock + CACHE_TTL - 1)];
    RunMore(s, events, Begin(1, rawKey));
    events := events + [Begin(1, rawKey)];
    RunMore(s, events, ReadCache(1));
    events := events + [ReadCache(1)];
  }

  // ---------- The validator ----------

  /** The steps of a call that nothing else interleaves with, as far as it goes. */
  function Uninterrupted(call: Call, cache: map<string, CacheEntry>, store: map<string, Record>, fails: bool): Call {
    var c := if call.Begun? then AfterCache(call, cache) else call;
    var d := if c.Missed? then AfterLookup(c, store, fails) else c;
    if d.Found? then Returned(d.rawKey, d.now, Ok(d.result)) else d
  }

  function StepsOf(call: Call, id: nat, cache: map<string, CacheEntry>, store: map<string, Record>,
                   fails: bool): seq<Event>
    requires call.Begun?
  {
    var c := AfterCache(call, cache);
    if c.Returned? then [ReadCache(id)]
    else if AfterLookup(c, store, fails).Returned? then [ReadCache(id), Lookup(id, fails)]
    else [ReadCache(id), Lookup(id, fails), WriteCache(id)]
  }

  /** Such a call is one of the runs above. */
  lemma UninterruptedIsARun(s: State, id: nat, fails: bool)
    requires id in s.calls && s.calls[id].Begun?
    ensures var steps := StepsOf(s.calls[id], id, s.cache, s.store, fails);
            var c := Uninterrupted(s.calls[id], s.cache, s.store, fails);
            && CanRun(s, steps)
            && Run(s, steps).calls == s.calls[id := c]
            && Run(s, steps).cache ==
                 if |steps| == 3 then s.cache[c.rawKey := CacheEntry(c.outcome.result, c.now + CACHE_TTL)] else s.cache
  {
    hide KindFromRaw, CanRun, Run;
    var steps := StepsOf(s.calls[id], id, s.cache, s.store, fails);
    EmptyRun(s);
    RunMore(s, [], ReadCache(id));
    assert [] + [ReadCache(id)] == [ReadCache(id)];
    if |steps| > 1 {
      RunMore(s, [ReadCache(id)], Lookup(id, fails));
      assert [ReadCache(id)] + [Lookup(id, fails)] == [ReadCache(id), Lookup(id, fails)];
      if |steps| > 2 {
        RunMore(s, [ReadCache(id), Lookup(id, fails)], WriteCache(id));
        assert [ReadCache(id), Lookup(id, fails)] + [WriteCache(id)] == steps;
      }
    }
  }

  class CachingValidator {
    var cache: map<string, CacheEntry>

    constructor ()
      ensures cache == map[]
    {
      cache := map[];
    }

    /** The store's answer: the record, or none when there is none or the lookup fails. */
    method GetApiKeyByHash(store: map<string, Record>, rawKey: string, fails: bool) returns (r: Option<Record>)
      ensures r == if fails || rawKey !in store then None else Some(store[rawKey])
    {
      r := if fails || rawKey !in store then None else Some(store[rawKey]);
    }

    /** `Validate`, by the same steps; only a fresh success writes the cache, expiring a TTL after the call began. */
    method Validate(rawKey: string, now: int, store: map<string, Record>, fails: bool) returns (r: Outcome)
      modifies this
      ensures var cached := rawKey in old(cache) && now < old(cache)[rawKey].expiresAt;
              && (cached ==> r == Ok(old(cache)[rawKey].result))
              && (!cached && !("oev_proj_" <= rawKey || "oev_svc_" <= rawKey) ==> r == InvalidFormat)
              && (!cached && ("oev_proj_" <= rawKey || "oev_svc_" <= rawKey) ==>
                    && (fails || rawKey !in store ==> r == InvalidKey)
                    && (!fails && rawKey in store && store[rawKey].revokedAt.Some? ==> r == Revoked)
                    && (!fails && rawKey in store && store[rawKey].revokedAt == None ==> r == Ok(store[rawKey].key)))
              && cache == if cached || !r.Ok? then old(cache)
                          else old(cache)[rawKey := CacheEntry(r.result, now + 60_000_000_000)]
      ensures Returned(rawKey, now, r) == Uninterrupted(Begun(rawKey, now), old(cache), store, fails)
      ensures r.Ok? && AfterCache(Begun(rawKey, now), old(cache)).Missed? ==>
                cache == old(cache)[rawKey := CacheEntry(r.result, now + CACHE_TTL)]
      ensures !(r.Ok? && AfterCache(Begun(rawKey, now), old(cache)).Missed?) ==> cache == old(cache)
    {
      if rawKey in cache && now < cache[rawKey].expiresAt {
        return Ok(cache[rawKey].result);
      }
      if KindFromRaw(rawKey).None? {
        return InvalidFormat;
      }
      var record := GetApiKeyByHash(store, rawKey, fails);
      if record.None? {
        return InvalidKey;
      }
      if record.value.revokedAt.Some? {
        return Revoked;
      }
      cache := cache[rawKey := CacheEntry(record.value.key, now + CACHE_TTL)];
      return Ok(record.value.key);
    }
  }
}
