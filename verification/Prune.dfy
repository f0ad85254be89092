/**
 Pruning the registry of inlined tables (internal/lake/lakeserver/maintenance.go). A scan of a table reads the rows of
 every inlined table registered for it, so dropping empty ones must not change what any scan returns. Each statement
 may fail, with or without having taken effect.
 */
module Prune {

  type Row = string

  datatype Entry = Entry(tableId: int, tableName: string, schemaVersion: int)

  // ---------- The machine-generated names ----------

  const NAME_PREFIX := "ducklake_inlined_data_"

  predicate Digits(s: string) {
    s != "" && forall k :: 0 <= k < |s| ==> '0' <= s[k] <= '9'
  }

  /** A number, an underscore, a number. */
  predicate TwoNumbers(s: string) {
    exists k :: 0 <= k < |s| && s[k] == '_' && Digits(s[..k]) && Digits(s[k + 1..])
  }

  /** `^ducklake_inlined_data_[0-9]+_[0-9]+$` */
  predicate MatchesPattern(name: string) {
    NAME_PREFIX <= name && TwoNumbers(name[|NAME_PREFIX|..])
  }

  lemma TwoNumbersIff(s: string)
    ensures TwoNumbers(s) <==> exists id, version :: Digits(id) && Digits(version) && s == id + "_" + version
  {
    hide Digits;
    if TwoNumbers(s) {
      var k :| 0 <= k < |s| && s[k] == '_' && Digits(s[..k]) && Digits(s[k + 1..]);
      assert s == s[..k] + "_" + s[k + 1..];
    }
    forall id, version | Digits(id) && Digits(version) && s == id + "_" + version
      ensures TwoNumbers(s)
    {
      TwoNumbersRead(id, version);
    }
  }

  lemma TwoNumbersRead(id: string, version: string)
    requires Digits(id) && Digits(version)
    ensures TwoNumbers(id + "_" + version)
  {
    hide Digits;
    var s := id + "_" + version;
    assert s[..|id|] == id && s[|id| + 1..] == version && s[|id|] == '_';
  }

  /** So a name is accepted exactly if it is the fixed prefix, a number, an underscore and a number. */
  lemma PatternIff(name: string)
    ensures MatchesPattern(name) <==>
              exists id, version ::
                Digits(id) && Digits(version) && name == "ducklake_inlined_data_" + id + "_" + version
  {
    hide Digits, TwoNumbers;
    if MatchesPattern(name) {
      var rest := name[|NAME_PREFIX|..];
      TwoNumbersIff(rest);
      var id, version :| Digits(id) && Digits(version) && rest == id + "_" + version;
      assert name == "ducklake_inlined_data_" + id + "_" + version;
    }
    forall id, version | Digits(id) && Digits(version) && name == "ducklake_inlined_data_" + id + "_" + version
      ensures MatchesPattern(name)
    {
      TwoNumbersIff(id + "_" + version);
      assert name == NAME_PREFIX + (id + "_" + version);
    }
  }

  lemma DigitsAre(s: string)
    ensures Digits(s) <==> s != "" && forall c :: c in s ==> 48 <= c as int <= 57
  {
    assert forall k :: 0 <= k < |s| ==> s[k] in s;
  }

  // ---------- What a scan sees ----------

  function Rows(tables: map<string, seq<Row>>, name: string): seq<Row> {
    if name in tables then tables[name] else []
  }

  /** All rows registered for `tableId`, in registry order. */
  function Scan(registry: seq<Entry>, tables: map<string, seq<Row>>, tableId: int): seq<Row> {
    if registry == [] then []
    else
      var here := if registry[0].tableId == tableId then Rows(tables, registry[0].tableName) else [];
      here + Scan(registry[1..], tables, tableId)
  }

  ghost predicate SameRows(a: map<string, seq<Row>>, b: map<string, seq<Row>>) {
    forall name :: Rows(a, name) == Rows(b, name)
  }

  // ---------- Registry entries ----------

  predicate Live(e: Entry, tables: map<string, seq<Row>>) {
    Rows(tables, e.tableName) != []
  }

  /** The entries that are not in `dead`. */
  function Without(registry: seq<Entry>, dead: set<Entry>): seq<Entry> {
    if registry == [] then []
    else if registry[0] in dead then Without(registry[1..], dead)
    else [registry[0]] + Without(registry[1..], dead)
  }

  function LiveEntries(registry: seq<Entry>, tables: map<string, seq<Row>>): seq<Entry> {
    if registry == [] then []
    else if !Live(registry[0], tables) then LiveEntries(registry[1..], tables)
    else [registry[0]] + LiveEntries(registry[1..], tables)
  }

  function CountDead(registry: seq<Entry>, tables: map<string, seq<Row>>): nat {
    if registry == [] then 0
    else (if Live(registry[0], tables) then 0 else 1) + CountDead(registry[1..], tables)
  }

  /** `now` is `tables` without some empty tables of matching names. */
  ghost predicate Shrunk(tables: map<string, seq<Row>>, now: map<string, seq<Row>>) {
    && (forall name :: name in now ==> name in tables && now[name] == tables[name])
    && (forall name :: name in tables && name !in now ==> tables[name] == [] && MatchesPattern(name))
  }

  lemma ShrunkSameRows(tables: map<string, seq<Row>>, now: map<string, seq<Row>>, e: Entry)
    requires Shrunk(tables, now)
    ensures SameRows(tables, now) && Live(e, tables) == Live(e, now)
  {
    hide MatchesPattern;
  }

  lemma {:induction false} WithoutMore(registry: seq<Entry>, dead: set<Entry>, e: Entry)
    ensures Without(Without(registry, dead), {e}) == Without(registry, dead + {e})
  {
    if registry != [] {
      WithoutMore(registry[1..], dead, e);
      if registry[0] !in dead {
        assert Without(registry, dead)[1..] == Without(registry[1..], dead);
      }
    }
  }

  lemma {:induction false} WithoutNone(registry: seq<Entry>)
    ensures Without(registry, {}) == registry
  {
    if registry != [] {
      WithoutNone(registry[1..]);
    }
  }

  /** Taking out entries without rows is invisible to every scan. */
  lemma {:induction false} ScanWithout(registry: seq<Entry>, dead: set<Entry>, tables: map<string, seq<Row>>,
                                       now: map<string, seq<Row>>, tableId: int)
    requires SameRows(tables, now)
    requires forall e :: e in dead ==> !Live(e, tables)
    ensures Scan(Without(registry, dead), now, tableId) == Scan(registry, tables, tableId)
  {
    if registry != [] {
      ScanWithout(registry[1..], dead, tables, now, tableId);
      if registry[0] !in dead {
        assert Without(registry, dead)[1..] == Without(registry[1..], dead);
      }
    }
  }

  lemma {:induction false} WithoutAllDead(registry: seq<Entry>, dead: set<Entry>, tables: map<string, seq<Row>>)
    requires forall e :: e in registry ==> (e in dead <==> !Live(e, tables))
    ensures Without(registry, dead) == LiveEntries(registry, tables)
    ensures CountDead(registry, tables) + |LiveEntries(registry, tables)| == |registry|
  {
    if registry != [] {
      WithoutAllDead(registry[1..], dead, tables);
    }
  }

  /** Live entries are never taken out, so a run that stopped early can be finished by another. */
  lemma {:induction false} LiveWithout(registry: seq<Entry>, dead: set<Entry>, tables: map<string, seq<Row>>,
                                       now: map<string, seq<Row>>)
    requires SameRows(tables, now)
    requires forall e :: e in dead ==> !Live(e, tables)
    ensures LiveEntries(Without(registry, dead), now) == LiveEntries(registry, tables)
  {
    if registry != [] {
      LiveWithout(registry[1..], dead, tables, now);
      if registry[0] !in dead {
        assert Without(registry, dead)[1..] == Without(registry[1..], dead);
      }
    }
  }

  lemma {:induction false} CountDeadLast(registry: seq<Entry>, e: Entry, tables: map<string, seq<Row>>)
    ensures CountDead(registry + [e], tables) == CountDead(registry, tables) + if Live(e, tables) then 0 else 1
  {
    if registry == [] {
      assert registry + [e] == [e];
    } else {
      CountDeadLast(registry[1..], e, tables);
      assert (registry + [e])[1..] == registry[1..] + [e];
    }
  }

  /** On what a finished run leaves, another run finds nothing to do. */
  lemma {:induction false} NothingLeftToPrune(registry: seq<Entry>, tables: map<string, seq<Row>>,
                                              now: map<string, seq<Row>>)
    requires SameRows(tables, now)
    ensures var left := LiveEntries(registry, tables);
            CountDead(left, now) == 0 && LiveEntries(left, now) == left
  {
    if registry != [] {
      NothingLeftToPrune(registry[1..], tables, now);
      if Live(registry[0], tables) {
        assert LiveEntries(registry, tables)[1..] == LiveEntries(registry[1..], tables);
      }
    }
  }

  // ---------- The catalog ----------

  class Catalog {
    var registry: seq<Entry>
    var tables: map<string, seq<Row>>

    constructor (registry: seq<Entry>, tables: map<string, seq<Row>>)
      ensures this.registry == registry && this.tables == tables
    {
      this.registry := registry;
      this.tables := tables;
    }

    /** `deregister`: removes every registry row equal to `e`. */
    method Deregister(e: Entry, r: Reply) returns (ok: bool)
      modifies this`registry
      ensures ok == (r == Done)
      ensures registry == if r == Refused then old(registry) else Without(old(registry), {e})
    {
      ok := r == Done;
      if r != Refused {
        registry := Without(registry, {e});
      }
    }

    method DropTable(name: string, r: Reply) returns (ok: bool)
      modifies this`tables
      ensures ok == (r == Done)
      ensures tables == if r == Refused then old(tables) else old(tables) - {name}
    {
      ok := r == Done;
      if r != Refused {
        tables := tables - {name};
      }
    }

    /** One iteration of the loop over the entries. */
    method PruneEntry(e: Entry, luck: Luck) returns (step: Step)
      requires MatchesPattern(e.tableName)
      modifies this
      ensures var here, live := e.tableName in old(tables), Live(e, old(tables));
              && (step.Failed? <==> || !luck.checked || (here && !luck.counted)
                                    || (!live && ((here && luck.drop != Done) || luck.deregister != Done)))
              && (step.Kept? ==> live) && (step.Dropped? ==> here && !live) && (step.Orphaned? ==> !here)
              && tables == (if luck.checked && here && luck.counted && !live && luck.drop != Refused
                            then old(tables) - {e.tableName} else old(tables))
              && registry == (if luck.checked && !live && (here ==> luck.counted && luck.drop == Done)
                                 && luck.deregister != Refused
                              then Without(old(registry), {e}) else old(registry))
      ensures Shrunk(old(tables), tables)
      ensures step.Kept? ==> Live(e, old(tables)) && registry == old(registry)
      ensures step.Dropped? || step.Orphaned? ==> !Live(e, old(tables)) && registry == Without(old(registry), {e})
      ensures step.Failed? ==>
                || registry == old(registry)
                || (!Live(e, old(tables)) && registry == Without(old(registry), {e}))
      ensures !step.Failed? ==> |tables| + (if step.Dropped? then 1 else 0) == |old(tables)|
    {
      hide Without, MatchesPattern;
      if !luck.checked {
        return Failed;
      }
      if e.tableName !in tables {
        var removed := Deregister(e, luck.deregister);
        return if removed then Orphaned else Failed;
      }
      if !luck.counted {
        return Failed;
      }
      if tables[e.tableName] != [] {
        return Kept;
      }
      var gone := DropTable(e.tableName, luck.drop);
      assert luck.drop != Refused ==> tables.Keys == old(tables).Keys - {e.tableName};
      if !gone {
        return Failed;
      }
      var removed := Deregister(e, luck.deregister);
      return if removed then Dropped else Failed;
    }

    /** `PruneEmptyInlinedTables`. */
    method PruneEmptyInlinedTables(listed: bool, luck: seq<Luck>) returns (dropped: nat, orphaned: nat, ok: bool)
      requires |luck| == |registry|
      modifies this
      ensures forall id :: Scan(registry, tables, id) == old(Scan(registry, tables, id))
      ensures Shrunk(old(tables), tables)
      ensures LiveEntries(registry, tables) == LiveEntries(old(registry), old(tables))
      ensures ok ==> registry == LiveEntries(old(registry), old(tables))
      ensures ok ==> dropped + orphaned + |registry| == |old(registry)|
      ensures ok ==> dropped + |tables| == |old(tables)|
      ensures ok ==> dropped + orphaned == CountDead(old(registry), old(tables))
      ensures ok ==> listed && forall e :: e in old(registry) ==> MatchesPattern(e.tableName)
      ensures listed && (forall k :: 0 <= k < |luck| ==> luck[k] == Luck(true, true, Done, Done)) ==>
                (ok <==> forall e :: e in old(registry) ==> MatchesPattern(e.tableName))
    {
      var entries := registry;
      ghost var tables0 := tables;
      NothingDoneYet(entries, tables0);
      hide *;
      dropped, orphaned := 0, 0;
      if !listed {
        return dropped, orphaned, false;
      }
      for i := 0 to |entries|
        invariant registry == Without(entries, DeadOf(entries[..i], tables0))
        invariant Shrunk(tables0, tables)
        invariant dropped + orphaned == CountDead(entries[..i], tables0)
        invariant dropped + |tables| == |tables0|
        invariant forall e :: e in entries[..i] ==> MatchesPattern(e.tableName)
      {
        var e := entries[i];
        SameScans(entries, entries[..i], tables0, tables);
        if !MatchesPattern(e.tableName) {
          return dropped, orphaned, false;
        }
        OneMore(entries, i, tables0);
        ShrunkSameRows(tables0, tables, e);
        ghost var before := tables;
        var step := PruneEntry(e, luck[i]);
        ShrunkMore(tables0, before, tables);
        SameScans(entries, entries[..i], tables0, tables);
        SameScans(entries, entries[..i + 1], tables0, tables);
        match step
        case Failed =>
          return dropped, orphaned, false;
        case Kept =>
        case Orphaned =>
          orphaned := orphaned + 1;
        case Dropped =>
          dropped := dropped + 1;
      }
      assert entries[..|entries|] == entries;
      AllDone(entries, tables0);
      SameScans(entries, entries, tables0, tables);
      return dropped, orphaned, true;
    }
  }

  /** What became of one entry. */
  datatype Step = Kept | Dropped | Orphaned | Failed

  /** How a statement ends: carried out, carried out with an error reported, or not carried out. */
  datatype Reply = Done | Lost | Refused

  /** What the statements for one entry meet. */
  datatype Luck = Luck(checked: bool, counted: bool, drop: Reply, deregister: Reply)

  ghost function DeadOf(entries: seq<Entry>, tables: map<string, seq<Row>>): set<Entry> {
    set e | e in entries && !Live(e, tables)
  }

  lemma NothingDoneYet(entries: seq<Entry>, tables: map<string, seq<Row>>)
    ensures entries == Without(entries, DeadOf(entries[..0], tables))
    ensures CountDead(entries[..0], tables) == 0 && Shrunk(tables, tables)
  {
    WithoutNone(entries);
    assert DeadOf(entries[..0], tables) == {};
  }

  /** How one more entry changes what the loop has established. */
  lemma OneMore(entries: seq<Entry>, i: nat, tables: map<string, seq<Row>>)
    requires i < |entries|
    ensures var e, before := entries[i], Without(entries, DeadOf(entries[..i], tables));
            && entries[..i + 1] == entries[..i] + [e]
            && CountDead(entries[..i + 1], tables) ==
                 CountDead(entries[..i], tables) + (if Live(e, tables) then 0 else 1)
            && Without(entries, DeadOf(entries[..i + 1], tables)) ==
                 if Live(e, tables) then before else Without(before, {e})
  {
    hide Live, Without, CountDead;
    var e := entries[i];
    assert entries[..i + 1] == entries[..i] + [e];
    CountDeadLast(entries[..i], e, tables);
    WithoutMore(entries, DeadOf(entries[..i], tables), e);
    if Live(e, tables) {
      assert DeadOf(entries[..i + 1], tables) == DeadOf(entries[..i], tables);
    } else {
      assert DeadOf(entries[..i + 1], tables) == DeadOf(entries[..i], tables) + {e};
    }
  }

  /** Once every dead entry is out, exactly the live ones are left, in order. */
  lemma AllDone(entries: seq<Entry>, tables: map<string, seq<Row>>)
    ensures Without(entries, DeadOf(entries, tables)) == LiveEntries(entries, tables)
    ensures CountDead(entries, tables) + |LiveEntries(entries, tables)| == |entries|
  {
    hide Live, Without, CountDead, LiveEntries;
    WithoutAllDead(entries, DeadOf(entries, tables), tables);
  }

  lemma ShrunkMore(a: map<string, seq<Row>>, b: map<string, seq<Row>>, c: map<string, seq<Row>>)
    requires Shrunk(a, b) && Shrunk(b, c)
    ensures Shrunk(a, c)
  {
    hide MatchesPattern;
  }

  lemma SameScans(registry: seq<Entry>, done: seq<Entry>, tables: map<string, seq<Row>>, now: map<string, seq<Row>>)
    requires Shrunk(tables, now)
    ensures forall id :: Scan(Without(registry, DeadOf(done, tables)), now, id) == Scan(registry, tables, id)
    ensures LiveEntries(Without(registry, DeadOf(done, tables)), now) == LiveEntries(registry, tables)
  {
    hide Shrunk, Scan, Without, LiveEntries;
    ShrunkSameRows(tables, now, Entry(0, "", 0));
    LiveWithout(registry, DeadOf(done, tables), tables, now);
    forall id
      ensures Scan(Without(registry, DeadOf(done, tables)), now, id) == Scan(registry, tables, id)
    {
      ShrunkSameRows(tables, now, Entry(id, "", 0));
      ScanWithout(registry, DeadOf(done, tables), tables, now, id);
    }
  }

}
