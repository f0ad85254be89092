/**
 Retiring catalog rows of data files that are gone from storage (internal/lake/lakeserver/repair.go). Rows are found by
 matching a file's full path against `'%' || path`, so `%` and `_` in a stored path act as wildcards. Every database
 step may fail; a failed update may have taken effect.
 */
module Repair {
  import opened Wrappers
  import opened TextLines

  // ---------- LIKE ----------

  predicate Like(s: string, p: string)
    decreases |s| + |p|
  {
    if p == "" then s == ""
    else if p[0] == '%' then Like(s, p[1..]) || (s != "" && Like(s[1..], p))
    else s != "" && (p[0] == '_' || p[0] == s[0]) && Like(s[1..], p[1..])
  }

  predicate Literal(p: string) {
    '%' !in p && '_' !in p
  }

  predicate EndsWith(s: string, p: string) {
    |p| <= |s| && s[|s| - |p|..] == p
  }

  lemma {:induction false} LikeLiteral(s: string, p: string)
    requires Literal(p)
    ensures Like(s, p) <==> s == p
  {
    if p != "" && s != "" {
      LikeLiteral(s[1..], p[1..]);
      assert p == [p[0]] + p[1..] && s == [s[0]] + s[1..];
    }
  }

  /** Without wildcards in `p`, `s LIKE '%' || p` asks whether `s` ends in `p`. */
  lemma {:induction false} LikeSuffixIff(s: string, p: string)
    requires Literal(p)
    ensures Like(s, "%" + p) <==> EndsWith(s, p)
  {
    assert ("%" + p)[1..] == p;
    LikeLiteral(s, p);
    if s != "" {
      LikeSuffixIff(s[1..], p);
    }
  }

  lemma {:induction false} LikeSelf(s: string)
    ensures Like(s, s)
  {
    if s != "" {
      LikeSelf(s[1..]);
    }
  }

  /** With wildcards or without, everything that ends in `p` is found. */
  lemma {:induction false} LikeOwnSuffix(before: string, p: string)
    ensures Like(before + p, "%" + p)
  {
    assert ("%" + p)[1..] == p;
    if before == "" {
      assert before + p == p;
      LikeSelf(p);
    } else {
      assert (before + p)[1..] == before[1..] + p;
      LikeOwnSuffix(before[1..], p);
    }
  }

  // ---------- The catalog ----------

  /** `path` is stored relative, `fullPath` is what listing the table's files resolves it to. */
  datatype DataFile = DataFile(table: string, path: string, fullPath: string, begin: nat, end: Option<nat>)

  predicate Active(f: DataFile) {
    f.end.None?
  }

  predicate Visible(f: DataFile, snapshot: nat) {
    f.begin <= snapshot && (f.end.Some? ==> snapshot < f.end.value)
  }

  function Retired(f: DataFile): (r: DataFile)
    ensures forall snapshot :: !Visible(r, snapshot)
  {
    f.(end := Some(f.begin))
  }

  function Normalize(path: string): (r: string)
    ensures |r| == |path|
    ensures forall k :: 0 <= k < |path| ==> r[k] == if path[k] == '\\' then '/' else path[k]
  {
    seq(|path|, i requires 0 <= i < |path| => if path[i] == '\\' then '/' else path[i])
  }

  predicate Hit(f: DataFile, path: string) {
    Active(f) && Like(Normalize(path), "%" + f.path)
  }

  /** The effect of the update statement. */
  function MarkRemoved(files: seq<DataFile>, path: string): (r: seq<DataFile>)
    ensures |r| == |files|
    ensures forall k :: 0 <= k < |files| ==> r[k] == if Hit(files[k], path) then Retired(files[k]) else files[k]
  {
    seq(|files|, i requires 0 <= i < |files| => if Hit(files[i], path) then Retired(files[i]) else files[i])
  }

  function CountHits(files: seq<DataFile>, path: string): nat {
    if files == [] then 0
    else CountHits(files[..|files| - 1], path) + if Hit(files[|files| - 1], path) then 1 else 0
  }

  /** How many rows differ. */
  function CountChanged(a: seq<DataFile>, b: seq<DataFile>): nat
    requires |a| == |b|
  {
    if a == [] then 0
    else CountChanged(a[..|a| - 1], b[..|b| - 1]) + if a[|a| - 1] != b[|b| - 1] then 1 else 0
  }

  /** The positions of the active files of a table, in order: what listing the table goes through. */
  function Owners(files: seq<DataFile>, table: string): (owners: seq<nat>)
    ensures forall k :: 0 <= k < |owners| ==>
              owners[k] < |files| && Active(files[owners[k]]) && files[owners[k]].table == table
    ensures forall k, l :: 0 <= k < l < |owners| ==> owners[k] < owners[l]
    ensures forall i :: 0 <= i < |files| && Active(files[i]) && files[i].table == table ==> i in owners
  {
    if files == [] then []
    else
      var i := |files| - 1;
      Owners(files[..i], table) + if Active(files[i]) && files[i].table == table then [i] else []
  }

  // ---------- Conditions on the paths ----------

  /** The full path of every active file is found in its own row, as it is if it ends in the row's path. */
  ghost predicate OwnPaths(files: seq<DataFile>) {
    forall i :: 0 <= i < |files| && Active(files[i]) ==> Like(Normalize(files[i].fullPath), "%" + files[i].path)
  }

  /** `now` is `files` with some active rows retired. */
  ghost predicate OnlyRetires(files: seq<DataFile>, now: seq<DataFile>) {
    && |now| == |files|
    && forall i :: 0 <= i < |files| ==> now[i] == files[i] || (Active(files[i]) && now[i] == Retired(files[i]))
  }

  /** Every row that was retired belongs to a file that cannot be read. */
  ghost predicate RetiredAreGone(files: seq<DataFile>, now: seq<DataFile>, readable: set<string>)
    requires |now| == |files|
  {
    forall i :: 0 <= i < |files| && now[i] != files[i] ==> files[i].fullPath !in readable
  }

  // ---------- One update ----------

  lemma {:induction false} ChangedMore(files: seq<DataFile>, now: seq<DataFile>, path: string)
    requires OnlyRetires(files, now)
    ensures CountChanged(files, MarkRemoved(now, path)) == CountChanged(files, now) + CountHits(now, path)
  {
    hide Like;
    if files != [] {
      var i := |files| - 1;
      ChangedMore(files[..i], now[..i], path);
      assert MarkRemoved(now, path)[..i] == MarkRemoved(now[..i], path);
    }
  }

  lemma {:induction false} OnlyHit(files: seq<DataFile>, path: string, owner: nat, other: nat)
    requires owner < |files| && other < |files| && owner != other
    requires Hit(files[owner], path) && Hit(files[other], path)
    ensures CountHits(files, path) >= 2
  {
    hide Hit;
    var i := |files| - 1;
    if owner < i && other < i {
      OnlyHit(files[..i], path, owner, other);
    } else {
      SomeHit(files[..i], path, if owner < i then owner else other);
    }
  }

  lemma {:induction false} SomeHit(files: seq<DataFile>, path: string, owner: nat)
    requires owner < |files| && Hit(files[owner], path)
    ensures CountHits(files, path) >= 1
  {
    hide Hit;
    var i := |files| - 1;
    if owner < i {
      SomeHit(files[..i], path, owner);
    }
  }

  /** An update that affects one row while the path's own row is active retires that row and no other. */
  lemma ExactlyTheOwner(files: seq<DataFile>, owner: nat)
    requires owner < |files| && OwnPaths(files) && Active(files[owner])
    requires CountHits(files, files[owner].fullPath) == 1
    ensures MarkRemoved(files, files[owner].fullPath) == files[owner := Retired(files[owner])]
  {
    var path := files[owner].fullPath;
    forall other | 0 <= other < |files| && other != owner && Hit(files[other], path)
      ensures false
    {
      OnlyHit(files, path, owner, other);
    }
  }

  // ---------- Errors of reading a file ----------

  const MISSING_MARKS: seq<string> := ["NoSuchKey", "HTTP 404", "No files found that match the pattern"]

  /** The texts that mark an error as that of a missing file. */
  lemma MissingIff(msg: string)
    ensures LooksLikeMissing(msg) <==>
              Contains(msg, "NoSuchKey") || Contains(msg, "HTTP 404") ||
              Contains(msg, "No files found that match the pattern")
  {
    hide Contains;
    var marks := MISSING_MARKS;
    assert marks[0] == "NoSuchKey" && marks[1] == "HTTP 404" && marks[2] == "No files found that match the pattern";
    assert |marks| == 3 && forall k :: 0 <= k < 3 ==> marks[k] in marks;
  }

  predicate LooksLikeMissing(msg: string) {
    exists k :: 0 <= k < |MISSING_MARKS| && Contains(msg, MISSING_MARKS[k])
  }

  /** What happens for one path: reading it gives `err`; the update, if there is one, may break, applied or not. */
  datatype Fate = Fate(err: Option<string>, breaks: bool, applied: bool)

  /** A success is truthful, and so is an error that says the file is missing. */
  predicate Truthful(path: string, fate: Fate, readable: set<string>) {
    && (fate.err.None? ==> path in readable)
    && (fate.err.Some? && LooksLikeMissing(fate.err.value) ==> path !in readable)
  }

  // ---------- The loops as functions ----------

  datatype Outcome = Outcome(files: seq<DataFile>, ok: bool, checked: nat, repaired: seq<string>)

  /** The inner loop; when the fates run out the context has ended, and the next read fails. */
  function HandlePaths(files: seq<DataFile>, paths: seq<string>, fates: seq<Fate>, checked: nat, repaired: seq<string>)
    : Outcome
    decreases |paths|
  {
    if paths == [] then Outcome(files, true, checked, repaired)
    else if fates == [] then Outcome(files, false, checked + 1, repaired)
    else
      var p, f := paths[0], fates[0];
      if f.err.None? then HandlePaths(files, paths[1..], fates[1..], checked + 1, repaired)
      else if !LooksLikeMissing(f.err.value) then Outcome(files, false, checked + 1, repaired)
      else if f.breaks then
        Outcome(if f.applied then MarkRemoved(files, p) else files, false, checked + 1, repaired)
      else if CountHits(files, p) != 1 then Outcome(MarkRemoved(files, p), false, checked + 1, repaired)
      else HandlePaths(MarkRemoved(files, p), paths[1..], fates[1..], checked + 1, repaired + [p])
  }

  function FullPaths(files: seq<DataFile>, owners: seq<nat>): (paths: seq<string>)
    requires forall k :: 0 <= k < |owners| ==> owners[k] < |files|
    ensures |paths| == |owners| && forall k :: 0 <= k < |owners| ==> paths[k] == files[owners[k]].fullPath
  {
    seq(|owners|, k requires 0 <= k < |owners| => files[owners[k]].fullPath)
  }

  /** Whether a table's files can be listed, and what happens for each of them. */
  datatype TableFate = TableFate(listed: bool, fates: seq<Fate>)

  function Listed(files: seq<DataFile>, table: string): seq<string> {
    FullPaths(files, Owners(files, table))
  }

  /** The outer loop. */
  function HandleTables(files: seq<DataFile>, tables: seq<string>, fates: seq<TableFate>, checked: nat,
                        repaired: seq<string>): Outcome
    decreases |tables|
  {
    if tables == [] then Outcome(files, true, checked, repaired)
    else if fates == [] || !fates[0].listed then Outcome(files, false, checked, repaired)
    else
      var o := HandlePaths(files, Listed(files, tables[0]), fates[0].fates, checked, repaired);
      if !o.ok then o else HandleTables(o.files, tables[1..], fates[1..], o.checked, o.repaired)
  }

  ghost predicate TruthfulPaths(paths: seq<string>, fates: seq<Fate>, readable: set<string>)
    decreases |paths|
  {
    paths != [] && fates != [] ==>
      Truthful(paths[0], fates[0], readable) && TruthfulPaths(paths[1..], fates[1..], readable)
  }

  ghost predicate TruthfulTables(files: seq<DataFile>, tables: seq<string>, fates: seq<TableFate>, checked: nat,
                                 repaired: seq<string>, readable: set<string>)
    decreases |tables|
  {
    tables != [] && fates != [] && fates[0].listed ==>
      && TruthfulPaths(Listed(files, tables[0]), fates[0].fates, readable)
      && var o := HandlePaths(files, Listed(files, tables[0]), fates[0].fates, checked, repaired);
         o.ok ==> TruthfulTables(o.files, tables[1..], fates[1..], o.checked, o.repaired, readable)
  }

  // ---------- Counting ----------

  lemma RetiresStep(files: seq<DataFile>, now: seq<DataFile>, path: string)
    requires OnlyRetires(files, now)
    ensures OnlyRetires(files, MarkRemoved(now, path)) && OnlyRetires(now, MarkRemoved(now, path))
  {
    hide Like;
  }

  lemma RetiresSame(files: seq<DataFile>)
    ensures OnlyRetires(files, files)
  {
  }

  lemma RetiresMore(a: seq<DataFile>, b: seq<DataFile>, c: seq<DataFile>)
    requires OnlyRetires(a, b) && OnlyRetires(b, c)
    ensures OnlyRetires(a, c)
  {
  }

  /** Rows are only ever retired, one for each path reported, as long as all goes well. */
  lemma {:induction false} PathsCounted(files: seq<DataFile>, now: seq<DataFile>, paths: seq<string>,
                                        fates: seq<Fate>, checked: nat, repaired: seq<string>)
    requires OnlyRetires(files, now) && CountChanged(files, now) == |repaired|
    ensures var o := HandlePaths(now, paths, fates, checked, repaired);
            && OnlyRetires(files, o.files) && OnlyRetires(now, o.files)
            && (o.ok ==> CountChanged(files, o.files) == |o.repaired| && o.checked == checked + |paths|)
    decreases |paths|
  {
    hide OnlyRetires, CountChanged, CountHits, LooksLikeMissing, Hit;
    RetiresSame(now);
    if paths != [] && fates != [] {
      var next := MarkRemoved(now, paths[0]);
      RetiresStep(files, now, paths[0]);
      ChangedMore(files, now, paths[0]);
      if fates[0].err.None? {
        PathsCounted(files, now, paths[1..], fates[1..], checked + 1, repaired);
      } else if CountHits(now, paths[0]) == 1 {
        PathsCounted(files, next, paths[1..], fates[1..], checked + 1, repaired + [paths[0]]);
        RetiresMore(now, next, HandlePaths(next, paths[1..], fates[1..], checked + 1, repaired + [paths[0]]).files);
      }
    }
  }

  /** What is reported is missing. */
  lemma {:induction false} PathsReported(now: seq<DataFile>, paths: seq<string>, fates: seq<Fate>, checked: nat,
                                         repaired: seq<string>, readable: set<string>)
    requires TruthfulPaths(paths, fates, readable) && forall p :: p in repaired ==> p !in readable
    ensures forall p :: p in HandlePaths(now, paths, fates, checked, repaired).repaired ==> p !in readable
    decreases |paths|
  {
    hide CountHits, LooksLikeMissing, Hit;
    if paths != [] && fates != [] {
      if fates[0].err.None? {
        PathsReported(now, paths[1..], fates[1..], checked + 1, repaired, readable);
      } else if LooksLikeMissing(fates[0].err.value) {
        PathsReported(MarkRemoved(now, paths[0]), paths[1..], fates[1..], checked + 1, repaired + [paths[0]], readable);
      }
    }
  }

  // ---------- Successful runs ----------

  lemma OwnPathsKept(files: seq<DataFile>, now: seq<DataFile>)
    requires OnlyRetires(files, now) && OwnPaths(files)
    ensures OwnPaths(now)
  {
    hide Like;
    forall i | 0 <= i < |now| && Active(now[i])
      ensures Like(Normalize(now[i].fullPath), "%" + now[i].path)
    {
      assert now[i] == files[i];
    }
  }

  predicate Ascending(owners: seq<nat>, bound: nat) {
    && (forall k :: 0 <= k < |owners| ==> owners[k] < bound)
    && (forall k, l :: 0 <= k < l < |owners| ==> owners[k] < owners[l])
  }

  /** The files at `owners` are listed next. */
  ghost predicate Upcoming(now: seq<DataFile>, owners: seq<nat>) {
    Ascending(owners, |now|) && forall k :: 0 <= k < |owners| ==> Active(now[owners[k]])
  }

  lemma UpcomingRest(now: seq<DataFile>, owners: seq<nat>)
    requires Upcoming(now, owners) && owners != []
    ensures Upcoming(now, owners[1..]) && FullPaths(now, owners)[1..] == FullPaths(now, owners[1..])
    ensures var next := now[owners[0] := Retired(now[owners[0]])];
            Upcoming(next, owners[1..]) && FullPaths(now, owners)[1..] == FullPaths(next, owners[1..])
  {
    var next := now[owners[0] := Retired(now[owners[0]])];
    forall k | 0 <= k < |owners[1..]|
      ensures owners[1..][k] == owners[k + 1] && owners[k + 1] != owners[0]
    {
    }
    assert FullPaths(now, owners)[1..] == FullPaths(now, owners[1..]);
    assert FullPaths(now, owners)[1..] == FullPaths(next, owners[1..]);
  }

  /** The files at `owners` that are still active can be read. */
  ghost predicate LeftAreReadable(now: seq<DataFile>, owners: seq<nat>, readable: set<string>)
    requires forall k :: 0 <= k < |owners| ==> owners[k] < |now|
  {
    forall k :: 0 <= k < |owners| && Active(now[owners[k]]) ==> now[owners[k]].fullPath in readable
  }

  /** A pass over a list that goes through retires exactly the missing ones of it. */
  lemma {:induction false} PathsRetireOwners(now: seq<DataFile>, owners: seq<nat>, fates: seq<Fate>, checked: nat,
                                             repaired: seq<string>, readable: set<string>)
    requires OwnPaths(now) && Upcoming(now, owners) && TruthfulPaths(FullPaths(now, owners), fates, readable)
    ensures var o := HandlePaths(now, FullPaths(now, owners), fates, checked, repaired);
            && OnlyRetires(now, o.files)
            && (o.ok ==> RetiredAreGone(now, o.files, readable) && LeftAreReadable(o.files, owners, readable))
    decreases |owners|
  {
    hide OwnPaths, CountHits, LooksLikeMissing, Hit;
    var paths := FullPaths(now, owners);
    RetiresSame(now);
    if owners != [] && fates != [] {
      UpcomingRest(now, owners);
      var next := MarkRemoved(now, paths[0]);
      RetiresStep(now, now, paths[0]);
      if fates[0].err.None? {
        PathsRetireOwners(now, owners[1..], fates[1..], checked + 1, repaired, readable);
        LeftMore(now, HandlePaths(now, paths, fates, checked, repaired).files, owners, readable);
      } else if LooksLikeMissing(fates[0].err.value) && CountHits(now, paths[0]) == 1 {
        ExactlyTheOwner(now, owners[0]);
        OwnPathsKept(now, next);
        PathsRetireOwners(next, owners[1..], fates[1..], checked + 1, repaired + [paths[0]], readable);
        LeftMore(next, HandlePaths(next, paths[1..], fates[1..], checked + 1, repaired + [paths[0]]).files, owners,
                 readable);
      }
    }
  }

  lemma LeftMore(now: seq<DataFile>, later: seq<DataFile>, owners: seq<nat>, readable: set<string>)
    requires OnlyRetires(now, later) && owners != [] && Ascending(owners, |now|)
    requires Active(now[owners[0]]) ==> now[owners[0]].fullPath in readable
    ensures LeftAreReadable(later, owners[1..], readable) ==> LeftAreReadable(later, owners, readable)
  {
    forall k | 0 < k < |owners|
      ensures owners[k] == owners[1..][k - 1]
    {
    }
  }

  /** Every active file of a table can be read. */
  ghost predicate TableReadable(files: seq<DataFile>, table: string, readable: set<string>) {
    forall i :: 0 <= i < |files| && files[i].table == table && Active(files[i]) ==> files[i].fullPath in readable
  }

  lemma ReadableStays(before: seq<DataFile>, now: seq<DataFile>, table: string, readable: set<string>)
    requires OnlyRetires(before, now) && TableReadable(before, table, readable)
    ensures TableReadable(now, table, readable)
  {
    forall i | 0 <= i < |now| && now[i].table == table && Active(now[i])
      ensures now[i].fullPath in readable
    {
      assert before[i] == now[i];
    }
  }

  lemma ListedReadable(before: seq<DataFile>, now: seq<DataFile>, table: string, readable: set<string>)
    requires OnlyRetires(before, now) && LeftAreReadable(now, Owners(before, table), readable)
    ensures TableReadable(now, table, readable)
  {
    hide Owners;
    forall i | 0 <= i < |now| && now[i].table == table && Active(now[i])
      ensures now[i].fullPath in readable
    {
      assert before[i] == now[i] && i in Owners(before, table);
    }
  }

  lemma GoneMore(a: seq<DataFile>, b: seq<DataFile>, c: seq<DataFile>, readable: set<string>)
    requires OnlyRetires(a, b) && OnlyRetires(b, c) && RetiredAreGone(a, b, readable) && RetiredAreGone(b, c, readable)
    ensures RetiredAreGone(a, c, readable)
  {
  }

  /** One table, as part of a run that began on `files`. */
  lemma TableRepaired(files: seq<DataFile>, now: seq<DataFile>, table: string, fates: seq<Fate>, checked: nat,
                      repaired: seq<string>, readable: set<string>)
    requires OnlyRetires(files, now) && OwnPaths(files) && RetiredAreGone(files, now, readable)
    requires TruthfulPaths(Listed(now, table), fates, readable)
    ensures var o := HandlePaths(now, Listed(now, table), fates, checked, repaired);
            && OnlyRetires(files, o.files) && OnlyRetires(now, o.files)
            && (o.ok ==> RetiredAreGone(files, o.files, readable) && TableReadable(o.files, table, readable))
  {
    hide OwnPaths, OnlyRetires, HandlePaths, RetiredAreGone, LeftAreReadable, TableReadable;
    OwnPathsKept(files, now);
    var o := HandlePaths(now, Listed(now, table), fates, checked, repaired);
    PathsRetireOwners(now, Owners(now, table), fates, checked, repaired, readable);
    RetiresMore(files, now, o.files);
    if o.ok {
      GoneMore(files, now, o.files, readable);
      ListedReadable(now, o.files, table, readable);
    }
  }

  /**
   A successful run retires as many rows as it reports paths, only rows of missing files, and leaves no active file of
   the given tables unreadable.
   */
  lemma {:induction false} TablesRepaired(files: seq<DataFile>, now: seq<DataFile>, tables: seq<string>,
                                          fates: seq<TableFate>, checked: nat, repaired: seq<string>,
                                          readable: set<string>)
    requires OnlyRetires(files, now) && OwnPaths(files) && RetiredAreGone(files, now, readable)
    requires TruthfulTables(now, tables, fates, checked, repaired, readable)
    ensures var o := HandleTables(now, tables, fates, checked, repaired);
            && OnlyRetires(files, o.files) && OnlyRetires(now, o.files)
            && (o.ok ==> RetiredAreGone(files, o.files, readable)
                         && forall t :: t in tables ==> TableReadable(o.files, t, readable))
    decreases |tables|
  {
    hide OwnPaths, OnlyRetires, HandlePaths, RetiredAreGone, TableReadable, Listed, TruthfulPaths;
    RetiresSame(now);
    if tables != [] && fates != [] && fates[0].listed {
      var o := HandlePaths(now, Listed(now, tables[0]), fates[0].fates, checked, repaired);
      TableRepaired(files, now, tables[0], fates[0].fates, checked, repaired, readable);
      if o.ok {
        TablesRepaired(files, o.files, tables[1..], fates[1..], o.checked, o.repaired, readable);
        var end := HandleTables(o.files, tables[1..], fates[1..], o.checked, o.repaired);
        RetiresMore(now, o.files, end.files);
        if end.ok {
          ReadableStays(o.files, end.files, tables[0], readable);
          assert tables == [tables[0]] + tables[1..];
        }
      }
    }
  }

  lemma {:induction false} TablesCounted(files: seq<DataFile>, now: seq<DataFile>, tables: seq<string>,
                                         fates: seq<TableFate>, checked: nat, repaired: seq<string>)
    requires OnlyRetires(files, now) && CountChanged(files, now) == |repaired|
    ensures var o := HandleTables(now, tables, fates, checked, repaired);
            && OnlyRetires(files, o.files) && OnlyRetires(now, o.files)
            && (o.ok ==> CountChanged(files, o.files) == |o.repaired|)
    decreases |tables|
  {
    hide OnlyRetires, HandlePaths, CountChanged;
    RetiresSame(now);
    if tables != [] && fates != [] && fates[0].listed {
      var o := HandlePaths(now, Listed(now, tables[0]), fates[0].fates, checked, repaired);
      PathsCounted(files, now, Listed(now, tables[0]), fates[0].fates, checked, repaired);
      if o.ok {
        TablesCounted(files, o.files, tables[1..], fates[1..], o.checked, o.repaired);
        RetiresMore(now, o.files, HandleTables(o.files, tables[1..], fates[1..], o.checked, o.repaired).files);
      }
    }
  }

  lemma {:induction false} TablesReported(now: seq<DataFile>, tables: seq<string>, fates: seq<TableFate>, checked: nat,
                                          repaired: seq<string>, readable: set<string>)
    requires TruthfulTables(now, tables, fates, checked, repaired, readable)
    requires forall p :: p in repaired ==> p !in readable
    ensures forall p :: p in HandleTables(now, tables, fates, checked, repaired).repaired ==> p !in readable
    decreases |tables|
  {
    hide HandlePaths, TruthfulPaths;
    if tables != [] && fates != [] && fates[0].listed {
      var o := HandlePaths(now, Listed(now, tables[0]), fates[0].fates, checked, repaired);
      PathsReported(now, Listed(now, tables[0]), fates[0].fates, checked, repaired, readable);
      if o.ok {
        TablesReported(o.files, tables[1..], fates[1..], o.checked, o.repaired, readable);
      }
    }
  }

  // ---------- Failing runs ----------

  /** No missing file that is listed for the tables is found in the row of a readable file. */
  ghost predicate NoStrangers(files: seq<DataFile>, tables: seq<string>, readable: set<string>) {
    forall i, j :: 0 <= i < |files| && 0 <= j < |files| && ListedMissing(files[i], tables, readable) ==>
      Hit(files[j], files[i].fullPath) ==> files[j].fullPath !in readable
  }

  predicate ListedMissing(f: DataFile, tables: seq<string>, readable: set<string>) {
    Active(f) && f.table in tables && f.fullPath !in readable
  }

  /** An update for this path retires no readable file. */
  ghost predicate Harmless(files: seq<DataFile>, path: string, readable: set<string>) {
    forall j :: 0 <= j < |files| && Hit(files[j], path) ==> files[j].fullPath !in readable
  }

  lemma HarmlessUpdate(files: seq<DataFile>, now: seq<DataFile>, path: string, readable: set<string>)
    requires OnlyRetires(files, now) && RetiredAreGone(files, now, readable) && Harmless(files, path, readable)
    ensures RetiredAreGone(files, MarkRemoved(now, path), readable)
  {
    hide Like;
  }

  lemma {:induction false} HarmlessPaths(files: seq<DataFile>, now: seq<DataFile>, paths: seq<string>,
                                         fates: seq<Fate>, checked: nat, repaired: seq<string>, readable: set<string>)
    requires OnlyRetires(files, now) && RetiredAreGone(files, now, readable)
    requires forall p :: p in paths && p !in readable ==> Harmless(files, p, readable)
    requires TruthfulPaths(paths, fates, readable)
    ensures var o := HandlePaths(now, paths, fates, checked, repaired);
            OnlyRetires(files, o.files) && RetiredAreGone(files, o.files, readable)
    decreases |paths|
  {
    hide OnlyRetires, RetiredAreGone, Harmless, CountHits, LooksLikeMissing, Hit;
    if paths != [] && fates != [] {
      assert paths[0] in paths;
      if fates[0].err.None? {
        HarmlessPaths(files, now, paths[1..], fates[1..], checked + 1, repaired, readable);
      } else if LooksLikeMissing(fates[0].err.value) {
        RetiresStep(files, now, paths[0]);
        HarmlessUpdate(files, now, paths[0], readable);
        HarmlessPaths(files, MarkRemoved(now, paths[0]), paths[1..], fates[1..], checked + 1, repaired + [paths[0]],
                      readable);
      }
    }
  }

  lemma ListedIsHarmless(files: seq<DataFile>, now: seq<DataFile>, tables: seq<string>, table: string,
                         readable: set<string>)
    requires NoStrangers(files, tables, readable) && table in tables && OnlyRetires(files, now)
    ensures forall p :: p in Listed(now, table) && p !in readable ==> Harmless(files, p, readable)
  {
    hide Hit, Owners;
    var owners := Owners(now, table);
    forall k | 0 <= k < |owners| && now[owners[k]].fullPath !in readable
      ensures Harmless(files, now[owners[k]].fullPath, readable)
    {
      assert files[owners[k]] == now[owners[k]];
      assert ListedMissing(files[owners[k]], tables, readable);
    }
  }

  /** Without strangers no run retires a readable file, however it ends. */
  lemma {:induction false} NoStrangersNoHarm(files: seq<DataFile>, now: seq<DataFile>, all: seq<string>,
                                             tables: seq<string>, fates: seq<TableFate>, checked: nat,
                                             repaired: seq<string>, readable: set<string>)
    requires OnlyRetires(files, now) && RetiredAreGone(files, now, readable)
    requires NoStrangers(files, all, readable) && forall t :: t in tables ==> t in all
    requires TruthfulTables(now, tables, fates, checked, repaired, readable)
    ensures var o := HandleTables(now, tables, fates, checked, repaired);
            OnlyRetires(files, o.files) && RetiredAreGone(files, o.files, readable)
    decreases |tables|
  {
    hide OnlyRetires, HandlePaths, RetiredAreGone, NoStrangers, TruthfulPaths, Listed;
    if tables != [] && fates != [] && fates[0].listed {
      ListedIsHarmless(files, now, all, tables[0], readable);
      HarmlessPaths(files, now, Listed(now, tables[0]), fates[0].fates, checked, repaired, readable);
      var o := HandlePaths(now, Listed(now, tables[0]), fates[0].fates, checked, repaired);
      if o.ok {
        NoStrangersNoHarm(files, o.files, all, tables[1..], fates[1..], o.checked, o.repaired, readable);
      }
    }
  }

  /** The missing file at place `l` of the list is found in no row but its own and those of missing files before it. */
  ghost predicate OnlyOwn(files: seq<DataFile>, owners: seq<nat>, l: nat, readable: set<string>)
    requires Upcoming(files, owners) && l < |owners|
  {
    forall r :: 0 <= r < |files| && Hit(files[r], files[owners[l]].fullPath) ==>
      r == owners[l] || MissingBefore(files, owners, l, r, readable)
  }

  ghost predicate MissingBefore(files: seq<DataFile>, owners: seq<nat>, l: nat, r: nat, readable: set<string>)
    requires Upcoming(files, owners) && l < |owners| && r < |files|
  {
    files[r].fullPath !in readable && exists x :: 0 <= x < l && owners[x] == r
  }

  /** The first missing file of the list that is found in other rows is found in the row of a readable file. */
  ghost predicate StrayAt(files: seq<DataFile>, owners: seq<nat>, k: nat, readable: set<string>)
    requires Upcoming(files, owners) && k < |owners|
  {
    && files[owners[k]].fullPath !in readable
    && !Harmless(files, files[owners[k]].fullPath, readable)
    && forall l :: 0 <= l < k && files[owners[l]].fullPath !in readable ==> OnlyOwn(files, owners, l, readable)
  }

  /** One step down the list, past a readable file or past a missing one that is retired alone. */
  lemma StrayFurther(files: seq<DataFile>, owners: seq<nat>, k: nat, readable: set<string>)
    requires Upcoming(files, owners) && 0 < k < |owners|
    ensures var missing := files[owners[0]].fullPath !in readable;
            var next := if missing then files[owners[0] := Retired(files[owners[0]])] else files;
            && Upcoming(next, owners[1..])
            && (missing ==> OnlyOwn(files, owners, 0, readable)) ==>
                 (StrayAt(files, owners, k, readable) <==> StrayAt(next, owners[1..], k - 1, readable))
  {
  }

  lemma {:induction false} NoHits(files: seq<DataFile>, path: string)
    requires forall r :: 0 <= r < |files| ==> !Hit(files[r], path)
    ensures CountHits(files, path) == 0
  {
    hide Hit;
    if files != [] {
      NoHits(files[..|files| - 1], path);
    }
  }

  lemma {:induction false} OneHit(files: seq<DataFile>, path: string, owner: nat)
    requires owner < |files| && forall r :: 0 <= r < |files| ==> (Hit(files[r], path) <==> r == owner)
    ensures CountHits(files, path) == 1
  {
    hide Hit;
    var i := |files| - 1;
    if owner == i {
      NoHits(files[..i], path);
    } else {
      OneHit(files[..i], path, owner);
    }
  }

  /** What happens when nothing goes wrong but missing files. */
  function Fair(paths: seq<string>, readable: set<string>): (fates: seq<Fate>)
    ensures |fates| == |paths|
  {
    if paths == [] then []
    else
      [Fate(if paths[0] in readable then None else Some(MISSING_MARKS[0]), false, false)] + Fair(paths[1..], readable)
  }

  lemma MarkIsRecognised()
    ensures LooksLikeMissing(MISSING_MARKS[0])
  {
    assert OccursAt(MISSING_MARKS[0], MISSING_MARKS[0], 0);
    assert Contains(MISSING_MARKS[0], MISSING_MARKS[0]);
  }

  lemma {:induction false} FairIsTruthful(paths: seq<string>, readable: set<string>)
    ensures TruthfulPaths(paths, Fair(paths, readable), readable)
  {
    hide LooksLikeMissing;
    if paths != [] {
      FairIsTruthful(paths[1..], readable);
      assert Fair(paths, readable)[1..] == Fair(paths[1..], readable);
    }
  }

  /** Harm done after a step that retired a missing file alone, or nothing, is harm done. */
  lemma HarmCarries(files: seq<DataFile>, next: seq<DataFile>, end: seq<DataFile>, readable: set<string>)
    requires OnlyRetires(files, next) && OnlyRetires(next, end) && RetiredAreGone(files, next, readable)
    ensures RetiredAreGone(files, end, readable) <==> RetiredAreGone(next, end, readable)
  {
  }

  /** One missing file that is found only in its own row. */
  lemma AloneIsRetired(files: seq<DataFile>, owners: seq<nat>, readable: set<string>)
    requires OwnPaths(files) && Upcoming(files, owners) && owners != []
    requires files[owners[0]].fullPath !in readable && OnlyOwn(files, owners, 0, readable)
    ensures var path, next := files[owners[0]].fullPath, files[owners[0] := Retired(files[owners[0]])];
            && CountHits(files, path) == 1 && MarkRemoved(files, path) == next
            && OwnPaths(next) && OnlyRetires(files, next) && RetiredAreGone(files, next, readable)
  {
    hide Like, CountHits;
    OneHit(files, files[owners[0]].fullPath, owners[0]);
    ExactlyTheOwner(files, owners[0]);
    RetiresSame(files);
    RetiresStep(files, files, files[owners[0]].fullPath);
    OwnPathsKept(files, MarkRemoved(files, files[owners[0]].fullPath));
  }

  lemma FoundInOwn(files: seq<DataFile>, owner: nat)
    requires OwnPaths(files) && owner < |files| && Active(files[owner])
    ensures Hit(files[owner], files[owner].fullPath)
  {
  }

  lemma {:induction false} StrayCanHarm(files: seq<DataFile>, owners: seq<nat>, k: nat, checked: nat,
                                        repaired: seq<string>, readable: set<string>)
    requires OwnPaths(files) && Upcoming(files, owners) && k < |owners| && StrayAt(files, owners, k, readable)
    ensures var paths := FullPaths(files, owners);
            var o := HandlePaths(files, paths, Fair(paths, readable), checked, repaired);
            OnlyRetires(files, o.files) && !RetiredAreGone(files, o.files, readable)
    decreases |owners|
  {
    hide Like, CountHits, LooksLikeMissing, OnlyOwn, HandlePaths, OwnPaths;
    var paths := FullPaths(files, owners);
    var path := paths[0];
    PathHandled(files, paths, Fair(paths, readable), checked, repaired);
    FoundInOwn(files, owners[0]);
    MarkIsRecognised();
    UpcomingRest(files, owners);
    RetiresSame(files);
    RetiresStep(files, files, path);
    assert Fair(paths, readable)[1..] == Fair(paths[1..], readable);
    if k == 0 {
      var j :| 0 <= j < |files| && Hit(files[j], path) && files[j].fullPath in readable;
      OnlyHit(files, path, owners[0], j);
      assert MarkRemoved(files, path)[j] != files[j];
    } else {
      StrayFurther(files, owners, k, readable);
      if path in readable {
        StrayCanHarm(files, owners[1..], k - 1, checked + 1, repaired, readable);
      } else {
        AloneIsRetired(files, owners, readable);
        var next := MarkRemoved(files, path);
        StrayCanHarm(next, owners[1..], k - 1, checked + 1, repaired + [path], readable);
        var end := HandlePaths(files, paths, Fair(paths, readable), checked, repaired).files;
        HarmCarries(files, next, end, readable);
        RetiresMore(files, next, end);
      }
    }
  }

  lemma {:induction false} HarmNeedsStray(files: seq<DataFile>, owners: seq<nat>, fates: seq<Fate>, checked: nat,
                                          repaired: seq<string>, readable: set<string>) returns (k: nat)
    requires OwnPaths(files) && Upcoming(files, owners) && TruthfulPaths(FullPaths(files, owners), fates, readable)
    requires var o := HandlePaths(files, FullPaths(files, owners), fates, checked, repaired);
             |o.files| == |files| && !RetiredAreGone(files, o.files, readable)
    ensures k < |owners| && StrayAt(files, owners, k, readable)
    decreases |owners|
  {
    hide Like, CountHits, LooksLikeMissing, HandlePaths, StrayAt, OnlyOwn, OwnPaths;
    var paths := FullPaths(files, owners);
    NothingHandled(files, paths, fates, checked, repaired, readable);
    var path, f := paths[0], fates[0];
    PathHandled(files, paths, fates, checked, repaired);
    UpcomingRest(files, owners);
    k := 0;
    if f.err.None? {
      k := HarmNeedsStray(files, owners[1..], fates[1..], checked + 1, repaired, readable);
      k := k + 1;
      StrayFurther(files, owners, k, readable);
    } else if Harmless(files, path, readable) {
      RetiresSame(files);
      HarmlessUpdate(files, files, path, readable);
      var next := MarkRemoved(files, path);
      assert CountHits(files, path) == 1;
      ExactlyTheOwner(files, owners[0]);
      AloneIsOwn(files, owners, readable);
      RetiresStep(files, files, path);
      OwnPathsKept(files, next);
      PathsRetireOwners(next, owners[1..], fates[1..], checked + 1, repaired + [path], readable);
      HarmCarries(files, next, HandlePaths(files, paths, fates, checked, repaired).files, readable);
      k := HarmNeedsStray(next, owners[1..], fates[1..], checked + 1, repaired + [path], readable);
      k := k + 1;
      StrayFurther(files, owners, k, readable);
    } else {
      StrayAtOnce(files, owners, readable);
    }
  }

  lemma StrayAtOnce(files: seq<DataFile>, owners: seq<nat>, readable: set<string>)
    requires Upcoming(files, owners) && owners != [] && files[owners[0]].fullPath !in readable
    requires !Harmless(files, files[owners[0]].fullPath, readable)
    ensures StrayAt(files, owners, 0, readable)
  {
  }

  /** Where there is nothing to handle, or no answer, nothing is retired. */
  lemma NothingHandled(files: seq<DataFile>, paths: seq<string>, fates: seq<Fate>, checked: nat, repaired: seq<string>,
                       readable: set<string>)
    ensures paths == [] || fates == [] ==>
              var o := HandlePaths(files, paths, fates, checked, repaired);
              |o.files| == |files| && RetiredAreGone(files, o.files, readable)
  {
  }

  /** What happens for the first path. */
  lemma PathHandled(files: seq<DataFile>, paths: seq<string>, fates: seq<Fate>, checked: nat, repaired: seq<string>)
    requires paths != [] && fates != []
    ensures var p, f := paths[0], fates[0];
            HandlePaths(files, paths, fates, checked, repaired) ==
              if f.err.None? then HandlePaths(files, paths[1..], fates[1..], checked + 1, repaired)
              else if !LooksLikeMissing(f.err.value) then Outcome(files, false, checked + 1, repaired)
              else if f.breaks then
                Outcome(if f.applied then MarkRemoved(files, p) else files, false, checked + 1, repaired)
              else if CountHits(files, p) != 1 then Outcome(MarkRemoved(files, p), false, checked + 1, repaired)
              else HandlePaths(MarkRemoved(files, p), paths[1..], fates[1..], checked + 1, repaired + [p])
  {
    hide CountHits, LooksLikeMissing, MarkRemoved;
  }

  lemma AloneIsOwn(files: seq<DataFile>, owners: seq<nat>, readable: set<string>)
    requires OwnPaths(files) && Upcoming(files, owners) && owners != []
    requires CountHits(files, files[owners[0]].fullPath) == 1
    ensures OnlyOwn(files, owners, 0, readable)
  {
    hide Like;
    var path := files[owners[0]].fullPath;
    forall r | 0 <= r < |files| && Hit(files[r], path)
      ensures r == owners[0]
    {
      if r != owners[0] {
        OnlyHit(files, path, owners[0], r);
      }
    }
  }

  /**
   Going through the files of one table can retire a readable file exactly when the first missing file of the list that
   is found in other rows than its own, apart from those of missing files before it, is found in a readable file's row.
   */
  lemma HarmIff(files: seq<DataFile>, table: string, readable: set<string>)
    requires OwnPaths(files)
    ensures (exists fates :: Harms(files, Listed(files, table), fates, readable)) <==> HasStray(files, table, readable)
  {
    hide OwnPaths, StrayAt, Harms;
    var owners, paths := Owners(files, table), Listed(files, table);
    if HasStray(files, table, readable) {
      var k: nat :| k < |owners| && StrayAt(files, owners, k, readable);
      StrayHarms(files, owners, k, readable);
      assert Harms(files, paths, Fair(paths, readable), readable);
    }
    forall fates | Harms(files, paths, fates, readable)
      ensures HasStray(files, table, readable)
    {
      var k := HarmsAtStray(files, owners, fates, readable);
    }
  }

  ghost predicate HasStray(files: seq<DataFile>, table: string, readable: set<string>) {
    exists k: nat :: k < |Owners(files, table)| && StrayAt(files, Owners(files, table), k, readable)
  }

  /** With these truthful answers a readable file is retired. */
  ghost predicate Harms(files: seq<DataFile>, paths: seq<string>, fates: seq<Fate>, readable: set<string>) {
    && TruthfulPaths(paths, fates, readable)
    && var o := HandlePaths(files, paths, fates, 0, []);
       |o.files| == |files| && !RetiredAreGone(files, o.files, readable)
  }

  lemma StrayHarms(files: seq<DataFile>, owners: seq<nat>, k: nat, readable: set<string>)
    requires OwnPaths(files) && Upcoming(files, owners) && k < |owners| && StrayAt(files, owners, k, readable)
    ensures Harms(files, FullPaths(files, owners), Fair(FullPaths(files, owners), readable), readable)
  {
    hide OwnPaths, HandlePaths, StrayAt, TruthfulPaths, RetiredAreGone;
    StrayCanHarm(files, owners, k, 0, [], readable);
    FairIsTruthful(FullPaths(files, owners), readable);
  }

  lemma HarmsAtStray(files: seq<DataFile>, owners: seq<nat>, fates: seq<Fate>, readable: set<string>) returns (k: nat)
    requires OwnPaths(files) && Upcoming(files, owners) && Harms(files, FullPaths(files, owners), fates, readable)
    ensures k < |owners| && StrayAt(files, owners, k, readable)
  {
    hide OwnPaths, HandlePaths, StrayAt, TruthfulPaths, RetiredAreGone;
    k := HarmNeedsStray(files, owners, fates, 0, [], readable);
  }

  // ---------- Failing runs over several tables ----------

  /** Files and success do not depend on what was counted before. */
  lemma {:induction false} CountersDoNotMatter(now: seq<DataFile>, paths: seq<string>, fates: seq<Fate>, checked: nat,
                                               repaired: seq<string>)
    ensures var o, o0 := HandlePaths(now, paths, fates, checked, repaired), HandlePaths(now, paths, fates, 0, []);
            o.files == o0.files && o.ok == o0.ok
    decreases |paths|
  {
    hide CountHits, LooksLikeMissing, MarkRemoved;
    if paths != [] && fates != [] {
      var next := MarkRemoved(now, paths[0]);
      assert [] + [paths[0]] == [paths[0]];
      CountersDoNotMatter(now, paths[1..], fates[1..], checked + 1, repaired);
      CountersDoNotMatter(now, paths[1..], fates[1..], 1, []);
      CountersDoNotMatter(next, paths[1..], fates[1..], checked + 1, repaired + [paths[0]]);
      CountersDoNotMatter(next, paths[1..], fates[1..], 1, [paths[0]]);
    }
  }

  /** A truthful pass that goes through is the fair one. */
  lemma {:induction false} ThroughIsFair(now: seq<DataFile>, paths: seq<string>, fates: seq<Fate>, checked: nat,
                                         repaired: seq<string>, readable: set<string>)
    requires TruthfulPaths(paths, fates, readable) && HandlePaths(now, paths, fates, checked, repaired).ok
    ensures HandlePaths(now, paths, Fair(paths, readable), checked, repaired) ==
              HandlePaths(now, paths, fates, checked, repaired)
    decreases |paths|
  {
    hide CountHits, LooksLikeMissing, MarkRemoved;
    if paths != [] {
      var fair := Fair(paths, readable);
      MarkIsRecognised();
      assert fair[1..] == Fair(paths[1..], readable);
      if fates[0].err.None? {
        ThroughIsFair(now, paths[1..], fates[1..], checked + 1, repaired, readable);
      } else {
        ThroughIsFair(MarkRemoved(now, paths[0]), paths[1..], fates[1..], checked + 1, repaired + [paths[0]], readable);
      }
    }
  }

  /** What happens for the files of a table when nothing goes wrong but missing files. */
  function FairPass(files: seq<DataFile>, table: string, readable: set<string>): Outcome {
    HandlePaths(files, Listed(files, table), Fair(Listed(files, table), readable), 0, [])
  }

  /** Some table of the list has a stray, and the passes over the tables before it go through. */
  ghost predicate StrayIn(files: seq<DataFile>, tables: seq<string>, readable: set<string>)
    decreases |tables|
  {
    tables != [] &&
    (HasStray(files, tables[0], readable) ||
     (FairPass(files, tables[0], readable).ok &&
      StrayIn(FairPass(files, tables[0], readable).files, tables[1..], readable)))
  }

  function FairTables(files: seq<DataFile>, tables: seq<string>, readable: set<string>): seq<TableFate>
    decreases |tables|
  {
    if tables == [] then []
    else
      [TableFate(true, Fair(Listed(files, tables[0]), readable))] +
      FairTables(FairPass(files, tables[0], readable).files, tables[1..], readable)
  }

  /** The fair pass over one table. */
  lemma FairPassIs(files: seq<DataFile>, table: string, checked: nat, repaired: seq<string>, readable: set<string>)
    requires OwnPaths(files)
    ensures var fair := Fair(Listed(files, table), readable);
            var o := HandlePaths(files, Listed(files, table), fair, checked, repaired);
            && TruthfulPaths(Listed(files, table), fair, readable)
            && o.files == FairPass(files, table, readable).files && o.ok == FairPass(files, table, readable).ok
            && OnlyRetires(files, o.files) && OwnPaths(o.files)
            && (o.ok ==> RetiredAreGone(files, o.files, readable))
  {
    hide HandlePaths, TruthfulPaths, OnlyRetires, OwnPaths, RetiredAreGone;
    var paths := Listed(files, table);
    FairIsTruthful(paths, readable);
    CountersDoNotMatter(files, paths, Fair(paths, readable), checked, repaired);
    PathsRetireOwners(files, Owners(files, table), Fair(paths, readable), checked, repaired, readable);
    OwnPathsKept(files, HandlePaths(files, paths, Fair(paths, readable), checked, repaired).files);
  }

  /** A stray stops the fair pass, and it has done harm then. */
  lemma StrayStops(files: seq<DataFile>, table: string, checked: nat, repaired: seq<string>, readable: set<string>)
    requires OwnPaths(files) && HasStray(files, table, readable)
    ensures var o := HandlePaths(files, Listed(files, table), Fair(Listed(files, table), readable), checked, repaired);
            OnlyRetires(files, o.files) && !o.ok && !RetiredAreGone(files, o.files, readable)
  {
    hide HandlePaths, OnlyRetires, OwnPaths, RetiredAreGone, StrayAt;
    var k: nat :| k < |Owners(files, table)| && StrayAt(files, Owners(files, table), k, readable);
    StrayCanHarm(files, Owners(files, table), k, checked, repaired, readable);
    FairPassIs(files, table, checked, repaired, readable);
  }

  lemma {:induction false} StrayInCanHarm(files: seq<DataFile>, tables: seq<string>, checked: nat,
                                          repaired: seq<string>, readable: set<string>)
    requires OwnPaths(files) && StrayIn(files, tables, readable)
    ensures var fates := FairTables(files, tables, readable);
            var o := HandleTables(files, tables, fates, checked, repaired);
            && TruthfulTables(files, tables, fates, checked, repaired, readable)
            && OnlyRetires(files, o.files) && !RetiredAreGone(files, o.files, readable)
    decreases |tables|
  {
    hide HandlePaths, OnlyRetires, OwnPaths, RetiredAreGone, HasStray, TruthfulPaths, FairPass, Listed;
    var fates := FairTables(files, tables, readable);
    var o := HandlePaths(files, Listed(files, tables[0]), fates[0].fates, checked, repaired);
    FairPassIs(files, tables[0], checked, repaired, readable);
    assert fates[1..] == FairTables(o.files, tables[1..], readable);
    if HasStray(files, tables[0], readable) {
      StrayStops(files, tables[0], checked, repaired, readable);
    } else {
      StrayInCanHarm(o.files, tables[1..], o.checked, o.repaired, readable);
      var end := HandleTables(o.files, tables[1..], fates[1..], o.checked, o.repaired).files;
      HarmCarries(files, o.files, end, readable);
      RetiresMore(files, o.files, end);
    }
  }

  lemma {:induction false} HarmNeedsStrayIn(files: seq<DataFile>, tables: seq<string>, fates: seq<TableFate>,
                                            checked: nat, repaired: seq<string>, readable: set<string>)
    requires OwnPaths(files) && TruthfulTables(files, tables, fates, checked, repaired, readable)
    ensures var o := HandleTables(files, tables, fates, checked, repaired);
            && OnlyRetires(files, o.files)
            && (!RetiredAreGone(files, o.files, readable) ==> StrayIn(files, tables, readable))
    decreases |tables|
  {
    hide HandlePaths, OnlyRetires, OwnPaths, RetiredAreGone, HasStray, TruthfulPaths, Listed;
    UnchangedAtFirst(files, readable);
    if tables != [] && fates != [] && fates[0].listed {
      var o := HandlePaths(files, Listed(files, tables[0]), fates[0].fates, checked, repaired);
      HarmInTable(files, tables[0], fates[0].fates, checked, repaired, readable);
      if o.ok {
        HarmNeedsStrayIn(o.files, tables[1..], fates[1..], o.checked, o.repaired, readable);
        var end := HandleTables(o.files, tables[1..], fates[1..], o.checked, o.repaired).files;
        HarmCarries(files, o.files, end, readable);
        RetiresMore(files, o.files, end);
      }
    }
  }

  /** One table: harm needs a stray, and a pass that goes through is harmless and fair. */
  lemma HarmInTable(files: seq<DataFile>, table: string, fates: seq<Fate>, checked: nat, repaired: seq<string>,
                    readable: set<string>)
    requires OwnPaths(files) && TruthfulPaths(Listed(files, table), fates, readable)
    ensures var o := HandlePaths(files, Listed(files, table), fates, checked, repaired);
            && OnlyRetires(files, o.files) && OwnPaths(o.files)
            && (!RetiredAreGone(files, o.files, readable) ==> HasStray(files, table, readable))
            && (o.ok ==> RetiredAreGone(files, o.files, readable) && FairPass(files, table, readable).ok
                         && FairPass(files, table, readable).files == o.files)
  {
    hide HandlePaths, OwnPaths, RetiredAreGone, TruthfulPaths, StrayAt;
    var owners, paths := Owners(files, table), Listed(files, table);
    var o := HandlePaths(files, paths, fates, checked, repaired);
    PathsRetireOwners(files, owners, fates, checked, repaired, readable);
    OwnPathsKept(files, o.files);
    if !RetiredAreGone(files, o.files, readable) {
      var k := HarmNeedsStray(files, owners, fates, checked, repaired, readable);
    }
    if o.ok {
      ThroughIsFair(files, paths, fates, checked, repaired, readable);
      CountersDoNotMatter(files, paths, Fair(paths, readable), checked, repaired);
    }
  }

  /** With these truthful answers a run over the tables retires a readable file. */
  ghost predicate RunHarms(files: seq<DataFile>, tables: seq<string>, fates: seq<TableFate>, readable: set<string>) {
    && TruthfulTables(files, tables, fates, 0, [], readable)
    && var o := HandleTables(files, tables, fates, 0, []);
       |o.files| == |files| && !RetiredAreGone(files, o.files, readable)
  }

  /** A run can retire a readable file exactly when there is a stray in a table that is reached. */
  lemma RunHarmIff(files: seq<DataFile>, tables: seq<string>, readable: set<string>)
    requires OwnPaths(files)
    ensures (exists fates :: RunHarms(files, tables, fates, readable)) <==> StrayIn(files, tables, readable)
  {
    hide OwnPaths, StrayIn, HandleTables, TruthfulTables, RetiredAreGone;
    if StrayIn(files, tables, readable) {
      StrayInCanHarm(files, tables, 0, [], readable);
      assert RunHarms(files, tables, FairTables(files, tables, readable), readable);
    }
    forall fates | RunHarms(files, tables, fates, readable)
      ensures StrayIn(files, tables, readable)
    {
      HarmNeedsStrayIn(files, tables, fates, 0, [], readable);
    }
  }

  // ---------- Runs that succeed ----------

  /** No missing file of the tables is found in an active row other than its own. */
  ghost predicate MissingAlone(files: seq<DataFile>, tables: seq<string>, readable: set<string>) {
    forall i, x | 0 <= i < |files| && 0 <= x < |files| && x != i ::
      Active(files[i]) && files[i].table in tables && files[i].fullPath !in readable ==>
        !Hit(files[x], files[i].fullPath)
  }

  /** Then nothing stops a pass over the rest of a table's files. */
  lemma {:induction false} AloneGoesThrough(files: seq<DataFile>, owners: seq<nat>, tables: seq<string>, checked: nat,
                                            repaired: seq<string>, readable: set<string>)
    requires OwnPaths(files) && Upcoming(files, owners) && MissingAlone(files, tables, readable)
    requires forall k :: 0 <= k < |owners| ==> files[owners[k]].table in tables
    ensures var paths := FullPaths(files, owners);
            var o := HandlePaths(files, paths, Fair(paths, readable), checked, repaired);
            o.ok && o.checked == checked + |owners| && MissingAlone(o.files, tables, readable)
    decreases |owners|
  {
    hide Like, HandlePaths, CountHits, LooksLikeMissing;
    var paths := FullPaths(files, owners);
    var fair := Fair(paths, readable);
    if owners == [] {
      NothingToHandle(files, checked, repaired);
    } else {
      var owner, path := owners[0], paths[0];
      PathHandled(files, paths, fair, checked, repaired);
      MarkIsRecognised();
      assert paths[1..] == FullPaths(files, owners[1..]) && fair[1..] == Fair(paths[1..], readable);
      if path in readable {
        AloneGoesThrough(files, owners[1..], tables, checked + 1, repaired, readable);
      } else {
        OneHit(files, path, owner);
        ExactlyTheOwner(files, owner);
        var next := files[owner := Retired(files[owner])];
        assert paths[1..] == FullPaths(next, owners[1..]);
        AloneGoesThrough(next, owners[1..], tables, checked + 1, repaired + [path], readable);
      }
    }
  }

  lemma NothingToHandle(files: seq<DataFile>, checked: nat, repaired: seq<string>)
    ensures HandlePaths(files, [], [], checked, repaired) == Outcome(files, true, checked, repaired)
  {
  }

  lemma {:induction false} AloneTables(files: seq<DataFile>, tables: seq<string>, all: seq<string>, checked: nat,
                                       repaired: seq<string>, readable: set<string>)
    requires OwnPaths(files) && MissingAlone(files, all, readable) && forall s :: s in tables ==> s in all
    ensures HandleTables(files, tables, FairTables(files, tables, readable), checked, repaired).ok
    decreases |tables|
  {
    hide HandlePaths, MissingAlone, OwnPaths, Listed;
    if tables != [] {
      var fates := FairTables(files, tables, readable);
      var o := HandlePaths(files, Listed(files, tables[0]), fates[0].fates, checked, repaired);
      FairPassIs(files, tables[0], checked, repaired, readable);
      AloneListed(files, tables[0], all, checked, repaired, readable);
      assert fates[1..] == FairTables(o.files, tables[1..], readable);
      AloneTables(o.files, tables[1..], all, o.checked, o.repaired, readable);
    }
  }

  lemma AloneListed(files: seq<DataFile>, table: string, all: seq<string>, checked: nat, repaired: seq<string>,
                    readable: set<string>)
    requires OwnPaths(files) && MissingAlone(files, all, readable) && table in all
    ensures var o := HandlePaths(files, Listed(files, table), Fair(Listed(files, table), readable), checked, repaired);
            o.ok && MissingAlone(o.files, all, readable)
  {
    hide HandlePaths, MissingAlone, OwnPaths;
    AloneGoesThrough(files, Owners(files, table), all, checked, repaired, readable);
  }

  /** A run that meets nothing but missing files, each found in its own row alone, succeeds. */
  lemma RunSucceeds(files: seq<DataFile>, tables: seq<string>, readable: set<string>)
    requires OwnPaths(files) && MissingAlone(files, tables, readable)
    ensures TruthfulTables(files, tables, FairTables(files, tables, readable), 0, [], readable)
    ensures HandleTables(files, tables, FairTables(files, tables, readable), 0, []).ok
  {
    hide MissingAlone, OwnPaths, FairTables, TruthfulTables, HandleTables;
    AloneTables(files, tables, tables, 0, [], readable);
    FairTablesTruthful(files, tables, 0, [], readable);
  }

  lemma {:induction false} FairTablesTruthful(files: seq<DataFile>, tables: seq<string>, checked: nat,
                                              repaired: seq<string>, readable: set<string>)
    requires OwnPaths(files)
    ensures TruthfulTables(files, tables, FairTables(files, tables, readable), checked, repaired, readable)
    decreases |tables|
  {
    hide HandlePaths, TruthfulPaths, OwnPaths, Listed;
    if tables != [] {
      var fates := FairTables(files, tables, readable);
      var o := HandlePaths(files, Listed(files, tables[0]), fates[0].fates, checked, repaired);
      FairPassIs(files, tables[0], checked, repaired, readable);
      assert fates[1..] == FairTables(o.files, tables[1..], readable);
      FairTablesTruthful(o.files, tables[1..], o.checked, o.repaired, readable);
    }
  }

  /** For instance a missing file whose name ends in a readable one's: the run fails, having retired both. */
  lemma LongerNameHitsBoth(table: string, begin: nat)
    ensures var files := [DataFile(table, "ba", "d/ba", begin, None), DataFile(table, "a", "d/a", begin, None)];
            var readable := {"d/a"};
            var o := HandlePaths(files, Listed(files, table), Fair(Listed(files, table), readable), 0, []);
            && OwnPaths(files) && TruthfulPaths(Listed(files, table), Fair(Listed(files, table), readable), readable)
            && !o.ok && o.repaired == []
            && |o.files| == 2 && o.files[1] == Retired(files[1]) && files[1].fullPath in readable
  {
    hide LooksLikeMissing, TruthfulPaths;
    var f, g := DataFile(table, "ba", "d/ba", begin, None), DataFile(table, "a", "d/a", begin, None);
    var files := [f, g];
    assert Normalize("d/ba") == "d/ba" && Normalize("d/a") == "d/a";
    HitIff(f, "d/ba");
    HitIff(g, "d/ba");
    HitIff(g, "d/a");
    OnlyHit(files, "d/ba", 0, 1);
    var owners := Owners(files, table);
    assert 0 in owners;
    assert owners[0] == 0;
    assert Listed(files, table)[0] == "d/ba";
    FairIsTruthful(Listed(files, table), {"d/a"});
    MarkIsRecognised();
    assert Fair(Listed(files, table), {"d/a"})[0] == Fate(Some(MISSING_MARKS[0]), false, false);
  }

  /** A stored path without wildcards is found in exactly the paths that end in it. */
  lemma HitIff(f: DataFile, path: string)
    requires Literal(f.path)
    ensures Hit(f, path) <==> Active(f) && EndsWith(Normalize(path), f.path)
  {
    LikeSuffixIff(Normalize(path), f.path);
  }

  // ---------- The repair ----------

  /** Rows of readable files are seen at the snapshots at which they were, retired ones at none. */
  ghost predicate VisibilityKept(files: seq<DataFile>, now: seq<DataFile>, readable: set<string>)
    requires |now| == |files|
  {
    forall i, snapshot: nat :: 0 <= i < |files| ==>
      && (files[i].fullPath in readable ==> Visible(now[i], snapshot) == Visible(files[i], snapshot))
      && (now[i] != files[i] ==> !Visible(now[i], snapshot))
  }

  lemma GoneAreInvisible(files: seq<DataFile>, now: seq<DataFile>, readable: set<string>)
    requires OnlyRetires(files, now) && RetiredAreGone(files, now, readable)
    ensures VisibilityKept(files, now, readable)
  {
    forall i, snapshot: nat | 0 <= i < |files|
      ensures files[i].fullPath in readable ==> Visible(now[i], snapshot) == Visible(files[i], snapshot)
      ensures now[i] != files[i] ==> !Visible(now[i], snapshot)
    {
      assert now[i] == files[i] || now[i] == Retired(files[i]);
    }
  }

  class Catalog {
    var files: seq<DataFile>

    constructor (files: seq<DataFile>)
      ensures this.files == files
    {
      this.files := files;
    }

    /** The inner loop: the files listed for one table. */
    method RepairListed(paths: seq<string>, fates: seq<Fate>, checked0: nat, repaired0: seq<string>)
      returns (ok: bool, checked: nat, repaired: seq<string>)
      modifies this
      ensures Outcome(files, ok, checked, repaired) == HandlePaths(old(files), paths, fates, checked0, repaired0)
    {
      hide CountHits, LooksLikeMissing, MarkRemoved;
      checked, repaired := checked0, repaired0;
      for k := 0 to |paths|
        invariant k <= |fates|
        invariant HandlePaths(old(files), paths, fates, checked0, repaired0) ==
                    HandlePaths(files, paths[k..], fates[k..], checked, repaired)
      {
        var path := paths[k];
        assert paths[k..][0] == path && paths[k..][1..] == paths[k + 1..];
        checked := checked + 1;
        if k == |fates| {
          return false, checked, repaired;
        }
        var fate := fates[k];
        assert fates[k..][0] == fate && fates[k..][1..] == fates[k + 1..];
        if fate.err.None? {
          continue;
        }
        if !LooksLikeMissing(fate.err.value) {
          return false, checked, repaired;
        }
        var affected := CountHits(files, path);
        if !fate.breaks || fate.applied {
          files := MarkRemoved(files, path);
        }
        if fate.breaks || affected != 1 {
          return false, checked, repaired;
        }
        repaired := repaired + [path];
      }
      return true, checked, repaired;
    }

    /**
     `RepairMissingDataFiles`. A successful run retires as many rows as it reports paths, only rows of missing files,
     and leaves no active file of the given tables unreadable; any run does the second if there are no strangers.
     */
    method RepairMissingDataFiles(tables: seq<string>, fates: seq<TableFate>, ghost readable: set<string>)
      returns (ok: bool, checked: nat, repaired: seq<string>)
      requires TruthfulTables(files, tables, fates, 0, [], readable)
      modifies this
      ensures Outcome(files, ok, checked, repaired) == HandleTables(old(files), tables, fates, 0, [])
      ensures OnlyRetires(old(files), files)
      ensures forall p :: p in repaired ==> p !in readable
      ensures ok ==> CountChanged(old(files), files) == |repaired|
      ensures (ok && OwnPaths(old(files))) || NoStrangers(old(files), tables, readable) ==>
                RetiredAreGone(old(files), files, readable) && VisibilityKept(old(files), files, readable)
      ensures ok && OwnPaths(old(files)) ==> forall t :: t in tables ==> TableReadable(files, t, readable)
    {
      ghost var files0 := files;
      UnchangedAtFirst(files0, readable);
      TablesCounted(files0, files0, tables, fates, 0, []);
      TablesReported(files0, tables, fates, 0, [], readable);
      if OwnPaths(files0) {
        TablesRepaired(files0, files0, tables, fates, 0, [], readable);
      }
      if NoStrangers(files0, tables, readable) {
        NoStrangersNoHarm(files0, files0, tables, tables, fates, 0, [], readable);
      }
      hide *;
      ok, checked, repaired := RepairTables(tables, fates);
      if RetiredAreGone(files0, files, readable) {
        GoneAreInvisible(files0, files, readable);
      }
    }

    /** The outer loop. */
    method RepairTables(tables: seq<string>, fates: seq<TableFate>)
      returns (ok: bool, checked: nat, repaired: seq<string>)
      modifies this
      ensures Outcome(files, ok, checked, repaired) == HandleTables(old(files), tables, fates, 0, [])
    {
      hide HandlePaths, Listed;
      checked, repaired := 0, [];
      for i := 0 to |tables|
        invariant i <= |fates|
        invariant HandleTables(old(files), tables, fates, 0, []) ==
                    HandleTables(files, tables[i..], fates[i..], checked, repaired)
      {
        assert tables[i..][0] == tables[i] && tables[i..][1..] == tables[i + 1..];
        if i == |fates| {
          return false, checked, repaired;
        }
        assert fates[i..][0] == fates[i] && fates[i..][1..] == fates[i + 1..];
        if !fates[i].listed {
          return false, checked, repaired;
        }
        ok, checked, repaired := RepairListed(Listed(files, tables[i]), fates[i].fates, checked, repaired);
        if !ok {
          return;
        }
      }
      return true, checked, repaired;
    }
  }

  lemma {:induction false} UnchangedAtFirst(files: seq<DataFile>, readable: set<string>)
    ensures OnlyRetires(files, files) && RetiredAreGone(files, files, readable) && CountChanged(files, files) == 0
    decreases files
  {
    if files != [] {
      UnchangedAtFirst(files[..|files| - 1], readable);
    }
  }
}
