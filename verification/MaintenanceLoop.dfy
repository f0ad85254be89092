/**
 The maintenance scheduler (internal/lake/lakeserver/maintenance.go): a pass is skipped when no snapshot is newer than
 the one read after the last completed pass. Writers commit snapshots at any time, also while a pass runs, behind the
 statement that would have compacted their table, and between the end of a pass and that reading.
 */
module MaintenanceLoop {
  import opened Wrappers

  /**
   What happens around one pass: which steps fail, how many snapshots are committed while it runs that some later
   statement of it still sees (its own among them), how many that none does, and how many after it.
   */
  datatype Pass = Pass(readFails: bool, seen: nat, unseen: nat, fails: bool, after: nat, baselineFails: bool)

  datatype Event = Commit(n: nat) | Tick(pass: Pass)

  /**
   `latest` counts snapshots, `covered` those that the last completed pass has dealt with, and `gap` those that were
   committed too late for it but before its baseline was read.
   */
  datatype State = State(latest: nat, baseline: Option<nat>, covered: nat, gap: nat)

  predicate Skips(retention: bool, s: State, readFails: bool) {
    !retention && s.baseline.Some? && !readFails && s.latest == s.baseline.value
  }

  function Step(retention: bool, s: State, ev: Event): State {
    match ev
    case Commit(n) => s.(latest := s.latest + n)
    case Tick(p) =>
      if Skips(retention, s, p.readFails) then s
      else if p.fails then s.(latest := s.latest + p.seen + p.unseen)
      else
        var covered := s.latest + p.seen;
        var t := State(covered + p.unseen + p.after, s.baseline, covered, p.unseen + p.after);
        if p.baselineFails then t else t.(baseline := Some(t.latest))
  }

  function Run(retention: bool, s: State, events: seq<Event>): State
    decreases |events|
  {
    if events == [] then s else Run(retention, Step(retention, s, events[0]), events[1..])
  }

  function Start(latest: nat): State {
    State(latest, None, 0, 0)
  }

  ghost predicate Sound(s: State) {
    && s.covered + s.gap <= s.latest
    && (s.baseline.Some? ==> s.baseline.value <= s.latest)
    && (s.baseline == Some(s.latest) ==> s.latest == s.covered + s.gap)
  }

  lemma {:induction false} RunSound(retention: bool, s: State, events: seq<Event>)
    requires Sound(s)
    ensures Sound(Run(retention, s, events))
    decreases |events|
  {
    if events != [] {
      RunSound(retention, Step(retention, s, events[0]), events[1..]);
    }
  }

  /**
   A skipped pass leaves out exactly the snapshots that the last completed pass did not deal with and its baseline
   includes: those committed behind its statements, or between its end and the reading.
   */
  lemma SkipMissesTheGap(retention: bool, latest: nat, events: seq<Event>, readFails: bool)
    ensures var s := Run(retention, Start(latest), events);
            Skips(retention, s, readFails) ==> s.latest - s.covered == s.gap
  {
    RunSound(retention, Start(latest), events);
  }

  ghost predicate QuietGaps(events: seq<Event>) {
    forall k :: 0 <= k < |events| && events[k].Tick? ==> events[k].pass.unseen == 0 && events[k].pass.after == 0
  }

  lemma {:induction false} QuietRun(retention: bool, s: State, events: seq<Event>)
    requires s.gap == 0 && QuietGaps(events)
    ensures Run(retention, s, events).gap == 0
    decreases |events|
  {
    if events != [] {
      assert events[0].Tick? ==> events[0].pass.unseen == 0 && events[0].pass.after == 0;
      QuietRun(retention, Step(retention, s, events[0]), events[1..]);
    }
  }

  /** If nothing is committed so late, the last completed pass has dealt with everything whenever one is skipped. */
  lemma QuietSkipMissesNothing(retention: bool, latest: nat, events: seq<Event>, readFails: bool)
    requires QuietGaps(events)
    ensures var s := Run(retention, Start(latest), events);
            Skips(retention, s, readFails) ==> s.latest == s.covered
  {
    RunSound(retention, Start(latest), events);
    QuietRun(retention, Start(latest), events);
  }

  /** But late snapshots, behind a statement or after the pass, are passed over, however many ticks follow. */
  lemma LateOnesArePassedOver(latest: nat, before: seq<Event>, p: Pass, ticks: seq<Event>)
    requires !p.fails && !p.baselineFails
    requires forall k :: 0 <= k < |ticks| ==> ticks[k].Tick? && !ticks[k].pass.readFails
    requires !Skips(false, Run(false, Start(latest), before), p.readFails)
    ensures var s := Run(false, Start(latest), before + [Tick(p)] + ticks);
            Skips(false, s, false) && s.latest - s.covered == p.unseen + p.after
  {
    var s := Run(false, Start(latest), before);
    RunAppend(false, Start(latest), before, [Tick(p)] + ticks);
    assert before + ([Tick(p)] + ticks) == before + [Tick(p)] + ticks;
    assert ([Tick(p)] + ticks)[1..] == ticks;
    StaysSkipped(Step(false, s, Tick(p)), ticks);
  }

  lemma {:induction false} RunAppend(retention: bool, s: State, a: seq<Event>, b: seq<Event>)
    ensures Run(retention, s, a + b) == Run(retention, Run(retention, s, a), b)
    decreases |a|
  {
    if a == [] {
      assert a + b == b;
    } else {
      assert (a + b)[1..] == a[1..] + b;
      RunAppend(retention, Step(retention, s, a[0]), a[1..], b);
    }
  }

  lemma {:induction false} StaysSkipped(s: State, ticks: seq<Event>)
    requires Skips(false, s, false)
    requires forall k :: 0 <= k < |ticks| ==> ticks[k].Tick? && !ticks[k].pass.readFails
    ensures Run(false, s, ticks) == s
  {
    if ticks != [] {
      StaysSkipped(s, ticks[1..]);
    }
  }

  /** Anything committed after a baseline was read makes the next pass run. */
  lemma NewSnapshotIsNoticed(retention: bool, latest: nat, events: seq<Event>, n: nat, readFails: bool)
    requires n > 0
    ensures !Skips(retention, Step(retention, Run(retention, Start(latest), events), Commit(n)), readFails)
  {
    RunSound(retention, Start(latest), events);
  }

  class Scheduler {
    const retentionEnabled: bool
    var latest: nat           // the catalog's newest snapshot
    var lastSnapshotId: nat
    var haveBaseline: bool
    ghost var covered: nat
    ghost var gap: nat

    constructor (latest: nat, retentionEnabled: bool)
      ensures Now() == Start(latest) && this.retentionEnabled == retentionEnabled
    {
      this.latest, this.retentionEnabled := latest, retentionEnabled;
      lastSnapshotId, haveBaseline, covered, gap := 0, false, 0, 0;
    }

    ghost function Now(): State
      reads this
    {
      State(latest, if haveBaseline then Some(lastSnapshotId) else None, covered, gap)
    }

    method CommitSnapshots(n: nat)
      modifies this
      ensures Now() == Step(retentionEnabled, old(Now()), Commit(n))
    {
      latest := latest + n;
    }

    /** `runPass`. */
    method RunPass(p: Pass) returns (skipped: bool)
      modifies this
      ensures skipped == Skips(retentionEnabled, old(Now()), p.readFails)
      ensures Now() == Step(retentionEnabled, old(Now()), Tick(p))
    {
      if !retentionEnabled && haveBaseline {
        if !p.readFails && latest == lastSnapshotId {
          return true;
        }
      }
      latest := latest + p.seen + p.unseen;
      if p.fails {
        return false;
      }
      covered := latest - p.unseen;
      latest, gap := latest + p.after, p.unseen + p.after;
      if !p.baselineFails {
        lastSnapshotId, haveBaseline := latest, true;
      }
      return false;
    }
  }
}
