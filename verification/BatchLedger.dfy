/**
 The ledger of committed batches (internal/metadata/sqlite/batch_ledger.go and the fake of
 internal/fake/metadata_store.go): the first mark of a batch stays, later ones change nothing.
 */
module BatchLedger {
  import IngestProtocol

  /** A mark: what was marked, when, and what the clock said. */
  datatype Mark = Mark(batchId: string, committedAt: int, now: int)

  const ZERO_TIME := 0

  /** The SQL store replaces a zero time by the current one. */
  function TimeOf(m: Mark): int {
    if m.committedAt == ZERO_TIME then m.now else m.committedAt
  }

  class Ledger {
    var committed: map<string, int>

    constructor ()
      ensures committed == map[]
    {
      committed := map[];
    }

    /** The SQL store's `MarkBatchCommitted`; on failure nothing is recorded. */
    method MarkBatchCommitted(m: Mark, fails: bool) returns (ok: bool)
      modifies this
      ensures ok == !fails
      ensures committed == if ok then IngestProtocol.MarkFirst(old(committed), m.batchId, TimeOf(m)) else old(committed)
      ensures ok && m.batchId !in old(committed) ==>
                committed == old(committed)[m.batchId := if m.committedAt == 0 then m.now else m.committedAt]
      ensures fails || m.batchId in old(committed) ==> committed == old(committed)
    {
      var committedAt := m.committedAt;
      if committedAt == ZERO_TIME {
        committedAt := m.now;
      }
      if fails {
        return false;
      }
      if m.batchId !in committed {
        committed := committed[m.batchId := committedAt];
      }
      return true;
    }

    method IsBatchCommitted(batchId: string) returns (yes: bool)
      ensures yes == (batchId in committed)
    {
      yes := batchId in committed;
    }
  }

  /** The ledger after marks that went through. */
  function AfterMarks(marks: seq<Mark>): map<string, int> {
    if marks == [] then map[]
    else
      var m := marks[|marks| - 1];
      IngestProtocol.MarkFirst(AfterMarks(marks[..|marks| - 1]), m.batchId, TimeOf(m))
  }

  /** A batch is committed exactly when some mark named it, at the time of the first that did. */
  lemma {:induction false} FirstMarkStays(marks: seq<Mark>, batchId: string, t: int)
    ensures batchId in AfterMarks(marks) && AfterMarks(marks)[batchId] == t <==>
              exists k :: 0 <= k < |marks| && marks[k].batchId == batchId &&
                t == (if marks[k].committedAt == 0 then marks[k].now else marks[k].committedAt) &&
                forall j :: 0 <= j < k ==> marks[j].batchId != batchId
  {
    if marks != [] {
      var n := |marks| - 1;
      FirstMarkStays(marks[..n], batchId, t);
      NotMarked(marks[..n], batchId);
      assert forall k :: 0 <= k < n ==> marks[..n][k] == marks[k];
    }
  }

  lemma {:induction false} NotMarked(marks: seq<Mark>, batchId: string)
    ensures batchId !in AfterMarks(marks) <==> forall k :: 0 <= k < |marks| ==> marks[k].batchId != batchId
  {
    if marks != [] {
      var n := |marks| - 1;
      NotMarked(marks[..n], batchId);
      assert forall k :: 0 <= k < n ==> marks[..n][k] == marks[k];
    }
  }
}
