/**
 The Redis-backed ingest queue (internal/queue/redis/redis.go): two lists, a reference is pushed on the left
 of the first, moved from its right to the left of the second, and removed from the second by value.
 */
module IngestQueue {

  /** One raw list entry. Two raw entries are the same Redis value exactly when they are equal here. */
  datatype Raw =
    | Ref(batchId: string)        // a JSON object with a batch_id
    | Payload(spans: seq<string>) // a legacy JSON array of spans
    | Malformed(text: string)     // neither

  /** Entries that `DequeueEntry` reports as errors: unparsable text, or an object without batch id. */
  predicate Unreadable(e: Raw) {
    e.Malformed? || (e.Ref? && e.batchId == "")
  }

  /** What the server did with a command and what the client saw of it. */
  datatype Reply =
    | Done      // carried out, success reported
    | Lost      // carried out, but an error was reported
    | Refused   // not carried out, an error was reported

  predicate Applied(r: Reply) {
    r != Refused
  }

  // ---------- List commands ----------

  function LPush(list: seq<Raw>, e: Raw): seq<Raw> {
    [e] + list
  }

  /** `LREM list 1 e`: drops the first occurrence from the left, if there is one. */
  function LRem(list: seq<Raw>, e: Raw): seq<Raw> {
    if list == [] then []
    else if list[0] == e then list[1..]
    else [list[0]] + LRem(list[1..], e)
  }

  /** How often `e` is in the list. */
  function Count(list: seq<Raw>, e: Raw): nat {
    if list == [] then 0 else (if list[0] == e then 1 else 0) + Count(list[1..], e)
  }

  lemma {:induction false} CountAppend(a: seq<Raw>, b: seq<Raw>, e: Raw)
    ensures Count(a + b, e) == Count(a, e) + Count(b, e)
  {
    if a == [] {
      assert a + b == b;
    } else {
      assert (a + b)[1..] == a[1..] + b;
      CountAppend(a[1..], b, e);
    }
  }

  lemma {:induction false} CountMember(list: seq<Raw>, e: Raw)
    ensures Count(list, e) > 0 <==> e in list
  {
    if list != [] {
      CountMember(list[1..], e);
      assert e in list <==> list[0] == e || e in list[1..];
    }
  }

  /** Removing by value takes away exactly one copy of that value, when there is one, and nothing else. */
  lemma {:induction false} LRemCounts(list: seq<Raw>, e: Raw, x: Raw)
    ensures Count(LRem(list, e), x) == Count(list, x) - (if x == e && e in list then 1 else 0)
  {
    if list != [] && list[0] != e {
      LRemCounts(list[1..], e, x);
    }
  }

  function Reversed(list: seq<Raw>): seq<Raw> {
    if list == [] then [] else Reversed(list[1..]) + [list[0]]
  }

  lemma {:induction false} ReversedLast(list: seq<Raw>)
    requires list != []
    ensures Reversed(list) == [list[|list| - 1]] + Reversed(list[..|list| - 1])
  {
    if |list| > 1 {
      ReversedLast(list[1..]);
      assert list[1..][..|list| - 2] == list[..|list| - 1][1..];
    }
  }

  lemma CountLast(list: seq<Raw>, e: Raw)
    requires list != []
    ensures Count(list, e) == Count(list[..|list| - 1], e) + (if list[|list| - 1] == e then 1 else 0)
  {
    assert list == list[..|list| - 1] + [list[|list| - 1]];
    CountAppend(list[..|list| - 1], [list[|list| - 1]], e);
  }

  // ---------- The queue ----------

  class IngestQueue {
    var queue: seq<Raw>
    var processing: seq<Raw>
    ghost var pushed: seq<Raw>     // every entry ever pushed, oldest first
    ghost var delivered: seq<Raw>  // every entry ever moved to `processing`, oldest first

    /** Deliveries happen in push order: what was delivered, then what waits, is what was pushed. */
    ghost predicate Valid()
      reads this
    {
      && delivered + Reversed(queue) == pushed
      && (forall e :: Count(processing, e) <= Count(delivered, e))
    }

    constructor ()
      ensures Valid() && queue == [] && processing == [] && pushed == []
    {
      queue, processing, pushed, delivered := [], [], [], [];
    }

    ghost function Total(e: Raw): nat
      reads this
    {
      Count(queue, e) + Count(processing, e)
    }

    /** `EnqueueRef` (and the push half of `Requeue`). */
    method Push(e: Raw, r: Reply) returns (ok: bool)
      requires Valid()
      modifies this
      ensures Valid()
      ensures ok == (r == Done)
      ensures queue == (if Applied(r) then LPush(old(queue), e) else old(queue))
      ensures pushed == (if Applied(r) then old(pushed) + [e] else old(pushed))
      ensures processing == old(processing) && delivered == old(delivered)
    {
      if Applied(r) {
        queue := LPush(queue, e);
        pushed := pushed + [e];
        assert queue[1..] == old(queue);
      }
      ok := r == Done;
    }

    /** `DequeueEntry`: the right end of the queue moves atomically to the processing list. */
    method DequeueEntry(r: Reply) returns (entry: seq<Raw>, err: bool)
      requires Valid()
      modifies this
      ensures Valid() && pushed == old(pushed)
      ensures delivered <= pushed && (queue == [] ==> delivered == pushed)
      ensures old(queue) == [] || !Applied(r) ==>
                queue == old(queue) && processing == old(processing) && delivered == old(delivered) && entry == []
      ensures old(queue) != [] && Applied(r) ==>
                var e := old(queue)[|old(queue)| - 1];
                && queue == old(queue)[..|old(queue)| - 1]
                && processing == LPush(old(processing), e)
                && delivered == old(delivered) + [e]
                && entry == (if r == Done then [e] else [])
      ensures err == (r != Done || (entry != [] && Unreadable(entry[0])))
    {
      entry, err := [], r != Done;
      if queue != [] && Applied(r) {
        var e := queue[|queue| - 1];
        ReversedLast(queue);
        forall x {
          CountAppend(delivered, [e], x);
        }
        queue, processing := queue[..|queue| - 1], LPush(processing, e);
        delivered := delivered + [e];
        if r == Done {
          entry, err := [e], Unreadable(e);
        }
      }
    }

    /** `Ack`. */
    method Ack(e: Raw, r: Reply) returns (ok: bool)
      requires Valid()
      modifies this
      ensures Valid()
      ensures ok == (r == Done)
      ensures queue == old(queue) && pushed == old(pushed) && delivered == old(delivered)
      ensures processing == (if Applied(r) then LRem(old(processing), e) else old(processing))
      ensures Total(e) == old(Total(e)) - (if Applied(r) && e in old(processing) then 1 else 0)
      ensures forall x :: x != e ==> Total(x) == old(Total(x))
    {
      if Applied(r) {
        forall x {
          LRemCounts(processing, e, x);
        }
        processing := LRem(processing, e);
      }
      ok := r == Done;
    }

    /** `Requeue`: push first, remove second; a crash in between is a `push` that is followed by nothing. */
    method Requeue(e: Raw, push: Reply, remove: Reply) returns (ok: bool)
      requires Valid()
      modifies this
      ensures Valid() && delivered == old(delivered)
      ensures ok == (push == Done && remove == Done)
      ensures queue == (if Applied(push) then LPush(old(queue), e) else old(queue))
      ensures processing == (if push == Done && Applied(remove) then LRem(old(processing), e) else old(processing))
      ensures e in old(processing) && ok ==> Total(e) == old(Total(e))
      ensures old(Total(e)) <= Total(e) <= old(Total(e)) + 1
      ensures forall x :: x != e ==> Total(x) == old(Total(x))
    {
      ok := Push(e, push);
      if ok {
        ok := Ack(e, remove);
      }
    }
  }
}
