/** Names of staged batches in the Ingest Buffer (internal/buffer/buffer.go). */
module BufferKeys {
  import opened Wrappers

  const PREFIX := "buffer/"
  const SUFFIX := ".json"

  function Key(batchId: string): string {
    PREFIX + batchId + SUFFIX
  }

  predicate HasPrefix(s: string, p: string) {
    |p| <= |s| && s[..|p|] == p
  }

  predicate HasSuffix(s: string, p: string) {
    |p| <= |s| && s[|s| - |p|..] == p
  }

  /** The prefix is cut first and the suffix from what is left, so the two never overlap. */
  function BatchIdFromKey(key: string): (id: Option<string>) {
    if !HasPrefix(key, PREFIX) then None
    else
      var rest := key[|PREFIX|..];
      if !HasSuffix(rest, SUFFIX) then None
      else
        var id := rest[..|rest| - |SUFFIX|];
        if id == "" || '/' in id then None else Some(id)
  }

  /** A key is read back as an id exactly when it is the key of that id and the id is usable. */
  lemma KeyRoundTrip(key: string, id: string)
    ensures BatchIdFromKey(key) == Some(id) <==> key == "buffer/" + id + ".json" && id != "" && '/' !in id
    ensures Key(id) == "buffer/" + id + ".json"
  {
    var k := Key(id);
    assert k[..|PREFIX|] == PREFIX;
    assert k[|PREFIX|..] == id + SUFFIX;
    assert (id + SUFFIX)[..|id|] == id && (id + SUFFIX)[|id|..] == SUFFIX;
    if BatchIdFromKey(key) == Some(id) {
      var rest := key[|PREFIX|..];
      assert key == PREFIX + rest;
      assert rest == rest[..|rest| - |SUFFIX|] + rest[|rest| - |SUFFIX|..];
    }
  }

  /** Different batches are staged under different keys. */
  lemma KeyInjective(a: string, b: string)
    requires Key(a) == Key(b)
    ensures a == b
  {
    var k := Key(a);
    assert k[|PREFIX|..|k| - |SUFFIX|] == a && k[|PREFIX|..|k| - |SUFFIX|] == b;
  }
}
