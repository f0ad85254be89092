/**
 Message lists flattened into numbered OTLP attributes (internal/normalizer/otlp.go): `prefix.3.role` and
 `prefix.3.content` hold the fourth message. Go's `int` is 64 bits wide and wraps.
 */
module OtlpMessages {
  import opened Wrappers

  datatype Message = Message(role: string, content: string)

  /** An attribute value; `Other` carries its "%v" text. */
  datatype AttrValue = Text(text: string) | Int(n: int) | Other(text: string)

  type Attrs = map<string, AttrValue>

  // ---------- Decimal numbers ----------

  predicate IsDigit(c: char) {
    '0' <= c <= '9'
  }

  predicate AllDigits(s: string) {
    forall k :: 0 <= k < |s| ==> IsDigit(s[k])
  }

  function DigitValue(c: char): nat
    requires IsDigit(c)
  {
    (c - '0') as nat
  }

  /** "%d" on a number that is not negative. */
  function PrintNat(n: nat): string {
    if n < 10 then ['0' + n as char] else PrintNat(n / 10) + ['0' + (n % 10) as char]
  }

  function PrintInt(n: int): string {
    if n < 0 then "-" + PrintNat(-n) else PrintNat(n)
  }

  function Number(s: string): nat
    requires AllDigits(s)
  {
    if s == [] then 0 else Number(s[..|s| - 1]) * 10 + DigitValue(s[|s| - 1])
  }

  /** Positions weigh ten times as much as the next, and there are no leading zeros. */
  lemma DecimalDigits(n: nat, d: nat)
    requires d < 10
    ensures PrintNat(d) == ["0123456789"[d]]
    ensures n > 0 ==> PrintNat(10 * n + d) == PrintNat(n) + ["0123456789"[d]]
  {
  }

  /** What is printed is read back. */
  lemma {:induction false} PrintThenRead(n: nat)
    ensures AllDigits(PrintNat(n)) && Number(PrintNat(n)) == n
  {
    if n >= 10 {
      PrintThenRead(n / 10);
      var s := PrintNat(n);
      assert s[..|s| - 1] == PrintNat(n / 10);
    } else {
      assert PrintNat(n)[..0] == [];
    }
  }

  // ---------- Keys ----------

  function Key(prefix: string, i: nat, field: string): string {
    prefix + "." + PrintNat(i) + "." + field
  }

  function LeadingDigits(s: string): (n: nat)
    ensures n <= |s| && AllDigits(s[..n]) && (n < |s| ==> !IsDigit(s[n]))
  {
    if s == [] || !IsDigit(s[0]) then 0
    else
      var n := LeadingDigits(s[1..]);
      assert s[..n + 1] == [s[0]] + s[1..][..n];
      n + 1
  }

  /** The index in `key`, if `key` is `prefix`, a dot, digits, a dot and anything else; the digits may be missing. */
  function IndexOf(key: string, prefix: string): (idx: Option<int>)
    ensures idx.Some? ==> -TWO63 <= idx.value < TWO63
  {
    if !(prefix + "." <= key) then None
    else
      var rest := key[|prefix| + 1..];
      var n := LeadingDigits(rest);
      if n < |rest| && rest[n] == '.' then Some(Wrap64(Number(rest[..n]))) else None
  }

  /** `extractNumberedIndex`. */
  method ExtractNumberedIndex(key: string, prefix: string) returns (idx: Option<int>)
    ensures idx == IndexOf(key, prefix)
  {
    hide Wrap64, LeadingDigits;
    if |key| <= |prefix| + 1 || key[..|prefix| + 1] != prefix + "." {
      assert prefix + "." <= key ==> key[|prefix| + 1..] == [];
      return None;
    }
    var rest := key[|prefix| + 1..];
    var dotIdx := -1;
    for i := 0 to |rest|
      invariant dotIdx == -1 && AllDigits(rest[..i])
    {
      if rest[i] == '.' {
        dotIdx := i;
        break;
      }
      if !IsDigit(rest[i]) {
        LeadingIs(rest, i);
        return None;
      }
    }
    if dotIdx < 0 {
      return None;
    }
    LeadingIs(rest, dotIdx);
    var numStr := rest[..dotIdx];
    var n := 0;
    for j := 0 to |numStr|
      invariant n == Wrap64(Number(numStr[..j]))
    {
      assert numStr[..j + 1][..j] == numStr[..j];
      WrapStep(Number(numStr[..j]), DigitValue(numStr[j]));
      n := Wrap64(n * 10 + DigitValue(numStr[j]));
    }
    assert numStr[..|numStr|] == numStr;
    return Some(n);
  }

  lemma LeadingIs(s: string, n: nat)
    requires n < |s| && AllDigits(s[..n]) && !IsDigit(s[n])
    ensures LeadingDigits(s) == n
  {
    var m := LeadingDigits(s);
    assert forall k :: 0 <= k < n ==> s[k] == s[..n][k];
    assert forall k :: 0 <= k < m ==> s[k] == s[..m][k];
  }

  /** Wrapping after every digit is the same as wrapping once. */
  lemma WrapStep(a: int, d: int)
    ensures Wrap64(Wrap64(a) * 10 + d) == Wrap64(a * 10 + d)
  {
    var k := (a + TWO63) / (2 * TWO63);
    assert Wrap64(a) == a - k * (2 * TWO63);
    WrapShift(a * 10 + d, -10 * k);
  }

  lemma WrapShift(x: int, k: int)
    ensures Wrap64(x + k * (2 * TWO63)) == Wrap64(x)
  {
    var m := 2 * TWO63;
    var y := x + TWO63;
    assert (y + k * m) / m == y / m + k;
  }

  /** An index is found in exactly the keys `prefix.<digits>.<anything>`, and it is the number written there. */
  lemma IndexIff(key: string, prefix: string, n: int)
    ensures IndexOf(key, prefix) == Some(n) <==>
              exists digits, field ::
                && key == prefix + "." + digits + "." + field
                && AllDigits(digits) && n == Wrap64(Number(digits))
  {
    if IndexOf(key, prefix) == Some(n) {
      var rest := key[|prefix| + 1..];
      var d := LeadingDigits(rest);
      assert rest == rest[..d] + "." + rest[d + 1..];
      assert key == prefix + "." + rest[..d] + "." + rest[d + 1..];
    }
    forall digits, field |
      key == prefix + "." + digits + "." + field && AllDigits(digits) && n == Wrap64(Number(digits))
      ensures IndexOf(key, prefix) == Some(n)
    {
      IndexOfDigits(prefix, digits, field);
    }
  }

  lemma IndexOfDigits(prefix: string, digits: string, field: string)
    requires AllDigits(digits)
    ensures IndexOf(prefix + "." + digits + "." + field, prefix) == Some(Wrap64(Number(digits)))
  {
    var key := prefix + "." + digits + "." + field;
    var rest := key[|prefix| + 1..];
    assert rest == digits + "." + field;
    assert rest[..|digits|] == digits;
    LeadingIs(rest, |digits|);
  }

  lemma IndexOfKey(prefix: string, i: nat, field: string)
    ensures IndexOf(Key(prefix, i, field), prefix) == Some(Wrap64(i))
  {
    PrintThenRead(i);
    IndexOfDigits(prefix, PrintNat(i), field);
  }

  lemma KeyInjective(prefix: string, i: nat, field: string, j: nat, other: string)
    requires i < TWO63 && j < TWO63 && Key(prefix, i, field) == Key(prefix, j, other)
    ensures i == j && field == other
  {
    IndexOfKey(prefix, i, field);
    IndexOfKey(prefix, j, other);
    var start := |prefix + "." + PrintNat(i) + "."|;
    assert Key(prefix, i, field)[start..] == field;
  }

  // ---------- Decoding ----------

  /** `extractAttributeString`. */
  function AttrString(attrs: Attrs, key: string): string {
    if key !in attrs then ""
    else match attrs[key]
      case Text(text) => text
      case Int(n) => PrintInt(n)
      case Other(text) => text
  }

  predicate IsMaxIndex(keys: set<string>, prefix: string, m: int) {
    && (forall k :: k in keys && IndexOf(k, prefix).Some? ==> IndexOf(k, prefix).value <= m)
    && (m == -1 || (m >= 0 && exists k :: k in keys && IndexOf(k, prefix) == Some(m)))
  }

  ghost function MaxIndex(keys: set<string>, prefix: string): (m: int)
    ensures IsMaxIndex(keys, prefix, m)
  {
    if keys == {} then -1
    else
      var k :| k in keys;
      var m := MaxIndex(keys - {k}, prefix);
      var i := IndexOf(k, prefix);
      if i.Some? && i.value > m then i.value else m
  }

  lemma MaxIndexStep(seen: set<string>, k: string, prefix: string, m: int)
    requires IsMaxIndex(seen, prefix, m)
    ensures var i := IndexOf(k, prefix);
            IsMaxIndex(seen + {k}, prefix, if i.Some? && i.value > m then i.value else m)
  {
    hide IndexOf;
    assert k in seen + {k};
  }

  lemma MaxIndexUnique(keys: set<string>, prefix: string, m: int)
    requires IsMaxIndex(keys, prefix, m)
    ensures m == MaxIndex(keys, prefix)
  {
    hide IndexOf;
  }

  /** The complete messages below index `n`, in index order. */
  function Collect(attrs: Attrs, prefix: string, n: nat): seq<Message> {
    if n == 0 then []
    else
      var role := AttrString(attrs, Key(prefix, n - 1, "role"));
      var content := AttrString(attrs, Key(prefix, n - 1, "content"));
      Collect(attrs, prefix, n - 1) + if role != "" && content != "" then [Message(role, content)] else []
  }

  /** The decoded list; `None` when room for the highest index cannot be allocated. */
  ghost function Decoded(attrs: Attrs, prefix: string, capacity: nat): Option<seq<Message>> {
    var m := MaxIndex(attrs.Keys, prefix);
    if m < 0 then Some([])
    else if m + 1 > capacity then None
    else Some(Collect(attrs, prefix, m + 1))
  }

  /** The first loop of `buildMessageArray`: attributes are visited in any order. */
  method FindMaxIndex(attrs: Attrs, prefix: string) returns (maxIdx: int)
    ensures maxIdx == MaxIndex(attrs.Keys, prefix) && maxIdx < TWO63
  {
    hide IndexOf;
    maxIdx := -1;
    var keys := attrs.Keys;
    while keys != {}
      invariant keys <= attrs.Keys && maxIdx < TWO63
      invariant IsMaxIndex(attrs.Keys - keys, prefix, maxIdx)
    {
      var k :| k in keys;
      var idx := ExtractNumberedIndex(k, prefix);
      ghost var seen := attrs.Keys - keys;
      keys := keys - {k};
      assert attrs.Keys - keys == seen + {k};
      MaxIndexStep(seen, k, prefix, maxIdx);
      if idx.Some? && idx.value > maxIdx {
        maxIdx := idx.value;
      }
    }
    assert attrs.Keys - {} == attrs.Keys;
    MaxIndexUnique(attrs.Keys, prefix, maxIdx);
  }

  /** `buildMessageArray` up to rendering as JSON. */
  method BuildMessageArray(attrs: Attrs, prefix: string, capacity: nat) returns (out: Option<seq<Message>>)
    requires capacity < TWO63
    ensures out == Decoded(attrs, prefix, capacity)
  {
    hide Key, AttrString;
    var maxIdx := FindMaxIndex(attrs, prefix);
    if maxIdx < 0 {
      return Some([]);
    }
    var room := Wrap64(maxIdx + 1);
    if room < 0 || room > capacity {
      assert maxIdx + 1 > capacity;
      return None;
    }
    var messages := [];
    for i := 0 to maxIdx + 1
      invariant messages == Collect(attrs, prefix, i)
    {
      var role := AttrString(attrs, Key(prefix, i, "role"));
      var content := AttrString(attrs, Key(prefix, i, "content"));
      if role != "" && content != "" {
        messages := messages + [Message(role, content)];
      }
    }
    return Some(messages);
  }

  // ---------- Encoding, and the round trip ----------

  function Encode(prefix: string, ms: seq<Message>): Attrs {
    if ms == [] then map[]
    else
      var i := |ms| - 1;
      Encode(prefix, ms[..i])[Key(prefix, i, "role") := Text(ms[i].role)]
                             [Key(prefix, i, "content") := Text(ms[i].content)]
  }

  predicate AllFilled(ms: seq<Message>) {
    forall k :: 0 <= k < |ms| ==> ms[k].role != "" && ms[k].content != ""
  }

  /** Further attributes that do not disturb a list of `n` messages: none is read, none names a higher index. */
  predicate Bystanders(extra: Attrs, prefix: string, ms: seq<Message>) {
    forall k :: k in extra ==>
      k !in Encode(prefix, ms) && (IndexOf(k, prefix).Some? ==> IndexOf(k, prefix).value < |ms|)
  }

  lemma {:induction false} EncodedKeys(prefix: string, ms: seq<Message>, key: string)
    requires |ms| < TWO63 && key in Encode(prefix, ms)
    ensures IndexOf(key, prefix).Some? && 0 <= IndexOf(key, prefix).value < |ms|
  {
    var i := |ms| - 1;
    if key == Key(prefix, i, "role") {
      IndexOfKey(prefix, i, "role");
    } else if key == Key(prefix, i, "content") {
      IndexOfKey(prefix, i, "content");
    } else {
      EncodedKeys(prefix, ms[..i], key);
    }
  }

  lemma {:induction false} EncodedAt(prefix: string, ms: seq<Message>, k: nat)
    requires |ms| < TWO63 && k < |ms|
    ensures var e := Encode(prefix, ms);
            var r, c := Key(prefix, k, "role"), Key(prefix, k, "content");
            r in e && c in e && e[r] == Text(ms[k].role) && e[c] == Text(ms[k].content)
  {
    hide Key;
    var i := |ms| - 1;
    if Key(prefix, i, "role") == Key(prefix, i, "content") {
      KeyInjective(prefix, i, "role", i, "content");
    }
    if k < i {
      EncodedAt(prefix, ms[..i], k);
      KeysApart(prefix, k, i);
    }
  }

  lemma KeysApart(prefix: string, i: nat, j: nat)
    requires i < TWO63 && j < TWO63 && i != j
    ensures Key(prefix, i, "role") !in [Key(prefix, j, "role"), Key(prefix, j, "content")]
    ensures Key(prefix, i, "content") !in [Key(prefix, j, "role"), Key(prefix, j, "content")]
  {
    hide Key;
    forall f, g | f in ["role", "content"] && g in ["role", "content"]
      ensures Key(prefix, i, f) != Key(prefix, j, g)
    {
      if Key(prefix, i, f) == Key(prefix, j, g) {
        KeyInjective(prefix, i, f, j, g);
      }
    }
  }

  lemma {:induction false} CollectEncoded(prefix: string, ms: seq<Message>, extra: Attrs, n: nat)
    requires n <= |ms| < TWO63 && AllFilled(ms) && Bystanders(extra, prefix, ms)
    ensures Collect(extra + Encode(prefix, ms), prefix, n) == ms[..n]
  {
    hide Key, Encode;
    if n > 0 {
      CollectEncoded(prefix, ms, extra, n - 1);
      EncodedAt(prefix, ms, n - 1);
      assert ms[..n] == ms[..n - 1] + [ms[n - 1]];
    }
  }

  /** Encoding non-empty messages among other attributes and decoding gives the same list, in order. */
  lemma EncodeThenDecode(prefix: string, ms: seq<Message>, extra: Attrs, capacity: nat)
    requires AllFilled(ms) && Bystanders(extra, prefix, ms)
    requires |ms| <= capacity < TWO63
    ensures Decoded(extra + Encode(prefix, ms), prefix, capacity) == Some(ms)
  {
    var attrs := extra + Encode(prefix, ms);
    forall k | k in attrs && IndexOf(k, prefix).Some?
      ensures IndexOf(k, prefix).value <= |ms| - 1
    {
      if k in Encode(prefix, ms) {
        EncodedKeys(prefix, ms, k);
      }
    }
    if ms != [] {
      EncodedAt(prefix, ms, |ms| - 1);
      IndexOfKey(prefix, |ms| - 1, "role");
      assert Key(prefix, |ms| - 1, "role") in attrs.Keys;
    }
    assert IsMaxIndex(attrs.Keys, prefix, |ms| - 1);
    MaxIndexUnique(attrs.Keys, prefix, |ms| - 1);
    CollectEncoded(prefix, ms, extra, |ms|);
    assert ms[..|ms|] == ms;
  }

  /** In particular attributes outside `prefix.` never disturb it. */
  lemma OutsidersAreBystanders(extra: Attrs, prefix: string, ms: seq<Message>)
    requires |ms| < TWO63
    requires forall k :: k in extra ==> !(prefix + "." <= k)
    ensures Bystanders(extra, prefix, ms)
  {
    forall k | k in extra && k in Encode(prefix, ms)
      ensures false
    {
      EncodedKeys(prefix, ms, k);
    }
  }

  /** `key` holds the role or the content of a message: its index is written without leading zeros and fits. */
  ghost predicate IsReadKey(key: string, prefix: string) {
    exists i: nat :: i < TWO63 && key in [Key(prefix, i, "role"), Key(prefix, i, "content")]
  }

  lemma {:induction false} OtherKeysAreNotRead(attrs: Attrs, prefix: string, n: nat, key: string, v: AttrValue)
    requires n <= TWO63 && !IsReadKey(key, prefix)
    ensures Collect(attrs[key := v], prefix, n) == Collect(attrs, prefix, n)
  {
    hide Key;
    if n > 0 {
      OtherKeysAreNotRead(attrs, prefix, n - 1, key, v);
      assert key !in [Key(prefix, n - 1, "role"), Key(prefix, n - 1, "content")];
    }
  }

  /** An attribute that is not read and names no index above those present makes no difference. */
  lemma UnreadMakesNoDifference(attrs: Attrs, prefix: string, capacity: nat, key: string, v: AttrValue)
    requires capacity < TWO63 && !IsReadKey(key, prefix)
    requires var idx := IndexOf(key, prefix);
             idx.Some? ==> idx.value <= MaxIndex(attrs.Keys, prefix) || idx.value < 0
    ensures Decoded(attrs[key := v], prefix, capacity) == Decoded(attrs, prefix, capacity)
  {
    hide IndexOf, IsReadKey, Collect;
    var m := MaxIndex(attrs.Keys, prefix);
    assert attrs[key := v].Keys == attrs.Keys + {key};
    MaxIndexStep(attrs.Keys, key, prefix, m);
    MaxIndexUnique(attrs[key := v].Keys, prefix, m);
    if 0 <= m < capacity {
      OtherKeysAreNotRead(attrs, prefix, m + 1, key, v);
    }
  }

  /** A message is decoded exactly when both its keys, with the plain decimal index, hold non-empty text. */
  lemma {:induction false} CollectedIff(attrs: Attrs, prefix: string, n: nat, m: Message)
    ensures m in Collect(attrs, prefix, n) <==>
              && m.role != "" && m.content != ""
              && exists i: nat :: i < n && IsMessageAt(attrs, prefix, i, m)
  {
    hide Key, AttrString;
    if n > 0 {
      CollectedIff(attrs, prefix, n - 1, m);
      var role := AttrString(attrs, Key(prefix, n - 1, "role"));
      var content := AttrString(attrs, Key(prefix, n - 1, "content"));
      assert m == Message(role, content) <==> IsMessageAt(attrs, prefix, n - 1, m);
      assert (exists i: nat :: i < n && IsMessageAt(attrs, prefix, i, m)) <==>
        IsMessageAt(attrs, prefix, n - 1, m) || exists i: nat :: i < n - 1 && IsMessageAt(attrs, prefix, i, m);
    }
  }

  predicate IsMessageAt(attrs: Attrs, prefix: string, i: nat, m: Message) {
    AttrString(attrs, Key(prefix, i, "role")) == m.role && AttrString(attrs, Key(prefix, i, "content")) == m.content
  }

  /** A key without digits counts as index 0, but no message is ever read from it. */
  lemma MissingDigits(attrs: Attrs, prefix: string, field: string, v: AttrValue, capacity: nat)
    requires capacity < TWO63
    ensures var key := prefix + "." + "" + "." + field;
            && IndexOf(key, prefix) == Some(0)
            && Decoded(attrs[key := v], prefix, capacity) ==
                 if capacity == 0 then None else Decoded(attrs, prefix, capacity)
  {
    hide IndexOf, IsReadKey, Collect;
    var key := prefix + "." + "" + "." + field;
    IndexOfDigits(prefix, "", field);
    NoDigitsNotRead(prefix, field);
    var m := MaxIndex(attrs.Keys, prefix);
    if m >= 0 {
      UnreadMakesNoDifference(attrs, prefix, capacity, key, v);
    } else {
      assert attrs[key := v].Keys == attrs.Keys + {key};
      MaxIndexStep(attrs.Keys, key, prefix, m);
      MaxIndexUnique(attrs[key := v].Keys, prefix, 0);
      OtherKeysAreNotRead(attrs, prefix, 1, key, v);
      NothingBelowZero(attrs, prefix);
    }
  }

  lemma NoDigitsNotRead(prefix: string, field: string)
    ensures !IsReadKey(prefix + "." + "" + "." + field, prefix)
  {
    var key := prefix + "." + "" + "." + field;
    assert key[|prefix| + 1] == '.';
    forall i: nat, f
      ensures Key(prefix, i, f) != key
    {
      PrintThenRead(i);
      PrintNotEmpty(i);
      assert Key(prefix, i, f)[|prefix| + 1] == PrintNat(i)[0];
    }
  }

  lemma PrintNotEmpty(n: nat)
    ensures PrintNat(n) != ""
  {
  }

  /** Without indices nothing is complete at 0. */
  lemma NothingBelowZero(attrs: Attrs, prefix: string)
    requires MaxIndex(attrs.Keys, prefix) < 0
    ensures Collect(attrs, prefix, 1) == []
  {
    hide IndexOf, Key;
    IndexOfKey(prefix, 0, "role");
    assert Key(prefix, 0, "role") !in attrs.Keys;
    assert Collect(attrs, prefix, 0) == [];
  }

  /** An index that wraps to a negative number is ignored, as if it were not an index at all. */
  lemma WrappedIndex(attrs: Attrs, prefix: string, i: nat, field: string, v: AttrValue, capacity: nat)
    requires Wrap64(i) < 0 && capacity < TWO63
    ensures Decoded(attrs[Key(prefix, i, field) := v], prefix, capacity) == Decoded(attrs, prefix, capacity)
  {
    hide IndexOf, Key, Decoded;
    IndexOfKey(prefix, i, field);
    forall j: nat, f | j < TWO63
      ensures Key(prefix, j, f) != Key(prefix, i, field)
    {
      IndexOfKey(prefix, j, f);
    }
    UnreadMakesNoDifference(attrs, prefix, capacity, Key(prefix, i, field), v);
  }

  /** Decoding fails exactly when some key names an index with no room below the capacity. */
  lemma NoRoomIff(attrs: Attrs, prefix: string, capacity: nat)
    ensures Decoded(attrs, prefix, capacity).None? <==>
              exists k :: k in attrs && IndexOf(k, prefix).Some? && IndexOf(k, prefix).value >= capacity
  {
    hide IndexOf;
  }

  /** Text as it is, a whole number in decimal, and nothing for a missing attribute. */
  lemma AttrStringIs(attrs: Attrs, key: string)
    ensures key !in attrs ==> AttrString(attrs, key) == ""
    ensures key in attrs && !attrs[key].Int? ==> AttrString(attrs, key) == attrs[key].text
    ensures key in attrs && attrs[key].Int? && attrs[key].n >= 0 ==>
              var s := AttrString(attrs, key);
              AllDigits(s) && Number(s) == attrs[key].n && s == PrintNat(attrs[key].n)
    ensures key in attrs && attrs[key].Int? && attrs[key].n < 0 ==>
              var s := AttrString(attrs, key);
              s != "" && s[0] == '-' && AllDigits(s[1..]) && Number(s[1..]) == -attrs[key].n
  {
    if key in attrs && attrs[key].Int? {
      var n := attrs[key].n;
      PrintThenRead(if n < 0 then -n else n);
      assert n < 0 ==> PrintInt(n)[1..] == PrintNat(-n);
    }
  }

  // ---------- What overflows ----------

  const MESSAGE_PREFIXES := ["gen_ai.prompt", "llm.prompt", "gen_ai.completion", "llm.completion"]

  const MODEL_KEYS := {"gen_ai.request.model", "llm.request.model"}

  const TOKEN_KEYS := {
    "gen_ai.usage.input_tokens", "prompt_tokens", "gen_ai.usage.output_tokens", "completion_tokens"}

  const SINGLE_KEYS := {
    "omneval.input", "omneval.output", "gen_ai.input.messages", "gen_ai.output.messages", "input.value",
    "output.value", "omneval.kind", "service.name"}

  const CONVERSATION_KEYS := [
    "gen_ai.conversation.id", "omneval.conversation.id", "session.id", "lanr.association.properties.session_id"]

  predicate IsMessageKey(k: string) {
    exists p :: p in MESSAGE_PREFIXES && IndexOf(k, p).Some?
  }

  /** The keys whose content has a place of its own in the span. */
  predicate Consumed(k: string) {
    k in MODEL_KEYS || k in TOKEN_KEYS || IsMessageKey(k) || k in SINGLE_KEYS || k in CONVERSATION_KEYS
  }

  /** They are these. */
  lemma ConsumedIff(k: string)
    ensures Consumed(k) <==>
              || k in {"gen_ai.request.model", "llm.request.model", "gen_ai.usage.input_tokens", "prompt_tokens",
                       "gen_ai.usage.output_tokens", "completion_tokens", "omneval.input", "omneval.output",
                       "gen_ai.input.messages", "gen_ai.output.messages", "input.value", "output.value",
                       "omneval.kind", "service.name", "gen_ai.conversation.id", "omneval.conversation.id",
                       "session.id", "lanr.association.properties.session_id"}
              || IndexOf(k, "gen_ai.prompt").Some? || IndexOf(k, "llm.prompt").Some?
              || IndexOf(k, "gen_ai.completion").Some? || IndexOf(k, "llm.completion").Some?
  {
    hide IndexOf;
    var p := MESSAGE_PREFIXES;
    assert p[0] == "gen_ai.prompt" && p[1] == "llm.prompt" && p[2] == "gen_ai.completion" && p[3] == "llm.completion";
    var c := CONVERSATION_KEYS;
    assert c[0] in c && c[1] in c && c[2] in c && c[3] in c && |c| == 4;
  }

  /** One iteration of the loop over message keys: the prefixes are tried in two pairs. */
  method NumberedKey(k: string) returns (found: bool)
    ensures found == IsMessageKey(k)
  {
    hide IndexOf;
    var idx := ExtractNumberedIndex(k, MESSAGE_PREFIXES[0]);
    if idx.None? {
      idx := ExtractNumberedIndex(k, MESSAGE_PREFIXES[1]);
    }
    var other := ExtractNumberedIndex(k, MESSAGE_PREFIXES[2]);
    if other.None? {
      other := ExtractNumberedIndex(k, MESSAGE_PREFIXES[3]);
    }
    found := idx.Some? || other.Some?;
    assert forall p :: p in MESSAGE_PREFIXES <==>
      p in {MESSAGE_PREFIXES[0], MESSAGE_PREFIXES[1], MESSAGE_PREFIXES[2], MESSAGE_PREFIXES[3]};
  }

  /** `buildOverflowAttributes`: every attribute is either consumed or kept with its value. */
  method BuildOverflowAttributes(attrs: Attrs) returns (overflow: Attrs)
    ensures forall k :: k in overflow <==> k in attrs && !Consumed(k)
    ensures forall k :: k in overflow ==> overflow[k] == attrs[k]
  {
    hide IsMessageKey;
    var remove := RemovedKeys(attrs);
    overflow := map[];
    var keys := attrs.Keys;
    while keys != {}
      invariant keys <= attrs.Keys
      invariant forall k :: k in overflow <==> k in attrs && k !in keys && !Consumed(k)
      invariant forall k :: k in overflow ==> overflow[k] == attrs[k]
    {
      var k :| k in keys;
      keys := keys - {k};
      if k !in remove {
        overflow := overflow[k := attrs[k]];
      }
    }
  }

  /** The loops that look for one of a few known keys. */
  method PresentKeys(attrs: Attrs, wanted: set<string>) returns (found: set<string>)
    ensures found == set k | k in attrs && k in wanted
  {
    found := {};
    var keys := attrs.Keys;
    while keys != {}
      invariant keys <= attrs.Keys
      invariant found == set k | k in attrs && k !in keys && k in wanted
    {
      var k :| k in keys;
      keys := keys - {k};
      if k in wanted {
        found := found + {k};
      }
    }
  }

  /** The loop that looks for numbered message keys. */
  method NumberedKeys(attrs: Attrs) returns (found: set<string>)
    ensures found == set k | k in attrs && IsMessageKey(k)
  {
    hide IsMessageKey;
    found := {};
    var keys := attrs.Keys;
    while keys != {}
      invariant keys <= attrs.Keys
      invariant found == set k | k in attrs && k !in keys && IsMessageKey(k)
    {
      var k :| k in keys;
      keys := keys - {k};
      var numbered := NumberedKey(k);
      if numbered {
        found := found + {k};
      }
    }
  }

  method RemovedKeys(attrs: Attrs) returns (remove: set<string>)
    ensures remove == set k | k in attrs && Consumed(k)
  {
    hide IsMessageKey;
    remove := PresentKeys(attrs, MODEL_KEYS);
    var tokens := PresentKeys(attrs, TOKEN_KEYS);
    remove := remove + tokens;
    var numbered := NumberedKeys(attrs);
    remove := remove + numbered;
    remove := remove + set k | k in SINGLE_KEYS && k in attrs;
    for i := 0 to |CONVERSATION_KEYS|
      invariant remove == set k | k in attrs &&
        (k in MODEL_KEYS || k in TOKEN_KEYS || IsMessageKey(k) || k in SINGLE_KEYS || k in CONVERSATION_KEYS[..i])
    {
      if CONVERSATION_KEYS[i] in attrs {
        remove := remove + {CONVERSATION_KEYS[i]};
      }
    }
  }

  /** Nothing that decoding a known prefix reads is left among the overflow attributes. */
  lemma DecodedKeysAreConsumed(prefix: string, i: nat, field: string)
    requires prefix in MESSAGE_PREFIXES
    ensures Consumed(Key(prefix, i, field))
  {
    IndexOfKey(prefix, i, field);
  }
}
