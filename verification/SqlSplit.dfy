/**
 Splitting a migration into statements (internal/metadata/sqlite/sqlite.go): semicolons cut, except inside quotes.
 Comments are not recognised.
 */
module SqlSplit {
  import opened TextLines

  // ---------- Quotes ----------

  datatype Mode = Plain | Quoted(quoteChar: char)

  predicate IsQuote(c: char) {
    c in ['"', '\'', '`']
  }

  function NextMode(mode: Mode, c: char): Mode {
    match mode
    case Plain => if IsQuote(c) then Quoted(c) else Plain
    case Quoted(q) => if c == q then Plain else mode
  }

  /** Whether the end of `s` lies inside quotes. */
  function ModeAfter(s: string): Mode {
    if s == [] then Plain else NextMode(ModeAfter(s[..|s| - 1]), s[|s| - 1])
  }

  /** A semicolon outside quotes. */
  predicate IsCut(s: string, i: nat)
    requires i < |s|
  {
    s[i] == ';' && ModeAfter(s[..i]) == Plain
  }

  predicate NoCut(s: string) {
    forall i :: 0 <= i < |s| ==> !IsCut(s, i)
  }

  // ---------- The segments between cuts ----------

  function Segments(s: string): (segs: seq<string>)
    ensures segs != []
  {
    if s == [] then [[]]
    else
      var i := |s| - 1;
      var before := Segments(s[..i]);
      var k := |before| - 1;
      if IsCut(s, i) then before + [[]] else before[k := before[k] + [s[i]]]
  }

  predicate IsSpace(c: char) {
    || '\U{0009}' <= c <= '\U{000D}' || c == ' ' || c == '\U{0085}' || c == '\U{00A0}' || c == '\U{1680}'
    || '\U{2000}' <= c <= '\U{200A}' || c == '\U{2028}' || c == '\U{2029}' || c == '\U{202F}' || c == '\U{205F}'
    || c == '\U{3000}'
  }

  function TrimLeft(s: string): string {
    if s != [] && IsSpace(s[0]) then TrimLeft(s[1..]) else s
  }

  function TrimRight(s: string): string {
    if s != [] && IsSpace(s[|s| - 1]) then TrimRight(s[..|s| - 1]) else s
  }

  function TrimSpace(s: string): string {
    TrimRight(TrimLeft(s))
  }

  /** All segments, the last one trimmed, or dropped when it is blank. */
  function Parts(segs: seq<string>): seq<string>
    requires segs != []
  {
    var k := |segs| - 1;
    var last := TrimSpace(segs[k]);
    segs[..k] + if last != "" then [last] else []
  }

  /** `splitStatements`. */
  method SplitStatements(sql: string) returns (parts: seq<string>)
    ensures parts == Parts(Segments(sql))
  {
    parts := [];
    var current := "";
    var inQuote := false;
    var quoteChar: char := ' ';
    for i := 0 to |sql|
      invariant parts + [current] == Segments(sql[..i])
      invariant ModeAfter(sql[..i]) == if inQuote then Quoted(quoteChar) else Plain
    {
      var r := sql[i];
      assert sql[..i + 1][..i] == sql[..i];
      if inQuote {
        current := current + [r];
        if r == quoteChar {
          inQuote := false;
        }
        continue;
      }
      if IsQuote(r) {
        current := current + [r];
        inQuote := true;
        quoteChar := r;
      } else if r == ';' {
        parts := parts + [current];
        current := "";
      } else {
        current := current + [r];
      }
    }
    assert sql[..|sql|] == sql;
    assert (parts + [current])[..|parts|] == parts;
    var s := TrimSpace(current);
    if s != "" {
      parts := parts + [s];
    }
  }

  // ---------- Nothing is lost ----------

  lemma {:induction false} JoinSnoc(lines: seq<string>, line: string)
    requires lines != []
    ensures Join(lines + [line], ';') == Join(lines, ';') + [';'] + line
  {
    if |lines| > 1 {
      JoinSnoc(lines[1..], line);
      assert (lines + [line])[1..] == lines[1..] + [line];
    } else {
      assert (lines + [line])[1..] == [line];
    }
  }

  lemma {:induction false} JoinExtend(lines: seq<string>, c: char)
    requires lines != []
    ensures var k := |lines| - 1;
            Join(lines[k := lines[k] + [c]], ';') == Join(lines, ';') + [c]
  {
    var k := |lines| - 1;
    var longer := lines[k := lines[k] + [c]];
    if k > 0 {
      JoinExtend(lines[1..], c);
      assert longer[1..] == lines[1..][k - 1 := lines[1..][k - 1] + [c]];
    }
  }

  /** Joining the segments with semicolons rebuilds the text. */
  lemma {:induction false} SegmentsRejoin(s: string)
    ensures Join(Segments(s), ';') == s
  {
    if s != [] {
      var i := |s| - 1;
      SegmentsRejoin(s[..i]);
      assert s == s[..i] + [s[i]];
      JoinSnoc(Segments(s[..i]), []);
      JoinExtend(Segments(s[..i]), s[i]);
    }
  }

  // ---------- Cuts are exactly at the semicolons outside quotes ----------

  /** Segments without cuts inside; only the last may end inside quotes. */
  ghost predicate ProperSegments(segs: seq<string>) {
    && segs != []
    && (forall k :: 0 <= k < |segs| ==> NoCut(segs[k]))
    && (forall k :: 0 <= k < |segs| - 1 ==> ModeAfter(segs[k]) == Plain)
  }

  lemma NoCutMore(s: string, c: char)
    requires NoCut(s)
    ensures NoCut(s + [c]) <==> !(c == ';' && ModeAfter(s) == Plain)
    ensures ModeAfter(s + [c]) == NextMode(ModeAfter(s), c)
  {
    var t := s + [c];
    assert t[..|s|] == s;
    forall i | 0 <= i < |s|
      ensures !IsCut(t, i)
    {
      assert t[..i] == s[..i];
      assert !IsCut(s, i);
    }
    assert IsCut(t, |s|) <==> c == ';' && ModeAfter(s) == Plain;
  }

  lemma ProperMore(segs: seq<string>, c: char)
    requires ProperSegments(segs)
    ensures var k := |segs| - 1;
            if c == ';' && ModeAfter(segs[k]) == Plain then ProperSegments(segs + [[]])
            else ProperSegments(segs[k := segs[k] + [c]])
  {
    hide NoCut, ModeAfter;
    var k := |segs| - 1;
    EmptyHasNoCut();
    NoCutMore(segs[k], c);
  }

  lemma {:induction false} SegmentsAreProper(s: string)
    ensures ProperSegments(Segments(s))
    ensures ModeAfter(Segments(s)[|Segments(s)| - 1]) == ModeAfter(s)
  {
    hide NoCut, ProperSegments;
    if s == [] {
      OneEmptySegment();
    } else {
      var i := |s| - 1;
      SegmentsAreProper(s[..i]);
      var before := Segments(s[..i]);
      var k := |before| - 1;
      ProperMore(before, s[i]);
      assert (before[k] + [s[i]])[..|before[k]|] == before[k];
    }
  }

  lemma OneEmptySegment()
    ensures ProperSegments([[]])
  {
    EmptyHasNoCut();
  }

  lemma EmptyHasNoCut()
    ensures NoCut([])
  {
  }

  lemma {:induction false} OneSegment(s: string)
    requires NoCut(s)
    ensures Segments(s) == [s]
  {
    if s != [] {
      var i := |s| - 1;
      assert s == s[..i] + [s[i]];
      forall j | 0 <= j < i
        ensures !IsCut(s[..i], j)
      {
        assert s[..i][..j] == s[..j];
        assert !IsCut(s, j);
      }
      OneSegment(s[..i]);
    }
  }

  lemma {:induction false} ModeAppend(a: string, b: string)
    requires ModeAfter(a) == Plain
    ensures ModeAfter(a + b) == ModeAfter(b)
  {
    if b == [] {
      assert a + b == a;
    } else {
      var i := |b| - 1;
      ModeAppend(a, b[..i]);
      assert (a + b)[..|a| + i] == a + b[..i];
    }
  }

  lemma SegmentsStep(s: string, c: char)
    ensures ModeAfter(s + [c]) == NextMode(ModeAfter(s), c)
    ensures var segs := Segments(s);
            var k := |segs| - 1;
            Segments(s + [c]) == if c == ';' && ModeAfter(s) == Plain then segs + [[]] else segs[k := segs[k] + [c]]
  {
    assert (s + [c])[..|s|] == s;
  }

  lemma {:induction false} SegmentsAppend(a: string, b: string)
    requires ModeAfter(a) == Plain
    ensures Segments(a + [';'] + b) == Segments(a) + Segments(b)
  {
    hide Segments, ModeAfter;
    var c := a + [';'];
    SegmentsStep(a, ';');
    EmptySegments();
    if b == [] {
      assert c + b == c;
    } else {
      var i := |b| - 1;
      SegmentsAppend(a, b[..i]);
      ModeAppend(c, b[..i]);
      assert c + b == c + b[..i] + [b[i]] && b == b[..i] + [b[i]];
      SegmentsStep(c + b[..i], b[i]);
      SegmentsStep(b[..i], b[i]);
      var x, y := Segments(a), Segments(b[..i]);
      var k := |y| - 1;
      assert (x + y)[|x| + k := y[k] + [b[i]]] == x + y[k := y[k] + [b[i]]];
      assert x + y + [[]] == x + (y + [[]]);
    }
  }

  lemma EmptySegments()
    ensures Segments([]) == [[]] && ModeAfter([]) == Plain
  {
  }

  /** There is no other way to write a text as proper segments, so splitting what was joined gives the same list. */
  lemma {:induction false} JoinThenSegments(segs: seq<string>)
    requires ProperSegments(segs)
    ensures Segments(Join(segs, ';')) == segs
  {
    hide NoCut;
    OneSegment(segs[0]);
    if |segs| > 1 {
      JoinThenSegments(segs[1..]);
      SegmentsAppend(segs[0], Join(segs[1..], ';'));
      assert segs == [segs[0]] + segs[1..];
    }
  }

  /** Each segment, split again, is a single statement. */
  lemma SegmentsSplitNoFurther(s: string, k: nat)
    requires k < |Segments(s)|
    ensures Segments(Segments(s)[k]) == [Segments(s)[k]]
  {
    hide Segments, NoCut;
    SegmentsAreProper(s);
    OneSegment(Segments(s)[k]);
  }

  /** Up to its closing quote, everything after an opening one stays in one segment, be it in a comment or not. */
  lemma {:induction false} QuoteSwallows(a: string, b: string)
    requires ModeAfter(a).Quoted? && ModeAfter(a).quoteChar !in b
    ensures ModeAfter(a + b) == ModeAfter(a)
    ensures var segs := Segments(a);
            var k := |segs| - 1;
            Segments(a + b) == segs[k := segs[k] + b]
  {
    hide Segments, ModeAfter;
    var segs := Segments(a);
    var k := |segs| - 1;
    if b == [] {
      assert a + b == a && segs[k] + b == segs[k];
    } else {
      var i := |b| - 1;
      QuoteSwallows(a, b[..i]);
      assert a + b == a + b[..i] + [b[i]];
      SegmentsStep(a + b[..i], b[i]);
      assert segs[k] + b == segs[k] + b[..i] + [b[i]];
    }
  }

  // ---------- What a migration executes ----------

  /** `execMigrationInConn` trims every part and skips blank ones. */
  function NonBlank(parts: seq<string>): seq<string> {
    if parts == [] then []
    else if TrimSpace(parts[0]) == "" then NonBlank(parts[1..])
    else [TrimSpace(parts[0])] + NonBlank(parts[1..])
  }

  function Statements(sql: string): seq<string> {
    NonBlank(Parts(Segments(sql)))
  }

  lemma {:induction false} TrimLeftTwice(s: string)
    ensures TrimLeft(TrimLeft(s)) == TrimLeft(s)
  {
    if s != [] && IsSpace(s[0]) {
      TrimLeftTwice(s[1..]);
    }
  }

  lemma {:induction false} TrimRightKeepsFirst(s: string)
    requires s != [] && !IsSpace(s[0])
    ensures TrimRight(s) != [] && TrimRight(s)[0] == s[0]
  {
    if IsSpace(s[|s| - 1]) {
      TrimRightKeepsFirst(s[..|s| - 1]);
    }
  }

  lemma {:induction false} TrimRightTwice(s: string)
    ensures TrimRight(TrimRight(s)) == TrimRight(s)
  {
    if s != [] && IsSpace(s[|s| - 1]) {
      TrimRightTwice(s[..|s| - 1]);
    }
  }

  lemma {:induction false} TrimLeftStarts(s: string)
    ensures TrimLeft(s) != [] ==> !IsSpace(TrimLeft(s)[0])
  {
    if s != [] && IsSpace(s[0]) {
      TrimLeftStarts(s[1..]);
    }
  }

  lemma TrimTwice(s: string)
    ensures TrimSpace(TrimSpace(s)) == TrimSpace(s)
  {
    hide IsSpace;
    var t := TrimLeft(s);
    TrimLeftStarts(s);
    TrimRightTwice(t);
    if t != [] {
      TrimRightKeepsFirst(t);
    }
  }

  lemma {:induction false} NonBlankSnoc(parts: seq<string>, last: string)
    ensures NonBlank(parts + [last]) ==
              NonBlank(parts) + if TrimSpace(last) != "" then [TrimSpace(last)] else []
  {
    hide TrimSpace;
    if parts == [] {
      assert parts + [last] == [last];
    } else {
      NonBlankSnoc(parts[1..], last);
      assert (parts + [last])[1..] == parts[1..] + [last];
    }
  }

  /** Executed are the non-blank segments, trimmed, in order. */
  lemma StatementsAre(sql: string)
    ensures Statements(sql) == NonBlank(Segments(sql))
  {
    hide TrimSpace, Segments, NonBlank;
    var segs := Segments(sql);
    var k := |segs| - 1;
    assert segs == segs[..k] + [segs[k]];
    NonBlankSnoc(segs[..k], segs[k]);
    NonBlankSnoc(segs[..k], TrimSpace(segs[k]));
    TrimTwice(segs[k]);
    assert segs[..k] + [] == segs[..k];
  }

  /** Outside quotes a file may be cut in two at a semicolon, or end in one, without changing what is executed. */
  lemma StatementsAppend(a: string, b: string)
    requires ModeAfter(a) == Plain
    ensures Statements(a + [';'] + b) == Statements(a) + Statements(b)
  {
    hide TrimSpace, Segments, NonBlank, Statements;
    StatementsAre(a);
    StatementsAre(b);
    StatementsAre(a + [';'] + b);
    SegmentsAppend(a, b);
    NonBlankAppend(Segments(a), Segments(b));
  }

  lemma {:induction false} NonBlankAppend(a: seq<string>, b: seq<string>)
    ensures NonBlank(a + b) == NonBlank(a) + NonBlank(b)
  {
    hide TrimSpace;
    if a == [] {
      assert a + b == b;
    } else {
      NonBlankAppend(a[1..], b);
      assert (a + b)[1..] == a[1..] + b && (a + b)[0] == a[0];
    }
  }

  // ---------- White space and quotes, by character ----------

  /** Blank, tab, line feed and carriage return are white space, and no printing ASCII character is. */
  lemma SpacesAre(c: char)
    ensures c == ' ' || c == '\t' || c == '\n' || c == '\r' ==> IsSpace(c)
    ensures '!' <= c <= '~' ==> !IsSpace(c)
  {
  }

  /** Single, double and back quotes open; the same one closes; between them and outside nothing else matters. */
  lemma QuotesAre(a: string, c: char)
    ensures ModeAfter([]) == Plain
    ensures ModeAfter(a) == Plain ==>
              ModeAfter(a + [c]) == if c == '\'' || c == '"' || c == '`' then Quoted(c) else Plain
    ensures ModeAfter(a).Quoted? ==>
              ModeAfter(a + [c]) == if c == ModeAfter(a).quoteChar then Plain else ModeAfter(a)
  {
    SegmentsStep(a, c);
  }

  ghost predicate AllSpace(s: string) {
    forall k :: 0 <= k < |s| ==> IsSpace(s[k])
  }

  /** `core` is `s` without the white space around it. */
  ghost predicate IsCore(s: string, core: string) {
    && core != [] && !IsSpace(core[0]) && !IsSpace(core[|core| - 1])
    && exists i: nat :: CoreAt(s, core, i)
  }

  ghost predicate CoreAt(s: string, core: string, i: nat) {
    i + |core| <= |s| && s[i..i + |core|] == core && AllSpace(s[..i]) && AllSpace(s[i + |core|..])
  }

  lemma {:induction false} TrimLeftCuts(s: string) returns (i: nat)
    ensures i <= |s| && TrimLeft(s) == s[i..] && AllSpace(s[..i])
    ensures i < |s| ==> !IsSpace(s[i])
  {
    hide IsSpace;
    i := 0;
    if s != [] && IsSpace(s[0]) {
      var k := TrimLeftCuts(s[1..]);
      i := k + 1;
      assert s[1..][k..] == s[i..];
      assert s[..i] == [s[0]] + s[1..][..k];
    }
  }

  lemma {:induction false} TrimRightCuts(s: string) returns (i: nat)
    ensures i <= |s| && TrimRight(s) == s[..i] && AllSpace(s[i..])
    ensures i > 0 ==> !IsSpace(s[i - 1])
  {
    hide IsSpace;
    i := |s|;
    if s != [] && IsSpace(s[|s| - 1]) {
      i := TrimRightCuts(s[..|s| - 1]);
      assert s[..|s| - 1][..i] == s[..i];
      assert s[i..] == s[..|s| - 1][i..] + [s[|s| - 1]];
    }
  }

  /** Trimming cuts off the white space at both ends and nothing else. */
  lemma TrimCuts(s: string)
    ensures TrimSpace(s) == "" <==> AllSpace(s)
    ensures TrimSpace(s) != "" ==> IsCore(s, TrimSpace(s))
  {
    hide IsSpace, TrimLeft, TrimRight;
    var i := TrimLeftCuts(s);
    var rest := s[i..];
    var k := TrimRightCuts(rest);
    if k > 0 {
      assert s[i..i + k] == rest[..k] && s[i + k..] == rest[k..];
      assert CoreAt(s, TrimSpace(s), i);
      assert !IsSpace(s[i]);
    } else {
      assert s == s[..i] + rest[0..];
      assert rest[0..] == rest;
    }
  }

  lemma CoreSpans(s: string, core: string, i: nat, k: nat)
    requires CoreAt(s, core, i) && k < |s| && !IsSpace(s[k])
    ensures i <= k < i + |core|
  {
    hide IsSpace;
    assert s == s[..i] + core + s[i + |core|..];
  }

  /** There is one way to do so. */
  lemma OneCore(s: string, a: string, b: string)
    requires IsCore(s, a) && IsCore(s, b)
    ensures a == b && !AllSpace(s)
  {
    hide IsSpace;
    var i: nat :| CoreAt(s, a, i);
    var j: nat :| CoreAt(s, b, j);
    assert a[0] == s[i] && b[0] == s[j];
    assert a[|a| - 1] == s[i + |a| - 1] && b[|b| - 1] == s[j + |b| - 1];
    CoreSpans(s, a, i, j);
    CoreSpans(s, a, i, j + |b| - 1);
    CoreSpans(s, b, j, i);
    CoreSpans(s, b, j, i + |a| - 1);
  }

  /** The statements are the cores of those segments that hold more than white space, one for each and in order. */
  ghost predicate Executes(segs: seq<string>, statements: seq<string>)
    decreases |segs|
  {
    if segs == [] then statements == []
    else if AllSpace(segs[0]) then Executes(segs[1..], statements)
    else statements != [] && IsCore(segs[0], statements[0]) && Executes(segs[1..], statements[1..])
  }

  lemma {:induction false} NonBlankExecutes(segs: seq<string>)
    ensures Executes(segs, NonBlank(segs))
    decreases |segs|
  {
    hide TrimSpace, AllSpace, IsCore;
    if segs != [] {
      TrimCuts(segs[0]);
      NonBlankExecutes(segs[1..]);
    }
  }

  lemma {:induction false} ExecutesOnly(segs: seq<string>, a: seq<string>, b: seq<string>)
    requires Executes(segs, a) && Executes(segs, b)
    ensures a == b
    decreases |segs|
  {
    hide AllSpace, IsCore;
    if segs != [] {
      if AllSpace(segs[0]) {
        ExecutesOnly(segs[1..], a, b);
      } else {
        OneCore(segs[0], a[0], b[0]);
        ExecutesOnly(segs[1..], a[1..], b[1..]);
      }
    }
  }

  /** A list of texts is what a file executes exactly when it is that. */
  lemma StatementsIff(sql: string, statements: seq<string>)
    ensures statements == Statements(sql) <==> Executes(Segments(sql), statements)
  {
    hide Executes, Segments, NonBlank;
    StatementsAre(sql);
    NonBlankExecutes(Segments(sql));
    if Executes(Segments(sql), statements) {
      ExecutesOnly(Segments(sql), statements, NonBlank(Segments(sql)));
    }
  }

  /** The characters that are not white space. */
  function Ink(s: string): string {
    if s == [] then [] else (if IsSpace(s[0]) then [] else [s[0]]) + Ink(s[1..])
  }

  function InkOf(texts: seq<string>): string {
    if texts == [] then [] else Ink(texts[0]) + InkOf(texts[1..])
  }

  lemma {:induction false} InkAppend(a: string, b: string)
    ensures Ink(a + b) == Ink(a) + Ink(b)
  {
    hide IsSpace;
    if a == [] {
      assert a + b == b;
    } else {
      InkAppend(a[1..], b);
      assert (a + b)[1..] == a[1..] + b;
    }
  }

  lemma {:induction false} NoInk(s: string)
    requires AllSpace(s)
    ensures Ink(s) == []
  {
    hide IsSpace;
    if s != [] {
      assert IsSpace(s[0]);
      assert forall k :: 0 <= k < |s| - 1 ==> s[1..][k] == s[k + 1];
      NoInk(s[1..]);
    }
  }

  lemma CoreHasInk(s: string, core: string)
    requires IsCore(s, core)
    ensures Ink(core) == Ink(s)
  {
    hide IsSpace, Ink, AllSpace;
    var i: nat :| CoreAt(s, core, i);
    assert s == s[..i] + core + s[i + |core|..];
    NoInk(s[..i]);
    NoInk(s[i + |core|..]);
    InkAppend(s[..i], core);
    InkAppend(s[..i] + core, s[i + |core|..]);
    assert [] + Ink(core) == Ink(core) && Ink(core) + [] == Ink(core);
  }

  /** What is executed holds every character that is not white space, in order, but for the semicolons that cut. */
  lemma {:induction false} InkIsExecuted(segs: seq<string>, statements: seq<string>)
    requires Executes(segs, statements)
    ensures InkOf(statements) == InkOf(segs)
    decreases |segs|
  {
    hide IsSpace, Ink, AllSpace, IsCore;
    if segs != [] {
      if AllSpace(segs[0]) {
        NoInk(segs[0]);
        InkIsExecuted(segs[1..], statements);
        assert [] + InkOf(segs[1..]) == InkOf(segs[1..]);
      } else {
        CoreHasInk(segs[0], statements[0]);
        InkIsExecuted(segs[1..], statements[1..]);
      }
    }
  }
}
