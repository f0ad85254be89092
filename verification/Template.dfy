/**
 Prompt templates (internal/judge/judge.go): `{{ name }}` tags are replaced by bound values in one pass over the
 leftmost, non-overlapping matches of the tag pattern; unbound tags stay and their names are reported.
 */
module Template {
  import opened Wrappers

  // ---------- The tag pattern ----------

  /** The characters `\s` stands for in Go's regular expressions. */
  predicate IsSpace(c: char) {
    c == ' ' || c == '\t' || c == '\n' || c == '\r' || c == '\U{000C}'
  }

  predicate IsNameStart(c: char) {
    'a' <= c <= 'z' || 'A' <= c <= 'Z' || c == '_'
  }

  predicate IsNameChar(c: char) {
    IsNameStart(c) || '0' <= c <= '9'
  }

  /** By code point: a name is made of ASCII letters, digits and underscores, and does not begin with a digit. */
  lemma NameCharsAre(c: char)
    ensures IsNameStart(c) <==> 65 <= c as int <= 90 || 97 <= c as int <= 122 || c as int == 95
    ensures IsNameChar(c) <==> IsNameStart(c) || 48 <= c as int <= 57
    ensures IsSpace(c) <==> c as int in {9, 10, 12, 13, 32}
  {
  }

  predicate AllSpace(s: string) {
    forall k :: 0 <= k < |s| ==> IsSpace(s[k])
  }

  predicate IsName(s: string) {
    s != "" && IsNameStart(s[0]) && forall k :: 0 <= k < |s| ==> IsNameChar(s[k])
  }

  /** The text of a tag: braces, optional space, a name, optional space, braces. */
  function TagText(before: string, name: string, after: string): string {
    "{{" + before + name + after + "}}"
  }

  /** A match: the tag spans `start..end` and its name `nameStart..nameEnd`. */
  datatype Match = Match(start: nat, end: nat, nameStart: nat, nameEnd: nat)

  /** What it means that the pattern matches `t` there. */
  ghost predicate Matches(t: string, m: Match) {
    && m.start + 2 <= m.nameStart < m.nameEnd && m.nameEnd + 2 <= m.end <= |t|
    && t[m.start..m.start + 2] == "{{" && t[m.end - 2..m.end] == "}}"
    && AllSpace(t[m.start + 2..m.nameStart])
    && IsName(t[m.nameStart..m.nameEnd])
    && AllSpace(t[m.nameEnd..m.end - 2])
  }

  // ---------- Finding matches ----------

  function SkipSpace(t: string, i: nat): (j: nat)
    requires i <= |t|
    ensures i <= j <= |t| && AllSpace(t[i..j]) && (j < |t| ==> !IsSpace(t[j]))
    decreases |t| - i
  {
    if i < |t| && IsSpace(t[i]) then
      var j := SkipSpace(t, i + 1);
      assert t[i..j] == [t[i]] + t[i + 1..j];
      j
    else i
  }

  function SkipName(t: string, i: nat): (j: nat)
    requires i <= |t|
    ensures i <= j <= |t| && (forall k :: i <= k < j ==> IsNameChar(t[k])) && (j < |t| ==> !IsNameChar(t[j]))
    decreases |t| - i
  {
    if i < |t| && IsNameChar(t[i]) then SkipName(t, i + 1) else i
  }

  /** The match that starts at `i`, if there is one. Greedy choices need no backtracking: the classes are disjoint. */
  function MatchAt(t: string, i: nat): (r: Option<Match>)
    requires i <= |t|
    ensures r.Some? ==> var m := r.value;
                        i == m.start < m.nameStart <= m.nameEnd < m.end <= |t|
  {
    if i + 2 > |t| || t[i..i + 2] != "{{" then None
    else
      var a := SkipSpace(t, i + 2);
      if a == |t| || !IsNameStart(t[a]) then None
      else
        var b := SkipName(t, a);
        var c := SkipSpace(t, b);
        if c + 2 > |t| || t[c..c + 2] != "}}" then None else Some(Match(i, c + 2, a, b))
  }

  /** Leftmost, non-overlapping matches from `i` on, as the regular expression library returns them. */
  function FindAll(t: string, i: nat): seq<Match>
    requires i <= |t|
    decreases |t| - i
  {
    if i == |t| then []
    else
      var m := MatchAt(t, i);
      if m.Some? then [m.value] + FindAll(t, m.value.end)
      else FindAll(t, i + 1)
  }

  lemma SpaceEnds(t: string, i: nat, j: nat)
    requires i <= j < |t| && AllSpace(t[i..j]) && !IsSpace(t[j])
    ensures SkipSpace(t, i) == j
  {
    var k := SkipSpace(t, i);
    assert forall n :: i <= n < j ==> t[n] == t[i..j][n - i];
    assert forall n :: i <= n < k ==> t[n] == t[i..k][n - i];
  }

  lemma NameEnds(t: string, i: nat, j: nat)
    requires i <= j < |t| && (forall k :: i <= k < j ==> IsNameChar(t[k])) && !IsNameChar(t[j])
    ensures SkipName(t, i) == j
  {
  }

  /** The classes that follow each other in a tag are disjoint. */
  lemma CharClasses()
    ensures forall c :: IsNameStart(c) ==> IsNameChar(c)
    ensures forall c :: IsNameChar(c) ==> !IsSpace(c) && c != '}'
    ensures forall c :: IsSpace(c) ==> c != '}'
  {
  }

  /** Where the parts of a tag begin and end, character by character. */
  lemma TagParts(t: string, m: Match)
    requires Matches(t, m)
    ensures IsNameStart(t[m.nameStart]) && !IsSpace(t[m.nameStart])
    ensures forall k :: m.nameStart <= k < m.nameEnd ==> IsNameChar(t[k])
    ensures !IsNameChar(t[m.nameEnd]) && !IsSpace(t[m.end - 2])
  {
    var name := t[m.nameStart..m.nameEnd];
    assert forall k :: m.nameStart <= k < m.nameEnd ==> t[k] == name[k - m.nameStart];
    assert t[m.end - 2..m.end][0] == t[m.end - 2] == '}';
    assert m.nameEnd < m.end - 2 ==> t[m.nameEnd] == t[m.nameEnd..m.end - 2][0];
    CharClasses();
    hide IsSpace, IsNameStart, IsNameChar;
  }

  lemma MatchIsFound(t: string, m: Match)
    requires Matches(t, m)
    ensures MatchAt(t, m.start) == Some(m)
  {
    hide IsSpace, IsNameStart, IsNameChar, AllSpace, IsName, SkipSpace, SkipName;
    TagParts(t, m);
    SpaceEnds(t, m.start + 2, m.nameStart);
    NameEnds(t, m.nameStart, m.nameEnd);
    SpaceEnds(t, m.nameEnd, m.end - 2);
  }

  lemma FoundMatches(t: string, i: nat)
    requires i <= |t| && MatchAt(t, i).Some?
    ensures Matches(t, MatchAt(t, i).value)
  {
    var m := MatchAt(t, i).value;
    assert t[m.nameStart..m.nameEnd][0] == t[m.nameStart];
  }

  /** The scanner finds exactly the matches of the pattern, and at each position there is at most one. */
  lemma MatchAtIff(t: string, i: nat, m: Match)
    requires i <= |t|
    ensures MatchAt(t, i) == Some(m) <==> Matches(t, m) && m.start == i
  {
    if Matches(t, m) {
      MatchIsFound(t, m);
    }
    if MatchAt(t, i).Some? {
      FoundMatches(t, i);
    }
  }

  /** The first match found is the leftmost tag, and the rest are found after its end. */
  lemma {:induction false} FirstMatch(t: string, i: nat)
    requires i <= |t|
    ensures var ms := FindAll(t, i);
            if ms == [] then forall k :: i <= k <= |t| ==> MatchAt(t, k).None?
            else
              && i <= ms[0].start < ms[0].end <= |t|
              && MatchAt(t, ms[0].start) == Some(ms[0])
              && (forall k :: i <= k < ms[0].start ==> MatchAt(t, k).None?)
              && ms[1..] == FindAll(t, ms[0].end)
    decreases |t| - i
  {
    hide MatchAt;
    if i < |t| && MatchAt(t, i).None? {
      FirstMatch(t, i + 1);
    }
  }

  /** Every tag is found unless it begins inside a tag that is: none begins in a gap or after the last match. */
  lemma {:induction false} FindAllLeftmost(t: string, i: nat, m: Match)
    requires i <= |t| && Matches(t, m) && i <= m.start
    ensures m in FindAll(t, i) ||
            exists k :: 0 <= k < |FindAll(t, i)| && FindAll(t, i)[k].start < m.start < FindAll(t, i)[k].end
    decreases |t| - i
  {
    hide MatchAt, Matches, FindAll;
    var ms := FindAll(t, i);
    FirstMatch(t, i);
    MatchIsFound(t, m);
    if m.start >= ms[0].end {
      FindAllLeftmost(t, ms[0].end, m);
      if m !in ms[1..] {
        var k :| 0 <= k < |ms[1..]| && ms[1..][k].start < m.start < ms[1..][k].end;
        assert ms[k + 1] == ms[1..][k];
      }
    }
  }

  /** What is found are tags, in order and without overlap. */
  lemma {:induction false} FindAllOrdered(t: string, i: nat)
    requires i <= |t|
    ensures var ms := FindAll(t, i);
            && (forall k :: 0 <= k < |ms| ==> Matches(t, ms[k]) && i <= ms[k].start)
            && (forall k, l :: 0 <= k < l < |ms| ==> ms[k].end <= ms[l].start)
    decreases |t| - i
  {
    var ms := FindAll(t, i);
    FirstMatch(t, i);
    if ms != [] {
      FoundMatches(t, ms[0].start);
      FindAllOrdered(t, ms[0].end);
      assert forall k :: 0 < k < |ms| ==> ms[k] == ms[1..][k - 1];
    }
  }

  // ---------- What rendering means ----------

  function Name(t: string, m: Match): string
    requires m.nameStart <= m.nameEnd <= |t|
  {
    t[m.nameStart..m.nameEnd]
  }

  /** A tag's replacement: the bound value, or the tag itself. */
  function Replacement(t: string, m: Match, vars: map<string, string>): string
    requires m.start <= m.end <= |t| && m.nameStart <= m.nameEnd <= |t|
  {
    if Name(t, m) in vars then vars[Name(t, m)] else t[m.start..m.end]
  }

  /** Read from left to right: a tag is replaced and skipped, any other character is copied. */
  function Render(t: string, i: nat, vars: map<string, string>): string
    requires i <= |t|
    decreases |t| - i
  {
    if i == |t| then ""
    else
      var m := MatchAt(t, i);
      if m.Some? then Replacement(t, m.value, vars) + Render(t, m.value.end, vars)
      else [t[i]] + Render(t, i + 1, vars)
  }

  /** The names of all tags, in order. */
  function TagNames(t: string, i: nat): seq<string>
    requires i <= |t|
    decreases |t| - i
  {
    if i == |t| then []
    else
      var m := MatchAt(t, i);
      if m.Some? then [Name(t, m.value)] + TagNames(t, m.value.end) else TagNames(t, i + 1)
  }

  function Unbound(names: seq<string>, vars: map<string, string>): seq<string> {
    if names == [] then []
    else (if names[0] in vars then [] else [names[0]]) + Unbound(names[1..], vars)
  }

  lemma UnboundPush(name: string, names: seq<string>, vars: map<string, string>)
    ensures Unbound([name] + names, vars) == (if name in vars then [] else [name]) + Unbound(names, vars)
  {
    assert ([name] + names)[1..] == names;
  }

  lemma {:induction false} UnboundMembers(names: seq<string>, vars: map<string, string>)
    ensures forall n :: n in Unbound(names, vars) <==> n in names && n !in vars
  {
    if names != [] {
      UnboundMembers(names[1..], vars);
    }
  }

  lemma {:induction false} UnboundNone(names: seq<string>)
    ensures Unbound(names, map[]) == names
  {
    if names != [] {
      UnboundNone(names[1..]);
    }
  }

  lemma CopyOne(t: string, i: nat, k: nat, rest: string)
    requires i < k <= |t|
    ensures t[i..k] + rest == [t[i]] + (t[i + 1..k] + rest)
  {
  }

  /** Where no tag begins, text is copied. */
  lemma {:induction false} RenderGap(t: string, i: nat, k: nat, vars: map<string, string>)
    requires i <= k <= |t| && forall j :: i <= j < k ==> MatchAt(t, j).None?
    ensures Render(t, i, vars) == t[i..k] + Render(t, k, vars)
    ensures TagNames(t, i) == TagNames(t, k)
    decreases k - i
  {
    hide MatchAt, Replacement, Name;
    if i < k {
      RenderGap(t, i + 1, k, vars);
      CopyOne(t, i, k, Render(t, k, vars));
    }
  }

  lemma ReplacementUnbound(t: string, m: Match)
    requires m.start <= m.end <= |t| && m.nameStart <= m.nameEnd <= |t|
    ensures Replacement(t, m, map[]) == t[m.start..m.end]
  {
  }

  /** With nothing bound the template comes back as it was. */
  lemma {:induction false} RenderUnbound(t: string, i: nat)
    requires i <= |t|
    ensures Render(t, i, map[]) == t[i..]
    decreases |t| - i
  {
    hide MatchAt, Replacement;
    if i < |t| {
      var m := MatchAt(t, i);
      if m.Some? {
        RenderUnbound(t, m.value.end);
        ReplacementUnbound(t, m.value);
        assert t[i..] == t[i..m.value.end] + t[m.value.end..];
      } else {
        RenderUnbound(t, i + 1);
        assert t[i..] == [t[i]] + t[i + 1..];
      }
    }
  }

  /** One round of the loop: the text up to the next match, then that match. */
  lemma RenderRound(t: string, i: nat, vars: map<string, string>)
    requires i <= |t|
    ensures var ms := FindAll(t, i);
            if ms == [] then Render(t, i, vars) == t[i..] && TagNames(t, i) == []
            else
              var m := ms[0];
              && i <= m.start < m.nameStart <= m.nameEnd < m.end <= |t|
              && ms[1..] == FindAll(t, m.end)
              && Render(t, i, vars) == t[i..m.start] + (Replacement(t, m, vars) + Render(t, m.end, vars))
              && TagNames(t, i) == [Name(t, m)] + TagNames(t, m.end)
  {
    hide MatchAt, Replacement, Name;
    FirstMatch(t, i);
    var ms := FindAll(t, i);
    RenderGap(t, i, if ms == [] then |t| else ms[0].start, vars);
    assert ms == [] ==> t[i..] + "" == t[i..];
  }

  // ---------- The loops ----------

  /** One round of the loop, from what is written so far. */
  lemma InterpolateRound(t: string, i: nat, ms: seq<Match>, vars: map<string, string>, result: string,
                         missing: seq<string>)
    requires i <= |t| && ms == FindAll(t, i) && ms != []
    requires Render(t, 0, vars) == result + Render(t, i, vars)
    requires Unbound(TagNames(t, 0), vars) == missing + Unbound(TagNames(t, i), vars)
    ensures var m := ms[0];
            && i <= m.start < m.nameStart <= m.nameEnd < m.end <= |t| && ms[1..] == FindAll(t, m.end)
            && var name := t[m.nameStart..m.nameEnd];
               && Render(t, 0, vars) == result + t[i..m.start]
                    + (if name in vars then vars[name] else t[m.start..m.end]) + Render(t, m.end, vars)
               && Unbound(TagNames(t, 0), vars) == missing + (if name in vars then [] else [name])
                    + Unbound(TagNames(t, m.end), vars)
  {
    hide MatchAt, Render, TagNames, FindAll, Unbound;
    var m := ms[0];
    RenderRound(t, i, vars);
    UnboundPush(Name(t, m), TagNames(t, m.end), vars);
    Regroup(result, t[i..m.start], Replacement(t, m, vars), Render(t, m.end, vars));
    var found := if Name(t, m) in vars then [] else [Name(t, m)];
    assert missing + (found + Unbound(TagNames(t, m.end), vars)) == missing + found + Unbound(TagNames(t, m.end), vars);
  }

  /** `Interpolate`. */
  method Interpolate(template: string, variables: map<string, string>) returns (result: string, missing: seq<string>)
    ensures result == Render(template, 0, variables)
    ensures missing == Unbound(TagNames(template, 0), variables)
    ensures missing == [] <==> forall n :: n in TagNames(template, 0) ==> n in variables
    ensures variables == map[] ==> result == template && missing == TagNames(template, 0)
  {
    hide *;
    var matches := FindAll(template, 0);
    var prevEnd: nat := 0;
    result, missing := "", [];
    for k := 0 to |matches|
      invariant prevEnd <= |template| && FindAll(template, prevEnd) == matches[k..]
      invariant Render(template, 0, variables) == result + Render(template, prevEnd, variables)
      invariant Unbound(TagNames(template, 0), variables) == missing + Unbound(TagNames(template, prevEnd), variables)
    {
      var m := matches[k];
      InterpolateRound(template, prevEnd, matches[k..], variables, result, missing);
      assert matches[k..][0] == m && matches[k..][1..] == matches[k + 1..];
      var name := template[m.nameStart..m.nameEnd];
      result := result + template[prevEnd..m.start];
      if name !in variables {
        missing := missing + [name];
        result := result + template[m.start..m.end];
      } else {
        result := result + variables[name];
      }
      prevEnd := m.end;
    }
    LastRound(template, prevEnd, variables);
    result := result + template[prevEnd..];
    UnboundMembers(TagNames(template, 0), variables);
    assert missing != [] ==> missing[0] in missing;
    if variables == map[] {
      RenderUnbound(template, 0);
      UnboundNone(TagNames(template, 0));
    }
  }

  lemma LastRound(t: string, i: nat, vars: map<string, string>)
    requires i <= |t| && FindAll(t, i) == []
    ensures Render(t, i, vars) == t[i..] && Unbound(TagNames(t, i), vars) == []
  {
    hide MatchAt, Render, TagNames, FindAll;
    RenderRound(t, i, vars);
  }

  lemma Regroup(a: string, b: string, c: string, d: string)
    ensures a + (b + (c + d)) == ((a + b) + c) + d
  {
  }

  datatype Message = Message(role: string, content: string)

  function AllMissing(messages: seq<Message>, variables: map<string, string>): seq<string> {
    if messages == [] then []
    else AllMissing(messages[..|messages| - 1], variables)
         + Unbound(TagNames(messages[|messages| - 1].content, 0), variables)
  }

  lemma NoneMissingYet(variables: map<string, string>)
    ensures AllMissing([], variables) == []
  {
  }

  lemma AllMissingStep(messages: seq<Message>, i: nat, variables: map<string, string>)
    requires i < |messages|
    ensures AllMissing(messages[..i + 1], variables) ==
              AllMissing(messages[..i], variables) + Unbound(TagNames(messages[i].content, 0), variables)
  {
    hide TagNames, Unbound;
    assert messages[..i + 1][..i] == messages[..i];
  }

  /** `InterpolateChat`: message by message, roles untouched, missing names collected in order. */
  method InterpolateChat(messages: seq<Message>, variables: map<string, string>)
    returns (result: seq<Message>, allMissing: seq<string>)
    ensures |result| == |messages|
    ensures forall k :: 0 <= k < |messages| ==>
              result[k] == Message(messages[k].role, Render(messages[k].content, 0, variables))
    ensures allMissing == AllMissing(messages, variables)
  {
    hide Render, TagNames, Unbound, AllMissing;
    NoneMissingYet(variables);
    assert messages[..0] == [];
    result, allMissing := [], [];
    for i := 0 to |messages|
      invariant |result| == i
      invariant forall k :: 0 <= k < i ==>
                  result[k] == Message(messages[k].role, Render(messages[k].content, 0, variables))
      invariant allMissing == AllMissing(messages[..i], variables)
    {
      var rendered, missing := Interpolate(messages[i].content, variables);
      result := result + [Message(messages[i].role, rendered)];
      allMissing := allMissing + missing;
      AllMissingStep(messages, i, variables);
    }
    assert messages[..|messages|] == messages;
  }

  // ---------- Templates built from pieces ----------

  /** A template as its author thinks of it. */
  datatype Piece = Literal(text: string) | Tag(before: string, name: string, after: string)

  /** No tag anywhere inside. */
  ghost predicate TagFree(text: string) {
    forall m :: !Matches(text, m)
  }

  ghost predicate GoodPiece(p: Piece) {
    match p
    case Literal(text) => TagFree(text)
    case Tag(before, name, after) => AllSpace(before) && IsName(name) && AllSpace(after)
  }

  /** Tags and tag-free literals, no two literals side by side. */
  ghost predicate GoodPieces(ps: seq<Piece>) {
    && (forall k :: 0 <= k < |ps| ==> GoodPiece(ps[k]))
    && (forall k :: 0 <= k < |ps| - 1 ==> ps[k].Literal? ==> ps[k + 1].Tag?)
  }

  function Source(p: Piece): string {
    match p
    case Literal(text) => text
    case Tag(before, name, after) => TagText(before, name, after)
  }

  function Write(ps: seq<Piece>): string {
    if ps == [] then "" else Source(ps[0]) + Write(ps[1..])
  }

  /** A tag is replaced by its value or left alone, literals and inserted values are taken verbatim. */
  function Filled(p: Piece, vars: map<string, string>): string {
    if p.Tag? && p.name in vars then vars[p.name] else Source(p)
  }

  function Fill(ps: seq<Piece>, vars: map<string, string>): string {
    if ps == [] then "" else Filled(ps[0], vars) + Fill(ps[1..], vars)
  }

  function NamesOf(ps: seq<Piece>): seq<string> {
    if ps == [] then []
    else (if ps[0].Tag? then [ps[0].name] else []) + NamesOf(ps[1..])
  }

  function TagAt(i: nat, before: string, name: string, after: string): Match {
    Match(i, i + |TagText(before, name, after)|, i + 2 + |before|, i + 2 + |before| + |name|)
  }

  lemma TagMatches(t: string, i: nat, before: string, name: string, after: string)
    requires AllSpace(before) && IsName(name) && AllSpace(after)
    requires i + |TagText(before, name, after)| <= |t|
    requires t[i..i + |TagText(before, name, after)|] == TagText(before, name, after)
    ensures var m := TagAt(i, before, name, after);
            Matches(t, m) && Name(t, m) == name
  {
    hide TagText, AllSpace, IsName;
    var tag := TagText(before, name, after);
    TagSlices(before, name, after);
    var n := 2 + |before|;
    Slice(t, i, |tag|, 0, 2);
    Slice(t, i, |tag|, 2, n);
    Slice(t, i, |tag|, n, n + |name|);
    Slice(t, i, |tag|, n + |name|, |tag| - 2);
    Slice(t, i, |tag|, |tag| - 2, |tag|);
  }

  lemma Slice(t: string, i: nat, n: nat, a: nat, b: nat)
    requires i + n <= |t| && a <= b <= n
    ensures t[i..i + n][a..b] == t[i + a..i + b]
  {
    var u, v := t[i..i + n][a..b], t[i + a..i + b];
    assert |u| == |v| && forall k :: 0 <= k < |u| ==> u[k] == v[k];
  }

  lemma TagSlices(before: string, name: string, after: string)
    requires IsName(name)
    ensures var tag, a := TagText(before, name, after), 2 + |before|;
            && |tag| == a + |name| + |after| + 2 && name != ""
            && tag[0..2] == "{{" && tag[2..a] == before && tag[a..a + |name|] == name
            && tag[a + |name|..|tag| - 2] == after && tag[|tag| - 2..|tag|] == "}}"
  {
  }

  /** After its opening braces a tag contains no opening brace. */
  lemma NoBraceInside(t: string, m: Match, q: nat)
    requires Matches(t, m) && m.start + 2 <= q < m.end
    ensures t[q] != '{'
  {
    if q < m.nameStart {
      assert t[q] == t[m.start + 2..m.nameStart][q - m.start - 2];
    } else if q < m.nameEnd {
      assert t[q] == t[m.nameStart..m.nameEnd][q - m.nameStart];
    } else if q < m.end - 2 {
      assert t[q] == t[m.nameEnd..m.end - 2][q - m.nameEnd];
    } else {
      assert t[q] == t[m.end - 2..m.end][q - (m.end - 2)];
    }
  }

  /** A match inside a part of a text is a match of that part. */
  lemma MatchInPart(t: string, i: nat, n: nat, m: Match)
    requires i + n <= |t| && Matches(t, m) && i <= m.start && m.end <= i + n
    ensures Matches(t[i..i + n], Match(m.start - i, m.end - i, m.nameStart - i, m.nameEnd - i))
  {
    hide AllSpace, IsName;
    var u, a := t[i..i + n], m.start - i;
    Slice(t, i, n, a, a + 2);
    Slice(t, i, n, a + 2, m.nameStart - i);
    Slice(t, i, n, m.nameStart - i, m.nameEnd - i);
    Slice(t, i, n, m.nameEnd - i, m.end - 2 - i);
    Slice(t, i, n, m.end - 2 - i, m.end - i);
  }

  /** No tag begins in a tag-free literal that is followed by a tag or by nothing. */
  lemma LiteralHasNoMatch(t: string, i: nat, n: nat, j: nat)
    requires i <= j < i + n <= |t| && TagFree(t[i..i + n])
    requires i + n == |t| || (i + n + 2 <= |t| && t[i + n] == '{' && t[i + n + 1] == '{')
    ensures MatchAt(t, j).None?
  {
    hide MatchAt, Matches;
    if MatchAt(t, j).Some? {
      var m := MatchAt(t, j).value;
      FoundMatches(t, j);
      MatchShape(t, m);
      if m.end <= i + n {
        MatchInPart(t, i, n, m);
      } else if i + n >= m.start + 2 {
        NoBraceInside(t, m, i + n);
      } else {
        NoBraceInside(t, m, i + n + 1);
      }
      assert false;
    }
  }

  lemma MatchShape(t: string, m: Match)
    requires Matches(t, m)
    ensures m.start + 5 <= m.end <= |t|
  {
  }

  /** Rendering at a match. */
  lemma RenderAtMatch(t: string, i: nat, m: Match, vars: map<string, string>)
    requires i <= |t| && MatchAt(t, i) == Some(m)
    ensures i == m.start < m.nameStart <= m.nameEnd < m.end <= |t|
    ensures Render(t, i, vars) == Replacement(t, m, vars) + Render(t, m.end, vars)
    ensures TagNames(t, i) == [Name(t, m)] + TagNames(t, m.end)
  {
    hide MatchAt, Replacement, Name;
  }

  /** One tag is one round of rendering. */
  lemma TagStep(t: string, i: nat, before: string, name: string, after: string, rest: string, vars: map<string, string>)
    requires AllSpace(before) && IsName(name) && AllSpace(after)
    requires i <= |t| && t[i..] == TagText(before, name, after) + rest
    ensures var tag := TagText(before, name, after);
            && i + |tag| <= |t| && |tag| > 0 && t[i + |tag|..] == rest
            && Render(t, i, vars) == (if name in vars then vars[name] else tag) + Render(t, i + |tag|, vars)
            && TagNames(t, i) == [name] + TagNames(t, i + |tag|)
  {
    hide MatchAt, Matches, TagText, Render, TagNames, AllSpace, IsName, Name;
    var tag := TagText(before, name, after);
    var m := TagAt(i, before, name, after);
    TagIsPrefix(t, i, tag, rest);
    TagMatches(t, i, before, name, after);
    MatchIsFound(t, m);
    RenderAtMatch(t, i, m, vars);
  }

  lemma TagIsPrefix(t: string, i: nat, tag: string, rest: string)
    requires i <= |t| && t[i..] == tag + rest
    ensures i + |tag| <= |t| && t[i..i + |tag|] == tag && t[i + |tag|..] == rest
  {
    assert t[i..i + |tag|] == t[i..][..|tag|] && t[i + |tag|..] == t[i..][|tag|..];
  }

  lemma WriteStartsWithTag(ps: seq<Piece>)
    requires ps != [] && ps[0].Tag?
    ensures |Write(ps)| >= 2 && Write(ps)[0] == '{' && Write(ps)[1] == '{'
  {
  }

  /** One piece is rendered as it is filled in. */
  lemma PieceStep(t: string, i: nat, p: Piece, rest: seq<Piece>, vars: map<string, string>)
    requires i <= |t| && t[i..] == Source(p) + Write(rest) && GoodPiece(p)
    requires p.Literal? && rest != [] ==> rest[0].Tag?
    ensures i + |Source(p)| <= |t| && t[i + |Source(p)|..] == Write(rest)
    ensures Render(t, i, vars) == Filled(p, vars) + Render(t, i + |Source(p)|, vars)
    ensures TagNames(t, i) == (if p.Tag? then [p.name] else []) + TagNames(t, i + |Source(p)|)
  {
    hide Write, Render, TagNames, TagText, TagFree, AllSpace, IsName;
    match p
    case Tag(before, name, after) => TagStep(t, i, before, name, after, Write(rest), vars);
    case Literal(text) => LiteralStep(t, i, text, rest, vars);
  }

  /** Rendering a template written from pieces fills in the pieces; inserted values are never scanned again. */
  lemma {:induction false} RenderWritten(t: string, i: nat, ps: seq<Piece>, vars: map<string, string>)
    requires i <= |t| && t[i..] == Write(ps) && GoodPieces(ps)
    ensures Render(t, i, vars) == Fill(ps, vars)
    ensures TagNames(t, i) == NamesOf(ps)
    decreases |ps|
  {
    hide *;
    if ps == [] {
      RenderEnd(t, i, vars);
    } else {
      GoodRest(ps);
      Heads(ps, vars);
      PieceStep(t, i, ps[0], ps[1..], vars);
      RenderWritten(t, i + |Source(ps[0])|, ps[1..], vars);
    }
  }

  lemma Heads(ps: seq<Piece>, vars: map<string, string>)
    requires ps != []
    ensures Write(ps) == Source(ps[0]) + Write(ps[1..]) && Fill(ps, vars) == Filled(ps[0], vars) + Fill(ps[1..], vars)
    ensures NamesOf(ps) == (if ps[0].Tag? then [ps[0].name] else []) + NamesOf(ps[1..])
  {
    hide Source, Filled;
  }

  lemma GoodRest(ps: seq<Piece>)
    requires GoodPieces(ps) && ps != []
    ensures GoodPiece(ps[0]) && GoodPieces(ps[1..])
    ensures ps[0].Literal? && ps[1..] != [] ==> ps[1..][0].Tag?
  {
    hide GoodPiece;
  }

  lemma RenderEnd(t: string, i: nat, vars: map<string, string>)
    requires i <= |t| && t[i..] == Write([])
    ensures Render(t, i, vars) == Fill([], vars) && TagNames(t, i) == NamesOf([])
  {
  }

  /** Where a literal ends, the next piece is a tag, if there is one. */
  lemma LiteralEnds(t: string, i: nat, text: string, rest: seq<Piece>)
    requires i <= |t| && t[i..] == text + Write(rest) && (rest == [] || rest[0].Tag?)
    ensures var n := |text|;
            && i + n <= |t| && t[i..i + n] == text && t[i + n..] == Write(rest)
            && (i + n == |t| || (i + n + 2 <= |t| && t[i + n] == '{' && t[i + n + 1] == '{'))
  {
    TagIsPrefix(t, i, text, Write(rest));
    if rest != [] {
      WriteStartsWithTag(rest);
      assert t[i + |text|] == t[i + |text|..][0] && t[i + |text| + 1] == t[i + |text|..][1];
    }
  }

  /** One literal is copied. */
  lemma LiteralStep(t: string, i: nat, text: string, rest: seq<Piece>, vars: map<string, string>)
    requires i <= |t| && t[i..] == text + Write(rest) && TagFree(text) && (rest == [] || rest[0].Tag?)
    ensures i + |text| <= |t| && t[i + |text|..] == Write(rest)
    ensures Render(t, i, vars) == text + Render(t, i + |text|, vars)
    ensures TagNames(t, i) == TagNames(t, i + |text|)
  {
    hide *;
    LiteralEnds(t, i, text, rest);
    forall j | i <= j < i + |text|
      ensures MatchAt(t, j).None?
    {
      LiteralHasNoMatch(t, i, |text|, j);
    }
    RenderGap(t, i, i + |text|, vars);
  }

  // ---------- Every template is built from pieces ----------

  lemma WritePush(p: Piece, ps: seq<Piece>)
    ensures Write([p] + ps) == Source(p) + Write(ps)
  {
    assert ([p] + ps)[1..] == ps;
  }

  /** The gap before a match, or the rest after the last one. */
  lemma GapIsTagFree(t: string, i: nat, n: nat)
    requires i + n <= |t| && forall j :: i <= j < i + n ==> MatchAt(t, j).None?
    ensures TagFree(t[i..i + n])
  {
    hide MatchAt, AllSpace, IsName;
    var part := t[i..i + n];
    forall m | Matches(part, m)
      ensures false
    {
      var a := m.start + i;
      Slice(t, i, n, m.start, m.start + 2);
      Slice(t, i, n, m.start + 2, m.nameStart);
      Slice(t, i, n, m.nameStart, m.nameEnd);
      Slice(t, i, n, m.nameEnd, m.end - 2);
      Slice(t, i, n, m.end - 2, m.end);
      MatchIsFound(t, Match(a, m.end + i, m.nameStart + i, m.nameEnd + i));
    }
  }

  /** A match as a piece. */
  lemma MatchAsPiece(t: string, m: Match) returns (p: Piece)
    requires Matches(t, m)
    ensures p.Tag? && GoodPiece(p) && TagText(p.before, p.name, p.after) == t[m.start..m.end]
  {
    p := Tag(t[m.start + 2..m.nameStart], t[m.nameStart..m.nameEnd], t[m.nameEnd..m.end - 2]);
    hide AllSpace, IsName;
    assert t[m.start..m.end] == t[m.start..m.start + 2] + p.before + p.name + p.after + t[m.end - 2..m.end];
  }

  /** So what rendering does to written templates is what it does to all of them. */
  lemma {:induction false} EveryTemplateIsWritten(t: string, i: nat) returns (ps: seq<Piece>)
    requires i <= |t|
    ensures GoodPieces(ps) && Write(ps) == t[i..]
    decreases |t| - i
  {
    hide MatchAt, Matches, TagText, TagFree, AllSpace, IsName;
    FirstMatch(t, i);
    var ms := FindAll(t, i);
    var end := if ms == [] then |t| else ms[0].start;
    ps := [];
    if ms != [] {
      FoundMatches(t, end);
      var p := MatchAsPiece(t, ms[0]);
      var rest := EveryTemplateIsWritten(t, ms[0].end);
      ps := [p] + rest;
      WritePush(p, rest);
      assert t[end..] == t[end..ms[0].end] + t[ms[0].end..];
    }
    if i < end {
      GapIsTagFree(t, i, end - i);
      var literal := Literal(t[i..end]);
      WritePush(literal, ps);
      ps := [literal] + ps;
      assert t[i..] == t[i..end] + t[end..];
    }
  }
}
