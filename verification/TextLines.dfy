/**
 Text: searching a substring, splitting at a separator and joining back, as `split` and `join` do in JavaScript and
 `Split` and `Contains` in Go.
 */
module TextLines {

  predicate OccursAt(s: string, sub: string, i: nat) {
    i + |sub| <= |s| && s[i..i + |sub|] == sub
  }

  predicate Contains(s: string, sub: string) {
    exists i :: 0 <= i <= |s| && OccursAt(s, sub, i)
  }

  lemma ContainsIff(s: string, sub: string)
    ensures Contains(s, sub) <==> exists before, after :: s == before + sub + after
  {
    if Contains(s, sub) {
      var i :| 0 <= i <= |s| && OccursAt(s, sub, i);
      assert s == s[..i] + sub + s[i + |sub|..];
    }
    forall before, after | s == before + sub + after
      ensures Contains(s, sub)
    {
      assert s[|before|..|before| + |sub|] == sub;
      assert OccursAt(s, sub, |before|);
    }
  }

  /** The pieces of `s` between occurrences of `sep`; never empty, `Split("")` is `[""]`. */
  function Split(s: string, sep: char): (lines: seq<string>)
    ensures lines != []
  {
    if s == [] then [[]]
    else
      var rest := Split(s[1..], sep);
      if s[0] == sep then [[]] + rest else [[s[0]] + rest[0]] + rest[1..]
  }

  function Join(lines: seq<string>, sep: char): string {
    if lines == [] then []
    else if |lines| == 1 then lines[0]
    else lines[0] + [sep] + Join(lines[1..], sep)
  }

  /** Prepending a character to the first line prepends it to the joined text. */
  lemma JoinPrepend(c: char, lines: seq<string>, sep: char)
    requires lines != []
    ensures Join([[c] + lines[0]] + lines[1..], sep) == [c] + Join(lines, sep)
  {
    assert ([[c] + lines[0]] + lines[1..])[1..] == lines[1..];
  }

  lemma {:induction false} JoinSplit(s: string, sep: char)
    ensures Join(Split(s, sep), sep) == s
  {
    if s != [] {
      var rest := Split(s[1..], sep);
      JoinSplit(s[1..], sep);
      if s[0] == sep {
        assert ([[]] + rest)[1..] == rest;
      } else {
        JoinPrepend(s[0], rest, sep);
      }
    }
  }

  /** No line produced by `Split` contains the separator. */
  lemma {:induction false} SplitLinesFree(s: string, sep: char)
    ensures forall k :: 0 <= k < |Split(s, sep)| ==> sep !in Split(s, sep)[k]
  {
    if s != [] {
      SplitLinesFree(s[1..], sep);
    }
  }

  /** A non-empty list of separator-free lines survives joining and splitting. */
  lemma {:induction false} SplitJoin(lines: seq<string>, sep: char)
    requires lines != []
    requires forall k :: 0 <= k < |lines| ==> sep !in lines[k]
    ensures Split(Join(lines, sep), sep) == lines
    decreases |lines|, |lines[0]|
  {
    var text := Join(lines, sep);
    if lines[0] == [] {
      if |lines| > 1 {
        assert text[1..] == Join(lines[1..], sep);
        SplitJoin(lines[1..], sep);
      }
    } else {
      var shorter := [lines[0][1..]] + lines[1..];
      assert [lines[0][0]] + shorter[0] == lines[0] && shorter[1..] == lines[1..];
      assert [[lines[0][0]] + shorter[0]] + shorter[1..] == lines;
      JoinPrepend(lines[0][0], shorter, sep);
      assert text[1..] == Join(shorter, sep);
      SplitJoin(shorter, sep);
    }
  }
}
