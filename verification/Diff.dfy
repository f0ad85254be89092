/**
 The line diff of the Prompt Registry's version comparison (ui/src/utils/diff.ts).
 A longest-common-subsequence table is filled with two nested loops, then walked back to an edit script.
 */
module Diff {
  import TextLines

  datatype DiffLine =
    | Added(text: string)
    | Removed(text: string)
    | Unchanged(text: string)
    | Header(text: string)

  const NEWLINE: char := '\n'

  // ---------- What a script is ----------

  /** The lines a script says the old text had. */
  function OldSide(script: seq<DiffLine>): seq<string> {
    if script == [] then []
    else (if script[0].Removed? || script[0].Unchanged? then [script[0].text] else []) + OldSide(script[1..])
  }

  /** The lines a script says the new text has. */
  function NewSide(script: seq<DiffLine>): seq<string> {
    if script == [] then []
    else (if script[0].Added? || script[0].Unchanged? then [script[0].text] else []) + NewSide(script[1..])
  }

  function Kept(script: seq<DiffLine>): seq<string> {
    if script == [] then []
    else (if script[0].Unchanged? then [script[0].text] else []) + Kept(script[1..])
  }

  /** How many lines a script adds or removes. */
  function Cost(script: seq<DiffLine>): nat {
    if script == [] then 0
    else (if script[0].Added? || script[0].Removed? then 1 else 0) + Cost(script[1..])
  }

  /** A script turns `a` into `b` when its two sides are exactly `a` and `b`. */
  ghost predicate Transforms(script: seq<DiffLine>, a: seq<string>, b: seq<string>) {
    OldSide(script) == a && NewSide(script) == b
  }

  /** In every run of changes the removed lines come before the added ones. */
  predicate RemovalsFirst(script: seq<DiffLine>) {
    forall k :: 0 <= k < |script| - 1 ==> !(script[k].Added? && script[k + 1].Removed?)
  }

  // ---------- Common subsequences ----------

  /** `at` lists, in increasing order, positions of `s` that spell `c`. */
  predicate Embeds(c: seq<string>, s: seq<string>, at: seq<nat>) {
    && |at| == |c|
    && (forall k :: 0 <= k < |c| ==> at[k] < |s| && s[at[k]] == c[k])
    && (forall k, l :: 0 <= k < l < |c| ==> at[k] < at[l])
  }

  ghost predicate Subsequence(c: seq<string>, s: seq<string>) {
    exists at :: Embeds(c, s, at)
  }

  /** The table entry for the first `i` lines of `a` and the first `j` lines of `b`. */
  function Lcs(a: seq<string>, b: seq<string>, i: nat, j: nat): nat
    requires i <= |a| && j <= |b|
  {
    if i == 0 || j == 0 then 0
    else if a[i - 1] == b[j - 1] then Lcs(a, b, i - 1, j - 1) + 1
    else if Lcs(a, b, i - 1, j) >= Lcs(a, b, i, j - 1) then Lcs(a, b, i - 1, j)
    else Lcs(a, b, i, j - 1)
  }

  /** Neighbouring table entries differ by at most one. */
  lemma {:induction false} LcsSteps(a: seq<string>, b: seq<string>, i: nat, j: nat)
    requires i <= |a| && j <= |b|
    ensures i < |a| ==> Lcs(a, b, i, j) <= Lcs(a, b, i + 1, j) <= Lcs(a, b, i, j) + 1
    ensures j < |b| ==> Lcs(a, b, i, j) <= Lcs(a, b, i, j + 1) <= Lcs(a, b, i, j) + 1
    decreases i + j
  {
    if i > 0 {
      LcsSteps(a, b, i - 1, j);
    }
    if j > 0 {
      LcsSteps(a, b, i, j - 1);
    }
  }

  /** Nothing longer than the table entry is common to both prefixes. */
  lemma {:induction false} LcsBounds(c: seq<string>, a: seq<string>, b: seq<string>, i: nat, j: nat,
                                     atA: seq<nat>, atB: seq<nat>)
    requires i <= |a| && j <= |b|
    requires Embeds(c, a[..i], atA) && Embeds(c, b[..j], atB)
    ensures |c| <= Lcs(a, b, i, j)
    decreases i + j
  {
    if c != [] {
      var n := |c| - 1;
      assert forall k :: 0 <= k < n ==> atA[k] < atA[n] < i && atB[k] < atB[n] < j;
      if a[i - 1] == b[j - 1] {
        LcsBounds(c[..n], a, b, i - 1, j - 1, atA[..n], atB[..n]);
      } else if atA[n] < i - 1 {
        LcsBounds(c, a, b, i - 1, j, atA, atB);
      } else {
        LcsBounds(c, a, b, i, j - 1, atA, atB);
      }
    }
  }

  /** The table entry is attained: lines of that number are common to both prefixes. */
  lemma {:induction false} LcsAttained(a: seq<string>, b: seq<string>, i: nat, j: nat)
    returns (c: seq<string>, atA: seq<nat>, atB: seq<nat>)
    requires i <= |a| && j <= |b|
    ensures Embeds(c, a[..i], atA) && Embeds(c, b[..j], atB) && |c| == Lcs(a, b, i, j)
    decreases i + j
  {
    c, atA, atB := [], [], [];
    if i > 0 && j > 0 {
      if a[i - 1] == b[j - 1] {
        c, atA, atB := LcsAttained(a, b, i - 1, j - 1);
        EmbedsMore(c, a[..i - 1], atA, a[i - 1]);
        EmbedsMore(c, b[..j - 1], atB, b[j - 1]);
        assert a[..i] == a[..i - 1] + [a[i - 1]] && b[..j] == b[..j - 1] + [b[j - 1]];
        c, atA, atB := c + [a[i - 1]], atA + [i - 1], atB + [j - 1];
      } else if Lcs(a, b, i - 1, j) >= Lcs(a, b, i, j - 1) {
        c, atA, atB := LcsAttained(a, b, i - 1, j);
      } else {
        c, atA, atB := LcsAttained(a, b, i, j - 1);
      }
    }
  }

  lemma EmbedsMore(c: seq<string>, s: seq<string>, at: seq<nat>, x: string)
    requires Embeds(c, s, at)
    ensures Embeds(c + [x], s + [x], at + [|s|])
  {
  }

  /** Every table entry is the length of a longest common subsequence of the two prefixes. */
  lemma LcsIsLongest(a: seq<string>, b: seq<string>, i: nat, j: nat)
    requires i <= |a| && j <= |b|
    ensures exists c :: Subsequence(c, a[..i]) && Subsequence(c, b[..j]) && |c| == Lcs(a, b, i, j)
    ensures forall c :: Subsequence(c, a[..i]) && Subsequence(c, b[..j]) ==> |c| <= Lcs(a, b, i, j)
  {
    var c, atA, atB := LcsAttained(a, b, i, j);
    assert Subsequence(c, a[..i]) && Subsequence(c, b[..j]);
    forall d | Subsequence(d, a[..i]) && Subsequence(d, b[..j])
      ensures |d| <= Lcs(a, b, i, j)
    {
      var inA :| Embeds(d, a[..i], inA);
      var inB :| Embeds(d, b[..j], inB);
      LcsBounds(d, a, b, i, j, inA, inB);
    }
  }

  // ---------- Facts about scripts ----------

  lemma SidesPrepend(line: DiffLine, script: seq<DiffLine>)
    ensures OldSide([line] + script) == (if line.Removed? || line.Unchanged? then [line.text] else []) + OldSide(script)
    ensures NewSide([line] + script) == (if line.Added? || line.Unchanged? then [line.text] else []) + NewSide(script)
    ensures Kept([line] + script) == (if line.Unchanged? then [line.text] else []) + Kept(script)
    ensures Cost([line] + script) == (if line.Added? || line.Removed? then 1 else 0) + Cost(script)
  {
    assert ([line] + script)[1..] == script;
  }

  /** A subsequence stays one when lines are put in front of the host, or the same line in front of both. */
  lemma SubsequencePrepend(c: seq<string>, s: seq<string>, x: string)
    requires Subsequence(c, s)
    ensures Subsequence(c, [x] + s)
    ensures Subsequence([x] + c, [x] + s)
  {
    var at :| Embeds(c, s, at);
    var shifted := seq(|at|, k requires 0 <= k < |at| => at[k] + 1);
    assert Embeds(c, [x] + s, shifted);
    assert Embeds([x] + c, [x] + s, [0] + shifted);
  }

  /** What a script keeps is common to both of its sides. */
  lemma {:induction false} KeptIsCommon(script: seq<DiffLine>)
    ensures Subsequence(Kept(script), OldSide(script))
    ensures Subsequence(Kept(script), NewSide(script))
  {
    if script == [] {
      assert Embeds([], [], []);
    } else {
      KeptIsCommon(script[1..]);
      var kept, rest := Kept(script[1..]), script[1..];
      if !script[0].Header? {
        SubsequencePrepend(kept, OldSide(rest), script[0].text);
        SubsequencePrepend(kept, NewSide(rest), script[0].text);
      }
      assert [] + kept == kept && [] + OldSide(rest) == OldSide(rest) && [] + NewSide(rest) == NewSide(rest);
    }
  }

  /** Every line of either side is kept on both sides or paid for on one. */
  lemma {:induction false} CostIsRest(script: seq<DiffLine>)
    ensures Cost(script) + 2 * |Kept(script)| == |OldSide(script)| + |NewSide(script)|
  {
    if script != [] {
      CostIsRest(script[1..]);
    }
  }

  /** No script between `a` and `b` keeps more lines than the last table entry says, or costs less than the rest. */
  lemma ScriptBound(script: seq<DiffLine>, a: seq<string>, b: seq<string>)
    requires Transforms(script, a, b)
    ensures |Kept(script)| <= Lcs(a, b, |a|, |b|)
    ensures Cost(script) == |a| + |b| - 2 * |Kept(script)|
  {
    KeptIsCommon(script);
    CostIsRest(script);
    var atA :| Embeds(Kept(script), a, atA);
    var atB :| Embeds(Kept(script), b, atB);
    assert a[..|a|] == a && b[..|b|] == b;
    LcsBounds(Kept(script), a, b, |a|, |b|, atA, atB);
  }

  /** A script that reaches the table's last entry is a cheapest one; what it keeps is a longest common subsequence. */
  lemma Optimal(script: seq<DiffLine>, a: seq<string>, b: seq<string>)
    requires Transforms(script, a, b) && |Kept(script)| == Lcs(a, b, |a|, |b|)
    ensures forall other :: Transforms(other, a, b) ==> Cost(script) <= Cost(other)
    ensures Subsequence(Kept(script), a) && Subsequence(Kept(script), b)
    ensures forall c :: Subsequence(c, a) && Subsequence(c, b) ==> |c| <= |Kept(script)|
  {
    KeptIsCommon(script);
    ScriptBound(script, a, b);
    forall other | Transforms(other, a, b)
      ensures Cost(script) <= Cost(other)
    {
      ScriptBound(other, a, b);
    }
    forall c | Subsequence(c, a) && Subsequence(c, b)
      ensures |c| <= |Kept(script)|
    {
      var atA :| Embeds(c, a, atA);
      var atB :| Embeds(c, b, atB);
      assert a[..|a|] == a && b[..|b|] == b;
      LcsBounds(c, a, b, |a|, |b|, atA, atB);
    }
  }

  // ---------- The loops ----------

  function Max(x: nat, y: nat): nat {
    if x >= y then x else y
  }

  /** Row `k` of the table holds the right entries in its first `upTo` columns. */
  ghost predicate RowFilled(dp: array2<nat>, a: seq<string>, b: seq<string>, k: nat, upTo: nat)
    requires k <= |a| && k < dp.Length0 && upTo <= dp.Length1 && upTo <= |b| + 1
    reads dp
  {
    forall l :: 0 <= l < upTo ==> dp[k, l] == Lcs(a, b, k, l)
  }

  ghost predicate RowsFilled(dp: array2<nat>, a: seq<string>, b: seq<string>, rows: nat)
    requires rows <= |a| + 1 && rows <= dp.Length0 && dp.Length1 == |b| + 1
    reads dp
  {
    forall k, l :: 0 <= k < rows && 0 <= l <= |b| ==> dp[k, l] == Lcs(a, b, k, l)
  }

  method BuildTable(a: seq<string>, b: seq<string>) returns (dp: array2<nat>)
    ensures fresh(dp) && dp.Length0 == |a| + 1 && dp.Length1 == |b| + 1
    ensures RowsFilled(dp, a, b, |a| + 1)
  {
    dp := new nat[|a| + 1, |b| + 1]((_, _) => 0);
    for i := 1 to |a| + 1
      invariant RowsFilled(dp, a, b, i)
      invariant forall k :: i <= k <= |a| ==> dp[k, 0] == 0
    {
      for j := 1 to |b| + 1
        invariant RowsFilled(dp, a, b, i)
        invariant RowFilled(dp, a, b, i, j)
        invariant forall k :: i <= k <= |a| ==> dp[k, 0] == 0
      {
        if a[i - 1] == b[j - 1] {
          dp[i, j] := dp[i - 1, j - 1] + 1;
        } else {
          dp[i, j] := Max(dp[i - 1, j], dp[i, j - 1]);
        }
      }
    }
  }

  function Reverse(stack: seq<DiffLine>): (r: seq<DiffLine>) {
    if stack == [] then [] else [stack[|stack| - 1]] + Reverse(stack[..|stack| - 1])
  }

  lemma ReversePush(stack: seq<DiffLine>, line: DiffLine)
    ensures Reverse(stack + [line]) == [line] + Reverse(stack)
  {
    assert (stack + [line])[..|stack|] == stack;
  }

  /** The state of the walk: `script` covers the lines from `(i, j)` on and has kept all it could. */
  ghost predicate Walked(a: seq<string>, b: seq<string>, i: nat, j: nat, script: seq<DiffLine>) {
    && i <= |a| && j <= |b|
    && OldSide(script) == a[i..] && NewSide(script) == b[j..]
    && |Kept(script)| + Lcs(a, b, i, j) == Lcs(a, b, |a|, |b|)
    && (forall k :: 0 <= k < |script| ==> !script[k].Header?)
  }

  /** The order of the walk: a leading removal was made because the table preferred it strictly. */
  ghost predicate Ordered(a: seq<string>, b: seq<string>, i: nat, j: nat, script: seq<DiffLine>)
    requires i <= |a| && j <= |b|
  {
    && RemovalsFirst(script)
    && (script != [] && script[0].Removed? && j > 0 ==> i < |a| && Lcs(a, b, i + 1, j - 1) < Lcs(a, b, i, j))
  }

  lemma WalkUnchanged(a: seq<string>, b: seq<string>, i: nat, j: nat, script: seq<DiffLine>)
    requires 0 < i <= |a| && 0 < j <= |b| && a[i - 1] == b[j - 1]
    requires Walked(a, b, i, j, script) && Ordered(a, b, i, j, script)
    ensures Walked(a, b, i - 1, j - 1, [Unchanged(a[i - 1])] + script)
    ensures Ordered(a, b, i - 1, j - 1, [Unchanged(a[i - 1])] + script)
  {
    SidesPrepend(Unchanged(a[i - 1]), script);
  }

  lemma WalkAdded(a: seq<string>, b: seq<string>, i: nat, j: nat, script: seq<DiffLine>)
    requires i <= |a| && 0 < j <= |b| && (i == 0 || a[i - 1] != b[j - 1])
    requires i == 0 || Lcs(a, b, i, j - 1) >= Lcs(a, b, i - 1, j)
    requires Walked(a, b, i, j, script) && Ordered(a, b, i, j, script)
    ensures Walked(a, b, i, j - 1, [Added(b[j - 1])] + script)
    ensures Ordered(a, b, i, j - 1, [Added(b[j - 1])] + script)
  {
    SidesPrepend(Added(b[j - 1]), script);
    if script != [] && script[0].Removed? {
      LcsSteps(a, b, i, j - 1);
      assert false;
    }
  }

  lemma WalkRemoved(a: seq<string>, b: seq<string>, i: nat, j: nat, script: seq<DiffLine>)
    requires 0 < i <= |a| && j <= |b|
    requires j == 0 || (a[i - 1] != b[j - 1] && Lcs(a, b, i, j - 1) < Lcs(a, b, i - 1, j))
    requires Walked(a, b, i, j, script) && Ordered(a, b, i, j, script)
    ensures Walked(a, b, i - 1, j, [Removed(a[i - 1])] + script)
    ensures Ordered(a, b, i - 1, j, [Removed(a[i - 1])] + script)
  {
    SidesPrepend(Removed(a[i - 1]), script);
  }

  method Backtrack(a: seq<string>, b: seq<string>, dp: array2<nat>) returns (script: seq<DiffLine>)
    requires dp.Length0 == |a| + 1 && dp.Length1 == |b| + 1 && RowsFilled(dp, a, b, |a| + 1)
    ensures Transforms(script, a, b)
    ensures |Kept(script)| == Lcs(a, b, |a|, |b|)
    ensures RemovalsFirst(script)
    ensures forall k :: 0 <= k < |script| ==> !script[k].Header?
  {
    var i, j := |a|, |b|;
    var stack: seq<DiffLine> := [];
    while i > 0 || j > 0
      invariant 0 <= i <= |a| && 0 <= j <= |b|
      invariant Walked(a, b, i, j, Reverse(stack)) && Ordered(a, b, i, j, Reverse(stack))
      decreases i + j
    {
      ghost var before := Reverse(stack);
      if i > 0 && j > 0 && a[i - 1] == b[j - 1] {
        WalkUnchanged(a, b, i, j, before);
        ReversePush(stack, Unchanged(a[i - 1]));
        stack := stack + [Unchanged(a[i - 1])];
        i, j := i - 1, j - 1;
      } else if j > 0 && (i == 0 || dp[i, j - 1] >= dp[i - 1, j]) {
        WalkAdded(a, b, i, j, before);
        ReversePush(stack, Added(b[j - 1]));
        stack := stack + [Added(b[j - 1])];
        j := j - 1;
      } else {
        WalkRemoved(a, b, i, j, before);
        ReversePush(stack, Removed(a[i - 1]));
        stack := stack + [Removed(a[i - 1])];
        i := i - 1;
      }
    }
    script := Reverse(stack);
  }

  function HeaderLine(oldText: string, newText: string): DiffLine {
    Header("v" + (if oldText != "" then "old" else "(empty)") + " vs v" + (if newText != "" then "new" else "(empty)"))
  }

  /** The header names a side that has no text as empty. */
  lemma HeaderIs(text: string, other: string)
    requires text != "" && other != ""
    ensures HeaderLine(text, other) == Header("v" + "old" + " vs v" + "new")
    ensures HeaderLine("", other) == Header("v" + "(empty)" + " vs v" + "new")
    ensures HeaderLine(text, "") == Header("v" + "old" + " vs v" + "(empty)")
    ensures HeaderLine("", "") == Header("v" + "(empty)" + " vs v" + "(empty)")
  {
  }

  /** `diffText`: the result reads back as both texts and no script between them changes fewer lines. */
  method DiffText(oldText: string, newText: string) returns (diff: seq<DiffLine>)
    ensures diff != [] && diff[0] == HeaderLine(oldText, newText)
    ensures forall k :: 1 <= k < |diff| ==> !diff[k].Header?
    ensures TextLines.Join(OldSide(diff), NEWLINE) == oldText
    ensures TextLines.Join(NewSide(diff), NEWLINE) == newText
    ensures var a, b := TextLines.Split(oldText, NEWLINE), TextLines.Split(newText, NEWLINE);
            && Transforms(diff, a, b)
            && (forall other :: Transforms(other, a, b) ==> Cost(diff) <= Cost(other))
            && Subsequence(Kept(diff), a) && Subsequence(Kept(diff), b)
            && (forall c :: Subsequence(c, a) && Subsequence(c, b) ==> |c| <= |Kept(diff)|)
    ensures RemovalsFirst(diff)
  {
    var oldLines := TextLines.Split(oldText, NEWLINE);
    var newLines := TextLines.Split(newText, NEWLINE);
    var dp := BuildTable(oldLines, newLines);
    var script := Backtrack(oldLines, newLines, dp);
    diff := [HeaderLine(oldText, newText)] + script;
    SidesPrepend(diff[0], script);
    TextLines.JoinSplit(oldText, NEWLINE);
    TextLines.JoinSplit(newText, NEWLINE);
    Optimal(diff, oldLines, newLines);
  }
}
