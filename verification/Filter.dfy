/**
 Evaluation filters (internal/domain/eval.go): a tree of and/or/not nodes with leaf conditions, whose attribute
 patterns are validated and compiled in place. Compiling and matching a single pattern is the regular expression
 library's business and is left uninterpreted.
 */
module Filter {
  import opened Wrappers
  import TextLines

  /** The library: which patterns compile, and what a compiled pattern matches. */
  datatype Regexes = Regexes(compiles: string -> bool, matches: (string, string) -> bool)

  /** `compiled` remembers the pattern it was compiled from. */
  datatype AttributeRegex = AttributeRegex(key: string, pattern: string, compiled: Option<string>)

  datatype Leaf = Leaf(
    kind: Option<string>, model: Option<string>, serviceName: Option<string>, promptName: Option<string>,
    statusCode: Option<string>, minCost: Option<real>, maxCost: Option<real>, minMs: Option<int>, maxMs: Option<int>)

  /** A span as filters see it; `attribute` resolves a dotted path to text, empty when it cannot. */
  datatype Span = Span(
    kind: string, model: string, serviceName: string, promptName: string, statusCode: string, cost: real,
    start: Option<int>, end: Option<int>, attribute: string -> string)

  /** The value of a filter. A list is `None` where the source has nil; `negated` holds at most one tree. */
  datatype Tree = Node(leaf: Leaf, attrs: seq<AttributeRegex>, hasAnds: bool, ands: seq<Tree>,
                       hasOrs: bool, ors: seq<Tree>, negated: seq<Tree>)

  // ---------- What a filter means ----------

  function DurationMs(span: Span): int {
    if span.start.Some? && span.end.Some? then Truncate(span.end.value - span.start.value, 1000000) else 0
  }

  /** Integer division of nanoseconds as Go does it, towards zero. */
  function Truncate(n: int, d: int): int
    requires d > 0
  {
    if n >= 0 then n / d else -(-n / d)
  }

  predicate MatchesLeaf(leaf: Leaf, span: Span) {
    && (leaf.kind.Some? ==> span.kind == leaf.kind.value)
    && (leaf.model.Some? ==> span.model == leaf.model.value)
    && (leaf.serviceName.Some? ==> span.serviceName == leaf.serviceName.value)
    && (leaf.promptName.Some? ==> span.promptName == leaf.promptName.value)
    && (leaf.statusCode.Some? ==> span.statusCode == leaf.statusCode.value)
    && (leaf.minCost.Some? ==> leaf.minCost.value <= span.cost)
    && (leaf.maxCost.Some? ==> span.cost <= leaf.maxCost.value)
    && (leaf.minMs.Some? ==> leaf.minMs.value <= DurationMs(span))
    && (leaf.maxMs.Some? ==> DurationMs(span) <= leaf.maxMs.value)
  }

  predicate MatchesAttribute(re: Regexes, span: Span, af: AttributeRegex) {
    var val := span.attribute(af.key);
    && val != ""
    && if af.compiled.Some? then re.matches(af.compiled.value, val)
       else re.compiles(af.pattern) && re.matches(af.pattern, val)
  }

  /** All of `ands`, one of `ors` if there are any, none of `negated`, and every leaf condition. */
  predicate Matches(re: Regexes, t: Tree, span: Span)
    decreases t, 1
  {
    && AllMatch(re, t.ands, span)
    && (t.ors != [] ==> AnyMatches(re, t.ors, span))
    && !AnyMatches(re, t.negated, span)
    && MatchesLeaf(t.leaf, span)
    && (forall k :: 0 <= k < |t.attrs| ==> MatchesAttribute(re, span, t.attrs[k]))
  }

  predicate AllMatch(re: Regexes, ts: seq<Tree>, span: Span)
    decreases ts, 0
  {
    ts == [] || (Matches(re, ts[0], span) && AllMatch(re, ts[1..], span))
  }

  predicate AnyMatches(re: Regexes, ts: seq<Tree>, span: Span)
    decreases ts, 0
  {
    ts != [] && (Matches(re, ts[0], span) || AnyMatches(re, ts[1..], span))
  }

  // ---------- Properties of all nodes of a tree ----------

  /** `p` holds of every attribute condition in the tree. */
  predicate EveryAttr(t: Tree, p: AttributeRegex -> bool)
    decreases t, 1
  {
    && (forall k :: 0 <= k < |t.attrs| ==> p(t.attrs[k]))
    && EveryAttrIn(t.ands, p) && EveryAttrIn(t.ors, p) && EveryAttrIn(t.negated, p)
  }

  predicate EveryAttrIn(ts: seq<Tree>, p: AttributeRegex -> bool)
    decreases ts, 0
  {
    ts == [] || (EveryAttr(ts[0], p) && EveryAttrIn(ts[1..], p))
  }

  /** No node has an and-list or or-list that is present and empty. */
  predicate NoEmptyList(t: Tree)
    decreases t, 1
  {
    && (t.hasAnds ==> t.ands != []) && (t.hasOrs ==> t.ors != [])
    && NoEmptyListIn(t.ands) && NoEmptyListIn(t.ors) && NoEmptyListIn(t.negated)
  }

  predicate NoEmptyListIn(ts: seq<Tree>)
    decreases ts, 0
  {
    ts == [] || (NoEmptyList(ts[0]) && NoEmptyListIn(ts[1..]))
  }

  const MAX_DEPTH := 5

  function Shallow(): AttributeRegex -> bool {
    (af: AttributeRegex) => |TextLines.Split(af.key, '.')| <= MAX_DEPTH
  }

  function Compilable(re: Regexes): AttributeRegex -> bool {
    (af: AttributeRegex) => af.pattern == "" || re.compiles(af.pattern)
  }

  /** What holds of every condition that nothing but this module's operations has compiled. */
  function Faithful(re: Regexes): AttributeRegex -> bool {
    (af: AttributeRegex) => af.compiled.Some? ==> af.compiled.value == af.pattern && re.compiles(af.pattern)
  }

  function IsCompiled(): AttributeRegex -> bool {
    (af: AttributeRegex) => af.pattern != "" ==> af.compiled == Some(af.pattern)
  }

  // ---------- Compiling and validating, on values ----------

  /** A value after a pass over it, and whether the pass went through. */
  datatype Pass<T> = Pass(value: T, ok: bool)

  function CompileOne(re: Regexes, af: AttributeRegex): Pass<AttributeRegex> {
    if af.pattern == "" then Pass(af, true)
    else if re.compiles(af.pattern) then Pass(af.(compiled := Some(af.pattern)), true)
    else Pass(af, false)
  }

  function CompileAttrs(re: Regexes, attrs: seq<AttributeRegex>): (p: Pass<seq<AttributeRegex>>)
    ensures |p.value| == |attrs|
  {
    if attrs == [] then Pass([], true)
    else
      var h := CompileOne(re, attrs[0]);
      if !h.ok then Pass(attrs, false)
      else
        var r := CompileAttrs(re, attrs[1..]);
        Pass([h.value] + r.value, r.ok)
  }

  /** Own patterns first, then the and-list, the or-list and the negated filter; the first failure ends the pass. */
  function CompileTree(re: Regexes, t: Tree): Pass<Tree>
    decreases t, 2
  {
    var a := CompileAttrs(re, t.attrs);
    if !a.ok then Pass(t.(attrs := a.value), false)
    else
      var subs := CompileSubTrees(re, t);
      Pass(subs.value.(attrs := a.value), subs.ok)
  }

  function CompileSubTrees(re: Regexes, t: Tree): Pass<Tree>
    decreases t, 1
  {
    var x := CompileList(re, t.ands);
    var t1 := t.(ands := x.value);
    if !x.ok then Pass(t1, false)
    else
      var y := CompileList(re, t.ors);
      var t2 := t1.(ors := y.value);
      if !y.ok then Pass(t2, false)
      else
        var z := CompileList(re, t.negated);
        Pass(t2.(negated := z.value), z.ok)
  }

  function CompileList(re: Regexes, ts: seq<Tree>): (p: Pass<seq<Tree>>)
    ensures |p.value| == |ts|
    decreases ts, 0
  {
    if ts == [] then Pass([], true)
    else
      var h := CompileTree(re, ts[0]);
      if !h.ok then Pass([h.value] + ts[1..], false)
      else
        var r := CompileList(re, ts[1..]);
        Pass([h.value] + r.value, r.ok)
  }

  datatype Verdict = Valid | EmptyAnd | EmptyOr | TooDeep | BadPattern

  /** `Validate`: the node's own lists, then all depths, then all patterns, then the children in order. */
  function VerdictOf(re: Regexes, t: Tree): Verdict
    decreases t, 1
  {
    if t.hasAnds && t.ands == [] then EmptyAnd
    else if t.hasOrs && t.ors == [] then EmptyOr
    else if !EveryAttr(t, Shallow()) then TooDeep
    else if !EveryAttr(t, Compilable(re)) then BadPattern
    else FirstOf(FirstVerdict(re, t.ands), FirstVerdict(re, t.ors), FirstVerdict(re, t.negated))
  }

  function FirstOf(a: Verdict, b: Verdict, c: Verdict): Verdict {
    if a != Valid then a else if b != Valid then b else c
  }

  function FirstVerdict(re: Regexes, ts: seq<Tree>): Verdict
    decreases ts, 0
  {
    if ts == [] then Valid
    else if VerdictOf(re, ts[0]) != Valid then VerdictOf(re, ts[0])
    else FirstVerdict(re, ts[1..])
  }

  // ---------- Compiling keeps the meaning ----------

  lemma {:induction false} AttrsKeepMeaning(re: Regexes, attrs: seq<AttributeRegex>, span: Span)
    requires forall k :: 0 <= k < |attrs| ==> Faithful(re)(attrs[k])
    ensures var p := CompileAttrs(re, attrs);
            && (forall k :: 0 <= k < |attrs| ==> Faithful(re)(p.value[k]))
            && (forall k :: 0 <= k < |attrs| ==>
                  MatchesAttribute(re, span, p.value[k]) == MatchesAttribute(re, span, attrs[k]))
  {
    if attrs != [] {
      AttrsKeepMeaning(re, attrs[1..], span);
    }
  }

  /** Each part of a compiled tree is the part as it was or after its own pass. */
  lemma CompileTreeParts(re: Regexes, t: Tree)
    ensures var t' := CompileTree(re, t).value;
            && t'.leaf == t.leaf && t'.hasAnds == t.hasAnds && t'.hasOrs == t.hasOrs
            && t'.attrs == CompileAttrs(re, t.attrs).value
            && t'.ands in [t.ands, CompileList(re, t.ands).value]
            && t'.ors in [t.ors, CompileList(re, t.ors).value]
            && t'.negated in [t.negated, CompileList(re, t.negated).value]
  {
    hide CompileAttrs, CompileList;
  }

  /** Compiling, whether it succeeds or stops part-way, never changes a filter's verdict on any span. */
  lemma {:induction false} CompileKeepsMeaning(re: Regexes, t: Tree, span: Span)
    requires EveryAttr(t, Faithful(re))
    ensures var t' := CompileTree(re, t).value;
            Matches(re, t', span) == Matches(re, t, span) && EveryAttr(t', Faithful(re))
    decreases t, 1
  {
    hide CompileTree, CompileAttrs, CompileList, AllMatch, AnyMatches, MatchesLeaf, MatchesAttribute, EveryAttrIn;
    ListKeepsMeaning(re, t.ands, span);
    ListKeepsMeaning(re, t.ors, span);
    ListKeepsMeaning(re, t.negated, span);
    AttrsKeepMeaning(re, t.attrs, span);
    CompileTreeParts(re, t);
  }

  ghost predicate SameMeaning(re: Regexes, t: Tree, t': Tree) {
    forall span :: Matches(re, t', span) == Matches(re, t, span)
  }

  lemma PassKeepsMeaning(re: Regexes, t: Tree)
    ensures EveryAttr(t, Faithful(re)) ==> SameMeaning(re, t, CompileTree(re, t).value)
  {
    hide EveryAttr, CompileTree, Matches;
    if EveryAttr(t, Faithful(re)) {
      forall span {
        CompileKeepsMeaning(re, t, span);
      }
    }
  }

  lemma {:induction false} ListKeepsMeaning(re: Regexes, ts: seq<Tree>, span: Span)
    requires EveryAttrIn(ts, Faithful(re))
    ensures var ts' := CompileList(re, ts).value;
            && AllMatch(re, ts', span) == AllMatch(re, ts, span)
            && AnyMatches(re, ts', span) == AnyMatches(re, ts, span)
            && EveryAttrIn(ts', Faithful(re))
    decreases ts, 0
  {
    hide Matches, EveryAttr, CompileTree;
    if ts != [] {
      CompileKeepsMeaning(re, ts[0], span);
      ListKeepsMeaning(re, ts[1..], span);
      var ts' := CompileList(re, ts).value;
      assert ts'[1..] == if CompileTree(re, ts[0]).ok then CompileList(re, ts[1..]).value else ts[1..];
    }
  }

  /** Properties that look at key and pattern only are the same before and after, as is the shape. */
  lemma {:induction false} CompileKeepsText(re: Regexes, t: Tree, p: AttributeRegex -> bool)
    requires forall af: AttributeRegex, c :: p(af.(compiled := c)) == p(af)
    ensures var t' := CompileTree(re, t).value;
            EveryAttr(t', p) == EveryAttr(t, p) && NoEmptyList(t') == NoEmptyList(t)
    decreases t, 1
  {
    hide CompileTree, CompileAttrs, CompileList, EveryAttrIn, NoEmptyListIn;
    ListKeepsText(re, t.ands, p);
    ListKeepsText(re, t.ors, p);
    ListKeepsText(re, t.negated, p);
    AttrsKeepText(re, t.attrs, p);
    CompileTreeParts(re, t);
  }

  lemma {:induction false} ListKeepsText(re: Regexes, ts: seq<Tree>, p: AttributeRegex -> bool)
    requires forall af: AttributeRegex, c :: p(af.(compiled := c)) == p(af)
    ensures var ts' := CompileList(re, ts).value;
            EveryAttrIn(ts', p) == EveryAttrIn(ts, p) && NoEmptyListIn(ts') == NoEmptyListIn(ts)
    decreases ts, 0
  {
    hide EveryAttr, NoEmptyList, CompileTree;
    if ts != [] {
      CompileKeepsText(re, ts[0], p);
      ListKeepsText(re, ts[1..], p);
      var ts' := CompileList(re, ts).value;
      assert ts'[1..] == if CompileTree(re, ts[0]).ok then CompileList(re, ts[1..]).value else ts[1..];
    }
  }

  lemma {:induction false} AttrsKeepText(re: Regexes, attrs: seq<AttributeRegex>, p: AttributeRegex -> bool)
    requires forall af: AttributeRegex, c :: p(af.(compiled := c)) == p(af)
    ensures forall k :: 0 <= k < |attrs| ==> p(CompileAttrs(re, attrs).value[k]) == p(attrs[k])
  {
    if attrs != [] {
      AttrsKeepText(re, attrs[1..], p);
    }
  }

  // ---------- When compiling goes through ----------

  lemma {:induction false} CompileAttrsOk(re: Regexes, attrs: seq<AttributeRegex>)
    ensures var p := CompileAttrs(re, attrs);
            && (p.ok <==> forall k :: 0 <= k < |attrs| ==> Compilable(re)(attrs[k]))
            && (p.ok ==> forall k :: 0 <= k < |attrs| ==> IsCompiled()(p.value[k]))
  {
    if attrs != [] {
      CompileAttrsOk(re, attrs[1..]);
      assert forall k :: 0 < k < |attrs| ==> attrs[k] == attrs[1..][k - 1];
    }
  }

  /** Compiling goes through exactly when every non-empty pattern of the tree compiles, and then all are compiled. */
  lemma {:induction false} CompileOkIff(re: Regexes, t: Tree)
    ensures var p := CompileTree(re, t);
            && (p.ok <==> EveryAttr(t, Compilable(re)))
            && (p.ok ==> EveryAttr(p.value, IsCompiled()))
    decreases t, 1
  {
    CompileAttrsOk(re, t.attrs);
    ListOkIff(re, t.ands);
    ListOkIff(re, t.ors);
    ListOkIff(re, t.negated);
  }

  lemma {:induction false} ListOkIff(re: Regexes, ts: seq<Tree>)
    ensures var p := CompileList(re, ts);
            && (p.ok <==> EveryAttrIn(ts, Compilable(re)))
            && (p.ok ==> EveryAttrIn(p.value, IsCompiled()))
    decreases ts, 0
  {
    hide EveryAttr, CompileTree;
    if ts != [] {
      CompileOkIff(re, ts[0]);
      ListOkIff(re, ts[1..]);
      assert CompileList(re, ts).ok ==> CompileList(re, ts).value[1..] == CompileList(re, ts[1..]).value;
    }
  }

  lemma {:induction false} AttrsAgain(re: Regexes, attrs: seq<AttributeRegex>)
    requires forall k :: 0 <= k < |attrs| ==> IsCompiled()(attrs[k]) && Compilable(re)(attrs[k])
    ensures CompileAttrs(re, attrs) == Pass(attrs, true)
  {
    if attrs != [] {
      assert IsCompiled()(attrs[0]) && Compilable(re)(attrs[0]);
      AttrsAgain(re, attrs[1..]);
      assert attrs == [attrs[0]] + attrs[1..];
    }
  }

  /** Compiling once more changes nothing. */
  lemma {:induction false} CompileAgain(re: Regexes, t: Tree)
    requires EveryAttr(t, IsCompiled()) && EveryAttr(t, Compilable(re))
    ensures CompileTree(re, t) == Pass(t, true)
    decreases t, 1
  {
    AttrsAgain(re, t.attrs);
    ListAgain(re, t.ands);
    ListAgain(re, t.ors);
    ListAgain(re, t.negated);
  }

  lemma {:induction false} ListAgain(re: Regexes, ts: seq<Tree>)
    requires EveryAttrIn(ts, IsCompiled()) && EveryAttrIn(ts, Compilable(re))
    ensures CompileList(re, ts) == Pass(ts, true)
    decreases ts, 0
  {
    hide EveryAttr, CompileTree;
    if ts != [] {
      CompileAgain(re, ts[0]);
      ListAgain(re, ts[1..]);
      assert ts == [ts[0]] + ts[1..];
    }
  }

  /** A filter is valid exactly when no list of it is empty, no key too deep and every pattern compiles. */
  lemma {:induction false} ValidIff(re: Regexes, t: Tree)
    ensures VerdictOf(re, t) == Valid <==>
              NoEmptyList(t) && EveryAttr(t, Shallow()) && EveryAttr(t, Compilable(re))
    decreases t, 1
  {
    ListValidIff(re, t.ands);
    ListValidIff(re, t.ors);
    ListValidIff(re, t.negated);
  }

  lemma {:induction false} ListValidIff(re: Regexes, ts: seq<Tree>)
    ensures EveryAttrIn(ts, Shallow()) && EveryAttrIn(ts, Compilable(re)) ==>
              (FirstVerdict(re, ts) == Valid <==> NoEmptyListIn(ts))
    decreases ts, 0
  {
    hide EveryAttr, NoEmptyList, VerdictOf;
    if ts != [] {
      ValidIff(re, ts[0]);
      ListValidIff(re, ts[1..]);
    }
  }

  /** A key is too deep when it has more than four dots. */
  lemma ShallowIs(af: AttributeRegex)
    ensures Shallow()(af) <==> |TextLines.Split(af.key, '.')| <= 5
  {
  }

  /** The empty lists of a tree, a node's own before those of its sub-filters. */
  function EmptyLists(t: Tree): seq<Verdict>
    decreases t, 1
  {
    (if t.hasAnds && t.ands == [] then [EmptyAnd] else []) + (if t.hasOrs && t.ors == [] then [EmptyOr] else []) +
    EmptyListsIn(t.ands) + EmptyListsIn(t.ors) + EmptyListsIn(t.negated)
  }

  function EmptyListsIn(ts: seq<Tree>): seq<Verdict>
    decreases ts, 0
  {
    if ts == [] then [] else EmptyLists(ts[0]) + EmptyListsIn(ts[1..])
  }

  function FirstIn(verdicts: seq<Verdict>): Verdict {
    if verdicts == [] then Valid else verdicts[0]
  }

  lemma FirstAppend(a: seq<Verdict>, b: seq<Verdict>)
    ensures FirstIn(a + b) == if a == [] then FirstIn(b) else FirstIn(a)
  {
  }

  lemma {:induction false} EmptyListsAre(t: Tree)
    ensures forall v :: v in EmptyLists(t) ==> v != Valid
    ensures FirstIn(EmptyLists(t)) == Valid <==> EmptyLists(t) == []
    decreases t, 1
  {
    EmptyListsAreIn(t.ands);
    EmptyListsAreIn(t.ors);
    EmptyListsAreIn(t.negated);
    assert EmptyLists(t) != [] ==> EmptyLists(t)[0] in EmptyLists(t);
  }

  lemma {:induction false} EmptyListsAreIn(ts: seq<Tree>)
    ensures forall v :: v in EmptyListsIn(ts) ==> v != Valid
    ensures FirstIn(EmptyListsIn(ts)) == Valid <==> EmptyListsIn(ts) == []
    decreases ts, 0
  {
    if ts != [] {
      EmptyListsAre(ts[0]);
      EmptyListsAreIn(ts[1..]);
      assert EmptyListsIn(ts) != [] ==> EmptyListsIn(ts)[0] in EmptyListsIn(ts);
    }
  }

  /**
   What is reported: an empty list of the filter itself, else a key too deep anywhere, else a pattern that does not
   compile anywhere, else the first empty list of a sub-filter.
   */
  lemma {:induction false} VerdictIs(re: Regexes, t: Tree)
    ensures VerdictOf(re, t) ==
              if t.hasAnds && t.ands == [] then EmptyAnd
              else if t.hasOrs && t.ors == [] then EmptyOr
              else if !EveryAttr(t, Shallow()) then TooDeep
              else if !EveryAttr(t, Compilable(re)) then BadPattern
              else FirstIn(EmptyLists(t))
    decreases t, 1
  {
    hide EveryAttrIn, EmptyListsIn, FirstVerdict;
    var a, b, c := EmptyListsIn(t.ands), EmptyListsIn(t.ors), EmptyListsIn(t.negated);
    FirstVerdictIs(re, t.ands);
    FirstVerdictIs(re, t.ors);
    FirstVerdictIs(re, t.negated);
    FirstAppend(a + b, c);
    FirstAppend(a, b);
    EmptyListsAreIn(t.ands);
    EmptyListsAreIn(t.ors);
    assert [] + [] + a + b + c == a + b + c;
    EmptyListsAreIn(t.negated);
  }

  lemma {:induction false} FirstVerdictIs(re: Regexes, ts: seq<Tree>)
    ensures EveryAttrIn(ts, Shallow()) && EveryAttrIn(ts, Compilable(re)) ==>
              FirstVerdict(re, ts) == FirstIn(EmptyListsIn(ts))
    decreases ts, 0
  {
    hide EveryAttr, EmptyLists, VerdictOf;
    if ts != [] {
      VerdictIs(re, ts[0]);
      FirstVerdictIs(re, ts[1..]);
      FirstAppend(EmptyLists(ts[0]), EmptyListsIn(ts[1..]));
      EmptyListsAre(ts[0]);
      EmptyListsAreIn(ts[1..]);
      OwnEmptyFirst(ts[0]);
    }
  }

  lemma OwnEmptyFirst(t: Tree)
    ensures t.hasAnds && t.ands == [] ==> FirstIn(EmptyLists(t)) == EmptyAnd
    ensures !(t.hasAnds && t.ands == []) && t.hasOrs && t.ors == [] ==> FirstIn(EmptyLists(t)) == EmptyOr
  {
  }

  /** The verdict does not depend on what is compiled already. */
  lemma {:induction false} VerdictKept(re: Regexes, t: Tree)
    ensures VerdictOf(re, CompileTree(re, t).value) == VerdictOf(re, t)
    decreases t, 1
  {
    hide CompileTree, CompileAttrs, CompileList, FirstVerdict, EveryAttr;
    CompileKeepsText(re, t, Shallow());
    CompileKeepsText(re, t, Compilable(re));
    ListVerdictKept(re, t.ands);
    ListVerdictKept(re, t.ors);
    ListVerdictKept(re, t.negated);
    CompileTreeParts(re, t);
  }

  lemma {:induction false} ListVerdictKept(re: Regexes, ts: seq<Tree>)
    ensures FirstVerdict(re, CompileList(re, ts).value) == FirstVerdict(re, ts)
    decreases ts, 0
  {
    hide CompileTree, VerdictOf;
    if ts != [] {
      VerdictKept(re, ts[0]);
      ListVerdictKept(re, ts[1..]);
      var ts' := CompileList(re, ts).value;
      assert ts'[1..] == if CompileTree(re, ts[0]).ok then CompileList(re, ts[1..]).value else ts[1..];
    }
  }

  lemma {:induction false} EveryAttrAt(ts: seq<Tree>, p: AttributeRegex -> bool)
    ensures EveryAttrIn(ts, p) <==> forall k :: 0 <= k < |ts| ==> EveryAttr(ts[k], p)
    decreases ts
  {
    hide EveryAttr;
    if ts != [] {
      EveryAttrAt(ts[1..], p);
      assert forall k :: 0 < k < |ts| ==> ts[k] == ts[1..][k - 1];
    }
  }

  /** The tree that `Validate` leaves behind: untouched if it fails before compiling, else compiled. */
  function AfterValidate(re: Regexes, t: Tree): Tree {
    if !EveryAttr(t, Shallow()) || (t.hasAnds && t.ands == []) || (t.hasOrs && t.ors == []) then t
    else CompileTree(re, t).value
  }

  /** Every pattern is compiled already, and compiles. */
  ghost predicate Settled(re: Regexes, t: Tree) {
    EveryAttr(t, IsCompiled()) && EveryAttr(t, Compilable(re)) && EveryAttr(t, Shallow())
  }

  lemma {:induction false} FirstVerdictStops(re: Regexes, ts: seq<Tree>, n: nat)
    requires n <= |ts| && forall k :: 0 <= k < n ==> VerdictOf(re, ts[k]) == Valid
    ensures n == |ts| ==> FirstVerdict(re, ts) == Valid
    ensures n < |ts| && VerdictOf(re, ts[n]) != Valid ==> FirstVerdict(re, ts) == VerdictOf(re, ts[n])
    decreases n
  {
    hide VerdictOf;
    if n > 0 {
      FirstVerdictStops(re, ts[1..], n - 1);
    }
  }

  lemma {:induction false} CompileListStops(re: Regexes, ts: seq<Tree>, after: seq<Tree>, n: nat)
    requires n <= |ts| == |after|
    requires forall k :: 0 <= k < n ==> CompileTree(re, ts[k]) == Pass(after[k], true)
    requires n < |ts| ==> CompileTree(re, ts[n]) == Pass(after[n], false)
    requires forall k :: n < k < |ts| ==> after[k] == ts[k]
    ensures CompileList(re, ts) == Pass(after, n == |ts|)
  {
    if ts != [] {
      assert after == [after[0]] + after[1..];
      if n > 0 {
        CompileListStops(re, ts[1..], after[1..], n - 1);
      } else {
        assert after[1..] == ts[1..];
      }
    }
  }

  lemma {:induction false} CompileAttrsStops(re: Regexes, attrs: seq<AttributeRegex>, after: seq<AttributeRegex>,
                                             n: nat)
    requires n <= |attrs| == |after|
    requires forall k :: 0 <= k < n ==> CompileOne(re, attrs[k]) == Pass(after[k], true)
    requires forall k :: n <= k < |attrs| ==> after[k] == attrs[k]
    requires n < |attrs| ==> !CompileOne(re, attrs[n]).ok
    ensures CompileAttrs(re, attrs) == Pass(after, n == |attrs|)
  {
    if attrs != [] && n > 0 {
      CompileAttrsStops(re, attrs[1..], after[1..], n - 1);
      assert after == [after[0]] + after[1..];
    } else {
      assert after == attrs;
    }
  }

  // ---------- Filters compiled and validated in place ----------

  /** A filter as it sits in memory: the passes over it write the entries of its pattern slices, nothing else. */
  datatype EvalFilter = EvalFilter(
    leaf: Leaf, attributesMatch: array<AttributeRegex>, hasAnds: bool, ands: seq<EvalFilter>,
    hasOrs: bool, ors: seq<EvalFilter>, negated: seq<EvalFilter>)

  /** The pattern slices of all nodes. */
  ghost function Slices(f: EvalFilter): set<object>
    decreases f, 1
  {
    {f.attributesMatch} + SlicesIn(f.ands) + SlicesIn(f.ors) + SlicesIn(f.negated)
  }

  ghost function SlicesIn(fs: seq<EvalFilter>): set<object>
    decreases fs, 0
  {
    if fs == [] then {} else Slices(fs[0]) + SlicesIn(fs[1..])
  }

  /** No two nodes share a pattern slice, as in any filter decoded from text. */
  ghost predicate Unshared(f: EvalFilter)
    decreases f, 1
  {
    && f.attributesMatch !in SlicesIn(f.ands) + SlicesIn(f.ors) + SlicesIn(f.negated)
    && SlicesIn(f.ands) !! SlicesIn(f.ors) !! SlicesIn(f.negated)
    && UnsharedIn(f.ands) && UnsharedIn(f.ors) && UnsharedIn(f.negated)
  }

  ghost predicate UnsharedIn(fs: seq<EvalFilter>)
    decreases fs, 0
  {
    fs == [] || (Unshared(fs[0]) && Slices(fs[0]) !! SlicesIn(fs[1..]) && UnsharedIn(fs[1..]))
  }

  /** The value that a filter in memory has at present. */
  ghost function Value(f: EvalFilter): Tree
    reads Slices(f)
    decreases f, 1
  {
    Node(f.leaf, f.attributesMatch[..], f.hasAnds, Values(f.ands), f.hasOrs, Values(f.ors), Values(f.negated))
  }

  ghost function Values(fs: seq<EvalFilter>): (ts: seq<Tree>)
    reads SlicesIn(fs)
    ensures |ts| == |fs|
    decreases fs, 0
  {
    if fs == [] then [] else [Value(fs[0])] + Values(fs[1..])
  }

  lemma {:induction false} Allocated(f: EvalFilter)
    ensures forall o :: o in Slices(f) ==> allocated(o)
    decreases f, 1
  {
    AllocatedIn(f.ands);
    AllocatedIn(f.ors);
    AllocatedIn(f.negated);
  }

  lemma {:induction false} AllocatedIn(fs: seq<EvalFilter>)
    ensures forall o :: o in SlicesIn(fs) ==> allocated(o)
    decreases fs, 0
  {
    if fs != [] {
      Allocated(fs[0]);
      AllocatedIn(fs[1..]);
    }
  }

  lemma {:induction false} ListParts(fs: seq<EvalFilter>, k: nat)
    requires k < |fs|
    ensures Slices(fs[k]) <= SlicesIn(fs)
    ensures UnsharedIn(fs) ==> Unshared(fs[k])
    ensures Values(fs)[k] == Value(fs[k])
    decreases fs
  {
    hide Slices, Unshared, Value;
    if k > 0 {
      ListParts(fs[1..], k - 1);
    }
  }

  lemma ListApart(fs: seq<EvalFilter>, k: nat, l: nat)
    requires k < l < |fs| && UnsharedIn(fs)
    ensures Slices(fs[k]) !! Slices(fs[l])
    decreases fs
  {
    hide Slices, Unshared;
    if k > 0 {
      ListApart(fs[1..], k - 1, l - 1);
    } else {
      ListParts(fs[1..], l - 1);
    }
  }

  /** The loop over a node's own patterns. */
  method CompileOwn(re: Regexes, attributesMatch: array<AttributeRegex>) returns (ok: bool)
    modifies attributesMatch
    ensures Pass(attributesMatch[..], ok) == CompileAttrs(re, old(attributesMatch[..]))
  {
    ghost var attrs := attributesMatch[..];
    for i := 0 to attributesMatch.Length
      invariant forall k :: 0 <= k < i ==> CompileOne(re, attrs[k]) == Pass(attributesMatch[k], true)
      invariant forall k :: i <= k < |attrs| ==> attributesMatch[k] == attrs[k]
    {
      var af := attributesMatch[i];
      if af.pattern == "" {
        continue;
      }
      if !re.compiles(af.pattern) {
        CompileAttrsStops(re, attrs, attributesMatch[..], i);
        return false;
      }
      attributesMatch[i] := af.(compiled := Some(af.pattern));
    }
    CompileAttrsStops(re, attrs, attributesMatch[..], |attrs|);
    return true;
  }

  /** `CompilePatterns`: compiled patterns replace their entries; the first failure ends the pass. */
  method CompilePatterns(re: Regexes, f: EvalFilter) returns (ok: bool)
    requires Unshared(f)
    modifies Slices(f)
    ensures Pass(Value(f), ok) == CompileTree(re, old(Value(f)))
    ensures EveryAttr(old(Value(f)), Faithful(re)) ==> SameMeaning(re, old(Value(f)), Value(f))
    decreases f, 3
  {
    ghost var t := Value(f);
    PassKeepsMeaning(re, t);
    hide CompileAttrs, CompileList, Values, SlicesIn, UnsharedIn, SameMeaning;
    Allocated(f);
    ok := CompileOwn(re, f.attributesMatch);
    if ok {
      ok := CompileEach(re, f.ands);
      if ok {
        ok := CompileEach(re, f.ors);
        if ok {
          ok := CompileEach(re, f.negated);
        }
      }
    }
  }

  /** `compilePatternsRecursive`: the loop over a list of sub-filters. */
  method CompileEach(re: Regexes, fs: seq<EvalFilter>) returns (ok: bool)
    requires UnsharedIn(fs)
    modifies SlicesIn(fs)
    ensures Pass(Values(fs), ok) == CompileList(re, old(Values(fs)))
    decreases fs, 0
  {
    hide CompileTree, CompileList, Slices, SlicesIn, Unshared, UnsharedIn, Value, Values;
    ghost var before := Values(fs);
    AllocatedIn(fs);
    forall k, l | 0 <= k < l < |fs| ensures Slices(fs[k]) !! Slices(fs[l]) { ListApart(fs, k, l); }
    forall k | 0 <= k < |fs|
      ensures Slices(fs[k]) <= SlicesIn(fs) && Unshared(fs[k]) && before[k] == Value(fs[k])
    {
      ListParts(fs, k);
    }
    for i := 0 to |fs|
      invariant forall k :: 0 <= k < i ==> CompileTree(re, before[k]) == Pass(Value(fs[k]), true)
      invariant forall k :: i <= k < |fs| ==> Value(fs[k]) == before[k]
    {
      ok := CompilePatterns(re, fs[i]);
      if !ok {
        forall k | 0 <= k < |fs| ensures Values(fs)[k] == Value(fs[k]) { ListParts(fs, k); }
        CompileListStops(re, before, Values(fs), i);
        return;
      }
    }
    forall k | 0 <= k < |fs| ensures Values(fs)[k] == Value(fs[k]) { ListParts(fs, k); }
    CompileListStops(re, before, Values(fs), |fs|);
    return true;
  }

  /** `ValidateDotPaths`. */
  method ValidateDotPaths(f: EvalFilter) returns (ok: bool)
    ensures ok == EveryAttr(Value(f), Shallow())
    decreases f, 1
  {
    hide EveryAttrIn, Values;
    Allocated(f);
    for i := 0 to f.attributesMatch.Length
      invariant forall k :: 0 <= k < i ==> Shallow()(f.attributesMatch[k])
    {
      var parts := TextLines.Split(f.attributesMatch[i].key, '.');
      if |parts| > MAX_DEPTH {
        assert !Shallow()(Value(f).attrs[i]);
        return false;
      }
    }
    assert forall k :: 0 <= k < |Value(f).attrs| ==> Shallow()(Value(f).attrs[k]);
    ok := ShallowEach(f.ands);
    if ok {
      ok := ShallowEach(f.ors);
      if ok {
        ok := ShallowEach(f.negated);
      }
    }
  }

  /** `validateDotPathsRecursive`. */
  method ShallowEach(fs: seq<EvalFilter>) returns (ok: bool)
    ensures ok == EveryAttrIn(Values(fs), Shallow())
    decreases fs, 0
  {
    hide EveryAttr, Values, Value;
    AllocatedIn(fs);
    EveryAttrAt(Values(fs), Shallow());
    for i := 0 to |fs|
      invariant forall k :: 0 <= k < i ==> EveryAttr(Values(fs)[k], Shallow())
    {
      ListParts(fs, i);
      ok := ValidateDotPaths(fs[i]);
      if !ok {
        return;
      }
    }
    return true;
  }

  /** `Validate`: afterwards a valid filter has every non-empty pattern compiled. */
  method Validate(re: Regexes, f: EvalFilter) returns (v: Verdict)
    requires Unshared(f)
    modifies Slices(f)
    ensures v == VerdictOf(re, old(Value(f))) && Value(f) == AfterValidate(re, old(Value(f)))
    ensures v == Verdict.Valid <==>
              && NoEmptyList(old(Value(f))) && EveryAttr(old(Value(f)), Shallow())
              && EveryAttr(old(Value(f)), Compilable(re))
    ensures v == Verdict.Valid ==> EveryAttr(Value(f), IsCompiled())
    ensures EveryAttr(old(Value(f)), Faithful(re)) ==> SameMeaning(re, old(Value(f)), Value(f))
    decreases f, 4
  {
    hide CompileTree, NoEmptyList, EveryAttrIn, Unshared, Matches;
    Allocated(f);
    ghost var t := Value(f);
    ValidIff(re, t);
    if f.hasAnds && |f.ands| == 0 {
      return EmptyAnd;
    }
    if f.hasOrs && |f.ors| == 0 {
      return EmptyOr;
    }
    var ok := ValidateDotPaths(f);
    if !ok {
      return TooDeep;
    }
    CompileOkIff(re, t);
    ok := CompilePatterns(re, f);
    if !ok {
      return BadPattern;
    }
    ghost var t' := Value(f);
    CompileKeepsText(re, t, Shallow());
    CompileKeepsText(re, t, Compilable(re));
    VerdictKept(re, t);
    v := ValidateSubs(re, f);
  }

  /** `validateRecursive`, on a filter whose patterns are all compiled. */
  method ValidateSubs(re: Regexes, f: EvalFilter) returns (v: Verdict)
    requires Unshared(f) && Settled(re, Value(f))
    modifies Slices(f)
    ensures Value(f) == old(Value(f))
    ensures var t := old(Value(f));
            v == FirstOf(FirstVerdict(re, t.ands), FirstVerdict(re, t.ors), FirstVerdict(re, t.negated))
    decreases f, 2
  {
    hide FirstVerdict, EveryAttrIn, Values, SlicesIn, UnsharedIn;
    Allocated(f);
    v := ValidateEach(re, f.ands);
    if v == Verdict.Valid {
      v := ValidateEach(re, f.ors);
      if v == Verdict.Valid {
        v := ValidateEach(re, f.negated);
      }
    }
  }

  method ValidateEach(re: Regexes, fs: seq<EvalFilter>) returns (v: Verdict)
    requires UnsharedIn(fs)
    requires EveryAttrIn(Values(fs), IsCompiled()) && EveryAttrIn(Values(fs), Compilable(re))
    requires EveryAttrIn(Values(fs), Shallow())
    modifies SlicesIn(fs)
    ensures Values(fs) == old(Values(fs)) && v == FirstVerdict(re, old(Values(fs)))
    decreases fs, 1
  {
    hide EveryAttr, VerdictOf, CompileTree, FirstVerdict, Slices, SlicesIn, Unshared, UnsharedIn, Value, Values;
    ghost var before := Values(fs);
    AllocatedIn(fs);
    EveryAttrAt(before, IsCompiled());
    EveryAttrAt(before, Compilable(re));
    forall k, l | 0 <= k < l < |fs| ensures Slices(fs[k]) !! Slices(fs[l]) { ListApart(fs, k, l); }
    forall k | 0 <= k < |fs|
      ensures Slices(fs[k]) <= SlicesIn(fs) && Unshared(fs[k]) && before[k] == Value(fs[k])
    {
      ListParts(fs, k);
    }
    for i := 0 to |fs|
      invariant forall k :: 0 <= k < |fs| ==> Value(fs[k]) == before[k]
      invariant forall k :: 0 <= k < i ==> VerdictOf(re, before[k]) == Valid
    {
      CompileAgain(re, before[i]);
      v := Validate(re, fs[i]);
      if v != Valid {
        forall k | 0 <= k < |fs| ensures Values(fs)[k] == Value(fs[k]) { ListParts(fs, k); }
        assert Values(fs) == before;
        FirstVerdictStops(re, before, i);
        return;
      }
    }
    forall k | 0 <= k < |fs| ensures Values(fs)[k] == Value(fs[k]) { ListParts(fs, k); }
    assert Values(fs) == before;
    FirstVerdictStops(re, before, |fs|);
    return Valid;
  }

  // ---------- Matching ----------

  lemma {:induction false} AllMatchAt(re: Regexes, ts: seq<Tree>, span: Span)
    ensures AllMatch(re, ts, span) <==> forall k :: 0 <= k < |ts| ==> Matches(re, ts[k], span)
    decreases ts
  {
    hide Matches;
    if ts != [] {
      AllMatchAt(re, ts[1..], span);
      assert forall k :: 0 < k < |ts| ==> ts[k] == ts[1..][k - 1];
    }
  }

  lemma {:induction false} AnyMatchesAt(re: Regexes, ts: seq<Tree>, span: Span)
    ensures AnyMatches(re, ts, span) <==> exists k :: 0 <= k < |ts| && Matches(re, ts[k], span)
    decreases ts
  {
    hide Matches;
    if ts != [] {
      AnyMatchesAt(re, ts[1..], span);
      assert forall k :: 0 < k < |ts| ==> ts[k] == ts[1..][k - 1];
    }
  }

  // ---------- What a match says ----------

  /**
   A span matches exactly when all of `ands`, one of `ors` if there are any, and none of `negated` match it, it has
   every field and is within every bound that is set, and for every attribute condition the text found is not empty and
   the pattern, compiled before or now, matches it. Durations are whole milliseconds, rounded towards zero.
   */
  lemma MatchesIff(re: Regexes, t: Tree, span: Span, ms: int)
    requires span.start == None || span.end == None ==> ms == 0
    requires span.start.Some? && span.end.Some? ==>
               var ns := span.end.value - span.start.value;
               if ns >= 0 then ms * 1000000 <= ns < (ms + 1) * 1000000 else (ms - 1) * 1000000 < ns <= ms * 1000000
    ensures Matches(re, t, span) <==>
              && (forall k :: 0 <= k < |t.ands| ==> Matches(re, t.ands[k], span))
              && (t.ors == [] || exists k :: 0 <= k < |t.ors| && Matches(re, t.ors[k], span))
              && (forall k :: 0 <= k < |t.negated| ==> !Matches(re, t.negated[k], span))
              && t.leaf.kind in {None, Some(span.kind)} && t.leaf.model in {None, Some(span.model)}
              && t.leaf.serviceName in {None, Some(span.serviceName)}
              && t.leaf.promptName in {None, Some(span.promptName)}
              && t.leaf.statusCode in {None, Some(span.statusCode)}
              && (t.leaf.minCost == None || span.cost >= t.leaf.minCost.value)
              && (t.leaf.maxCost == None || span.cost <= t.leaf.maxCost.value)
              && (t.leaf.minMs == None || ms >= t.leaf.minMs.value)
              && (t.leaf.maxMs == None || ms <= t.leaf.maxMs.value)
              && (forall k :: 0 <= k < |t.attrs| ==>
                    var af := t.attrs[k];
                    && span.attribute(af.key) != ""
                    && (af.compiled.Some? ==> re.matches(af.compiled.value, span.attribute(af.key)))
                    && (af.compiled == None ==>
                          re.compiles(af.pattern) && re.matches(af.pattern, span.attribute(af.key))))
  {
    hide AllMatch, AnyMatches, MatchesLeaf;
    AllMatchAt(re, t.ands, span);
    AnyMatchesAt(re, t.ors, span);
    AnyMatchesAt(re, t.negated, span);
    DurationIs(span, ms);
    LeafIff(t.leaf, span);
  }

  lemma LeafIff(leaf: Leaf, span: Span)
    ensures var ms := DurationMs(span);
            MatchesLeaf(leaf, span) <==>
              && leaf.kind in {None, Some(span.kind)} && leaf.model in {None, Some(span.model)}
              && leaf.serviceName in {None, Some(span.serviceName)}
              && leaf.promptName in {None, Some(span.promptName)}
              && leaf.statusCode in {None, Some(span.statusCode)}
              && (leaf.minCost == None || span.cost >= leaf.minCost.value)
              && (leaf.maxCost == None || span.cost <= leaf.maxCost.value)
              && (leaf.minMs == None || ms >= leaf.minMs.value)
              && (leaf.maxMs == None || ms <= leaf.maxMs.value)
  {
  }

  lemma DurationIs(span: Span, ms: int)
    requires span.start == None || span.end == None ==> ms == 0
    requires span.start.Some? && span.end.Some? ==>
               var ns := span.end.value - span.start.value;
               if ns >= 0 then ms * 1000000 <= ns < (ms + 1) * 1000000 else (ms - 1) * 1000000 < ns <= ms * 1000000
    ensures DurationMs(span) == ms
  {
  }

  const ANY_LEAF := Leaf(None, None, None, None, None, None, None, None, None)

  /** A filter with nothing set matches every span, and negating a filter turns its verdict round. */
  lemma NegationTurnsRound(re: Regexes, t: Tree, span: Span)
    ensures Matches(re, Node(ANY_LEAF, [], false, [], false, [], []), span)
    ensures Matches(re, Node(ANY_LEAF, [], false, [], false, [], [t]), span) <==> !Matches(re, t, span)
  {
    hide Matches;
    var ms := DurationMs(span);
    MatchesIff(re, Node(ANY_LEAF, [], false, [], false, [], []), span, ms);
    MatchesIff(re, Node(ANY_LEAF, [], false, [], false, [], [t]), span, ms);
    assert [t][0] == t;
  }

  /** A bound that is at least as strict. */
  predicate Stricter(a: Leaf, b: Leaf) {
    && (a.minCost.Some? ==> b.minCost.Some? && a.minCost.value <= b.minCost.value)
    && (a.maxCost.Some? ==> b.maxCost.Some? && b.maxCost.value <= a.maxCost.value)
    && (a.minMs.Some? ==> b.minMs.Some? && a.minMs.value <= b.minMs.value)
    && (a.maxMs.Some? ==> b.maxMs.Some? && b.maxMs.value <= a.maxMs.value)
  }

  /** Raising a minimum or lowering a maximum never admits a span. */
  lemma StricterAdmitsNoMore(re: Regexes, t: Tree, b: Leaf, span: Span)
    requires Stricter(t.leaf, b) && b.kind == t.leaf.kind && b.model == t.leaf.model
    requires b.serviceName == t.leaf.serviceName && b.promptName == t.leaf.promptName
    requires b.statusCode == t.leaf.statusCode && Matches(re, t.(leaf := b), span)
    ensures Matches(re, t, span)
  {
    hide AllMatch, AnyMatches, MatchesAttribute, DurationMs;
  }

  /** `Matches`: each group leaves as soon as its answer is known. */
  method MatchesSpan(re: Regexes, f: EvalFilter, span: Span) returns (b: bool)
    ensures b == Matches(re, Value(f), span)
    decreases f, 1
  {
    hide AllMatch, AnyMatches, Values, SlicesIn, MatchesLeaf, MatchesAttribute;
    Allocated(f);
    b := AllMatchSpan(re, f.ands, span);
    if !b {
      return;
    }
    if |f.ors| > 0 {
      b := AnyMatchesSpan(re, f.ors, span);
      if !b {
        return;
      }
    }
    b := AnyMatchesSpan(re, f.negated, span);
    if b {
      return false;
    }
    if !MatchesLeaf(f.leaf, span) {
      return false;
    }
    for i := 0 to f.attributesMatch.Length
      invariant forall k :: 0 <= k < i ==> MatchesAttribute(re, span, f.attributesMatch[k])
    {
      if !MatchesAttribute(re, span, f.attributesMatch[i]) {
        assert !MatchesAttribute(re, span, Value(f).attrs[i]);
        return false;
      }
    }
    return true;
  }

  method AllMatchSpan(re: Regexes, fs: seq<EvalFilter>, span: Span) returns (b: bool)
    ensures b == AllMatch(re, Values(fs), span)
    decreases fs, 0
  {
    hide Matches, AllMatch, Values, Value;
    AllocatedIn(fs);
    AllMatchAt(re, Values(fs), span);
    for i := 0 to |fs|
      invariant forall k :: 0 <= k < i ==> Matches(re, Values(fs)[k], span)
    {
      ListParts(fs, i);
      b := MatchesSpan(re, fs[i], span);
      if !b {
        return;
      }
    }
    return true;
  }

  method AnyMatchesSpan(re: Regexes, fs: seq<EvalFilter>, span: Span) returns (matched: bool)
    ensures matched == AnyMatches(re, Values(fs), span)
    decreases fs, 0
  {
    hide Matches, AnyMatches, Values, Value;
    AllocatedIn(fs);
    AnyMatchesAt(re, Values(fs), span);
    matched := false;
    for i := 0 to |fs|
      invariant !matched && forall k :: 0 <= k < i ==> !Matches(re, Values(fs)[k], span)
    {
      ListParts(fs, i);
      matched := MatchesSpan(re, fs[i], span);
      if matched {
        break;
      }
    }
  }
}
