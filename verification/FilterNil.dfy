/**
 Filters with nil entries (internal/domain/eval.go), as `{"and":[null]}` decodes to: the first pass that reaches one
 dereferences it. An absent negated filter is not an entry.
 */
module FilterNil {
  import opened Filter
  import opened Wrappers

  datatype RawFilter =
    | NilEntry
    | Raw(leaf: Leaf, attrs: seq<AttributeRegex>, hasAnds: bool, ands: seq<RawFilter>,
          hasOrs: bool, ors: seq<RawFilter>, negated: seq<RawFilter>)

  // ---------- Walks over all attribute conditions ----------

  datatype Walk = Fine | Failed | Panicked

  function Then(a: Walk, b: Walk): Walk {
    if a == Fine then b else a
  }

  /**
   `ValidateDotPaths` and `CompilePatterns`: the node's own conditions, then its sub-filters; the first bad condition
   ends the walk.
   */
  function WalkOver(f: RawFilter, good: AttributeRegex -> bool): Walk
    decreases f, 1
  {
    match f
    case NilEntry => Panicked
    case Raw(_, attrs, _, ands, _, ors, negated) =>
      if exists k :: 0 <= k < |attrs| && !good(attrs[k]) then Failed
      else Then(WalkIn(ands, good), Then(WalkIn(ors, good), WalkIn(negated, good)))
  }

  function WalkIn(fs: seq<RawFilter>, good: AttributeRegex -> bool): Walk
    decreases fs, 0
  {
    if fs == [] then Fine else Then(WalkOver(fs[0], good), WalkIn(fs[1..], good))
  }

  /** What can end a walk. */
  datatype Obstacle = NilFound | BadAttribute

  function BadOnes(attrs: seq<AttributeRegex>, good: AttributeRegex -> bool): seq<Obstacle> {
    if attrs == [] then [] else (if good(attrs[0]) then [] else [BadAttribute]) + BadOnes(attrs[1..], good)
  }

  /** All obstacles of a filter, a node's own before those of its sub-filters. */
  function Obstacles(f: RawFilter, good: AttributeRegex -> bool): seq<Obstacle>
    decreases f, 1
  {
    match f
    case NilEntry => [NilFound]
    case Raw(_, attrs, _, ands, _, ors, negated) =>
      BadOnes(attrs, good) + ObstaclesIn(ands, good) + ObstaclesIn(ors, good) + ObstaclesIn(negated, good)
  }

  function ObstaclesIn(fs: seq<RawFilter>, good: AttributeRegex -> bool): seq<Obstacle>
    decreases fs, 0
  {
    if fs == [] then [] else Obstacles(fs[0], good) + ObstaclesIn(fs[1..], good)
  }

  /** A walk ends at the first obstacle. */
  function EndAt(obstacles: seq<Obstacle>): Walk {
    if obstacles == [] then Fine else if obstacles[0] == NilFound then Panicked else Failed
  }

  lemma EndAtAppend(a: seq<Obstacle>, b: seq<Obstacle>)
    ensures EndAt(a + b) == Then(EndAt(a), EndAt(b))
  {
    assert a == [] ==> a + b == b;
  }

  lemma {:induction false} BadOnesEnd(attrs: seq<AttributeRegex>, good: AttributeRegex -> bool)
    ensures EndAt(BadOnes(attrs, good)) == if exists k :: 0 <= k < |attrs| && !good(attrs[k]) then Failed else Fine
  {
    if attrs != [] {
      BadOnesEnd(attrs[1..], good);
      assert forall k :: 0 < k < |attrs| ==> attrs[k] == attrs[1..][k - 1];
    }
  }

  lemma {:induction false} WalkEndsAtFirst(f: RawFilter, good: AttributeRegex -> bool)
    ensures WalkOver(f, good) == EndAt(Obstacles(f, good))
    decreases f, 1
  {
    hide BadOnes, ObstaclesIn, WalkIn;
    match f
    case NilEntry =>
    case Raw(_, attrs, _, ands, _, ors, negated) =>
      var own, inAnds, inOrs := BadOnes(attrs, good), ObstaclesIn(ands, good), ObstaclesIn(ors, good);
      BadOnesEnd(attrs, good);
      WalkEndsIn(ands, good);
      WalkEndsIn(ors, good);
      WalkEndsIn(negated, good);
      EndAtAppend(own, inAnds);
      EndAtAppend(own + inAnds, inOrs);
      EndAtAppend(own + inAnds + inOrs, ObstaclesIn(negated, good));
  }

  lemma {:induction false} WalkEndsIn(fs: seq<RawFilter>, good: AttributeRegex -> bool)
    ensures WalkIn(fs, good) == EndAt(ObstaclesIn(fs, good))
    decreases fs, 0
  {
    hide WalkOver, Obstacles;
    if fs != [] {
      WalkEndsAtFirst(fs[0], good);
      WalkEndsIn(fs[1..], good);
      EndAtAppend(Obstacles(fs[0], good), ObstaclesIn(fs[1..], good));
    }
  }

  // ---------- Filters without nil entries ----------

  predicate NilFree(f: RawFilter)
    decreases f, 1
  {
    f.Raw? && NilFreeIn(f.ands) && NilFreeIn(f.ors) && NilFreeIn(f.negated)
  }

  predicate NilFreeIn(fs: seq<RawFilter>)
    decreases fs, 0
  {
    fs == [] || (NilFree(fs[0]) && NilFreeIn(fs[1..]))
  }

  function Solid(f: RawFilter): Tree
    requires NilFree(f)
    decreases f, 1
  {
    Node(f.leaf, f.attrs, f.hasAnds, SolidIn(f.ands), f.hasOrs, SolidIn(f.ors), SolidIn(f.negated))
  }

  function SolidIn(fs: seq<RawFilter>): (ts: seq<Tree>)
    requires NilFreeIn(fs)
    ensures |ts| == |fs|
    decreases fs, 0
  {
    if fs == [] then [] else [Solid(fs[0])] + SolidIn(fs[1..])
  }

  /** A walk that meets no obstacle has met no nil entry; without nil entries it checks every condition. */
  lemma {:induction false} WalkAndNil(f: RawFilter, good: AttributeRegex -> bool)
    ensures WalkOver(f, good) == Fine ==> NilFree(f)
    ensures NilFree(f) ==> WalkOver(f, good) == if EveryAttr(Solid(f), good) then Fine else Failed
    decreases f, 1
  {
    hide WalkIn, NilFreeIn, SolidIn, EveryAttrIn;
    if f.Raw? {
      WalkAndNilIn(f.ands, good);
      WalkAndNilIn(f.ors, good);
      WalkAndNilIn(f.negated, good);
    }
  }

  lemma {:induction false} WalkAndNilIn(fs: seq<RawFilter>, good: AttributeRegex -> bool)
    ensures WalkIn(fs, good) == Fine ==> NilFreeIn(fs)
    ensures NilFreeIn(fs) ==> WalkIn(fs, good) == if EveryAttrIn(SolidIn(fs), good) then Fine else Failed
    decreases fs, 0
  {
    hide WalkOver, NilFree, Solid, EveryAttr;
    if fs != [] {
      WalkAndNil(fs[0], good);
      WalkAndNilIn(fs[1..], good);
      if NilFreeIn(fs) {
        assert SolidIn(fs)[1..] == SolidIn(fs[1..]);
      }
    }
  }

  // ---------- Validate ----------

  datatype Result = Panic | Answer(verdict: Verdict)

  /** `Validate`: own lists, then the walk over all keys; what comes after it meets no nil entry any more. */
  function ValidateRaw(re: Regexes, f: RawFilter): Result
    requires f.Raw?
  {
    if f.hasAnds && f.ands == [] then Answer(EmptyAnd)
    else if f.hasOrs && f.ors == [] then Answer(EmptyOr)
    else
      match WalkOver(f, Shallow())
      case Panicked => Panic
      case Failed => Answer(TooDeep)
      case Fine => (WalkAndNil(f, Shallow()); Answer(VerdictOf(re, Solid(f))))
  }

  /**
   `Validate` panics exactly when its own lists are not empty and a nil entry comes before every key that is too long;
   without nil entries it gives the verdict of the tree.
   */
  lemma ValidatePanicsIff(re: Regexes, f: RawFilter)
    requires f.Raw?
    ensures ValidateRaw(re, f) == Panic <==>
              && !(f.hasAnds && f.ands == []) && !(f.hasOrs && f.ors == [])
              && Obstacles(f, Shallow()) != [] && Obstacles(f, Shallow())[0] == NilFound
    ensures NilFree(f) ==> ValidateRaw(re, f) == Answer(VerdictOf(re, Solid(f)))
  {
    hide WalkOver, Obstacles, NilFreeIn, SolidIn, EveryAttr;
    WalkEndsAtFirst(f, Shallow());
    WalkAndNil(f, Shallow());
  }

  /**
   `CompilePatterns` panics exactly when a nil entry comes before every pattern that does not compile; without nil
   entries it goes through exactly when compiling the tree does.
   */
  lemma CompilePanicsIff(re: Regexes, f: RawFilter)
    ensures WalkOver(f, Compilable(re)) == Panicked <==>
              Obstacles(f, Compilable(re)) != [] && Obstacles(f, Compilable(re))[0] == NilFound
    ensures NilFree(f) ==> WalkOver(f, Compilable(re)) == if CompileTree(re, Solid(f)).ok then Fine else Failed
  {
    hide WalkOver, Obstacles, NilFreeIn, SolidIn, EveryAttr;
    WalkEndsAtFirst(f, Compilable(re));
    WalkAndNil(f, Compilable(re));
    if NilFree(f) {
      CompileOkIff(re, Solid(f));
    }
  }

  // ---------- Matches ----------

  /** `Matches`; none where it panics. */
  function MatchesRaw(re: Regexes, f: RawFilter, span: Span): Option<bool>
    decreases f, 1
  {
    if f.NilEntry? then None
    else
      var all := AllRaw(re, f.ands, span);
      var some := if f.ors == [] then Some(true) else AnyRaw(re, f.ors, span);
      if all != Some(true) then all
      else if some != Some(true) then some
      else
        match AnyRaw(re, f.negated, span)
        case None => None
        case Some(true) => Some(false)
        case Some(false) =>
          Some(MatchesLeaf(f.leaf, span) &&
               forall k :: 0 <= k < |f.attrs| ==> MatchesAttribute(re, span, f.attrs[k]))
  }

  /** The loop over `ands`, which ends at the first that does not match. */
  function AllRaw(re: Regexes, fs: seq<RawFilter>, span: Span): Option<bool>
    decreases fs, 0
  {
    if fs == [] then Some(true)
    else
      var first := MatchesRaw(re, fs[0], span);
      if first == Some(true) then AllRaw(re, fs[1..], span) else first
  }

  /** The loop over `ors`, and the test of the negated filter: ends at the first that matches. */
  function AnyRaw(re: Regexes, fs: seq<RawFilter>, span: Span): Option<bool>
    decreases fs, 0
  {
    if fs == [] then Some(false)
    else
      var first := MatchesRaw(re, fs[0], span);
      if first == Some(false) then AnyRaw(re, fs[1..], span) else first
  }

  /** The filter with every nil entry replaced by `x`. */
  function Filled(f: RawFilter, x: Tree): Tree
    decreases f, 1
  {
    match f
    case NilEntry => x
    case Raw(leaf, attrs, hasAnds, ands, hasOrs, ors, negated) =>
      Node(leaf, attrs, hasAnds, FilledIn(ands, x), hasOrs, FilledIn(ors, x), FilledIn(negated, x))
  }

  function FilledIn(fs: seq<RawFilter>, x: Tree): (ts: seq<Tree>)
    ensures |ts| == |fs|
    decreases fs, 0
  {
    if fs == [] then [] else [Filled(fs[0], x)] + FilledIn(fs[1..], x)
  }

  /** Where matching does not panic it has met no nil entry: its answer is the same whatever filters stand there. */
  lemma {:induction false} AnswerIgnoresNil(re: Regexes, f: RawFilter, span: Span, x: Tree)
    ensures MatchesRaw(re, f, span).Some? ==> MatchesRaw(re, f, span).value == Matches(re, Filled(f, x), span)
    decreases f, 1
  {
    hide AllRaw, AnyRaw, FilledIn, AllMatch, AnyMatches, MatchesLeaf, MatchesAttribute;
    if f.Raw? {
      AnswersIgnoreNil(re, f.ands, span, x);
      AnswersIgnoreNil(re, f.ors, span, x);
      AnswersIgnoreNil(re, f.negated, span, x);
    }
  }

  lemma {:induction false} AnswersIgnoreNil(re: Regexes, fs: seq<RawFilter>, span: Span, x: Tree)
    ensures AllRaw(re, fs, span).Some? ==> AllRaw(re, fs, span).value == AllMatch(re, FilledIn(fs, x), span)
    ensures AnyRaw(re, fs, span).Some? ==> AnyRaw(re, fs, span).value == AnyMatches(re, FilledIn(fs, x), span)
    decreases fs, 0
  {
    hide MatchesRaw, Filled, Matches;
    if fs != [] {
      AnswerIgnoresNil(re, fs[0], span, x);
      AnswersIgnoreNil(re, fs[1..], span, x);
      assert FilledIn(fs, x)[1..] == FilledIn(fs[1..], x);
    }
  }

  lemma {:induction false} NothingToFill(re: Regexes, f: RawFilter, span: Span, x: Tree)
    requires NilFree(f)
    ensures Filled(f, x) == Solid(f) && MatchesRaw(re, f, span).Some?
    decreases f, 1
  {
    hide AllRaw, AnyRaw, FilledIn, NilFreeIn, SolidIn, MatchesLeaf, MatchesAttribute;
    NothingToFillIn(re, f.ands, span, x);
    NothingToFillIn(re, f.ors, span, x);
    NothingToFillIn(re, f.negated, span, x);
  }

  lemma {:induction false} NothingToFillIn(re: Regexes, fs: seq<RawFilter>, span: Span, x: Tree)
    requires NilFreeIn(fs)
    ensures FilledIn(fs, x) == SolidIn(fs) && AllRaw(re, fs, span).Some? && AnyRaw(re, fs, span).Some?
    decreases fs, 0
  {
    hide MatchesRaw, Filled, NilFree, Solid;
    if fs != [] {
      NothingToFill(re, fs[0], span, x);
      NothingToFillIn(re, fs[1..], span, x);
    }
  }

  /** Entry `k` panics, and all before it answer `b`, which keeps the loop going. */
  predicate PanicsAt(re: Regexes, fs: seq<RawFilter>, span: Span, b: bool, k: nat) {
    && k < |fs| && MatchesRaw(re, fs[k], span) == None
    && forall l :: 0 <= l < k ==> MatchesRaw(re, fs[l], span) == Some(b)
  }

  ghost predicate PanicsIn(re: Regexes, fs: seq<RawFilter>, span: Span, b: bool) {
    exists k: nat :: PanicsAt(re, fs, span, b, k)
  }

  lemma {:induction false} LoopPanicsIff(re: Regexes, fs: seq<RawFilter>, span: Span)
    ensures AllRaw(re, fs, span) == None <==> PanicsIn(re, fs, span, true)
    ensures AnyRaw(re, fs, span) == None <==> PanicsIn(re, fs, span, false)
  {
    hide MatchesRaw;
    if fs != [] {
      LoopPanicsIff(re, fs[1..], span);
      PanicsLater(re, fs, span, true);
      PanicsLater(re, fs, span, false);
    }
  }

  lemma PanicsLater(re: Regexes, fs: seq<RawFilter>, span: Span, b: bool)
    requires fs != []
    ensures PanicsIn(re, fs, span, b) <==>
              || MatchesRaw(re, fs[0], span) == None
              || (MatchesRaw(re, fs[0], span) == Some(b) && PanicsIn(re, fs[1..], span, b))
  {
    hide MatchesRaw;
    if MatchesRaw(re, fs[0], span) == None {
      assert PanicsAt(re, fs, span, b, 0);
    }
    if MatchesRaw(re, fs[0], span) == Some(b) && PanicsIn(re, fs[1..], span, b) {
      var k: nat :| PanicsAt(re, fs[1..], span, b, k);
      assert PanicsAt(re, fs, span, b, k + 1);
    }
    if PanicsIn(re, fs, span, b) {
      var k: nat :| PanicsAt(re, fs, span, b, k);
      if k > 0 {
        assert PanicsAt(re, fs[1..], span, b, k - 1);
      }
    }
  }

  /**
   `Matches` panics exactly when some list is reached in which an entry that panics is not preceded by one that ends
   the list: `ands` always, `ors` when all of `ands` match, the negated filter when one of any `ors` matches too.
   Where it does not panic, the answer is that of the filter with anything in place of its nil entries, so that of the
   tree when there are none.
   */
  lemma MatchesPanicsIff(re: Regexes, f: RawFilter, span: Span)
    requires f.Raw?
    ensures MatchesRaw(re, f, span) == None <==>
              || PanicsIn(re, f.ands, span, true)
              || (AllRaw(re, f.ands, span) == Some(true) &&
                  (PanicsIn(re, f.ors, span, false) ||
                   ((f.ors == [] || AnyRaw(re, f.ors, span) == Some(true)) && PanicsIn(re, f.negated, span, false))))
    ensures forall x :: MatchesRaw(re, f, span).Some? ==>
              MatchesRaw(re, f, span).value == Matches(re, Filled(f, x), span)
    ensures NilFree(f) ==> MatchesRaw(re, f, span) == Some(Matches(re, Solid(f), span))
  {
    hide AllRaw, AnyRaw, Filled, Matches, NilFree, Solid, PanicsIn, MatchesLeaf, MatchesAttribute;
    LoopPanicsIff(re, f.ands, span);
    LoopPanicsIff(re, f.ors, span);
    LoopPanicsIff(re, f.negated, span);
    NoneInEmpty(re, span);
    forall x ensures MatchesRaw(re, f, span).Some? ==>
        MatchesRaw(re, f, span).value == Matches(re, Filled(f, x), span)
    {
      AnswerIgnoresNil(re, f, span, x);
    }
    if NilFree(f) {
      NothingToFill(re, f, span, Solid(f));
    }
  }

  lemma NoneInEmpty(re: Regexes, span: Span)
    ensures !PanicsIn(re, [], span, false)
  {
  }
}
