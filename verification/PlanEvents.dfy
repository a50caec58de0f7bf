/**
 The showplan reader on event streams: its stacks mirror the open elements, and
 the way an element is written matters for exactly some kinds of element.
 */
module PlanEvents {
  import opened Wrappers
  import opened Strings
  import opened Identifiers
  import opened PlanXml
  import opened PlanLaws
  import PlanTree

  // ---- stacks mirror the open elements --------------------------------------------------

  /** The tags left open by well-nested `events`, innermost last; None if an end
      tag does not match. */
  function OpenAfter(open: seq<Tag>, events: seq<Event>): Option<seq<Tag>>
    decreases |events|
  {
    if events == [] then Some(open)
    else
      match events[0]
      case Start(e) => OpenAfter(open + [TagOf(e)], events[1..])
      case End(tag) => if open != [] && Last(open) == tag then OpenAfter(Init(open), events[1..]) else None
      case _ => OpenAfter(open, events[1..])
  }

  /** Every element that is opened is closed, in order, as an XML reader demands; names
      this reader does not tell apart count as one. */
  predicate WellNested(events: seq<Event>) { OpenAfter([], events) == Some([]) }

  lemma {:induction false} OpenAfterBoth(open: seq<Tag>, a: seq<Event>, b: seq<Event>)
    ensures OpenAfter(open, a + b) == match OpenAfter(open, a) case None => None case Some(o) => OpenAfter(o, b)
    decreases |a|
  {
    if a == [] {
      assert a + b == b;
    } else {
      assert (a + b)[1..] == a[1..] + b;
      match a[0] {
        case Start(e) => OpenAfterBoth(open + [TagOf(e)], a[1..], b);
        case End(tag) =>
          if open != [] && Last(open) == tag {
            OpenAfterBoth(Init(open), a[1..], b);
          }
        case _ => OpenAfterBoth(open, a[1..], b);
      }
    }
  }

  lemma OpenAfterOne(open: seq<Tag>, ev: Event)
    ensures ev.Start? ==> OpenAfter(open, [ev]) == Some(open + [TagOf(ev.e)])
    ensures ev.End? ==>
              OpenAfter(open, [ev]) == if open != [] && Last(open) == ev.tag then Some(Init(open)) else None
    ensures ev.Empty? || ev.Text? ==> OpenAfter(open, [ev]) == Some(open)
  {
    assert [ev][1..] == [];
  }

  // ---- well-nested streams are documents -----------------------------------------------------

  lemma {:induction false} DocNests(open: seq<Tag>, doc: Doc)
    ensures OpenAfter(open, EventsOf(doc)) == Some(open)
    decreases doc, 1
  {
    hide OpenAfter;
    match doc
    case Words => OpenAfterOne(open, Text);
    case Leaf(e) => OpenAfterOne(open, Empty(e));
    case Element(e, kids) =>
      var inner := open + [TagOf(e)];
      ForestNests(inner, kids);
      OpenAfterBoth(open, [Start(e)] + EventsOfAll(kids), [End(TagOf(e))]);
      OpenAfterBoth(open, [Start(e)], EventsOfAll(kids));
      OpenAfterOne(open, Start(e));
      OpenAfterOne(inner, End(TagOf(e)));
      assert Init(inner) == open;
  }

  lemma {:induction false} ForestNests(open: seq<Tag>, forest: seq<Doc>)
    ensures OpenAfter(open, EventsOfAll(forest)) == Some(open)
    decreases forest, 0
  {
    hide EventsOf;
    if forest != [] {
      DocNests(open, forest[0]);
      ForestNests(open, forest[1..]);
      OpenAfterBoth(open, EventsOf(forest[0]), EventsOfAll(forest[1..]));
    }
  }

  lemma PrintedElement(e: Elem, kids: seq<Doc>, more: seq<Event>)
    ensures [Start(e)] + (EventsOfAll(kids) + ([End(TagOf(e))] + more)) == EventsOf(Element(e, kids)) + more
  {
    hide EventsOfAll;
  }

  lemma PrintedFirst(doc: Doc, others: seq<Doc>)
    ensures EventsOfAll([doc] + others) == EventsOf(doc) + EventsOfAll(others)
    ensures EventsOfAll([]) == []
  {
    hide EventsOf;
    assert ([doc] + others)[1..] == others;
  }

  lemma PrintedShort(e: Elem)
    ensures EventsOf(Leaf(e)) == [Empty(e)] && EventsOf(Words) == [Text]
  {
  }

  /** What stands before the end tag of the innermost open element, or before the end
      of input if none is open, is a forest. */
  lemma {:induction false} ReadForest(open: seq<Tag>, events: seq<Event>) returns (forest: seq<Doc>, rest: seq<Event>)
    requires OpenAfter(open, events) == Some([])
    ensures events == EventsOfAll(forest) + rest
    ensures if open == [] then rest == []
            else rest != [] && rest[0] == End(Last(open)) && OpenAfter(Init(open), rest[1..]) == Some([])
    decreases |events|
  {
    hide EventsOf, EventsOfAll;
    PrintedFirst(Words, []);
    if events == [] || events[0].End? {
      forest, rest := [], events;
    } else {
      var doc, more := Words, events[1..];
      assert events == [events[0]] + events[1..];
      match events[0] {
        case Start(e) =>
          var inner := open + [TagOf(e)];
          assert Init(inner) == open;
          var kids, after := ReadForest(inner, events[1..]);
          doc, more := Element(e, kids), after[1..];
          assert after == [End(TagOf(e))] + more;
          PrintedElement(e, kids, more);
        case Empty(e) =>
          doc := Leaf(e);
          PrintedShort(e);
        case _ => PrintedShort(OrderBy);
      }
      var others: seq<Doc>;
      others, rest := ReadForest(open, more);
      PrintedFirst(doc, others);
      forest := [doc] + others;
      assert EventsOf(doc) + (EventsOfAll(others) + rest) == EventsOfAll(forest) + rest;
    }
  }

  /** The well-nested streams are exactly those of documents. */
  lemma WellNestedIffDocument(events: seq<Event>)
    ensures WellNested(events) <==> exists forest :: EventsOfAll(forest) == events
  {
    hide EventsOfAll;
    if WellNested(events) {
      var forest, rest := ReadForest([], events);
      assert EventsOfAll(forest) + [] == EventsOfAll(forest);
    }
    if forest :| EventsOfAll(forest) == events {
      ForestNests([], forest);
    }
  }

  /** So every stream without a loose tag is read as the document it is. */
  lemma WellNestedIsDescribed(events: seq<Event>) returns (forest: seq<Doc>)
    requires WellNested(events)
    ensures EventsOfAll(forest) == events && Parsed(events) == PlanTree.Described(forest)
  {
    hide EventsOfAll, Parsed, PlanTree.Described;
    WellNestedIffDocument(events);
    forest :| EventsOfAll(forest) == events;
    PlanTree.ParsedIsDescribed(forest);
  }

  // ---- segments ----------------------------------------------------------------------------------

  /** The open tags cut at each RelOp. */
  function Segments(open: seq<Tag>): (r: seq<seq<Tag>>)
    ensures r != []
  {
    if open == [] then [[]]
    else
      var before := Segments(Init(open));
      if Last(open) == RelOpTag then before + [[]]
      else before[..|before| - 1] + [before[|before| - 1] + [Last(open)]]
  }

  function Glue(segs: seq<seq<Tag>>): seq<Tag>
    requires segs != []
  {
    if |segs| == 1 then segs[0] else Glue(Init(segs)) + [RelOpTag] + Last(segs)
  }

  /** Segments are what stands between the RelOps, and nothing else. */
  lemma {:induction false} SegmentsCutAtOperators(open: seq<Tag>)
    ensures Glue(Segments(open)) == open
    ensures forall k :: 0 <= k < |Segments(open)| ==> RelOpTag !in Segments(open)[k]
    decreases |open|
  {
    if open != [] {
      var before := Segments(Init(open));
      var segs := Segments(open);
      SegmentsCutAtOperators(Init(open));
      assert open == Init(open) + [Last(open)];
      if Last(open) == RelOpTag {
        assert Init(segs) == before;
      } else {
        assert Init(segs) == Init(before);
        if |before| > 1 {
          assert Glue(segs) == Glue(Init(before)) + [RelOpTag] + (Last(before) + [Last(open)]);
        }
      }
    }
  }

  /** One operator per RelOp still open, and for each the number of other
      elements open between it and the next. */
  ghost predicate Mirrors(st: State, open: seq<Tag>) {
    var segs := Segments(open);
    && |st.stack| == |st.depths| == |segs| - 1
    && forall k :: 0 <= k < |st.depths| ==> st.depths[k] == |segs[k + 1]|
  }

  lemma SegmentsSnoc(open: seq<Tag>, t: Tag)
    ensures Segments(open + [t]) ==
            if t == RelOpTag then Segments(open) + [[]]
            else Init(Segments(open)) + [Last(Segments(open)) + [t]]
  {
    assert Init(open + [t]) == open;
  }

  lemma StartMirrors(st: State, open: seq<Tag>, e: Elem)
    requires Mirrors(st, open)
    ensures Mirrors(OnStart(st, e), open + [TagOf(e)])
  {
    hide OnNode, Enter, OnPending, Segments;
    SegmentsSnoc(open, TagOf(e));
  }

  lemma EmptyMirrors(st: State, open: seq<Tag>, e: Elem)
    requires Mirrors(st, open)
    ensures Mirrors(OnEmpty(st, e), open)
  {
    hide OnNode, OnPending, WithCounters, ColumnOnMissing, Segments;
  }

  lemma EndMirrors(st: State, open: seq<Tag>)
    requires open != [] && Mirrors(st, open)
    ensures Mirrors(OnEnd(st, Last(open)), Init(open))
  {
    hide Leave, Segments;
    SegmentsSnoc(Init(open), Last(open));
    assert open == Init(open) + [Last(open)];
  }

  /** At every point of a well-nested stream the operator stack holds the open
      RelOps and the depth stack counts the other elements open in each. */
  lemma {:induction false} StacksMirrorOpenElements(st: State, open: seq<Tag>, events: seq<Event>)
    requires Mirrors(st, open) && OpenAfter(open, events).Some?
    ensures Mirrors(Run(st, events), OpenAfter(open, events).value)
    decreases |events|
  {
    hide OnStart, OnEmpty, OnEnd, Mirrors, Run;
    RunStep(st, events);
    if events != [] {
      match events[0]
      case Start(e) =>
        StartMirrors(st, open, e);
        StacksMirrorOpenElements(OnStart(st, e), open + [TagOf(e)], events[1..]);
      case Empty(e) =>
        EmptyMirrors(st, open, e);
        StacksMirrorOpenElements(OnEmpty(st, e), open, events[1..]);
      case End(tag) =>
        EndMirrors(st, open);
        StacksMirrorOpenElements(OnEnd(st, tag), Init(open), events[1..]);
      case Text =>
        StacksMirrorOpenElements(st, open, events[1..]);
    }
  }

  lemma StacksMirrorFromStart(events: seq<Event>)
    requires OpenAfter([], events).Some?
    ensures Mirrors(Run(INITIAL, events), OpenAfter([], events).value)
  {
    assert Mirrors(INITIAL, []);
    StacksMirrorOpenElements(INITIAL, [], events);
  }

  // ---- self-closing or paired ---------------------------------------------------------------

  ghost predicate Paired(st: State) { |st.stack| == |st.depths| }

  lemma StepPaired(st: State, ev: Event)
    requires Paired(st)
    ensures Paired(Step(st, ev))
  {
    hide OnNode, Enter, OnPending, WithCounters, ColumnOnMissing, Leave;
  }

  /** Whatever the stream, the two stacks stay equally long. */
  lemma {:induction false} RunPaired(st: State, events: seq<Event>)
    requires Paired(st)
    ensures Paired(Run(st, events))
    decreases |events|
  {
    hide Step, Paired;
    if events != [] {
      StepPaired(st, events[0]);
      RunPaired(Step(st, events[0]), events[1..]);
    }
  }

  /** Elements the reader takes alike in both forms. */
  predicate PairSafe(e: Elem) {
    match e
    case RelOp(_) => true
    case QueryPlan(_) => true
    case MemoryGrantInfo(_, _, _) => true
    case MemoryGrantWarning(_) => true
    case Column(_, _, _) => true
    case Object(_, _, _) => true
    case PlanAffectingConvert(_) => true
    case OtherWarning(_) => true
    case Other(_) => true
    case RunTimeCounters(rows, execs) => rows == None && execs == None
    case _ => false
  }

  function Pair(e: Elem): seq<Event> { [Start(e), End(TagOf(e))] }

  lemma PairStep(st: State, e: Elem)
    requires Paired(st) && PairSafe(e) && !e.RelOp?
    ensures Step(Step(st, Start(e)), End(TagOf(e))) == Step(st, Empty(e))
  {
    hide ColumnOnNode, ObjectOnNode, OnPending, ColumnOnMissing, AddSome;
    if st.stack != [] {
      NothingAdded(Last(st.stack).actualRows);
      NothingAdded(Last(st.stack).actualExecutions);
    }
  }

  lemma PairStepOperator(st: State, attrs: RelOpAttrs)
    requires Paired(st)
    ensures Step(Step(st, Start(RelOp(attrs))), End(RelOpTag)) == Step(st, Empty(RelOp(attrs)))
  {
    var a := st.stack + [NewNode(attrs)];
    assert Init(a) == st.stack && Init(st.depths + [0]) == st.depths;
  }

  lemma RunPair(st: State, e: Elem)
    ensures Run(st, Pair(e)) == Step(Step(st, Start(e)), End(TagOf(e)))
  {
    hide Step, Run;
    assert Pair(e) == [Start(e)] + [] + [End(TagOf(e))];
    RunElement(st, e, []);
    RunStep(Step(st, Start(e)), []);
  }

  /** Writing such an element as a start/end pair anywhere leaves the parsed
      plan unchanged. */
  lemma SafePairsAgree(e: Elem, a: seq<Event>, b: seq<Event>)
    requires PairSafe(e)
    ensures Parsed(a + [Empty(e)] + b) == Parsed(a + Pair(e) + b)
  {
    hide Run, Step, PairSafe, Finish, Pair;
    RunConcat(INITIAL, a + [Empty(e)], b);
    RunConcat(INITIAL, a, [Empty(e)]);
    RunConcat(INITIAL, a + Pair(e), b);
    RunConcat(INITIAL, a, Pair(e));
    RunPaired(INITIAL, a);
    var st := Run(INITIAL, a);
    RunOne(st, Empty(e));
    RunPair(st, e);
    if e.RelOp? {
      assert e == RelOp(e.attrs) && TagOf(e) == RelOpTag;
      PairStepOperator(st, e.attrs);
    } else {
      PairStep(st, e);
    }
  }

  // ---- the other elements do care ------------------------------------------------------------

  function Op(name: string): RelOpAttrs { RelOpAttrs(name, "", 0.0, 0.0, 0.0, 0.0, 0, 1.0) }

  /** The reader just inside a first operator. */
  function Inside(name: string): State { State([NewNode(Op(name))], [0], None, QUIET, NO_PENDING) }

  /** One operator around `inner`. */
  function Wrapped(name: string, inner: seq<Event>): seq<Event> {
    [Start(RelOp(Op(name)))] + inner + [End(RelOpTag)]
  }

  lemma ParsedInside(name: string, inner: seq<Event>)
    requires |Run(Inside(name), inner).stack| == 1
    ensures var st := Run(Inside(name), inner);
            Parsed(Wrapped(name, inner)) == Some(Finish(st.stack[0], st.pending))
  {
    hide Run, Finish;
    RunElement(INITIAL, RelOp(Op(name)), inner);
    assert Step(INITIAL, Start(RelOp(Op(name)))) == Inside(name);
    var st := Run(Inside(name), inner);
    assert Init(st.stack) == [];
  }

  lemma RunTwo(st: State, x: Event, y: Event)
    ensures Run(st, [x, y]) == Step(Step(st, x), y)
  {
    hide Step, Run;
    assert [x, y] == [x] + [y];
    RunConcat(st, [x], [y]);
    RunOne(st, x);
    RunOne(Step(st, x), y);
  }

  /** A self-closing column named c. */
  const COLUMN_C: Event := Empty(Column(Some("c"), None, ""))

  lemma PlainName()
    ensures Unbracket("c") == "c" && Unbracket("") == ""
  {
  }

  /** Both readings of `e` after `before` and before `after`, inside operator `name`. */
  lemma RunAround(name: string, before: seq<Event>, x: seq<Event>, after: seq<Event>)
    ensures Run(Inside(name), before + x + after) == Run(Run(Run(Inside(name), before), x), after)
  {
    hide Run;
    RunConcat(Inside(name), before + x, after);
    RunConcat(Inside(name), before, x);
  }

  lemma AroundAsStream(name: string, before: seq<Event>, x: seq<Event>, after: seq<Event>)
    ensures Wrapped(name, before + x + after) ==
            ([Start(RelOp(Op(name)))] + before) + x + (after + [End(RelOpTag)])
  {
  }

  lemma FinishNothing(n: PlanNode)
    ensures Finish(n, NO_PENDING) == n
  {
    assert n.missing + [] == n.missing;
  }

  /** The reader inside one operator `n`, in mode `ctx`. */
  function At(n: PlanNode, ctx: Context, depth: nat): State { State([n], [depth], None, ctx, NO_PENDING) }

  lemma StartAt(n: PlanNode, ctx: Context, d: nat, e: Elem)
    requires !e.RelOp?
    ensures Step(At(n, ctx, d), Start(e)) ==
            State([OnNode(n, ctx, e, d + 1)], [d + 1], None, Enter(ctx, [n], e), OnPending(NO_PENDING, e, false))
  {
    hide OnNode, Enter, OnPending;
    assert Init([n]) == [] && Init([d]) == [];
  }

  lemma EmptyAt(n: PlanNode, ctx: Context, d: nat, e: Elem)
    requires !e.RelOp?
    ensures Step(At(n, ctx, d), Empty(e)) ==
            State([WithCounters(OnNode(n, ctx, e, d), e)], [d], None,
                  if e.Column? then ColumnOnMissing(ctx, e) else ctx, OnPending(NO_PENDING, e, false))
  {
    hide OnNode, WithCounters, ColumnOnMissing, OnPending, OnTop, Attach, Init;
    var m := OnNode(n, ctx, e, d);
    OneOnTop(n, ctx, e, d);
    InitOfOne(m);
    assert OnEmpty(At(n, ctx, d), e).stack == [] + [WithCounters(m, e)];
  }

  lemma OneOnTop(n: PlanNode, ctx: Context, e: Elem, d: nat)
    ensures OnTop([n], ctx, e, d) == [OnNode(n, ctx, e, d)]
  {
    hide OnNode;
    InitOfOne(n);
  }

  lemma InitOfOne(n: PlanNode)
    ensures Init([n]) == []
  {
  }

  lemma EndAt(n: PlanNode, ctx: Context, d: nat, tag: Tag)
    requires tag != RelOpTag && (tag == MissingIndexTag ==> ctx.curMissing == None)
    ensures Step(At(n, ctx, d + 1), End(tag)) == At(n, Leave(ctx, tag), d)
  {
    hide Leave;
    assert Init([d + 1]) == [];
  }

  lemma EndIndexAt(n: PlanNode, ctx: Context, d: nat)
    requires ctx.curMissing.Some?
    ensures Step(At(n, ctx, d + 1), End(MissingIndexTag)) ==
            At(n.(missing := n.missing + [ctx.curMissing.value]), ctx.(curMissing := None), d)
  {
    assert Init([d + 1]) == [] && Init([n]) == [];
  }

  lemma ColumnCAt(n: PlanNode, ctx: Context, d: nat)
    ensures Step(At(n, ctx, d), COLUMN_C) ==
            At(ColumnOnNode(n, ctx, COLUMN_C.e), ColumnOnMissing(ctx, COLUMN_C.e), d)
  {
    hide ColumnOnNode, ColumnOnMissing, Step;
    EmptyAt(n, ctx, d, COLUMN_C.e);
  }

  /** What the column does with every mode off, and with one mode on. */
  lemma ColumnCModes(n: PlanNode, ctx: Context)
    requires ctx.curMissing == None
    ensures ColumnOnMissing(ctx, COLUMN_C.e) == ctx
    ensures ctx == QUIET ==> ColumnOnNode(n, ctx, COLUMN_C.e) == n
    ensures ctx == QUIET.(inOrderBy := true) && n.sortColumns == [] ==>
              ColumnOnNode(n, ctx, COLUMN_C.e) == n.(sortColumns := [ColumnRef("", "c")])
    ensures ctx == QUIET.(inDefinedValues := true) && IsLookup(n) && n.outputColumns == [] ==>
              ColumnOnNode(n, ctx, COLUMN_C.e) == n.(outputColumns := [ColumnRef("", "c")])
    ensures ctx == QUIET.(inNoStats := true) && n.noStats == [] ==>
              ColumnOnNode(n, ctx, COLUMN_C.e) == n.(noStats := [ColumnRef("", "c")])
  {
    hide Unbracket, IsLookup, CapturesObject;
    PlainName();
  }

  /** `after` closes what `before` leaves open, and no more. */
  predicate Closes(open: seq<Tag>, before: seq<Event>, after: seq<Event>) {
    match OpenAfter(open, before) case None => false case Some(o) => OpenAfter(o, after) == Some(open)
  }

  lemma AroundIsWellNested(name: string, before: seq<Event>, e: Elem, after: seq<Event>)
    requires Closes([RelOpTag], before, after)
    ensures WellNested([Start(RelOp(Op(name)))] + before + [Empty(e)] + (after + [End(RelOpTag)]))
  {
    hide OpenAfter;
    var first, close := [Start(RelOp(Op(name)))], [End(RelOpTag)];
    var open := OpenAfter([RelOpTag], before).value;
    OpenAfterOne([], first[0]);
    OpenAfterOne(open, Empty(e));
    OpenAfterOne([RelOpTag], close[0]);
    OpenAfterBoth([], first, before);
    OpenAfterBoth([], first + before, [Empty(e)]);
    OpenAfterBoth(open, after, close);
    OpenAfterBoth([], first + before + [Empty(e)], after + close);
    assert [] + [RelOpTag] == [RelOpTag] && Init([RelOpTag]) == [];
  }

  /** The two readings differ if the operators they leave do. */
  lemma ReadingsDiffer(name: string, before: seq<Event>, e: Elem, after: seq<Event>, n: State, m: State)
    returns (a: seq<Event>, b: seq<Event>)
    requires Run(Run(Run(Inside(name), before), [Empty(e)]), after) == n
    requires Run(Run(Run(Inside(name), before), Pair(e)), after) == m
    requires |n.stack| == |m.stack| == 1 && n.pending == m.pending == NO_PENDING && n.stack[0] != m.stack[0]
    requires Closes([RelOpTag], before, after)
    ensures WellNested(a + [Empty(e)] + b)
    ensures Parsed(a + [Empty(e)] + b) != Parsed(a + Pair(e) + b)
  {
    hide Run, Finish, Pair, Wrapped, OpenAfter, WellNested, Closes;
    a, b := [Start(RelOp(Op(name)))] + before, after + [End(RelOpTag)];
    AroundIsWellNested(name, before, e, after);
    RunAround(name, before, [Empty(e)], after);
    RunAround(name, before, Pair(e), after);
    ParsedInside(name, before + [Empty(e)] + after);
    ParsedInside(name, before + Pair(e) + after);
    AroundAsStream(name, before, [Empty(e)], after);
    AroundAsStream(name, before, Pair(e), after);
    FinishNothing(n.stack[0]);
    FinishNothing(m.stack[0]);
  }

  lemma FirstReadingsDiffer(e: Elem, n: State, m: State) returns (a: seq<Event>, b: seq<Event>)
    requires Step(Inside(""), Empty(e)) == n
    requires Step(Step(Inside(""), Start(e)), End(TagOf(e))) == m
    requires |n.stack| == |m.stack| == 1 && n.pending == m.pending == NO_PENDING && n.stack[0] != m.stack[0]
    ensures WellNested(a + [Empty(e)] + b)
    ensures Parsed(a + [Empty(e)] + b) != Parsed(a + Pair(e) + b)
  {
    hide Run, Step, Parsed, Pair;
    RunStep(Inside(""), []);
    RunOne(Inside(""), Empty(e));
    RunPair(Inside(""), e);
    RunStep(n, []);
    RunStep(m, []);
    assert Closes([RelOpTag], [], []);
    a, b := ReadingsDiffer("", [], e, [], n, m);
  }

  /** Tests of nesting: the self-closing form does not count itself. */
  lemma DepthMatters(e: Elem) returns (a: seq<Event>, b: seq<Event>)
    requires e == Predicate || e == SeekPredicates || (e.RunTimeCounters? && !PairSafe(e))
    ensures WellNested(a + [Empty(e)] + b)
    ensures Parsed(a + [Empty(e)] + b) != Parsed(a + Pair(e) + b)
  {
    hide Parsed, Step, Pair, CapturesObject, Unbracket, IsLookup, IsSort;
    var n := NewNode(Op(""));
    EmptyAt(n, QUIET, 0, e);
    StartAt(n, QUIET, 0, e);
    assert Leave(Enter(QUIET, [n], e), TagOf(e)) == QUIET;
    EndAt(OnNode(n, QUIET, e, 1), Enter(QUIET, [n], e), 0, TagOf(e));
    a, b := FirstReadingsDiffer(e, At(WithCounters(OnNode(n, QUIET, e, 0), e), QUIET, 0),
                                At(OnNode(n, QUIET, e, 1), QUIET, 0));
  }

  lemma IndexFormMatters(e: Elem) returns (a: seq<Event>, b: seq<Event>)
    requires e.MissingIndex?
    ensures WellNested(a + [Empty(e)] + b)
    ensures Parsed(a + [Empty(e)] + b) != Parsed(a + Pair(e) + b)
  {
    hide Parsed, Unbracket, Step, Pair;
    var n := NewNode(Op(""));
    var mi := MissingIndexInfo(0.0, Unbracket(e.database), Unbracket(e.schema), Unbracket(e.table), [], [], []);
    EmptyAt(n, QUIET, 0, e);
    StartAt(n, QUIET, 0, e);
    EndIndexAt(n, QUIET.(curMissing := Some(mi)), 0);
    a, b := FirstReadingsDiffer(e, At(n, QUIET, 0), At(n.(missing := [] + [mi]), QUIET, 0));
  }

  /** Modes: the pair ends a mode that was on, the self-closing form does not.
      `n` is the operator once the mode is on, `m` after one more such element. */
  lemma ModeReadingsDiffer(name: string, e: Elem, ctx: Context, n: PlanNode, m: PlanNode, with: PlanNode)
    returns (a: seq<Event>, b: seq<Event>)
    requires e.OrderBy? || e.DefinedValues? || e.ColumnsWithNoStatistics?
    requires n == OnNode(NewNode(Op(name)), QUIET, e, 1)
    requires forall c, d :: OnNode(n, c, e, d) == m
    requires Enter(QUIET, [NewNode(Op(name))], e) == Enter(ctx, [n], e) == ctx
    requires Leave(ctx, TagOf(e)) == Leave(QUIET, TagOf(e)) == QUIET
    requires ctx.curMissing == None && ColumnOnNode(m, ctx, COLUMN_C.e) == with && with != m
    ensures WellNested(a + [Empty(e)] + b)
    ensures Parsed(a + [Empty(e)] + b) != Parsed(a + Pair(e) + b)
  {
    hide Parsed, Step, Pair, Run, Enter, Leave, OnNode, ColumnOnNode, ColumnOnMissing;
    var close := End(TagOf(e));
    NoCounters(m, e);
    StartAt(NewNode(Op(name)), QUIET, 0, e);
    EmptyAt(n, ctx, 1, e);
    StartAt(n, ctx, 1, e);
    EndAt(m, ctx, 1, TagOf(e));
    ColumnCAt(m, ctx, 1);
    ColumnCAt(m, QUIET, 1);
    ColumnCModes(m, ctx);
    ColumnCModes(m, QUIET);
    EndAt(with, ctx, 0, TagOf(e));
    EndAt(m, QUIET, 0, TagOf(e));
    RunOne(Inside(name), Start(e));
    RunOne(At(n, ctx, 1), Empty(e));
    RunPair(At(n, ctx, 1), e);
    RunTwo(At(m, ctx, 1), COLUMN_C, close);
    RunTwo(At(m, QUIET, 1), COLUMN_C, close);
    OneOpened(e);
    a, b := ReadingsDiffer(name, [Start(e)], e, [COLUMN_C, close], At(with, QUIET, 0), At(m, QUIET, 0));
  }

  lemma OneOpened(e: Elem)
    ensures Closes([RelOpTag], [Start(e)], [COLUMN_C, End(TagOf(e))])
  {
    hide OpenAfter;
    var open := [RelOpTag] + [TagOf(e)];
    OpenAfterOne([RelOpTag], Start(e));
    OpenAfterOne(open, COLUMN_C);
    OpenAfterOne(open, End(TagOf(e)));
    OpenAfterBoth(open, [COLUMN_C], [End(TagOf(e))]);
    assert [COLUMN_C] + [End(TagOf(e))] == [COLUMN_C, End(TagOf(e))];
    assert Init(open) == [RelOpTag];
  }

  lemma NoCounters(n: PlanNode, e: Elem)
    requires e.OrderBy? || e.DefinedValues? || e.ColumnsWithNoStatistics?
    ensures WithCounters(n, e) == n && OnPending(NO_PENDING, e, false) == NO_PENDING && !e.Column?
  {
  }

  lemma OrderByModeMatters() returns (a: seq<Event>, b: seq<Event>)
    ensures WellNested(a + [Empty(OrderBy)] + b)
    ensures Parsed(a + [Empty(OrderBy)] + b) != Parsed(a + Pair(OrderBy) + b)
  {
    hide Parsed, Lower, ColumnOnNode;
    var n, ctx := NewNode(Op("Sort")), QUIET.(inOrderBy := true);
    ColumnCModes(n, ctx);
    a, b := ModeReadingsDiffer("Sort", OrderBy, ctx, n, n, n.(sortColumns := [ColumnRef("", "c")]));
  }

  lemma DefinedValuesModeMatters() returns (a: seq<Event>, b: seq<Event>)
    ensures WellNested(a + [Empty(DefinedValues)] + b)
    ensures Parsed(a + [Empty(DefinedValues)] + b) != Parsed(a + Pair(DefinedValues) + b)
  {
    hide Parsed, Lower, ColumnOnNode;
    var n, ctx := NewNode(Op("Key Lookup")), QUIET.(inDefinedValues := true);
    ColumnCModes(n, ctx);
    a, b := ModeReadingsDiffer("Key Lookup", DefinedValues, ctx, n, n, n.(outputColumns := [ColumnRef("", "c")]));
  }

  lemma StatisticsModeMatters() returns (a: seq<Event>, b: seq<Event>)
    ensures WellNested(a + [Empty(ColumnsWithNoStatistics)] + b)
    ensures Parsed(a + [Empty(ColumnsWithNoStatistics)] + b) != Parsed(a + Pair(ColumnsWithNoStatistics) + b)
  {
    hide Parsed, ColumnOnNode;
    var ctx := QUIET.(inNoStats := true);
    var n := NewNode(Op("")).(warnings := [] + [NO_STATISTICS]);
    var m := NewNode(Op("")).(warnings := [] + [NO_STATISTICS] + [NO_STATISTICS]);
    ColumnCModes(m, ctx);
    a, b := ModeReadingsDiffer("", ColumnsWithNoStatistics, ctx, n, m, m.(noStats := [ColumnRef("", "c")]));
  }

  const SOME_INDEX := MissingIndex("", "", "")

  function Nameless(impact: real): MissingIndexInfo { MissingIndexInfo(impact, "", "", "", [], [], []) }

  lemma IndexOpenedAndClosed(n: PlanNode, ctx: Context)
    requires ctx.curMissing == None && n.missing == []
    ensures Step(Step(At(n, ctx, 1), Start(SOME_INDEX)), End(MissingIndexTag)) ==
            At(n.(missing := [Nameless(ctx.groupImpact)]), ctx, 1)
  {
    hide Unbracket, Step;
    PlainName();
    StartAt(n, ctx, 1, SOME_INDEX);
    EndIndexAt(n, ctx.(curMissing := Some(Nameless(ctx.groupImpact))), 1);
    assert n.missing + [Nameless(ctx.groupImpact)] == [Nameless(ctx.groupImpact)];
  }

  lemma RunThree(st: State, x: Event, y: Event, z: Event)
    ensures Run(st, [x, y, z]) == Step(Step(Step(st, x), y), z)
  {
    hide Step, Run;
    assert [x, y, z] == [x, y] + [z];
    RunConcat(st, [x, y], [z]);
    RunTwo(st, x, y);
    RunOne(Step(Step(st, x), y), z);
  }

  lemma OpenAfterThree(open: seq<Tag>, x: Event, y: Event, z: Event)
    ensures OpenAfter(open, [x, y, z]) ==
            match OpenAfter(open, [x])
            case None => None
            case Some(o) => (match OpenAfter(o, [y]) case None => None case Some(o') => OpenAfter(o', [z]))
  {
    hide OpenAfter;
    assert [x, y, z] == [x] + [y] + [z];
    OpenAfterBoth(open, [x] + [y], [z]);
    OpenAfterBoth(open, [x], [y]);
  }

  lemma GroupCloses(g: Elem)
    requires g.MissingIndexGroup?
    ensures Closes([RelOpTag], [Start(g)], [Start(SOME_INDEX), End(MissingIndexTag), End(MissingIndexGroupTag)])
  {
    hide OpenAfter;
    var open := [RelOpTag] + [MissingIndexGroupTag];
    OpenAfterOne([RelOpTag], Start(g));
    OpenAfterThree(open, Start(SOME_INDEX), End(MissingIndexTag), End(MissingIndexGroupTag));
    OpenAfterOne(open, Start(SOME_INDEX));
    OpenAfterOne(open + [MissingIndexTag], End(MissingIndexTag));
    OpenAfterOne(open, End(MissingIndexGroupTag));
    assert Init(open + [MissingIndexTag]) == open && Init(open) == [RelOpTag];
  }

  lemma GroupMatters(e: Elem) returns (a: seq<Event>, b: seq<Event>)
    requires e.MissingIndexGroup?
    ensures WellNested(a + [Empty(e)] + b)
    ensures Parsed(a + [Empty(e)] + b) != Parsed(a + Pair(e) + b)
  {
    hide Run, Step, Parsed, Pair, OpenAfter, Closes, WellNested;
    var g := MissingIndexGroup(5.0);
    var n, five := NewNode(Op("")), QUIET.(groupImpact := 5.0);
    var after := [Start(SOME_INDEX), End(MissingIndexTag), End(MissingIndexGroupTag)];
    StartAt(n, QUIET, 0, g);
    EmptyAt(n, five, 1, e);
    StartAt(n, five, 1, e);
    EndAt(n, QUIET.(groupImpact := e.impact), 1, TagOf(e));
    IndexOpenedAndClosed(n, five);
    IndexOpenedAndClosed(n, QUIET);
    var p, q := n.(missing := [Nameless(5.0)]), n.(missing := [Nameless(0.0)]);
    EndAt(p, five, 0, MissingIndexGroupTag);
    EndAt(q, QUIET, 0, MissingIndexGroupTag);
    RunOne(Inside(""), Start(g));
    RunOne(At(n, five, 1), Empty(e));
    RunPair(At(n, five, 1), e);
    RunThree(At(n, five, 1), after[0], after[1], after[2]);
    RunThree(At(n, QUIET, 1), after[0], after[1], after[2]);
    GroupCloses(g);
    assert Nameless(5.0) != Nameless(0.0);
    a, b := ReadingsDiffer("", [Start(g)], e, after, At(p, QUIET, 0), At(q, QUIET, 0));
  }

  lemma UsageName()
    ensures Upper(Trim("EQUALITY")) == "EQUALITY"
  {
    TrimBothOfTrimmed("EQUALITY", IsWhite);
  }

  lemma ColumnCFiled(ctx: Context)
    requires ctx == QUIET.(curMissing := Some(Nameless(0.0)), curUsage := Some("EQUALITY"))
    ensures ColumnOnMissing(ctx, COLUMN_C.e) == ctx.(curMissing := Some(Nameless(0.0).(equality := ["c"])))
    ensures ColumnOnMissing(ctx.(curUsage := None), COLUMN_C.e) == ctx.(curUsage := None)
  {
    hide Unbracket, Upper, Trim;
    PlainName();
    UsageName();
    assert [] + ["c"] == ["c"];
  }

  lemma ColumnCQuiet(n: PlanNode, ctx: Context)
    requires !ctx.inOrderBy && !ctx.inNoStats && !ctx.inDefinedValues && !ctx.inSeekPredicates
    ensures ColumnOnNode(n, ctx, COLUMN_C.e) == n
  {
    hide Unbracket, IsLookup, CapturesObject;
  }

  lemma UsageCloses(g: Elem)
    requires g.ColumnGroup?
    ensures Closes([RelOpTag], [Start(SOME_INDEX), Start(g)], [COLUMN_C, End(ColumnGroupTag), End(MissingIndexTag)])
  {
    hide OpenAfter;
    var mid := [RelOpTag] + [MissingIndexTag];
    var open := mid + [ColumnGroupTag];
    assert [Start(SOME_INDEX), Start(g)] == [Start(SOME_INDEX)] + [Start(g)];
    OpenAfterBoth([RelOpTag], [Start(SOME_INDEX)], [Start(g)]);
    OpenAfterOne([RelOpTag], Start(SOME_INDEX));
    OpenAfterOne(mid, Start(g));
    OpenAfterThree(open, COLUMN_C, End(ColumnGroupTag), End(MissingIndexTag));
    OpenAfterOne(open, COLUMN_C);
    OpenAfterOne(open, End(ColumnGroupTag));
    OpenAfterOne(mid, End(MissingIndexTag));
    assert Init(open) == mid && Init(mid) == [RelOpTag];
  }

  /** The column, the end of its group and the end of the index, read under the usage
      `ctx` has. */
  lemma IndexReadOut(n: PlanNode, ctx: Context, ctx': Context, mi: MissingIndexInfo)
    requires n.missing == []
    requires ColumnOnNode(n, ctx, COLUMN_C.e) == n && ColumnOnMissing(ctx, COLUMN_C.e) == ctx'
    requires ctx'.(curUsage := None) == QUIET.(curMissing := Some(mi))
    ensures Run(At(n, ctx, 2), [COLUMN_C, End(ColumnGroupTag), End(MissingIndexTag)]) ==
            At(n.(missing := [mi]), QUIET, 0)
  {
    hide Run, Step, ColumnOnNode, ColumnOnMissing;
    ColumnCAt(n, ctx, 2);
    EndAt(n, ctx', 1, ColumnGroupTag);
    EndIndexAt(n, QUIET.(curMissing := Some(mi)), 0);
    RunThree(At(n, ctx, 2), COLUMN_C, End(ColumnGroupTag), End(MissingIndexTag));
    assert [] + [mi] == [mi];
  }

  lemma UsageMatters(e: Elem) returns (a: seq<Event>, b: seq<Event>)
    requires e.ColumnGroup?
    ensures WellNested(a + [Empty(e)] + b)
    ensures Parsed(a + [Empty(e)] + b) != Parsed(a + Pair(e) + b)
  {
    hide Run, Step, Parsed, Pair, ColumnOnNode, ColumnOnMissing, Unbracket, OpenAfter, Closes, WellNested;
    PlainName();
    var g := ColumnGroup(Some("EQUALITY"));
    var n, some := NewNode(Op("")), QUIET.(curMissing := Some(Nameless(0.0)));
    var on, filed := some.(curUsage := Some("EQUALITY")), Nameless(0.0).(equality := ["c"]);
    StartAt(n, QUIET, 0, SOME_INDEX);
    StartAt(n, some, 1, g);
    RunTwo(Inside(""), Start(SOME_INDEX), Start(g));
    EmptyAt(n, on, 2, e);
    StartAt(n, on, 2, e);
    EndAt(n, on.(curUsage := e.usage), 2, TagOf(e));
    RunOne(At(n, on, 2), Empty(e));
    RunPair(At(n, on, 2), e);
    ColumnCFiled(on);
    ColumnCQuiet(n, on);
    ColumnCQuiet(n, some);
    IndexReadOut(n, on, on.(curMissing := Some(filed)), filed);
    IndexReadOut(n, some, some, Nameless(0.0));
    UsageCloses(g);
    assert [filed][0] != [Nameless(0.0)][0];
    a, b := ReadingsDiffer("", [Start(SOME_INDEX), Start(g)], e, [COLUMN_C, End(ColumnGroupTag), End(MissingIndexTag)],
                           At(n.(missing := [filed]), QUIET, 0), At(n.(missing := [Nameless(0.0)]), QUIET, 0));
  }

  lemma UnsafePairsDiffer(e: Elem) returns (a: seq<Event>, b: seq<Event>)
    requires !PairSafe(e)
    ensures WellNested(a + [Empty(e)] + b)
    ensures Parsed(a + [Empty(e)] + b) != Parsed(a + Pair(e) + b)
  {
    hide Parsed, Pair;
    match e
    case OrderBy => a, b := OrderByModeMatters();
    case DefinedValues => a, b := DefinedValuesModeMatters();
    case ColumnsWithNoStatistics => a, b := StatisticsModeMatters();
    case Predicate => a, b := DepthMatters(e);
    case SeekPredicates => a, b := DepthMatters(e);
    case RunTimeCounters(_, _) => a, b := DepthMatters(e);
    case MissingIndex(_, _, _) => a, b := IndexFormMatters(e);
    case MissingIndexGroup(_) => a, b := GroupMatters(e);
    case ColumnGroup(_) => a, b := UsageMatters(e);
  }

  /** An element may be rewritten from self-closing to a start/end pair in every
      well-nested stream without changing the parsed plan if and only if it is of a
      safe kind. */
  lemma RewritableIffSafe(e: Elem)
    ensures PairSafe(e) <==>
            forall a: seq<Event>, b: seq<Event> ::
              WellNested(a + [Empty(e)] + b) ==> Parsed(a + [Empty(e)] + b) == Parsed(a + Pair(e) + b)
  {
    hide Parsed, PairSafe, Pair, WellNested;
    if PairSafe(e) {
      forall a: seq<Event>, b: seq<Event>
        ensures Parsed(a + [Empty(e)] + b) == Parsed(a + Pair(e) + b)
      {
        SafePairsAgree(e, a, b);
      }
    } else {
      var a, b := UnsafePairsDiffer(e);
    }
  }

  /** The pair form is as well-nested as the self-closing one. */
  lemma PairsNestAlike(e: Elem, a: seq<Event>, b: seq<Event>)
    ensures WellNested(a + Pair(e) + b) <==> WellNested(a + [Empty(e)] + b)
  {
    hide OpenAfter;
    OpenAfterBoth([], a + [Empty(e)], b);
    OpenAfterBoth([], a, [Empty(e)]);
    OpenAfterBoth([], a + Pair(e), b);
    OpenAfterBoth([], a, Pair(e));
    if OpenAfter([], a).Some? {
      var open := OpenAfter([], a).value;
      OpenAfterOne(open, Empty(e));
      assert Pair(e) == [Start(e)] + [End(TagOf(e))];
      OpenAfterBoth(open, [Start(e)], [End(TagOf(e))]);
      OpenAfterOne(open, Start(e));
      OpenAfterOne(open + [TagOf(e)], End(TagOf(e)));
      assert Init(open + [TagOf(e)]) == open;
    }
  }
}
