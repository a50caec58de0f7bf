/**
 The showplan reader on documents, whole: over any well-formed document the event
 machine with its two stacks computes what a recursive descent over the elements
 computes, every field of every operator included, and leaves no mode on.
 */
module PlanTree {
  import opened Wrappers
  import opened PlanXml
  import opened PlanLaws

  // ---- the descent inside an operator --------------------------------------------------

  /** An operator being read, with the modes and the query-level facts. */
  datatype Reading = Reading(node: PlanNode, ctx: Context, pending: Pending)

  function Child(r: Reading, n: PlanNode): Reading {
    r.(node := r.node.(children := r.node.children + [n]))
  }

  /** `depth` counts the element itself. */
  function Opened(r: Reading, e: Elem, depth: nat): Reading {
    Reading(OnNode(r.node, r.ctx, e, depth), Enter(r.ctx, [r.node], e), OnPending(r.pending, e, false))
  }

  /** A finished missing index belongs to the operator it stands in. */
  function Closed(r: Reading, tag: Tag): Reading {
    var n := if tag == MissingIndexTag && r.ctx.curMissing.Some?
             then r.node.(missing := r.node.missing + [r.ctx.curMissing.value]) else r.node;
    Reading(n, Leave(r.ctx, tag), r.pending)
  }

  function LeafRead(r: Reading, e: Elem, depth: nat): Reading {
    Reading(WithCounters(OnNode(r.node, r.ctx, e, depth), e),
            if e.Column? then ColumnOnMissing(r.ctx, e) else r.ctx,
            OnPending(r.pending, e, false))
  }

  /** A document `depth` elements deep in the operator. A nested operator is read
      from scratch, but under the modes that are on around it. */
  function Within(r: Reading, doc: Doc, depth: nat): Reading
    decreases doc
  {
    match doc
    case Words => r
    case Leaf(e) => if e.RelOp? then Child(r, NewNode(e.attrs)) else LeafRead(r, e, depth)
    case Element(e, kids) =>
      if e.RelOp? then
        var inner := WithinAll(r.(node := NewNode(e.attrs)), kids, 0);
        Child(inner.(node := r.node), inner.node)
      else Closed(WithinAll(Opened(r, e, depth + 1), kids, depth + 1), TagOf(e))
  }

  function WithinAll(r: Reading, forest: seq<Doc>, depth: nat): Reading
    decreases forest
  {
    if forest == [] then r else WithinAll(Within(r, forest[0], depth), forest[1..], depth)
  }

  // ---- the machine does the same -------------------------------------------------------------

  function ReadingOf(st: State): Reading
    requires st.stack != []
  {
    Reading(Last(st.stack), st.ctx, st.pending)
  }

  /** The machine with its innermost operator, modes and query-level facts replaced;
      the operators around it, the depths and the root stay. */
  function Put(st: State, r: Reading): State
    requires st.stack != []
  {
    st.(stack := Init(st.stack) + [r.node], ctx := r.ctx, pending := r.pending)
  }

  lemma PutAgain(st: State, r: Reading)
    requires st.stack != []
    ensures Put(st, r).stack != [] && |Put(st, r).stack| == |st.stack| && ReadingOf(Put(st, r)) == r
    ensures Init(Put(st, r).stack) == Init(st.stack)
    ensures forall q :: Put(Put(st, r), q) == Put(st, q)
  {
  }

  lemma PutSame(st: State)
    requires st.stack != []
    ensures Put(st, ReadingOf(st)) == st
  {
    assert Init(st.stack) + [Last(st.stack)] == st.stack;
  }

  lemma StartPut(st: State, e: Elem)
    requires st.stack != [] && |st.depths| == |st.stack| && !e.RelOp?
    ensures Step(st, Start(e)) ==
            Put(st, Opened(ReadingOf(st), e, Last(st.depths) + 1)).(depths := Init(st.depths) + [Last(st.depths) + 1])
  {
    hide OnNode, OnPending;
    assert Enter(st.ctx, st.stack, e) == Enter(st.ctx, [Last(st.stack)], e) by {
      hide IsSort, CapturesObject, IsLookup, ColumnOnMissing, Unbracket;
    }
    hide Enter;
  }

  lemma EndPut(st: State, tag: Tag)
    requires st.stack != [] && |st.depths| == |st.stack| && tag != RelOpTag && Last(st.depths) > 0
    ensures Step(st, End(tag)) ==
            Put(st, Closed(ReadingOf(st), tag)).(depths := Init(st.depths) + [Last(st.depths) - 1])
  {
    hide Leave;
    PutSame(st);
  }

  lemma LeafPut(st: State, e: Elem)
    requires st.stack != [] && |st.depths| == |st.stack|
    ensures Step(st, Empty(e)) == Put(st, Within(ReadingOf(st), Leaf(e), Last(st.depths)))
  {
    hide OnNode, OnPending, ColumnOnMissing, WithCounters;
    if !e.RelOp? {
      var n := OnNode(Last(st.stack), st.ctx, e, Last(st.depths));
      var top := Init(st.stack) + [n];
      assert Init(top) == Init(st.stack) && Last(top) == n;
    }
  }

  lemma TextPut(st: State)
    requires st.stack != []
    ensures Step(st, Text) == Put(st, ReadingOf(st))
  {
    PutSame(st);
  }

  lemma OperatorPut(st: State, attrs: RelOpAttrs, inner: Reading)
    requires st.stack != [] && |st.depths| == |st.stack|
    ensures var a := Step(st, Start(RelOp(attrs)));
            && a.stack != [] && |a.depths| == |a.stack| && Last(a.depths) == 0
            && ReadingOf(a) == ReadingOf(st).(node := NewNode(attrs))
            && Step(Put(a, inner), End(RelOpTag)) ==
               Put(st, Child(inner.(node := Last(st.stack)), inner.node))
  {
    var a := Step(st, Start(RelOp(attrs)));
    var b := Put(a, inner);
    assert Init(a.stack) == st.stack && Init(a.depths) == st.depths;
    assert Init(b.stack) == st.stack && Last(b.stack) == inner.node;
  }

  lemma ClosedPut(st: State, e: Elem, r: Reading)
    requires st.stack != [] && |st.depths| == |st.stack| && !e.RelOp?
    ensures var d := Last(st.depths) + 1; var a := Step(st, Start(e));
            && a.stack != [] && |a.depths| == |a.stack| && Last(a.depths) == d
            && ReadingOf(a) == Opened(ReadingOf(st), e, d)
            && Step(Put(a, r), End(TagOf(e))) == Put(st, Closed(r, TagOf(e)))
  {
    hide Step, Opened, Closed;
    var d := Last(st.depths) + 1;
    StartPut(st, e);
    var a := Step(st, Start(e));
    PutAgain(st, Opened(ReadingOf(st), e, d));
    var b := Put(a, r);
    PutAgain(a, r);
    EndPut(b, TagOf(e));
    assert Init(b.depths) + [d - 1] == st.depths;
  }

  /** Inside an operator the machine descends: from any state, a well-formed
      document changes the innermost operator, the modes and the query-level facts
      as the descent says, and nothing else. */
  lemma {:induction false} MachineDescends(st: State, doc: Doc)
    requires st.stack != [] && |st.depths| == |st.stack|
    ensures Run(st, EventsOf(doc)) == Put(st, Within(ReadingOf(st), doc, Last(st.depths)))
    decreases doc, 1
  {
    hide Step, Run, Opened, Closed, Child, LeafRead, Put;
    var d := Last(st.depths);
    match doc
    case Words =>
      RunOne(st, Text);
      TextPut(st);
    case Leaf(e) =>
      RunOne(st, Empty(e));
      LeafPut(st, e);
    case Element(e, kids) =>
      var a := Step(st, Start(e));
      RunElement(st, e, EventsOfAll(kids));
      if e.RelOp? {
        assert e == RelOp(e.attrs);
        var inner := WithinAll(ReadingOf(st).(node := NewNode(e.attrs)), kids, 0);
        OperatorPut(st, e.attrs, inner);
        MachineDescendsAll(a, kids);
      } else {
        ClosedPut(st, e, WithinAll(Opened(ReadingOf(st), e, d + 1), kids, d + 1));
        MachineDescendsAll(a, kids);
      }
  }

  lemma {:induction false} MachineDescendsAll(st: State, forest: seq<Doc>)
    requires st.stack != [] && |st.depths| == |st.stack|
    ensures Run(st, EventsOfAll(forest)) == Put(st, WithinAll(ReadingOf(st), forest, Last(st.depths)))
    decreases forest, 0
  {
    hide Step, Run, Within;
    if forest == [] {
      RunStep(st, []);
      PutSame(st);
    } else {
      var r := Within(ReadingOf(st), forest[0], Last(st.depths));
      var a := Put(st, r);
      MachineDescends(st, forest[0]);
      PutAgain(st, r);
      MachineDescendsAll(a, forest[1..]);
      RunConcat(st, EventsOf(forest[0]), EventsOfAll(forest[1..]));
    }
  }

  // ---- outside every operator ------------------------------------------------------------------

  /** The last operator outside every other, with the modes and query-level facts. */
  datatype Outline = Outline(root: Option<PlanNode>, ctx: Context, pending: Pending)

  function OutlineOf(st: State): Outline { Outline(st.root, st.ctx, st.pending) }

  function OuterClosed(o: Outline, tag: Tag): Outline {
    Outline(o.root, Leave(o.ctx, tag),
            if tag == MissingIndexTag && o.ctx.curMissing.Some?
            then o.pending.(missing := o.pending.missing + [o.ctx.curMissing.value]) else o.pending)
  }

  function Around(o: Outline, doc: Doc): Outline
    decreases doc
  {
    match doc
    case Words => o
    case Leaf(e) =>
      if e.RelOp? then o.(root := Some(NewNode(e.attrs)))
      else Outline(o.root, if e.Column? then ColumnOnMissing(o.ctx, e) else o.ctx, OnPending(o.pending, e, true))
    case Element(e, kids) =>
      if e.RelOp? then
        var r := WithinAll(Reading(NewNode(e.attrs), o.ctx, o.pending), kids, 0);
        Outline(Some(r.node), r.ctx, r.pending)
      else
        OuterClosed(AroundAll(Outline(o.root, Enter(o.ctx, [], e), OnPending(o.pending, e, true)), kids), TagOf(e))
  }

  function AroundAll(o: Outline, forest: seq<Doc>): Outline
    decreases forest
  {
    if forest == [] then o else AroundAll(Around(o, forest[0]), forest[1..])
  }

  /** The plan a document describes: the descent over its elements. */
  function Described(forest: seq<Doc>): Option<PlanNode> {
    var o := AroundAll(Outline(None, QUIET, NO_PENDING), forest);
    match o.root case None => None case Some(root) => Some(Finish(root, o.pending))
  }

  lemma OuterLeaf(st: State, e: Elem)
    requires st.stack == [] && st.depths == []
    ensures Step(st, Empty(e)).stack == [] && Step(st, Empty(e)).depths == []
    ensures OutlineOf(Step(st, Empty(e))) == Around(OutlineOf(st), Leaf(e))
  {
    hide OnPending, ColumnOnMissing;
  }

  lemma TextSkipped(st: State)
    ensures Step(st, Text) == st
  {
  }

  lemma OuterElement(st: State, e: Elem)
    requires st.stack == [] && st.depths == [] && !e.RelOp?
    ensures Step(st, Start(e)) == State([], [], st.root, Enter(st.ctx, [], e), OnPending(st.pending, e, true))
  {
    hide OnPending, Enter;
  }

  lemma OuterEnd(st: State, tag: Tag)
    requires st.stack == [] && st.depths == [] && tag != RelOpTag
    ensures Step(st, End(tag)).stack == [] && Step(st, End(tag)).depths == []
    ensures OutlineOf(Step(st, End(tag))) == OuterClosed(OutlineOf(st), tag)
  {
    hide Leave;
  }

  lemma RootRead(st: State, attrs: RelOpAttrs, r: Reading)
    requires st.stack == [] && st.depths == []
    ensures var a := Step(st, Start(RelOp(attrs)));
            && a.stack == [NewNode(attrs)] && a.depths == [0]
            && ReadingOf(a) == Reading(NewNode(attrs), st.ctx, st.pending)
            && Step(Put(a, r), End(RelOpTag)) == State([], [], Some(r.node), r.ctx, r.pending)
  {
    var a := Step(st, Start(RelOp(attrs)));
    var b := Put(a, r);
    assert Init(a.stack) == [] && b.stack == [r.node] && Init(b.stack) == [] && Init(b.depths) == [];
  }

  lemma {:induction false} MachineSurveys(st: State, doc: Doc)
    requires st.stack == [] && st.depths == []
    ensures Run(st, EventsOf(doc)).stack == [] && Run(st, EventsOf(doc)).depths == []
    ensures OutlineOf(Run(st, EventsOf(doc))) == Around(OutlineOf(st), doc)
    decreases doc, 1
  {
    hide Step, Run, OuterClosed, Enter, OnPending;
    match doc
    case Words =>
      RunOne(st, Text);
      TextSkipped(st);
    case Leaf(e) =>
      RunOne(st, Empty(e));
      OuterLeaf(st, e);
    case Element(e, kids) =>
      var a := Step(st, Start(e));
      RunElement(st, e, EventsOfAll(kids));
      if e.RelOp? {
        assert e == RelOp(e.attrs);
        RootRead(st, e.attrs, WithinAll(Reading(NewNode(e.attrs), st.ctx, st.pending), kids, 0));
        MachineDescendsAll(a, kids);
      } else {
        OuterElement(st, e);
        MachineSurveysAll(a, kids);
        OuterEnd(Run(a, EventsOfAll(kids)), TagOf(e));
      }
  }

  lemma {:induction false} MachineSurveysAll(st: State, forest: seq<Doc>)
    requires st.stack == [] && st.depths == []
    ensures Run(st, EventsOfAll(forest)).stack == [] && Run(st, EventsOfAll(forest)).depths == []
    ensures OutlineOf(Run(st, EventsOfAll(forest))) == AroundAll(OutlineOf(st), forest)
    decreases forest, 0
  {
    hide Step, Run, Around;
    if forest == [] {
      RunStep(st, []);
    } else {
      MachineSurveys(st, forest[0]);
      MachineSurveysAll(Run(st, EventsOf(forest[0])), forest[1..]);
      RunConcat(st, EventsOf(forest[0]), EventsOfAll(forest[1..]));
    }
  }

  /** The plan the event machine returns is the plan the document describes. */
  lemma ParsedIsDescribed(forest: seq<Doc>)
    ensures Parsed(EventsOfAll(forest)) == Described(forest)
  {
    hide Run, AroundAll, Finish;
    MachineSurveysAll(INITIAL, forest);
  }

  // ---- modes ---------------------------------------------------------------------------------------

  /** Every mode of `b` is that of `a` or off. */
  ghost predicate NoNewMode(a: Context, b: Context) {
    && (a.curMissing == None ==> b.curMissing == None)
    && (b.groupImpact == a.groupImpact || b.groupImpact == 0.0)
    && (b.curUsage == a.curUsage || b.curUsage == None)
    && (b.inNoStats ==> a.inNoStats) && (b.inDefinedValues ==> a.inDefinedValues)
    && (b.inSeekPredicates ==> a.inSeekPredicates) && (b.inOrderBy ==> a.inOrderBy)
  }

  lemma NoNewModeThen(a: Context, b: Context, c: Context)
    requires NoNewMode(a, b) && NoNewMode(b, c)
    ensures NoNewMode(a, c)
  {
  }

  lemma ColumnNoNewMode(ctx: Context, e: Elem)
    requires e.Column?
    ensures NoNewMode(ctx, ColumnOnMissing(ctx, e))
  {
    hide Unbracket;
  }

  /** What a start tag turns on, its end tag turns off. */
  lemma TagsNoNewMode(ctx: Context, stack: seq<PlanNode>, e: Elem, inner: Context)
    requires NoNewMode(Enter(ctx, stack, e), inner)
    ensures NoNewMode(ctx, Leave(inner, TagOf(e)))
  {
    hide Unbracket, IsSort, IsLookup, CapturesObject, ColumnOnMissing;
    if e.Column? {
      ColumnNoNewMode(ctx, e);
    }
  }

  lemma {:induction false} WithinNoNewMode(r: Reading, doc: Doc, depth: nat)
    ensures NoNewMode(r.ctx, Within(r, doc, depth).ctx)
    decreases doc, 1
  {
    hide NoNewMode, Enter, Leave, OnNode, ColumnOnMissing, OnPending, WithCounters;
    match doc
    case Words => SameModes(r.ctx);
    case Leaf(e) =>
      if e.Column? {
        ColumnNoNewMode(r.ctx, e);
      } else {
        SameModes(r.ctx);
      }
    case Element(e, kids) =>
      if e.RelOp? {
        WithinAllNoNewMode(r.(node := NewNode(e.attrs)), kids, 0);
      } else {
        var a := Opened(r, e, depth + 1);
        WithinAllNoNewMode(a, kids, depth + 1);
        TagsNoNewMode(r.ctx, [r.node], e, WithinAll(a, kids, depth + 1).ctx);
      }
  }

  lemma SameModes(ctx: Context)
    ensures NoNewMode(ctx, ctx)
  {
  }

  lemma {:induction false} WithinAllNoNewMode(r: Reading, forest: seq<Doc>, depth: nat)
    ensures NoNewMode(r.ctx, WithinAll(r, forest, depth).ctx)
    decreases forest, 0
  {
    hide NoNewMode, Within;
    if forest == [] {
      SameModes(r.ctx);
    } else {
      var a := Within(r, forest[0], depth);
      WithinNoNewMode(r, forest[0], depth);
      WithinAllNoNewMode(a, forest[1..], depth);
      NoNewModeThen(r.ctx, a.ctx, WithinAll(a, forest[1..], depth).ctx);
    }
  }

  /** A well-formed document inside an operator, read with every mode off, leaves
      every mode off, however its elements nest. */
  lemma QuietStaysQuiet(st: State, forest: seq<Doc>)
    requires st.stack != [] && |st.depths| == |st.stack| && st.ctx == QUIET
    ensures Run(st, EventsOfAll(forest)).ctx == QUIET
  {
    hide Run, WithinAll;
    MachineDescendsAll(st, forest);
    WithinAllNoNewMode(ReadingOf(st), forest, Last(st.depths));
  }
}
