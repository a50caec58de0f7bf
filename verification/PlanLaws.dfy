/**
 What the showplan reader computes: for every well-formed document the operator
 tree it returns is the nesting of the document's RelOp elements, each with the
 facts its own elements state.
 */
module PlanLaws {
  import opened Wrappers
  import opened Strings
  import opened PlanXml

  // ---- documents ---------------------------------------------------------------------

  /** An XML element, a start/end pair around its content or self-closing, or a
      stretch of text. */
  datatype Doc = Element(e: Elem, kids: seq<Doc>) | Leaf(e: Elem) | Words

  function EventsOf(doc: Doc): seq<Event> {
    match doc
    case Words => [Text]
    case Element(e, kids) => [Start(e)] + EventsOfAll(kids) + [End(TagOf(e))]
    case Leaf(e) => [Empty(e)]
  }

  function EventsOfAll(forest: seq<Doc>): seq<Event> {
    if forest == [] then [] else EventsOf(forest[0]) + EventsOfAll(forest[1..])
  }

  // ---- what a document says about its operators -----------------------------------------

  datatype ObjectRef = ObjectRef(schema: string, table: string, index: string)

  /** What the elements inside one operator, but inside no nested one, say
      about it, and the operators directly below it. */
  datatype Facts = Facts(
    target: Option<ObjectRef>, residual: bool, seek: bool, rows: Option<real>, executions: Option<real>,
    warnings: seq<string>, convert: Option<ConvertInfo>, grantWarning: Option<GrantWarningInfo>,
    operators: seq<Operator>)

  datatype Operator = Operator(attrs: RelOpAttrs, own: Facts)

  const NO_FACTS := Facts(None, false, false, None, None, [], None, None, [])

  function Combine(a: Facts, b: Facts): Facts {
    Facts(OrElse(a.target, b.target), a.residual || b.residual, a.seek || b.seek,
          AddSome(a.rows, b.rows), AddSome(a.executions, b.executions),
          a.warnings + b.warnings,
          OrElse(b.convert, a.convert), OrElse(b.grantWarning, a.grantWarning),
          a.operators + b.operators)
  }

  /** The object an element names, if the operator reads one and it has a table. */
  function ObjectIn(attrs: RelOpAttrs, e: Elem): Option<ObjectRef>
    requires e.Object?
  {
    if CapturesObject(attrs) && Unbracket(e.table) != "" then
      Some(ObjectRef(Unbracket(e.schema), Unbracket(e.table), Unbracket(e.index)))
    else None
  }

  /** What one tag says about the operator with `attrs`, with `depth` elements
      open between it and the operator. */
  function TagFacts(attrs: RelOpAttrs, e: Elem, depth: nat): Facts {
    match e
    case Object(_, _, _) => NO_FACTS.(target := ObjectIn(attrs, e))
    case Predicate => NO_FACTS.(residual := NearOperator(depth))
    case SeekPredicates => NO_FACTS.(seek := NearOperator(depth))
    case MemoryGrantWarning(info) => NO_FACTS.(warnings := [MEMORY_GRANT_WARNING], grantWarning := Some(info))
    case ColumnsWithNoStatistics => NO_FACTS.(warnings := [NO_STATISTICS])
    case PlanAffectingConvert(info) => NO_FACTS.(warnings := [PLAN_AFFECTING_CONVERT], convert := Some(info))
    case OtherWarning(name) => NO_FACTS.(warnings := [name])
    case _ => NO_FACTS
  }

  function CounterFacts(e: Elem): Facts {
    match e
    case RunTimeCounters(rows, execs) => NO_FACTS.(rows := AddSome(None, rows), executions := AddSome(None, execs))
    case _ => NO_FACTS
  }

  /** The facts of an element `depth` deep in the operator with `attrs`. A start tag counts
      itself among the open elements; a self-closing one does not. */
  function Own(attrs: RelOpAttrs, doc: Doc, depth: nat): Facts
    decreases doc
  {
    match doc
    case Words => NO_FACTS
    case Element(e, kids) =>
      if e.RelOp? then NO_FACTS.(operators := [Operator(e.attrs, OwnAll(e.attrs, kids, 0))])
      else Combine(TagFacts(attrs, e, depth + 1), OwnAll(attrs, kids, depth + 1))
    case Leaf(e) =>
      if e.RelOp? then NO_FACTS.(operators := [Operator(e.attrs, NO_FACTS)])
      else Combine(TagFacts(attrs, e, depth), CounterFacts(e))
  }

  function OwnAll(attrs: RelOpAttrs, forest: seq<Doc>, depth: nat): Facts
    decreases forest
  {
    if forest == [] then NO_FACTS else Combine(Own(attrs, forest[0], depth), OwnAll(attrs, forest[1..], depth))
  }

  /** What the document says outside every operator. */
  datatype Outer = Outer(
    warnings: seq<string>, convert: Option<ConvertInfo>, grantWarning: Option<GrantWarningInfo>,
    operators: seq<Operator>)

  const NO_OUTER := Outer([], None, None, [])

  function CombineOuter(a: Outer, b: Outer): Outer {
    Outer(a.warnings + b.warnings, OrElse(a.convert, b.convert), OrElse(b.grantWarning, a.grantWarning),
          a.operators + b.operators)
  }

  function TagOuter(e: Elem): Outer {
    match e
    case MemoryGrantWarning(info) => NO_OUTER.(warnings := [MEMORY_GRANT_WARNING], grantWarning := Some(info))
    case PlanAffectingConvert(info) => NO_OUTER.(warnings := [PLAN_AFFECTING_CONVERT], convert := Some(info))
    case OtherWarning(name) => NO_OUTER.(warnings := [name])
    case _ => NO_OUTER
  }

  function Outside(doc: Doc): Outer {
    match doc
    case Words => NO_OUTER
    case Element(e, kids) =>
      if e.RelOp? then NO_OUTER.(operators := [Operator(e.attrs, OwnAll(e.attrs, kids, 0))])
      else CombineOuter(TagOuter(e), OutsideAll(kids))
    case Leaf(e) =>
      if e.RelOp? then NO_OUTER.(operators := [Operator(e.attrs, NO_FACTS)]) else TagOuter(e)
  }

  function OutsideAll(forest: seq<Doc>): Outer {
    if forest == [] then NO_OUTER else CombineOuter(Outside(forest[0]), OutsideAll(forest[1..]))
  }

  // ---- the operator a node stands for ------------------------------------------------------

  function ObjectOf(n: PlanNode): Option<ObjectRef> {
    if n.objectTable == "" then None else Some(ObjectRef(n.objectSchema, n.objectTable, n.objectIndex))
  }

  function View(n: PlanNode): Operator {
    Operator(n.attrs, Facts(ObjectOf(n), n.hasResidual, n.hasSeek, n.actualRows, n.actualExecutions,
                            n.warnings, n.convert, n.grantWarning, Views(n.children)))
  }

  function Views(ns: seq<PlanNode>): seq<Operator> {
    if ns == [] then [] else [View(ns[0])] + Views(ns[1..])
  }

  lemma {:induction false} ViewsSnoc(ns: seq<PlanNode>, n: PlanNode)
    ensures Views(ns + [n]) == Views(ns) + [View(n)]
  {
    hide View;
    if ns == [] {
      assert Views([n]) == [View(n)] + Views([]);
    } else {
      assert (ns + [n])[1..] == ns[1..] + [n];
      ViewsSnoc(ns[1..], n);
    }
  }

  // ---- algebra of facts ----------------------------------------------------------------------

  lemma CombineAssociative(a: Facts, b: Facts, c: Facts)
    ensures Combine(Combine(a, b), c) == Combine(a, Combine(b, c))
  {
  }

  lemma CombineNothing(a: Facts)
    ensures Combine(a, NO_FACTS) == a
  {
  }

  lemma CombineOuterNothing(a: Outer)
    ensures CombineOuter(a, NO_OUTER) == a && CombineOuter(NO_OUTER, a) == a
  {
  }

  // ---- inside an operator ------------------------------------------------------------------

  /** `st'` is `st` after reading, inside the innermost operator, elements that
      say `f` about it and leave `depth` elements open. */
  ghost predicate Told(st: State, st': State, f: Facts, depth: nat) {
    && st.stack != [] && st'.stack != [] && |st.depths| == |st.stack| == |st'.depths| == |st'.stack|
    && Init(st'.stack) == Init(st.stack)
    && Init(st'.depths) == Init(st.depths)
    && Last(st'.depths) == depth
    && st'.root == st.root
    && View(Last(st'.stack)) == Operator(Last(st.stack).attrs, Combine(View(Last(st.stack)).own, f))
  }

  lemma ToldNothing(st: State)
    requires st.stack != [] && |st.depths| == |st.stack|
    ensures Told(st, st, NO_FACTS, Last(st.depths))
  {
    CombineNothing(View(Last(st.stack)).own);
  }

  lemma ToldThen(a: State, b: State, c: State, f: Facts, g: Facts, d: nat, e: nat)
    requires Told(a, b, f, d) && Told(b, c, g, e)
    ensures Told(a, c, Combine(f, g), e)
  {
    hide View, Combine;
    CombineAssociative(View(Last(a.stack)).own, f, g);
    ViewAttrs(Last(b.stack));
  }

  lemma ViewAttrs(n: PlanNode)
    ensures View(n).attrs == n.attrs
  {
  }

  lemma NodeTold(n: PlanNode, ctx: Context, e: Elem, depth: nat)
    requires !e.RelOp?
    ensures View(OnNode(n, ctx, e, depth)) == Operator(n.attrs, Combine(View(n).own, TagFacts(n.attrs, e, depth)))
  {
    hide ColumnOnNode, ObjectOnNode, View, Combine;
    match e
    case Column(_, _, _) => ColumnTold(n, ctx, e);
    case Object(_, _, _) => ObjectTold(n, e);
    case _ => PlainTold(n, ctx, e, depth);
  }

  lemma ObjectTold(n: PlanNode, e: Elem)
    requires e.Object?
    ensures View(ObjectOnNode(n, e)) ==
            Operator(n.attrs, Combine(View(n).own, NO_FACTS.(target := ObjectIn(n.attrs, e))))
  {
    hide Unbracket, CapturesObject, Views, AddSome;
    NothingAdded(n.actualRows);
    NothingAdded(n.actualExecutions);
    assert n.warnings + [] == n.warnings && Views(n.children) + [] == Views(n.children);
  }

  lemma PlainTold(n: PlanNode, ctx: Context, e: Elem, depth: nat)
    requires !e.RelOp? && !e.Column? && !e.Object?
    ensures View(OnNode(n, ctx, e, depth)) == Operator(n.attrs, Combine(View(n).own, TagFacts(n.attrs, e, depth)))
  {
    hide ColumnOnNode, ObjectOnNode, Views, AddSome;
    NothingAdded(n.actualRows);
    NothingAdded(n.actualExecutions);
    if e.MemoryGrantWarning? || e.PlanAffectingConvert? || e.OtherWarning? || e.ColumnsWithNoStatistics? {
      assert n.warnings + TagFacts(n.attrs, e, depth).warnings == OnNode(n, ctx, e, depth).warnings;
    } else {
      CombineNothing(View(n).own);
    }
  }

  lemma NothingAdded(a: Option<real>)
    ensures AddSome(a, None) == a
  {
  }

  lemma ColumnTold(n: PlanNode, ctx: Context, e: Elem)
    requires e.Column?
    ensures View(ColumnOnNode(n, ctx, e)) == Operator(n.attrs, Combine(View(n).own, NO_FACTS))
  {
    hide Unbracket, CapturesObject, IsLookup, WithColumn, Lower;
    CombineNothing(View(n).own);
  }

  lemma CountersTold(n: PlanNode, e: Elem)
    ensures View(WithCounters(n, e)) == Operator(n.attrs, Combine(View(n).own, CounterFacts(e)))
  {
    if !e.RunTimeCounters? {
      hide View, Combine;
      CombineNothing(View(n).own);
    } else {
      hide AddSome;
      SumOfCounters(n.actualRows, e.actualRows);
      SumOfCounters(n.actualExecutions, e.actualExecutions);
    }
  }

  lemma SumOfCounters(a: Option<real>, b: Option<real>)
    ensures AddSome(a, AddSome(None, b)) == AddSome(a, b)
  {
  }

  function TopAttrs(st: State): RelOpAttrs
    requires st.stack != []
  {
    Last(st.stack).attrs
  }

  lemma StartTold(st: State, e: Elem)
    requires st.stack != [] && |st.depths| == |st.stack| && !e.RelOp?
    ensures Told(st, OnStart(st, e), TagFacts(TopAttrs(st), e, Last(st.depths) + 1), Last(st.depths) + 1)
  {
    hide OnNode, View, Combine, TagFacts, Enter, OnPending;
    NodeTold(Last(st.stack), st.ctx, e, Last(st.depths) + 1);
  }

  lemma EmptyTold(st: State, e: Elem)
    requires st.stack != [] && |st.depths| == |st.stack| && !e.RelOp?
    ensures Told(st, OnEmpty(st, e),
                 Combine(TagFacts(TopAttrs(st), e, Last(st.depths)), CounterFacts(e)), Last(st.depths))
  {
    hide OnNode, View, Combine, TagFacts, CounterFacts, WithCounters, OnPending, ColumnOnMissing;
    var n := Last(st.stack);
    var n1 := OnNode(n, st.ctx, e, Last(st.depths));
    NodeTold(n, st.ctx, e, Last(st.depths));
    CountersTold(n1, e);
    CombineAssociative(View(n).own, TagFacts(TopAttrs(st), e, Last(st.depths)), CounterFacts(e));
    OnNodeAttrs(n, st.ctx, e, Last(st.depths));
  }

  lemma OnNodeAttrs(n: PlanNode, ctx: Context, e: Elem, depth: nat)
    requires !e.RelOp?
    ensures OnNode(n, ctx, e, depth).attrs == n.attrs
    ensures View(OnNode(n, ctx, e, depth)).attrs == n.attrs
  {
    hide OnNode, Combine, TagFacts;
    NodeTold(n, ctx, e, depth);
  }

  lemma EndTold(st: State, tag: Tag)
    requires st.stack != [] && |st.depths| == |st.stack| && tag != RelOpTag && Last(st.depths) > 0
    ensures Told(st, OnEnd(st, tag), NO_FACTS, Last(st.depths) - 1)
  {
    hide Leave;
    CombineNothing(View(Last(st.stack)).own);
  }

  lemma AttachTold(st: State, n: PlanNode)
    requires st.stack != [] && |st.depths| == |st.stack|
    ensures Told(st, Attach(st, n), NO_FACTS.(operators := [View(n)]), Last(st.depths))
  {
    var top := Last(st.stack);
    ViewsSnoc(top.children, n);
    assert View(top.(children := top.children + [n])).own ==
           Combine(View(top).own, NO_FACTS.(operators := [View(n)]));
  }

  /** Reading a document inside an operator tells exactly what it states. */
  lemma {:induction false} DocTold(st: State, doc: Doc)
    requires st.stack != [] && |st.depths| == |st.stack|
    ensures Told(st, Run(st, EventsOf(doc)), Own(TopAttrs(st), doc, Last(st.depths)), Last(st.depths))
    decreases doc, 1
  {
    hide Told, Step, Combine, TagFacts, CounterFacts, Run;
    var d := Last(st.depths);
    match doc
    case Words =>
      RunOne(st, Text);
      TextTold(st);
    case Leaf(e) =>
      RunOne(st, Empty(e));
      LeafTold(st, e);
    case Element(e, kids) =>
      var a := Step(st, Start(e));
      var b := Run(a, EventsOfAll(kids));
      var c := Step(b, End(TagOf(e)));
      RunElement(st, e, EventsOfAll(kids));
      if e.RelOp? {
        OperatorOpened(st, e.attrs);
        ForestTold(a, kids);
        OperatorClosed(st, e.attrs, b, OwnAll(e.attrs, kids, 0));
      } else {
        ElementOpened(st, e);
        ForestTold(a, kids);
        ElementClosed(st, e, a, b, OwnAll(TopAttrs(st), kids, d + 1));
      }
  }

  lemma {:induction false} ForestTold(st: State, forest: seq<Doc>)
    requires st.stack != [] && |st.depths| == |st.stack|
    ensures Told(st, Run(st, EventsOfAll(forest)), OwnAll(TopAttrs(st), forest, Last(st.depths)), Last(st.depths))
    decreases forest, 0
  {
    hide Told, Step, Combine, Run, Own;
    var d := Last(st.depths);
    if forest == [] {
      RunStep(st, []);
      ToldNothing(st);
    } else {
      var a := Run(st, EventsOf(forest[0]));
      DocTold(st, forest[0]);
      ToldShape(st, a, Own(TopAttrs(st), forest[0], d), d);
      ForestTold(a, forest[1..]);
      RunConcat(st, EventsOf(forest[0]), EventsOfAll(forest[1..]));
      ToldThen(st, a, Run(a, EventsOfAll(forest[1..])),
               Own(TopAttrs(st), forest[0], d), OwnAll(TopAttrs(st), forest[1..], d), d, d);
    }
  }

  lemma ToldShape(st: State, st': State, f: Facts, depth: nat)
    requires Told(st, st', f, depth)
    ensures st'.stack != [] && |st'.depths| == |st'.stack| && Last(st'.depths) == depth
    ensures |st'.stack| == |st.stack| && st'.root == st.root && TopAttrs(st') == TopAttrs(st)
  {
    hide Combine;
  }

  lemma TextTold(st: State)
    requires st.stack != [] && |st.depths| == |st.stack|
    ensures Told(st, Step(st, Text), NO_FACTS, Last(st.depths))
  {
    ToldNothing(st);
  }

  lemma TextStated(st: State)
    requires st.stack == [] && st.depths == []
    ensures Stated(st, Step(st, Text), NO_OUTER)
  {
    StatedNothing(st);
  }

  lemma RunOne(st: State, ev: Event)
    ensures Run(st, [ev]) == Step(st, ev)
  {
    hide Step, Run;
    assert [ev][1..] == [];
    RunStep(st, [ev]);
    RunStep(Step(st, ev), []);
  }

  lemma RunElement(st: State, e: Elem, inner: seq<Event>)
    ensures Run(st, [Start(e)] + inner + [End(TagOf(e))]) ==
            Step(Run(Step(st, Start(e)), inner), End(TagOf(e)))
  {
    hide Step, Run;
    RunConcat(st, [Start(e)] + inner, [End(TagOf(e))]);
    RunConcat(st, [Start(e)], inner);
    RunOne(st, Start(e));
    RunOne(Run(Step(st, Start(e)), inner), End(TagOf(e)));
  }

  lemma LeafTold(st: State, e: Elem)
    requires st.stack != [] && |st.depths| == |st.stack|
    ensures Told(st, Step(st, Empty(e)), Own(TopAttrs(st), Leaf(e), Last(st.depths)), Last(st.depths))
  {
    hide Told, Combine, TagFacts, CounterFacts, OnEmpty;
    if e.RelOp? {
      assert e == RelOp(e.attrs);
      AttachTold(st, NewNode(e.attrs));
      EmptyOperator(st, e.attrs);
    } else {
      EmptyTold(st, e);
    }
  }

  lemma EmptyOperator(st: State, attrs: RelOpAttrs)
    ensures OnEmpty(st, RelOp(attrs)) == Attach(st, NewNode(attrs))
    ensures View(NewNode(attrs)) == Operator(attrs, NO_FACTS)
  {
  }

  lemma OperatorOpened(st: State, attrs: RelOpAttrs)
    ensures var a := Step(st, Start(RelOp(attrs)));
            && a.stack == st.stack + [NewNode(attrs)] && a.depths == st.depths + [0] && a.root == st.root
            && View(NewNode(attrs)) == Operator(attrs, NO_FACTS)
  {
  }

  lemma OperatorClosed(st: State, attrs: RelOpAttrs, b: State, f: Facts)
    requires st.stack != [] && |st.depths| == |st.stack|
    requires Told(Step(st, Start(RelOp(attrs))), b, f, 0)
    ensures Told(st, Step(b, End(RelOpTag)), NO_FACTS.(operators := [Operator(attrs, f)]), Last(st.depths))
  {
    hide View, Combine;
    OperatorOpened(st, attrs);
    NothingCombined(f);
    var n := Last(b.stack);
    var st1 := b.(stack := Init(b.stack), depths := Init(b.depths));
    assert Init(b.stack) == st.stack && Init(b.depths) == st.depths;
    AttachTold(st1, n);
    assert View(n) == Operator(attrs, f);
  }

  lemma NothingCombined(f: Facts)
    ensures Combine(NO_FACTS, f) == f
  {
  }

  lemma ElementOpened(st: State, e: Elem)
    requires st.stack != [] && |st.depths| == |st.stack| && !e.RelOp?
    ensures var a := Step(st, Start(e)); var d := Last(st.depths) + 1;
            && Told(st, a, TagFacts(TopAttrs(st), e, d), d)
            && a.stack != [] && |a.depths| == |a.stack| && Last(a.depths) == d && TopAttrs(a) == TopAttrs(st)
  {
    hide TagFacts, Combine, View, OnTop, OnPending, Enter, Told;
    StartTold(st, e);
    ToldShape(st, Step(st, Start(e)), TagFacts(TopAttrs(st), e, Last(st.depths) + 1), Last(st.depths) + 1);
  }

  lemma ElementClosed(st: State, e: Elem, a: State, b: State, f: Facts)
    requires st.stack != [] && |st.depths| == |st.stack| && !e.RelOp?
    requires Told(st, a, TagFacts(TopAttrs(st), e, Last(st.depths) + 1), Last(st.depths) + 1)
    requires Told(a, b, f, Last(st.depths) + 1)
    ensures Told(st, Step(b, End(TagOf(e))),
                 Combine(TagFacts(TopAttrs(st), e, Last(st.depths) + 1), f), Last(st.depths))
  {
    hide Told, Combine, TagFacts, View, Leave;
    var d := Last(st.depths) + 1;
    ToldShape(a, b, f, d);
    EndTold(b, TagOf(e));
    ToldThen(st, a, b, TagFacts(TopAttrs(st), e, d), f, d, d);
    var g := Combine(TagFacts(TopAttrs(st), e, d), f);
    ToldThen(st, b, OnEnd(b, TagOf(e)), g, NO_FACTS, d, d - 1);
    CombineNothing(g);
  }

  // ---- outside every operator --------------------------------------------------------------

  /** `st'` is `st` after reading, outside every operator, elements that say `o`. */
  ghost predicate Stated(st: State, st': State, o: Outer) {
    && st.stack == [] && st'.stack == [] && st.depths == [] && st'.depths == []
    && st'.pending.warnings == st.pending.warnings + o.warnings
    && st'.pending.convert == OrElse(st.pending.convert, o.convert)
    && st'.pending.grantWarning == OrElse(o.grantWarning, st.pending.grantWarning)
    && if o.operators == [] then st'.root == st.root
       else st'.root.Some? && View(st'.root.value) == Last(o.operators)
  }

  lemma StatedNothing(st: State)
    requires st.stack == [] && st.depths == []
    ensures Stated(st, st, NO_OUTER)
  {
  }

  lemma StatedThen(a: State, b: State, c: State, o: Outer, p: Outer)
    requires Stated(a, b, o) && Stated(b, c, p)
    ensures Stated(a, c, CombineOuter(o, p))
  {
    hide View;
  }

  lemma TagStated(st: State, e: Elem)
    requires st.stack == [] && st.depths == [] && !e.RelOp?
    ensures Stated(st, OnStart(st, e), TagOuter(e)) && Stated(st, OnEmpty(st, e), TagOuter(e))
  {
    hide View, Enter, ColumnOnMissing, Positive;
  }

  lemma EndStated(st: State, tag: Tag)
    requires st.stack == [] && st.depths == [] && tag != RelOpTag
    ensures Stated(st, OnEnd(st, tag), NO_OUTER)
  {
    hide View, Leave;
  }

  /** Nothing inside an operator touches the query-level warnings. */
  ghost predicate SameQueryFacts(st: State, st': State) {
    && st'.pending.warnings == st.pending.warnings
    && st'.pending.convert == st.pending.convert
    && st'.pending.grantWarning == st.pending.grantWarning
  }

  lemma {:induction false} DocKeepsQueryFacts(st: State, doc: Doc)
    requires st.stack != [] && |st.depths| == |st.stack|
    ensures SameQueryFacts(st, Run(st, EventsOf(doc)))
    decreases doc, 1
  {
    hide Told, Step, Combine, TagFacts, CounterFacts, Run, Own, View;
    match doc
    case Words =>
      RunOne(st, Text);
      EventKeepsQueryFacts(st, Text);
    case Leaf(e) =>
      RunOne(st, Empty(e));
      EventKeepsQueryFacts(st, Empty(e));
    case Element(e, kids) =>
      var a := Step(st, Start(e));
      var b := Run(a, EventsOfAll(kids));
      RunElement(st, e, EventsOfAll(kids));
      EventKeepsQueryFacts(st, Start(e));
      ForestKeepsQueryFacts(a, kids);
      ForestTold(a, kids);
      ToldShape(a, b, OwnAll(TopAttrs(a), kids, Last(a.depths)), Last(a.depths));
      EventKeepsQueryFacts(b, End(TagOf(e)));
  }

  lemma EventKeepsQueryFacts(st: State, ev: Event)
    requires st.stack != [] && |st.depths| == |st.stack|
    ensures SameQueryFacts(st, Step(st, ev))
    ensures ev.Start? ==> Step(st, ev).stack != [] && |Step(st, ev).depths| == |Step(st, ev).stack|
  {
    hide OnNode, Enter, ColumnOnMissing, WithCounters, Positive, Leave;
  }

  lemma {:induction false} ForestKeepsQueryFacts(st: State, forest: seq<Doc>)
    requires st.stack != [] && |st.depths| == |st.stack|
    ensures SameQueryFacts(st, Run(st, EventsOfAll(forest)))
    decreases forest, 0
  {
    hide Told, Step, Run, Own;
    if forest == [] {
      RunStep(st, []);
    } else {
      var a := Run(st, EventsOf(forest[0]));
      DocTold(st, forest[0]);
      ToldShape(st, a, Own(TopAttrs(st), forest[0], Last(st.depths)), Last(st.depths));
      DocKeepsQueryFacts(st, forest[0]);
      ForestKeepsQueryFacts(a, forest[1..]);
      RunConcat(st, EventsOf(forest[0]), EventsOfAll(forest[1..]));
    }
  }

  /** A top-level operator becomes the root. */
  lemma RootStated(st: State, attrs: RelOpAttrs, kids: seq<Doc>)
    requires st.stack == [] && st.depths == []
    ensures Stated(st, Run(st, EventsOf(Element(RelOp(attrs), kids))),
                   NO_OUTER.(operators := [Operator(attrs, OwnAll(attrs, kids, 0))]))
  {
    hide Step, Run, Combine, OwnAll;
    var a := Step(st, Start(RelOp(attrs)));
    var b := Run(a, EventsOfAll(kids));
    RunElement(st, RelOp(attrs), EventsOfAll(kids));
    OperatorOpened(st, attrs);
    StartKeepsQueryFacts(st, attrs);
    ForestTold(a, kids);
    ForestKeepsQueryFacts(a, kids);
    RootClosed(st, a, b, attrs, OwnAll(attrs, kids, 0));
  }

  lemma StartKeepsQueryFacts(st: State, attrs: RelOpAttrs)
    ensures SameQueryFacts(st, Step(st, Start(RelOp(attrs))))
  {
  }

  lemma RootClosed(st: State, a: State, b: State, attrs: RelOpAttrs, f: Facts)
    requires st.stack == [] && st.depths == []
    requires a.stack == [NewNode(attrs)] && a.depths == [0]
    requires SameQueryFacts(st, a) && SameQueryFacts(a, b) && Told(a, b, f, 0)
    ensures Stated(st, Step(b, End(RelOpTag)), NO_OUTER.(operators := [Operator(attrs, f)]))
  {
    hide View, Combine;
    EmptyOperator(st, attrs);
    NothingCombined(f);
    assert Init(b.stack) == [] && Init(b.depths) == [];
    var n := Last(b.stack);
    assert View(n) == Operator(attrs, f);
    assert Step(b, End(RelOpTag)) == b.(stack := [], depths := [], root := Some(n));
  }

  lemma {:induction false} DocStated(st: State, doc: Doc)
    requires st.stack == [] && st.depths == []
    ensures Stated(st, Run(st, EventsOf(doc)), Outside(doc))
    decreases doc, 1
  {
    hide Stated, Step, Run, TagOuter, CombineOuter;
    match doc
    case Words =>
      RunOne(st, Text);
      TextStated(st);
    case Leaf(e) =>
      RunOne(st, Empty(e));
      OuterLeafStated(st, e);
    case Element(e, kids) =>
      if e.RelOp? {
        assert e == RelOp(e.attrs);
        RootStated(st, e.attrs, kids);
      } else {
        var a := Step(st, Start(e));
        var b := Run(a, EventsOfAll(kids));
        RunElement(st, e, EventsOfAll(kids));
        OuterStartStated(st, e);
        ForestStated(a, kids);
        OuterEndStated(b, TagOf(e), a, OutsideAll(kids));
        StatedThen(st, a, Step(b, End(TagOf(e))), TagOuter(e), OutsideAll(kids));
      }
  }

  lemma OuterLeafStated(st: State, e: Elem)
    requires st.stack == [] && st.depths == []
    ensures Stated(st, Step(st, Empty(e)), Outside(Leaf(e)))
  {
    hide TagOuter, View;
    if e.RelOp? {
      assert e == RelOp(e.attrs);
      EmptyOperator(st, e.attrs);
    } else {
      TagStated(st, e);
    }
  }

  lemma OuterStartStated(st: State, e: Elem)
    requires st.stack == [] && st.depths == [] && !e.RelOp?
    ensures var a := Step(st, Start(e)); Stated(st, a, TagOuter(e)) && a.stack == [] && a.depths == []
  {
    hide TagOuter, View;
    TagStated(st, e);
  }

  lemma OuterEndStated(b: State, tag: Tag, a: State, o: Outer)
    requires Stated(a, b, o) && tag != RelOpTag
    ensures Stated(a, Step(b, End(tag)), o)
  {
    hide View, Leave;
    EndStated(b, tag);
    StatedThen(a, b, OnEnd(b, tag), o, NO_OUTER);
    CombineOuterNothing(o);
  }

  lemma {:induction false} ForestStated(st: State, forest: seq<Doc>)
    requires st.stack == [] && st.depths == []
    ensures Stated(st, Run(st, EventsOfAll(forest)), OutsideAll(forest))
    decreases forest, 0
  {
    hide Stated, Step, Run, CombineOuter, Outside;
    if forest == [] {
      RunStep(st, []);
      StatedNothing(st);
    } else {
      var a := Run(st, EventsOf(forest[0]));
      DocStated(st, forest[0]);
      StatedShape(st, a, Outside(forest[0]));
      ForestStated(a, forest[1..]);
      RunConcat(st, EventsOf(forest[0]), EventsOfAll(forest[1..]));
      StatedThen(st, a, Run(a, EventsOfAll(forest[1..])), Outside(forest[0]), OutsideAll(forest[1..]));
    }
  }

  lemma StatedShape(st: State, st': State, o: Outer)
    requires Stated(st, st', o)
    ensures st'.stack == [] && st'.depths == []
  {
  }

  /** The root operator with what the query level adds to it. */
  function Completed(op: Operator, o: Outer): Operator {
    op.(own := op.own.(
      warnings := WithoutRepeats(op.own.warnings, o.warnings),
      convert := OrElse(op.own.convert, o.convert),
      grantWarning := OrElse(op.own.grantWarning, o.grantWarning)))
  }

  /** Reading inverts writing. For every well-formed document, whatever elements
      stand between the operators, the reader fails exactly when there is no
      operator, and otherwise returns the last top-level one: its attributes,
      predicates, counters, warnings and conversions, and below it, in order,
      the operators nested in it, completed by the query-level warnings. */
  lemma ParsingInvertsPrinting(forest: seq<Doc>)
    ensures var o := OutsideAll(forest); var r := Parsed(EventsOfAll(forest));
            && (r == None <==> o.operators == [])
            && (r.Some? ==> View(r.value) == Completed(Last(o.operators), o))
  {
    hide Run, OutsideAll, Step;
    ForestStated(INITIAL, forest);
    var st := Run(INITIAL, EventsOfAll(forest));
    var o := OutsideAll(forest);
    assert st.pending.warnings == o.warnings;
    assert st.pending.convert == o.convert && st.pending.grantWarning == o.grantWarning;
    if st.root.Some? {
      FinishedView(st.root.value, st.pending);
    }
  }

  lemma FinishedView(root: PlanNode, p: Pending)
    ensures View(Finish(root, p)) ==
            Completed(View(root), Outer(p.warnings, p.convert, p.grantWarning, []))
  {
    hide WithoutRepeats;
  }
}
