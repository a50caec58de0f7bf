/**
 The showplan reader: an event machine over XML start, empty and end tags that
 keeps a stack of open operators, a parallel stack of nesting depths, mode
 flags and query-level facts, and builds the operator tree.

 XML lexing and attribute parsing are done: an event carries its element with
 the attribute values the reader looks at, absent ones as None or "".
 */
module PlanXml {
  import opened Wrappers
  import opened Strings
  import opened Identifiers

  datatype ColumnRef = ColumnRef(table: string, column: string)

  datatype MissingIndexInfo = MissingIndexInfo(
    impact: real, database: string, schema: string, table: string,
    equality: seq<string>, inequality: seq<string>, included: seq<string>)

  datatype ConvertInfo = ConvertInfo(issue: string, expression: string)

  datatype GrantWarningInfo = GrantWarningInfo(kind: string, requested: real, granted: real, used: real)

  datatype RelOpAttrs = RelOpAttrs(
    physicalOp: string, logicalOp: string, cost: real, rows: real, io: real, cpu: real,
    nodeId: int, executions: real)

  datatype PlanNode = PlanNode(
    attrs: RelOpAttrs,
    children: seq<PlanNode>,
    warnings: seq<string>,
    actualRows: Option<real>,
    actualExecutions: Option<real>,
    hasResidual: bool,
    hasSeek: bool,
    missing: seq<MissingIndexInfo>,
    noStats: seq<ColumnRef>,
    convert: Option<ConvertInfo>,
    objectSchema: string, objectTable: string, objectIndex: string,
    outputColumns: seq<ColumnRef>,
    seekColumns: seq<ColumnRef>,
    sortColumns: seq<ColumnRef>,
    memoryGrant: Option<real>, memoryUsed: Option<real>, memoryRequested: Option<real>,
    grantWarning: Option<GrantWarningInfo>)

  function NewNode(attrs: RelOpAttrs): PlanNode {
    PlanNode(attrs, [], [], None, None, false, false, [], [], None, "", "", "", [], [], [], None, None, None, None)
  }

  // ---- elements and events -------------------------------------------------------

  datatype Elem =
    | RelOp(attrs: RelOpAttrs)
    | QueryPlan(grant: Option<real>)
    | MemoryGrantInfo(granted: Option<real>, used: Option<real>, requested: Option<real>)
    | MemoryGrantWarning(warning: GrantWarningInfo)
    | OrderBy
    | MissingIndexGroup(impact: real)
    | MissingIndex(database: string, schema: string, table: string)
    | ColumnGroup(usage: Option<string>)
    | Column(column: Option<string>, name: Option<string>, table: string)  // also ColumnReference
    | ColumnsWithNoStatistics
    | Predicate
    | SeekPredicates
    | DefinedValues
    | Object(schema: string, table: string, index: string)
    | PlanAffectingConvert(convert: ConvertInfo)
    | RunTimeCounters(actualRows: Option<real>, actualExecutions: Option<real>)
    | OtherWarning(warningName: string)  // any other element the reader takes for a warning
    | Other(otherName: string)

  /** What an end tag tells the reader; every other name is alike to it. */
  datatype Tag =
    | RelOpTag | OrderByTag | MissingIndexGroupTag | MissingIndexTag | ColumnGroupTag
    | NoStatisticsTag | SeekPredicatesTag | DefinedValuesTag | OtherTag

  function TagOf(e: Elem): Tag {
    match e
    case RelOp(_) => RelOpTag
    case OrderBy => OrderByTag
    case MissingIndexGroup(_) => MissingIndexGroupTag
    case MissingIndex(_, _, _) => MissingIndexTag
    case ColumnGroup(_) => ColumnGroupTag
    case ColumnsWithNoStatistics => NoStatisticsTag
    case SeekPredicates => SeekPredicatesTag
    case DefinedValues => DefinedValuesTag
    case _ => OtherTag
  }

  datatype Event = Start(e: Elem) | Empty(e: Elem) | End(tag: Tag) | Text

  // ---- reader state ----------------------------------------------------------------

  datatype Context = Context(
    curMissing: Option<MissingIndexInfo>, groupImpact: real, curUsage: Option<string>,
    inNoStats: bool, inDefinedValues: bool, inSeekPredicates: bool, inOrderBy: bool)

  const QUIET := Context(None, 0.0, None, false, false, false, false)

  /** Query-level facts, held until the root exists. */
  datatype Pending = Pending(
    missing: seq<MissingIndexInfo>,
    grant: Option<real>, used: Option<real>, requested: Option<real>,
    grantWarning: Option<GrantWarningInfo>, warnings: seq<string>, convert: Option<ConvertInfo>)

  const NO_PENDING := Pending([], None, None, None, None, [], None)

  datatype State = State(
    stack: seq<PlanNode>, depths: seq<nat>, root: Option<PlanNode>, ctx: Context, pending: Pending)

  const INITIAL := State([], [], None, QUIET, NO_PENDING)

  // ---- identifiers ------------------------------------------------------------------

  predicate IsOpen(c: char) { c == '[' }

  predicate IsClose(c: char) { c == ']' }

  function Unbracket(s: string): string { DropWhileEnd(DropWhile(Trim(s), IsOpen), IsClose) }

  function Contains(s: string, pat: string): bool { Find(s, pat).Some? }

  predicate IsLookup(n: PlanNode) {
    EqIgnoreCase(n.attrs.physicalOp, "Key Lookup") || EqIgnoreCase(n.attrs.physicalOp, "RID Lookup")
  }

  /** Operators whose object and seek columns are captured. */
  predicate CapturesObject(attrs: RelOpAttrs) {
    var op := Lower(attrs.physicalOp);
    Contains(op, "lookup") || Contains(op, "index seek") || Contains(op, "index scan") || Contains(op, "table scan")
  }

  predicate IsSort(n: PlanNode) { EqIgnoreCase(n.attrs.physicalOp, "Sort") }

  function OrEmpty(o: Option<string>): string { match o case None => "" case Some(s) => s }

  /** Columns are told apart by name alone. */
  function WithColumn(cols: seq<ColumnRef>, c: ColumnRef): seq<ColumnRef> {
    if exists x :: x in cols && x.column == c.column then cols else cols + [c]
  }

  // ---- what one element does to the operator it belongs to ----------------------------

  predicate NearOperator(depth: nat) { depth == 1 || depth == 2 }

  /** A column inside DefinedValues of a lookup, or inside SeekPredicates. */
  function CaptureColumn(n: PlanNode, ctx: Context, col: string, table: string): PlanNode {
    if col == "" then n
    else if ctx.inDefinedValues && IsLookup(n) then
      n.(outputColumns := WithColumn(n.outputColumns, ColumnRef(table, col)))
    else if ctx.inSeekPredicates && CapturesObject(n.attrs) then
      if n.objectTable == "" || table == "" || EqIgnoreCase(table, n.objectTable) then
        n.(seekColumns := WithColumn(n.seekColumns, ColumnRef(table, col)))
      else n
    else n
  }

  /** The operator after a Column or ColumnReference element. */
  function ColumnOnNode(n: PlanNode, ctx: Context, e: Elem): PlanNode
    requires e.Column?
  {
    var table := Unbracket(e.table);
    if ctx.inOrderBy then
      var col := Unbracket(OrEmpty(e.column));
      if col == "" then n else n.(sortColumns := WithColumn(n.sortColumns, ColumnRef(table, col)))
    else
      var col := Unbracket(OrEmpty(OrElse(e.column, e.name)));
      var n := CaptureColumn(n, ctx, col, table);
      if ctx.inNoStats && col != "" then n.(noStats := n.noStats + [ColumnRef(table, col)]) else n
  }

  /** The missing index after a column of the current column group. */
  function ColumnOnMissing(ctx: Context, e: Elem): Context
    requires e.Column?
  {
    var col := Unbracket(OrEmpty(OrElse(e.column, e.name)));
    if ctx.inOrderBy || ctx.inNoStats || ctx.curMissing == None || ctx.curUsage == None || col == "" then ctx
    else
      var mi, usage := ctx.curMissing.value, Upper(Trim(ctx.curUsage.value));
      var mi := if usage == "EQUALITY" then mi.(equality := mi.equality + [col])
                else if usage == "INEQUALITY" then mi.(inequality := mi.inequality + [col])
                else if usage == "INCLUDE" then mi.(included := mi.included + [col])
                else mi;
      ctx.(curMissing := Some(mi))
  }

  function AddSome(a: Option<real>, b: Option<real>): Option<real> {
    match b case None => a case Some(y) => Some((match a case None => 0.0 case Some(x) => x) + y)
  }

  function ObjectOnNode(n: PlanNode, e: Elem): PlanNode
    requires e.Object?
  {
    if CapturesObject(n.attrs) && n.objectTable == "" then
      n.(objectSchema := Unbracket(e.schema), objectTable := Unbracket(e.table), objectIndex := Unbracket(e.index))
    else n
  }

  const MEMORY_GRANT_WARNING := "MemoryGrantWarning"
  const NO_STATISTICS := "ColumnsWithNoStatistics"
  const PLAN_AFFECTING_CONVERT := "PlanAffectingConvert"

  /** What an element does to the innermost operator whichever way it is
      written, when it is nested `depth` deep in it. */
  function OnNode(n: PlanNode, ctx: Context, e: Elem, depth: nat): PlanNode {
    match e
    case MemoryGrantWarning(info) =>
      n.(warnings := n.warnings + [MEMORY_GRANT_WARNING], grantWarning := Some(info))
    case Column(_, _, _) => ColumnOnNode(n, ctx, e)
    case ColumnsWithNoStatistics => n.(warnings := n.warnings + [NO_STATISTICS])
    case Predicate => if NearOperator(depth) then n.(hasResidual := true) else n
    case SeekPredicates => if NearOperator(depth) then n.(hasSeek := true) else n
    case Object(_, _, _) => ObjectOnNode(n, e)
    case PlanAffectingConvert(info) =>
      n.(warnings := n.warnings + [PLAN_AFFECTING_CONVERT], convert := Some(info))
    case OtherWarning(name) => n.(warnings := n.warnings + [name])
    case _ => n
  }

  predicate Positive(v: Option<real>) { v.Some? && v.value > 0.0 }

  /** Query-level facts are taken wherever they stand; warnings only outside
      every operator. */
  function OnPending(p: Pending, e: Elem, outside: bool): Pending {
    match e
    case QueryPlan(grant) => if Positive(grant) then p.(grant := grant) else p
    case MemoryGrantInfo(granted, used, requested) =>
      p.(grant := if Positive(granted) then granted else p.grant,
         used := OrElse(used, p.used),
         requested := if Positive(requested) then requested else p.requested)
    case MemoryGrantWarning(info) =>
      if outside then p.(warnings := p.warnings + [MEMORY_GRANT_WARNING], grantWarning := Some(info)) else p
    case PlanAffectingConvert(info) =>
      if outside then p.(warnings := p.warnings + [PLAN_AFFECTING_CONVERT], convert := OrElse(p.convert, Some(info)))
      else p
    case OtherWarning(name) => if outside then p.(warnings := p.warnings + [name]) else p
    case _ => p
  }

  // ---- steps ------------------------------------------------------------------------------

  function Last<T>(s: seq<T>): T
    requires s != []
  {
    s[|s| - 1]
  }

  function Init<T>(s: seq<T>): seq<T>
    requires s != []
  {
    s[..|s| - 1]
  }

  function OnTop(stack: seq<PlanNode>, ctx: Context, e: Elem, depth: nat): seq<PlanNode> {
    if stack == [] then [] else Init(stack) + [OnNode(Last(stack), ctx, e, depth)]
  }

  function TopDepth(depths: seq<nat>): nat { if depths == [] then 0 else Last(depths) }

  function Deeper(depths: seq<nat>): seq<nat> {
    if depths == [] then [] else Init(depths) + [Last(depths) + 1]
  }

  function Shallower(depths: seq<nat>): seq<nat> {
    if depths == [] || Last(depths) == 0 then depths else Init(depths) + [Last(depths) - 1]
  }

  /** Modes entered by a start tag. */
  function Enter(ctx: Context, stack: seq<PlanNode>, e: Elem): Context {
    match e
    case OrderBy => if stack != [] && IsSort(Last(stack)) then ctx.(inOrderBy := true) else ctx
    case MissingIndexGroup(impact) => ctx.(groupImpact := impact)
    case MissingIndex(database, schema, table) =>
      ctx.(curMissing := Some(MissingIndexInfo(
        ctx.groupImpact, Unbracket(database), Unbracket(schema), Unbracket(table), [], [], [])))
    case ColumnGroup(usage) => ctx.(curUsage := usage)
    case ColumnsWithNoStatistics => ctx.(inNoStats := true)
    case SeekPredicates =>
      if stack != [] && CapturesObject(Last(stack).attrs) then ctx.(inSeekPredicates := true) else ctx
    case DefinedValues => if stack != [] && IsLookup(Last(stack)) then ctx.(inDefinedValues := true) else ctx
    case Column(_, _, _) => ColumnOnMissing(ctx, e)
    case _ => ctx
  }

  function OnStart(st: State, e: Elem): State {
    match e
    case RelOp(attrs) => st.(stack := st.stack + [NewNode(attrs)], depths := st.depths + [0])
    case _ =>
      var depths := Deeper(st.depths);
      State(OnTop(st.stack, st.ctx, e, TopDepth(depths)), depths, st.root,
            Enter(st.ctx, st.stack, e), OnPending(st.pending, e, st.stack == []))
  }

  function WithCounters(n: PlanNode, e: Elem): PlanNode {
    match e
    case RunTimeCounters(rows, execs) =>
      n.(actualRows := AddSome(n.actualRows, rows), actualExecutions := AddSome(n.actualExecutions, execs))
    case _ => n
  }

  /** A finished operator joins its parent, or becomes the root. */
  function Attach(st: State, n: PlanNode): State {
    if st.stack == [] then st.(root := Some(n))
    else
      var parent := Last(st.stack);
      st.(stack := Init(st.stack) + [parent.(children := parent.children + [n])])
  }

  function OnEmpty(st: State, e: Elem): State {
    match e
    case RelOp(attrs) => Attach(st, NewNode(attrs))
    case _ =>
      var stack := OnTop(st.stack, st.ctx, e, TopDepth(st.depths));
      State(if stack == [] then [] else Init(stack) + [WithCounters(Last(stack), e)],
            st.depths, st.root,
            if e.Column? then ColumnOnMissing(st.ctx, e) else st.ctx,
            OnPending(st.pending, e, st.stack == []))
  }

  /** Modes left by an end tag. */
  function Leave(ctx: Context, tag: Tag): Context {
    match tag
    case OrderByTag => ctx.(inOrderBy := false)
    case MissingIndexGroupTag => ctx.(groupImpact := 0.0)
    case MissingIndexTag => ctx.(curMissing := None)
    case ColumnGroupTag => ctx.(curUsage := None)
    case NoStatisticsTag => ctx.(inNoStats := false)
    case SeekPredicatesTag => ctx.(inSeekPredicates := false)
    case DefinedValuesTag => ctx.(inDefinedValues := false)
    case _ => ctx
  }

  function OnEnd(st: State, tag: Tag): State {
    if tag == RelOpTag then
      var depths := if st.depths == [] then [] else Init(st.depths);
      if st.stack == [] then st.(depths := depths)
      else Attach(st.(stack := Init(st.stack), depths := depths), Last(st.stack))
    else
      var depths, ctx := Shallower(st.depths), Leave(st.ctx, tag);
      if tag == MissingIndexTag && st.ctx.curMissing.Some? then
        var mi := st.ctx.curMissing.value;
        if st.stack == [] then
          st.(depths := depths, ctx := ctx, pending := st.pending.(missing := st.pending.missing + [mi]))
        else
          var top := Last(st.stack);
          st.(depths := depths, ctx := ctx, stack := Init(st.stack) + [top.(missing := top.missing + [mi])])
      else st.(depths := depths, ctx := ctx)
  }

  function Step(st: State, ev: Event): State {
    match ev
    case Start(e) => OnStart(st, e)
    case Empty(e) => OnEmpty(st, e)
    case End(tag) => OnEnd(st, tag)
    case Text => st
  }

  function Run(st: State, events: seq<Event>): State
    decreases |events|
  {
    if events == [] then st else Run(Step(st, events[0]), events[1..])
  }

  // ---- end of input ------------------------------------------------------------------------

  function WithoutRepeats(have: seq<string>, more: seq<string>): seq<string>
    decreases |more|
  {
    if more == [] then have
    else WithoutRepeats(if more[0] in have then have else have + [more[0]], more[1..])
  }

  /** Query-level facts go to the root operator. */
  function Finish(root: PlanNode, p: Pending): PlanNode {
    root.(missing := root.missing + p.missing,
          memoryGrant := OrElse(root.memoryGrant, p.grant),
          memoryUsed := OrElse(root.memoryUsed, p.used),
          memoryRequested := OrElse(root.memoryRequested, p.requested),
          grantWarning := OrElse(root.grantWarning, p.grantWarning),
          warnings := WithoutRepeats(root.warnings, p.warnings),
          convert := OrElse(root.convert, p.convert))
  }

  /** None when the document has no operator. */
  function Parsed(events: seq<Event>): Option<PlanNode> {
    var st := Run(INITIAL, events);
    match st.root case None => None case Some(root) => Some(Finish(root, st.pending))
  }

  method Parse(events: seq<Event>) returns (r: Option<PlanNode>)
    ensures r == Parsed(events)
  {
    hide OnNode, OnPending, Enter, ColumnOnMissing, WithCounters, Leave, Run;
    var stack: seq<PlanNode> := [];
    var depthSinceRelop: seq<nat> := [];
    var root: Option<PlanNode> := None;
    var ctx, pending := QUIET, NO_PENDING;
    RunStep(INITIAL, events);
    for k := 0 to |events|
      invariant Run(INITIAL, events) == Run(State(stack, depthSinceRelop, root, ctx, pending), events[k..])
    {
      ghost var st := State(stack, depthSinceRelop, root, ctx, pending);
      RunStep(st, events[k..]);
      var outside := stack == [];
      match events[k] {
        case Start(e) =>
          if e.RelOp? {
            stack := stack + [NewNode(e.attrs)];
            depthSinceRelop := depthSinceRelop + [0];
          } else {
            depthSinceRelop := Deeper(depthSinceRelop);
            ctx, stack := Enter(ctx, stack, e), OnTop(stack, ctx, e, TopDepth(depthSinceRelop));
            pending := OnPending(pending, e, outside);
          }
        case Empty(e) =>
          if e.RelOp? {
            stack, root := AttachTo(stack, root, NewNode(e.attrs));
          } else {
            stack := OnTop(stack, ctx, e, TopDepth(depthSinceRelop));
            if stack != [] {
              stack := Init(stack) + [WithCounters(Last(stack), e)];
            }
            ctx := if e.Column? then ColumnOnMissing(ctx, e) else ctx;
            pending := OnPending(pending, e, outside);
          }
        case End(tag) =>
          if tag == RelOpTag {
            depthSinceRelop := if depthSinceRelop == [] then [] else Init(depthSinceRelop);
            if stack != [] {
              var done := Last(stack);
              stack, root := AttachTo(Init(stack), root, done);
            }
          } else {
            depthSinceRelop := Shallower(depthSinceRelop);
            if tag == MissingIndexTag && ctx.curMissing.Some? {
              var mi := ctx.curMissing.value;
              if outside {
                pending := pending.(missing := pending.missing + [mi]);
              } else {
                var top := Last(stack);
                stack := Init(stack) + [top.(missing := top.missing + [mi])];
              }
            }
            ctx := Leave(ctx, tag);
          }
        case Text =>
      }
      assert State(stack, depthSinceRelop, root, ctx, pending) == Step(st, events[k]);
    }
    RunStep(State(stack, depthSinceRelop, root, ctx, pending), []);
    r := match root case None => None case Some(n) => Some(Finish(n, pending));
  }

  method AttachTo(stack: seq<PlanNode>, root: Option<PlanNode>, n: PlanNode)
    returns (stack': seq<PlanNode>, root': Option<PlanNode>)
    ensures forall st: State :: st == State(stack, st.depths, root, st.ctx, st.pending) ==>
              Attach(st, n) == State(stack', st.depths, root', st.ctx, st.pending)
  {
    stack', root' := stack, root;
    if stack == [] {
      root' := Some(n);
    } else {
      var parent := Last(stack);
      stack' := Init(stack) + [parent.(children := parent.children + [n])];
    }
  }

  lemma RunStep(st: State, events: seq<Event>)
    ensures Run(st, events) == if events == [] then st else Run(Step(st, events[0]), events[1..])
  {
    hide Step;
  }

  lemma {:induction false} RunConcat(st: State, a: seq<Event>, b: seq<Event>)
    ensures Run(st, a + b) == Run(Run(st, a), b)
    decreases |a|
  {
    hide Step;
    if a == [] {
      assert a + b == b;
    } else {
      assert (a + b)[1..] == a[1..] + b;
      RunConcat(Step(st, a[0]), a[1..], b);
    }
  }
}
