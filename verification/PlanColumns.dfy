/**
 Column lists and objects of operators, wherever in a plan the operator stands and
 whatever modes are on: what a Sort orders by, what a lookup outputs, what a seek or
 scan looks up, the columns without statistics, and the object that is read.
 */
module PlanColumns {
  import opened Wrappers
  import opened Strings
  import opened Identifiers
  import opened PlanXml
  import opened PlanLaws
  import opened PlanTree

  // ---- columns under an element ----------------------------------------------------------

  /** Columns, text and elements the reader knows nothing of, nested in any way. */
  predicate Plain(doc: Doc)
    decreases doc
  {
    match doc
    case Words => true
    case Leaf(e) => e.Column? || e.Other?
    case Element(e, kids) => (e.Column? || e.Other?) && PlainAll(kids)
  }

  predicate PlainAll(forest: seq<Doc>)
    decreases forest
  {
    forest == [] || (Plain(forest[0]) && PlainAll(forest[1..]))
  }

  /** The column an element names. A sort reads the Column attribute only. */
  function RefsOf(sorting: bool, e: Elem): seq<ColumnRef> {
    if !e.Column? then []
    else
      var col := Unbracket(OrEmpty(if sorting then e.column else OrElse(e.column, e.name)));
      if col == "" then [] else [ColumnRef(Unbracket(e.table), col)]
  }

  function RefsIn(sorting: bool, doc: Doc): seq<ColumnRef>
    decreases doc
  {
    match doc
    case Words => []
    case Leaf(e) => RefsOf(sorting, e)
    case Element(e, kids) => RefsOf(sorting, e) + RefsInAll(sorting, kids)
  }

  function RefsInAll(sorting: bool, forest: seq<Doc>): seq<ColumnRef>
    decreases forest
  {
    if forest == [] then [] else RefsIn(sorting, forest[0]) + RefsInAll(sorting, forest[1..])
  }

  /** What some stretch of a plan names, for sorts and for everyone else. */
  datatype Refs = Refs(sort: seq<ColumnRef>, all: seq<ColumnRef>)

  const NO_REFS := Refs([], [])

  function Both(a: Refs, b: Refs): Refs { Refs(a.sort + b.sort, a.all + b.all) }

  function Named(e: Elem): Refs { Refs(RefsOf(true, e), RefsOf(false, e)) }

  function NamedIn(doc: Doc): Refs { Refs(RefsIn(true, doc), RefsIn(false, doc)) }

  function NamedInAll(forest: seq<Doc>): Refs { Refs(RefsInAll(true, forest), RefsInAll(false, forest)) }

  // ---- the lists columns go to ---------------------------------------------------------------

  datatype Listener = Sorting | Defining | Seeking | Statistics

  /** Which lists of operator `n` grow while the modes are `ctx`. Output columns take
      precedence over seek columns, sort columns over all. */
  predicate Hears(l: Listener, ctx: Context, n: PlanNode) {
    match l
    case Sorting => ctx.inOrderBy
    case Defining => !ctx.inOrderBy && ctx.inDefinedValues && IsLookup(n)
    case Seeking =>
      && !ctx.inOrderBy && !(ctx.inDefinedValues && IsLookup(n))
      && ctx.inSeekPredicates && CapturesObject(n.attrs)
    case Statistics => !ctx.inOrderBy && ctx.inNoStats
  }

  /** Each name once. */
  function Extended(have: seq<ColumnRef>, cols: seq<ColumnRef>): seq<ColumnRef>
    decreases |cols|
  {
    if cols == [] then have else Extended(WithColumn(have, cols[0]), cols[1..])
  }

  /** A seek column of another table is the value compared with, not a key. */
  predicate Belongs(n: PlanNode, c: ColumnRef) {
    n.objectTable == "" || c.table == "" || EqIgnoreCase(c.table, n.objectTable)
  }

  function Belonging(n: PlanNode, cols: seq<ColumnRef>): seq<ColumnRef> {
    if cols == [] then [] else (if Belongs(n, cols[0]) then [cols[0]] else []) + Belonging(n, cols[1..])
  }

  /** The operator after columns `refs` under modes `ctx`. */
  function Heard(ctx: Context, n: PlanNode, refs: Refs): PlanNode {
    n.(sortColumns := if Hears(Sorting, ctx, n) then Extended(n.sortColumns, refs.sort) else n.sortColumns,
       outputColumns := if Hears(Defining, ctx, n) then Extended(n.outputColumns, refs.all) else n.outputColumns,
       seekColumns := if Hears(Seeking, ctx, n) then Extended(n.seekColumns, Belonging(n, refs.all)) else n.seekColumns,
       noStats := if Hears(Statistics, ctx, n) then n.noStats + refs.all else n.noStats)
  }

  function NamesOf(refs: seq<ColumnRef>): seq<string> {
    if refs == [] then [] else [refs[0].column] + NamesOf(refs[1..])
  }

  lemma {:induction false} NamesOfBoth(a: seq<ColumnRef>, b: seq<ColumnRef>)
    ensures NamesOf(a + b) == NamesOf(a) + NamesOf(b)
    decreases |a|
  {
    if a == [] {
      assert a + b == b;
    } else {
      assert (a + b)[1..] == a[1..] + b;
      NamesOfBoth(a[1..], b);
    }
  }

  /** Columns of a group join the list its usage names; any other usage is passed over. */
  function With(mi: MissingIndexInfo, usage: string, cols: seq<string>): MissingIndexInfo {
    var usage := Upper(Trim(usage));
    if usage == "EQUALITY" then mi.(equality := mi.equality + cols)
    else if usage == "INEQUALITY" then mi.(inequality := mi.inequality + cols)
    else if usage == "INCLUDE" then mi.(included := mi.included + cols)
    else mi
  }

  /** The missing index being read takes columns unless a sort or a statistics warning
      does. */
  function Filed(ctx: Context, refs: seq<ColumnRef>): Context {
    if ctx.inOrderBy || ctx.inNoStats || ctx.curMissing == None || ctx.curUsage == None then ctx
    else ctx.(curMissing := Some(With(ctx.curMissing.value, ctx.curUsage.value, NamesOf(refs))))
  }

  lemma {:induction false} ExtendedConcat(have: seq<ColumnRef>, a: seq<ColumnRef>, b: seq<ColumnRef>)
    ensures Extended(have, a + b) == Extended(Extended(have, a), b)
    decreases |a|
  {
    hide WithColumn;
    if a == [] {
      assert a + b == b;
    } else {
      assert (a + b)[1..] == a[1..] + b;
      ExtendedConcat(WithColumn(have, a[0]), a[1..], b);
    }
  }

  /** The name of `cols[n]` is in neither list before it. */
  predicate IsNewName(have: seq<ColumnRef>, cols: seq<ColumnRef>, n: nat) {
    && n < |cols|
    && (forall k :: 0 <= k < |have| ==> have[k].column != cols[n].column)
    && forall k :: 0 <= k < n ==> cols[k].column != cols[n].column
  }

  lemma ExtendedSnoc(have: seq<ColumnRef>, cols: seq<ColumnRef>, c: ColumnRef)
    ensures Extended(have, cols + [c]) == WithColumn(Extended(have, cols), c)
  {
    hide WithColumn;
    ExtendedConcat(have, cols, [c]);
    assert Extended(WithColumn(Extended(have, cols), c), []) == WithColumn(Extended(have, cols), c);
  }

  function Picked(cols: seq<ColumnRef>, src: seq<nat>): (r: seq<ColumnRef>)
    requires forall k :: 0 <= k < |src| ==> src[k] < |cols|
    ensures |r| == |src| && forall k :: 0 <= k < |src| ==> r[k] == cols[src[k]]
  {
    seq(|src|, k requires 0 <= k < |src| => cols[src[k]])
  }

  lemma WithNewName(have: seq<ColumnRef>, cols: seq<ColumnRef>, src: seq<nat>, c: ColumnRef)
    requires forall k :: 0 <= k < |src| ==> src[k] < |cols|
    requires forall n :: IsNewName(have, cols, n) ==> n in src
    ensures WithColumn(have + Picked(cols, src), c) ==
            have + Picked(cols, src) + if IsNewName(have, cols + [c], |cols|) then [c] else []
  {
    var list, all := have + Picked(cols, src), cols + [c];
    if !IsNewName(have, all, |cols|) {
      if k :| 0 <= k < |have| && have[k].column == c.column {
        assert have[k] in list;
      } else {
        var n: nat :| n < |cols| && cols[n].column == c.column;
        var first := FirstOfName(cols, n);
        assert IsNewName(have, cols, first);
        var k :| 0 <= k < |src| && src[k] == first;
        assert list[|have| + k] == cols[first] && list[|have| + k] in list;
      }
    } else {
      forall x | x in list
        ensures x.column != c.column
      {
        var k :| 0 <= k < |list| && list[k] == x;
        assert k >= |have| ==> x == cols[src[k - |have|]] && all[src[k - |have|]] == x;
      }
    }
  }

  lemma FirstOfName(cols: seq<ColumnRef>, n: nat) returns (first: nat)
    requires n < |cols|
    ensures first <= n && cols[first].column == cols[n].column
    ensures forall k :: 0 <= k < first ==> cols[k].column != cols[n].column
  {
    if k: nat :| k < n && cols[k].column == cols[n].column {
      first := FirstOfName(cols, k);
    } else {
      first := n;
    }
  }

  /** `src` lists, in order, the positions of the names that are new. */
  ghost predicate AreNewNames(have: seq<ColumnRef>, cols: seq<ColumnRef>, src: seq<nat>) {
    && (forall k :: 0 <= k < |src| ==> src[k] < |cols|)
    && (forall n :: n in src <==> IsNewName(have, cols, n))
    && forall i, j :: 0 <= i < j < |src| ==> src[i] < src[j]
  }

  lemma OneMoreName(have: seq<ColumnRef>, cols: seq<ColumnRef>, src: seq<nat>, c: ColumnRef)
    requires AreNewNames(have, cols, src)
    ensures AreNewNames(have, cols + [c], if IsNewName(have, cols + [c], |cols|) then src + [|cols|] else src)
    ensures Picked(cols + [c], src + [|cols|]) == Picked(cols, src) + [c]
    ensures Picked(cols + [c], src) == Picked(cols, src)
  {
    var all := cols + [c];
    forall n: nat | n < |cols|
      ensures IsNewName(have, all, n) <==> IsNewName(have, cols, n)
    {
      assert forall k :: 0 <= k <= n ==> all[k] == cols[k];
    }
    hide IsNewName;
    OnlyPositions(have, all);
  }

  lemma OnlyPositions(have: seq<ColumnRef>, cols: seq<ColumnRef>)
    ensures forall n: nat :: IsNewName(have, cols, n) ==> n < |cols|
  {
  }

  /** What a list gains from written columns: in order, those whose names it does not
      have yet, each name once and where it is written first. */
  lemma {:induction false} ExtendedMeans(have: seq<ColumnRef>, cols: seq<ColumnRef>) returns (src: seq<nat>)
    ensures AreNewNames(have, cols, src) && Extended(have, cols) == have + Picked(cols, src)
    decreases |cols|
  {
    hide WithColumn, Extended, IsNewName, Picked;
    if cols == [] {
      src := [];
      NothingWritten(have);
      OnlyPositions(have, cols);
    } else {
      var n := |cols| - 1;
      var before, c := cols[..n], cols[n];
      var src' := ExtendedMeans(have, before);
      assert cols == before + [c];
      ExtendedSnoc(have, before, c);
      WithNewName(have, before, src', c);
      OneMoreName(have, before, src', c);
      src := if IsNewName(have, cols, n) then src' + [n] else src';
      var list := Picked(before, src');
      assert have + list + [] == have + list && have + list + [c] == have + (list + [c]);
    }
  }

  lemma NothingWritten(have: seq<ColumnRef>)
    ensures Extended(have, []) == have
  {
  }

  lemma {:induction false} BelongingConcat(n: PlanNode, a: seq<ColumnRef>, b: seq<ColumnRef>)
    ensures Belonging(n, a + b) == Belonging(n, a) + Belonging(n, b)
    decreases |a|
  {
    hide Belongs;
    if a == [] {
      assert a + b == b;
    } else {
      assert (a + b)[1..] == a[1..] + b;
      BelongingConcat(n, a[1..], b);
    }
  }

  /** Belonging looks at the object only. */
  lemma {:induction false} BelongingAlike(n: PlanNode, m: PlanNode, cols: seq<ColumnRef>)
    requires n.objectTable == m.objectTable
    ensures Belonging(n, cols) == Belonging(m, cols)
    decreases |cols|
  {
    hide EqIgnoreCase;
    if cols != [] {
      BelongingAlike(n, m, cols[1..]);
    }
  }

  /** The modes that decide who hears a column. */
  predicate SameListeners(a: Context, b: Context) {
    && a.inNoStats == b.inNoStats && a.inDefinedValues == b.inDefinedValues
    && a.inSeekPredicates == b.inSeekPredicates && a.inOrderBy == b.inOrderBy
  }

  lemma HeardTwice(ctx: Context, ctx': Context, n: PlanNode, a: Refs, b: Refs)
    requires SameListeners(ctx, ctx')
    ensures Heard(ctx', Heard(ctx, n, a), b) == Heard(ctx, n, Both(a, b))
  {
    hide Extended, Belonging, IsLookup, CapturesObject;
    ExtendedConcat(n.sortColumns, a.sort, b.sort);
    ExtendedConcat(n.outputColumns, a.all, b.all);
    BelongingConcat(n, a.all, b.all);
    BelongingAlike(n, Heard(ctx, n, a), b.all);
    ExtendedConcat(n.seekColumns, Belonging(n, a.all), Belonging(n, b.all));
    assert n.noStats + a.all + b.all == n.noStats + (a.all + b.all);
    LookupByAttrs(n, Heard(ctx, n, a));
  }

  lemma LookupByAttrs(n: PlanNode, m: PlanNode)
    requires n.attrs == m.attrs
    ensures IsLookup(n) == IsLookup(m)
  {
  }

  lemma NothingNamed(ctx: Context, n: PlanNode)
    ensures Heard(ctx, n, NO_REFS) == n && Filed(ctx, []) == ctx
  {
    hide IsLookup, CapturesObject, Upper, Trim;
    assert n.noStats + [] == n.noStats;
    if ctx.curMissing.Some? && ctx.curUsage.Some? {
      NothingWith(ctx.curMissing.value, ctx.curUsage.value);
    }
  }

  lemma NothingWith(mi: MissingIndexInfo, usage: string)
    ensures With(mi, usage, []) == mi
  {
    hide Upper, Trim;
  }

  lemma WithTwice(mi: MissingIndexInfo, usage: string, a: seq<string>, b: seq<string>)
    ensures With(With(mi, usage, a), usage, b) == With(mi, usage, a + b)
  {
    hide Upper, Trim;
  }

  lemma FiledTwice(ctx: Context, a: seq<ColumnRef>, b: seq<ColumnRef>)
    ensures Filed(Filed(ctx, a), b) == Filed(ctx, a + b)
    ensures Filed(ctx, a) == ctx.(curMissing := Filed(ctx, a).curMissing)
  {
    hide With, NamesOf;
    NamesOfBoth(a, b);
    if ctx.curMissing.Some? && ctx.curUsage.Some? {
      WithTwice(ctx.curMissing.value, ctx.curUsage.value, NamesOf(a), NamesOf(b));
    }
  }

  // ---- the reader against it ---------------------------------------------------------------------

  lemma OneName(have: seq<ColumnRef>, c: ColumnRef, n: PlanNode)
    ensures Extended(have, [c]) == WithColumn(have, c) && Extended(have, []) == have
    ensures Belonging(n, [c]) == if Belongs(n, c) then [c] else []
    ensures NamesOf([c]) == [c.column]
  {
    hide WithColumn, Belongs;
    assert [c][1..] == [];
    assert Extended(WithColumn(have, c), []) == WithColumn(have, c);
    assert Belonging(n, []) == [] && NamesOf([]) == [];
  }

  lemma SortHears(ctx: Context, n: PlanNode, e: Elem)
    requires e.Column? && ctx.inOrderBy
    ensures ColumnOnNode(n, ctx, e) == Heard(ctx, n, Named(e)) && ColumnOnMissing(ctx, e) == Filed(ctx, Named(e).all)
  {
    hide Unbracket, IsLookup, CapturesObject, WithColumn, Belongs, Extended, Belonging;
    var refs := RefsOf(true, e);
    OneName(n.sortColumns, ColumnRef("", ""), n);
    if refs != [] {
      OneName(n.sortColumns, refs[0], n);
      assert refs == [refs[0]];
    }
  }

  lemma OthersHear(ctx: Context, n: PlanNode, e: Elem)
    requires e.Column? && !ctx.inOrderBy
    ensures ColumnOnNode(n, ctx, e) == Heard(ctx, n, Named(e))
  {
    hide Unbracket, IsLookup, CapturesObject, WithColumn, EqIgnoreCase, Extended, Belonging;
    var refs := RefsOf(false, e);
    if refs == [] {
      NothingHeard(ctx, n, Named(e));
    } else {
      var c := refs[0];
      assert refs == [c];
      OneName(n.outputColumns, c, n);
      OneName(n.seekColumns, c, n);
    }
  }

  lemma NothingHeard(ctx: Context, n: PlanNode, refs: Refs)
    requires !ctx.inOrderBy && refs.all == []
    ensures Heard(ctx, n, refs) == n
  {
    hide IsLookup, CapturesObject;
    assert n.noStats + [] == n.noStats;
  }

  lemma IndexFiles(ctx: Context, e: Elem)
    requires e.Column? && !ctx.inOrderBy
    ensures ColumnOnMissing(ctx, e) == Filed(ctx, Named(e).all)
  {
    hide Unbracket, Upper, Trim, NamesOf;
    var refs := RefsOf(false, e);
    if refs == [] {
      NothingNamed(ctx, NewNode(RelOpAttrs("", "", 0.0, 0.0, 0.0, 0.0, 0, 0.0)));
    } else {
      assert refs == [refs[0]];
      OneName([], refs[0], NewNode(RelOpAttrs("", "", 0.0, 0.0, 0.0, 0.0, 0, 0.0)));
    }
  }

  function After(r: Reading, refs: Refs): Reading {
    Reading(Heard(r.ctx, r.node, refs), Filed(r.ctx, refs.all), r.pending)
  }

  lemma AfterTwice(r: Reading, a: Refs, b: Refs)
    ensures After(After(r, a), b) == After(r, Both(a, b))
    ensures After(r, NO_REFS) == r
  {
    hide Heard, Filed;
    FiledTwice(r.ctx, a.all, b.all);
    HeardTwice(r.ctx, Filed(r.ctx, a.all), r.node, a, b);
    NothingNamed(r.ctx, r.node);
  }

  /** One column or unknown element, in either form. */
  lemma PlainTag(r: Reading, e: Elem, depth: nat)
    requires e.Column? || e.Other?
    ensures LeafRead(r, e, depth) == After(r, Named(e)) && Opened(r, e, depth) == After(r, Named(e))
  {
    hide ColumnOnNode, ColumnOnMissing, Heard, Filed;
    if e.Other? {
      assert Named(e) == NO_REFS;
      NothingNamed(r.ctx, r.node);
    } else if r.ctx.inOrderBy {
      SortHears(r.ctx, r.node, e);
    } else {
      OthersHear(r.ctx, r.node, e);
      IndexFiles(r.ctx, e);
    }
  }

  lemma PlainClosed(r: Reading, e: Elem)
    requires e.Column? || e.Other?
    ensures Closed(r, TagOf(e)) == r
  {
  }

  lemma {:induction false} PlainRead(r: Reading, doc: Doc, depth: nat)
    requires Plain(doc)
    ensures Within(r, doc, depth) == After(r, NamedIn(doc))
    decreases doc, 1
  {
    hide LeafRead, Opened, Closed, After, RefsOf;
    match doc
    case Words => AfterTwice(r, NO_REFS, NO_REFS);
    case Leaf(e) => PlainTag(r, e, depth);
    case Element(e, kids) =>
      PlainTag(r, e, depth + 1);
      PlainReadAll(After(r, Named(e)), kids, depth + 1);
      PlainClosed(WithinAll(After(r, Named(e)), kids, depth + 1), e);
      AfterTwice(r, Named(e), NamedInAll(kids));
  }

  lemma {:induction false} PlainReadAll(r: Reading, forest: seq<Doc>, depth: nat)
    requires PlainAll(forest)
    ensures WithinAll(r, forest, depth) == After(r, NamedInAll(forest))
    decreases forest, 0
  {
    hide Within, After, RefsIn;
    if forest == [] {
      AfterTwice(r, NO_REFS, NO_REFS);
    } else {
      PlainRead(r, forest[0], depth);
      PlainReadAll(After(r, NamedIn(forest[0])), forest[1..], depth);
      AfterTwice(r, NamedIn(forest[0]), NamedInAll(forest[1..]));
    }
  }

  /** Inside any operator and under any modes, columns nested in any way among text and
      unknown elements go, in document order, to the lists of the innermost operator
      that hear them and to the missing index being read; nothing else changes. */
  lemma ColumnsRead(st: State, forest: seq<Doc>)
    requires st.stack != [] && |st.depths| == |st.stack| && PlainAll(forest)
    ensures Run(st, EventsOfAll(forest)) ==
            st.(stack := Init(st.stack) + [Heard(st.ctx, Last(st.stack), NamedInAll(forest))],
                ctx := Filed(st.ctx, RefsInAll(false, forest)))
  {
    hide Run, Heard, Filed, RefsInAll, PlainAll;
    MachineDescendsAll(st, forest);
    PlainReadAll(ReadingOf(st), forest, Last(st.depths));
  }

  // ---- the elements that turn listening on ---------------------------------------------------------

  function Opening(l: Listener): Elem {
    match l
    case Sorting => OrderBy
    case Defining => DefinedValues
    case Seeking => SeekPredicates
    case Statistics => ColumnsWithNoStatistics
  }

  /** The operator after that tag. */
  function Announced(l: Listener, n: PlanNode, depth: nat): PlanNode {
    match l
    case Seeking => if NearOperator(depth) then n.(hasSeek := true) else n
    case Statistics => n.(warnings := n.warnings + [NO_STATISTICS])
    case _ => n
  }

  /** The modes after it: operators of the wrong kind turn none on. */
  function Listening(l: Listener, ctx: Context, n: PlanNode): Context {
    match l
    case Sorting => if IsSort(n) then ctx.(inOrderBy := true) else ctx
    case Defining => if IsLookup(n) then ctx.(inDefinedValues := true) else ctx
    case Seeking => if CapturesObject(n.attrs) then ctx.(inSeekPredicates := true) else ctx
    case Statistics => ctx.(inNoStats := true)
  }

  lemma OpeningTag(l: Listener, r: Reading, depth: nat)
    ensures Opened(r, Opening(l), depth) ==
            Reading(Announced(l, r.node, depth), Listening(l, r.ctx, r.node), r.pending)
  {
    hide IsSort, IsLookup, CapturesObject, ColumnOnNode, ColumnOnMissing, ObjectOnNode, Unbracket;
  }

  lemma ClosingTag(l: Listener, r: Reading)
    ensures Closed(r, TagOf(Opening(l))) == Reading(r.node, Leave(r.ctx, TagOf(Opening(l))), r.pending)
  {
    hide Leave;
  }

  /** Such an element is read as its tag, its columns and its end, whatever modes were
      on before; the mode it turns on is off after it. */
  lemma ListenerRead(st: State, l: Listener, kids: seq<Doc>)
    requires st.stack != [] && |st.depths| == |st.stack| && PlainAll(kids)
    ensures var n := Announced(l, Last(st.stack), Last(st.depths) + 1);
            var ctx := Listening(l, st.ctx, Last(st.stack));
            Run(st, EventsOf(Element(Opening(l), kids))) ==
            st.(stack := Init(st.stack) + [Heard(ctx, n, NamedInAll(kids))],
                ctx := Leave(Filed(ctx, RefsInAll(false, kids)), TagOf(Opening(l))))
  {
    hide Run, Announced, Listening, Opened, Closed, Heard, Filed, RefsInAll, PlainAll, Leave;
    var r, d := ReadingOf(st), Last(st.depths) + 1;
    assert !Opening(l).RelOp?;
    MachineDescends(st, Element(Opening(l), kids));
    OpeningTag(l, r, d);
    PlainReadAll(Opened(r, Opening(l), d), kids, d);
    ClosingTag(l, WithinAll(Opened(r, Opening(l), d), kids, d));
  }

  // ---- columns as they are written -------------------------------------------------------------

  function ListOf(l: Listener, n: PlanNode): seq<ColumnRef> {
    match l
    case Sorting => n.sortColumns
    case Defining => n.outputColumns
    case Seeking => n.seekColumns
    case Statistics => n.noStats
  }

  function WithList(l: Listener, n: PlanNode, cols: seq<ColumnRef>): PlanNode {
    match l
    case Sorting => n.(sortColumns := cols)
    case Defining => n.(outputColumns := cols)
    case Seeking => n.(seekColumns := cols)
    case Statistics => n.(noStats := cols)
  }

  predicate DistinctNames(cols: seq<ColumnRef>) {
    forall i, j :: 0 <= i < j < |cols| ==> cols[i].column != cols[j].column
  }

  lemma NewColumn(have: seq<ColumnRef>, c: ColumnRef, more: seq<ColumnRef>)
    requires DistinctNames(have + ([c] + more))
    ensures WithColumn(have, c) == have + [c]
  {
    var all := have + ([c] + more);
    forall x | x in have
      ensures x.column != c.column
    {
      var k :| 0 <= k < |have| && have[k] == x;
      assert all[k] == x && all[|have|] == c;
    }
  }

  /** Columns of distinct names all arrive, in order. */
  lemma {:induction false} DistinctArrive(have: seq<ColumnRef>, cols: seq<ColumnRef>)
    requires DistinctNames(have + cols)
    ensures Extended(have, cols) == have + cols
    decreases |cols|
  {
    hide DistinctNames, WithColumn;
    if cols == [] {
      assert have + cols == have;
    } else {
      assert cols == [cols[0]] + cols[1..];
      NewColumn(have, cols[0], cols[1..]);
      assert have + cols == have + [cols[0]] + cols[1..];
      DistinctArrive(have + [cols[0]], cols[1..]);
    }
  }

  lemma {:induction false} AllBelonging(n: PlanNode, cols: seq<ColumnRef>)
    requires forall c :: c in cols ==> Belongs(n, c)
    ensures Belonging(n, cols) == cols
    decreases |cols|
  {
    hide Belongs;
    if cols != [] {
      assert cols[0] in cols && forall c :: c in cols[1..] ==> c in cols;
      AllBelonging(n, cols[1..]);
      assert cols == [cols[0]] + cols[1..];
    }
  }

  /** A name the reader takes as it stands. */
  predicate Bare(s: string) { Unbracket(s) == s }

  predicate ColumnName(s: string) { s != "" && Bare(s) }

  predicate BareColumn(c: ColumnRef) { ColumnName(c.column) && Bare(c.table) }

  function ColumnDocs(cols: seq<ColumnRef>): seq<Doc> {
    if cols == [] then [] else [Leaf(Column(Some(cols[0].column), None, cols[0].table))] + ColumnDocs(cols[1..])
  }

  lemma WrittenColumn(sorting: bool, c: ColumnRef)
    requires BareColumn(c)
    ensures RefsOf(sorting, Column(Some(c.column), None, c.table)) == [c]
  {
    hide Unbracket;
  }

  lemma {:induction false} WrittenColumns(sorting: bool, cols: seq<ColumnRef>)
    requires forall c :: c in cols ==> BareColumn(c)
    ensures PlainAll(ColumnDocs(cols)) && RefsInAll(sorting, ColumnDocs(cols)) == cols
    decreases |cols|
  {
    hide BareColumn, RefsOf;
    if cols != [] {
      assert cols[0] in cols && forall x :: x in cols[1..] ==> x in cols;
      WrittenColumn(sorting, cols[0]);
      WrittenColumns(sorting, cols[1..]);
      assert ColumnDocs(cols)[1..] == ColumnDocs(cols[1..]);
      assert cols == [cols[0]] + cols[1..];
    }
  }

  lemma QuietAgain(l: Listener, n: PlanNode, refs: seq<ColumnRef>)
    ensures Leave(Filed(Listening(l, QUIET, n), refs), TagOf(Opening(l))) == QUIET
  {
    hide IsSort, IsLookup, CapturesObject, With, NamesOf;
  }

  /** Columns written under an element are read back into the list of the operator that
      hears it, after those already there. */
  lemma ColumnsReadBack(st: State, l: Listener, cols: seq<ColumnRef>)
    requires st.stack != [] && |st.depths| == |st.stack|
    requires Hears(l, Listening(l, st.ctx, Last(st.stack)), Last(st.stack))
    requires forall c :: c in cols ==> BareColumn(c) && (l == Seeking ==> Belongs(Last(st.stack), c))
    requires l != Statistics ==> DistinctNames(ListOf(l, Last(st.stack)) + cols)
    ensures var st' := Run(st, EventsOf(Element(Opening(l), ColumnDocs(cols))));
            && st'.stack != [] && Init(st'.stack) == Init(st.stack)
            && ListOf(l, Last(st'.stack)) == ListOf(l, Last(st.stack)) + cols
            && (st.ctx == QUIET ==> st' == st.(stack := Init(st.stack) + [Last(st'.stack)]))
            && (st.ctx == QUIET ==>
                  Last(st'.stack) == WithList(l, Announced(l, Last(st.stack), Last(st.depths) + 1),
                                              ListOf(l, Last(st.stack)) + cols))
  {
    hide Run, DistinctNames, BareColumn, Belongs, Extended, ColumnDocs, RefsInAll, PlainAll, Belonging, IsSort,
      IsLookup, CapturesObject, Filed;
    WrittenColumns(true, cols);
    WrittenColumns(false, cols);
    ListenerRead(st, l, ColumnDocs(cols));
    var n := Last(st.stack);
    var m := Announced(l, n, Last(st.depths) + 1);
    LookupByAttrs(n, m);
    QuietAgain(l, n, RefsInAll(false, ColumnDocs(cols)));
    if l != Statistics {
      DistinctArrive(ListOf(l, n), cols);
    }
    if l == Seeking {
      AllBelonging(n, cols);
      BelongingAlike(n, m, cols);
    }
  }

  // ---- the object an operator reads ------------------------------------------------------------

  function ObjectsOf(e: Elem): seq<ObjectRef> {
    if e.Object? then [ObjectRef(Unbracket(e.schema), Unbracket(e.table), Unbracket(e.index))] else []
  }

  /** The objects inside an operator but inside no nested one, in document order. */
  function ObjectsIn(doc: Doc): seq<ObjectRef>
    decreases doc
  {
    match doc
    case Words => []
    case Leaf(e) => ObjectsOf(e)
    case Element(e, kids) => if e.RelOp? then [] else ObjectsOf(e) + ObjectsInAll(kids)
  }

  function ObjectsInAll(forest: seq<Doc>): seq<ObjectRef>
    decreases forest
  {
    if forest == [] then [] else ObjectsIn(forest[0]) + ObjectsInAll(forest[1..])
  }

  function FirstNamed(os: seq<ObjectRef>): Option<ObjectRef> {
    if os == [] then None else if os[0].table != "" then Some(os[0]) else FirstNamed(os[1..])
  }

  lemma {:induction false} FirstNamedOfBoth(a: seq<ObjectRef>, b: seq<ObjectRef>)
    ensures FirstNamed(a + b) == OrElse(FirstNamed(a), FirstNamed(b))
    decreases |a|
  {
    if a == [] {
      assert a + b == b;
    } else {
      assert (a + b)[1..] == a[1..] + b;
      FirstNamedOfBoth(a[1..], b);
    }
  }

  function TargetOf(attrs: RelOpAttrs, os: seq<ObjectRef>): Option<ObjectRef> {
    if CapturesObject(attrs) then FirstNamed(os) else None
  }

  lemma TargetOfTag(attrs: RelOpAttrs, e: Elem, depth: nat)
    ensures TagFacts(attrs, e, depth).target == TargetOf(attrs, ObjectsOf(e))
    ensures CounterFacts(e).target == None && (e.RelOp? ==> ObjectsOf(e) == []) && TargetOf(attrs, []) == None
  {
    hide CapturesObject, Unbracket;
    if e.Object? {
      assert ObjectsOf(e)[1..] == [] && FirstNamed(ObjectsOf(e)[1..]) == None;
    }
  }

  lemma NoTarget(attrs: RelOpAttrs)
    ensures TargetOf(attrs, []) == None
  {
    hide CapturesObject;
  }

  lemma {:induction false} TargetIsFirst(attrs: RelOpAttrs, doc: Doc, depth: nat)
    ensures Own(attrs, doc, depth).target == TargetOf(attrs, ObjectsIn(doc))
    decreases doc, 1
  {
    hide CapturesObject, TagFacts, CounterFacts, ObjectsOf;
    match doc
    case Words => NoTarget(attrs);
    case Leaf(e) =>
      TargetOfTag(attrs, e, depth);
    case Element(e, kids) =>
      TargetOfTag(attrs, e, depth + 1);
      TargetIsFirstAll(attrs, kids, depth + 1);
      FirstNamedOfBoth(ObjectsOf(e), ObjectsInAll(kids));
  }

  lemma {:induction false} TargetIsFirstAll(attrs: RelOpAttrs, forest: seq<Doc>, depth: nat)
    ensures OwnAll(attrs, forest, depth).target == TargetOf(attrs, ObjectsInAll(forest))
    decreases forest, 0
  {
    hide CapturesObject, Own, ObjectsIn;
    if forest != [] {
      TargetIsFirst(attrs, forest[0], depth);
      TargetIsFirstAll(attrs, forest[1..], depth);
      FirstNamedOfBoth(ObjectsIn(forest[0]), ObjectsInAll(forest[1..]));
    }
  }

  /** Whatever stands in an operator, and wherever it stands: if it is of a kind that
      reads an object it keeps the one it has, or takes the first with a table that
      stands in it and in no nested operator; any other operator takes none. */
  lemma FirstObjectWins(st: State, forest: seq<Doc>)
    requires st.stack != [] && |st.depths| == |st.stack|
    ensures var st' := Run(st, EventsOfAll(forest));
            && st'.stack != []
            && ObjectOf(Last(st'.stack)) ==
               OrElse(ObjectOf(Last(st.stack)), TargetOf(TopAttrs(st), ObjectsInAll(forest)))
  {
    hide Run, CapturesObject, OwnAll, ObjectsInAll, Views, AddSome;
    ForestTold(st, forest);
    TargetIsFirstAll(TopAttrs(st), forest, Last(st.depths));
  }
}
