/**
 Missing-index suggestions: whatever columns and unknown elements a suggestion
 nests, and wherever in the plan it stands, the reader finds the suggestion its
 elements describe; a suggestion that is written comes back as it was.
 */
module PlanMissing {
  import opened Wrappers
  import opened Strings
  import opened Identifiers
  import opened PlanXml
  import opened PlanLaws
  import opened PlanTree
  import opened PlanColumns

  // ---- the part of the reader that suggestions concern --------------------------------------

  /** The modes, and the suggestions found so far. */
  datatype Found = Found(ctx: Context, infos: seq<MissingIndexInfo>)

  predicate OfIndexes(e: Elem) { e.Column? || e.Other? || e.MissingIndexGroup? || e.MissingIndex? || e.ColumnGroup? }

  predicate AboutIndexes(doc: Doc)
    decreases doc
  {
    match doc
    case Words => true
    case Leaf(e) => OfIndexes(e)
    case Element(e, kids) => OfIndexes(e) && AllAboutIndexes(kids)
  }

  predicate AllAboutIndexes(forest: seq<Doc>)
    decreases forest
  {
    forest == [] || (AboutIndexes(forest[0]) && AllAboutIndexes(forest[1..]))
  }

  function FoundClosed(f: Found, tag: Tag): Found {
    Found(Leave(f.ctx, tag),
          if tag == MissingIndexTag && f.ctx.curMissing.Some? then f.infos + [f.ctx.curMissing.value] else f.infos)
  }

  function Search(f: Found, doc: Doc): Found
    decreases doc
  {
    match doc
    case Words => f
    case Leaf(e) => f.(ctx := if e.Column? then ColumnOnMissing(f.ctx, e) else f.ctx)
    case Element(e, kids) => FoundClosed(SearchAll(f.(ctx := Enter(f.ctx, [], e)), kids), TagOf(e))
  }

  function SearchAll(f: Found, forest: seq<Doc>): Found
    decreases forest
  {
    if forest == [] then f else SearchAll(Search(f, forest[0]), forest[1..])
  }

  /** The reader inside an operator that has heard `refs` and found `f`. */
  function Holding(r: Reading, refs: Refs, f: Found): Reading {
    Reading(Heard(r.ctx, r.node, refs).(missing := f.infos), f.ctx, r.pending)
  }

  function FoundIn(r: Reading): Found { Found(r.ctx, r.node.missing) }

  lemma ColumnFound(ctx: Context, n: PlanNode, e: Elem)
    requires e.Column?
    ensures ColumnOnNode(n, ctx, e) == Heard(ctx, n, Named(e)) && ColumnOnMissing(ctx, e) == Filed(ctx, Named(e).all)
    ensures SameListeners(ctx, ColumnOnMissing(ctx, e))
  {
    hide ColumnOnNode, ColumnOnMissing, Heard, With, NamesOf, RefsOf;
    if ctx.inOrderBy {
      SortHears(ctx, n, e);
    } else {
      OthersHear(ctx, n, e);
      IndexFiles(ctx, e);
    }
  }

  lemma IndexTags(r: Reading, e: Elem, depth: nat)
    requires OfIndexes(e)
    ensures LeafRead(r, e, depth) == Holding(r, Named(e), Search(FoundIn(r), Leaf(e)))
    ensures SameListeners(r.ctx, Search(FoundIn(r), Leaf(e)).ctx)
    ensures Opened(r, e, depth) == Reading(Heard(r.ctx, r.node, Named(e)), Enter(r.ctx, [], e), r.pending)
    ensures SameListeners(r.ctx, Enter(r.ctx, [], e))
  {
    hide Unbracket, ColumnOnNode, ColumnOnMissing, Heard, Filed;
    if e.Column? {
      ColumnFound(r.ctx, r.node, e);
      HeardKeepsMissing(r.ctx, r.node, Named(e));
    } else {
      assert Named(e) == NO_REFS;
      NothingNamed(r.ctx, r.node);
    }
  }

  lemma HeardKeepsMissing(ctx: Context, n: PlanNode, refs: Refs)
    ensures Heard(ctx, n, refs).missing == n.missing
    ensures Heard(ctx, n, refs).(missing := n.missing) == Heard(ctx, n, refs)
  {
    hide Hears, Extended, Belonging;
  }

  lemma NothingFound(r: Reading)
    ensures Holding(r, NO_REFS, FoundIn(r)) == r
  {
    hide Heard;
    NothingNamed(r.ctx, r.node);
  }

  lemma IndexClosed(r: Reading, refs: Refs, f: Found, e: Elem)
    requires OfIndexes(e)
    ensures Closed(Holding(r, refs, f), TagOf(e)) == Holding(r, refs, FoundClosed(f, TagOf(e)))
    ensures SameListeners(f.ctx, FoundClosed(f, TagOf(e)).ctx)
  {
    hide Heard;
  }

  /** Hearing goes on after the suggestions found so far. */
  lemma HoldingTwice(r: Reading, q: Reading, a: Refs, b: Refs, f: Found)
    requires q.node.(missing := f.infos) == Heard(r.ctx, r.node, a).(missing := f.infos)
    requires q.pending == r.pending && SameListeners(r.ctx, q.ctx)
    ensures Holding(q, b, f) == Holding(r, Both(a, b), f)
  {
    hide Heard;
    HeardTwice(r.ctx, q.ctx, r.node, a, b);
    HeardApart(q.ctx, q.node, Heard(r.ctx, r.node, a), b, f.infos);
  }

  lemma HeardApart(ctx: Context, n: PlanNode, m: PlanNode, refs: Refs, infos: seq<MissingIndexInfo>)
    requires n.(missing := infos) == m.(missing := infos)
    ensures Heard(ctx, n, refs).(missing := infos) == Heard(ctx, m, refs).(missing := infos)
  {
    hide Extended, Belonging, IsLookup, CapturesObject;
    LookupByAttrs(n, m);
    BelongingAlike(n, m, refs.all);
  }

  lemma {:induction false} SearchedWithin(r: Reading, doc: Doc, depth: nat)
    requires AboutIndexes(doc)
    ensures Within(r, doc, depth) == Holding(r, NamedIn(doc), Search(FoundIn(r), doc))
    ensures SameListeners(r.ctx, Search(FoundIn(r), doc).ctx)
    decreases doc, 1
  {
    hide Enter, ColumnOnMissing, LeafRead, Opened, Closed, FoundClosed, Heard, RefsOf;
    match doc
    case Words => NothingFound(r);
    case Leaf(e) => IndexTags(r, e, depth);
    case Element(e, kids) =>
      var a := Opened(r, e, depth + 1);
      IndexTags(r, e, depth + 1);
      HeardKeepsMissing(r.ctx, r.node, Named(e));
      SearchedWithinAll(a, kids, depth + 1);
      var f := SearchAll(FoundIn(a), kids);
      HoldingTwice(r, a, Named(e), NamedInAll(kids), f);
      IndexClosed(r, Both(Named(e), NamedInAll(kids)), f, e);
  }

  lemma {:induction false} SearchedWithinAll(r: Reading, forest: seq<Doc>, depth: nat)
    requires AllAboutIndexes(forest)
    ensures WithinAll(r, forest, depth) == Holding(r, NamedInAll(forest), SearchAll(FoundIn(r), forest))
    ensures SameListeners(r.ctx, SearchAll(FoundIn(r), forest).ctx)
    decreases forest, 0
  {
    hide Within, Search, AboutIndexes, Heard, RefsIn;
    if forest == [] {
      NothingFound(r);
    } else {
      var a := Within(r, forest[0], depth);
      SearchedWithin(r, forest[0], depth);
      SearchedWithinAll(a, forest[1..], depth);
      HoldingTwice(r, a, NamedIn(forest[0]), NamedInAll(forest[1..]), SearchAll(FoundIn(a), forest[1..]));
    }
  }

  function FoundAround(o: Outline): Found { Found(o.ctx, o.pending.missing) }

  function HoldingAround(o: Outline, f: Found): Outline {
    Outline(o.root, f.ctx, o.pending.(missing := f.infos))
  }

  lemma {:induction false} SearchedAround(o: Outline, doc: Doc)
    requires AboutIndexes(doc)
    ensures Around(o, doc) == HoldingAround(o, Search(FoundAround(o), doc))
    decreases doc, 1
  {
    hide Enter, ColumnOnMissing, Leave;
    match doc
    case Words =>
    case Leaf(e) =>
    case Element(e, kids) => SearchedAroundAll(o.(ctx := Enter(o.ctx, [], e)), kids);
  }

  lemma {:induction false} SearchedAroundAll(o: Outline, forest: seq<Doc>)
    requires AllAboutIndexes(forest)
    ensures AroundAll(o, forest) == HoldingAround(o, SearchAll(FoundAround(o), forest))
    decreases forest, 0
  {
    hide Around, Search, AboutIndexes;
    if forest != [] {
      SearchedAround(o, forest[0]);
      SearchedAroundAll(Around(o, forest[0]), forest[1..]);
    }
  }

  // ---- what suggestions describe -----------------------------------------------------------------

  /** A missing index takes columns unless a sort or a statistics warning does. */
  predicate Takes(ctx: Context) { !ctx.inOrderBy && !ctx.inNoStats }

  function WithSome(takes: bool, mi: MissingIndexInfo, usage: Option<string>, refs: seq<ColumnRef>): MissingIndexInfo {
    if !takes || usage == None then mi else With(mi, usage.value, NamesOf(refs))
  }

  /** Text may stand anywhere. */
  predicate Group(doc: Doc) { doc.Words? || (doc.Element? && doc.e.ColumnGroup? && PlainAll(doc.kids)) }

  function WithGroup(takes: bool, mi: MissingIndexInfo, doc: Doc): MissingIndexInfo
    requires Group(doc)
  {
    if doc.Words? then mi else WithSome(takes, mi, doc.e.usage, RefsInAll(false, doc.kids))
  }

  function WithGroups(takes: bool, mi: MissingIndexInfo, groups: seq<Doc>): MissingIndexInfo
    requires forall g :: g in groups ==> Group(g)
    decreases |groups|
  {
    if groups == [] then mi
    else
      assert groups[0] in groups && forall g :: g in groups[1..] ==> g in groups;
      WithGroups(takes, WithGroup(takes, mi, groups[0]), groups[1..])
  }

  /** One index under a group of the given impact. */
  predicate Index(doc: Doc) {
    doc.Words? || (doc.Element? && doc.e.MissingIndex? && forall g :: g in doc.kids ==> Group(g))
  }

  function Unfilled(impact: real, e: Elem): MissingIndexInfo
    requires e.MissingIndex?
  {
    MissingIndexInfo(impact, Unbracket(e.database), Unbracket(e.schema), Unbracket(e.table), [], [], [])
  }

  function InfoOf(takes: bool, impact: real, doc: Doc): seq<MissingIndexInfo>
    requires Index(doc)
  {
    if doc.Words? then [] else [WithGroups(takes, Unfilled(impact, doc.e), doc.kids)]
  }

  function InfosOf(takes: bool, impact: real, indexes: seq<Doc>): seq<MissingIndexInfo>
    requires forall x :: x in indexes ==> Index(x)
    decreases |indexes|
  {
    if indexes == [] then []
    else
      assert indexes[0] in indexes && Index(indexes[0]) && forall x :: x in indexes[1..] ==> x in indexes;
      InfoOf(takes, impact, indexes[0]) + InfosOf(takes, impact, indexes[1..])
  }

  /** What the engine writes: indexes grouped by impact. */
  predicate Block(doc: Doc) {
    doc.Words? || (doc.Element? && doc.e.MissingIndexGroup? && forall x :: x in doc.kids ==> Index(x))
  }

  function BlockInfos(takes: bool, doc: Doc): seq<MissingIndexInfo>
    requires Block(doc)
  {
    if doc.Words? then [] else InfosOf(takes, doc.e.impact, doc.kids)
  }

  function InfosIn(takes: bool, blocks: seq<Doc>): seq<MissingIndexInfo>
    requires forall b :: b in blocks ==> Block(b)
    decreases |blocks|
  {
    if blocks == [] then []
    else
      assert blocks[0] in blocks && Block(blocks[0]) && forall b :: b in blocks[1..] ==> b in blocks;
      BlockInfos(takes, blocks[0]) + InfosIn(takes, blocks[1..])
  }

  // ---- and what is found -----------------------------------------------------------------------------

  lemma SearchedStep(f: Found, forest: seq<Doc>)
    ensures SearchAll(f, forest) == if forest == [] then f else SearchAll(Search(f, forest[0]), forest[1..])
  {
    hide Search;
  }

  /** A column or unknown element files at most one column. */
  lemma ElementFiled(ctx: Context, e: Elem)
    requires e.Column? || e.Other?
    ensures Enter(ctx, [], e) == Filed(ctx, RefsOf(false, e))
    ensures (if e.Column? then ColumnOnMissing(ctx, e) else ctx) == Filed(ctx, RefsOf(false, e))
  {
    hide ColumnOnMissing, Filed, Unbracket;
    var n := NewNode(RelOpAttrs("", "", 0.0, 0.0, 0.0, 0.0, 0, 0.0));
    if e.Column? {
      ColumnFound(ctx, n, e);
    } else {
      assert RefsOf(false, e) == [];
      NothingNamed(ctx, n);
    }
  }

  lemma PlainFoundClosed(f: Found, e: Elem)
    requires e.Column? || e.Other?
    ensures FoundClosed(f, TagOf(e)) == f
  {
  }

  lemma NothingFiled(ctx: Context)
    ensures Filed(ctx, []) == ctx
  {
    hide Filed;
    NothingNamed(ctx, NewNode(RelOpAttrs("", "", 0.0, 0.0, 0.0, 0.0, 0, 0.0)));
  }

  lemma {:induction false} PlainFiled(f: Found, doc: Doc)
    requires Plain(doc)
    ensures Search(f, doc) == Found(Filed(f.ctx, RefsIn(false, doc)), f.infos)
    decreases doc, 1
  {
    hide Enter, ColumnOnMissing, FoundClosed, RefsOf, Filed;
    match doc
    case Words => NothingFiled(f.ctx);
    case Leaf(e) => ElementFiled(f.ctx, e);
    case Element(e, kids) =>
      var a := f.(ctx := Filed(f.ctx, RefsOf(false, e)));
      ElementFiled(f.ctx, e);
      PlainFiledAll(a, kids);
      FiledTwice(f.ctx, RefsOf(false, e), RefsInAll(false, kids));
      PlainFoundClosed(SearchAll(a, kids), e);
  }

  lemma {:induction false} PlainFiledAll(f: Found, forest: seq<Doc>)
    requires PlainAll(forest)
    ensures SearchAll(f, forest) == Found(Filed(f.ctx, RefsInAll(false, forest)), f.infos)
    decreases forest, 0
  {
    hide Search, RefsIn, Filed;
    if forest == [] {
      NothingFiled(f.ctx);
    } else {
      PlainFiled(f, forest[0]);
      PlainFiledAll(Search(f, forest[0]), forest[1..]);
      FiledTwice(f.ctx, RefsIn(false, forest[0]), RefsInAll(false, forest[1..]));
    }
  }

  /** No suggestion is being read; any other mode may be on. */
  predicate Free(ctx: Context) { ctx.curMissing == None && ctx.curUsage == None && ctx.groupImpact == 0.0 }

  function Filing(base: Context, impact: real, mi: MissingIndexInfo): Context {
    base.(curMissing := Some(mi), groupImpact := impact)
  }

  lemma GroupFound(base: Context, impact: real, mi: MissingIndexInfo, infos: seq<MissingIndexInfo>, g: Doc)
    requires Free(base) && Group(g)
    ensures Search(Found(Filing(base, impact, mi), infos), g) ==
            Found(Filing(base, impact, WithGroup(Takes(base), mi, g)), infos)
  {
    hide SearchAll, RefsInAll, NamesOf, With;
    if !g.Words? {
      PlainFiledAll(Found(Filing(base, impact, mi).(curUsage := g.e.usage), infos), g.kids);
    }
  }

  lemma {:induction false} GroupsFound(base: Context, impact: real, mi: MissingIndexInfo, infos: seq<MissingIndexInfo>,
                                       groups: seq<Doc>)
    requires Free(base) && forall g :: g in groups ==> Group(g)
    ensures SearchAll(Found(Filing(base, impact, mi), infos), groups) ==
            Found(Filing(base, impact, WithGroups(Takes(base), mi, groups)), infos)
    decreases |groups|
  {
    hide WithGroup, Search, SearchAll, Filing, Takes, Group;
    SearchedStep(Found(Filing(base, impact, mi), infos), groups);
    if groups != [] {
      var g := groups[0];
      assert g in groups && forall x :: x in groups[1..] ==> x in groups;
      GroupFound(base, impact, mi, infos, g);
      GroupsFound(base, impact, WithGroup(Takes(base), mi, g), infos, groups[1..]);
    }
  }

  lemma IndexFound(base: Context, impact: real, infos: seq<MissingIndexInfo>, x: Doc)
    requires Free(base) && Index(x)
    ensures Search(Found(base.(groupImpact := impact), infos), x) ==
            Found(base.(groupImpact := impact), infos + InfoOf(Takes(base), impact, x))
  {
    hide SearchAll, WithGroups, Unbracket, Group, Takes;
    if x.Words? {
      assert infos + [] == infos;
    } else {
      GroupsFound(base, impact, Unfilled(impact, x.e), infos, x.kids);
    }
  }

  lemma {:induction false} IndexesFound(base: Context, impact: real, infos: seq<MissingIndexInfo>, indexes: seq<Doc>)
    requires Free(base) && forall x :: x in indexes ==> Index(x)
    ensures SearchAll(Found(base.(groupImpact := impact), infos), indexes) ==
            Found(base.(groupImpact := impact), infos + InfosOf(Takes(base), impact, indexes))
    decreases |indexes|
  {
    hide SearchAll, Search, InfoOf, Index, Takes;
    SearchedStep(Found(base.(groupImpact := impact), infos), indexes);
    if indexes == [] {
      assert infos + [] == infos;
    } else {
      var x := indexes[0];
      assert x in indexes && forall y :: y in indexes[1..] ==> y in indexes;
      IndexFound(base, impact, infos, x);
      var first, more := InfoOf(Takes(base), impact, x), InfosOf(Takes(base), impact, indexes[1..]);
      IndexesFound(base, impact, infos + first, indexes[1..]);
      assert infos + first + more == infos + (first + more);
    }
  }

  lemma BlockFound(base: Context, infos: seq<MissingIndexInfo>, b: Doc)
    requires Free(base) && Block(b)
    ensures Search(Found(base, infos), b) == Found(base, infos + BlockInfos(Takes(base), b))
  {
    hide SearchAll, InfosOf, Index, Takes;
    if b.Words? {
      assert infos + [] == infos;
    } else {
      IndexesFound(base, b.e.impact, infos, b.kids);
    }
  }

  lemma {:induction false} BlocksFound(base: Context, infos: seq<MissingIndexInfo>, blocks: seq<Doc>)
    requires Free(base) && forall b :: b in blocks ==> Block(b)
    ensures SearchAll(Found(base, infos), blocks) == Found(base, infos + InfosIn(Takes(base), blocks))
    decreases |blocks|
  {
    hide SearchAll, Search, BlockInfos, Block, Takes, Free;
    SearchedStep(Found(base, infos), blocks);
    if blocks == [] {
      assert infos + [] == infos;
    } else {
      var b := blocks[0];
      assert b in blocks && forall y :: y in blocks[1..] ==> y in blocks;
      BlockFound(base, infos, b);
      var first, more := BlockInfos(Takes(base), b), InfosIn(Takes(base), blocks[1..]);
      BlocksFound(base, infos + first, blocks[1..]);
      assert infos + first + more == infos + (first + more);
    }
  }

  // ---- every part of a block is about indexes --------------------------------------------------

  lemma {:induction false} PlainAboutIndexes(doc: Doc)
    requires Plain(doc)
    ensures AboutIndexes(doc)
    decreases doc, 1
  {
    match doc
    case Words =>
    case Leaf(_) =>
    case Element(_, kids) => AllPlainAboutIndexes(kids);
  }

  lemma {:induction false} AllPlainAboutIndexes(forest: seq<Doc>)
    requires PlainAll(forest)
    ensures AllAboutIndexes(forest)
    decreases forest, 0
  {
    if forest != [] {
      PlainAboutIndexes(forest[0]);
      AllPlainAboutIndexes(forest[1..]);
    }
  }

  lemma {:induction false} EachAboutIndexes(forest: seq<Doc>)
    requires forall d :: d in forest ==> AboutIndexes(d)
    ensures AllAboutIndexes(forest)
    decreases |forest|
  {
    hide AboutIndexes;
    if forest != [] {
      assert forest[0] in forest && forall d :: d in forest[1..] ==> d in forest;
      EachAboutIndexes(forest[1..]);
    }
  }

  lemma BlocksAboutIndexes(blocks: seq<Doc>)
    requires forall b :: b in blocks ==> Block(b)
    ensures AllAboutIndexes(blocks)
  {
    forall b | b in blocks
      ensures AboutIndexes(b)
    {
      if b.Element? {
        forall x | x in b.kids
          ensures AboutIndexes(x)
        {
          IndexAboutIndexes(x);
        }
        EachAboutIndexes(b.kids);
      }
    }
    EachAboutIndexes(blocks);
  }

  lemma IndexAboutIndexes(x: Doc)
    requires Index(x)
    ensures AboutIndexes(x)
  {
    if x.Element? {
      forall g | g in x.kids
        ensures AboutIndexes(g)
      {
        if g.Element? {
          AllPlainAboutIndexes(g.kids);
        }
      }
      EachAboutIndexes(x.kids);
    }
  }

  /** `st` with suggestions added where it stands: to the innermost operator, which also
      hears their columns if it listens, or to the query-level facts outside every
      operator. */
  function Suggesting(st: State, refs: Refs, mis: seq<MissingIndexInfo>): State {
    if st.stack == [] then st.(pending := st.pending.(missing := st.pending.missing + mis))
    else
      var top := Last(st.stack);
      st.(stack := Init(st.stack) + [Heard(st.ctx, top, refs).(missing := top.missing + mis)])
  }

  /** Wherever missing-index blocks stand outside one another, and under whatever other
      modes, the reader finds the suggestions they describe, in document order, and
      nothing else changes but for lists that listen. */
  lemma MissingIndexesRead(st: State, blocks: seq<Doc>)
    requires |st.depths| == |st.stack| && Free(st.ctx) && forall b :: b in blocks ==> Block(b)
    ensures Run(st, EventsOfAll(blocks)) == Suggesting(st, NamedInAll(blocks), InfosIn(Takes(st.ctx), blocks))
    ensures st.ctx == QUIET ==> Run(st, EventsOfAll(blocks)) == Suggesting(st, NO_REFS, InfosIn(true, blocks))
  {
    hide Run, SearchAll, InfosIn, WithinAll, AroundAll, Block, Heard, NamedInAll, Free;
    BlocksAboutIndexes(blocks);
    if st.stack == [] {
      MachineSurveysAll(st, blocks);
      SearchedAroundAll(OutlineOf(st), blocks);
      BlocksFound(st.ctx, st.pending.missing, blocks);
    } else {
      var top := Last(st.stack);
      MachineDescendsAll(st, blocks);
      SearchedWithinAll(ReadingOf(st), blocks, Last(st.depths));
      BlocksFound(st.ctx, top.missing, blocks);
      NobodyListens(top, NamedInAll(blocks));
    }
  }

  lemma NobodyListens(n: PlanNode, refs: Refs)
    ensures Heard(QUIET, n, refs) == n == Heard(QUIET, n, NO_REFS)
  {
    hide Extended, Belonging;
  }

  // ---- suggestions as they are written -----------------------------------------------------------

  function NameDocs(cols: seq<string>): seq<Doc> {
    if cols == [] then [] else [Leaf(Column(None, Some(cols[0]), ""))] + NameDocs(cols[1..])
  }

  function UsageDoc(usage: string, cols: seq<string>): Doc { Element(ColumnGroup(Some(usage)), NameDocs(cols)) }

  /** One suggestion as the engine writes it into the plan. */
  function IndexDoc(mi: MissingIndexInfo): Doc {
    Element(MissingIndexGroup(mi.impact),
            [Element(MissingIndex(mi.database, mi.schema, mi.table),
                     [UsageDoc("EQUALITY", mi.equality), UsageDoc("INEQUALITY", mi.inequality),
                      UsageDoc("INCLUDE", mi.included)])])
  }

  function IndexDocs(mis: seq<MissingIndexInfo>): seq<Doc> {
    if mis == [] then [] else [IndexDoc(mis[0])] + IndexDocs(mis[1..])
  }

  ghost predicate Readable(mi: MissingIndexInfo) {
    && Bare(mi.database) && Bare(mi.schema) && Bare(mi.table)
    && (forall c :: c in mi.equality ==> ColumnName(c))
    && (forall c :: c in mi.inequality ==> ColumnName(c))
    && (forall c :: c in mi.included ==> ColumnName(c))
  }

  lemma NameWritten(c: string)
    requires ColumnName(c)
    ensures |RefsOf(false, Column(None, Some(c), ""))| == 1 && RefsOf(false, Column(None, Some(c), ""))[0].column == c
  {
    hide Unbracket;
  }

  lemma {:induction false} NamesWritten(cols: seq<string>)
    requires forall c :: c in cols ==> ColumnName(c)
    ensures PlainAll(NameDocs(cols)) && NamesOf(RefsInAll(false, NameDocs(cols))) == cols
    decreases |cols|
  {
    hide ColumnName, RefsOf;
    if cols != [] {
      assert cols[0] in cols && forall c :: c in cols[1..] ==> c in cols;
      NameWritten(cols[0]);
      NamesWritten(cols[1..]);
      var own := RefsOf(false, Column(None, Some(cols[0]), ""));
      assert own[1..] == [] && NamesOf(own[1..]) == [] && NamesOf(own) == [cols[0]];
      NamesOfBoth(own, RefsInAll(false, NameDocs(cols[1..])));
      assert NameDocs(cols)[1..] == NameDocs(cols[1..]) && cols == [cols[0]] + cols[1..];
    }
  }

  lemma UsagesAsWritten()
    ensures Upper(Trim("EQUALITY")) == "EQUALITY" && Upper(Trim("INEQUALITY")) == "INEQUALITY"
    ensures Upper(Trim("INCLUDE")) == "INCLUDE"
  {
    TrimBothOfTrimmed("EQUALITY", IsWhite);
    TrimBothOfTrimmed("INEQUALITY", IsWhite);
    TrimBothOfTrimmed("INCLUDE", IsWhite);
  }

  lemma GroupsWritten(mi: MissingIndexInfo, groups: seq<Doc>, from: MissingIndexInfo)
    requires Readable(mi) && groups == IndexDoc(mi).kids[0].kids
    requires from == mi.(equality := [], inequality := [], included := [])
    ensures (forall g :: g in groups ==> Group(g)) && WithGroups(true, from, groups) == mi
  {
    hide Upper, Trim, ColumnName, Bare, RefsInAll, NamesOf, PlainAll, NameDocs;
    NamesWritten(mi.equality);
    NamesWritten(mi.inequality);
    NamesWritten(mi.included);
    UsagesAsWritten();
    var a := WithGroup(true, from, groups[0]);
    var b := WithGroup(true, a, groups[1]);
    assert [] + mi.equality == mi.equality && [] + mi.inequality == mi.inequality && [] + mi.included == mi.included;
    assert WithGroup(true, b, groups[2]) == mi;
    assert groups[1..][1..][1..] == [];
    assert WithGroups(true, mi, groups[1..][1..][1..]) == mi;
    assert WithGroups(true, b, groups[1..][1..]) == mi;
    assert WithGroups(true, a, groups[1..]) == mi;
  }

  lemma SuggestionWritten(mi: MissingIndexInfo)
    requires Readable(mi)
    ensures Block(IndexDoc(mi)) && InfosOf(true, mi.impact, IndexDoc(mi).kids) == [mi]
  {
    hide UsageDoc, WithGroups, Group, Unbracket;
    var x := IndexDoc(mi).kids[0];
    GroupsWritten(mi, x.kids, Unfilled(mi.impact, x.e));
    assert IndexDoc(mi).kids[1..] == [];
  }

  lemma {:induction false} SuggestionsWritten(mis: seq<MissingIndexInfo>)
    requires forall mi :: mi in mis ==> Readable(mi)
    ensures (forall b :: b in IndexDocs(mis) ==> Block(b)) && InfosIn(true, IndexDocs(mis)) == mis
    decreases |mis|
  {
    hide Readable, Block, IndexDoc, InfosOf;
    if mis != [] {
      assert mis[0] in mis && forall mi :: mi in mis[1..] ==> mi in mis;
      SuggestionWritten(mis[0]);
      SuggestionsWritten(mis[1..]);
      ImpactWritten(mis[0]);
      assert IndexDocs(mis)[1..] == IndexDocs(mis[1..]) && mis == [mis[0]] + mis[1..];
    }
  }

  lemma ImpactWritten(mi: MissingIndexInfo)
    ensures IndexDoc(mi).Element? && IndexDoc(mi).e == MissingIndexGroup(mi.impact)
  {
  }

  /** Suggestions that are written are read back, in order, with their impacts and
      their three column lists, at query level and inside any operator. */
  lemma MissingIndexesReadBack(st: State, mis: seq<MissingIndexInfo>)
    requires |st.depths| == |st.stack| && Free(st.ctx) && Takes(st.ctx) && forall mi :: mi in mis ==> Readable(mi)
    ensures Run(st, EventsOfAll(IndexDocs(mis))) == Suggesting(st, NamedInAll(IndexDocs(mis)), mis)
    ensures st.ctx == QUIET ==> Run(st, EventsOfAll(IndexDocs(mis))) == Suggesting(st, NO_REFS, mis)
  {
    hide Run, Readable, Block, IndexDocs, InfosIn, Suggesting, NamedInAll;
    SuggestionsWritten(mis);
    MissingIndexesRead(st, IndexDocs(mis));
  }
}
