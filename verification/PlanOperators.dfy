/**
 The operator tree in terms of the document: which elements, standing where, give
 an operator its residual and seek predicates, its counters, its warnings and the
 operators below it.
 */
module PlanOperators {
  import opened Wrappers
  import opened Strings
  import opened Identifiers
  import opened PlanXml
  import opened PlanLaws
  import opened PlanColumns

  // ---- positions in a document -------------------------------------------------------------

  function Under(doc: Doc): seq<Doc> { if doc.Element? then doc.kids else [] }

  predicate IsOperator(doc: Doc) { !doc.Words? && doc.e.RelOp? }

  /** The outermost operators, in document order. */
  function OperatorsIn(doc: Doc): seq<Doc>
    decreases doc
  {
    match doc
    case Words => []
    case Leaf(e) => if e.RelOp? then [doc] else []
    case Element(e, kids) => if e.RelOp? then [doc] else OperatorsInAll(kids)
  }

  function OperatorsInAll(forest: seq<Doc>): seq<Doc>
    decreases forest
  {
    if forest == [] then [] else OperatorsIn(forest[0]) + OperatorsInAll(forest[1..])
  }

  /** The two elements whose presence marks an operator. */
  datatype Mark = Residual | Seek

  predicate Marks(m: Mark, e: Elem) { match m case Residual => e.Predicate? case Seek => e.SeekPredicates? }

  predicate PairedMark(m: Mark, doc: Doc) { doc.Element? && Marks(m, doc.e) }

  predicate LoneMark(m: Mark, doc: Doc) { doc.Leaf? && Marks(m, doc.e) }

  /** An element around others that is no operator. */
  predicate Wraps(doc: Doc) { doc.Element? && !doc.e.RelOp? }

  /** Directly in an operator that holds `kids`, or one element deeper. */
  ghost predicate PairedNear(m: Mark, kids: seq<Doc>) {
    || (exists x :: x in kids && PairedMark(m, x))
    || (exists x, y :: x in kids && Wraps(x) && y in x.kids && PairedMark(m, y))
  }

  /** A self-closing mark counts from one element deep to two. */
  ghost predicate LoneNear(m: Mark, kids: seq<Doc>) {
    || (exists x, y :: x in kids && Wraps(x) && y in x.kids && LoneMark(m, y))
    || (exists x, y, z :: x in kids && Wraps(x) && y in x.kids && Wraps(y) && z in y.kids && LoneMark(m, z))
  }

  /** Counters of self-closing RunTimeCounters elements outside nested operators. */
  function CountsIn(executions: bool, doc: Doc): seq<real>
    decreases doc
  {
    match doc
    case Words => []
    case Leaf(e) =>
      if !e.RunTimeCounters? then []
      else ToSeq(if executions then e.actualExecutions else e.actualRows)
    case Element(e, kids) => if e.RelOp? then [] else CountsInAll(executions, kids)
  }

  function CountsInAll(executions: bool, forest: seq<Doc>): seq<real>
    decreases forest
  {
    if forest == [] then [] else CountsIn(executions, forest[0]) + CountsInAll(executions, forest[1..])
  }

  function Sum(xs: seq<real>): real { if xs == [] then 0.0 else xs[0] + Sum(xs[1..]) }

  function Total(xs: seq<real>): Option<real> { if xs == [] then None else Some(Sum(xs)) }

  function WarningOf(e: Elem): seq<string> {
    match e
    case MemoryGrantWarning(_) => ["MemoryGrantWarning"]
    case ColumnsWithNoStatistics => ["ColumnsWithNoStatistics"]
    case PlanAffectingConvert(_) => ["PlanAffectingConvert"]
    case OtherWarning(name) => [name]
    case _ => []
  }

  /** Warnings outside nested operators, in document order. */
  function WarningsIn(doc: Doc): seq<string>
    decreases doc
  {
    match doc
    case Words => []
    case Leaf(e) => WarningOf(e)
    case Element(e, kids) => if e.RelOp? then [] else WarningOf(e) + WarningsInAll(kids)
  }

  function WarningsInAll(forest: seq<Doc>): seq<string>
    decreases forest
  {
    if forest == [] then [] else WarningsIn(forest[0]) + WarningsInAll(forest[1..])
  }

  /** Operator `n` of a plan is operator element `doc` of the document, and so on below. */
  ghost predicate Fits(n: PlanNode, doc: Doc)
    decreases n
  {
    && IsOperator(doc) && n.attrs == doc.e.attrs
    && (n.hasResidual <==> PairedNear(Residual, Under(doc)) || LoneNear(Residual, Under(doc)))
    && (n.hasSeek <==> PairedNear(Seek, Under(doc)) || LoneNear(Seek, Under(doc)))
    && n.actualRows == Total(CountsInAll(false, Under(doc)))
    && n.actualExecutions == Total(CountsInAll(true, Under(doc)))
    && var below := OperatorsInAll(Under(doc));
       && |n.children| == |below|
       && forall k :: 0 <= k < |below| ==>
            Fits(n.children[k], below[k]) && n.children[k].warnings == WarningsInAll(Under(below[k]))
  }

  // ---- marks ---------------------------------------------------------------------------------

  function Flag(m: Mark, f: Facts): bool { match m case Residual => f.residual case Seek => f.seek }

  lemma {:induction false} FlagOfAll(m: Mark, attrs: RelOpAttrs, forest: seq<Doc>, depth: nat)
    ensures Flag(m, OwnAll(attrs, forest, depth)) <==> exists x :: x in forest && Flag(m, Own(attrs, x, depth))
    decreases |forest|
  {
    hide Own;
    if forest != [] {
      FlagOfAll(m, attrs, forest[1..], depth);
      assert forest == [forest[0]] + forest[1..];
      assert forest[0] in forest && forall x :: x in forest <==> x == forest[0] || x in forest[1..];
    }
  }

  lemma FlagOfTag(m: Mark, attrs: RelOpAttrs, e: Elem, depth: nat)
    ensures Flag(m, TagFacts(attrs, e, depth)) <==> Marks(m, e) && (depth == 1 || depth == 2)
    ensures !Flag(m, CounterFacts(e)) && !Flag(m, NO_FACTS)
  {
    hide ObjectIn;
  }

  /** One document, from the flags of its kids. */
  lemma FlagOfDoc(m: Mark, attrs: RelOpAttrs, doc: Doc, depth: nat)
    ensures LoneMark(m, doc) ==> (Flag(m, Own(attrs, doc, depth)) <==> depth == 1 || depth == 2)
    ensures Flag(m, Own(attrs, doc, depth)) <==>
            || (LoneMark(m, doc) && (depth == 1 || depth == 2))
            || (PairedMark(m, doc) && (depth == 0 || depth == 1))
            || (Wraps(doc) && Flag(m, OwnAll(attrs, doc.kids, depth + 1)))
  {
    hide TagFacts, CounterFacts, OwnAll, Marks;
    MarkIsNoOperator(m);
    if !doc.Words? {
      FlagOfTag(m, attrs, doc.e, depth);
      FlagOfTag(m, attrs, doc.e, depth + 1);
    }
  }

  lemma MarkIsNoOperator(m: Mark)
    ensures forall e: Elem :: Marks(m, e) ==> !e.RelOp?
  {
  }

  lemma {:induction false} DeepFlag(m: Mark, attrs: RelOpAttrs, doc: Doc, depth: nat)
    requires depth >= 3
    ensures !Flag(m, Own(attrs, doc, depth))
    decreases doc, 1
  {
    hide Own, OwnAll;
    FlagOfDoc(m, attrs, doc, depth);
    if Wraps(doc) {
      DeepFlags(m, attrs, doc.kids, depth + 1);
    }
  }

  lemma {:induction false} DeepFlags(m: Mark, attrs: RelOpAttrs, forest: seq<Doc>, depth: nat)
    requires depth >= 3
    ensures !Flag(m, OwnAll(attrs, forest, depth))
    decreases forest, 0
  {
    hide Own, OwnAll;
    FlagOfAll(m, attrs, forest, depth);
    forall x | x in forest
      ensures !Flag(m, Own(attrs, x, depth))
    {
      DeepFlag(m, attrs, x, depth);
    }
  }

  lemma SecondFlags(m: Mark, attrs: RelOpAttrs, forest: seq<Doc>)
    ensures Flag(m, OwnAll(attrs, forest, 2)) <==> exists x :: x in forest && LoneMark(m, x)
  {
    hide Own, OwnAll, LoneMark, PairedMark;
    FlagOfAll(m, attrs, forest, 2);
    forall x | x in forest
      ensures Flag(m, Own(attrs, x, 2)) <==> LoneMark(m, x)
    {
      FlagOfDoc(m, attrs, x, 2);
      if Wraps(x) {
        DeepFlags(m, attrs, x.kids, 3);
      }
    }
  }

  lemma FirstFlags(m: Mark, attrs: RelOpAttrs, forest: seq<Doc>)
    ensures Flag(m, OwnAll(attrs, forest, 1)) <==>
            || (exists x :: x in forest && (LoneMark(m, x) || PairedMark(m, x)))
            || (exists x, y :: x in forest && Wraps(x) && y in x.kids && LoneMark(m, y))
  {
    hide Own, OwnAll, LoneMark, PairedMark;
    FlagOfAll(m, attrs, forest, 1);
    forall x | x in forest
      ensures Flag(m, Own(attrs, x, 1)) <==>
              || LoneMark(m, x) || PairedMark(m, x)
              || (Wraps(x) && exists y :: y in x.kids && LoneMark(m, y))
    {
      FlagOfDoc(m, attrs, x, 1);
      if Wraps(x) {
        SecondFlags(m, attrs, x.kids);
      }
    }
  }

  /** What the elements of an operator say is decided by where its marks stand. */
  lemma MarkedByPosition(m: Mark, attrs: RelOpAttrs, kids: seq<Doc>)
    ensures Flag(m, OwnAll(attrs, kids, 0)) <==> PairedNear(m, kids) || LoneNear(m, kids)
  {
    hide Own, OwnAll, LoneMark, PairedMark;
    FlagOfAll(m, attrs, kids, 0);
    forall x | x in kids
      ensures Flag(m, Own(attrs, x, 0)) <==>
              || PairedMark(m, x)
              || (Wraps(x) && exists y :: y in x.kids && (LoneMark(m, y) || PairedMark(m, y)))
              || (Wraps(x) && exists y, z :: y in x.kids && Wraps(y) && z in y.kids && LoneMark(m, z))
    {
      FlagOfDoc(m, attrs, x, 0);
      if Wraps(x) {
        FirstFlags(m, attrs, x.kids);
      }
    }
  }

  // ---- counters and warnings ---------------------------------------------------------------------

  lemma {:induction false} SumOfBoth(a: seq<real>, b: seq<real>)
    ensures Sum(a + b) == Sum(a) + Sum(b)
    decreases |a|
  {
    if a == [] {
      assert a + b == b;
    } else {
      assert (a + b)[1..] == a[1..] + b;
      SumOfBoth(a[1..], b);
    }
  }

  lemma TotalOfBoth(a: seq<real>, b: seq<real>)
    ensures AddSome(Total(a), Total(b)) == Total(a + b)
  {
    SumOfBoth(a, b);
    if a == [] {
      assert a + b == b;
    }
    if b == [] {
      assert a + b == a;
    }
  }

  lemma TotalOfOne(x: Option<real>)
    ensures Total(ToSeq(x)) == AddSome(None, x)
  {
    if x.Some? {
      assert [x.value][1..] == [];
      assert Sum([x.value]) == x.value + Sum([]);
    }
  }

  function Counted(executions: bool, f: Facts): Option<real> { if executions then f.executions else f.rows }

  lemma CountsOfTag(executions: bool, attrs: RelOpAttrs, e: Elem, depth: nat)
    ensures Counted(executions, TagFacts(attrs, e, depth)) == None == Total([])
    ensures !e.RelOp? ==> Counted(executions, CounterFacts(e)) == Total(CountsIn(executions, Leaf(e)))
  {
    hide ObjectIn, AddSome, Total;
    TotalOfOne(None);
    NothingAdded(None);
    if e.RunTimeCounters? {
      TotalOfOne(if executions then e.actualExecutions else e.actualRows);
    }
  }

  lemma {:induction false} CountsOwned(executions: bool, attrs: RelOpAttrs, doc: Doc, depth: nat)
    ensures Counted(executions, Own(attrs, doc, depth)) == Total(CountsIn(executions, doc))
    decreases doc, 1
  {
    hide TagFacts, CounterFacts, AddSome, Total;
    match doc
    case Words => CountsOfTag(executions, attrs, OrderBy, depth);
    case Leaf(e) =>
      CountsOfTag(executions, attrs, e, depth);
      TotalOfBoth([], CountsIn(executions, doc));
      assert [] + CountsIn(executions, doc) == CountsIn(executions, doc);
    case Element(e, kids) =>
      CountsOfTag(executions, attrs, e, depth + 1);
      CountsOwnedAll(executions, attrs, kids, depth + 1);
      TotalOfBoth([], CountsInAll(executions, kids));
      assert [] + CountsInAll(executions, kids) == CountsInAll(executions, kids);
  }

  lemma {:induction false} CountsOwnedAll(executions: bool, attrs: RelOpAttrs, forest: seq<Doc>, depth: nat)
    ensures Counted(executions, OwnAll(attrs, forest, depth)) == Total(CountsInAll(executions, forest))
    decreases forest, 0
  {
    hide Own, CountsIn, AddSome;
    if forest != [] {
      CountsOwned(executions, attrs, forest[0], depth);
      CountsOwnedAll(executions, attrs, forest[1..], depth);
      TotalOfBoth(CountsIn(executions, forest[0]), CountsInAll(executions, forest[1..]));
    }
  }

  lemma WarningsOfTag(attrs: RelOpAttrs, e: Elem, depth: nat)
    ensures TagFacts(attrs, e, depth).warnings == WarningOf(e) && CounterFacts(e).warnings == []
  {
    hide ObjectIn;
  }

  lemma {:induction false} WarningsOwned(attrs: RelOpAttrs, doc: Doc, depth: nat)
    ensures Own(attrs, doc, depth).warnings == WarningsIn(doc)
    decreases doc, 1
  {
    hide TagFacts, CounterFacts, WarningOf;
    match doc
    case Words =>
    case Leaf(e) =>
      WarningsOfTag(attrs, e, depth);
      assert WarningOf(e) + [] == WarningOf(e);
      OperatorWarnsNothing(e);
    case Element(e, kids) =>
      WarningsOfTag(attrs, e, depth + 1);
      WarningsOwnedAll(attrs, kids, depth + 1);
  }

  lemma OperatorWarnsNothing(e: Elem)
    ensures e.RelOp? ==> WarningOf(e) == []
  {
  }

  lemma {:induction false} WarningsOwnedAll(attrs: RelOpAttrs, forest: seq<Doc>, depth: nat)
    ensures OwnAll(attrs, forest, depth).warnings == WarningsInAll(forest)
    decreases forest, 0
  {
    hide Own, WarningsIn;
    if forest != [] {
      WarningsOwned(attrs, forest[0], depth);
      WarningsOwnedAll(attrs, forest[1..], depth);
    }
  }

  // ---- the tree -------------------------------------------------------------------------------------

  /** What the elements of an operator say about it. */
  function Denoted(doc: Doc): Operator
    requires IsOperator(doc)
  {
    Operator(doc.e.attrs, OwnAll(doc.e.attrs, Under(doc), 0))
  }

  ghost predicate AllDenoted(ops: seq<Operator>, docs: seq<Doc>) {
    |ops| == |docs| && forall k :: 0 <= k < |docs| ==> IsOperator(docs[k]) && ops[k] == Denoted(docs[k])
  }

  lemma DenotedBoth(a: seq<Operator>, b: seq<Operator>, x: seq<Doc>, y: seq<Doc>)
    requires AllDenoted(a, x) && AllDenoted(b, y)
    ensures AllDenoted(a + b, x + y)
  {
    hide Denoted;
  }

  lemma OperatorDenoted(e: Elem, doc: Doc)
    requires e.RelOp? && ((doc.Leaf? || doc.Element?) && doc.e == e)
    ensures AllDenoted([Operator(e.attrs, OwnAll(e.attrs, Under(doc), 0))], [doc])
    ensures OwnAll(e.attrs, [], 0) == NO_FACTS
  {
    hide Under;
  }

  lemma NoneDenoted(attrs: RelOpAttrs, e: Elem, depth: nat)
    ensures AllDenoted([], []) && TagFacts(attrs, e, depth).operators == [] && CounterFacts(e).operators == []
    ensures TagOuter(e).operators == []
  {
    hide ObjectIn;
  }

  lemma {:induction false} OperatorsOwned(attrs: RelOpAttrs, doc: Doc, depth: nat)
    ensures AllDenoted(Own(attrs, doc, depth).operators, OperatorsIn(doc))
    decreases doc, 1
  {
    hide TagFacts, CounterFacts, AllDenoted, OwnAll;
    match doc
    case Words => NoneDenoted(attrs, OrderBy, depth);
    case Leaf(e) =>
      NoneDenoted(attrs, e, depth);
      if e.RelOp? {
        OperatorDenoted(e, doc);
      } else {
        NothingBefore<Operator>([]);
      }
    case Element(e, kids) =>
      NoneDenoted(attrs, e, depth + 1);
      if e.RelOp? {
        OperatorDenoted(e, doc);
      } else {
        OperatorsOwnedAll(attrs, kids, depth + 1);
        NothingBefore(OwnAll(attrs, kids, depth + 1).operators);
      }
  }

  lemma NothingBefore<T>(s: seq<T>)
    ensures [] + s == s
  {
  }

  lemma {:induction false} OperatorsOwnedAll(attrs: RelOpAttrs, forest: seq<Doc>, depth: nat)
    ensures AllDenoted(OwnAll(attrs, forest, depth).operators, OperatorsInAll(forest))
    decreases forest, 0
  {
    hide Own, OperatorsIn, AllDenoted;
    if forest == [] {
      NoneDenoted(attrs, OrderBy, depth);
    } else {
      OperatorsOwned(attrs, forest[0], depth);
      OperatorsOwnedAll(attrs, forest[1..], depth);
      DenotedBoth(Own(attrs, forest[0], depth).operators, OwnAll(attrs, forest[1..], depth).operators,
                  OperatorsIn(forest[0]), OperatorsInAll(forest[1..]));
    }
  }

  lemma {:induction false} OperatorsOutside(doc: Doc)
    ensures AllDenoted(Outside(doc).operators, OperatorsIn(doc))
    decreases doc, 1
  {
    hide TagOuter, AllDenoted, OwnAll;
    match doc
    case Words => NoneDenoted(NO_ATTRS, OrderBy, 0);
    case Leaf(e) =>
      NoneDenoted(NO_ATTRS, e, 0);
      if e.RelOp? {
        OperatorDenoted(e, doc);
      }
    case Element(e, kids) =>
      NoneDenoted(NO_ATTRS, e, 0);
      if e.RelOp? {
        OperatorDenoted(e, doc);
      } else {
        OperatorsOutsideAll(kids);
        NothingBefore(OutsideAll(kids).operators);
      }
  }

  const NO_ATTRS := RelOpAttrs("", "", 0.0, 0.0, 0.0, 0.0, 0, 0.0)

  lemma {:induction false} OperatorsOutsideAll(forest: seq<Doc>)
    ensures AllDenoted(OutsideAll(forest).operators, OperatorsInAll(forest))
    decreases forest, 0
  {
    hide Outside, OperatorsIn, AllDenoted;
    if forest == [] {
      NoneDenoted(NO_ATTRS, OrderBy, 0);
    } else {
      OperatorsOutside(forest[0]);
      OperatorsOutsideAll(forest[1..]);
      DenotedBoth(Outside(forest[0]).operators, OutsideAll(forest[1..]).operators,
                  OperatorsIn(forest[0]), OperatorsInAll(forest[1..]));
    }
  }

  lemma {:induction false} ViewsAt(ns: seq<PlanNode>)
    ensures |Views(ns)| == |ns| && forall k :: 0 <= k < |ns| ==> Views(ns)[k] == View(ns[k])
    decreases |ns|
  {
    hide View;
    if ns != [] {
      ViewsAt(ns[1..]);
    }
  }

  lemma {:induction false} DenotedFits(n: PlanNode, doc: Doc)
    requires IsOperator(doc) && View(n).attrs == doc.e.attrs
    requires var f, g := View(n).own, Denoted(doc).own;
             && f.residual == g.residual && f.seek == g.seek && f.rows == g.rows && f.executions == g.executions
             && f.operators == g.operators
    ensures Fits(n, doc)
    decreases n
  {
    hide OwnAll, PairedNear, LoneNear, CountsInAll, OperatorsInAll, WarningsInAll, Total, Under;
    var kids, attrs := Under(doc), doc.e.attrs;
    var below := OperatorsInAll(kids);
    MarkedByPosition(Residual, attrs, kids);
    MarkedByPosition(Seek, attrs, kids);
    CountsOwnedAll(false, attrs, kids, 0);
    CountsOwnedAll(true, attrs, kids, 0);
    OperatorsOwnedAll(attrs, kids, 0);
    ViewsAt(n.children);
    forall k | 0 <= k < |below|
      ensures Fits(n.children[k], below[k]) && n.children[k].warnings == WarningsInAll(Under(below[k]))
    {
      assert View(n.children[k]) == Denoted(below[k]);
      WarningsOwnedAll(below[k].e.attrs, Under(below[k]), 0);
      DenotedFits(n.children[k], below[k]);
    }
  }

  /** A plan is the nesting of its document's operators. For every document the reader
      fails exactly if there is no operator, and else returns the last outermost one. An
      operator has a residual predicate if and only if a paired Predicate is a child of
      its element or of a child, or a self-closing one stands one or two elements deep
      in it; the same for seek predicates. Its counters are the sums over the
      RunTimeCounters in it and in no nested operator, and the operators below it are
      those of the elements directly below, in order, with the warnings named in them. */
  lemma OperatorTreeIsNesting(forest: seq<Doc>)
    ensures var r, tops := Parsed(EventsOfAll(forest)), OperatorsInAll(forest);
            && (r == None <==> tops == [])
            && (r.Some? ==> Fits(r.value, Last(tops)))
  {
    hide Parsed, OutsideAll, OperatorsInAll, Fits, OwnAll, View, Under;
    ParsingInvertsPrinting(forest);
    OperatorsOutsideAll(forest);
    var r, o, tops := Parsed(EventsOfAll(forest)), OutsideAll(forest), OperatorsInAll(forest);
    if r.Some? {
      assert Last(o.operators) == Denoted(Last(tops));
      DenotedFits(r.value, Last(tops));
    }
  }

  // ---- the root's warnings -----------------------------------------------------------------------------

  function OuterWarningOf(e: Elem): seq<string> {
    match e
    case MemoryGrantWarning(_) => ["MemoryGrantWarning"]
    case PlanAffectingConvert(_) => ["PlanAffectingConvert"]
    case OtherWarning(name) => [name]
    case _ => []
  }

  /** Warnings outside every operator. */
  function OuterWarningsIn(doc: Doc): seq<string>
    decreases doc
  {
    match doc
    case Words => []
    case Leaf(e) => OuterWarningOf(e)
    case Element(e, kids) => if e.RelOp? then [] else OuterWarningOf(e) + OuterWarningsInAll(kids)
  }

  function OuterWarningsInAll(forest: seq<Doc>): seq<string>
    decreases forest
  {
    if forest == [] then [] else OuterWarningsIn(forest[0]) + OuterWarningsInAll(forest[1..])
  }

  lemma {:induction false} OuterWarningsStated(doc: Doc)
    ensures Outside(doc).warnings == OuterWarningsIn(doc)
    decreases doc, 1
  {
    match doc
    case Words =>
    case Leaf(_) =>
    case Element(_, kids) => OuterWarningsStatedAll(kids);
  }

  lemma {:induction false} OuterWarningsStatedAll(forest: seq<Doc>)
    ensures OutsideAll(forest).warnings == OuterWarningsInAll(forest)
    decreases forest, 0
  {
    hide Outside, OuterWarningsIn;
    if forest != [] {
      OuterWarningsStated(forest[0]);
      OuterWarningsStatedAll(forest[1..]);
    }
  }

  /** `all` is `own` and then whatever else stands in `more`, once each. */
  ghost predicate Enlarged(own: seq<string>, more: seq<string>, all: seq<string>) {
    && own <= all
    && (forall w :: w in all <==> w in own || w in more)
    && forall i, k :: |own| <= k < |all| && 0 <= i < k ==> all[i] != all[k]
  }

  lemma {:induction false} WithoutRepeatsMeans(have: seq<string>, more: seq<string>)
    ensures Enlarged(have, more, WithoutRepeats(have, more))
    decreases |more|
  {
    if more != [] {
      var next := if more[0] in have then have else have + [more[0]];
      WithoutRepeatsMeans(next, more[1..]);
      assert more[0] in more && forall w :: w in more <==> w == more[0] || w in more[1..];
      assert forall w :: w in next <==> w in have || w == more[0];
    }
  }

  /** The root has its own warnings, and behind them those of the query, each once. */
  lemma RootWarnings(forest: seq<Doc>)
    ensures var r, tops := Parsed(EventsOfAll(forest)), OperatorsInAll(forest);
            r.Some? ==> tops != []
                        && Enlarged(WarningsInAll(Under(Last(tops))), OuterWarningsInAll(forest), r.value.warnings)
  {
    hide Parsed, OutsideAll, OperatorsInAll, OwnAll, Under, WithoutRepeats, Enlarged;
    ParsingInvertsPrinting(forest);
    OperatorsOutsideAll(forest);
    OuterWarningsStatedAll(forest);
    var r, o, tops := Parsed(EventsOfAll(forest)), OutsideAll(forest), OperatorsInAll(forest);
    if r.Some? {
      var doc := Last(tops);
      assert Last(o.operators) == Denoted(doc);
      WarningsOwnedAll(doc.e.attrs, Under(doc), 0);
      WithoutRepeatsMeans(WarningsInAll(Under(doc)), OuterWarningsInAll(forest));
    }
  }

  // ---- operators by name ---------------------------------------------------------------------------------

  /** Text `pat` stands somewhere in `s`. */
  ghost predicate StandsIn(pat: string, s: string) { exists a: string, b: string :: s == a + pat + b }

  lemma ContainsMeans(s: string, pat: string)
    ensures Contains(s, pat) <==> StandsIn(pat, s)
  {
    if Contains(s, pat) {
      FoundThere(s, pat);
      var n := Find(s, pat).value;
      assert s == s[..n] + pat + s[n + |pat|..];
    }
    if StandsIn(pat, s) {
      var a, b :| s == a + pat + b;
      assert s[|a|..] == pat + b;
      if Find(s, pat) == None {
        FindMisses(s, pat, |a|);
      }
    }
  }

  lemma {:induction false} FoundThere(s: string, pat: string)
    requires Find(s, pat).Some?
    ensures var n := Find(s, pat).value; s[n..n + |pat|] == pat
  {
    if !(pat <= s) && s != [] {
      FoundThere(s[1..], pat);
    }
  }

  /** The operators that capture an object and seek columns: lookups, index seeks and
      scans, and table scans, in any case. */
  lemma CapturersByName(attrs: RelOpAttrs)
    ensures var op := Lower(attrs.physicalOp);
            CapturesObject(attrs) <==>
            || StandsIn("lookup", op) || StandsIn("index seek", op)
            || StandsIn("index scan", op) || StandsIn("table scan", op)
  {
    hide Lower, Contains;
    var op := Lower(attrs.physicalOp);
    ContainsMeans(op, "lookup");
    ContainsMeans(op, "index seek");
    ContainsMeans(op, "index scan");
    ContainsMeans(op, "table scan");
  }

  /** When no other mode is on, each kind of element is heard by the operators it
      concerns and by no others. */
  lemma ListenersByName(n: PlanNode)
    ensures var op := Lower(n.attrs.physicalOp);
            && (Hears(Sorting, Listening(Sorting, QUIET, n), n) <==> op == "sort")
            && (Hears(Defining, Listening(Defining, QUIET, n), n) <==> op == "key lookup" || op == "rid lookup")
            && (Hears(Seeking, Listening(Seeking, QUIET, n), n) <==>
                || StandsIn("lookup", op) || StandsIn("index seek", op)
                || StandsIn("index scan", op) || StandsIn("table scan", op))
            && Hears(Statistics, Listening(Statistics, QUIET, n), n)
  {
    hide CapturesObject, Lower;
    CapturersByName(n.attrs);
    LowerNames();
  }

  lemma LowerNames()
    ensures Lower("Sort") == "sort" && Lower("Key Lookup") == "key lookup" && Lower("RID Lookup") == "rid lookup"
  {
  }

  // ---- identifiers in plans --------------------------------------------------------------------------------

  /** Quoting is taken off: white space around, then opening brackets in front and
      closing ones behind. */
  lemma UnbracketStrips(a: string, open: string, core: string, close: string, b: string)
    requires forall c :: c in a || c in b ==> c == ' ' || c == '\t' || c == '\n' || c == '\r'
    requires (forall c :: c in open ==> c == '[') && (forall c :: c in close ==> c == ']')
    requires core != "" && '!' <= core[0] <= '~' && '!' <= core[|core| - 1] <= '~'
    requires core[0] != '[' && core[|core| - 1] != ']'
    ensures Unbracket(a + (open + core + close) + b) == core
  {
    hide DropWhile, DropWhileEnd;
    var q := open + core + close;
    assert q[0] == if open == "" then core[0] else open[0];
    assert q[|q| - 1] == if close == "" then core[|core| - 1] else close[|close| - 1];
    assert open != "" ==> open[0] in open;
    assert close != "" ==> close[|close| - 1] in close;
    TrimBothOfPadded(a, q, b, IsWhite);
    DropPadding(open, core + close, IsOpen);
    assert open + (core + close) == q;
    DropEndPadding(core, close, IsClose);
  }
}
