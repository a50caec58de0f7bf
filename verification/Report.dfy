/**
 Charts: the plan as a treemap of operator costs, over real arithmetic, and the
 findings as a timeline of source lines.
 */
module Report {
  import opened PlanXml
  import opened Lint

  // ---- plan treemap --------------------------------------------------------------------------

  datatype TreemapNode = TreemapNode(
    physicalOp: string, logicalOp: string, nodeId: int, value: real, rows: real, children: seq<TreemapNode>)

  const LEAST_VALUE := 0.0001

  /** What the operators directly below cost. */
  function TotalCost(ps: seq<PlanNode>): real {
    if ps == [] then 0.0 else TotalCost(ps[..|ps| - 1]) + ps[|ps| - 1].attrs.cost
  }

  function Larger(a: real, b: real): real { if a < b then b else a }

  /** An operator's own share: its subtree without the subtrees below. */
  function OwnCost(p: PlanNode): real {
    var own := Larger(p.attrs.cost - TotalCost(p.children), 0.0);
    Larger(if p.children == [] then Larger(p.attrs.cost, own) else own, LEAST_VALUE)
  }

  function ToNode(p: PlanNode): TreemapNode {
    TreemapNode(p.attrs.physicalOp, p.attrs.logicalOp, p.attrs.nodeId, OwnCost(p), p.attrs.rows, ToNodes(p.children))
  }

  function ToNodes(ps: seq<PlanNode>): (r: seq<TreemapNode>)
    ensures |r| == |ps|
  {
    if ps == [] then [] else ToNodes(ps[..|ps| - 1]) + [ToNode(ps[|ps| - 1])]
  }

  method PlanTreemap(p: PlanNode) returns (node: TreemapNode)
    ensures node == ToNode(p)
    ensures Mirrors(p, node)
    decreases p
  {
    hide ToNode, Mirrors;
    var selfCost := p.attrs.cost;
    for k := 0 to |p.children|
      invariant selfCost == p.attrs.cost - TotalCost(p.children[..k])
    {
      assert p.children[..k + 1][..k] == p.children[..k];
      selfCost := selfCost - p.children[k].attrs.cost;
    }
    assert p.children[..|p.children|] == p.children;
    if selfCost < 0.0 {
      selfCost := 0.0;
    }
    var children: seq<TreemapNode> := [];
    for k := 0 to |p.children|
      invariant children == ToNodes(p.children[..k])
    {
      assert p.children[..k + 1][..k] == p.children[..k];
      var child := PlanTreemap(p.children[k]);
      children := children + [child];
    }
    var value := if children == [] then Larger(p.attrs.cost, selfCost) else selfCost;
    node := TreemapNode(p.attrs.physicalOp, p.attrs.logicalOp, p.attrs.nodeId, Larger(value, LEAST_VALUE),
                        p.attrs.rows, children);
    NodeUnfolded(p);
    TreeMirrors(p);
  }

  lemma NodeUnfolded(p: PlanNode)
    ensures ToNode(p) == TreemapNode(p.attrs.physicalOp, p.attrs.logicalOp, p.attrs.nodeId, OwnCost(p), p.attrs.rows,
                                     ToNodes(p.children))
  {
  }

  /** `t` shows operator `p` and, in their order, the operators below it. Its value is
      the operator's cost without theirs, but never less than 0.0001. */
  ghost predicate Mirrors(p: PlanNode, t: TreemapNode) {
    && t.physicalOp == p.attrs.physicalOp && t.logicalOp == p.attrs.logicalOp
    && t.nodeId == p.attrs.nodeId && t.rows == p.attrs.rows
    && (var share := p.attrs.cost - TotalCost(p.children);
        t.value == if share >= 0.0001 then share else 0.0001)
    && |t.children| == |p.children|
    && forall k :: 0 <= k < |p.children| ==> Mirrors(p.children[k], t.children[k])
  }

  lemma {:induction false} TreeMirrors(p: PlanNode)
    ensures Mirrors(p, ToNode(p))
    decreases p, 1
  {
    hide ToNode, ToNodes;
    NodeUnfolded(p);
    NodesMirror(p.children);
    assert p.children == [] ==> TotalCost(p.children) == 0.0;
  }

  lemma {:induction false} NodesMirror(ps: seq<PlanNode>)
    ensures forall k :: 0 <= k < |ps| ==> Mirrors(ps[k], ToNodes(ps)[k])
    decreases ps, 0
  {
    hide Mirrors, ToNode;
    if ps != [] {
      NodesMirror(ps[..|ps| - 1]);
      TreeMirrors(ps[|ps| - 1]);
    }
  }

  /** The area of a treemap: the values of all its nodes. */
  function Area(t: TreemapNode): real { t.value + Areas(t.children) }

  function Areas(ts: seq<TreemapNode>): real {
    if ts == [] then 0.0 else Areas(ts[..|ts| - 1]) + Area(ts[|ts| - 1])
  }

  function Operators(p: PlanNode): nat { 1 + AllOperators(p.children) }

  function AllOperators(ps: seq<PlanNode>): nat {
    if ps == [] then 0 else AllOperators(ps[..|ps| - 1]) + Operators(ps[|ps| - 1])
  }

  /** Costs are nonnegative and cover the operators below. */
  ghost predicate Consistent(p: PlanNode) {
    && p.attrs.cost >= 0.0
    && p.attrs.cost >= TotalCost(p.children)
    && forall c :: c in p.children ==> Consistent(c)
  }

  /** Moreover every operator has a share of its own no smaller than the least value. */
  ghost predicate Resolved(p: PlanNode) {
    && p.attrs.cost - TotalCost(p.children) >= LEAST_VALUE
    && forall c :: c in p.children ==> Resolved(c)
  }

  lemma AreaUnfolded(p: PlanNode)
    ensures Area(ToNode(p)) == OwnCost(p) + Areas(ToNodes(p.children))
  {
    hide OwnCost;
    NodeUnfolded(p);
  }

  lemma AreasUnfolded(ps: seq<PlanNode>)
    requires ps != []
    ensures Areas(ToNodes(ps)) == Areas(ToNodes(ps[..|ps| - 1])) + Area(ToNode(ps[|ps| - 1]))
  {
    hide ToNode, Area;
    var n := |ps| - 1;
    assert ToNodes(ps)[..n] == ToNodes(ps[..n]);
  }

  /** No cost goes missing: whatever the costs, a plan's treemap has at least the
      area of its root's subtree cost. */
  lemma {:induction false} AreaCoversCost(p: PlanNode)
    ensures Area(ToNode(p)) >= p.attrs.cost
    decreases p, 1
  {
    hide Area, Areas, ToNode, ToNodes, TotalCost;
    AreaUnfolded(p);
    AreasCoverCosts(p.children);
  }

  lemma {:induction false} AreasCoverCosts(ps: seq<PlanNode>)
    ensures Areas(ToNodes(ps)) >= TotalCost(ps)
    decreases ps, 0
  {
    hide Area, ToNode;
    if ps != [] {
      hide Areas, ToNodes;
      AreasUnfolded(ps);
      AreasCoverCosts(ps[..|ps| - 1]);
      AreaCoversCost(ps[|ps| - 1]);
    }
  }

  /** And hardly any is made up: when costs are consistent, the area exceeds the
      root's cost by at most the least value per operator. */
  lemma {:induction false} AreaIsBounded(p: PlanNode)
    requires Consistent(p)
    ensures Area(ToNode(p)) <= p.attrs.cost + 0.0001 * (Operators(p) as real)
    decreases p, 1
  {
    hide Area, Areas, ToNode, ToNodes, TotalCost, AllOperators;
    AreaUnfolded(p);
    AreasAreBounded(p.children);
    OwnIsBounded(p);
    OneMore(AllOperators(p.children));
  }

  lemma OneMore(n: nat)
    ensures LEAST_VALUE * ((1 + n) as real) == LEAST_VALUE + LEAST_VALUE * (n as real)
  {
  }

  lemma OwnIsBounded(p: PlanNode)
    requires p.attrs.cost >= 0.0 && p.attrs.cost >= TotalCost(p.children)
    ensures OwnCost(p) <= p.attrs.cost - TotalCost(p.children) + LEAST_VALUE
  {
    if p.children == [] {
      assert TotalCost(p.children) == 0.0;
    } else {
      hide TotalCost;
    }
  }

  lemma {:induction false} AreasAreBounded(ps: seq<PlanNode>)
    requires forall c :: c in ps ==> Consistent(c)
    ensures Areas(ToNodes(ps)) <= TotalCost(ps) + LEAST_VALUE * (AllOperators(ps) as real)
    decreases ps, 0
  {
    hide Area, ToNode, Operators, Consistent;
    if ps != [] {
      hide Areas, ToNodes;
      var before, last := ps[..|ps| - 1], ps[|ps| - 1];
      assert last in ps && forall c :: c in before ==> c in ps;
      AreasUnfolded(ps);
      AreasAreBounded(before);
      AreaIsBounded(last);
      SomeMore(AllOperators(before), Operators(last));
    }
  }

  lemma SomeMore(a: nat, b: nat)
    ensures LEAST_VALUE * ((a + b) as real) == LEAST_VALUE * (a as real) + LEAST_VALUE * (b as real)
  {
  }

  /** When every operator's share reaches the least value the treemap divides the
      root's cost exactly. */
  lemma {:induction false} AreaIsExact(p: PlanNode)
    requires Resolved(p)
    ensures Area(ToNode(p)) == p.attrs.cost
    decreases p, 1
  {
    hide Area, Areas, ToNode, ToNodes;
    AreaUnfolded(p);
    AreasAreExact(p.children);
    assert p.children == [] ==> TotalCost(p.children) == 0.0;
  }

  lemma {:induction false} AreasAreExact(ps: seq<PlanNode>)
    requires forall c :: c in ps ==> Resolved(c)
    ensures Areas(ToNodes(ps)) == TotalCost(ps)
    decreases ps, 0
  {
    hide Area, ToNode, Resolved;
    if ps != [] {
      hide Areas, ToNodes;
      var before, last := ps[..|ps| - 1], ps[|ps| - 1];
      assert last in ps && forall c :: c in before ==> c in ps;
      AreasUnfolded(ps);
      AreasAreExact(before);
      AreaIsExact(last);
    }
  }

  // ---- severity timeline ----------------------------------------------------------------------

  datatype Bucket = Bucket(critical: nat, error: nat, warning: nat, info: nat)

  /** Lines of a text; an end of line at its very end starts no line. */
  function Lines(src: string): nat {
    if src == "" then 0
    else
      var n := |src| - 1;
      Lines(src[..n]) + if n == 0 || src[n - 1] == '\n' then 1 else 0
  }

  /** The offsets of the line breaks among the first `n` characters. */
  function Breaks(src: string, n: nat): set<nat>
    requires n <= |src|
  {
    set k: nat | k < n && src[k] == '\n'
  }

  lemma NoLines()
    ensures Lines("") == 0
  {
  }

  lemma OneMoreChar(src: string, n: nat)
    requires 0 < n <= |src|
    ensures Lines(src[..n]) == Lines(src[..n - 1]) + if n == 1 || src[n - 2] == '\n' then 1 else 0
    ensures |Breaks(src, n)| == |Breaks(src, n - 1)| + if src[n - 1] == '\n' then 1 else 0
  {
    assert src[..n][..n - 1] == src[..n - 1];
    var before := Breaks(src, n - 1);
    if src[n - 1] == '\n' {
      assert Breaks(src, n) == before + {n - 1};
    } else {
      assert Breaks(src, n) == before;
    }
  }

  lemma {:induction false} LinesUpTo(src: string, n: nat)
    requires n <= |src|
    ensures Lines(src[..n]) == |Breaks(src, n)| + if n > 0 && src[n - 1] != '\n' then 1 else 0
    decreases n
  {
    if n == 0 {
      assert Breaks(src, 0) == {};
    } else {
      hide Lines, Breaks;
      OneMoreChar(src, n);
      LinesUpTo(src, n - 1);
      if n == 1 {
        NoLines();
        assert src[..0] == "";
      }
    }
  }

  /** A text has a line for every line break, and one more if it does not end in one. */
  lemma LinesCounted(src: string)
    ensures Lines(src) == |Breaks(src, |src|)| + if src != "" && src[|src| - 1] != '\n' then 1 else 0
  {
    hide Lines, Breaks;
    LinesUpTo(src, |src|);
    assert src[..|src|] == src;
  }

  lemma SomeLine(src: string)
    requires src != ""
    ensures Lines(src) > 0
    decreases |src|
  {
    hide Breaks;
    LinesCounted(src);
    if src[|src| - 1] == '\n' {
      OneBreak(src);
    }
  }

  lemma OneBreak(src: string)
    requires src != "" && src[|src| - 1] == '\n'
    ensures |Breaks(src, |src|)| > 0
  {
    assert |src| - 1 in Breaks(src, |src|);
  }

  function LineOf(f: FileFinding): nat { match f.location case None => 1 case Some(l) => l.line }

  function Add(b: Bucket, s: Severity): Bucket {
    match s
    case Critical => b.(critical := b.critical + 1)
    case Error => b.(error := b.error + 1)
    case Warning => b.(warning := b.warning + 1)
    case Info => b.(info := b.info + 1)
  }

  /** What the findings add up to on one line. */
  function Tally(findings: seq<FileFinding>, line: nat): Bucket {
    if findings == [] then Bucket(0, 0, 0, 0)
    else
      var n := |findings| - 1;
      var before := Tally(findings[..n], line);
      if LineOf(findings[n]) == line then Add(before, findings[n].severity) else before
  }

  function CountOf(b: Bucket, s: Severity): nat {
    match s case Critical => b.critical case Error => b.error case Warning => b.warning case Info => b.info
  }

  /** A finding without a place stands on the first line. */
  predicate StandsOn(f: FileFinding, line: nat, s: Severity) {
    f.severity == s && (if f.location.Some? then f.location.value.line == line else line == 1)
  }

  function Standing(findings: seq<FileFinding>, line: nat, s: Severity): set<nat> {
    set k: nat | k < |findings| && StandsOn(findings[k], line, s)
  }

  lemma OneMoreStanding(findings: seq<FileFinding>, line: nat, s: Severity)
    requires findings != []
    ensures var n := |findings| - 1;
            |Standing(findings, line, s)| ==
            |Standing(findings[..n], line, s)| + if StandsOn(findings[n], line, s) then 1 else 0
  {
    hide StandsOn;
    var n := |findings| - 1;
    var before := Standing(findings[..n], line, s);
    if StandsOn(findings[n], line, s) {
      assert Standing(findings, line, s) == before + {n};
    } else {
      assert Standing(findings, line, s) == before;
    }
  }

  /** A bucket counts, severity by severity, the findings that stand on its line. */
  lemma {:induction false} TallyCounts(findings: seq<FileFinding>, line: nat, s: Severity)
    ensures CountOf(Tally(findings, line), s) == |Standing(findings, line, s)|
    decreases |findings|
  {
    hide Standing;
    if findings == [] {
      NoneStanding(line, s);
    } else {
      TallyCounts(findings[..|findings| - 1], line, s);
      OneMoreStanding(findings, line, s);
    }
  }

  lemma NoneStanding(line: nat, s: Severity)
    ensures Standing([], line, s) == {}
  {
  }

  method SeverityTimeline(src: string, findings: seq<FileFinding>) returns (buckets: array<Bucket>)
    ensures fresh(buckets) && buckets.Length == AtLeastOne(Lines(src))
    ensures src == "" ==> buckets.Length == 1
    ensures src != "" ==> buckets.Length == |Breaks(src, |src|)| + if src[|src| - 1] != '\n' then 1 else 0
    ensures forall k :: 0 <= k < buckets.Length ==> buckets[k] == Tally(findings, k + 1)
    ensures forall k, s :: 0 <= k < buckets.Length ==> CountOf(buckets[k], s) == |Standing(findings, k + 1, s)|
  {
    hide Lines, CountOf, Standing, Breaks;
    LinesCounted(src);
    if src == "" {
      NoLines();
    } else {
      SomeLine(src);
    }
    buckets := new Bucket[AtLeastOne(Lines(src))](_ => Bucket(0, 0, 0, 0));
    for i := 0 to |findings|
      invariant forall k :: 0 <= k < buckets.Length ==> buckets[k] == Tally(findings[..i], k + 1)
    {
      assert findings[..i + 1][..i] == findings[..i];
      var line := LineOf(findings[i]);
      if 0 < line <= buckets.Length {
        buckets[line - 1] := Add(buckets[line - 1], findings[i].severity);
      }
    }
    assert findings[..|findings|] == findings;
    forall k, s | 0 <= k < buckets.Length
      ensures CountOf(buckets[k], s) == |Standing(findings, k + 1, s)|
    {
      TallyCounts(findings, k + 1, s);
    }
  }

  function Size(b: Bucket): nat { b.critical + b.error + b.warning + b.info }

  function TotalSize(findings: seq<FileFinding>, lines: nat): nat {
    if lines == 0 then 0 else TotalSize(findings, lines - 1) + Size(Tally(findings, lines))
  }

  function OnLines(findings: seq<FileFinding>, lines: nat): nat {
    if findings == [] then 0
    else
      var n := |findings| - 1;
      OnLines(findings[..n], lines) + if 0 < LineOf(findings[n]) <= lines then 1 else 0
  }

  lemma {:induction false} NothingTallied(findings: seq<FileFinding>, lines: nat)
    requires findings == []
    ensures TotalSize(findings, lines) == 0
    decreases lines
  {
    hide Tally, Size;
    if lines > 0 {
      NothingTallied(findings, lines - 1);
      NoTally(findings, lines);
    }
  }

  lemma NoTally(findings: seq<FileFinding>, line: nat)
    requires findings == []
    ensures Size(Tally(findings, line)) == 0
  {
  }

  lemma {:induction false} OneMoreTallied(findings: seq<FileFinding>, f: FileFinding, lines: nat)
    ensures TotalSize(findings + [f], lines) ==
            TotalSize(findings, lines) + if 0 < LineOf(f) <= lines then 1 else 0
    decreases lines
  {
    if lines > 0 {
      OneMoreTallied(findings, f, lines - 1);
      assert (findings + [f])[..|findings|] == findings;
    }
  }

  /** The timeline counts each finding on one of its lines once, and the others not. */
  lemma {:induction false} TimelineConserves(findings: seq<FileFinding>, lines: nat)
    ensures TotalSize(findings, lines) == OnLines(findings, lines)
    decreases |findings|
  {
    if findings == [] {
      NothingTallied(findings, lines);
    } else {
      var n := |findings| - 1;
      TimelineConserves(findings[..n], lines);
      OneMoreTallied(findings[..n], findings[n], lines);
      assert findings == findings[..n] + [findings[n]];
    }
  }
}
