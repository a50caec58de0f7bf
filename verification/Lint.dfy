/**
 What the linter reports: repeats of a rule rolled up past a cap, and the
 SARIF 2.1.0 log with its rule catalog.
 */
module Lint {
  import opened Wrappers

  datatype Severity = Info | Warning | Error | Critical

  datatype Location = Location(line: nat, col: nat)

  datatype FileFinding = FileFinding(
    path: string, rule: string, severity: Severity, location: Option<Location>, message: string)

  // ---- the cap ----------------------------------------------------------------------------------

  /** The findings of one rule, in order. */
  function OfRule(all: seq<FileFinding>, rule: string): seq<FileFinding> {
    if all == [] then []
    else
      var n := |all| - 1;
      OfRule(all[..n], rule) + if all[n].rule == rule then [all[n]] else []
  }

  /** What is shown: a finding, unless `max` of its rule came before. */
  function Kept(all: seq<FileFinding>, max: nat): seq<FileFinding> {
    if all == [] then []
    else
      var n := |all| - 1;
      Kept(all[..n], max) + if max == 0 || |OfRule(all[..n], all[n].rule)| < max then [all[n]] else []
  }

  function CountOf(counts: map<string, nat>, rule: string): nat { if rule in counts then counts[rule] else 0 }

  function Least(a: nat, b: nat): nat { if a < b then a else b }

  lemma OfRuleSnoc(all: seq<FileFinding>, f: FileFinding, rule: string)
    ensures OfRule(all + [f], rule) == OfRule(all, rule) + if f.rule == rule then [f] else []
  {
    assert (all + [f])[..|all|] == all;
  }

  lemma TakeStep(all: seq<FileFinding>, k: nat)
    requires k < |all|
    ensures all[..k + 1] == all[..k] + [all[k]]
  {
  }

  lemma KeptSnoc(all: seq<FileFinding>, f: FileFinding, max: nat)
    ensures Kept(all + [f], max) == Kept(all, max) + if max == 0 || |OfRule(all, f.rule)| < max then [f] else []
  {
    assert (all + [f])[..|all|] == all;
  }

  /** Of each rule exactly the first `max` findings are kept, in their order. */
  lemma {:induction false} KeptAreFirst(all: seq<FileFinding>, max: nat, rule: string)
    ensures var mine := OfRule(all, rule);
            OfRule(Kept(all, max), rule) == if max == 0 then mine else mine[..Least(|mine|, max)]
    decreases |all|
  {
    hide OfRule, Kept;
    NothingKept(max);
    if all != [] {
      var n := |all| - 1;
      var before, f := all[..n], all[n];
      var mine := OfRule(before, rule);
      KeptAreFirst(before, max, rule);
      assert all == before + [f];
      OfRuleSnoc(before, f, rule);
      KeptSnoc(before, f, max);
      OfRuleSnoc(Kept(before, max), f, rule);
      assert mine + [] == mine && Kept(before, max) + [] == Kept(before, max);
      assert OfRule(Kept(before, max), rule) + [] == OfRule(Kept(before, max), rule);
      if f.rule == rule && max > 0 {
        CapStep(mine, f, max);
      }
    }
  }

  lemma CapStep(mine: seq<FileFinding>, f: FileFinding, max: nat)
    requires max > 0
    ensures (mine + [f])[..Least(|mine| + 1, max)] ==
            mine[..Least(|mine|, max)] + if |mine| < max then [f] else []
  {
  }

  /** What is kept stands in the order of the input, across rules too. */
  lemma {:induction false} KeptInOrder(all: seq<FileFinding>, max: nat) returns (src: seq<nat>)
    ensures |src| == |Kept(all, max)|
    ensures forall k :: 0 <= k < |src| ==> src[k] < |all| && Kept(all, max)[k] == all[src[k]]
    ensures forall i, j :: 0 <= i < j < |src| ==> src[i] < src[j]
    decreases |all|
  {
    if all == [] {
      src := [];
    } else {
      var n := |all| - 1;
      src := KeptInOrder(all[..n], max);
      if max == 0 || |OfRule(all[..n], all[n].rule)| < max {
        src := src + [n];
      }
    }
  }

  method CapPerRule(all: seq<FileFinding>, max: nat) returns (kept: seq<FileFinding>, hidden: map<string, nat>)
    ensures kept == Kept(all, max)
    ensures forall rule :: |OfRule(kept, rule)| + CountOf(hidden, rule) == |OfRule(all, rule)|
    ensures forall rule :: rule in hidden ==> hidden[rule] > 0
  {
    hide OfRule, Kept;
    kept, hidden := [], map[];
    var seen: map<string, nat> := map[];
    NothingKept(max);
    for k := 0 to |all|
      invariant kept == Kept(all[..k], max)
      invariant forall rule :: CountOf(seen, rule) == |OfRule(all[..k], rule)|
      invariant forall rule :: |OfRule(kept, rule)| + CountOf(hidden, rule) == |OfRule(all[..k], rule)|
      invariant forall rule :: rule in hidden ==> hidden[rule] > 0
    {
      var f := all[k];
      var n := CountOf(seen, f.rule) + 1;
      assert CountOf(seen, f.rule) == |OfRule(all[..k], f.rule)|;
      ghost var before, hid := kept, hidden;
      seen := seen[f.rule := n];
      if max == 0 || n <= max {
        kept := kept + [f];
      } else {
        hidden := hidden[f.rule := CountOf(hidden, f.rule) + 1];
      }
      TakeStep(all, k);
      KeptSnoc(all[..k], f, max);
      forall rule
        ensures CountOf(seen, rule) == |OfRule(all[..k + 1], rule)|
        ensures |OfRule(kept, rule)| + CountOf(hidden, rule) == |OfRule(all[..k + 1], rule)|
      {
        assert |OfRule(before, rule)| + CountOf(hid, rule) == |OfRule(all[..k], rule)|;
        OfRuleSnoc(all[..k], f, rule);
        OfRuleSnoc(before, f, rule);
      }
    }
    assert all[..|all|] == all;
  }

  lemma NothingKept(max: nat)
    ensures Kept([], max) == [] && forall rule :: OfRule([], rule) == []
  {
  }

  // ---- the SARIF log --------------------------------------------------------------------------------

  datatype Level = ErrorLevel | WarningLevel | NoteLevel

  function SarifLevel(s: Severity): Level {
    match s
    case Info => NoteLevel
    case Warning => WarningLevel
    case Error => ErrorLevel
    case Critical => ErrorLevel
  }

  /** Lower is more severe. */
  function LevelRank(l: Level): nat {
    match l case ErrorLevel => 0 case WarningLevel => 1 case NoteLevel => 2
  }

  datatype Rule = Rule(id: string, level: Level)

  datatype Result = Result(ruleId: string, ruleIndex: nat, level: Level, uri: string, startLine: nat, startColumn: nat)

  datatype Sarif = Sarif(rules: seq<Rule>, results: seq<Result>, executionSuccessful: bool)

  /** The rules of the findings, each where it first appears. */
  function RuleIds(all: seq<FileFinding>): seq<string> {
    if all == [] then []
    else
      var n := |all| - 1;
      var before := RuleIds(all[..n]);
      if all[n].rule in before then before else before + [all[n].rule]
  }

  predicate MostSevere(all: seq<FileFinding>, r: Rule) {
    && (exists f :: f in all && f.rule == r.id && SarifLevel(f.severity) == r.level)
    && forall f :: f in all && f.rule == r.id ==> LevelRank(r.level) <= LevelRank(SarifLevel(f.severity))
  }

  /** The level a severity is reported at, spelled out. */
  predicate ReportedAt(l: Level, s: Severity) {
    && (l == ErrorLevel <==> s == Error || s == Critical)
    && (l == WarningLevel <==> s == Warning)
    && (l == NoteLevel <==> s == Info)
  }

  /** Findings of rule `id` with severity `s`. */
  ghost predicate Found(all: seq<FileFinding>, id: string, s: Severity) {
    exists f :: f in all && f.rule == id && f.severity == s
  }

  /** A rule's level is that of the worst of its findings. */
  ghost predicate Levelled(all: seq<FileFinding>, r: Rule) {
    && (r.level == ErrorLevel <==> Found(all, r.id, Error) || Found(all, r.id, Critical))
    && (r.level == WarningLevel <==>
          Found(all, r.id, Warning) && !Found(all, r.id, Error) && !Found(all, r.id, Critical))
    && (r.level == NoteLevel <==>
          !Found(all, r.id, Warning) && !Found(all, r.id, Error) && !Found(all, r.id, Critical))
  }

  lemma MostSevereIsLevelled(all: seq<FileFinding>, r: Rule)
    requires MostSevere(all, r)
    ensures Levelled(all, r)
  {
    var f :| f in all && f.rule == r.id && SarifLevel(f.severity) == r.level;
    assert Found(all, r.id, f.severity);
    forall s | Found(all, r.id, s)
      ensures LevelRank(r.level) <= LevelRank(SarifLevel(s))
    {
      var g :| g in all && g.rule == r.id && g.severity == s;
    }
  }

  lemma CatalogLevels(rules: seq<Rule>, all: seq<FileFinding>)
    requires Catalogs(rules, all)
    ensures forall k :: 0 <= k < |rules| ==> Levelled(all, rules[k])
  {
    hide MostSevere, Levelled, RuleIds;
    forall k | 0 <= k < |rules|
      ensures Levelled(all, rules[k])
    {
      MostSevereIsLevelled(all, rules[k]);
    }
  }

  lemma LevelsReported(s: Severity)
    ensures ReportedAt(SarifLevel(s), s)
  {
  }

  /** `index` finds every rule of the catalog, and only those. */
  ghost predicate Indexes(index: map<string, nat>, rules: seq<Rule>) {
    && (forall id :: id in index ==> index[id] < |rules| && rules[index[id]].id == id)
    && forall k :: 0 <= k < |rules| ==> rules[k].id in index && index[rules[k].id] == k
  }

  ghost predicate Catalogs(rules: seq<Rule>, all: seq<FileFinding>) {
    && |rules| == |RuleIds(all)|
    && (forall k :: 0 <= k < |rules| ==> rules[k].id == RuleIds(all)[k])
    && forall k :: 0 <= k < |rules| ==> MostSevere(all, rules[k])
  }

  lemma {:induction false} RuleIdsDistinct(all: seq<FileFinding>)
    ensures forall i, j :: 0 <= i < j < |RuleIds(all)| ==> RuleIds(all)[i] != RuleIds(all)[j]
    ensures forall f :: f in all ==> f.rule in RuleIds(all)
    ensures forall id :: id in RuleIds(all) ==> exists f :: f in all && f.rule == id
    decreases |all|
  {
    if all != [] {
      var n := |all| - 1;
      RuleIdsDistinct(all[..n]);
      assert forall f :: f in all <==> f in all[..n] || f == all[n];
    }
  }

  lemma RuleIdsSnoc(all: seq<FileFinding>, f: FileFinding)
    ensures RuleIds(all + [f]) == if f.rule in RuleIds(all) then RuleIds(all) else RuleIds(all) + [f.rule]
  {
    assert (all + [f])[..|all|] == all;
  }

  lemma StillMostSevere(all: seq<FileFinding>, f: FileFinding, r: Rule)
    requires MostSevere(all, r)
    ensures r.id != f.rule || LevelRank(r.level) <= LevelRank(SarifLevel(f.severity)) ==> MostSevere(all + [f], r)
  {
    hide SarifLevel, LevelRank;
    var g :| g in all && g.rule == r.id && SarifLevel(g.severity) == r.level;
    assert g in all + [f];
  }

  lemma NowMostSevere(all: seq<FileFinding>, f: FileFinding, r: Rule)
    requires r.id == f.rule && (MostSevere(all, r) || forall g :: g in all ==> g.rule != f.rule)
    requires LevelRank(SarifLevel(f.severity)) < LevelRank(r.level) || forall g :: g in all ==> g.rule != f.rule
    ensures MostSevere(all + [f], r.(level := SarifLevel(f.severity)))
  {
    hide SarifLevel, LevelRank;
    assert f in all + [f];
  }

  method BuildCatalog(all: seq<FileFinding>) returns (rules: seq<Rule>, ruleIndex: map<string, nat>)
    ensures Catalogs(rules, all) && Indexes(ruleIndex, rules)
    ensures forall k :: 0 <= k < |rules| ==> Levelled(all, rules[k])
  {
    hide MostSevere, SarifLevel, LevelRank, RuleIds, Levelled;
    rules, ruleIndex := [], map[];
    NoRules();
    for k := 0 to |all|
      invariant Catalogs(rules, all[..k]) && Indexes(ruleIndex, rules)
    {
      var f := all[k];
      ghost var before := rules;
      TakeStep(all, k);
      RuleIdsSnoc(all[..k], f);
      RuleIdsDistinct(all[..k]);
      if f.rule in ruleIndex {
        var idx := ruleIndex[f.rule];
        assert rules[idx].id in RuleIds(all[..k]);
        if LevelRank(SarifLevel(f.severity)) < LevelRank(rules[idx].level) {
          NowMostSevere(all[..k], f, rules[idx]);
          rules := rules[idx := rules[idx].(level := SarifLevel(f.severity))];
        }
        forall j | 0 <= j < |rules|
          ensures MostSevere(all[..k + 1], rules[j])
        {
          StillMostSevere(all[..k], f, before[j]);
          if j != idx {
            assert ruleIndex[before[j].id] == j;
          }
        }
      } else {
        NotListed(ruleIndex, rules, all[..k], f.rule);
        NowMostSevere(all[..k], f, Rule(f.rule, SarifLevel(f.severity)));
        forall j | 0 <= j < |rules|
          ensures MostSevere(all[..k + 1], rules[j])
        {
          StillMostSevere(all[..k], f, rules[j]);
          assert rules[j].id in ruleIndex;
        }
        ruleIndex := ruleIndex[f.rule := |rules|];
        rules := rules + [Rule(f.rule, SarifLevel(f.severity))];
      }
    }
    assert all[..|all|] == all;
    CatalogLevels(rules, all);
  }

  lemma NotListed(index: map<string, nat>, rules: seq<Rule>, all: seq<FileFinding>, id: string)
    requires Catalogs(rules, all) && Indexes(index, rules)
    ensures id in index <==> id in RuleIds(all)
  {
    hide MostSevere, RuleIds;
    if id in index {
      assert RuleIds(all)[index[id]] == id;
    }
    if id in RuleIds(all) {
      var j :| 0 <= j < |rules| && RuleIds(all)[j] == id;
      assert rules[j].id in index;
    }
  }

  lemma NoRules()
    ensures RuleIds([]) == []
  {
  }

  function AtLeastOne(n: nat): nat { if n == 0 then 1 else n }

  /** The result entry of one finding, under a catalog that lists its rule. */
  ghost predicate Reports(r: Result, f: FileFinding, rules: seq<Rule>) {
    && r.ruleId == f.rule
    && r.ruleIndex < |rules| && rules[r.ruleIndex].id == r.ruleId
    && r.level == SarifLevel(f.severity)
    && r.uri == f.path
    && r.startLine == (match f.location case None => 1 case Some(l) => AtLeastOne(l.line))
    && r.startColumn == (match f.location case None => 1 case Some(l) => AtLeastOne(l.col))
  }

  /** A finding without a place is reported at the start; no line or column is below 1. */
  predicate Placed(r: Result, f: FileFinding) {
    match f.location
    case None => r.startLine == 1 && r.startColumn == 1
    case Some(l) =>
      && r.startLine >= 1 && r.startColumn >= 1
      && (l.line >= 1 ==> r.startLine == l.line) && (l.line == 0 ==> r.startLine == 1)
      && (l.col >= 1 ==> r.startColumn == l.col) && (l.col == 0 ==> r.startColumn == 1)
  }

  /** The log lists each kept finding once, in order, under the rule it names;
      the catalog covers what the cap left out as well. */
  method BuildSarif(all: seq<FileFinding>, readErrors: nat, maxPerRule: nat) returns (log: Sarif)
    ensures Catalogs(log.rules, all)
    ensures |log.results| == |Kept(all, maxPerRule)|
    ensures forall k :: 0 <= k < |log.results| ==> Reports(log.results[k], Kept(all, maxPerRule)[k], log.rules)
    ensures forall k :: 0 <= k < |log.results| ==>
              var r, f := log.results[k], Kept(all, maxPerRule)[k]; ReportedAt(r.level, f.severity) && Placed(r, f)
    ensures forall k :: 0 <= k < |log.rules| ==> Levelled(all, log.rules[k])
    ensures log.executionSuccessful <==> readErrors == 0
  {
    hide Kept, Catalogs, OfRule, SarifLevel, Levelled, ReportedAt;
    var kept, hidden := CapPerRule(all, maxPerRule);
    var rules, ruleIndex := BuildCatalog(all);
    var results: seq<Result> := [];
    for k := 0 to |kept|
      invariant |results| == k
      invariant forall j :: 0 <= j < k ==> Reports(results[j], kept[j], rules)
      invariant forall j :: 0 <= j < k ==> ReportedAt(results[j].level, kept[j].severity) && Placed(results[j], kept[j])
    {
      var f := kept[k];
      KeptIsListed(all, maxPerRule, rules, f);
      LevelsReported(f.severity);
      var idx := if f.rule in ruleIndex then ruleIndex[f.rule] else 0;
      var line, col := 1, 1;
      if f.location.Some? {
        line, col := AtLeastOne(f.location.value.line), AtLeastOne(f.location.value.col);
      }
      results := results + [Result(f.rule, idx, SarifLevel(f.severity), f.path, line, col)];
    }
    log := Sarif(rules, results, readErrors == 0);
  }

  lemma KeptIsListed(all: seq<FileFinding>, max: nat, rules: seq<Rule>, f: FileFinding)
    requires f in Kept(all, max) && Catalogs(rules, all)
    ensures exists k :: 0 <= k < |rules| && rules[k].id == f.rule
  {
    hide MostSevere, Kept, RuleIds;
    var src := KeptInOrder(all, max);
    var j :| 0 <= j < |Kept(all, max)| && Kept(all, max)[j] == f;
    assert all[src[j]] in all;
    RuleIdsDistinct(all);
    var k :| 0 <= k < |RuleIds(all)| && RuleIds(all)[k] == f.rule;
    assert rules[k].id == f.rule;
  }
}
