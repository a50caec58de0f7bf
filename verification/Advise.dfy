/**
 From consolidated suggestions to CREATE INDEX statements: which suggestions
 are dropped, which rebuild an existing index, and how the others are named.
 */
module Advise {
  import opened Wrappers
  import opened Strings
  import opened Identifiers
  import opened Consolidate

  /** The two Unicode tables the program consults. */
  datatype Unicode = Unicode(lower: string -> string, alphanumeric: char -> bool)

  datatype IndexMeta = IndexMeta(
    schema: string, table: string, name: string,
    isUnique: bool, isPrimaryKey: bool, isClustered: bool,
    keys: seq<string>, included: seq<string>)

  datatype PartitionStats = PartitionStats(
    schema: string, table: string, indexName: Option<string>, indexId: Option<nat>, rowCount: nat)

  datatype CreateIndex = CreateIndex(
    schema: string, table: string, name: string, widens: Option<IndexMeta>,
    keys: seq<string>, included: seq<string>)

  const SMALL_TABLE_ROWS := 1000

  /** How a table is named in maps: `schema.table`, in ASCII lower case. */
  function TableLc(schema: string, table: string): string { Lower(schema + "." + table) }

  // ---- row counts ------------------------------------------------------------------

  function StatsKey(p: PartitionStats): string { TableLc(p.schema, p.table) }

  /** Heap and clustered partitions carry the table's own rows. */
  predicate IsBase(p: PartitionStats) {
    match p.indexId
    case Some(id) => id == 0 || id == 1
    case None => p.indexName == None
  }

  function BaseRows(stats: seq<PartitionStats>, t: string): Option<nat> {
    if stats == [] then None
    else
      var p, before := stats[|stats| - 1], BaseRows(stats[..|stats| - 1], t);
      if IsBase(p) && StatsKey(p) == t then
        Some((match before case None => 0 case Some(n) => n) + p.rowCount)
      else before
  }

  function LargestPartition(stats: seq<PartitionStats>, t: string): Option<nat> {
    if stats == [] then None
    else
      var p, before := stats[|stats| - 1], LargestPartition(stats[..|stats| - 1], t);
      if StatsKey(p) == t then
        Some(if before.Some? && before.value > p.rowCount then before.value else p.rowCount)
      else before
  }

  /** A table's rows: the sum over its own partitions when any is listed, else
      the largest count any of its indexes shows. */
  function RowsOfTable(stats: seq<PartitionStats>, t: string): Option<nat> {
    var base := BaseRows(stats, t);
    if base.Some? then base else LargestPartition(stats, t)
  }

  function Get<K, V>(m: map<K, V>, k: K): Option<V> { if k in m then Some(m[k]) else None }

  lemma StatsStep(stats: seq<PartitionStats>, k: nat)
    requires k < |stats|
    ensures stats[..k + 1][..k] == stats[..k] && stats[..k + 1][k] == stats[k]
  {
  }

  ghost predicate AreRowCounts(out: map<string, nat>, stats: seq<PartitionStats>) {
    forall t :: Get(out, t) == RowsOfTable(stats, t)
  }

  method TableRowCounts(stats: seq<PartitionStats>) returns (out: map<string, nat>)
    ensures AreRowCounts(out, stats)
  {
    hide Lower;
    out := map[];
    var base: map<string, nat> := map[];
    for k := 0 to |stats|
      invariant forall t :: Get(out, t) == LargestPartition(stats[..k], t)
      invariant forall t :: Get(base, t) == BaseRows(stats[..k], t)
    {
      StatsStep(stats, k);
      var p := stats[k];
      var key := TableLc(p.schema, p.table);
      assert Get(out, key) == LargestPartition(stats[..k], key);
      assert Get(base, key) == BaseRows(stats[..k], key);
      out := out[key := if key in out && out[key] > p.rowCount then out[key] else p.rowCount];
      match p.indexId {
        case Some(id) =>
          if id == 0 || id == 1 {
            base := base[key := (if key in base then base[key] else 0) + p.rowCount];
          }
        case None =>
          if p.indexName == None {
            base := base[key := (if key in base then base[key] else 0) + p.rowCount];
          }
      }
    }
    assert stats[..|stats|] == stats;
    ghost var largest := out;
    var keys := base.Keys;
    while keys != {}
      invariant keys <= base.Keys
      invariant forall t :: Get(out, t) == if t in base && t !in keys then Some(base[t]) else Get(largest, t)
    {
      var t :| t in keys;
      out := out[t := base[t]];
      keys := keys - {t};
    }
  }

  // ---- names -------------------------------------------------------------------------

  function Digit(d: nat): char
    requires d < 10
  {
    ('0' as int + d) as char
  }

  function Decimal(n: nat): (s: string)
    ensures s != []
  {
    if n < 10 then [Digit(n)] else Decimal(n / 10) + [Digit(n % 10)]
  }

  function Keep(s: string, p: char -> bool): string {
    if s == [] then [] else (if p(s[0]) then [s[0]] else []) + Keep(s[1..], p)
  }

  /** An identifier reduced to what may stand inside an index name. */
  function IdFrag(u: Unicode, s: string): string {
    Keep(Unbr(s), c => u.alphanumeric(c) || c == '_')
  }

  function Join(parts: seq<string>, sep: string): string {
    if parts == [] then "" else if |parts| == 1 then parts[0] else parts[0] + sep + Join(parts[1..], sep)
  }

  function Frags(u: Unicode, cols: seq<string>): seq<string> {
    seq(|cols|, k requires 0 <= k < |cols| => IdFrag(u, cols[k]))
  }

  const MAX_NAME := 120

  function BaseName(u: Unicode, m: MissingIndex): string {
    var name := "IX_" + IdFrag(u, m.table) + "_" + Join(Frags(u, m.Key()), "_");
    if |name| > MAX_NAME then name[..MAX_NAME] else name
  }

  /** The names tried in turn: `base`, `base_2`, `base_3`, … */
  function NthName(base: string, n: nat): string {
    if n <= 1 then base else base + "_" + Decimal(n)
  }

  type Names = set<(string, string)>

  function TakenName(t: string, name: string): (string, string) { (t, Lower(name)) }

  lemma {:induction false} DecimalInjective(a: nat, b: nat)
    requires Decimal(a) == Decimal(b)
    ensures a == b
  {
    if a < 10 && b < 10 {
      assert Decimal(a)[0] == Decimal(b)[0];
    } else if a >= 10 && b >= 10 {
      var x, y := Decimal(a / 10), Decimal(b / 10);
      assert x == Decimal(a)[..|Decimal(a)| - 1] && y == Decimal(b)[..|Decimal(b)| - 1];
      DecimalInjective(a / 10, b / 10);
      assert Digit(a % 10) == Decimal(a)[|x|] && Digit(b % 10) == Decimal(b)[|y|];
    }
  }

  lemma {:induction false} DecimalIsLower(n: nat)
    ensures Lower(Decimal(n)) == Decimal(n)
  {
    if n >= 10 {
      DecimalIsLower(n / 10);
      LowerConcat(Decimal(n / 10), [Digit(n % 10)]);
    }
  }

  lemma NamesDiffer(base: string, a: nat, b: nat)
    requires 1 <= a < b
    ensures Lower(NthName(base, a)) != Lower(NthName(base, b))
  {
    hide Lower, Decimal;
    var stem := base + "_";
    LowerConcat(stem, Decimal(b));
    DecimalIsLower(b);
    if a > 1 {
      LowerConcat(stem, Decimal(a));
      DecimalIsLower(a);
      if Lower(NthName(base, a)) == Lower(NthName(base, b)) {
        assert Decimal(a) == (Lower(stem) + Decimal(a))[|stem|..];
        assert Decimal(b) == (Lower(stem) + Decimal(b))[|stem|..];
        DecimalInjective(a, b);
      }
    }
  }

  /** The taken names that the first `n - 1` attempts have not run into. */
  ghost function Untried(taken: Names, t: string, base: string, n: nat): Names {
    set p | p in taken && forall k :: 1 <= k < n ==> p != TakenName(t, NthName(base, k))
  }

  lemma UntriedShrinks(taken: Names, t: string, base: string, n: nat)
    requires n >= 1 && TakenName(t, NthName(base, n)) in taken
    ensures Untried(taken, t, base, n + 1) < Untried(taken, t, base, n)
  {
    hide Lower, NthName;
    var p := TakenName(t, NthName(base, n));
    forall k | 1 <= k < n
      ensures p != TakenName(t, NthName(base, k))
    {
      NamesDiffer(base, k, n);
    }
    assert p in Untried(taken, t, base, n) && p !in Untried(taken, t, base, n + 1);
  }

  /** The first name from attempt `n` on that no index of the table carries. */
  function FirstFree(taken: Names, t: string, base: string, n: nat): (name: string)
    requires n >= 1
    ensures TakenName(t, name) !in taken
    decreases Untried(taken, t, base, n)
  {
    if TakenName(t, NthName(base, n)) in taken then
      UntriedShrinks(taken, t, base, n);
      FirstFree(taken, t, base, n + 1)
    else NthName(base, n)
  }

  /** Suffixes are tried in order, so the name is the least free one. */
  lemma {:induction false} FirstFreeIsLeast(taken: Names, t: string, base: string, n: nat) returns (k: nat)
    requires n >= 1
    ensures n <= k && FirstFree(taken, t, base, n) == NthName(base, k)
    ensures forall j :: n <= j < k ==> TakenName(t, NthName(base, j)) in taken
    decreases Untried(taken, t, base, n)
  {
    hide Lower, NthName;
    if TakenName(t, NthName(base, n)) in taken {
      UntriedShrinks(taken, t, base, n);
      k := FirstFreeIsLeast(taken, t, base, n + 1);
    } else {
      k := n;
    }
  }

  method FreshName(taken: Names, t: string, base: string) returns (name: string)
    ensures name == FirstFree(taken, t, base, 1)
  {
    hide Lower, Decimal;
    name := base;
    var n := 2;
    while (t, Lower(name)) in taken
      invariant n >= 2 && name == NthName(base, n - 1)
      invariant FirstFree(taken, t, base, 1) == FirstFree(taken, t, base, n - 1)
      decreases Untried(taken, t, base, n - 1)
    {
      UntriedShrinks(taken, t, base, n - 1);
      name := base + "_" + Decimal(n);
      n := n + 1;
    }
  }

  // ---- one suggestion ------------------------------------------------------------------

  predicate OnTable(ix: IndexMeta, schema: string, table: string) {
    EqIgnoreCase(ix.schema, schema) && EqIgnoreCase(ix.table, table)
  }

  /** An ordinary index with exactly the suggested key. */
  predicate SameKeyIndex(ix: IndexMeta, m: MissingIndex) {
    && OnTable(ix, m.schema, m.table)
    && !ix.isPrimaryKey && !ix.isUnique && !ix.isClustered
    && SameColumns(ix.keys, m.Key())
  }

  function ExistingSameKey(indexes: seq<IndexMeta>, m: MissingIndex): (r: Option<IndexMeta>)
    ensures r.Some? ==> r.value in indexes && SameKeyIndex(r.value, m)
  {
    if indexes == [] then None
    else if SameKeyIndex(indexes[0], m) then Some(indexes[0])
    else ExistingSameKey(indexes[1..], m)
  }

  predicate HoldsAll(ix: IndexMeta, included: seq<string>) {
    forall c :: c in included ==> HasColumn(ix.included + ix.keys, c)
  }

  predicate IsSmall(rows: map<string, nat>, m: MissingIndex) {
    var t := TableLc(m.schema, m.table);
    t in rows && rows[t] < SMALL_TABLE_ROWS
  }

  predicate IsCovered(indexes: seq<IndexMeta>, m: MissingIndex) {
    var ix := ExistingSameKey(indexes, m);
    ix.Some? && HoldsAll(ix.value, m.included)
  }

  /** No statement: no key, a one-page table, or an index that serves already. */
  predicate IsSkipped(indexes: seq<IndexMeta>, rows: map<string, nat>, m: MissingIndex) {
    m.Key() == [] || IsSmall(rows, m) || IsCovered(indexes, m)
  }

  function Statement(u: Unicode, indexes: seq<IndexMeta>, taken: Names, m: MissingIndex): CreateIndex {
    match ExistingSameKey(indexes, m)
    case Some(ix) =>
      CreateIndex(m.schema, m.table, ix.name, Some(ix), m.Key(), UnionIncludes(ix.included, m.included))
    case None =>
      CreateIndex(m.schema, m.table, FirstFree(taken, TableLc(m.schema, m.table), BaseName(u, m), 1), None,
                  m.Key(), m.included)
  }

  function NameOf(r: CreateIndex): (string, string) { TakenName(TableLc(r.schema, r.table), r.name) }

  function CatalogNames(indexes: seq<IndexMeta>): Names {
    set ix | ix in indexes :: TakenName(TableLc(ix.schema, ix.table), ix.name)
  }

  // ---- the batch -------------------------------------------------------------------------

  function Batch(u: Unicode, indexes: seq<IndexMeta>, rows: map<string, nat>, taken: Names, entries: seq<Entry>)
    : seq<CreateIndex>
    decreases |entries|
  {
    if entries == [] then []
    else if IsSkipped(indexes, rows, entries[0].m) then Batch(u, indexes, rows, taken, entries[1..])
    else
      var r := Statement(u, indexes, taken, entries[0].m);
      [r] + Batch(u, indexes, rows, taken + {NameOf(r)}, entries[1..])
  }

  /** The CREATE INDEX statements for a missing-index report. */
  function Advice(u: Unicode, missing: seq<MissingIndex>, indexes: seq<IndexMeta>, rows: map<string, nat>)
    : seq<CreateIndex>
  {
    Batch(u, indexes, rows, CatalogNames(indexes), Consolidated(u.lower, missing))
  }

  method FindSameKey(indexes: seq<IndexMeta>, m: MissingIndex) returns (r: Option<IndexMeta>)
    ensures r == ExistingSameKey(indexes, m)
  {
    hide SameKeyIndex;
    for k := 0 to |indexes|
      invariant ExistingSameKey(indexes, m) == ExistingSameKey(indexes[k..], m)
    {
      if SameKeyIndex(indexes[k], m) {
        return Some(indexes[k]);
      }
    }
    return None;
  }

  method CollectNames(indexes: seq<IndexMeta>) returns (taken: Names)
    ensures taken == CatalogNames(indexes)
  {
    hide Lower;
    taken := {};
    for k := 0 to |indexes|
      invariant taken == CatalogNames(indexes[..k])
    {
      var ix := indexes[k];
      assert forall x :: x in indexes[..k + 1] <==> x in indexes[..k] || x == ix;
      taken := taken + {(Lower(ix.schema + "." + ix.table), Lower(ix.name))};
    }
    assert indexes[..|indexes|] == indexes;
  }

  method IndexFor(u: Unicode, indexes: seq<IndexMeta>, trueRows: map<string, nat>, taken: Names, m: MissingIndex)
    returns (r: Option<CreateIndex>)
    ensures r == if IsSkipped(indexes, trueRows, m) then None else Some(Statement(u, indexes, taken, m))
  {
    hide Lower, BaseName, UnionIncludes, FirstFree, ExistingSameKey, HoldsAll, HasColumn;
    var keys := m.equality + m.inequality;
    if keys == [] { return None; }
    var tableLc := TableLc(m.schema, m.table);
    if tableLc in trueRows && trueRows[tableLc] < SMALL_TABLE_ROWS { return None; }
    var existing := FindSameKey(indexes, m);
    match existing {
      case Some(ix) =>
        // The existing index has this key and every requested INCLUDE.
        if HoldsAll(ix, m.included) { return None; }
        var inc := UnionIncludesInto(ix.included, m.included);
        return Some(CreateIndex(m.schema, m.table, ix.name, existing, keys, inc));
      case None =>
        var name := FreshName(taken, tableLc, BaseName(u, m));
        return Some(CreateIndex(m.schema, m.table, name, None, keys, m.included));
    }
  }

  lemma BatchStep(u: Unicode, indexes: seq<IndexMeta>, rows: map<string, nat>, taken: Names, entries: seq<Entry>)
    requires entries != []
    ensures var r := Statement(u, indexes, taken, entries[0].m);
            Batch(u, indexes, rows, taken, entries) ==
            if IsSkipped(indexes, rows, entries[0].m) then Batch(u, indexes, rows, taken, entries[1..])
            else [r] + Batch(u, indexes, rows, taken + {NameOf(r)}, entries[1..])
  {
    hide IsSkipped, Statement;
  }

  lemma BatchEnd(u: Unicode, indexes: seq<IndexMeta>, rows: map<string, nat>, taken: Names)
    ensures Batch(u, indexes, rows, taken, []) == []
  {
  }

  method CreateIndexes(u: Unicode, missing: seq<MissingIndex>, indexes: seq<IndexMeta>, stats: seq<PartitionStats>)
    returns (recs: seq<CreateIndex>)
    ensures exists rows :: AreRowCounts(rows, stats) && recs == Advice(u, missing, indexes, rows)
  {
    hide IsSkipped, Statement, Lower, AreRowCounts, Batch, Consolidated;
    var consolidated := ConsolidateMissingIndexesTraced(u.lower, missing);
    var trueRows := TableRowCounts(stats);
    var taken := CollectNames(indexes);
    recs := [];
    for k := 0 to |consolidated|
      invariant Advice(u, missing, indexes, trueRows) == recs + Batch(u, indexes, trueRows, taken, consolidated[k..])
    {
      BatchStep(u, indexes, trueRows, taken, consolidated[k..]);
      var r := IndexFor(u, indexes, trueRows, taken, consolidated[k].m);
      if r.Some? {
        taken := taken + {NameOf(r.value)};
        recs := recs + [r.value];
      }
    }
    BatchEnd(u, indexes, trueRows, taken);
  }
}
