/**
 What the CREATE INDEX batch promises: no name clash, no index rebuilt twice,
 and an answer for every row of the missing-index report.
 */
module AdviseLaws {
  import opened Wrappers
  import opened Strings
  import opened Identifiers
  import opened Consolidate
  import opened ConsolidateLaws
  import opened ConsolidateRun
  import opened Advise

  // ---- where each statement comes from ---------------------------------------------

  /** Statement `r` answers suggestion `m`. */
  ghost predicate Answers(indexes: seq<IndexMeta>, r: CreateIndex, m: MissingIndex) {
    && r.schema == m.schema
    && r.table == m.table
    && r.keys == m.Key()
    && r.widens == ExistingSameKey(indexes, m)
    && match r.widens
       case Some(ix) => r.name == ix.name && r.included == UnionIncludes(ix.included, m.included)
       case None => r.included == m.included
  }

  /** `recs[k]` answers `entries[src[k]]`, in order, and what is not answered was skipped. */
  ghost predicate Sources(indexes: seq<IndexMeta>, rows: map<string, nat>, recs: seq<CreateIndex>,
                          entries: seq<Entry>, src: seq<nat>)
  {
    && |src| == |recs|
    && (forall k :: 0 <= k < |src| ==> src[k] < |entries| && Answers(indexes, recs[k], entries[src[k]].m))
    && (forall i, j :: 0 <= i < j < |src| ==> src[i] < src[j])
    && RestSkipped(indexes, rows, entries, src)
  }

  ghost predicate RestSkipped(indexes: seq<IndexMeta>, rows: map<string, nat>, entries: seq<Entry>, src: seq<nat>) {
    forall n :: 0 <= n < |entries| && n !in src ==> IsSkipped(indexes, rows, entries[n].m)
  }

  function ShiftAll(src: seq<nat>): (r: seq<nat>)
    ensures |r| == |src| && forall k :: 0 <= k < |src| ==> r[k] == src[k] + 1
  {
    seq(|src|, k requires 0 <= k < |src| => src[k] + 1)
  }

  lemma SourcesAfterSkip(indexes: seq<IndexMeta>, rows: map<string, nat>, recs: seq<CreateIndex>,
                         entries: seq<Entry>, src: seq<nat>)
    requires entries != [] && Sources(indexes, rows, recs, entries[1..], src)
    requires IsSkipped(indexes, rows, entries[0].m)
    ensures Sources(indexes, rows, recs, entries, ShiftAll(src))
  {
    hide Answers, IsSkipped;
    var src' := ShiftAll(src);
    forall n | 0 <= n < |entries| && n !in src'
      ensures IsSkipped(indexes, rows, entries[n].m)
    {
      ShiftedIn(src, n);
      assert n > 0 ==> entries[n] == entries[1..][n - 1];
    }
  }

  lemma ShiftedIn(src: seq<nat>, n: nat)
    ensures n > 0 && n - 1 in src ==> n in ShiftAll(src)
  {
    if n > 0 && n - 1 in src {
      var k :| 0 <= k < |src| && src[k] == n - 1;
      assert ShiftAll(src)[k] == n;
    }
  }

  lemma SourcesAfterStatement(indexes: seq<IndexMeta>, rows: map<string, nat>, r: CreateIndex, recs: seq<CreateIndex>,
                              entries: seq<Entry>, src: seq<nat>)
    requires entries != [] && Sources(indexes, rows, recs, entries[1..], src)
    requires Answers(indexes, r, entries[0].m)
    ensures Sources(indexes, rows, [r] + recs, entries, [0] + ShiftAll(src))
  {
    hide Answers, IsSkipped, RestSkipped;
    RestSkippedStep(indexes, rows, entries, src);
  }

  lemma RestSkippedStep(indexes: seq<IndexMeta>, rows: map<string, nat>, entries: seq<Entry>, src: seq<nat>)
    requires entries != [] && RestSkipped(indexes, rows, entries[1..], src)
    ensures RestSkipped(indexes, rows, entries, [0] + ShiftAll(src))
  {
    hide IsSkipped;
    var src' := [0] + ShiftAll(src);
    forall n | 0 <= n < |entries| && n !in src'
      ensures IsSkipped(indexes, rows, entries[n].m)
    {
      assert src'[0] == 0;
      assert n !in ShiftAll(src);
      ShiftedIn(src, n);
      assert entries[n] == entries[1..][n - 1];
    }
  }

  lemma StatementAnswers(u: Unicode, indexes: seq<IndexMeta>, taken: Names, m: MissingIndex)
    ensures Answers(indexes, Statement(u, indexes, taken, m), m)
    ensures var r := Statement(u, indexes, taken, m); r.widens == None ==> NameOf(r) !in taken
  {
    hide Lower, UnionIncludes, BaseName;
  }

  lemma {:induction false} BatchSources(u: Unicode, indexes: seq<IndexMeta>, rows: map<string, nat>,
                                         taken: Names, entries: seq<Entry>)
    returns (src: seq<nat>)
    ensures Sources(indexes, rows, Batch(u, indexes, rows, taken, entries), entries, src)
    decreases |entries|
  {
    hide IsSkipped, Statement, Answers, Sources;
    if entries == [] {
      src := [];
      NoSources(indexes, rows);
    } else if IsSkipped(indexes, rows, entries[0].m) {
      var rest := BatchSources(u, indexes, rows, taken, entries[1..]);
      var recs := Batch(u, indexes, rows, taken, entries[1..]);
      SourcesAfterSkip(indexes, rows, recs, entries, rest);
      src := ShiftAll(rest);
    } else {
      var r := Statement(u, indexes, taken, entries[0].m);
      var rest := BatchSources(u, indexes, rows, taken + {NameOf(r)}, entries[1..]);
      StatementAnswers(u, indexes, taken, entries[0].m);
      SourcesAfterStatement(indexes, rows, r, Batch(u, indexes, rows, taken + {NameOf(r)}, entries[1..]),
                            entries, rest);
      src := [0] + ShiftAll(rest);
    }
  }

  lemma NoSources(indexes: seq<IndexMeta>, rows: map<string, nat>)
    ensures Sources(indexes, rows, [], [], [])
  {
  }

  // ---- names ---------------------------------------------------------------------------

  /** A fresh name is new to `taken` and to every statement before it. */
  ghost predicate FreshNamesNew(taken: Names, recs: seq<CreateIndex>) {
    forall j :: 0 <= j < |recs| && recs[j].widens == None ==>
      && NameOf(recs[j]) !in taken
      && forall i :: 0 <= i < j ==> NameOf(recs[i]) != NameOf(recs[j])
  }

  lemma {:induction false} BatchNames(u: Unicode, indexes: seq<IndexMeta>, rows: map<string, nat>,
                                       taken: Names, entries: seq<Entry>)
    ensures FreshNamesNew(taken, Batch(u, indexes, rows, taken, entries))
    decreases |entries|
  {
    hide IsSkipped, Statement, NameOf;
    if entries != [] {
      if IsSkipped(indexes, rows, entries[0].m) {
        BatchNames(u, indexes, rows, taken, entries[1..]);
      } else {
        var r := Statement(u, indexes, taken, entries[0].m);
        var rest := Batch(u, indexes, rows, taken + {NameOf(r)}, entries[1..]);
        BatchNames(u, indexes, rows, taken + {NameOf(r)}, entries[1..]);
        StatementAnswers(u, indexes, taken, entries[0].m);
        var recs := [r] + rest;
        forall j | 0 <= j < |recs| && recs[j].widens == None
          ensures NameOf(recs[j]) !in taken
          ensures forall i :: 0 <= i < j ==> NameOf(recs[i]) != NameOf(recs[j])
        {
          if j > 0 {
            assert recs[j] == rest[j - 1];
            assert forall i :: 0 < i < j ==> recs[i] == rest[i - 1];
          }
        }
      }
    }
  }

  predicate SameTable(a: CreateIndex, b: CreateIndex) {
    EqIgnoreCase(a.schema, b.schema) && EqIgnoreCase(a.table, b.table)
  }

  /** Index names are distinct on each table, as the engine demands. */
  ghost predicate DistinctCatalog(indexes: seq<IndexMeta>) {
    forall i, j :: 0 <= i < |indexes| && 0 <= j < |indexes|
                   && OnTable(indexes[i], indexes[j].schema, indexes[j].table)
                   && EqIgnoreCase(indexes[i].name, indexes[j].name) ==>
      indexes[i] == indexes[j]
  }

  /** Full case folding never separates what ASCII folding identifies. */
  ghost predicate RespectsAscii(lower: string -> string) {
    forall s, t :: Lower(s) == Lower(t) ==> lower(s) == lower(t)
  }

  lemma TableLcOfSame(s: string, t: string, s': string, t': string)
    requires EqIgnoreCase(s, s') && EqIgnoreCase(t, t')
    ensures TableLc(s, t) == TableLc(s', t')
  {
    hide Lower;
    LowerConcat(s + ".", t);
    LowerConcat(s, ".");
    LowerConcat(s' + ".", t');
    LowerConcat(s', ".");
  }

  /** Two statements on one table never rebuild the same index: their keys
      would be the same, and consolidation keeps no two related keys. */
  lemma WidenedOnce(u: Unicode, missing: seq<MissingIndex>, indexes: seq<IndexMeta>, a: nat, b: nat,
                    ra: CreateIndex, rb: CreateIndex)
    requires RespectsAscii(u.lower)
    requires a < |Consolidated(u.lower, missing)| && b < |Consolidated(u.lower, missing)| && a != b
    requires Answers(indexes, ra, Consolidated(u.lower, missing)[a].m)
    requires Answers(indexes, rb, Consolidated(u.lower, missing)[b].m)
    requires ra.widens.Some? && rb.widens.Some?
    requires SameTable(ra, rb)
    requires ra.keys != []
    ensures ra.widens != rb.widens
  {
    hide Consolidated, Lower, Norm, IsUnionOf, UnionIncludes;
    var out := Consolidated(u.lower, missing);
    var rows := ConsolidationConserves(u.lower, missing);
    assert TableOf(u.lower, out[a].m) == TableOf(u.lower, out[b].m);
    if ra.widens == rb.widens {
      var keys := ra.widens.value.keys;
      SameColumnsPrefix(keys, out[a].m.Key(), out[b].m.Key());
    }
  }

  lemma SameColumnsPrefix(k: seq<string>, a: seq<string>, b: seq<string>)
    requires SameColumns(k, a) && SameColumns(k, b) && a != []
    ensures IsKeyPrefix(a, b)
  {
    hide Norm;
    forall n | 0 <= n < |a|
      ensures ColEq(a[n], b[n])
    {
      assert ColEq(k[n], a[n]) && ColEq(k[n], b[n]);
    }
  }

  /** The batch is clash-free. On one table no two statements carry the same
      index name; a new index never takes a catalog name; and no existing
      index is rebuilt twice. */
  lemma BatchIsClashFree(u: Unicode, missing: seq<MissingIndex>, indexes: seq<IndexMeta>, rows: map<string, nat>)
    requires RespectsAscii(u.lower) && DistinctCatalog(indexes)
    ensures var recs := Advice(u, missing, indexes, rows);
            && (forall i, j :: 0 <= i < j < |recs| && SameTable(recs[i], recs[j]) ==>
                  !EqIgnoreCase(recs[i].name, recs[j].name))
            && (forall i, ix :: 0 <= i < |recs| && recs[i].widens == None && ix in indexes
                                && OnTable(ix, recs[i].schema, recs[i].table) ==>
                  !EqIgnoreCase(ix.name, recs[i].name))
            && (forall i, j :: 0 <= i < j < |recs| && SameTable(recs[i], recs[j])
                               && recs[i].widens.Some? && recs[j].widens.Some? ==>
                  recs[i].widens != recs[j].widens)
  {
    hide Lower, Consolidated, IsSkipped, UnionIncludes, SameColumns, RespectsAscii, Statement;
    var recs := Advice(u, missing, indexes, rows);
    var entries := Consolidated(u.lower, missing);
    var taken := CatalogNames(indexes);
    BatchNames(u, indexes, rows, taken, entries);
    var src := BatchSources(u, indexes, rows, taken, entries);
    forall i, ix | 0 <= i < |recs| && recs[i].widens == None && ix in indexes
                   && OnTable(ix, recs[i].schema, recs[i].table)
      ensures !EqIgnoreCase(ix.name, recs[i].name)
    {
      TableLcOfSame(ix.schema, ix.table, recs[i].schema, recs[i].table);
      assert TakenName(TableLc(ix.schema, ix.table), ix.name) in taken;
    }
    forall i, j | 0 <= i < j < |recs| && SameTable(recs[i], recs[j])
      ensures !EqIgnoreCase(recs[i].name, recs[j].name)
      ensures recs[i].widens.Some? && recs[j].widens.Some? ==> recs[i].widens != recs[j].widens
    {
      TableLcOfSame(recs[i].schema, recs[i].table, recs[j].schema, recs[j].table);
      if recs[j].widens == None {
        assert NameOf(recs[i]) != NameOf(recs[j]);
      } else if recs[i].widens == None {
        WidenedIsCatalog(indexes, recs[j], entries[src[j]].m);
      } else {
        EntryKeyed(u, missing, src[i]);
        WidenedOnce(u, missing, indexes, src[i], src[j], recs[i], recs[j]);
        WidenedNamesDiffer(indexes, recs[i], recs[j], entries[src[i]].m, entries[src[j]].m);
      }
    }
  }

  lemma EntryKeyed(u: Unicode, missing: seq<MissingIndex>, k: nat)
    requires k < |Consolidated(u.lower, missing)|
    ensures Consolidated(u.lower, missing)[k].m.Key() != []
  {
    hide Consolidated, TableOf;
    var m := EverySurvivorGenuine(u.lower, missing, k);
  }

  lemma WidenedIsCatalog(indexes: seq<IndexMeta>, r: CreateIndex, m: MissingIndex)
    requires Answers(indexes, r, m) && r.widens.Some?
    ensures NameOf(r) in CatalogNames(indexes)
    ensures r.widens.value in indexes && OnTable(r.widens.value, r.schema, r.table) && r.name == r.widens.value.name
  {
    hide Lower, UnionIncludes, SameColumns;
    var ix := r.widens.value;
    TableLcOfSame(ix.schema, ix.table, r.schema, r.table);
    assert TakenName(TableLc(ix.schema, ix.table), ix.name) in CatalogNames(indexes);
  }

  lemma WidenedNamesDiffer(indexes: seq<IndexMeta>, a: CreateIndex, b: CreateIndex, ma: MissingIndex, mb: MissingIndex)
    requires DistinctCatalog(indexes)
    requires Answers(indexes, a, ma) && Answers(indexes, b, mb)
    requires a.widens.Some? && b.widens.Some? && a.widens != b.widens && SameTable(a, b)
    ensures !EqIgnoreCase(a.name, b.name)
  {
    hide Lower, UnionIncludes, SameColumns;
    WidenedIsCatalog(indexes, a, ma);
    WidenedIsCatalog(indexes, b, mb);
    var x, y := a.widens.value, b.widens.value;
    var i :| 0 <= i < |indexes| && indexes[i] == x;
    var j :| 0 <= j < |indexes| && indexes[j] == y;
    assert OnTable(indexes[i], indexes[j].schema, indexes[j].table);
  }

  // ---- nothing lost --------------------------------------------------------------------

  /** `inc` offers every named column of `cols`. */
  ghost predicate Offers(inc: seq<string>, cols: seq<string>) {
    forall c :: c in cols && Norm(c) != "" ==> HasColumn(inc, c)
  }

  lemma OffersTransitive(a: seq<string>, b: seq<string>, c: seq<string>)
    requires Offers(a, b) && Offers(b, c)
    ensures Offers(a, c)
  {
    hide Norm;
    forall x | x in c && Norm(x) != ""
      ensures HasColumn(a, x)
    {
      var y :| y in b && ColEq(y, x);
      HasColumnThrough(a, x, y);
    }
  }

  /** The index `ix` serves what row `m` asked for. */
  ghost predicate ServedBy(m: MissingIndex, keys: seq<string>, columns: seq<string>) {
    IsKeyPrefix(m.Key(), keys) && Offers(columns, m.included)
  }

  lemma CoveredServes(indexes: seq<IndexMeta>, e: MissingIndex, m: MissingIndex) returns (ix: IndexMeta)
    requires IsCovered(indexes, e) && ServedBy(m, e.Key(), e.included)
    ensures ix in indexes && OnTable(ix, e.schema, e.table)
    ensures ServedBy(m, ix.keys, ix.included + ix.keys)
  {
    hide Lower, Norm;
    ix := ExistingSameKey(indexes, e).value;
    SameColumnsExtend(m.Key(), e.Key(), ix.keys);
    OffersTransitive(ix.included + ix.keys, e.included, m.included);
  }

  lemma SameColumnsExtend(p: seq<string>, k: seq<string>, ix: seq<string>)
    requires IsKeyPrefix(p, k) && SameColumns(ix, k)
    ensures IsKeyPrefix(p, ix)
  {
    hide Norm;
    forall n | 0 <= n < |p|
      ensures ColEq(p[n], ix[n])
    {
      assert ColEq(p[n], k[n]) && ColEq(ix[n], k[n]);
    }
  }

  lemma StatementServes(indexes: seq<IndexMeta>, r: CreateIndex, e: MissingIndex, m: MissingIndex)
    requires Answers(indexes, r, e) && ServedBy(m, e.Key(), e.included)
    ensures ServedBy(m, r.keys, r.included)
    ensures r.widens.Some? ==> r.widens.value.included <= r.included
  {
    hide Lower, Norm, UnionIncludes, IsKeyPrefix, SameColumns, HasColumn;
    match r.widens
    case None =>
    case Some(ix) =>
      UnionKeeps(ix.included, e.included);
      assert Offers(r.included, e.included);
      OffersTransitive(r.included, e.included, m.included);
  }

  datatype Outcome = SmallTable | Existing(ix: IndexMeta) | Created(k: nat)

  /** Every keyed row of the report gets an answer, through the survivor `e`
      that stands for it: its table is measured small, an index in the catalog
      already serves it, or a statement of the batch creates one that does,
      and gives up nothing of the index it rebuilds. */
  lemma EveryRowAnswered(u: Unicode, missing: seq<MissingIndex>, indexes: seq<IndexMeta>, rows: map<string, nat>,
                         m: MissingIndex)
    returns (e: MissingIndex, o: Outcome)
    requires m in missing && m.Key() != []
    ensures exists n :: 0 <= n < |Consolidated(u.lower, missing)| && e == Consolidated(u.lower, missing)[n].m
    ensures TableOf(u.lower, m) == TableOf(u.lower, e) && ServedBy(m, e.Key(), e.included)
    ensures var recs := Advice(u, missing, indexes, rows);
            match o
            case SmallTable => IsSmall(rows, e)
            case Existing(ix) =>
              ix in indexes && OnTable(ix, e.schema, e.table) && ServedBy(m, ix.keys, ix.included + ix.keys)
            case Created(k) =>
              && k < |recs| && recs[k].schema == e.schema && recs[k].table == e.table
              && ServedBy(m, recs[k].keys, recs[k].included)
              && (recs[k].widens.Some? ==> recs[k].widens.value.included <= recs[k].included)
  {
    hide Consolidated, TableOf, Lower, UnionIncludes, IsKeyPrefix, HasColumn, Norm, Batch, SameColumns;
    var out := Consolidated(u.lower, missing);
    var n := EveryRowServed(u.lower, missing, m);
    e := out[n].m;
    var src := BatchSources(u, indexes, rows, CatalogNames(indexes), out);
    if n in src {
      var k :| 0 <= k < |src| && src[k] == n;
      StatementServes(indexes, Advice(u, missing, indexes, rows)[k], e, m);
      o := Created(k);
    } else {
      assert IsSkipped(indexes, rows, e);
      EntryKeyed(u, missing, n);
      if IsSmall(rows, e) {
        o := SmallTable;
      } else {
        var ix := CoveredServes(indexes, e, m);
        o := Existing(ix);
      }
    }
  }
}
