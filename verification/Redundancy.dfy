/**
 Existing indexes the advisor would drop: exact duplicates, keys that are a
 strict prefix of another key, and, as an optional merge, indexes that share a
 key but carry different INCLUDEs.
 */
module Redundancy {
  import opened Wrappers
  import opened Identifiers
  import opened Consolidate
  import opened Advise
  import opened TableOrder

  /** Keep the index at one catalog position, drop the one at another. */
  datatype Drop = Drop(keep: nat, drop: nat)

  type Catalog = seq<IndexMeta>

  /** How many reads the usage counters show for each position; None if there is no row. */
  type Reads = seq<Option<nat>>

  predicate IsConstraint(ix: IndexMeta) { ix.isPrimaryKey || ix.isUnique }

  function Table(ix: IndexMeta): TableKey { (ix.schema, ix.table) }

  predicate SameColumnSet(a: seq<string>, b: seq<string>) {
    |a| == |b| && forall x :: x in a ==> HasColumn(b, x)
  }

  predicate SameKey(a: IndexMeta, b: IndexMeta) { a.keys != [] && SameColumns(a.keys, b.keys) }

  /** Exact duplicates `i < j`: the constraint stays, else the first. */
  function DuplicateVerdict(cat: Catalog, i: nat, j: nat): Option<Drop>
    requires i < |cat| && j < |cat|
  {
    var a, b := cat[i], cat[j];
    if !SameKey(a, b) || !SameColumnSet(a.included, b.included) then None
    else
      var d := if IsConstraint(a) then Drop(i, j) else if IsConstraint(b) then Drop(j, i) else Drop(i, j);
      if IsConstraint(cat[d.drop]) then None else Some(d)
  }

  /** Same key, different INCLUDEs: the index with fewer reads is the one to
      retire, the later one on a tie. */
  function OverlapVerdict(cat: Catalog, counts: Reads, i: nat, j: nat): Option<Drop>
    requires i < |cat| && j < |cat| && |counts| == |cat|
  {
    var a, b := cat[i], cat[j];
    if !SameKey(a, b) || SameColumnSet(a.included, b.included) || IsConstraint(a) || IsConstraint(b) then None
    else
      match (counts[i], counts[j])
      case (Some(x), Some(y)) => Some(if y > x then Drop(j, i) else Drop(i, j))
      case (None, Some(y)) => Some(if y > 0 then Drop(j, i) else Drop(i, j))
      case _ => Some(Drop(i, j))
  }

  predicate Positions(cat: Catalog, list: seq<nat>) { forall k :: 0 <= k < |list| ==> list[k] < |cat| }

  /** A merge recommendation: an exact duplicate, or an overlap worth merging. */
  datatype Merge = Merge(d: Drop, exact: bool)

  function PairMerge(cat: Catalog, counts: Reads, i: nat, j: nat): Option<Merge>
    requires i < |cat| && j < |cat| && |counts| == |cat|
  {
    match DuplicateVerdict(cat, i, j)
    case Some(d) => Some(Merge(d, true))
    case None =>
      match OverlapVerdict(cat, counts, i, j)
      case Some(d) => Some(Merge(d, false))
      case None => None
  }

  /** The recommendations of the double loop over one table's indexes, from `(i, j)` on. */
  function MergesFrom(cat: Catalog, counts: Reads, list: seq<nat>, i: nat, j: nat): seq<Merge>
    requires Positions(cat, list) && |counts| == |cat|
    decreases |list| - i, |list| - j
  {
    if i >= |list| then []
    else if j >= |list| then MergesFrom(cat, counts, list, i + 1, i + 2)
    else ToSeq(PairMerge(cat, counts, list[i], list[j])) + MergesFrom(cat, counts, list, i, j + 1)
  }

  /** The catalog positions of one table's indexes, in catalog order. */
  function PositionsOf(cat: Catalog, t: TableKey): (r: seq<nat>)
    ensures Positions(cat, r)
  {
    if cat == [] then []
    else
      var n := |cat| - 1;
      PositionsOf(cat[..n], t) + if Table(cat[n]) == t then [n] else []
  }

  /** `i` and `j` index one table, in catalog order. */
  predicate Pair(cat: Catalog, i: nat, j: nat) { i < j < |cat| && Table(cat[i]) == Table(cat[j]) }

  ghost predicate DuplicateDrop(cat: Catalog, d: Drop) {
    exists i: nat, j: nat :: Pair(cat, i, j) && DuplicateVerdict(cat, i, j) == Some(d)
  }

  ghost predicate OverlapDrop(cat: Catalog, counts: Reads, d: Drop)
    requires |counts| == |cat|
  {
    exists i: nat, j: nat :: Pair(cat, i, j) && OverlapVerdict(cat, counts, i, j) == Some(d)
  }

  ghost predicate Recommended(cat: Catalog, counts: Reads, m: Merge)
    requires |counts| == |cat|
  {
    exists i: nat, j: nat :: Pair(cat, i, j) && PairMerge(cat, counts, i, j) == Some(m)
  }

  /** A strictly longer key on the same table that starts with this one. */
  predicate Supersedes(cat: Catalog, p: nat, q: nat)
    requires p < |cat| && q < |cat|
  {
    && Table(cat[p]) == Table(cat[q])
    && |cat[q].keys| > |cat[p].keys|
    && IsKeyPrefix(cat[p].keys, cat[q].keys)
  }

  ghost predicate PrefixRedundant(cat: Catalog, p: nat) {
    p < |cat| && !IsConstraint(cat[p]) && exists q :: 0 <= q < |cat| && Supersedes(cat, p, q)
  }

  // ---- what a drop means -------------------------------------------------------------------

  /** Neither a primary key nor unique: an index that may be dropped. */
  predicate Ordinary(ix: IndexMeta) { !ix.isPrimaryKey && !ix.isUnique }

  /** Two indexes of one table with keys of the same columns in the same order. */
  predicate SameKeyOnTable(a: IndexMeta, b: IndexMeta) {
    a.schema == b.schema && a.table == b.table && a.keys != [] && Norms(a.keys) == Norms(b.keys)
  }

  /** The key of `a` is a strict prefix of that of `b`, on one table. */
  predicate StrictPrefixOnTable(a: IndexMeta, b: IndexMeta) {
    a.schema == b.schema && a.table == b.table && a.keys != [] && Norms(a.keys) < Norms(b.keys)
  }

  /** Of two positions the earlier one is asked whether it has the other's INCLUDEs. */
  predicate SameIncludes(cat: Catalog, p: nat, q: nat)
    requires p < |cat| && q < |cat|
  {
    if p < q then SameColumnSet(cat[p].included, cat[q].included) else SameColumnSet(cat[q].included, cat[p].included)
  }

  lemma SameColumnsMeans(a: seq<string>, b: seq<string>)
    ensures SameColumns(a, b) <==> Norms(a) == Norms(b)
  {
    hide Norm;
    if Norms(a) == Norms(b) {
      forall k | 0 <= k < |a|
        ensures ColEq(a[k], b[k])
      {
        assert Norms(a)[k] == Norms(b)[k];
      }
    }
  }

  lemma SameKeyMeans(a: IndexMeta, b: IndexMeta)
    ensures SameKey(a, b) <==> a.keys != [] && Norms(a.keys) == Norms(b.keys)
    ensures Norms(a.keys) == Norms(b.keys) ==> (a.keys == [] <==> b.keys == [])
  {
    hide SameColumns;
    SameColumnsMeans(a.keys, b.keys);
    assert |Norms(a.keys)| == |a.keys| && |Norms(b.keys)| == |b.keys|;
  }

  lemma SupersedesMeans(cat: Catalog, p: nat, q: nat)
    requires p < |cat| && q < |cat|
    ensures Supersedes(cat, p, q) <==> StrictPrefixOnTable(cat[p], cat[q])
  {
    hide Norms;
    KeyPrefixIsPrefix(cat[p].keys, cat[q].keys);
    assert |Norms(cat[p].keys)| == |cat[p].keys| && |Norms(cat[q].keys)| == |cat[q].keys|;
  }

  /** Exactly the ordinary indexes with a key that another extends are redundant. */
  lemma PrefixRedundantMeans(cat: Catalog, p: nat)
    ensures PrefixRedundant(cat, p) <==>
            p < |cat| && Ordinary(cat[p]) && exists q: nat :: q < |cat| && StrictPrefixOnTable(cat[p], cat[q])
  {
    hide Supersedes, StrictPrefixOnTable;
    if p < |cat| {
      forall q: nat | q < |cat|
        ensures Supersedes(cat, p, q) <==> StrictPrefixOnTable(cat[p], cat[q])
      {
        SupersedesMeans(cat, p, q);
      }
    }
  }

  /** The index a drop is meant to leave in place, by the rules for exact duplicates:
      an ordinary one gives way to a constraint, and to an ordinary one before it. */
  ghost predicate GivesWay(cat: Catalog, d: Drop) {
    && d.keep < |cat| && d.drop < |cat| && d.keep != d.drop
    && SameKeyOnTable(cat[d.keep], cat[d.drop]) && SameIncludes(cat, d.keep, d.drop)
    && Ordinary(cat[d.drop]) && (Ordinary(cat[d.keep]) ==> d.keep < d.drop)
  }

  lemma DuplicateDropMeans(cat: Catalog, d: Drop)
    ensures DuplicateDrop(cat, d) <==> GivesWay(cat, d)
  {
    hide SameColumnSet, Norms, SameKey;
    if GivesWay(cat, d) {
      var i, j := if d.keep < d.drop then d.keep else d.drop, if d.keep < d.drop then d.drop else d.keep;
      SameKeyMeans(cat[i], cat[j]);
      assert Pair(cat, i, j) && DuplicateVerdict(cat, i, j) == Some(d);
    }
    if DuplicateDrop(cat, d) {
      var i: nat, j: nat :| Pair(cat, i, j) && DuplicateVerdict(cat, i, j) == Some(d);
      SameKeyMeans(cat[i], cat[j]);
    }
  }

  function ReadCount(o: Option<nat>): nat { match o case None => 0 case Some(n) => n }

  /** By the rule for overlaps: of two ordinary indexes on one key with other INCLUDEs
      the one with fewer reads, the later one if they are read alike. */
  ghost predicate ReadLess(cat: Catalog, counts: Reads, d: Drop)
    requires |counts| == |cat|
  {
    && d.keep < |cat| && d.drop < |cat| && d.keep != d.drop
    && SameKeyOnTable(cat[d.keep], cat[d.drop]) && !SameIncludes(cat, d.keep, d.drop)
    && Ordinary(cat[d.drop]) && Ordinary(cat[d.keep])
    && ReadCount(counts[d.drop]) <= ReadCount(counts[d.keep])
    && (ReadCount(counts[d.drop]) == ReadCount(counts[d.keep]) ==> d.keep < d.drop)
  }

  lemma OverlapDropMeans(cat: Catalog, counts: Reads, d: Drop)
    requires |counts| == |cat|
    ensures OverlapDrop(cat, counts, d) <==> ReadLess(cat, counts, d)
  {
    hide SameColumnSet, Norms, SameKey;
    if ReadLess(cat, counts, d) {
      var i, j := if d.keep < d.drop then d.keep else d.drop, if d.keep < d.drop then d.drop else d.keep;
      SameKeyMeans(cat[i], cat[j]);
      assert Pair(cat, i, j) && OverlapVerdict(cat, counts, i, j) == Some(d);
    }
    if OverlapDrop(cat, counts, d) {
      var i: nat, j: nat :| Pair(cat, i, j) && OverlapVerdict(cat, counts, i, j) == Some(d);
      SameKeyMeans(cat[i], cat[j]);
    }
  }

  // ---- grouping ------------------------------------------------------------------------

  lemma {:induction false} PositionsOfElems(cat: Catalog, t: TableKey)
    ensures forall p: nat :: p in PositionsOf(cat, t) <==> p < |cat| && Table(cat[p]) == t
    ensures forall i, j :: 0 <= i < j < |PositionsOf(cat, t)| ==> PositionsOf(cat, t)[i] < PositionsOf(cat, t)[j]
  {
    if cat != [] {
      var n := |cat| - 1;
      PositionsOfElems(cat[..n], t);
      var before := PositionsOf(cat[..n], t);
      forall i | 0 <= i < |before|
        ensures before[i] < n
      {
        assert before[i] in before;
      }
    }
  }

  lemma PositionsStep(cat: Catalog, k: nat, t: TableKey)
    requires k < |cat|
    ensures PositionsOf(cat[..k + 1], t) ==
            PositionsOf(cat[..k], t) + if Table(cat[k]) == t then [k] else []
  {
    assert cat[..k + 1][..k] == cat[..k];
  }

  method GroupByTable(cat: Catalog) returns (keys: seq<TableKey>, groups: map<TableKey, seq<nat>>)
    ensures forall t :: t in keys <==> t in groups
    ensures forall t :: t in groups ==> groups[t] == PositionsOf(cat, t)
    ensures forall p :: 0 <= p < |cat| ==> Table(cat[p]) in groups
    ensures Ascending(keys)
  {
    hide InsertKey, PositionsOf, Ascending;
    NoKeys();
    keys, groups := [], map[];
    for k := 0 to |cat|
      invariant forall t :: t in keys <==> t in groups
      invariant forall t :: t in groups ==> groups[t] == PositionsOf(cat[..k], t)
      invariant forall p :: 0 <= p < k ==> Table(cat[p]) in groups
      invariant Ascending(keys)
    {
      forall t
        ensures PositionsOf(cat[..k + 1], t) == PositionsOf(cat[..k], t) + if Table(cat[k]) == t then [k] else []
      {
        PositionsStep(cat, k, t);
      }
      var t := (cat[k].schema, cat[k].table);
      InsertKeyElems(keys, t);
      InsertKeyAscending(keys, t);
      if t !in groups {
        NoPositions(cat[..k], t);
      }
      groups := groups[t := (if t in groups then groups[t] else []) + [k]];
      keys := InsertKey(keys, t);
    }
    assert cat[..|cat|] == cat;
  }

  lemma NoKeys()
    ensures Ascending([])
  {
  }

  lemma NoPositions(cat: Catalog, t: TableKey)
    requires forall p :: 0 <= p < |cat| ==> Table(cat[p]) != t
    ensures PositionsOf(cat, t) == []
  {
    PositionsOfElems(cat, t);
    assert forall k :: 0 <= k < |PositionsOf(cat, t)| ==> PositionsOf(cat, t)[k] in PositionsOf(cat, t);
  }

  // ---- the pair passes ------------------------------------------------------------------

  lemma MergesStep(cat: Catalog, counts: Reads, list: seq<nat>, i: nat, j: nat)
    requires Positions(cat, list) && |counts| == |cat|
    ensures i >= |list| ==> MergesFrom(cat, counts, list, i, j) == []
    ensures i < |list| && j >= |list| ==>
              MergesFrom(cat, counts, list, i, j) == MergesFrom(cat, counts, list, i + 1, i + 2)
    ensures i < |list| && j < |list| ==>
              MergesFrom(cat, counts, list, i, j) ==
              ToSeq(PairMerge(cat, counts, list[i], list[j])) + MergesFrom(cat, counts, list, i, j + 1)
  {
    hide PairMerge;
  }

  lemma {:induction false} MergeIsOfPair(cat: Catalog, counts: Reads, list: seq<nat>, i: nat, j: nat, m: Merge)
    returns (a: nat, b: nat)
    requires Positions(cat, list) && |counts| == |cat|
    requires i < j && m in MergesFrom(cat, counts, list, i, j)
    ensures a < b < |list| && PairMerge(cat, counts, list[a], list[b]) == Some(m)
    ensures i < a || (i == a && j <= b)
    decreases |list| - i, |list| - j
  {
    hide MergesFrom, PairMerge;
    MergesStep(cat, counts, list, i, j);
    if j >= |list| {
      a, b := MergeIsOfPair(cat, counts, list, i + 1, i + 2, m);
    } else if PairMerge(cat, counts, list[i], list[j]) == Some(m) {
      a, b := i, j;
    } else {
      a, b := MergeIsOfPair(cat, counts, list, i, j + 1, m);
    }
  }

  /** The pair a recommendation is about, the earlier index first. */
  function Earlier(d: Drop): nat { if d.keep < d.drop then d.keep else d.drop }

  function Later(d: Drop): nat { if d.keep < d.drop then d.drop else d.keep }

  predicate PairLess(a: Drop, b: Drop) {
    Earlier(a) < Earlier(b) || (Earlier(a) == Earlier(b) && Later(a) < Later(b))
  }

  ghost predicate ByPair(recs: seq<Merge>) { forall x, y :: 0 <= x < y < |recs| ==> PairLess(recs[x].d, recs[y].d) }

  lemma MergeNamesPair(cat: Catalog, counts: Reads, i: nat, j: nat, m: Merge)
    requires i < j < |cat| && |counts| == |cat| && PairMerge(cat, counts, i, j) == Some(m)
    ensures Earlier(m.d) == i && Later(m.d) == j
  {
    hide SameKey, SameColumnSet;
  }

  lemma {:induction false} MergesByPair(cat: Catalog, counts: Reads, list: seq<nat>, i: nat, j: nat)
    requires Positions(cat, list) && |counts| == |cat| && i < j
    requires forall a, b :: 0 <= a < b < |list| ==> list[a] < list[b]
    ensures ByPair(MergesFrom(cat, counts, list, i, j))
    decreases |list| - i, |list| - j
  {
    hide MergesFrom, PairMerge, Earlier, Later;
    MergesStep(cat, counts, list, i, j);
    if i < |list| && j >= |list| {
      MergesByPair(cat, counts, list, i + 1, i + 2);
    } else if i < |list| {
      MergesByPair(cat, counts, list, i, j + 1);
      var r, rest := PairMerge(cat, counts, list[i], list[j]), MergesFrom(cat, counts, list, i, j + 1);
      if r.Some? {
        MergeNamesPair(cat, counts, list[i], list[j], r.value);
        forall y | 0 <= y < |rest|
          ensures PairLess(r.value.d, rest[y].d)
        {
          var a, b := MergeIsOfPair(cat, counts, list, i, j + 1, rest[y]);
          MergeNamesPair(cat, counts, list[a], list[b], rest[y]);
        }
      }
    }
  }

  lemma {:induction false} PairIsLookedAt(cat: Catalog, counts: Reads, list: seq<nat>, i: nat, j: nat,
                                          a: nat, b: nat, m: Merge)
    requires Positions(cat, list) && |counts| == |cat|
    requires i < j && a < b < |list| && (i < a || (i == a && j <= b))
    requires PairMerge(cat, counts, list[a], list[b]) == Some(m)
    ensures m in MergesFrom(cat, counts, list, i, j)
    decreases |list| - i, |list| - j
  {
    hide MergesFrom, PairMerge;
    MergesStep(cat, counts, list, i, j);
    if j >= |list| {
      PairIsLookedAt(cat, counts, list, i + 1, i + 2, a, b, m);
    } else if !(i == a && j == b) {
      PairIsLookedAt(cat, counts, list, i, j + 1, a, b, m);
    }
  }

  lemma PairListed(list: seq<nat>, i: nat, j: nat) returns (a: nat, b: nat)
    requires i in list && j in list && i < j
    requires forall a, b :: 0 <= a < b < |list| ==> list[a] < list[b]
    ensures a < b < |list| && list[a] == i && list[b] == j
  {
    a :| 0 <= a < |list| && list[a] == i;
    b :| 0 <= b < |list| && list[b] == j;
  }

  /** The passes over all tables recommend exactly what the pairs do. */
  lemma TableMerges(cat: Catalog, counts: Reads, keys: seq<TableKey>, m: Merge)
    requires |counts| == |cat| && forall p :: 0 <= p < |cat| ==> Table(cat[p]) in keys
    ensures Recommended(cat, counts, m) <==>
            exists t :: t in keys && m in MergesFrom(cat, counts, PositionsOf(cat, t), 0, 1)
  {
    hide PositionsOf, MergesFrom, PairMerge, Table;
    forall t | m in MergesFrom(cat, counts, PositionsOf(cat, t), 0, 1)
      ensures Recommended(cat, counts, m)
    {
      var list := PositionsOf(cat, t);
      PositionsOfElems(cat, t);
      var a, b := MergeIsOfPair(cat, counts, list, 0, 1, m);
      assert list[a] in list && list[b] in list;
      assert Pair(cat, list[a], list[b]);
    }
    if Recommended(cat, counts, m) {
      var i: nat, j: nat :| Pair(cat, i, j) && PairMerge(cat, counts, i, j) == Some(m);
      var list := PositionsOf(cat, Table(cat[i]));
      PositionsOfElems(cat, Table(cat[i]));
      var a, b := PairListed(list, i, j);
      PairIsLookedAt(cat, counts, list, 0, 1, a, b, m);
    }
  }

  method MergeOfPair(cat: Catalog, counts: Reads, i: nat, j: nat) returns (r: Option<Merge>)
    requires i < |cat| && j < |cat| && |counts| == |cat|
    ensures r == PairMerge(cat, counts, i, j)
  {
    hide SameColumns, SameColumnSet;
    r := None;
    var a, b := cat[i], cat[j];
    if a.keys == [] || !SameColumns(a.keys, b.keys) { return; }
    if SameColumnSet(a.included, b.included) {
      // Exact duplicate: keep the constraint; drop the other.
      var keep, drop := i, j;
      if !(a.isPrimaryKey || a.isUnique) && (b.isPrimaryKey || b.isUnique) {
        keep, drop := j, i;
      }
      if cat[drop].isPrimaryKey || cat[drop].isUnique { return; }
      return Some(Merge(Drop(keep, drop), true));
    }
    if a.isPrimaryKey || a.isUnique || b.isPrimaryKey || b.isUnique { return; }
    var retireFirst :=
      match (counts[i], counts[j])
      case (Some(x), Some(y)) => y > x
      case (None, Some(y)) => y > 0
      case _ => false;
    return Some(Merge(if retireFirst then Drop(j, i) else Drop(i, j), false));
  }

  method MergesOfTable(cat: Catalog, counts: Reads, list: seq<nat>) returns (recs: seq<Merge>)
    requires Positions(cat, list) && |counts| == |cat|
    ensures recs == MergesFrom(cat, counts, list, 0, 1)
  {
    hide MergesFrom, PairMerge;
    recs := [];
    for i := 0 to |list|
      invariant MergesFrom(cat, counts, list, 0, 1) == recs + MergesFrom(cat, counts, list, i, i + 1)
    {
      for j := i + 1 to |list|
        invariant MergesFrom(cat, counts, list, 0, 1) == recs + MergesFrom(cat, counts, list, i, j)
      {
        MergesStep(cat, counts, list, i, j);
        var r := MergeOfPair(cat, counts, list[i], list[j]);
        if r.Some? {
          recs := recs + [r.value];
        }
      }
      MergesStep(cat, counts, list, i, |list|);
    }
    MergesStep(cat, counts, list, |list|, |list| + 1);
  }

  /** Recommendation `a` comes before `b`: tables in dictionary order, each table's
      pairs in catalog order. */
  ghost predicate RecommendedBefore(cat: Catalog, a: Drop, b: Drop) {
    && a.keep < |cat| && a.drop < |cat| && b.keep < |cat| && b.drop < |cat|
    && (var x, y := cat[Earlier(a)], cat[Earlier(b)];
        || TableBefore(x.schema, x.table, y.schema, y.table)
        || (x.schema == y.schema && x.table == y.table && PairLess(a, b)))
  }

  ghost predicate MergesOrdered(cat: Catalog, recs: seq<Merge>) {
    forall x, y :: 0 <= x < y < |recs| ==> RecommendedBefore(cat, recs[x].d, recs[y].d)
  }

  ghost predicate OnTables(cat: Catalog, recs: seq<Merge>, keys: seq<TableKey>) {
    forall k :: 0 <= k < |recs| ==>
      recs[k].d.keep < |cat| && recs[k].d.drop < |cat| && Table(cat[Earlier(recs[k].d)]) in keys
  }

  lemma MergesOnTable(cat: Catalog, counts: Reads, t: TableKey)
    requires |counts| == |cat|
    ensures var recs := MergesFrom(cat, counts, PositionsOf(cat, t), 0, 1); OnTables(cat, recs, [t]) && ByPair(recs)
  {
    hide PositionsOf, MergesFrom, PairMerge, ByPair;
    var list := PositionsOf(cat, t);
    var recs := MergesFrom(cat, counts, list, 0, 1);
    PositionsOfElems(cat, t);
    MergesByPair(cat, counts, list, 0, 1);
    forall k | 0 <= k < |recs|
      ensures recs[k].d.keep < |cat| && recs[k].d.drop < |cat| && Table(cat[Earlier(recs[k].d)]) == t
    {
      var a, b := MergeIsOfPair(cat, counts, list, 0, 1, recs[k]);
      MergeNamesPair(cat, counts, list[a], list[b], recs[k]);
      assert list[a] in list;
    }
  }

  lemma MergesConcat(cat: Catalog, keys: seq<TableKey>, n: nat, a: seq<Merge>, b: seq<Merge>)
    requires n < |keys| && Ascending(keys)
    requires MergesOrdered(cat, a) && OnTables(cat, a, keys[..n]) && OnTables(cat, b, [keys[n]]) && ByPair(b)
    ensures MergesOrdered(cat, a + b) && OnTables(cat, a + b, keys[..n + 1])
  {
    hide KeyLess, TableBefore, PairLess;
    var recs := a + b;
    assert forall x :: x in keys[..n + 1] <==> x in keys[..n] || x == keys[n];
    forall x, y | 0 <= x < y < |recs|
      ensures RecommendedBefore(cat, recs[x].d, recs[y].d)
    {
      if x < |a| <= y {
        assert recs[x] == a[x] && recs[y] == b[y - |a|];
        var m :| 0 <= m < n && keys[m] == Table(cat[Earlier(a[x].d)]);
        KeyLessMeans(keys[m], keys[n]);
      } else if |a| <= x {
        assert recs[x] == b[x - |a|] && recs[y] == b[y - |a|];
      }
    }
  }

  lemma NothingRecommended(cat: Catalog)
    ensures MergesOrdered(cat, []) && OnTables(cat, [], [])
  {
  }

  method MergePass(cat: Catalog, counts: Reads) returns (recs: seq<Merge>)
    requires |counts| == |cat|
    ensures MergesOrdered(cat, recs)
    ensures forall d :: Merge(d, true) in recs <==> DuplicateDrop(cat, d)
    ensures forall d :: Merge(d, false) in recs <==> OverlapDrop(cat, counts, d)
    ensures forall d :: Merge(d, true) in recs <==> GivesWay(cat, d)
    ensures forall d :: Merge(d, false) in recs <==> ReadLess(cat, counts, d)
    ensures forall m :: m in recs ==>
              m.d.drop < |cat| && !cat[m.d.drop].isPrimaryKey && !cat[m.d.drop].isUnique
  {
    hide PositionsOf, MergesFrom, Table, Recommended, MergesOrdered, OnTables, ByPair, Ascending;
    var keys, groups := GroupByTable(cat);
    recs := [];
    NothingRecommended(cat);
    for n := 0 to |keys|
      invariant MergesOrdered(cat, recs) && OnTables(cat, recs, keys[..n])
      invariant forall m :: m in recs <==>
                  exists t :: t in keys[..n] && m in MergesFrom(cat, counts, PositionsOf(cat, t), 0, 1)
    {
      var t := keys[n];
      assert forall x :: x in keys[..n + 1] <==> x in keys[..n] || x == t;
      var more := MergesOfTable(cat, counts, groups[t]);
      assert t in keys[..n + 1] && more == MergesFrom(cat, counts, PositionsOf(cat, t), 0, 1);
      MergesOnTable(cat, counts, t);
      MergesConcat(cat, keys, n, recs, more);
      forall m
        ensures m in recs + more <==>
                exists x :: x in keys[..n + 1] && m in MergesFrom(cat, counts, PositionsOf(cat, x), 0, 1)
      {
        if m in more {
          assert t in keys[..n + 1] && m in MergesFrom(cat, counts, PositionsOf(cat, t), 0, 1);
        }
      }
      recs := recs + more;
    }
    assert keys[..|keys|] == keys;
    forall m
      ensures m in recs <==> Recommended(cat, counts, m)
    {
      TableMerges(cat, counts, keys, m);
    }
    forall d
      ensures Merge(d, true) in recs <==> DuplicateDrop(cat, d)
      ensures Merge(d, false) in recs <==> OverlapDrop(cat, counts, d)
      ensures DuplicateDrop(cat, d) <==> GivesWay(cat, d)
      ensures OverlapDrop(cat, counts, d) <==> ReadLess(cat, counts, d)
    {
      MergeKinds(cat, counts, d);
      DuplicateDropMeans(cat, d);
      OverlapDropMeans(cat, counts, d);
    }
    forall m | m in recs
      ensures m.d.drop < |cat| && Ordinary(cat[m.d.drop])
    {
      assert m == Merge(m.d, true) || m == Merge(m.d, false);
    }
  }

  /** A pair is an exact duplicate or an overlap, never both. */
  lemma MergeKinds(cat: Catalog, counts: Reads, d: Drop)
    requires |counts| == |cat|
    ensures Recommended(cat, counts, Merge(d, true)) <==> DuplicateDrop(cat, d)
    ensures Recommended(cat, counts, Merge(d, false)) <==> OverlapDrop(cat, counts, d)
  {
    hide SameKey, SameColumnSet, Table;
    forall i: nat, j: nat | Pair(cat, i, j)
      ensures PairMerge(cat, counts, i, j) == Some(Merge(d, true)) <==> DuplicateVerdict(cat, i, j) == Some(d)
      ensures PairMerge(cat, counts, i, j) == Some(Merge(d, false)) <==> OverlapVerdict(cat, counts, i, j) == Some(d)
    {
    }
  }

  // ---- the prefix pass --------------------------------------------------------------------

  /** The first index of `list` from `k` on that supersedes position `p`. */
  function FirstSuperset(cat: Catalog, list: seq<nat>, p: nat, k: nat): (r: Option<nat>)
    requires Positions(cat, list) && p < |cat|
    ensures r.Some? ==> r.value in list && Supersedes(cat, p, r.value)
    ensures r == None ==> forall n :: k <= n < |list| ==> !Supersedes(cat, p, list[n])
    decreases |list| - k
  {
    if k >= |list| then None
    else if Supersedes(cat, p, list[k]) then Some(list[k])
    else FirstSuperset(cat, list, p, k + 1)
  }

  /** The index found is the first in the catalog. */
  lemma {:induction false} FirstSupersetIsFirst(cat: Catalog, list: seq<nat>, p: nat, k: nat)
    requires Positions(cat, list) && p < |cat| && FirstSuperset(cat, list, p, k).Some?
    requires forall i, j :: 0 <= i < j < |list| ==> list[i] < list[j]
    ensures forall n :: k <= n < |list| && list[n] < FirstSuperset(cat, list, p, k).value ==>
              !Supersedes(cat, p, list[n])
    decreases |list| - k
  {
    hide Supersedes;
    if k < |list| && !Supersedes(cat, p, list[k]) {
      FirstSupersetIsFirst(cat, list, p, k + 1);
    }
  }

  /** One finding of the prefix pass: the first index that supersedes the one dropped. */
  ghost predicate IsPrefixDrop(cat: Catalog, d: Drop) {
    && d.keep < |cat| && d.drop < |cat| && Supersedes(cat, d.drop, d.keep)
    && forall q :: 0 <= q < d.keep ==> !Supersedes(cat, d.drop, q)
  }

  ghost predicate ByPosition(out: seq<Drop>) {
    forall i, j :: 0 <= i < j < |out| ==> out[i].drop < out[j].drop
  }

  /** Position `p` is reported before position `q`: tables in dictionary order, each
      table's indexes in catalog order. */
  ghost predicate ReportedBefore(cat: Catalog, p: nat, q: nat)
    requires p < |cat| && q < |cat|
  {
    || TableBefore(cat[p].schema, cat[p].table, cat[q].schema, cat[q].table)
    || (cat[p].schema == cat[q].schema && cat[p].table == cat[q].table && p < q)
  }

  ghost predicate Ordered(cat: Catalog, out: seq<Drop>) {
    forall i, j :: 0 <= i < j < |out| ==>
      out[i].drop < |cat| && out[j].drop < |cat| && ReportedBefore(cat, out[i].drop, out[j].drop)
  }

  lemma OrderedConcat(cat: Catalog, keys: seq<TableKey>, n: nat, a: seq<Drop>, b: seq<Drop>)
    requires n < |keys| && Ascending(keys) && Ordered(cat, a) && ByPosition(b)
    requires forall k :: 0 <= k < |a| ==> a[k].drop < |cat| && Table(cat[a[k].drop]) in keys[..n]
    requires forall k :: 0 <= k < |b| ==> b[k].drop < |cat| && Table(cat[b[k].drop]) == keys[n]
    ensures Ordered(cat, a + b)
  {
    hide KeyLess, TableBefore;
    var out := a + b;
    forall i, j | 0 <= i < j < |out|
      ensures out[i].drop < |cat| && out[j].drop < |cat| && ReportedBefore(cat, out[i].drop, out[j].drop)
    {
      if i < |a| <= j {
        var m :| 0 <= m < n && keys[m] == Table(cat[a[i].drop]);
        KeyLessMeans(keys[m], keys[n]);
      }
    }
  }

  method RedundantExistingIndexes(cat: Catalog) returns (out: seq<Drop>)
    ensures forall p :: PrefixRedundant(cat, p) <==> exists d :: d in out && d.drop == p
    ensures forall d :: d in out ==> IsPrefixDrop(cat, d)
    ensures Ordered(cat, out)
    ensures forall d :: d in out ==>
              && d.keep < |cat| && d.drop < |cat|
              && !cat[d.drop].isPrimaryKey && !cat[d.drop].isUnique
              && StrictPrefixOnTable(cat[d.drop], cat[d.keep])
              && forall q :: 0 <= q < d.keep ==> !StrictPrefixOnTable(cat[d.drop], cat[q])
    ensures forall p: nat, q: nat ::
              (p < |cat| && q < |cat| && !cat[p].isPrimaryKey && !cat[p].isUnique
               && StrictPrefixOnTable(cat[p], cat[q])) ==> exists d :: d in out && d.drop == p
  {
    hide PositionsOf, InsertKey, StrictPrefixOnTable, PrefixRedundant, IsPrefixDrop, Ascending, Ordered, ByPosition;
    var keys, groups := GroupByTable(cat);
    out := [];
    NothingReported(cat);
    for n := 0 to |keys|
      invariant forall d :: d in out ==>
                  d.drop < |cat| && Table(cat[d.drop]) in keys[..n] && IsPrefixDrop(cat, d)
      invariant forall p :: 0 <= p < |cat| && Table(cat[p]) in keys[..n] ==>
                  (PrefixRedundant(cat, p) <==> exists d :: d in out && d.drop == p)
      invariant Ordered(cat, out)
    {
      var t := keys[n];
      assert forall x :: x in keys[..n + 1] <==> x in keys[..n] || x == t;
      AscendingApart(keys, n);
      var more := RedundantOnTable(cat, t, groups[t]);
      assert forall k :: 0 <= k < |out| ==> out[k] in out;
      assert forall k :: 0 <= k < |more| ==> more[k] in more;
      OrderedConcat(cat, keys, n, out, more);
      out := out + more;
    }
    assert keys[..|keys|] == keys;
    forall p: nat
      ensures PrefixRedundant(cat, p) <==>
              p < |cat| && Ordinary(cat[p]) && exists q: nat :: q < |cat| && StrictPrefixOnTable(cat[p], cat[q])
    {
      PrefixRedundantMeans(cat, p);
      if p >= |cat| {
        NotInCatalog(cat, p);
      }
    }
    forall d | d in out
      ensures d.keep < |cat| && d.drop < |cat|
      ensures StrictPrefixOnTable(cat[d.drop], cat[d.keep]) && Ordinary(cat[d.drop])
      ensures forall q :: 0 <= q < d.keep ==> !StrictPrefixOnTable(cat[d.drop], cat[q])
    {
      PrefixDropMeans(cat, d);
      assert PrefixRedundant(cat, d.drop);
    }
  }

  lemma NothingReported(cat: Catalog)
    ensures Ordered(cat, [])
  {
  }

  lemma NotInCatalog(cat: Catalog, p: nat)
    requires p >= |cat|
    ensures !PrefixRedundant(cat, p)
  {
  }

  lemma PrefixDropMeans(cat: Catalog, d: Drop)
    requires IsPrefixDrop(cat, d)
    ensures d.keep < |cat| && d.drop < |cat| && StrictPrefixOnTable(cat[d.drop], cat[d.keep])
    ensures forall q :: 0 <= q < d.keep ==> !StrictPrefixOnTable(cat[d.drop], cat[q])
  {
    hide Supersedes, StrictPrefixOnTable;
    SupersedesMeans(cat, d.drop, d.keep);
    forall q: nat | q < d.keep
      ensures !StrictPrefixOnTable(cat[d.drop], cat[q])
    {
      SupersedesMeans(cat, d.drop, q);
    }
  }

  /** A superset stands on the same table, so the table's own list decides. */
  lemma RedundancyOnTable(cat: Catalog, t: TableKey, p: nat)
    requires p < |cat| && Table(cat[p]) == t
    ensures var first := FirstSuperset(cat, PositionsOf(cat, t), p, 0);
            && (PrefixRedundant(cat, p) <==> !IsConstraint(cat[p]) && first.Some?)
            && (first.Some? ==> IsPrefixDrop(cat, Drop(first.value, p)))
  {
    hide PositionsOf, IsKeyPrefix;
    PositionsOfElems(cat, t);
    var list := PositionsOf(cat, t);
    var first := FirstSuperset(cat, list, p, 0);
    if first.Some? {
      FirstSupersetIsFirst(cat, list, p, 0);
      forall q | 0 <= q < first.value && Table(cat[q]) == t
        ensures !Supersedes(cat, p, q)
      {
        assert q in list;
      }
    } else {
      forall q | 0 <= q < |cat| && Table(cat[q]) == t
        ensures !Supersedes(cat, p, q)
      {
        assert q in list;
      }
    }
  }

  method RedundantOnTable(cat: Catalog, t: TableKey, list: seq<nat>) returns (out: seq<Drop>)
    requires list == PositionsOf(cat, t)
    ensures forall d :: d in out ==> d.drop < |cat| && Table(cat[d.drop]) == t && IsPrefixDrop(cat, d)
    ensures forall p :: 0 <= p < |cat| && Table(cat[p]) == t ==>
              (PrefixRedundant(cat, p) <==> exists d :: d in out && d.drop == p)
    ensures ByPosition(out)
  {
    hide PositionsOf, IsKeyPrefix, Supersedes, FirstSuperset, IsPrefixDrop, PrefixRedundant;
    PositionsOfElems(cat, t);
    out := [];
    for i := 0 to |list|
      invariant forall d :: d in out ==> d.drop in list[..i] && d.drop < |cat| && IsPrefixDrop(cat, d)
      invariant forall k :: 0 <= k < i ==>
                  (PrefixRedundant(cat, list[k]) <==> exists d :: d in out && d.drop == list[k])
      invariant ByPosition(out)
    {
      var p := list[i];
      assert p in list;
      RedundancyOnTable(cat, t, p);
      if IsConstraint(cat[p]) { continue; }
      var sup := FirstSuperset(cat, list, p, 0);
      if sup.Some? {
        assert forall k :: 0 <= k < |out| ==> out[k] in out && out[k].drop in list[..i];
        out := out + [Drop(sup.value, p)];
      }
    }
  }
}
