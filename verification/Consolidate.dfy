/**
 Consolidation of the missing-index DMV: rows whose key is a prefix of another
 row's key on the same table are folded into the wider row until no two keys
 on a table are related.
 */
module Consolidate {
  import opened Wrappers
  import opened Identifiers

  const U64_MAX: nat := 0xFFFF_FFFF_FFFF_FFFF

  type u64 = n: nat | n <= U64_MAX

  function SaturatingAdd(a: u64, b: u64): u64 { if a + b <= U64_MAX then a + b else U64_MAX }

  function Max(a: real, b: real): real { if a < b then b else a }

  datatype MissingIndex = MissingIndex(
    schema: string, table: string,
    equality: seq<string>, inequality: seq<string>, included: seq<string>,
    impact: real, seeks: u64, cost: real)
  {
    /** The key the engine would build: equality columns, then inequality. */
    function Key(): seq<string> { equality + inequality }
  }

  /** A suggestion and the seek counts of every DMV row folded into it. */
  datatype Entry = Entry(m: MissingIndex, parts: seq<u64>)

  // ---- folding one row into another ------------------------------------------

  function WithInclude(into: seq<string>, c: string): seq<string> {
    if !HasColumn(into, c) && Trim(c) != "" then into + [c] else into
  }

  function UnionIncludes(into: seq<string>, extra: seq<string>): seq<string>
    decreases |extra|
  {
    if extra == [] then into else UnionIncludes(WithInclude(into, extra[0]), extra[1..])
  }

  method UnionIncludesInto(into: seq<string>, extra: seq<string>) returns (r: seq<string>)
    ensures r == UnionIncludes(into, extra)
  {
    hide HasColumn, Trim;
    r := into;
    for k := 0 to |extra|
      invariant UnionIncludes(into, extra) == UnionIncludes(r, extra[k..])
    {
      if !HasColumn(r, extra[k]) && Trim(extra[k]) != "" {
        r := r + [extra[k]];
      }
    }
  }

  /** `a` after taking in `b`: the key of `a`, the INCLUDEs of both, and the
      strongest evidence. */
  function Absorb(a: Entry, b: Entry): Entry {
    Entry(
      a.m.(included := UnionIncludes(a.m.included, b.m.included),
           impact := Max(a.m.impact, b.m.impact),
           cost := Max(a.m.cost, b.m.cost),
           seeks := SaturatingAdd(a.m.seeks, b.m.seeks)),
      a.parts + b.parts)
  }

  /** May `list[j]` be folded into `list[i]`? Of two equal keys the first stays. */
  predicate Mergeable(list: seq<Entry>, i: nat, j: nat)
    requires i < |list| && j < |list|
  {
    var ki, kj := list[i].m.Key(), list[j].m.Key();
    i != j && IsKeyPrefix(kj, ki) && (|ki| != |kj| || i < j)
  }

  function Without<T>(s: seq<T>, j: nat): seq<T>
    requires j < |s|
  {
    s[..j] + s[j + 1..]
  }

  /** Where index `i` is once index `j` has been removed. */
  function Shifted(i: nat, j: nat): nat
    requires i != j
  {
    if j < i then i - 1 else i
  }

  function MergeAt(list: seq<Entry>, i: nat, j: nat): (r: seq<Entry>)
    requires i < |list| && j < |list| && i != j
    ensures |r| == |list| - 1
  {
    Without(list, j)[Shifted(i, j) := Absorb(list[i], list[j])]
  }

  /** The first mergeable pair from `(i, j)` on, row by row. */
  function FirstFrom(list: seq<Entry>, i: nat, j: nat): (r: Option<(nat, nat)>)
    ensures r.Some? ==> r.value.0 < |list| && r.value.1 < |list| && Mergeable(list, r.value.0, r.value.1)
    decreases |list| - i, |list| - j
  {
    if i >= |list| then None
    else if j >= |list| then FirstFrom(list, i + 1, 0)
    else if Mergeable(list, i, j) then Some((i, j))
    else FirstFrom(list, i, j + 1)
  }

  /** The greedy merge, run until nothing merges. */
  function Merged(list: seq<Entry>): seq<Entry>
    decreases |list|
  {
    match FirstFrom(list, 0, 0)
    case None => list
    case Some((i, j)) => Merged(MergeAt(list, i, j))
  }

  /** One pass of the double loop: folds the first mergeable pair, if any. */
  method MergePass(list: seq<Entry>) returns (r: seq<Entry>, changed: bool)
    ensures changed <==> FirstFrom(list, 0, 0).Some?
    ensures r == match FirstFrom(list, 0, 0) case None => list case Some((i, j)) => MergeAt(list, i, j)
  {
    hide IsKeyPrefix, UnionIncludes, Merged;
    r, changed := list, false;
    for i := 0 to |list|
      invariant FirstFrom(list, 0, 0) == FirstFrom(list, i, 0)
    {
      for j := 0 to |list|
        invariant FirstFrom(list, 0, 0) == FirstFrom(list, i, j)
      {
        if i == j { continue; }
        var ki, kj := list[i].m.Key(), list[j].m.Key();
        var prefix := IsKeyPrefix(kj, ki);
        var identical := |ki| == |kj| && prefix;
        if prefix && (!identical || i < j) {
          assert Mergeable(list, i, j);
          var absorbed := list[j];
          r := list[..j] + list[j + 1..];
          var i2 := if j < i then i - 1 else i;
          var inc := UnionIncludesInto(r[i2].m.included, absorbed.m.included);
          var m := r[i2].m.(
            included := inc,
            impact := Max(r[i2].m.impact, absorbed.m.impact),
            cost := Max(r[i2].m.cost, absorbed.m.cost),
            seeks := SaturatingAdd(r[i2].m.seeks, absorbed.m.seeks));
          r := r[i2 := Entry(m, r[i2].parts + absorbed.parts)];
          changed := true;
          return;
        }
      }
    }
  }

  method MergeGroup(group: seq<Entry>) returns (list: seq<Entry>)
    ensures list == Merged(group)
  {
    hide FirstFrom, MergeAt;
    list := group;
    var changed := true;
    while changed
      invariant Merged(group) == Merged(list)
      invariant !changed ==> FirstFrom(list, 0, 0) == None
      decreases |list|, changed
    {
      list, changed := MergePass(list);
    }
  }

  // ---- one group per table ------------------------------------------------------

  type TableKey = (string, string)

  predicate StrLess(a: string, b: string) {
    b != [] && (a == [] || a[0] < b[0] || (a[0] == b[0] && StrLess(a[1..], b[1..])))
  }

  predicate KeyLess(a: TableKey, b: TableKey) {
    StrLess(a.0, b.0) || (a.0 == b.0 && StrLess(a.1, b.1))
  }

  /** A sorted list of keys, with `k` in it. */
  function InsertKey(keys: seq<TableKey>, k: TableKey): seq<TableKey> {
    if keys == [] then [k]
    else if keys[0] == k then keys
    else if KeyLess(k, keys[0]) then [k] + keys
    else [keys[0]] + InsertKey(keys[1..], k)
  }

  /** Tables are told apart by their names in lower case; `fold` is the case
      folding, Unicode's in the program. */
  function TableOf(fold: string -> string, m: MissingIndex): TableKey { (fold(m.schema), fold(m.table)) }

  function Fresh(m: MissingIndex): Entry { Entry(m, [m.seeks]) }

  function GroupStep(fold: string -> string, m: MissingIndex, k: TableKey): seq<Entry> {
    if m.Key() != [] && TableOf(fold, m) == k then [Fresh(m)] else []
  }

  /** The rows of table `k` that carry a key, in input order. */
  function GroupOf(fold: string -> string, missing: seq<MissingIndex>, k: TableKey): seq<Entry> {
    if missing == [] then []
    else GroupOf(fold, missing[..|missing| - 1], k) + GroupStep(fold, missing[|missing| - 1], k)
  }

  /** The tables of those rows, in order. */
  function Tables(fold: string -> string, missing: seq<MissingIndex>): seq<TableKey> {
    if missing == [] then []
    else
      var m := missing[|missing| - 1];
      var before := Tables(fold, missing[..|missing| - 1]);
      if m.Key() == [] then before else InsertKey(before, TableOf(fold, m))
  }

  function ConsolidateTables(fold: string -> string, missing: seq<MissingIndex>, keys: seq<TableKey>): seq<Entry> {
    if keys == [] then []
    else Merged(GroupOf(fold, missing, keys[0])) + ConsolidateTables(fold, missing, keys[1..])
  }

  function Consolidated(fold: string -> string, missing: seq<MissingIndex>): seq<Entry> {
    ConsolidateTables(fold, missing, Tables(fold, missing))
  }

  lemma {:induction false} InsertKeyElems(keys: seq<TableKey>, k: TableKey)
    ensures forall x :: x in InsertKey(keys, k) <==> x == k || x in keys
  {
    hide KeyLess;
    if keys != [] {
      InsertKeyElems(keys[1..], k);
    }
  }

  lemma {:induction false} GroupEmptyUnlessListed(fold: string -> string, missing: seq<MissingIndex>, k: TableKey)
    ensures k in Tables(fold, missing) <==> GroupOf(fold, missing, k) != []
  {
    hide InsertKey;
    if missing != [] {
      var m := missing[|missing| - 1];
      var before := missing[..|missing| - 1];
      GroupEmptyUnlessListed(fold, before, k);
      InsertKeyElems(Tables(fold, before), TableOf(fold, m));
    }
  }

  lemma GroupsAfter(fold: string -> string, missing: seq<MissingIndex>, k: nat, t: TableKey)
    requires k < |missing|
    ensures GroupOf(fold, missing[..k + 1], t) == GroupOf(fold, missing[..k], t) + GroupStep(fold, missing[k], t)
    ensures Tables(fold, missing[..k + 1]) ==
            if missing[k].Key() == [] then Tables(fold, missing[..k])
            else InsertKey(Tables(fold, missing[..k]), TableOf(fold, missing[k]))
  {
    hide InsertKey;
    assert missing[..k + 1][..k] == missing[..k];
  }

  /** Group by table, keeping input order within a table. */
  method GroupRows(fold: string -> string, missing: seq<MissingIndex>)
    returns (keys: seq<TableKey>, groups: map<TableKey, seq<Entry>>)
    ensures keys == Tables(fold, missing)
    ensures forall t :: t in groups <==> t in keys
    ensures forall t :: t in groups ==> groups[t] == GroupOf(fold, missing, t)
  {
    hide InsertKey, GroupOf, Tables;
    keys, groups := [], map[];
    NothingGrouped(fold, missing);
    for k := 0 to |missing|
      invariant keys == Tables(fold, missing[..k])
      invariant forall t :: t in groups <==> t in keys
      invariant forall t :: t in groups ==> groups[t] == GroupOf(fold, missing[..k], t)
    {
      var m := missing[k];
      forall t
        ensures GroupOf(fold, missing[..k + 1], t) == GroupOf(fold, missing[..k], t) + GroupStep(fold, m, t)
      {
        GroupsAfter(fold, missing, k, t);
      }
      var t := (fold(m.schema), fold(m.table));
      GroupsAfter(fold, missing, k, t);
      if m.equality + m.inequality == [] { continue; }
      GroupEmptyUnlessListed(fold, missing[..k], t);
      InsertKeyElems(keys, t);
      var group := if t in groups then groups[t] else [];
      groups := groups[t := group + [Entry(m, [m.seeks])]];
      keys := InsertKey(keys, t);
    }
    assert missing[..|missing|] == missing;
  }

  lemma NothingGrouped(fold: string -> string, missing: seq<MissingIndex>)
    ensures Tables(fold, missing[..0]) == []
  {
  }

  method ConsolidateMissingIndexesTraced(fold: string -> string, missing: seq<MissingIndex>) returns (out: seq<Entry>)
    ensures out == Consolidated(fold, missing)
  {
    hide Merged, GroupOf, Tables;
    var keys, groups := GroupRows(fold, missing);
    out := [];
    for n := 0 to |keys|
      invariant Consolidated(fold, missing) == out + ConsolidateTables(fold, missing, keys[n..])
    {
      var list := MergeGroup(groups[keys[n]]);
      out := out + list;
    }
  }
}
