/**
 The whole consolidation, over all tables: rows are partitioned among the
 survivors, whose keys are the maximal ones, whatever the order of the rows.
 */
module ConsolidateRun {
  import opened Wrappers
  import opened Identifiers
  import opened Consolidate
  import opened ConsolidateLaws
  import opened TableOrder

  // ---- rows by table ---------------------------------------------------------------

  lemma {:induction false} TablesAscending(fold: string -> string, missing: seq<MissingIndex>)
    ensures Ascending(Tables(fold, missing))
  {
    if missing != [] {
      hide InsertKey, Ascending;
      var m := missing[|missing| - 1];
      TablesAscending(fold, missing[..|missing| - 1]);
      InsertKeyAscending(Tables(fold, missing[..|missing| - 1]), TableOf(fold, m));
    }
  }

  /** The rows that carry a key; the others suggest nothing. */
  function Keyed(missing: seq<MissingIndex>): seq<MissingIndex> {
    if missing == [] then []
    else
      var m := missing[|missing| - 1];
      Keyed(missing[..|missing| - 1]) + if m.Key() == [] then [] else [m]
  }

  function RowsOf(fold: string -> string, missing: seq<MissingIndex>, k: TableKey): seq<MissingIndex> {
    if missing == [] then []
    else
      var m := missing[|missing| - 1];
      RowsOf(fold, missing[..|missing| - 1], k)
      + if m.Key() != [] && TableOf(fold, m) == k then [m] else []
  }

  function Singles(rows: seq<MissingIndex>): (r: seq<seq<MissingIndex>>)
    ensures |r| == |rows| && forall k :: 0 <= k < |rows| ==> r[k] == [rows[k]]
  {
    seq(|rows|, k requires 0 <= k < |rows| => [rows[k]])
  }

  lemma {:induction false} AllRowsOfSingles(rows: seq<MissingIndex>)
    ensures AllRows(Singles(rows)) == multiset(rows)
  {
    if rows != [] {
      AllRowsOfSingles(rows[1..]);
      assert Singles(rows)[1..] == Singles(rows[1..]);
      assert rows == [rows[0]] + rows[1..];
    }
  }

  lemma {:induction false} RowsOfElems(fold: string -> string, missing: seq<MissingIndex>, k: TableKey)
    ensures forall m :: m in RowsOf(fold, missing, k) <==> m in missing && m.Key() != [] && TableOf(fold, m) == k
  {
    hide TableOf;
    if missing != [] {
      var n := |missing| - 1;
      RowsOfElems(fold, missing[..n], k);
      assert missing == missing[..n] + [missing[n]];
    }
  }

  lemma {:induction false} GroupIsFreshRows(fold: string -> string, missing: seq<MissingIndex>, k: TableKey)
    ensures AccountsAll(GroupOf(fold, missing, k), Singles(RowsOf(fold, missing, k)))
  {
    hide Accounts;
    if missing != [] {
      var n := |missing| - 1;
      GroupIsFreshRows(fold, missing[..n], k);
      if missing[n].Key() != [] {
        FreshAccounts(missing[n]);
      }
    }
  }

  function AllGroups(fold: string -> string, missing: seq<MissingIndex>, keys: seq<TableKey>): multiset<MissingIndex> {
    if keys == [] then multiset{}
    else multiset(RowsOf(fold, missing, keys[0])) + AllGroups(fold, missing, keys[1..])
  }

  lemma {:induction false} AllGroupsStep(fold: string -> string, missing: seq<MissingIndex>, keys: seq<TableKey>)
    requires missing != [] && Ascending(keys)
    ensures var m := missing[|missing| - 1];
            AllGroups(fold, missing, keys) ==
            AllGroups(fold, missing[..|missing| - 1], keys)
            + if m.Key() != [] && TableOf(fold, m) in keys then multiset{m} else multiset{}
  {
    hide Ascending;
    if keys != [] {
      AscendingTail(keys);
      AllGroupsStep(fold, missing, keys[1..]);
    }
  }

  lemma BelowAll(keys: seq<TableKey>, t: TableKey)
    requires keys != [] && Ascending(keys) && KeyLess(t, keys[0])
    ensures t !in keys
  {
    hide KeyLess;
    if t in keys {
      var j :| 0 <= j < |keys| && keys[j] == t;
      assert j > 0 ==> KeyLess(keys[0], keys[j]);
      KeyLessTotal(t, keys[0]);
    }
  }

  lemma {:induction false} AllGroupsInsert(fold: string -> string, missing: seq<MissingIndex>,
                                           keys: seq<TableKey>, t: TableKey)
    requires Ascending(keys)
    requires t in keys || RowsOf(fold, missing, t) == []
    ensures AllGroups(fold, missing, InsertKey(keys, t)) == AllGroups(fold, missing, keys)
  {
    hide KeyLess, Ascending, RowsOf;
    if keys == [] {
      assert AllGroups(fold, missing, [t]) == multiset(RowsOf(fold, missing, t)) + AllGroups(fold, missing, []);
    } else if keys[0] != t {
      if KeyLess(t, keys[0]) {
        BelowAll(keys, t);
        assert ([t] + keys)[1..] == keys;
      } else {
        AscendingTail(keys);
        AllGroupsInsert(fold, missing, keys[1..], t);
        assert InsertKey(keys, t)[1..] == InsertKey(keys[1..], t);
      }
    }
  }

  lemma UnlistedIsEmpty(fold: string -> string, missing: seq<MissingIndex>, t: TableKey)
    requires t !in Tables(fold, missing)
    ensures RowsOf(fold, missing, t) == []
  {
    hide Accounts, Tables, RowsOf, GroupOf;
    GroupEmptyUnlessListed(fold, missing, t);
    GroupIsFreshRows(fold, missing, t);
  }

  /** Grouping loses no row and duplicates none. */
  lemma {:induction false} RowsPartitioned(fold: string -> string, missing: seq<MissingIndex>)
    ensures AllGroups(fold, missing, Tables(fold, missing)) == multiset(Keyed(missing))
  {
    hide AllGroups, TableOf, InsertKey, RowsOf, Ascending;
    if missing == [] {
      NoGroups(fold, missing);
    } else {
      var n := |missing| - 1;
      var m, before := missing[n], missing[..n];
      var keys, t := Tables(fold, before), TableOf(fold, m);
      RowsPartitioned(fold, before);
      TablesAscending(fold, before);
      TablesAscending(fold, missing);
      AllGroupsStep(fold, missing, Tables(fold, missing));
      if m.Key() != [] {
        if t !in keys {
          UnlistedIsEmpty(fold, before, t);
        }
        AllGroupsInsert(fold, before, keys, t);
        InsertKeyElems(keys, t);
      }
    }
  }

  lemma NoGroups(fold: string -> string, missing: seq<MissingIndex>)
    ensures AllGroups(fold, missing, []) == multiset{}
  {
  }

  // ---- survivors --------------------------------------------------------------------

  /** Survivor `k` and the rows folded into it are about one table. */
  ghost predicate SameTables(fold: string -> string, out: seq<Entry>, rows: seq<seq<MissingIndex>>) {
    && |out| == |rows|
    && forall k, r :: 0 <= k < |out| && r in rows[k] ==> TableOf(fold, r) == TableOf(fold, out[k].m)
  }

  ghost predicate InTable(fold: string -> string, out: seq<Entry>, t: TableKey) {
    forall k :: 0 <= k < |out| ==> TableOf(fold, out[k].m) == t
  }

  /** No two survivors of one table have related keys. */
  ghost predicate Separate(fold: string -> string, out: seq<Entry>) {
    forall i, j :: 0 <= i < |out| && 0 <= j < |out| && i != j
                   && TableOf(fold, out[i].m) == TableOf(fold, out[j].m) ==>
      !IsKeyPrefix(out[i].m.Key(), out[j].m.Key())
  }

  lemma {:induction false} RowInAllRows(rows: seq<seq<MissingIndex>>, k: nat, r: MissingIndex)
    requires k < |rows| && r in rows[k]
    ensures r in AllRows(rows)
  {
    if k > 0 {
      RowInAllRows(rows[1..], k - 1, r);
    }
  }

  lemma {:induction false} RowOfAllRows(rows: seq<seq<MissingIndex>>, r: MissingIndex) returns (k: nat)
    requires r in AllRows(rows)
    ensures k < |rows| && r in rows[k]
  {
    if r in rows[0] {
      k := 0;
    } else {
      k := RowOfAllRows(rows[1..], r);
      k := k + 1;
    }
  }

  /** One table's part of the output. */
  lemma MergedTable(fold: string -> string, missing: seq<MissingIndex>, t: TableKey)
    returns (rows: seq<seq<MissingIndex>>)
    ensures var out := Merged(GroupOf(fold, missing, t));
            && AccountsAll(out, rows)
            && AllRows(rows) == multiset(RowsOf(fold, missing, t))
            && InTable(fold, out, t)
            && SameTables(fold, out, rows)
            && Antichain(out)
  {
    hide IsKeyPrefix, Antichain, Merged, GroupOf, RowsOf, AllRows, IsUnionOf, IsMaxOf;
    var group := GroupOf(fold, missing, t);
    GroupIsFreshRows(fold, missing, t);
    AllRowsOfSingles(RowsOf(fold, missing, t));
    rows := MergedAccounts(group, Singles(RowsOf(fold, missing, t)));
    MergedIsAntichain(group);
    var out := Merged(group);
    forall k, r | 0 <= k < |out| && r in rows[k]
      ensures TableOf(fold, r) == t
    {
      RowInAllRows(rows, k, r);
      RowsOfElems(fold, missing, t);
    }
    forall k | 0 <= k < |out|
      ensures TableOf(fold, out[k].m) == t
    {
      assert Accounts(out[k], rows[k]);
      var r := rows[k][0];
      assert r in rows[k] && TableOf(fold, r) == t;
    }
  }

  lemma SeparateConcat(fold: string -> string, a: seq<Entry>, b: seq<Entry>, t: TableKey)
    requires InTable(fold, a, t) && Antichain(a)
    requires Separate(fold, b) && forall k :: 0 <= k < |b| ==> TableOf(fold, b[k].m) != t
    ensures Separate(fold, a + b)
  {
    hide IsKeyPrefix, TableOf;
    var c := a + b;
    forall i, j | 0 <= i < |c| && 0 <= j < |c| && i != j && TableOf(fold, c[i].m) == TableOf(fold, c[j].m)
      ensures !IsKeyPrefix(c[i].m.Key(), c[j].m.Key())
    {
      if i < |a| {
        assert TableOf(fold, a[i].m) == t;
      } else {
        assert c[i] == b[i - |a|];
      }
    }
  }

  lemma SameTablesConcat(fold: string -> string, a: seq<Entry>, b: seq<Entry>,
                         ra: seq<seq<MissingIndex>>, rb: seq<seq<MissingIndex>>)
    requires SameTables(fold, a, ra) && SameTables(fold, b, rb)
    requires AccountsAll(a, ra) && AccountsAll(b, rb)
    ensures SameTables(fold, a + b, ra + rb) && AccountsAll(a + b, ra + rb)
  {
    hide Accounts, TableOf;
    var rows := ra + rb;
    forall k | 0 <= k < |rows|
      ensures rows[k] == if k < |ra| then ra[k] else rb[k - |ra|]
    {
    }
  }

  lemma {:induction false} TablesConserve(fold: string -> string, missing: seq<MissingIndex>, keys: seq<TableKey>)
    returns (rows: seq<seq<MissingIndex>>)
    requires Ascending(keys)
    ensures var out := ConsolidateTables(fold, missing, keys);
            && AccountsAll(out, rows)
            && AllRows(rows) == AllGroups(fold, missing, keys)
            && SameTables(fold, out, rows)
            && Separate(fold, out)
            && forall k :: 0 <= k < |out| ==> TableOf(fold, out[k].m) in keys
  {
    hide Accounts, AccountsAll, IsKeyPrefix, Antichain, Merged, GroupOf, RowsOf, TableOf, KeyLess, Ascending,
         Separate, SameTables;
    if keys == [] {
      rows := [];
      NothingConserved(fold);
    } else {
      AscendingTail(keys);
      var rest := TablesConserve(fold, missing, keys[1..]);
      var head := MergedTable(fold, missing, keys[0]);
      rows := head + rest;
      var a, b := Merged(GroupOf(fold, missing, keys[0])), ConsolidateTables(fold, missing, keys[1..]);
      AllRowsConcat(head, rest);
      SeparateConcat(fold, a, b, keys[0]);
      SameTablesConcat(fold, a, b, head, rest);
    }
  }

  lemma NothingConserved(fold: string -> string)
    ensures AccountsAll([], []) && SameTables(fold, [], []) && Separate(fold, [])
    ensures AllRows([]) == multiset{}
  {
  }

  /** Consolidation conserves evidence: the keyed input rows are partitioned
      among the survivors, each of which accounts for its own part. */
  lemma ConsolidationConserves(fold: string -> string, missing: seq<MissingIndex>)
    returns (rows: seq<seq<MissingIndex>>)
    ensures AccountsAll(Consolidated(fold, missing), rows)
    ensures SameTables(fold, Consolidated(fold, missing), rows)
    ensures AllRows(rows) == multiset(Keyed(missing))
    ensures Separate(fold, Consolidated(fold, missing))
  {
    hide Accounts, AccountsAll, SameTables, Separate, Ascending, AllRows, AllGroups;
    TablesAscending(fold, missing);
    RowsPartitioned(fold, missing);
    rows := TablesConserve(fold, missing, Tables(fold, missing));
  }

  // ---- trace totals ------------------------------------------------------------------

  function AllParts(out: seq<Entry>): seq<u64> {
    if out == [] then [] else out[0].parts + AllParts(out[1..])
  }

  function Flatten(rows: seq<seq<MissingIndex>>): seq<MissingIndex> {
    if rows == [] then [] else rows[0] + Flatten(rows[1..])
  }

  lemma {:induction false} PartsOfRows(out: seq<Entry>, rows: seq<seq<MissingIndex>>)
    requires AccountsAll(out, rows)
    ensures AllParts(out) == SeeksOf(Flatten(rows)) && multiset(Flatten(rows)) == AllRows(rows)
  {
    hide IsKeyPrefix, IsUnionOf, IsMaxOf;
    if out != [] {
      PartsOfRows(out[1..], rows[1..]);
      assert Accounts(out[0], rows[0]);
      SeeksConcat(rows[0], Flatten(rows[1..]));
    }
  }

  lemma ElemsWithout<T>(b: seq<T>, k: nat)
    requires k < |b|
    ensures multiset(b) == multiset(Without(b, k)) + multiset{b[k]}
    ensures multiset(Without(b, k)) == multiset(b) - multiset{b[k]}
  {
    assert b == b[..k] + ([b[k]] + b[k + 1..]);
  }

  lemma {:induction false} SeeksAt(rows: seq<MissingIndex>)
    ensures |SeeksOf(rows)| == |rows|
    ensures forall k :: 0 <= k < |rows| ==> SeeksOf(rows)[k] == rows[k].seeks
  {
    if rows != [] {
      SeeksAt(rows[1..]);
      assert forall k :: 0 < k < |rows| ==> rows[k] == rows[1..][k - 1];
    }
  }

  lemma SeeksWithout(b: seq<MissingIndex>, k: nat)
    requires k < |b|
    ensures k < |SeeksOf(b)| && SeeksOf(b)[k] == b[k].seeks
    ensures SeeksOf(Without(b, k)) == Without(SeeksOf(b), k)
  {
    hide SeeksOf;
    SeeksAt(b);
    SeeksAt(Without(b, k));
  }

  lemma {:induction false} SeeksOfPermuted(a: seq<MissingIndex>, b: seq<MissingIndex>)
    requires multiset(a) == multiset(b)
    ensures multiset(SeeksOf(a)) == multiset(SeeksOf(b))
    decreases |a|
  {
    hide SeeksOf, Without;
    if a == [] {
      assert |multiset(b)| == 0;
    } else {
      assert a[0] in multiset(b);
      var k :| 0 <= k < |b| && b[k] == a[0];
      ElemsWithout(a, 0);
      ElemsWithout(b, k);
      SeeksWithout(a, 0);
      SeeksWithout(b, k);
      ElemsWithout(SeeksOf(a), 0);
      ElemsWithout(SeeksOf(b), k);
      WithoutIsShorter(a, 0);
      SeeksOfPermuted(Without(a, 0), Without(b, k));
    }
  }

  lemma WithoutIsShorter<T>(s: seq<T>, j: nat)
    requires j < |s|
    ensures |Without(s, j)| == |s| - 1
  {
  }

  /** The trace lists together are the input seek counts, each exactly once. */
  lemma TracesPartitionSeeks(fold: string -> string, missing: seq<MissingIndex>)
    ensures multiset(AllParts(Consolidated(fold, missing))) == multiset(SeeksOf(Keyed(missing)))
  {
    hide AccountsAll, SameTables, Separate, Consolidated, Keyed;
    var rows := ConsolidationConserves(fold, missing);
    PartsOfRows(Consolidated(fold, missing), rows);
    SeeksOfPermuted(Flatten(rows), Keyed(missing));
  }

  // ---- the surviving keys ---------------------------------------------------------------

  lemma {:induction false} KeyedElems(missing: seq<MissingIndex>)
    ensures forall m :: m in Keyed(missing) <==> m in missing && m.Key() != []
  {
    if missing != [] {
      var n := |missing| - 1;
      KeyedElems(missing[..n]);
      assert missing == missing[..n] + [missing[n]];
    }
  }

  /** Nothing lost: every keyed row is served by a survivor on its table. */
  lemma EveryRowServed(fold: string -> string, missing: seq<MissingIndex>, m: MissingIndex) returns (k: nat)
    requires m in missing && m.Key() != []
    ensures var out := Consolidated(fold, missing);
            && k < |out|
            && TableOf(fold, m) == TableOf(fold, out[k].m)
            && IsKeyPrefix(m.Key(), out[k].m.Key())
            && fold(m.schema) == fold(out[k].m.schema) && fold(m.table) == fold(out[k].m.table)
            && Norms(m.equality + m.inequality) <= Norms(out[k].m.equality + out[k].m.inequality)
            && forall c :: c in m.included && Norm(c) != "" ==> HasColumn(out[k].m.included, c)
  {
    hide Consolidated, Keyed, Norm, HasColumn, IsKeyPrefix;
    var rows := ConsolidationConserves(fold, missing);
    KeyedElems(missing);
    assert m in AllRows(rows);
    k := RowOfAllRows(rows, m);
    assert Accounts(Consolidated(fold, missing)[k], rows[k]);
    KeyPrefixIsPrefix(m.Key(), Consolidated(fold, missing)[k].m.Key());
  }

  /** Nothing foreign: every survivor's key is the key of a row on its table. */
  lemma EverySurvivorGenuine(fold: string -> string, missing: seq<MissingIndex>, k: nat) returns (m: MissingIndex)
    requires k < |Consolidated(fold, missing)|
    ensures m in missing && m.Key() != []
    ensures TableOf(fold, m) == TableOf(fold, Consolidated(fold, missing)[k].m)
    ensures m.Key() == Consolidated(fold, missing)[k].m.Key()
    ensures var e := Consolidated(fold, missing)[k].m;
            && e.schema == m.schema && e.table == m.table
            && e.equality == m.equality && e.inequality == m.inequality
  {
    hide Consolidated, Keyed, TableOf, Norm, HasColumn, IsKeyPrefix;
    var rows := ConsolidationConserves(fold, missing);
    assert Accounts(Consolidated(fold, missing)[k], rows[k]);
    m := rows[k][0];
    RowInAllRows(rows, k, m);
    KeyedElems(missing);
  }

  ghost function InputKeys(fold: string -> string, missing: seq<MissingIndex>, t: TableKey): set<seq<string>> {
    set m | m in missing && m.Key() != [] && TableOf(fold, m) == t :: Norms(m.Key())
  }

  ghost function SurvivingKeys(fold: string -> string, out: seq<Entry>, t: TableKey): set<seq<string>> {
    set e | e in out && TableOf(fold, e.m) == t :: Norms(e.m.Key())
  }

  /** The keys of `s` that no other key of `s` extends. */
  ghost function Maximal(s: set<seq<string>>): set<seq<string>> {
    set k | k in s && forall x :: x in s && k <= x ==> x == k
  }

  lemma SurvivorIsMaximal(fold: string -> string, missing: seq<MissingIndex>, t: TableKey, k: seq<string>)
    requires k in SurvivingKeys(fold, Consolidated(fold, missing), t)
    ensures k in Maximal(InputKeys(fold, missing, t))
  {
    hide Consolidated, Norms, TableOf, IsKeyPrefix;
    var out := Consolidated(fold, missing);
    var e :| e in out && TableOf(fold, e.m) == t && Norms(e.m.Key()) == k;
    var i :| 0 <= i < |out| && out[i] == e;
    var m := EverySurvivorGenuine(fold, missing, i);
    forall x | x in InputKeys(fold, missing, t) && k <= x
      ensures x == k
    {
      var r :| r in missing && r.Key() != [] && TableOf(fold, r) == t && Norms(r.Key()) == x;
      var j := EveryRowServed(fold, missing, r);
      KeyPrefixIsPrefix(r.Key(), out[j].m.Key());
      var rows := ConsolidationConserves(fold, missing);
      KeyPrefixIsPrefix(e.m.Key(), out[j].m.Key());
      assert i == j;
    }
  }

  lemma MaximalSurvives(fold: string -> string, missing: seq<MissingIndex>, t: TableKey, k: seq<string>)
    requires k in Maximal(InputKeys(fold, missing, t))
    ensures k in SurvivingKeys(fold, Consolidated(fold, missing), t)
  {
    hide Consolidated, Norms, TableOf, IsKeyPrefix;
    var out := Consolidated(fold, missing);
    var r :| r in missing && r.Key() != [] && TableOf(fold, r) == t && Norms(r.Key()) == k;
    var j := EveryRowServed(fold, missing, r);
    var m := EverySurvivorGenuine(fold, missing, j);
    KeyPrefixIsPrefix(r.Key(), out[j].m.Key());
    assert Norms(m.Key()) in InputKeys(fold, missing, t);
    assert out[j] in out;
  }

  /** The surviving keys of a table are exactly its maximal input keys under
      the normalised prefix order. */
  lemma SurvivorsAreMaximal(fold: string -> string, missing: seq<MissingIndex>, t: TableKey)
    ensures SurvivingKeys(fold, Consolidated(fold, missing), t) == Maximal(InputKeys(fold, missing, t))
  {
    hide Consolidated, SurvivingKeys, Maximal, InputKeys;
    var s, x := SurvivingKeys(fold, Consolidated(fold, missing), t), Maximal(InputKeys(fold, missing, t));
    forall k
      ensures k in s <==> k in x
    {
      if k in s {
        SurvivorIsMaximal(fold, missing, t, k);
      }
      if k in x {
        MaximalSurvives(fold, missing, t, k);
      }
    }
  }

  /** So the order in which the DMV returns its rows does not matter. */
  lemma RowOrderIrrelevant(fold: string -> string, missing: seq<MissingIndex>, shuffled: seq<MissingIndex>, t: TableKey)
    requires multiset(missing) == multiset(shuffled)
    ensures SurvivingKeys(fold, Consolidated(fold, missing), t) ==
            SurvivingKeys(fold, Consolidated(fold, shuffled), t)
  {
    hide Consolidated, SurvivingKeys, Maximal, TableOf, Norms;
    SurvivorsAreMaximal(fold, missing, t);
    SurvivorsAreMaximal(fold, shuffled, t);
    forall m
      ensures m in missing <==> m in shuffled
    {
      assert m in missing <==> m in multiset(missing);
      assert m in shuffled <==> m in multiset(shuffled);
    }
    assert InputKeys(fold, missing, t) == InputKeys(fold, shuffled, t);
  }

  // ---- running it again --------------------------------------------------------------

  function Survivors(out: seq<Entry>): (r: seq<MissingIndex>)
    ensures |r| == |out| && forall k :: 0 <= k < |out| ==> r[k] == out[k].m
  {
    seq(|out|, k requires 0 <= k < |out| => out[k].m)
  }

  function ResetAll(out: seq<Entry>): (r: seq<Entry>)
    ensures |r| == |out| && forall k :: 0 <= k < |out| ==> r[k] == Fresh(out[k].m)
  {
    seq(|out|, k requires 0 <= k < |out| => Fresh(out[k].m))
  }

  /** All rows of `rows` are keyed rows of table `t`. */
  ghost predicate Block(fold: string -> string, rows: seq<MissingIndex>, t: TableKey) {
    forall k :: 0 <= k < |rows| ==> rows[k].Key() != [] && TableOf(fold, rows[k]) == t
  }

  function FreshAll(rows: seq<MissingIndex>): (r: seq<Entry>)
    ensures |r| == |rows| && forall k :: 0 <= k < |rows| ==> r[k] == Fresh(rows[k])
  {
    seq(|rows|, k requires 0 <= k < |rows| => Fresh(rows[k]))
  }

  lemma {:induction false} GroupAfterBlock(fold: string -> string, a: seq<MissingIndex>, b: seq<MissingIndex>,
                                           t: TableKey, k: TableKey)
    requires Block(fold, b, t)
    ensures GroupOf(fold, a + b, k) == GroupOf(fold, a, k) + if k == t then FreshAll(b) else []
    decreases |b|
  {
    hide TableOf;
    if b == [] {
      assert a + b == a;
    } else {
      var b' := b[..|b| - 1];
      GroupAfterBlock(fold, a, b', t, k);
      assert (a + b)[..|a + b| - 1] == a + b';
      assert (a + b)[|a + b| - 1] == b[|b| - 1];
      assert FreshAll(b) == FreshAll(b') + [Fresh(b[|b| - 1])];
    }
  }

  lemma {:induction false} InsertLast(keys: seq<TableKey>, t: TableKey)
    requires forall k :: k in keys ==> KeyLess(k, t)
    ensures InsertKey(keys, t) == keys + [t] && InsertKey(keys + [t], t) == keys + [t]
  {
    hide KeyLess;
    if keys != [] {
      assert keys[0] in keys;
      KeyLessTotal(keys[0], t);
      InsertLast(keys[1..], t);
      assert (keys + [t])[1..] == keys[1..] + [t];
    }
  }

  lemma {:induction false} TablesAfterBlock(fold: string -> string, a: seq<MissingIndex>, b: seq<MissingIndex>,
                                            t: TableKey)
    requires Block(fold, b, t) && b != []
    requires forall k :: k in Tables(fold, a) ==> KeyLess(k, t)
    ensures Tables(fold, a + b) == Tables(fold, a) + [t]
    decreases |b|
  {
    hide TableOf, KeyLess, InsertKey;
    var b' := b[..|b| - 1];
    assert (a + b)[..|a + b| - 1] == a + b';
    assert (a + b)[|a + b| - 1] == b[|b| - 1];
    InsertLast(Tables(fold, a), t);
    if b' == [] {
      assert a + b' == a;
    } else {
      TablesAfterBlock(fold, a, b', t);
    }
  }

  lemma {:induction false} MergedNonempty(list: seq<Entry>)
    requires list != []
    ensures Merged(list) != []
    decreases |list|
  {
    hide FirstFrom, MergeAt;
    match FirstFrom(list, 0, 0)
    case None =>
    case Some((i, j)) =>
      MergeableNeedsTwo(list, i, j);
      MergedNonempty(MergeAt(list, i, j));
  }

  lemma MergeableNeedsTwo(list: seq<Entry>, i: nat, j: nat)
    requires FirstFrom(list, 0, 0) == Some((i, j))
    ensures |list| >= 2
  {
    hide IsKeyPrefix;
  }

  lemma {:induction false} ConsolidateTablesSnoc(fold: string -> string, missing: seq<MissingIndex>,
                                                 keys: seq<TableKey>, t: TableKey)
    ensures ConsolidateTables(fold, missing, keys + [t]) ==
            ConsolidateTables(fold, missing, keys) + Merged(GroupOf(fold, missing, t))
  {
    hide Merged, GroupOf;
    if keys == [] {
      assert [] + [t] == [t];
      assert ConsolidateTables(fold, missing, [t]) ==
             Merged(GroupOf(fold, missing, t)) + ConsolidateTables(fold, missing, []);
    } else {
      assert (keys + [t])[1..] == keys[1..] + [t];
      ConsolidateTablesSnoc(fold, missing, keys[1..], t);
    }
  }

  lemma MergedIsBlock(fold: string -> string, missing: seq<MissingIndex>, t: TableKey)
    ensures Block(fold, Survivors(Merged(GroupOf(fold, missing, t))), t)
    ensures FreshAll(Survivors(Merged(GroupOf(fold, missing, t)))) == ResetAll(Merged(GroupOf(fold, missing, t)))
  {
    hide Merged, GroupOf, TableOf, IsUnionOf, IsMaxOf;
    var out := Merged(GroupOf(fold, missing, t));
    var rows := MergedTable(fold, missing, t);
    forall k | 0 <= k < |out|
      ensures out[k].m.Key() != []
    {
      assert Accounts(out[k], rows[k]);
      assert rows[k][0] in rows[k];
    }
  }

  lemma SurvivorsConcat(a: seq<Entry>, b: seq<Entry>)
    ensures Survivors(a + b) == Survivors(a) + Survivors(b)
    ensures ResetAll(a + b) == ResetAll(a) + ResetAll(b)
  {
  }

  /** The groups of `again` are the merged groups of `missing`, table by table. */
  ghost predicate Regroups(fold: string -> string, missing: seq<MissingIndex>, keys: seq<TableKey>,
                           again: seq<MissingIndex>)
  {
    && Tables(fold, again) == keys
    && forall k :: GroupOf(fold, again, k) == GroupAgain(fold, missing, keys, k)
  }

  function GroupAgain(fold: string -> string, missing: seq<MissingIndex>, keys: seq<TableKey>, k: TableKey)
    : seq<Entry>
  {
    if k in keys then ResetAll(Merged(GroupOf(fold, missing, k))) else []
  }

  lemma RegroupsNext(fold: string -> string, missing: seq<MissingIndex>, before: seq<TableKey>, t: TableKey,
                     a: seq<Entry>)
    requires Regroups(fold, missing, before, Survivors(a)) && GroupOf(fold, missing, t) != []
    requires t !in before && forall k :: k in before ==> KeyLess(k, t)
    ensures Regroups(fold, missing, before + [t], Survivors(a + Merged(GroupOf(fold, missing, t))))
  {
    hide KeyLess, TableOf, Merged, Block, GroupOf, Tables, Survivors, ResetAll;
    var b := Merged(GroupOf(fold, missing, t));
    SurvivorsConcat(a, b);
    MergedIsBlock(fold, missing, t);
    MergedNonempty(GroupOf(fold, missing, t));
    assert Survivors(b) != [] by {
      assert |Survivors(b)| == |b|;
    }
    TablesAfterBlock(fold, Survivors(a), Survivors(b), t);
    forall k
      ensures GroupOf(fold, Survivors(a + b), k) == GroupAgain(fold, missing, before + [t], k)
    {
      GroupAfterBlock(fold, Survivors(a), Survivors(b), t, k);
      assert k in before + [t] <==> k in before || k == t;
      assert k != t ==> GroupOf(fold, Survivors(a), k) + [] == GroupOf(fold, Survivors(a), k);
      assert k == t ==> [] + ResetAll(b) == ResetAll(b);
    }
  }

  lemma {:induction false} Regrouped(fold: string -> string, missing: seq<MissingIndex>, keys: seq<TableKey>)
    requires Ascending(keys)
    requires forall k :: k in keys ==> GroupOf(fold, missing, k) != []
    ensures Regroups(fold, missing, keys, Survivors(ConsolidateTables(fold, missing, keys)))
    decreases |keys|
  {
    hide KeyLess, Ascending, Merged, GroupOf;
    if keys == [] {
      assert ConsolidateTables(fold, missing, keys) == [];
      NothingRegrouped(fold, missing);
    } else {
      hide ConsolidateTables, Survivors, Regroups;
      var n := |keys| - 1;
      AscendingInit(keys);
      assert keys == keys[..n] + [keys[n]];
      Regrouped(fold, missing, keys[..n]);
      ConsolidateTablesSnoc(fold, missing, keys[..n], keys[n]);
      RegroupsNext(fold, missing, keys[..n], keys[n], ConsolidateTables(fold, missing, keys[..n]));
    }
  }

  lemma NothingRegrouped(fold: string -> string, missing: seq<MissingIndex>)
    ensures Regroups(fold, missing, [], Survivors([]))
  {
  }

  lemma {:induction false} ConsolidateTablesAgain(fold: string -> string, missing: seq<MissingIndex>,
                                                   again: seq<MissingIndex>, keys: seq<TableKey>)
    requires forall k :: k in keys ==> GroupOf(fold, again, k) == ResetAll(Merged(GroupOf(fold, missing, k)))
    ensures ConsolidateTables(fold, again, keys) == ResetAll(ConsolidateTables(fold, missing, keys))
  {
    hide Merged, GroupOf, Antichain;
    if keys != [] {
      var list := Merged(GroupOf(fold, missing, keys[0]));
      MergedIsAntichain(GroupOf(fold, missing, keys[0]));
      ResetIsAntichain(list);
      AntichainIsFixed(ResetAll(list));
      ConsolidateTablesAgain(fold, missing, again, keys[1..]);
      SurvivorsConcat(list, ConsolidateTables(fold, missing, keys[1..]));
    }
  }

  lemma ResetIsAntichain(list: seq<Entry>)
    requires Antichain(list)
    ensures Antichain(ResetAll(list))
  {
    hide IsKeyPrefix;
  }

  /** Consolidating what has been consolidated changes nothing: the same
      suggestions come back, in the same order. */
  lemma ConsolidationIdempotent(fold: string -> string, missing: seq<MissingIndex>)
    ensures var out := Survivors(Consolidated(fold, missing));
            Survivors(Consolidated(fold, out)) == out
  {
    hide Merged, GroupOf, Tables, Ascending, ConsolidateTables;
    var keys := Tables(fold, missing);
    TablesAscending(fold, missing);
    forall k | k in keys
      ensures GroupOf(fold, missing, k) != []
    {
      GroupEmptyUnlessListed(fold, missing, k);
    }
    Regrouped(fold, missing, keys);
    assert forall k :: k in keys ==>
             GroupOf(fold, Survivors(Consolidated(fold, missing)), k) == GroupAgain(fold, missing, keys, k);
    ConsolidateTablesAgain(fold, missing, Survivors(Consolidated(fold, missing)), keys);
  }
}
