/**
 What the advisor's helpers come to, said in the fields of the catalog, the
 suggestion and the statement: which rows a table has, which suggestion gets no
 statement, which index is rebuilt, and what a new index is called.
 */
module AdviseMeaning {
  import opened Wrappers
  import opened Strings
  import opened Identifiers
  import opened Consolidate
  import opened Advise

  // ---- row counts ----------------------------------------------------------------------

  predicate IsOf(p: PartitionStats, t: string) { Lower(p.schema + "." + p.table) == t }

  /** A partition of the heap or the clustered index; a row that names no index
      at all counts as one. */
  predicate HoldsRows(p: PartitionStats) {
    p.indexId == Some(0) || p.indexId == Some(1) || (p.indexId == None && p.indexName == None)
  }

  predicate IsOwn(p: PartitionStats, t: string) { IsOf(p, t) && HoldsRows(p) }

  function OwnRows(stats: seq<PartitionStats>, t: string): nat {
    if stats == [] then 0
    else (if IsOwn(stats[0], t) then stats[0].rowCount else 0) + OwnRows(stats[1..], t)
  }

  lemma {:induction false} OwnRowsSnoc(stats: seq<PartitionStats>, p: PartitionStats, t: string)
    ensures OwnRows(stats + [p], t) == OwnRows(stats, t) + OwnRows([p], t)
  {
    hide Lower;
    if stats == [] {
      assert stats + [p] == [p];
    } else {
      assert (stats + [p])[1..] == stats[1..] + [p];
      OwnRowsSnoc(stats[1..], p, t);
    }
  }

  lemma BaseRowsStep(before: seq<PartitionStats>, p: PartitionStats, t: string)
    ensures BaseRows(before + [p], t) ==
            var sum := BaseRows(before, t);
            if IsOwn(p, t) then Some((if sum == None then 0 else sum.value) + p.rowCount) else sum
    ensures OwnRows([p], t) == if IsOwn(p, t) then p.rowCount else 0
  {
    hide Lower;
    assert (before + [p])[..|before|] == before;
    assert OwnRows([p][1..], t) == 0;
  }

  lemma {:induction false} BaseRowsMeans(stats: seq<PartitionStats>, t: string)
    ensures BaseRows(stats, t) == if exists p :: p in stats && IsOwn(p, t) then Some(OwnRows(stats, t)) else None
    ensures BaseRows(stats, t) == None ==> OwnRows(stats, t) == 0
  {
    hide IsOwn, BaseRows, OwnRows;
    if stats == [] {
      NoRows(t);
    } else {
      var n := |stats| - 1;
      var before, p := stats[..n], stats[n];
      assert stats == before + [p];
      BaseRowsMeans(before, t);
      BaseRowsStep(before, p, t);
      OwnRowsSnoc(before, p, t);
      assert forall q :: q in stats <==> q in before || q == p;
    }
  }

  lemma NoRows(t: string)
    ensures BaseRows([], t) == None && OwnRows([], t) == 0
  {
  }

  lemma {:induction false} LargestPartitionMeans(stats: seq<PartitionStats>, t: string)
    ensures LargestPartition(stats, t) == None <==> forall p :: p in stats ==> !IsOf(p, t)
    ensures forall n :: LargestPartition(stats, t) == Some(n) ==>
              && (exists p :: p in stats && IsOf(p, t) && p.rowCount == n)
              && (forall p :: p in stats && IsOf(p, t) ==> p.rowCount <= n)
  {
    hide Lower;
    if stats != [] {
      var n := |stats| - 1;
      LargestPartitionMeans(stats[..n], t);
      assert forall p :: p in stats <==> p in stats[..n] || p == stats[n];
      assert LargestPartition(stats, t) == None <==> LargestPartition(stats[..n], t) == None && !IsOf(stats[n], t);
    }
  }

  /** A table's rows are those of its heap or clustered partitions added up. A
      table that shows none has the largest count any of its indexes shows, and
      one that is not listed has no count. */
  lemma RowCountMeans(stats: seq<PartitionStats>, t: string)
    ensures (exists p :: p in stats && IsOwn(p, t)) ==> RowsOfTable(stats, t) == Some(OwnRows(stats, t))
    ensures RowsOfTable(stats, t) == None <==> forall p :: p in stats ==> !IsOf(p, t)
    ensures forall n :: (forall p :: p in stats ==> !IsOwn(p, t)) && RowsOfTable(stats, t) == Some(n) ==>
              && (exists p :: p in stats && IsOf(p, t) && p.rowCount == n)
              && (forall p :: p in stats && IsOf(p, t) ==> p.rowCount <= n)
  {
    hide IsOf, HoldsRows, BaseRows, LargestPartition;
    BaseRowsMeans(stats, t);
    LargestPartitionMeans(stats, t);
  }

  // ---- which suggestion gets which statement ---------------------------------------------

  /** An ordinary index on the suggested table with the suggested key. */
  predicate IsTwin(ix: IndexMeta, m: MissingIndex) {
    && Lower(ix.schema) == Lower(m.schema) && Lower(ix.table) == Lower(m.table)
    && !ix.isPrimaryKey && !ix.isUnique && !ix.isClustered
    && Norms(ix.keys) == Norms(m.equality + m.inequality)
  }

  predicate FirstTwin(indexes: seq<IndexMeta>, m: MissingIndex, k: nat) {
    k < |indexes| && IsTwin(indexes[k], m) && forall j :: 0 <= j < k ==> !IsTwin(indexes[j], m)
  }

  ghost predicate HasTwin(indexes: seq<IndexMeta>, m: MissingIndex) {
    exists k :: 0 <= k < |indexes| && IsTwin(indexes[k], m)
  }

  /** Every requested INCLUDE column is a column of the index. */
  ghost predicate Holds(ix: IndexMeta, m: MissingIndex) {
    forall c :: c in m.included ==> exists x :: (x in ix.keys || x in ix.included) && Norm(x) == Norm(c)
  }

  lemma TwinMeans(ix: IndexMeta, m: MissingIndex)
    ensures SameKeyIndex(ix, m) <==> IsTwin(ix, m)
  {
    hide Lower, Norm;
    if IsTwin(ix, m) {
      forall k | 0 <= k < |ix.keys|
        ensures ColEq(ix.keys[k], m.Key()[k])
      {
        assert Norms(ix.keys)[k] == Norms(m.Key())[k];
      }
    }
  }

  lemma HoldsMeans(ix: IndexMeta, m: MissingIndex)
    ensures HoldsAll(ix, m.included) <==> Holds(ix, m)
  {
    hide Norm;
    forall c | c in m.included
      ensures HasColumn(ix.included + ix.keys, c) <==>
              exists x :: (x in ix.keys || x in ix.included) && Norm(x) == Norm(c)
    {
      assert forall x :: x in ix.included + ix.keys <==> x in ix.keys || x in ix.included;
    }
  }

  lemma {:induction false} FirstTwinFound(indexes: seq<IndexMeta>, m: MissingIndex, k: nat)
    requires FirstTwin(indexes, m, k)
    ensures ExistingSameKey(indexes, m) == Some(indexes[k])
  {
    hide IsTwin, SameKeyIndex;
    TwinMeans(indexes[0], m);
    if k > 0 {
      assert !IsTwin(indexes[0], m);
      FirstTwinFound(indexes[1..], m, k - 1);
    }
  }

  lemma {:induction false} NoTwinFound(indexes: seq<IndexMeta>, m: MissingIndex)
    requires !HasTwin(indexes, m)
    ensures ExistingSameKey(indexes, m) == None
  {
    hide IsTwin, SameKeyIndex;
    if indexes != [] {
      TwinMeans(indexes[0], m);
      assert forall k :: 0 <= k < |indexes[1..]| ==> indexes[1..][k] == indexes[k + 1];
      NoTwinFound(indexes[1..], m);
    }
  }

  lemma {:induction false} TwinComesFirst(indexes: seq<IndexMeta>, m: MissingIndex, n: nat) returns (k: nat)
    requires n < |indexes| && IsTwin(indexes[n], m)
    ensures k <= n && FirstTwin(indexes, m, k)
  {
    hide IsTwin;
    if j: nat :| j < n && IsTwin(indexes[j], m) {
      k := TwinComesFirst(indexes, m, j);
    } else {
      k := n;
    }
  }

  /** A suggestion gets no statement if and only if it has no key column, its
      table is known to have fewer than a thousand rows, or the first index with
      its key on its table already has all its INCLUDE columns. */
  lemma SkippedMeans(indexes: seq<IndexMeta>, rows: map<string, nat>, m: MissingIndex)
    ensures IsSkipped(indexes, rows, m) <==>
              || (m.equality == [] && m.inequality == [])
              || (var t := Lower(m.schema + "." + m.table); t in rows && rows[t] < 1000)
              || exists k: nat :: FirstTwin(indexes, m, k) && Holds(indexes[k], m)
  {
    hide Lower, IsTwin, Holds, HoldsAll, ExistingSameKey;
    assert m.Key() == [] <==> m.equality == [] && m.inequality == [];
    if HasTwin(indexes, m) {
      var n :| 0 <= n < |indexes| && IsTwin(indexes[n], m);
      var k := TwinComesFirst(indexes, m, n);
      FirstTwinFound(indexes, m, k);
      HoldsMeans(indexes[k], m);
    } else {
      NoTwinFound(indexes, m);
    }
    forall k: nat | FirstTwin(indexes, m, k)
      ensures ExistingSameKey(indexes, m) == Some(indexes[k])
      ensures HoldsAll(indexes[k], m.included) <==> Holds(indexes[k], m)
    {
      FirstTwinFound(indexes, m, k);
      HoldsMeans(indexes[k], m);
    }
  }

  /** A statement keeps the suggestion's table and key. It takes the name of the
      first index with that key on the table and rebuilds it, its INCLUDE columns
      first; without such an index it takes the first free name and the
      suggestion's own INCLUDE columns. */
  lemma StatementMeans(u: Unicode, indexes: seq<IndexMeta>, taken: Names, m: MissingIndex)
    ensures var r := Statement(u, indexes, taken, m);
            && r.schema == m.schema && r.table == m.table && r.keys == m.equality + m.inequality
            && (forall k: nat :: FirstTwin(indexes, m, k) ==>
                  && r.name == indexes[k].name && r.widens == Some(indexes[k])
                  && r.included == UnionIncludes(indexes[k].included, m.included))
            && (!HasTwin(indexes, m) ==>
                  && r.widens == None && r.included == m.included
                  && r.name == FirstFree(taken, Lower(m.schema + "." + m.table), BaseName(u, m), 1))
  {
    hide Lower, IsTwin, ExistingSameKey, FirstFree, BaseName, UnionIncludes;
    forall k: nat | FirstTwin(indexes, m, k)
      ensures ExistingSameKey(indexes, m) == Some(indexes[k])
    {
      FirstTwinFound(indexes, m, k);
    }
    if !HasTwin(indexes, m) {
      NoTwinFound(indexes, m);
    }
  }

  // ---- names ---------------------------------------------------------------------------------

  /** A numeral's value. */
  function Value(s: string): int {
    if s == "" then 0 else 10 * Value(s[..|s| - 1]) + (s[|s| - 1] as int - '0' as int)
  }

  /** The numeral of `n`: decimal digits without a leading zero. */
  ghost predicate IsNumeral(s: string, n: nat) {
    && s != "" && (forall k :: 0 <= k < |s| ==> '0' <= s[k] <= '9') && (|s| > 1 ==> s[0] != '0')
    && Value(s) == n
  }

  lemma {:induction false} DecimalIsNumeral(n: nat)
    ensures IsNumeral(Decimal(n), n)
    ensures n > 0 ==> Decimal(n)[0] != '0'
  {
    var s := Decimal(n);
    if n >= 10 {
      DecimalIsNumeral(n / 10);
      assert s[..|s| - 1] == Decimal(n / 10);
    } else {
      assert s[..0] == "";
    }
  }

  lemma {:induction false} ValueIsNatural(s: string)
    requires s != "" && forall k :: 0 <= k < |s| ==> '0' <= s[k] <= '9'
    ensures Value(s) >= 0 && (s[0] != '0' ==> Value(s) > 0)
  {
    var t := s[..|s| - 1];
    if t != "" {
      ValueIsNatural(t);
    }
  }

  /** A number has one numeral. */
  lemma {:induction false} NumeralIsDecimal(s: string, n: nat)
    requires IsNumeral(s, n)
    ensures s == Decimal(n)
    decreases |s|
  {
    var t, d := s[..|s| - 1], s[|s| - 1];
    assert s == t + [d];
    if t == "" {
      assert Value(t) == 0;
    } else {
      ValueIsNatural(t);
      NumeralIsDecimal(t, n / 10);
    }
  }

  /** A fresh index keeps its base name when no index of the table has it;
      otherwise the least number from 2 on that makes the name free is put
      behind it. */
  lemma FreshNameMeans(taken: Names, t: string, base: string) returns (n: nat, numeral: string)
    ensures n >= 1 && IsNumeral(numeral, n)
    ensures FirstFree(taken, t, base, 1) == if n == 1 then base else base + "_" + numeral
    ensures n == 1 <==> (t, Lower(base)) !in taken
    ensures n > 1 ==> (t, Lower(base + "_" + numeral)) !in taken
    ensures forall j, s :: 2 <= j < n && IsNumeral(s, j) ==> (t, Lower(base + "_" + s)) in taken
  {
    hide Lower, Decimal, IsNumeral, FirstFree;
    n := FirstFreeIsLeast(taken, t, base, 1);
    numeral := Decimal(n);
    DecimalIsNumeral(n);
    assert n > 1 ==> TakenName(t, NthName(base, 1)) in taken;
    forall j, s | 2 <= j < n && IsNumeral(s, j)
      ensures (t, Lower(base + "_" + s)) in taken
    {
      NumeralIsDecimal(s, j);
      assert TakenName(t, NthName(base, j)) in taken;
    }
  }

  // ---- base names ------------------------------------------------------------------------------

  /** A name of letters, digits and underscores; the bracket and the blank are neither. */
  predicate IsWord(u: Unicode, s: string) {
    s != "" && forall k :: 0 <= k < |s| ==> (u.alphanumeric(s[k]) || s[k] == '_') && !IsWhite(s[k]) && !IsBracket(s[k])
  }

  lemma KeepStep(c: char, rest: string, p: char -> bool)
    ensures Keep([c] + rest, p) == (if p(c) then [c] else []) + Keep(rest, p)
  {
    assert ([c] + rest)[1..] == rest;
  }

  lemma {:induction false} KeepConcat(a: string, b: string, p: char -> bool)
    ensures Keep(a + b, p) == Keep(a, p) + Keep(b, p)
  {
    hide Keep;
    if a == [] {
      KeepNone(a, p);
      assert a + b == b;
    } else {
      assert a == [a[0]] + a[1..] && a + b == [a[0]] + (a[1..] + b);
      KeepStep(a[0], a[1..], p);
      KeepStep(a[0], a[1..] + b, p);
      KeepConcat(a[1..], b, p);
    }
  }

  lemma {:induction false} KeepEvery(s: string, p: char -> bool)
    requires forall k :: 0 <= k < |s| ==> p(s[k])
    ensures Keep(s, p) == s
  {
    if s != [] {
      KeepEvery(s[1..], p);
      assert s == [s[0]] + s[1..];
    }
  }

  lemma {:induction false} KeepNone(s: string, p: char -> bool)
    requires forall k :: 0 <= k < |s| ==> !p(s[k])
    ensures Keep(s, p) == ""
  {
    if s != [] {
      KeepNone(s[1..], p);
    }
  }

  /** White space and brackets around a name are left out of an index name, and so
      is anything between its words that is no letter, digit or underscore. */
  lemma FragmentOfWords(u: Unicode, open: string, a: string, between: string, b: string, close: string)
    requires IsWord(u, a) && IsWord(u, b)
    requires forall k :: 0 <= k < |between| ==> !u.alphanumeric(between[k]) && between[k] != '_'
    requires (forall c :: c in open ==> c == '[') && (forall c :: c in close ==> c == ']')
    ensures IdFrag(u, " " + (open + (a + between + b) + close) + " ") == a + b
  {
    hide TrimBoth, Keep;
    var core := a + between + b;
    var q := open + core + close;
    var p := c => u.alphanumeric(c) || c == '_';
    assert core[0] == a[0] && core[|core| - 1] == b[|b| - 1];
    assert q[0] == if open == "" then a[0] else open[0];
    assert q[|q| - 1] == if close == "" then b[|b| - 1] else close[|close| - 1];
    assert open != "" ==> open[0] in open;
    assert close != "" ==> close[|close| - 1] in close;
    TrimBothOfPadded(" ", q, " ", IsWhite);
    TrimBothOfPadded(open, core, close, IsBracket);
    KeepConcat(a + between, b, p);
    KeepConcat(a, between, p);
    KeepEvery(a, p);
    KeepNone(between, p);
    KeepEvery(b, p);
  }

  lemma FragmentOfWord(u: Unicode, s: string)
    requires IsWord(u, s)
    ensures IdFrag(u, s) == s
  {
    hide Keep;
    TrimBothOfTrimmed(s, IsWhite);
    TrimBothOfTrimmed(s, IsBracket);
    KeepEvery(s, c => u.alphanumeric(c) || c == '_');
  }

  /** Each column with an underscore before it. */
  function Tail(cols: seq<string>): string { if cols == [] then "" else "_" + cols[0] + Tail(cols[1..]) }

  lemma {:induction false} JoinIsTail(cols: seq<string>)
    requires cols != []
    ensures "_" + Join(cols, "_") == Tail(cols)
  {
    if |cols| > 1 {
      JoinIsTail(cols[1..]);
      assert "_" + (cols[0] + "_" + Join(cols[1..], "_")) == "_" + cols[0] + ("_" + Join(cols[1..], "_"));
    } else {
      assert Tail(cols[1..]) == "";
    }
  }

  /** A fresh index is named after its table and its key columns in order, cut
      after 120 characters. */
  lemma BaseNameMeans(u: Unicode, m: MissingIndex)
    requires IsWord(u, m.table)
    requires m.equality + m.inequality != [] && forall c :: c in m.equality + m.inequality ==> IsWord(u, c)
    ensures var name := "IX_" + m.table + Tail(m.equality + m.inequality);
            BaseName(u, m) == if |name| <= 120 then name else name[..120]
  {
    hide IsWord, IdFrag, Join, Tail;
    var keys := m.Key();
    FragmentOfWord(u, m.table);
    forall k | 0 <= k < |keys|
      ensures IdFrag(u, keys[k]) == keys[k]
    {
      assert keys[k] in keys;
      FragmentOfWord(u, keys[k]);
    }
    assert Frags(u, keys) == keys;
    JoinIsTail(keys);
    assert "IX_" + m.table + "_" + Join(keys, "_") == "IX_" + m.table + ("_" + Join(keys, "_"));
  }
}
