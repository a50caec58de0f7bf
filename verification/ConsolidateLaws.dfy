/**
 What consolidation promises: the surviving keys of a table are exactly its
 maximal keys, nothing an absorbed row asked for is lost, the evidence adds up,
 and a second run changes nothing.
 */
module ConsolidateLaws {
  import opened Wrappers
  import opened Identifiers
  import opened Consolidate

  // ---- the merged list is an antichain -----------------------------------------

  lemma {:induction false} NothingMergeable(list: seq<Entry>, i: nat, j: nat)
    requires FirstFrom(list, i, j) == None
    ensures forall a, b :: 0 <= a < |list| && 0 <= b < |list| && (i < a || (i == a && j <= b)) ==>
              !Mergeable(list, a, b)
    decreases |list| - i, |list| - j
  {
    hide IsKeyPrefix;
    if i < |list| {
      if j >= |list| {
        NothingMergeable(list, i + 1, 0);
      } else {
        NothingMergeable(list, i, j + 1);
      }
    }
  }

  /** Row by row, `(i, j)` comes before `(x, y)`. */
  predicate RowBefore(i: int, j: int, x: int, y: int) { i < x || (i == x && j < y) }

  /** The pair folded next is the first one, row by row, whose keys are related. */
  lemma {:induction false} FirstFromIsFirst(list: seq<Entry>, i: nat, j: nat)
    requires FirstFrom(list, i, j).Some?
    ensures var (x, y) := FirstFrom(list, i, j).value;
            && x < |list| && y < |list| && !RowBefore(x, y, i, j)
            && (Norms(list[y].m.Key()) < Norms(list[x].m.Key()) ||
                (Norms(list[y].m.Key()) == Norms(list[x].m.Key()) && x < y))
            && forall a, b :: 0 <= a < |list| && 0 <= b < |list| && !RowBefore(a, b, i, j) && RowBefore(a, b, x, y) ==>
                 !Mergeable(list, a, b)
    decreases |list| - i, |list| - j
  {
    hide IsKeyPrefix, Norms;
    if j >= |list| {
      FirstFromIsFirst(list, i + 1, 0);
    } else if Mergeable(list, i, j) {
      KeyPrefixIsPrefix(list[j].m.Key(), list[i].m.Key());
      assert |Norms(list[i].m.Key())| == |list[i].m.Key()| && |Norms(list[j].m.Key())| == |list[j].m.Key()|;
    } else {
      FirstFromIsFirst(list, i, j + 1);
    }
  }

  ghost predicate Antichain(list: seq<Entry>) {
    forall i, j :: 0 <= i < |list| && 0 <= j < |list| && i != j ==>
      !IsKeyPrefix(list[i].m.Key(), list[j].m.Key())
  }

  lemma SameLengthPrefixIsSymmetric(a: seq<string>, b: seq<string>)
    requires |a| == |b| && IsKeyPrefix(a, b)
    ensures IsKeyPrefix(b, a)
  {
    hide Norm;
    forall k | 0 <= k < |b|
      ensures ColEq(b[k], a[k])
    {
      assert ColEq(a[k], b[k]);
    }
  }

  lemma FinalIsAntichain(list: seq<Entry>)
    ensures FirstFrom(list, 0, 0) == None <==> Antichain(list)
  {
    hide IsKeyPrefix;
    if FirstFrom(list, 0, 0) == None {
      NothingMergeable(list, 0, 0);
      forall i, j | 0 <= i < |list| && 0 <= j < |list| && i != j
        ensures !IsKeyPrefix(list[i].m.Key(), list[j].m.Key())
      {
        assert !Mergeable(list, i, j) && !Mergeable(list, j, i);
        if IsKeyPrefix(list[i].m.Key(), list[j].m.Key()) {
          SameLengthPrefixIsSymmetric(list[i].m.Key(), list[j].m.Key());
        }
      }
    }
  }

  /** No survivor's key is a prefix of another's. */
  lemma {:induction false} MergedIsAntichain(list: seq<Entry>)
    ensures Antichain(Merged(list))
    decreases |list|
  {
    hide FirstFrom, MergeAt, Antichain;
    match FirstFrom(list, 0, 0)
    case None => FinalIsAntichain(list);
    case Some((i, j)) => MergedIsAntichain(MergeAt(list, i, j));
  }

  /** Merging what is already merged does nothing. */
  lemma AntichainIsFixed(list: seq<Entry>)
    requires Antichain(list)
    ensures Merged(list) == list
  {
    hide FirstFrom, Antichain;
    FinalIsAntichain(list);
  }

  // ---- what a survivor accounts for ----------------------------------------------

  function SeeksOf(rows: seq<MissingIndex>): seq<u64> {
    if rows == [] then [] else [rows[0].seeks] + SeeksOf(rows[1..])
  }

  function Sum(parts: seq<u64>): nat {
    if parts == [] then 0 else parts[0] + Sum(parts[1..])
  }

  /** Counts stop at the largest 64-bit number. */
  function Capped(n: nat): u64 { if n < 18446744073709551616 then n else 18446744073709551615 }

  ghost predicate IsMaxOf(x: real, rows: seq<MissingIndex>, f: MissingIndex -> real) {
    && (forall r :: r in rows ==> f(r) <= x)
    && (exists r :: r in rows && f(r) == x)
  }

  function ImpactOf(m: MissingIndex): real { m.impact }

  function CostOf(m: MissingIndex): real { m.cost }

  /** Every column `rows` include is in `inc`, up to spelling, and every column
      of `inc` was included by one of them. */
  ghost predicate IsUnionOf(inc: seq<string>, rows: seq<MissingIndex>) {
    && (forall r, c :: r in rows && c in r.included && Norm(c) != "" ==> HasColumn(inc, c))
    && (forall c :: c in inc ==> exists r :: r in rows && c in r.included)
  }

  /** Survivor `e` stands for the input rows `rows`, its own row first. */
  ghost predicate Accounts(e: Entry, rows: seq<MissingIndex>) {
    && rows != []
    && e.m.schema == rows[0].schema
    && e.m.table == rows[0].table
    && e.m.equality == rows[0].equality
    && e.m.inequality == rows[0].inequality
    && rows[0].included <= e.m.included
    && (forall r :: r in rows ==> IsKeyPrefix(r.Key(), e.m.Key()))
    && e.parts == SeeksOf(rows)
    && e.m.seeks == Capped(Sum(e.parts))
    && IsMaxOf(e.m.impact, rows, ImpactOf)
    && IsMaxOf(e.m.cost, rows, CostOf)
    && IsUnionOf(e.m.included, rows)
  }

  lemma KeyPrefixReflexive(k: seq<string>)
    requires k != []
    ensures IsKeyPrefix(k, k)
  {
  }

  lemma FreshAccounts(m: MissingIndex)
    requires m.Key() != []
    ensures Accounts(Fresh(m), [m])
  {
    hide Norm, IsKeyPrefix;
    KeyPrefixReflexive(m.Key());
    assert SeeksOf([m]) == [m.seeks];
    assert Sum([m.seeks]) == m.seeks + Sum([]);
    assert m in [m];
  }

  lemma {:induction false} SeeksConcat(a: seq<MissingIndex>, b: seq<MissingIndex>)
    ensures SeeksOf(a + b) == SeeksOf(a) + SeeksOf(b)
  {
    if a == [] {
      assert a + b == b;
    } else {
      assert (a + b)[1..] == a[1..] + b;
      SeeksConcat(a[1..], b);
    }
  }

  lemma {:induction false} SumConcat(a: seq<u64>, b: seq<u64>)
    ensures Sum(a + b) == Sum(a) + Sum(b)
  {
    if a == [] {
      assert a + b == b;
    } else {
      assert (a + b)[1..] == a[1..] + b;
      SumConcat(a[1..], b);
    }
  }

  lemma MaxConcat(x: real, y: real, a: seq<MissingIndex>, b: seq<MissingIndex>, f: MissingIndex -> real)
    requires IsMaxOf(x, a, f) && IsMaxOf(y, b, f)
    ensures IsMaxOf(Max(x, y), a + b, f)
  {
    var r, s :| r in a && f(r) == x && s in b && f(s) == y;
    assert r in a + b && s in a + b;
  }

  // ---- INCLUDE lists ---------------------------------------------------------------

  lemma BlankNorm(c: string)
    requires Trim(c) == ""
    ensures Norm(c) == ""
  {
  }

  /** One union keeps what was in front, every column that is not blank, and
      nothing foreign. */
  lemma {:induction false} UnionKeeps(into: seq<string>, extra: seq<string>)
    ensures into <= UnionIncludes(into, extra)
    ensures forall c :: c in extra && (Trim(c) != "" || Norm(c) != "") ==> HasColumn(UnionIncludes(into, extra), c)
    ensures forall c :: c in UnionIncludes(into, extra) ==> c in into || c in extra
    decreases |extra|
  {
    hide Norm, Trim;
    if extra != [] {
      var next := WithInclude(into, extra[0]);
      var r := UnionIncludes(next, extra[1..]);
      UnionKeeps(next, extra[1..]);
      if Trim(extra[0]) == "" {
        BlankNorm(extra[0]);
      } else {
        assert HasColumn(next, extra[0]) by {
          assert extra[0] in into + [extra[0]];
        }
        HasColumnMonotone(next, r, extra[0]);
      }
    }
  }

  lemma HasColumnMonotone(a: seq<string>, b: seq<string>, c: string)
    requires a <= b && HasColumn(a, c)
    ensures HasColumn(b, c)
  {
    hide ColEq;
    var x :| x in a && ColEq(x, c);
    assert x in b;
  }

  lemma HasColumnThrough(a: seq<string>, c: string, d: string)
    requires HasColumn(a, d) && ColEq(c, d)
    ensures HasColumn(a, c)
  {
    hide Norm;
    var x :| x in a && ColEq(x, d);
    assert ColEq(x, c);
  }

  lemma UnionConcat(x: seq<string>, y: seq<string>, a: seq<MissingIndex>, b: seq<MissingIndex>)
    requires IsUnionOf(x, a) && IsUnionOf(y, b)
    ensures IsUnionOf(UnionIncludes(x, y), a + b)
  {
    hide Norm, ColEq, UnionIncludes, HasColumn;
    var u := UnionIncludes(x, y);
    UnionKeeps(x, y);
    forall r, c | r in a + b && c in r.included && Norm(c) != ""
      ensures HasColumn(u, c)
    {
      if r in a {
        HasColumnMonotone(x, u, c);
      } else {
        ColumnPassedOn(x, y, c);
      }
    }
    forall c | c in u
      ensures exists r :: r in a + b && c in r.included
    {
      if c in x {
        var r :| r in a && c in r.included;
        assert r in a + b;
      } else {
        var r :| r in b && c in r.included;
        assert r in a + b;
      }
    }
  }

  lemma ColumnPassedOn(x: seq<string>, y: seq<string>, c: string)
    requires HasColumn(y, c) && Norm(c) != ""
    ensures HasColumn(UnionIncludes(x, y), c)
  {
    hide Norm, UnionIncludes;
    var d :| d in y && ColEq(d, c);
    UnionKeeps(x, y);
    HasColumnThrough(UnionIncludes(x, y), c, d);
  }

  // ---- the whole merge -------------------------------------------------------------

  lemma AbsorbAccounts(a: Entry, b: Entry, ra: seq<MissingIndex>, rb: seq<MissingIndex>)
    requires Accounts(a, ra) && Accounts(b, rb)
    requires IsKeyPrefix(b.m.Key(), a.m.Key())
    ensures Accounts(Absorb(a, b), ra + rb)
  {
    hide IsKeyPrefix, UnionIncludes, IsUnionOf, IsMaxOf, Sum, SeeksOf;
    var e := Absorb(a, b);
    assert e.m.Key() == a.m.Key();
    forall r | r in ra + rb
      ensures IsKeyPrefix(r.Key(), e.m.Key())
    {
      if r in rb {
        KeyPrefixTransitive(r.Key(), b.m.Key(), a.m.Key());
      }
    }
    SeeksConcat(ra, rb);
    SumConcat(a.parts, b.parts);
    MaxConcat(a.m.impact, b.m.impact, ra, rb, ImpactOf);
    MaxConcat(a.m.cost, b.m.cost, ra, rb, CostOf);
    UnionConcat(a.m.included, b.m.included, ra, rb);
    UnionKeeps(a.m.included, b.m.included);
  }

  ghost predicate AccountsAll(list: seq<Entry>, rows: seq<seq<MissingIndex>>) {
    |list| == |rows| && forall k :: 0 <= k < |list| ==> Accounts(list[k], rows[k])
  }

  function AllRows(rows: seq<seq<MissingIndex>>): multiset<MissingIndex> {
    if rows == [] then multiset{} else multiset(rows[0]) + AllRows(rows[1..])
  }

  lemma {:induction false} AllRowsConcat(a: seq<seq<MissingIndex>>, b: seq<seq<MissingIndex>>)
    ensures AllRows(a + b) == AllRows(a) + AllRows(b)
  {
    if a == [] {
      assert a + b == b;
    } else {
      assert (a + b)[1..] == a[1..] + b;
      AllRowsConcat(a[1..], b);
    }
  }

  lemma AllRowsSplit(rows: seq<seq<MissingIndex>>, k: nat)
    requires k < |rows|
    ensures AllRows(rows) == AllRows(rows[..k]) + multiset(rows[k]) + AllRows(rows[k + 1..])
  {
    hide AllRows;
    assert rows == rows[..k] + ([rows[k]] + rows[k + 1..]);
    AllRowsStep(rows[k], rows[k + 1..]);
    AllRowsConcat(rows[..k], [rows[k]] + rows[k + 1..]);
  }

  lemma AllRowsStep(head: seq<MissingIndex>, rest: seq<seq<MissingIndex>>)
    ensures AllRows([head] + rest) == multiset(head) + AllRows(rest)
  {
    assert ([head] + rest)[1..] == rest;
  }

  lemma AllRowsWithout(rows: seq<seq<MissingIndex>>, j: nat)
    requires j < |rows|
    ensures AllRows(rows) == AllRows(Without(rows, j)) + multiset(rows[j])
  {
    AllRowsSplit(rows, j);
    AllRowsConcat(rows[..j], rows[j + 1..]);
  }

  lemma AllRowsUpdate(rows: seq<seq<MissingIndex>>, i: nat, extra: seq<MissingIndex>)
    requires i < |rows|
    ensures AllRows(rows[i := rows[i] + extra]) == AllRows(rows) + multiset(extra)
  {
    var rows' := rows[i := rows[i] + extra];
    AllRowsSplit(rows, i);
    AllRowsSplit(rows', i);
    assert rows'[..i] == rows[..i] && rows'[i + 1..] == rows[i + 1..];
    assert multiset(rows[i] + extra) == multiset(rows[i]) + multiset(extra);
  }

  function RowsAt(rows: seq<seq<MissingIndex>>, i: nat, j: nat): seq<seq<MissingIndex>>
    requires i < |rows| && j < |rows| && i != j
  {
    Without(rows, j)[Shifted(i, j) := rows[i] + rows[j]]
  }

  lemma ShiftedWithout<T>(s: seq<T>, i: nat, j: nat)
    requires i < |s| && j < |s| && i != j
    ensures Without(s, j)[Shifted(i, j)] == s[i]
  {
  }

  lemma MergeAtAccounts(list: seq<Entry>, rows: seq<seq<MissingIndex>>, i: nat, j: nat)
    requires AccountsAll(list, rows)
    requires i < |list| && j < |list| && Mergeable(list, i, j)
    ensures AccountsAll(MergeAt(list, i, j), RowsAt(rows, i, j))
    ensures AllRows(RowsAt(rows, i, j)) == AllRows(rows)
  {
    hide Accounts, IsKeyPrefix, Absorb, AllRows;
    AbsorbAccounts(list[i], list[j], rows[i], rows[j]);
    var list', rows' := MergeAt(list, i, j), RowsAt(rows, i, j);
    forall k | 0 <= k < |list'|
      ensures Accounts(list'[k], rows'[k])
    {
      if k != Shifted(i, j) {
        var from := if k < j then k else k + 1;
        assert list'[k] == list[from] && rows'[k] == rows[from];
      }
    }
    ShiftedWithout(rows, i, j);
    AllRowsWithout(rows, j);
    AllRowsUpdate(Without(rows, j), Shifted(i, j), rows[j]);
  }

  lemma {:induction false} MergedAccounts(list: seq<Entry>, rows: seq<seq<MissingIndex>>)
    returns (rows': seq<seq<MissingIndex>>)
    requires AccountsAll(list, rows)
    ensures AccountsAll(Merged(list), rows')
    ensures AllRows(rows') == AllRows(rows)
    decreases |list|
  {
    hide AccountsAll, FirstFrom, MergeAt, AllRows, RowsAt;
    match FirstFrom(list, 0, 0)
    case None => rows' := rows;
    case Some((i, j)) =>
      MergeAtStays(list, rows, i, j);
      rows' := MergedAccounts(MergeAt(list, i, j), RowsAt(rows, i, j));
  }

  lemma MergeAtStays(list: seq<Entry>, rows: seq<seq<MissingIndex>>, i: nat, j: nat)
    requires AccountsAll(list, rows)
    requires FirstFrom(list, 0, 0) == Some((i, j))
    ensures |rows| == |list| && i < |list| && j < |list| && i != j
    ensures AccountsAll(MergeAt(list, i, j), RowsAt(rows, i, j))
    ensures AllRows(RowsAt(rows, i, j)) == AllRows(rows)
  {
    hide Accounts, IsKeyPrefix;
    MergeAtAccounts(list, rows, i, j);
  }
}
