/**
 Where the survivors come from and in which order they are returned: each stands
 for the first row with its key, tables come in the order of their names, and
 within a table survivors come in the order of their rows.
 */
module ConsolidateOrder {
  import opened Wrappers
  import opened Identifiers
  import opened Consolidate
  import opened ConsolidateLaws
  import opened ConsolidateRun
  import opened TableOrder

  // ---- one table ---------------------------------------------------------------------

  predicate SameSuggestion(a: MissingIndex, b: MissingIndex) {
    a.schema == b.schema && a.table == b.table && a.equality == b.equality && a.inequality == b.inequality
  }

  function KeyAt(list: seq<Entry>, k: nat): seq<string>
    requires k < |list|
  {
    Norms(list[k].m.Key())
  }

  ghost predicate AllKeyed(list: seq<Entry>) { forall k :: 0 <= k < |list| ==> list[k].m.Key() != [] }

  /** `out[k]` comes from `list[src[k]]`, in order. */
  ghost predicate ComesFrom(list: seq<Entry>, src: seq<nat>, out: seq<Entry>) {
    && |src| == |out|
    && (forall k :: 0 <= k < |src| ==> src[k] < |list| && SameSuggestion(out[k].m, list[src[k]].m))
    && forall i, j :: 0 <= i < j < |src| ==> src[i] < src[j]
  }

  ghost predicate IsFirst(list: seq<Entry>, p: nat) {
    p < |list| && forall q :: 0 <= q < p ==> KeyAt(list, q) != KeyAt(list, p)
  }

  /** Every key of `list` starts the key of some entry of `out`. */
  ghost predicate Extends(out: seq<Entry>, list: seq<Entry>) {
    forall k :: 0 <= k < |list| ==> Started(list, k, out)
  }

  ghost predicate Started(list: seq<Entry>, k: nat, out: seq<Entry>)
    requires k < |list|
  {
    exists n: nat :: Starts(list, k, out, n)
  }

  predicate Starts(list: seq<Entry>, k: nat, out: seq<Entry>, n: nat)
    requires k < |list|
  {
    n < |out| && KeyAt(list, k) <= KeyAt(out, n)
  }

  /** Where position `p` of the list without `j` was before. */
  function Before(p: nat, j: nat): nat { if p < j then p else p + 1 }

  lemma MergedPlaces(list: seq<Entry>, i: nat, j: nat, p: nat)
    requires i < |list| && j < |list| && i != j && p < |list| - 1
    ensures SameSuggestion(MergeAt(list, i, j)[p].m, list[Before(p, j)].m)
    ensures KeyAt(MergeAt(list, i, j), p) == KeyAt(list, Before(p, j))
  {
    hide UnionIncludes, Norms;
  }

  lemma MergedKeys(list: seq<Entry>, i: nat, j: nat, out: seq<Entry>)
    requires i < |list| && j < |list| && Mergeable(list, i, j) && Extends(out, MergeAt(list, i, j))
    ensures Extends(out, list)
  {
    hide IsKeyPrefix, MergeAt, Norms, KeyAt;
    var rest := MergeAt(list, i, j);
    forall k | 0 <= k < |list|
      ensures Started(list, k, out)
    {
      var k' := if k == j then i else k;
      var p := if k' < j then k' else k' - 1;
      MergedPlaces(list, i, j, p);
      assert Started(rest, p, out);
      var n: nat :| Starts(rest, p, out, n);
      KeyStarts(list, i, j);
      assert Starts(list, k, out, n);
    }
  }

  lemma KeyStarts(list: seq<Entry>, i: nat, j: nat)
    requires i < |list| && j < |list| && Mergeable(list, i, j)
    ensures KeyAt(list, j) <= KeyAt(list, i)
    ensures KeyAt(list, j) == KeyAt(list, i) ==> i < j
  {
    hide Norms, IsKeyPrefix;
    KeyPrefixIsPrefix(list[j].m.Key(), list[i].m.Key());
    assert |Norms(list[i].m.Key())| == |list[i].m.Key()| && |Norms(list[j].m.Key())| == |list[j].m.Key()|;
  }

  lemma {:induction false} MergedExtends(list: seq<Entry>)
    ensures Extends(Merged(list), list)
    decreases |list|
  {
    hide FirstFrom, MergeAt, IsKeyPrefix, KeyAt, Extends;
    match FirstFrom(list, 0, 0)
    case None => SelfExtends(list);
    case Some((i, j)) =>
      MergedExtends(MergeAt(list, i, j));
      MergedKeys(list, i, j, Merged(list));
  }

  lemma SelfExtends(list: seq<Entry>)
    ensures Extends(list, list)
  {
    hide KeyAt;
    forall k | 0 <= k < |list|
      ensures Started(list, k, list)
    {
      assert Starts(list, k, list, k);
    }
  }

  lemma FinalIsFirst(list: seq<Entry>, p: nat)
    requires p < |list| && AllKeyed(list) && FirstFrom(list, 0, 0) == None
    ensures IsFirst(list, p)
  {
    hide Norms, IsKeyPrefix, FirstFrom;
    FinalIsAntichain(list);
    forall q | 0 <= q < p
      ensures KeyAt(list, q) != KeyAt(list, p)
    {
      KeyPrefixIsPrefix(list[p].m.Key(), list[q].m.Key());
    }
  }

  /** An entry whose key another entry strictly extends does not survive. */
  lemma ExtendedIsGone(list: seq<Entry>, i: nat, p: nat, k: nat)
    requires i < |list| && p < |list| && AllKeyed(list) && KeyAt(list, p) < KeyAt(list, i)
    requires k < |Merged(list)|
    ensures !SameSuggestion(Merged(list)[k].m, list[p].m)
  {
    hide Norms, IsKeyPrefix, Merged;
    var out := Merged(list);
    MergedIsAntichain(list);
    MergedExtends(list);
    assert Started(list, i, out);
    var n: nat :| Starts(list, i, out, n);
    if SameSuggestion(out[k].m, list[p].m) {
      assert KeyAt(out, k) == KeyAt(list, p);
      KeyPrefixIsPrefix(out[k].m.Key(), out[n].m.Key());
    }
  }

  lemma FirstStays(list: seq<Entry>, i: nat, j: nat, p: nat, k: nat)
    requires i < |list| && j < |list| && Mergeable(list, i, j) && AllKeyed(list)
    requires p < |list| - 1 && IsFirst(MergeAt(list, i, j), p)
    requires k < |Merged(list)| && SameSuggestion(Merged(list)[k].m, list[Before(p, j)].m)
    ensures IsFirst(list, Before(p, j))
  {
    hide Norms, MergeAt, KeyAt, Merged, IsKeyPrefix;
    var rest, b := MergeAt(list, i, j), Before(p, j);
    MergedPlaces(list, i, j, p);
    KeyStarts(list, i, j);
    if i < j {
      MergedPlaces(list, i, j, i);
      assert i < p ==> KeyAt(rest, i) != KeyAt(rest, p);
    }
    forall q | 0 <= q < b
      ensures KeyAt(list, q) != KeyAt(list, b)
    {
      if q != j {
        var q' := if q < j then q else q - 1;
        MergedPlaces(list, i, j, q');
        assert KeyAt(rest, q') != KeyAt(rest, p);
      } else if KeyAt(list, j) == KeyAt(list, b) && KeyAt(list, j) != KeyAt(list, i) {
        ExtendedIsGone(list, i, b, k);
      }
    }
  }

  /** The survivors come from the first entries with their keys, in order. */
  lemma {:induction false} MergedFrom(list: seq<Entry>) returns (src: seq<nat>)
    requires AllKeyed(list)
    ensures ComesFrom(list, src, Merged(list))
    ensures forall k :: 0 <= k < |src| ==> IsFirst(list, src[k])
    decreases |list|
  {
    hide FirstFrom, MergeAt, KeyAt, IsFirst, IsKeyPrefix;
    match FirstFrom(list, 0, 0)
    case None =>
      src := seq(|list|, k => k);
      forall p | 0 <= p < |list|
        ensures IsFirst(list, p)
      {
        FinalIsFirst(list, p);
      }
    case Some((i, j)) =>
      var rest := MergeAt(list, i, j);
      StillKeyed(list, i, j);
      var src' := MergedFrom(rest);
      src := seq(|src'|, k requires 0 <= k < |src'| => Before(src'[k], j));
      forall k | 0 <= k < |src|
        ensures src[k] < |list| && SameSuggestion(Merged(list)[k].m, list[src[k]].m) && IsFirst(list, src[k])
      {
        MergedPlaces(list, i, j, src'[k]);
        FirstStays(list, i, j, src'[k], k);
      }
  }

  lemma StillKeyed(list: seq<Entry>, i: nat, j: nat)
    requires i < |list| && j < |list| && i != j && AllKeyed(list)
    ensures AllKeyed(MergeAt(list, i, j))
  {
    hide UnionIncludes;
  }

  // ---- all tables ------------------------------------------------------------------------

  /** Row `n` carries a key and is about table `t`. */
  predicate IsRowOf(fold: string -> string, missing: seq<MissingIndex>, t: TableKey, n: nat) {
    n < |missing| && missing[n].Key() != [] && TableOf(fold, missing[n]) == t
  }

  /** The rows of table `t`, by position. */
  ghost predicate Positions(fold: string -> string, missing: seq<MissingIndex>, t: TableKey, pos: seq<nat>) {
    && |pos| == |GroupOf(fold, missing, t)|
    && (forall k :: 0 <= k < |pos| ==>
          IsRowOf(fold, missing, t, pos[k]) && GroupOf(fold, missing, t)[k].m == missing[pos[k]])
    && (forall i, j :: 0 <= i < j < |pos| ==> pos[i] < pos[j])
    && forall n :: IsRowOf(fold, missing, t, n) ==> n in pos
  }

  lemma OneMorePosition(fold: string -> string, before: seq<MissingIndex>, m: MissingIndex, t: TableKey,
                        pos: seq<nat>)
    requires Positions(fold, before, t, pos)
    ensures Positions(fold, before + [m], t,
                      if m.Key() != [] && TableOf(fold, m) == t then pos + [|before|] else pos)
  {
    hide IsRowOf, GroupOf, TableOf, MissingIndex.Key;
    var all := before + [m];
    var mine := m.Key() != [] && TableOf(fold, m) == t;
    OneMoreRow(fold, before, m, t);
    var pos' := if mine then pos + [|before|] else pos;
    forall n | IsRowOf(fold, all, t, n)
      ensures n in pos'
    {
      if n == |before| {
        assert mine ==> pos'[|pos|] == n;
      }
    }
  }

  lemma OneMoreRow(fold: string -> string, before: seq<MissingIndex>, m: MissingIndex, t: TableKey)
    ensures var all, mine := before + [m], m.Key() != [] && TableOf(fold, m) == t;
            && (forall n: nat :: n < |before| ==> (IsRowOf(fold, all, t, n) <==> IsRowOf(fold, before, t, n)))
            && (forall n: nat :: n >= |before| ==> (IsRowOf(fold, all, t, n) <==> n == |before| && mine))
            && (forall n: nat :: IsRowOf(fold, before, t, n) ==> n < |before|)
            && GroupOf(fold, all, t) == GroupOf(fold, before, t) + if mine then [Fresh(m)] else []
  {
    hide TableOf, MissingIndex.Key;
    assert (before + [m])[..|before|] == before;
  }

  lemma {:induction false} GroupPositions(fold: string -> string, missing: seq<MissingIndex>, t: TableKey)
    returns (pos: seq<nat>)
    ensures Positions(fold, missing, t, pos)
  {
    hide Positions, TableOf;
    if missing == [] {
      pos := [];
      NoPositions(fold, t);
    } else {
      var n := |missing| - 1;
      var m := missing[n];
      var before := GroupPositions(fold, missing[..n], t);
      OneMorePosition(fold, missing[..n], m, t, before);
      assert missing[..n] + [m] == missing;
      pos := if m.Key() != [] && TableOf(fold, m) == t then before + [n] else before;
    }
  }

  lemma NoPositions(fold: string -> string, t: TableKey)
    ensures Positions(fold, [], t, [])
  {
  }

  /** No earlier row of its table has the key of row `n`. */
  ghost predicate FirstOfItsKey(fold: string -> string, missing: seq<MissingIndex>, n: nat) {
    && n < |missing|
    && forall p :: 0 <= p < n && fold(missing[p].schema) == fold(missing[n].schema)
                   && fold(missing[p].table) == fold(missing[n].table) ==>
         Norms(missing[p].equality + missing[p].inequality) != Norms(missing[n].equality + missing[n].inequality)
  }

  ghost predicate Leading(fold: string -> string, missing: seq<MissingIndex>, out: seq<Entry>, src: seq<nat>) {
    && |src| == |out|
    && forall k :: 0 <= k < |out| ==>
         FirstOfItsKey(fold, missing, src[k]) && SameSuggestion(out[k].m, missing[src[k]])
  }

  ghost predicate InOrder(fold: string -> string, out: seq<Entry>, src: seq<nat>) {
    && |src| == |out|
    && forall i, j :: 0 <= i < j < |out| ==>
         var a, b := out[i].m, out[j].m;
         || TableBefore(fold(a.schema), fold(a.table), fold(b.schema), fold(b.table))
         || (fold(a.schema) == fold(b.schema) && fold(a.table) == fold(b.table) && src[i] < src[j])
  }

  lemma RowIsFirst(fold: string -> string, missing: seq<MissingIndex>, t: TableKey, pos: seq<nat>, p: nat)
    requires Positions(fold, missing, t, pos) && p < |pos| && IsFirst(GroupOf(fold, missing, t), p)
    ensures FirstOfItsKey(fold, missing, pos[p])
  {
    hide GroupOf, Norms;
    var group, n := GroupOf(fold, missing, t), pos[p];
    forall q | 0 <= q < n && TableOf(fold, missing[q]) == t
      ensures Norms(missing[q].Key()) != Norms(missing[n].Key())
    {
      if missing[q].Key() == [] {
        assert |Norms(missing[q].Key())| == 0 && |Norms(missing[n].Key())| == |missing[n].Key()|;
      } else {
        assert IsRowOf(fold, missing, t, q);
        var k :| 0 <= k < |pos| && pos[k] == q;
        assert KeyAt(group, k) != KeyAt(group, p);
      }
    }
  }

  lemma TableLeads(fold: string -> string, missing: seq<MissingIndex>, t: TableKey) returns (src: seq<nat>)
    ensures var out := Merged(GroupOf(fold, missing, t));
            && Leading(fold, missing, out, src) && InTable(fold, out, t)
            && forall i, j :: 0 <= i < j < |src| ==> src[i] < src[j]
  {
    hide Merged, GroupOf, IsFirst, FirstOfItsKey;
    var group := GroupOf(fold, missing, t);
    var pos := GroupPositions(fold, missing, t);
    var at := MergedFrom(group);
    src := seq(|at|, k requires 0 <= k < |at| => pos[at[k]]);
    forall k | 0 <= k < |at|
      ensures FirstOfItsKey(fold, missing, src[k])
    {
      RowIsFirst(fold, missing, t, pos, at[k]);
    }
  }

  lemma {:induction false} TablesLead(fold: string -> string, missing: seq<MissingIndex>, keys: seq<TableKey>)
    returns (src: seq<nat>)
    requires Ascending(keys)
    ensures var out := ConsolidateTables(fold, missing, keys);
            && Leading(fold, missing, out, src) && InOrder(fold, out, src)
            && forall k :: 0 <= k < |out| ==> TableOf(fold, out[k].m) in keys
  {
    hide Merged, GroupOf, Leading, InOrder, Ascending, TableOf;
    if keys == [] {
      src := [];
      NothingLeads(fold, missing);
    } else {
      AscendingTail(keys);
      var rest := TablesLead(fold, missing, keys[1..]);
      var head := TableLeads(fold, missing, keys[0]);
      src := head + rest;
      var a, b := Merged(GroupOf(fold, missing, keys[0])), ConsolidateTables(fold, missing, keys[1..]);
      LeadingConcat(fold, missing, a, b, head, rest);
      OrderConcat(fold, a, b, head, rest, keys);
    }
  }

  lemma NothingLeads(fold: string -> string, missing: seq<MissingIndex>)
    ensures Leading(fold, missing, [], []) && InOrder(fold, [], [])
  {
  }

  lemma LeadingConcat(fold: string -> string, missing: seq<MissingIndex>, a: seq<Entry>, b: seq<Entry>,
                      sa: seq<nat>, sb: seq<nat>)
    requires Leading(fold, missing, a, sa) && Leading(fold, missing, b, sb)
    ensures Leading(fold, missing, a + b, sa + sb) && |sa| == |a|
  {
    hide FirstOfItsKey;
  }

  lemma OrderConcat(fold: string -> string, a: seq<Entry>, b: seq<Entry>, sa: seq<nat>, sb: seq<nat>,
                    keys: seq<TableKey>)
    requires keys != [] && Ascending(keys) && InTable(fold, a, keys[0]) && |sa| == |a|
    requires forall k :: 0 <= k < |b| ==> TableOf(fold, b[k].m) in keys[1..]
    requires (forall i, j :: 0 <= i < j < |sa| ==> sa[i] < sa[j]) && InOrder(fold, b, sb)
    ensures InOrder(fold, a + b, sa + sb)
  {
    hide KeyLess, TableBefore;
    var out, src := a + b, sa + sb;
    forall i, j | 0 <= i < j < |out|
      ensures var x, y := out[i].m, out[j].m;
              || TableBefore(fold(x.schema), fold(x.table), fold(y.schema), fold(y.table))
              || (fold(x.schema) == fold(y.schema) && fold(x.table) == fold(y.table) && src[i] < src[j])
    {
      if i < |a| <= j {
        var n :| 0 <= n < |keys[1..]| && keys[1..][n] == TableOf(fold, b[j - |a|].m);
        assert KeyLess(keys[0], keys[n + 1]) && TableOf(fold, a[i].m) == keys[0];
        KeyLessMeans(keys[0], keys[n + 1]);
      } else if i < |a| {
        assert TableOf(fold, a[i].m) == TableOf(fold, a[j].m) == keys[0];
      }
    }
  }

  /** Every survivor is the first row of its table with its key. Survivors come
      table by table in dictionary order, and within a table in the order of
      those rows. */
  lemma SurvivorsInOrder(fold: string -> string, missing: seq<MissingIndex>) returns (src: seq<nat>)
    ensures Leading(fold, missing, Consolidated(fold, missing), src)
    ensures InOrder(fold, Consolidated(fold, missing), src)
  {
    hide Leading, InOrder, Ascending, ConsolidateTables;
    TablesAscending(fold, missing);
    src := TablesLead(fold, missing, Tables(fold, missing));
  }
}
