/**
 INCLUDE lists stay free of repeats through unions, consolidation and the CREATE
 INDEX batch.
 */
module ConsolidateRepeats {
  import opened Identifiers
  import opened Consolidate
  import opened Advise
  import opened AdviseLaws

  lemma PrefixUnrepeated(a: seq<string>, b: seq<string>)
    requires a <= b && NoRepeats(b)
    ensures NoRepeats(a)
  {
    hide ColEq;
    forall i, j | 0 <= i < j < |a|
      ensures !ColEq(a[i], a[j])
    {
      assert b[i] == a[i] && b[j] == a[j];
    }
  }

  lemma NewColumnUnrepeated(into: seq<string>, c: string)
    requires NoRepeats(into)
    ensures NoRepeats(WithInclude(into, c))
  {
    hide Norm, Trim;
    if WithInclude(into, c) != into {
      var r := into + [c];
      forall i, j | 0 <= i < j < |r|
        ensures !ColEq(r[i], r[j])
      {
        if j == |into| {
          assert into[i] in into;
        }
      }
    }
  }

  /** A union repeats a column exactly if what it started from did: nothing is added
      that is there already. */
  lemma {:induction false} UnionUnrepeated(into: seq<string>, extra: seq<string>)
    ensures NoRepeats(UnionIncludes(into, extra)) <==> NoRepeats(into)
    decreases |extra|
  {
    hide WithInclude, NoRepeats;
    if extra != [] {
      UnionUnrepeated(WithInclude(into, extra[0]), extra[1..]);
      WithIncludeExtends(into, extra[0]);
      if NoRepeats(into) {
        NewColumnUnrepeated(into, extra[0]);
      } else if NoRepeats(WithInclude(into, extra[0])) {
        PrefixUnrepeated(into, WithInclude(into, extra[0]));
      }
    }
  }

  lemma WithIncludeExtends(into: seq<string>, c: string)
    ensures into <= WithInclude(into, c)
  {
  }

  ghost predicate Unrepeated(list: seq<Entry>) { forall e :: e in list ==> NoRepeats(e.m.included) }

  lemma {:induction false} MergedUnrepeated(list: seq<Entry>)
    requires Unrepeated(list)
    ensures Unrepeated(Merged(list))
    decreases |list|
  {
    hide FirstFrom, NoRepeats, UnionIncludes;
    match FirstFrom(list, 0, 0)
    case None =>
    case Some((i, j)) =>
      UnionUnrepeated(list[i].m.included, list[j].m.included);
      assert list[i] in list;
      forall e | e in MergeAt(list, i, j)
        ensures NoRepeats(e.m.included)
      {
        assert e == Absorb(list[i], list[j]) || e in list;
      }
      MergedUnrepeated(MergeAt(list, i, j));
  }

  lemma {:induction false} GroupUnrepeated(fold: string -> string, missing: seq<MissingIndex>, t: TableKey)
    requires forall m :: m in missing ==> NoRepeats(m.included)
    ensures Unrepeated(GroupOf(fold, missing, t))
  {
    hide NoRepeats;
    if missing != [] {
      var n := |missing| - 1;
      assert missing[n] in missing && forall m :: m in missing[..n] ==> m in missing;
      GroupUnrepeated(fold, missing[..n], t);
    }
  }

  lemma {:induction false} TablesUnrepeated(fold: string -> string, missing: seq<MissingIndex>, keys: seq<TableKey>)
    requires forall m :: m in missing ==> NoRepeats(m.included)
    ensures Unrepeated(ConsolidateTables(fold, missing, keys))
    decreases |keys|
  {
    hide NoRepeats, Merged, GroupOf;
    if keys != [] {
      GroupUnrepeated(fold, missing, keys[0]);
      MergedUnrepeated(GroupOf(fold, missing, keys[0]));
      TablesUnrepeated(fold, missing, keys[1..]);
    }
  }

  /** When no row of the report repeats an INCLUDE column, no survivor does. */
  lemma SurvivorsUnrepeated(fold: string -> string, missing: seq<MissingIndex>)
    requires forall m :: m in missing ==> NoRepeats(m.included)
    ensures forall e :: e in Consolidated(fold, missing) ==> NoRepeats(e.m.included)
  {
    hide NoRepeats, ConsolidateTables;
    TablesUnrepeated(fold, missing, Tables(fold, missing));
  }

  /** And when no index of the catalog does either, no statement of the batch lists an
      INCLUDE column twice, new or widening. */
  lemma StatementsUnrepeated(u: Unicode, missing: seq<MissingIndex>, indexes: seq<IndexMeta>, rows: map<string, nat>)
    requires forall m :: m in missing ==> NoRepeats(m.included)
    requires forall ix :: ix in indexes ==> NoRepeats(ix.included)
    ensures forall r :: r in Advice(u, missing, indexes, rows) ==> NoRepeats(r.included)
  {
    hide NoRepeats, Consolidated, Batch, UnionIncludes, ExistingSameKey;
    SurvivorsUnrepeated(u.lower, missing);
    var out := Consolidated(u.lower, missing);
    var recs := Advice(u, missing, indexes, rows);
    var src := BatchSources(u, indexes, rows, CatalogNames(indexes), out);
    forall r | r in recs
      ensures NoRepeats(r.included)
    {
      var k :| 0 <= k < |recs| && recs[k] == r;
      var e := out[src[k]];
      assert e in out;
      match r.widens
      case None =>
      case Some(ix) => UnionUnrepeated(ix.included, e.m.included);
    }
  }
}
