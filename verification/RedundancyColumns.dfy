/**
 What the drops of redundant indexes cost in columns: the exact-duplicate pass
 loses none unless an INCLUDE list repeats a column, and then exactly the prefix
 pass decides.
 */
module RedundancyColumns {
  import opened Wrappers
  import opened Strings
  import opened Identifiers
  import opened Advise
  import opened Redundancy
  import opened RedundancyLaws

  /** Index `q` serves every key prefix of `p` and carries all its INCLUDE columns. */
  ghost predicate Covers(cat: Catalog, p: nat, q: nat) {
    Extends(cat, p, q) && NormSet(cat[p].included) <= NormSet(cat[q].included) + NormSet(cat[q].keys)
  }

  /** Some index that remains covers it, exact duplicates and prefix-redundant indexes
      being dropped at once. */
  ghost predicate Kept(cat: Catalog, p: nat) { exists q: nat :: Remains(cat, q) && Covers(cat, p, q) }

  /** Some index that the prefix pass alone leaves covers it. */
  ghost predicate KeptByPrefixPass(cat: Catalog, p: nat) {
    exists q: nat :: q < |cat| && !PrefixRedundant(cat, q) && Covers(cat, p, q)
  }

  ghost predicate ColumnsKept(cat: Catalog) { forall p :: 0 <= p < |cat| ==> Kept(cat, p) }

  ghost predicate PrefixPassKeepsColumns(cat: Catalog) {
    forall p :: 0 <= p < |cat| ==> KeptByPrefixPass(cat, p)
  }

  /** The index kept of two duplicates has the INCLUDE columns of the one dropped. */
  ghost predicate TwinsHold(cat: Catalog) {
    forall d :: DuplicateDrop(cat, d) ==>
      d.keep < |cat| && d.drop < |cat| && NormSet(cat[d.drop].included) <= NormSet(cat[d.keep].included)
  }

  lemma UnrepeatedTwinsHold(cat: Catalog)
    requires forall p :: 0 <= p < |cat| ==> NoRepeats(cat[p].included)
    ensures TwinsHold(cat)
  {
    hide NoRepeats, NormSet, SameColumnSet, SameKey;
    forall d | DuplicateDrop(cat, d)
      ensures d.keep < |cat| && d.drop < |cat| && NormSet(cat[d.drop].included) <= NormSet(cat[d.keep].included)
    {
      var i: nat, j: nat :| Pair(cat, i, j) && DuplicateVerdict(cat, i, j) == Some(d);
      SameColumnSetMeans(cat[i].included, cat[j].included);
    }
  }

  /** Peers of an index that the prefix pass keeps are kept by it. */
  lemma PeerNotSuperseded(cat: Catalog, p: nat, q: nat)
    requires Peers(cat, p, q) && !IsConstraint(cat[q]) && !PrefixRedundant(cat, q)
    ensures !PrefixRedundant(cat, p)
  {
    hide SameKey, Supersedes;
    PeersSymmetric(cat, p, q);
    TopOfPeer(cat, q, p);
  }

  /** What stands in for an index that the prefix pass keeps: itself, or the twin it
      was dropped for, or that one's twin, and so on. */
  lemma {:induction false} Heir(cat: Catalog, q: nat) returns (h: nat)
    requires TwinsHold(cat) && q < |cat| && !PrefixRedundant(cat, q)
    ensures Remains(cat, h) && Table(cat[h]) == Table(cat[q]) && Norms(cat[h].keys) == Norms(cat[q].keys)
    ensures NormSet(cat[q].included) <= NormSet(cat[h].included)
    decreases q
  {
    hide SameKey, NormSet, PrefixRedundant, DuplicateDrop, Norms;
    if !DuplicateDropped(cat, q) {
      h := q;
    } else {
      var d :| DuplicateDrop(cat, d) && d.drop == q;
      DuplicateDropLeaves(cat, d);
      PeersAreEqualKeys(cat, d.keep, q);
      if IsConstraint(cat[d.keep]) {
        ConstraintsRemain(cat, d.keep);
        h := d.keep;
      } else {
        PeerNotSuperseded(cat, d.keep, q);
        h := Heir(cat, d.keep);
      }
    }
  }

  lemma SameNormsSameSet(a: seq<string>, b: seq<string>)
    requires Norms(a) == Norms(b)
    ensures NormSet(a) == NormSet(b)
  {
    hide Norm;
    forall n
      ensures n in NormSet(a) <==> n in NormSet(b)
    {
      if n in NormSet(a) {
        var c :| c in a && Norm(c) == n;
        var k :| 0 <= k < |a| && a[k] == c;
        assert Norms(b)[k] == Norms(a)[k] && b[k] in b;
      }
      if n in NormSet(b) {
        var c :| c in b && Norm(c) == n;
        var k :| 0 <= k < |b| && b[k] == c;
        assert Norms(a)[k] == Norms(b)[k] && a[k] in a;
      }
    }
  }

  lemma HeirCovers(cat: Catalog, p: nat, q: nat, h: nat)
    requires Covers(cat, p, q) && h < |cat|
    requires Table(cat[h]) == Table(cat[q]) && Norms(cat[h].keys) == Norms(cat[q].keys)
    requires NormSet(cat[q].included) <= NormSet(cat[h].included)
    ensures Covers(cat, p, h)
  {
    hide Norms, NormSet;
    SameNormsSameSet(cat[h].keys, cat[q].keys);
  }

  /** When the index kept of two duplicates holds the columns of the other, dropping
      duplicates as well costs nothing: both passes keep every INCLUDE column if and
      only if the prefix pass, which does not look at INCLUDEs, does. */
  lemma ColumnsKeptIffPrefixPassKeepsThem(cat: Catalog)
    requires TwinsHold(cat)
    ensures ColumnsKept(cat) <==> PrefixPassKeepsColumns(cat)
  {
    hide TwinsHold, Covers, PrefixRedundant, DuplicateDropped;
    forall p | 0 <= p < |cat|
      ensures Kept(cat, p) <==> KeptByPrefixPass(cat, p)
    {
      if KeptByPrefixPass(cat, p) {
        var q: nat :| q < |cat| && !PrefixRedundant(cat, q) && Covers(cat, p, q);
        var h := Heir(cat, q);
        HeirCovers(cat, p, q, h);
      }
      if Kept(cat, p) {
        var q: nat :| Remains(cat, q) && Covers(cat, p, q);
        assert q < |cat| && !PrefixRedundant(cat, q);
      }
    }
  }

  // ---- two indexes on one key ---------------------------------------------------------------------

  function Including(cols: seq<string>): IndexMeta {
    IndexMeta("dbo", "t", "ix", false, false, false, ["k"], cols)
  }

  function Two(a: seq<string>, b: seq<string>): Catalog { [Including(a), Including(b)] }

  lemma TwoVerdict(a: seq<string>, b: seq<string>)
    ensures DuplicateDrop(Two(a, b), Drop(0, 1)) <==> SameColumnSet(a, b)
    ensures forall d :: DuplicateDrop(Two(a, b), d) ==> d == Drop(0, 1)
    ensures forall p :: !PrefixRedundant(Two(a, b), p)
  {
    hide Norm, SameColumnSet;
    var cat := Two(a, b);
    assert SameKey(cat[0], cat[1]) && Pair(cat, 0, 1);
    assert DuplicateVerdict(cat, 0, 1) == if SameColumnSet(a, b) then Some(Drop(0, 1)) else None;
    forall i: nat, j: nat | Pair(cat, i, j)
      ensures i == 0 && j == 1
    {
    }
  }

  lemma CoversItself(cat: Catalog, p: nat)
    requires p < |cat|
    ensures Covers(cat, p, p)
  {
    hide Norm;
  }

  /** Two indexes on one key keep their columns whatever the second includes if and
      only if the INCLUDE list of the first has no repeats. */
  lemma TwoKeepColumnsIffNoRepeats(a: seq<string>)
    ensures (forall b :: ColumnsKept(Two(a, b))) <==> NoRepeats(a)
  {
    hide NoRepeats, ColumnsKept, NormSet, Norm, SameColumnSet, FreshColumn, Two;
    if NoRepeats(a) {
      forall b
        ensures ColumnsKept(Two(a, b))
      {
        UnrepeatedKept(a, b);
      }
    } else {
      var b := RepeatsMakeItLopsided(a);
      FreshIsNoKey(a);
      RepeatedLost(a, b, Norm(FreshColumn(a)));
    }
  }

  lemma FreshIsNoKey(a: seq<string>)
    ensures Norm(FreshColumn(a)) !in NormSet(["k"])
  {
    hide LongestNorm;
    FreshColumnIsNew(a);
    KeyName();
    assert FreshColumn(a)[0] == 'x' && "k"[0] == 'k';
  }

  lemma KeyName()
    ensures Norm("k") == "k"
  {
    TrimBothOfTrimmed("k", IsWhite);
    TrimBothOfTrimmed("k", IsBracket);
  }

  lemma UnrepeatedKept(a: seq<string>, b: seq<string>)
    requires NoRepeats(a)
    ensures ColumnsKept(Two(a, b))
  {
    hide NoRepeats, NormSet, SameColumnSet, Covers, PrefixRedundant, DuplicateDrop;
    var cat := Two(a, b);
    TwoVerdict(a, b);
    if SameColumnSet(a, b) {
      SameColumnSetMeans(a, b);
    }
    assert cat[0].included == a && cat[1].included == b;
    assert TwinsHold(cat);
    forall p | 0 <= p < |cat|
      ensures KeptByPrefixPass(cat, p)
    {
      CoversItself(cat, p);
      assert !PrefixRedundant(cat, p);
    }
    ColumnsKeptIffPrefixPassKeepsThem(cat);
  }

  /** A column `n` that the dropped list has, and neither the kept one nor the key. */
  lemma RepeatedLost(a: seq<string>, b: seq<string>, n: string)
    requires SameColumnSet(a, b) && n in NormSet(b) && n !in NormSet(a) && n !in NormSet(["k"])
    ensures !ColumnsKept(Two(a, b))
  {
    hide NormSet, SameColumnSet, Norms, PrefixRedundant, DuplicateDrop;
    var cat := Two(a, b);
    TwoVerdict(a, b);
    assert DuplicateDropped(cat, 1) by {
      assert DuplicateDrop(cat, Drop(0, 1));
    }
    forall q | Remains(cat, q)
      ensures !Covers(cat, 1, q)
    {
      assert q == 0;
      assert cat[0] == Including(a) && cat[1] == Including(b);
      assert n in NormSet(cat[1].included) && n !in NormSet(cat[0].included) + NormSet(cat[0].keys);
    }
    assert !Kept(cat, 1);
  }
}
