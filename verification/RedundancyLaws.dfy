/**
 What dropping redundant indexes may and may not cost. The exact-duplicate and
 prefix passes together leave every key served, and the optional overlap merge
 alone spares the index read most.
 */
module RedundancyLaws {
  import opened Wrappers
  import opened Strings
  import opened Identifiers
  import opened Redundancy

  // ---- keys on one table -----------------------------------------------------------

  /** Position `q` holds an index on the table of `p` whose key extends the key of `p`. */
  ghost predicate Extends(cat: Catalog, p: nat, q: nat) {
    p < |cat| && q < |cat| && Table(cat[p]) == Table(cat[q]) && Norms(cat[p].keys) <= Norms(cat[q].keys)
  }

  /** Same table, same nonempty key. */
  ghost predicate Peers(cat: Catalog, p: nat, q: nat) {
    p < |cat| && q < |cat| && Table(cat[p]) == Table(cat[q]) && SameKey(cat[p], cat[q])
  }

  lemma PeersAreEqualKeys(cat: Catalog, p: nat, q: nat)
    requires p < |cat| && q < |cat|
    ensures Peers(cat, p, q) <==>
            Table(cat[p]) == Table(cat[q]) && cat[p].keys != [] && Norms(cat[p].keys) == Norms(cat[q].keys)
  {
    hide Norm;
    if Norms(cat[p].keys) == Norms(cat[q].keys) {
      forall k | 0 <= k < |cat[p].keys|
        ensures ColEq(cat[p].keys[k], cat[q].keys[k])
      {
        assert Norms(cat[p].keys)[k] == Norms(cat[q].keys)[k];
      }
    }
  }

  lemma SupersedesIsStrict(cat: Catalog, p: nat, q: nat)
    requires p < |cat| && q < |cat|
    ensures Supersedes(cat, p, q) <==>
            cat[p].keys != [] && Extends(cat, p, q) && |cat[q].keys| > |cat[p].keys|
  {
    KeyPrefixIsPrefix(cat[p].keys, cat[q].keys);
  }

  function Longest(cat: Catalog): nat {
    if cat == [] then 0
    else
      var n := Longest(cat[..|cat| - 1]);
      if |cat[|cat| - 1].keys| > n then |cat[|cat| - 1].keys| else n
  }

  lemma {:induction false} LongestBounds(cat: Catalog, p: nat)
    requires p < |cat|
    ensures |cat[p].keys| <= Longest(cat)
  {
    if p < |cat| - 1 {
      LongestBounds(cat[..|cat| - 1], p);
    }
  }

  /** Nothing on the table extends the key of `p` strictly. */
  ghost predicate Top(cat: Catalog, p: nat)
    requires p < |cat|
  {
    forall q :: 0 <= q < |cat| ==> !Supersedes(cat, p, q)
  }

  lemma {:induction false} TopAbove(cat: Catalog, p: nat) returns (q: nat)
    requires p < |cat|
    ensures q < |cat| && Extends(cat, p, q) && Top(cat, q)
    decreases Longest(cat) - |cat[p].keys|
  {
    hide Norms, Supersedes;
    if Top(cat, p) {
      q := p;
    } else {
      var r :| 0 <= r < |cat| && Supersedes(cat, p, r);
      SupersedesIsStrict(cat, p, r);
      LongestBounds(cat, r);
      q := TopAbove(cat, r);
    }
  }

  // ---- the two safe passes -----------------------------------------------------------

  ghost predicate DuplicateDropped(cat: Catalog, p: nat) { exists d :: DuplicateDrop(cat, d) && d.drop == p }

  ghost predicate Remains(cat: Catalog, p: nat) {
    p < |cat| && !DuplicateDropped(cat, p) && !PrefixRedundant(cat, p)
  }

  /** A duplicate drop leaves a peer: a constraint, or an earlier index. */
  lemma DuplicateDropLeaves(cat: Catalog, d: Drop)
    requires DuplicateDrop(cat, d)
    ensures d.keep < |cat| && d.drop < |cat| && d.keep != d.drop
    ensures !IsConstraint(cat[d.drop])
    ensures Peers(cat, d.keep, d.drop)
    ensures IsConstraint(cat[d.keep]) || d.keep < d.drop
  {
    hide Norm, SameColumnSet;
    var i: nat, j: nat :| Pair(cat, i, j) && DuplicateVerdict(cat, i, j) == Some(d);
    PeersSymmetric(cat, i, j);
  }

  lemma PeersSymmetric(cat: Catalog, p: nat, q: nat)
    ensures Peers(cat, p, q) ==> Peers(cat, q, p)
  {
    if Peers(cat, p, q) {
      PeersAreEqualKeys(cat, p, q);
      PeersAreEqualKeys(cat, q, p);
    }
  }

  /** No pass ever touches an index that enforces a constraint. */
  lemma ConstraintsRemain(cat: Catalog, p: nat)
    requires p < |cat| && (cat[p].isPrimaryKey || cat[p].isUnique)
    ensures Remains(cat, p)
  {
    forall d | DuplicateDrop(cat, d)
      ensures d.drop != p
    {
      DuplicateDropLeaves(cat, d);
    }
  }

  /** The peer of `p` that outlives its class: a constraint, or the first. */
  lemma {:induction false} ClassLeader(cat: Catalog, p: nat, n: nat) returns (q: nat)
    requires p < |cat| && n <= |cat| && cat[p].keys != []
    requires forall k :: 0 <= k < n && Peers(cat, p, k) ==> !IsConstraint(cat[k])
    ensures q < |cat| && Peers(cat, p, q)
    ensures IsConstraint(cat[q]) || forall k :: 0 <= k < |cat| && Peers(cat, p, k) ==> !IsConstraint(cat[k]) && q <= k
    decreases |cat| - n
  {
    hide SameKey;
    if n < |cat| {
      if Peers(cat, p, n) && IsConstraint(cat[n]) {
        q := n;
      } else {
        q := ClassLeader(cat, p, n + 1);
      }
    } else {
      PeersAreEqualKeys(cat, p, p);
      q := FirstPeer(cat, p, 0);
    }
  }

  lemma {:induction false} FirstPeer(cat: Catalog, p: nat, n: nat) returns (q: nat)
    requires n <= p < |cat| && Peers(cat, p, p)
    requires forall k :: 0 <= k < n ==> !Peers(cat, p, k)
    ensures q < |cat| && Peers(cat, p, q) && forall k :: 0 <= k < q ==> !Peers(cat, p, k)
    decreases p - n
  {
    hide SameKey;
    if Peers(cat, p, n) {
      q := n;
    } else {
      q := FirstPeer(cat, p, n + 1);
    }
  }

  /** The leader of a topmost class is dropped by neither pass. */
  lemma LeaderRemains(cat: Catalog, p: nat, q: nat)
    requires p < |cat| && q < |cat| && Top(cat, p) && Peers(cat, p, q)
    requires IsConstraint(cat[q]) || forall k :: 0 <= k < |cat| && Peers(cat, p, k) ==> !IsConstraint(cat[k]) && q <= k
    ensures Remains(cat, q)
  {
    hide SameKey, Supersedes, Norms, DuplicateDrop;
    if IsConstraint(cat[q]) {
      ConstraintsRemain(cat, q);
    } else {
      forall d | DuplicateDrop(cat, d)
        ensures d.drop != q
      {
        DuplicateDropLeaves(cat, d);
        PeersTransitive(cat, p, q, d.keep, d.drop);
      }
      TopOfPeer(cat, p, q);
    }
  }

  lemma PeersTransitive(cat: Catalog, p: nat, q: nat, keep: nat, drop: nat)
    requires Peers(cat, p, q) && Peers(cat, keep, drop)
    ensures drop == q ==> Peers(cat, p, keep)
  {
    hide Norms, SameKey;
    PeersAreEqualKeys(cat, p, q);
    PeersAreEqualKeys(cat, keep, drop);
    PeersAreEqualKeys(cat, p, keep);
  }

  lemma TopOfPeer(cat: Catalog, p: nat, q: nat)
    requires Peers(cat, p, q) && Top(cat, p)
    ensures Top(cat, q)
  {
    hide Norms, SameKey, Supersedes;
    PeersAreEqualKeys(cat, p, q);
    forall r | 0 <= r < |cat|
      ensures !Supersedes(cat, q, r)
    {
      SupersedesIsStrict(cat, q, r);
      SupersedesIsStrict(cat, p, r);
      NormsLength(cat[p].keys);
      NormsLength(cat[q].keys);
    }
  }

  lemma NormsLength(cols: seq<string>)
    ensures |Norms(cols)| == |cols|
  {
  }

  lemma KeylessRemains(cat: Catalog, p: nat)
    requires p < |cat| && cat[p].keys == []
    ensures Remains(cat, p) && Extends(cat, p, p)
  {
    hide Norm;
    forall d | DuplicateDrop(cat, d)
      ensures d.drop != p
    {
      DuplicateDropLeaves(cat, d);
    }
  }

  /** Drop every exact duplicate and every prefix-redundant index at once: each
      original index still has an index on its table whose key extends its own. */
  lemma EveryKeyStillServed(cat: Catalog, p: nat) returns (q: nat)
    requires p < |cat|
    ensures Remains(cat, q) && Extends(cat, p, q)
  {
    hide Norms, SameKey, Supersedes, Remains;
    if cat[p].keys == [] {
      KeylessRemains(cat, p);
      q := p;
    } else {
      var top := TopAbove(cat, p);
      NormsLength(cat[p].keys);
      NormsLength(cat[top].keys);
      q := ClassLeader(cat, top, 0);
      LeaderRemains(cat, top, q);
      PeersAreEqualKeys(cat, top, q);
    }
  }

  // ---- the overlap merge -----------------------------------------------------------

  /** Reads as the overlap merge weighs them: no usage row counts as none. */
  function ReadsAt(counts: Reads, p: nat): nat
    requires p < |counts|
  {
    match counts[p] case None => 0 case Some(n) => n
  }

  lemma OverlapVerdictMeans(cat: Catalog, counts: Reads, i: nat, j: nat)
    requires i < |cat| && j < |cat| && |counts| == |cat|
    ensures OverlapVerdict(cat, counts, i, j) ==
            if !SameKey(cat[i], cat[j]) || SameColumnSet(cat[i].included, cat[j].included)
               || IsConstraint(cat[i]) || IsConstraint(cat[j])
            then None
            else if ReadsAt(counts, j) > ReadsAt(counts, i) then Some(Drop(j, i)) else Some(Drop(i, j))
  {
    hide SameKey, SameColumnSet;
  }

  ghost predicate OverlapDropped(cat: Catalog, counts: Reads, p: nat)
    requires |counts| == |cat|
  {
    exists d :: OverlapDrop(cat, counts, d) && d.drop == p
  }

  /** On its own the overlap merge never retires the first index with the most
      reads among those that share its key. */
  lemma MostReadIsKept(cat: Catalog, counts: Reads, p: nat)
    requires |counts| == |cat| && p < |cat|
    requires forall q :: 0 <= q < |cat| && Peers(cat, p, q) ==>
               if q < p then ReadsAt(counts, q) < ReadsAt(counts, p) else ReadsAt(counts, q) <= ReadsAt(counts, p)
    ensures !OverlapDropped(cat, counts, p)
  {
    hide SameKey, SameColumnSet, OverlapVerdict;
    forall d | OverlapDrop(cat, counts, d)
      ensures d.drop != p
    {
      var i: nat, j: nat :| Pair(cat, i, j) && OverlapVerdict(cat, counts, i, j) == Some(d);
      OverlapVerdictMeans(cat, counts, i, j);
      PeersSymmetric(cat, i, j);
    }
  }

  ghost predicate RemainsAfterAll(cat: Catalog, counts: Reads, p: nat)
    requires |counts| == |cat|
  {
    Remains(cat, p) && !OverlapDropped(cat, counts, p)
  }

  ghost predicate AllServed(cat: Catalog, counts: Reads)
    requires |counts| == |cat|
  {
    forall p :: 0 <= p < |cat| ==> Served(cat, counts, p)
  }

  /** Some remaining index on the table extends the key of `p`. */
  ghost predicate Served(cat: Catalog, counts: Reads, p: nat)
    requires |counts| == |cat|
  {
    exists q :: RemainsAfterAll(cat, counts, q) && Extends(cat, p, q)
  }

  // ---- column lists as sets ----------------------------------------------------------

  function NormSet(cols: seq<string>): set<string> { set c | c in cols :: Norm(c) }

  lemma {:induction false} NormSetSize(cols: seq<string>)
    requires NoRepeats(cols)
    ensures |NormSet(cols)| == |cols|
  {
    hide Norm;
    if cols != [] {
      var rest := cols[1..];
      NormSetSize(rest);
      assert NormSet(cols) == {Norm(cols[0])} + NormSet(rest);
      forall c | c in rest
        ensures Norm(c) != Norm(cols[0])
      {
        var k :| 0 <= k < |rest| && rest[k] == c;
        assert !ColEq(cols[0], cols[k + 1]);
      }
    }
  }

  lemma SubsetOfSameSize<T>(a: set<T>, b: set<T>)
    requires a <= b && |a| == |b|
    ensures a == b
  {
    assert |b - a| == |b| - |a|;
  }

  lemma {:induction false} NormSetAtMost(cols: seq<string>)
    ensures |NormSet(cols)| <= |cols|
  {
    hide Norm;
    if cols != [] {
      NormSetAtMost(cols[1..]);
      assert NormSet(cols) == {Norm(cols[0])} + NormSet(cols[1..]);
    }
  }

  lemma SubsetIsNoLarger<T>(a: set<T>, b: set<T>)
    requires a <= b
    ensures |a| <= |b|
  {
    assert |b - a| == |b| - |a|;
  }

  /** When the first list has no repeats, `same_column_set` is equality of column
      sets on lists of one length. */
  lemma SameColumnSetMeans(a: seq<string>, b: seq<string>)
    requires NoRepeats(a)
    ensures SameColumnSet(a, b) <==> |a| == |b| && NormSet(a) == NormSet(b)
  {
    hide Norm;
    NormSetSize(a);
    NormSetAtMost(b);
    if SameColumnSet(a, b) {
      forall n | n in NormSet(a)
        ensures n in NormSet(b)
      {
        var x :| x in a && Norm(x) == n;
        assert HasColumn(b, x);
      }
      SubsetIsNoLarger(NormSet(a), NormSet(b));
      SubsetOfSameSize(NormSet(a), NormSet(b));
    }
    if NormSet(a) == NormSet(b) {
      forall x | x in a
        ensures HasColumn(b, x)
      {
        assert Norm(x) in NormSet(b);
        var y :| y in b && Norm(y) == Norm(x);
        assert ColEq(y, x);
      }
    }
  }

  // ---- a name that is not there --------------------------------------------------------

  function Exes(n: nat): string { seq(n + 1, _ => 'x') }

  lemma ExesAreBare(n: nat)
    ensures Norm(Exes(n)) == Exes(n)
  {
    TrimBothOfTrimmed(Exes(n), IsWhite);
    TrimBothOfTrimmed(Exes(n), IsBracket);
    assert Lower(Exes(n)) == Exes(n);
  }

  function LongestNorm(cols: seq<string>): nat {
    if cols == [] then 0
    else
      var n := LongestNorm(cols[1..]);
      if |Norm(cols[0])| > n then |Norm(cols[0])| else n
  }

  lemma {:induction false} LongestNormBounds(cols: seq<string>, c: string)
    requires c in cols
    ensures |Norm(c)| <= LongestNorm(cols)
  {
    hide Norm;
    if c != cols[0] {
      LongestNormBounds(cols[1..], c);
    }
  }

  function FreshColumn(cols: seq<string>): string { Exes(LongestNorm(cols)) }

  lemma FreshColumnIsNew(cols: seq<string>)
    ensures Norm(FreshColumn(cols)) == FreshColumn(cols)
    ensures !HasColumn(cols, FreshColumn(cols)) && Norm(FreshColumn(cols)) !in NormSet(cols)
  {
    hide Norm, LongestNorm;
    var f := FreshColumn(cols);
    ExesAreBare(LongestNorm(cols));
    forall c | c in cols
      ensures Norm(c) != Norm(f)
    {
      LongestNormBounds(cols, c);
    }
  }

  /** For every list with a repeat there is one of the same length that it
      matches, that does not match it, and that has another column set. */
  lemma RepeatsMakeItLopsided(a: seq<string>) returns (b: seq<string>)
    requires !NoRepeats(a)
    ensures |a| == |b| && SameColumnSet(a, b) && !SameColumnSet(b, a) && NormSet(a) != NormSet(b)
    ensures Norm(FreshColumn(a)) in NormSet(b) - NormSet(a)
  {
    hide Norm, FreshColumn;
    var i, j :| 0 <= i < j < |a| && ColEq(a[i], a[j]);
    var f := FreshColumn(a);
    FreshColumnIsNew(a);
    b := a[j := f];
    assert b[j] in b && Norm(f) in NormSet(b);
    forall x | x in a
      ensures HasColumn(b, x)
    {
      var k :| 0 <= k < |a| && a[k] == x;
      if k == j {
        assert b[i] == a[i] && ColEq(b[i], x);
      } else {
        assert b[k] == x && ColEq(b[k], x);
      }
    }
  }

  /** `same_column_set` is set equality with every list of the same length if and
      only if its first argument has no repeats. */
  lemma SameColumnSetIsSetEquality(a: seq<string>)
    ensures (forall b :: |a| == |b| ==> (SameColumnSet(a, b) <==> NormSet(a) == NormSet(b))) <==> NoRepeats(a)
  {
    hide NoRepeats, NormSet, SameColumnSet;
    if NoRepeats(a) {
      forall b | |a| == |b|
        ensures SameColumnSet(a, b) <==> NormSet(a) == NormSet(b)
      {
        SameColumnSetMeans(a, b);
      }
    } else {
      var b := RepeatsMakeItLopsided(a);
    }
  }

  lemma ExtensionOfTopIsPeer(cat: Catalog, p: nat, q: nat)
    requires p < |cat| && Peers(cat, p, p) && Top(cat, p) && Extends(cat, p, q)
    ensures Peers(cat, p, q)
  {
    hide Norms, SameKey, Supersedes;
    PeersAreEqualKeys(cat, p, p);
    SupersedesIsStrict(cat, p, q);
    NormsLength(cat[p].keys);
    NormsLength(cat[q].keys);
    PeersAreEqualKeys(cat, p, q);
  }

  lemma PeersOfOne(cat: Catalog, p: nat, a: nat, b: nat)
    requires Peers(cat, p, a) && Peers(cat, p, b)
    ensures Peers(cat, a, b)
  {
    hide Norms, SameKey;
    PeersAreEqualKeys(cat, p, a);
    PeersAreEqualKeys(cat, p, b);
    PeersAreEqualKeys(cat, a, b);
    NormsLength(cat[p].keys);
    NormsLength(cat[a].keys);
  }

  lemma ConstraintRemainsAfterAll(cat: Catalog, counts: Reads, p: nat)
    requires |counts| == |cat| && p < |cat| && IsConstraint(cat[p])
    ensures RemainsAfterAll(cat, counts, p)
  {
    hide SameKey, SameColumnSet, OverlapVerdict, Remains;
    ConstraintsRemain(cat, p);
    forall d | OverlapDrop(cat, counts, d)
      ensures d.drop != p
    {
      var i: nat, j: nat :| Pair(cat, i, j) && OverlapVerdict(cat, counts, i, j) == Some(d);
      OverlapVerdictMeans(cat, counts, i, j);
    }
  }

  lemma KeylessRemainsAfterAll(cat: Catalog, counts: Reads, p: nat)
    requires |counts| == |cat| && p < |cat| && cat[p].keys == []
    ensures RemainsAfterAll(cat, counts, p) && Extends(cat, p, p)
  {
    hide SameColumnSet, OverlapVerdict, Remains, Norm;
    KeylessRemains(cat, p);
    forall d | OverlapDrop(cat, counts, d)
      ensures d.drop != p
    {
      var i: nat, j: nat :| Pair(cat, i, j) && OverlapVerdict(cat, counts, i, j) == Some(d);
      OverlapVerdictMeans(cat, counts, i, j);
    }
  }
}
