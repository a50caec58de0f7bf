/**
 Exactly when dropping every recommended index at once leaves every key served:
 for any given catalog and usage counts, with nothing assumed about either.
 */
module RedundancyExact {
  import opened Wrappers
  import opened Identifiers
  import opened Redundancy
  import opened RedundancyLaws

  /** The two indexes pass for exact duplicates; the earlier one is asked. */
  predicate Alike(cat: Catalog, i: nat, j: nat)
    requires i < |cat| && j < |cat|
  {
    if i < j then SameColumnSet(cat[i].included, cat[j].included)
    else SameColumnSet(cat[j].included, cat[i].included)
  }

  /** `q` has more reads than `k`, or as many and comes first. */
  predicate Outreads(counts: Reads, q: nat, k: nat)
    requires q < |counts| && k < |counts|
  {
    if k < q then ReadsAt(counts, k) < ReadsAt(counts, q) else ReadsAt(counts, k) <= ReadsAt(counts, q)
  }

  /** No index before `q` on its key passes for its duplicate, and `q` outreads
      every index on its key that does not. */
  ghost predicate Stands(cat: Catalog, counts: Reads, q: nat)
    requires |counts| == |cat| && q < |cat|
  {
    forall k :: 0 <= k < |cat| && k != q && Peers(cat, q, k) ==>
      if Alike(cat, q, k) then q < k else Outreads(counts, q, k)
  }

  /** No index on the key of `p` is a primary key or unique. */
  ghost predicate Unconstrained(cat: Catalog, p: nat) {
    forall k :: 0 <= k < |cat| && Peers(cat, p, k) ==> !IsConstraint(cat[k])
  }

  lemma PairVerdicts(cat: Catalog, counts: Reads, i: nat, j: nat)
    requires |counts| == |cat| && i < j < |cat| && Peers(cat, i, j)
    requires !IsConstraint(cat[i]) && !IsConstraint(cat[j])
    ensures DuplicateVerdict(cat, i, j) == if Alike(cat, i, j) then Some(Drop(i, j)) else None
    ensures OverlapVerdict(cat, counts, i, j) ==
            if Alike(cat, i, j) then None
            else if Outreads(counts, i, j) then Some(Drop(i, j)) else Some(Drop(j, i))
  {
    hide SameKey, SameColumnSet;
    OverlapVerdictMeans(cat, counts, i, j);
  }

  /** A pair that calls for a drop shares its key. */
  lemma VerdictsArePeers(cat: Catalog, counts: Reads, i: nat, j: nat, d: Drop)
    requires |counts| == |cat| && Pair(cat, i, j)
    requires DuplicateVerdict(cat, i, j) == Some(d) || OverlapVerdict(cat, counts, i, j) == Some(d)
    ensures Peers(cat, i, j) && Peers(cat, j, i) && (d == Drop(i, j) || d == Drop(j, i))
  {
    hide SameKey, SameColumnSet;
    OverlapVerdictMeans(cat, counts, i, j);
    PeersSymmetric(cat, i, j);
  }

  lemma StandingIsKept(cat: Catalog, counts: Reads, p: nat, q: nat)
    requires |counts| == |cat| && q < |cat| && Peers(cat, p, q) && Unconstrained(cat, p) && Stands(cat, counts, q)
    ensures !DuplicateDropped(cat, q) && !OverlapDropped(cat, counts, q)
  {
    hide SameKey, SameColumnSet, DuplicateVerdict, OverlapVerdict;
    forall i: nat, j: nat, d | Pair(cat, i, j)
                               && (DuplicateVerdict(cat, i, j) == Some(d)
                                   || OverlapVerdict(cat, counts, i, j) == Some(d))
      ensures d.drop != q
    {
      VerdictsArePeers(cat, counts, i, j, d);
      if q == i || q == j {
        PeersChain(cat, p, q, i, j);
        PairVerdicts(cat, counts, i, j);
      }
    }
  }

  lemma PeersChain(cat: Catalog, p: nat, q: nat, i: nat, j: nat)
    requires Peers(cat, p, q) && Peers(cat, i, j) && Peers(cat, j, i) && (q == i || q == j)
    ensures Peers(cat, p, i) && Peers(cat, p, j)
  {
    hide SameKey;
    PeersSymmetric(cat, p, q);
    if q == i {
      PeersOfOne(cat, q, p, j);
    } else {
      PeersOfOne(cat, q, p, i);
    }
  }

  lemma FallenIsDropped(cat: Catalog, counts: Reads, p: nat, q: nat, k: nat)
    requires |counts| == |cat| && q < |cat| && k < |cat| && k != q
    requires Peers(cat, p, q) && Peers(cat, q, k) && Unconstrained(cat, p)
    requires if Alike(cat, q, k) then k < q else !Outreads(counts, q, k)
    ensures DuplicateDropped(cat, q) || OverlapDropped(cat, counts, q)
  {
    hide SameKey, SameColumnSet, DuplicateVerdict, OverlapVerdict;
    PeersSymmetric(cat, q, k);
    PeersChain(cat, p, q, q, k);
    var i, j := if q < k then q else k, if q < k then k else q;
    PairVerdicts(cat, counts, i, j);
    assert Pair(cat, i, j);
    if Alike(cat, q, k) {
      assert DuplicateDrop(cat, Drop(k, q));
    } else {
      assert OverlapDrop(cat, counts, Drop(k, q));
    }
  }

  /** On a topmost key without a constraint, an index remains after all three
      passes if and only if it stands. */
  lemma RemainsIffStands(cat: Catalog, counts: Reads, p: nat, q: nat)
    requires |counts| == |cat| && p < |cat| && q < |cat| && Top(cat, p) && Peers(cat, p, q) && Unconstrained(cat, p)
    ensures RemainsAfterAll(cat, counts, q) <==> Stands(cat, counts, q)
  {
    hide SameKey, SameColumnSet, Supersedes, DuplicateDropped, OverlapDropped, Alike, Outreads;
    TopOfPeer(cat, p, q);
    if Stands(cat, counts, q) {
      StandingIsKept(cat, counts, p, q);
    } else {
      var k :| 0 <= k < |cat| && k != q && Peers(cat, q, k)
               && !(if Alike(cat, q, k) then q < k else Outreads(counts, q, k));
      FallenIsDropped(cat, counts, p, q, k);
    }
  }

  /** Every topmost key that no constraint guards has an index that stands. */
  ghost predicate EveryTopStands(cat: Catalog, counts: Reads)
    requires |counts| == |cat|
  {
    forall p :: 0 <= p < |cat| && cat[p].keys != [] && Top(cat, p) && Unconstrained(cat, p) ==>
      exists q :: 0 <= q < |cat| && Peers(cat, p, q) && Stands(cat, counts, q)
  }

  lemma ServedThroughTop(cat: Catalog, counts: Reads, p: nat)
    requires |counts| == |cat| && p < |cat| && EveryTopStands(cat, counts)
    ensures Served(cat, counts, p)
  {
    hide SameKey, Supersedes, Norms, RemainsAfterAll, Stands;
    if cat[p].keys == [] {
      KeylessRemainsAfterAll(cat, counts, p);
    } else {
      var top := TopAbove(cat, p);
      NormsLength(cat[p].keys);
      NormsLength(cat[top].keys);
      var q;
      if Unconstrained(cat, top) {
        q :| 0 <= q < |cat| && Peers(cat, top, q) && Stands(cat, counts, q);
        RemainsIffStands(cat, counts, top, q);
      } else {
        q :| 0 <= q < |cat| && Peers(cat, top, q) && IsConstraint(cat[q]);
        ConstraintRemainsAfterAll(cat, counts, q);
      }
      PeersAreEqualKeys(cat, top, q);
      assert Extends(cat, p, q);
    }
  }

  /** Dropping everything the three passes name at once leaves every key served
      if and only if every topmost key without a constraint has an index that is
      the first of its duplicates and outreads every index that is not one. */
  lemma AllServedIffEveryTopStands(cat: Catalog, counts: Reads)
    requires |counts| == |cat|
    ensures AllServed(cat, counts) <==> EveryTopStands(cat, counts)
  {
    hide SameKey, Supersedes, Norms, RemainsAfterAll, Stands;
    if EveryTopStands(cat, counts) {
      forall p | 0 <= p < |cat|
        ensures Served(cat, counts, p)
      {
        ServedThroughTop(cat, counts, p);
      }
    }
    if AllServed(cat, counts) {
      forall p | 0 <= p < |cat| && cat[p].keys != [] && Top(cat, p) && Unconstrained(cat, p)
        ensures exists q :: 0 <= q < |cat| && Peers(cat, p, q) && Stands(cat, counts, q)
      {
        assert Served(cat, counts, p);
        var q :| RemainsAfterAll(cat, counts, q) && Extends(cat, p, q);
        PeersAreEqualKeys(cat, p, p);
        ExtensionOfTopIsPeer(cat, p, q);
        RemainsIffStands(cat, counts, p, q);
      }
    }
  }

  // ---- over all usage histories -----------------------------------------------------------

  /** Index `q` has no earlier duplicate on its key. */
  ghost predicate Leads(cat: Catalog, q: nat) {
    q < |cat| && forall k :: 0 <= k < q && Peers(cat, q, k) ==> !Alike(cat, q, k)
  }

  /** A topmost key without a constraint carries `t`, the duplicate of an earlier
      index, and `s`, which has no earlier duplicate and is none of `t`. */
  ghost predicate Mixed(cat: Catalog, s: nat, t: nat) {
    && s < |cat| && t < |cat| && Peers(cat, s, t)
    && Top(cat, s) && Unconstrained(cat, s)
    && Leads(cat, s) && !Leads(cat, t) && !Alike(cat, s, t)
  }

  lemma LeadersDiffer(cat: Catalog, p: nat, a: nat, b: nat)
    requires Peers(cat, p, a) && Peers(cat, p, b) && a != b && Leads(cat, a) && Leads(cat, b)
    ensures !Alike(cat, a, b)
  {
    hide SameKey, SameColumnSet;
    PeersOfOne(cat, p, a, b);
    PeersOfOne(cat, p, b, a);
  }

  /** In such a key class every index can be named by one pass or another. */
  lemma MixedClassCanVanish(cat: Catalog, s: nat, t: nat) returns (counts: Reads)
    requires Mixed(cat, s, t)
    ensures |counts| == |cat| && !AllServed(cat, counts)
  {
    hide SameKey, SameColumnSet, Supersedes, Norms, Leads, Alike;
    counts := seq(|cat|, k requires 0 <= k < |cat| =>
                    if k == s then Some(2) else if Leads(cat, k) then Some(1) else Some(3));
    forall q | 0 <= q < |cat| && Peers(cat, s, q)
      ensures !Stands(cat, counts, q)
    {
      PeersSymmetric(cat, s, q);
      if q == s {
        assert !Outreads(counts, s, t);
      } else if Leads(cat, q) {
        PeersOfOne(cat, q, s, s);
        LeadersDiffer(cat, s, q, s);
        assert !Outreads(counts, q, s);
      } else {
        FollowerFalls(cat, counts, q);
      }
    }
    AllServedIffEveryTopStands(cat, counts);
    assert cat[s].keys != [] by {
      PeersAreEqualKeys(cat, s, t);
    }
  }

  lemma FollowerFalls(cat: Catalog, counts: Reads, q: nat)
    requires |counts| == |cat| && q < |cat| && !Leads(cat, q)
    ensures !Stands(cat, counts, q)
  {
    hide SameKey, Alike;
    var k :| 0 <= k < q && Peers(cat, q, k) && Alike(cat, q, k);
  }

  /** The leader of the class of `p` that outreads all others. */
  lemma {:induction false} BestLeader(cat: Catalog, counts: Reads, p: nat, n: nat, best: nat) returns (q: nat)
    requires |counts| == |cat| && p < |cat| && best < n <= |cat| && Peers(cat, p, best) && Leads(cat, best)
    requires forall k :: 0 <= k < n && k != best && Peers(cat, p, k) && Leads(cat, k) ==> Outreads(counts, best, k)
    ensures q < |cat| && Peers(cat, p, q) && Leads(cat, q)
    ensures forall k :: 0 <= k < |cat| && k != q && Peers(cat, p, k) && Leads(cat, k) ==> Outreads(counts, q, k)
    decreases |cat| - n
  {
    hide SameKey, Leads;
    if n == |cat| {
      q := best;
    } else if Peers(cat, p, n) && Leads(cat, n) && !Outreads(counts, best, n) {
      q := BestLeader(cat, counts, p, n + 1, n);
    } else {
      q := BestLeader(cat, counts, p, n + 1, best);
    }
  }

  lemma FirstPeerLeads(cat: Catalog, p: nat, q: nat)
    requires Peers(cat, p, q) && forall k :: 0 <= k < q ==> !Peers(cat, p, k)
    ensures Leads(cat, q)
  {
    hide SameKey, Alike;
    forall k | 0 <= k < q && Peers(cat, q, k)
      ensures Peers(cat, p, k)
    {
      PeersSymmetric(cat, p, q);
      PeersOfOne(cat, q, p, k);
    }
  }

  /** An unmixed topmost class keeps the leader that is read most. */
  lemma UnmixedTopStands(cat: Catalog, counts: Reads, p: nat) returns (q: nat)
    requires |counts| == |cat| && p < |cat| && cat[p].keys != [] && Top(cat, p) && Unconstrained(cat, p)
    requires forall s, t :: !Mixed(cat, s, t)
    ensures q < |cat| && Peers(cat, p, q) && Stands(cat, counts, q)
  {
    hide SameKey, SameColumnSet, Supersedes, Norms, Leads, Outreads, Alike;
    PeersAreEqualKeys(cat, p, p);
    var first := FirstPeer(cat, p, 0);
    FirstPeerLeads(cat, p, first);
    q := BestLeader(cat, counts, p, first + 1, first);
    forall k | 0 <= k < |cat| && k != q && Peers(cat, q, k)
      ensures if Alike(cat, q, k) then q < k else Outreads(counts, q, k)
    {
      PeersSymmetric(cat, p, q);
      PeersOfOne(cat, q, p, k);
      if Leads(cat, k) {
        LeadersDiffer(cat, p, q, k);
      } else {
        UnmixedIsAlike(cat, p, q, k);
      }
    }
  }

  lemma UnmixedIsAlike(cat: Catalog, p: nat, q: nat, k: nat)
    requires p < |cat| && q < |cat| && k < |cat| && Top(cat, p) && Unconstrained(cat, p)
    requires Peers(cat, p, q) && Peers(cat, q, k) && k != q && Leads(cat, q) && !Leads(cat, k) && !Mixed(cat, q, k)
    ensures Alike(cat, q, k) && q < k
  {
    hide SameKey, SameColumnSet, Supersedes, Norms, Alike;
    TopOfPeer(cat, p, q);
    forall x | 0 <= x < |cat| && Peers(cat, q, x)
      ensures Peers(cat, p, x)
    {
      PeersSymmetric(cat, p, q);
      PeersOfOne(cat, q, p, x);
    }
  }

  /** All three passes applied at once leave every key served under every usage
      history if and only if no topmost key without a constraint mixes the later
      of two duplicates with a leader that is not its duplicate. */
  lemma AllPassesSafeIffUnmixed(cat: Catalog)
    ensures (forall counts: Reads :: |counts| == |cat| ==> AllServed(cat, counts)) <==>
            forall s, t :: !Mixed(cat, s, t)
  {
    hide Mixed, AllServed, Stands;
    if exists s, t :: Mixed(cat, s, t) {
      var s, t :| Mixed(cat, s, t);
      var counts := MixedClassCanVanish(cat, s, t);
    } else {
      forall counts: Reads | |counts| == |cat|
        ensures AllServed(cat, counts)
      {
        forall p | 0 <= p < |cat| && cat[p].keys != [] && Top(cat, p) && Unconstrained(cat, p)
          ensures exists q :: 0 <= q < |cat| && Peers(cat, p, q) && Stands(cat, counts, q)
        {
          var q := UnmixedTopStands(cat, counts, p);
        }
        AllServedIffEveryTopStands(cat, counts);
      }
    }
  }
}
