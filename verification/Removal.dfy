/** What a removal does to the order of the transactions that stay. */
module Removal {
  import opened Types
  import opened Pools

  /** The walk visits its keys by increasing queue position. */
  ghost predicate Increasing(p: Pool, order: seq<TxHash>) {
    && (forall h :: h in order ==> h in p.index)
    && (forall i, j :: 0 <= i < j < |order| ==> p.index[order[i]] < p.index[order[j]])
  }

  /** Any two transactions pooled before and after are queued the same way round. */
  ghost predicate KeepsArrivalOrder(p: Pool, q: Pool) {
    forall g, h :: g in q.index && h in q.index && g in p.index && h in p.index ==>
      (p.index[g] < p.index[h] <==> q.index[g] < q.index[h])
  }

  /** The keys among the first `n` positions that are not listed. */
  ghost function KeptKeys(p: Pool, hashes: seq<TxHash>, n: nat): (keys: seq<TxHash>)
    requires Valid(p) && n <= |p.txs|
    ensures forall h :: h in keys <==> h in p.index && p.index[h] < n && h !in hashes
    ensures Increasing(p, keys)
  {
    if n == 0 then []
    else
      var h := KeyAt(p, n - 1);
      KeptKeys(p, hashes, n - 1) + if h in hashes then [] else [h]
  }

  /** The queue with the listed transactions cut out and nothing else moved. */
  ghost function Kept(p: Pool, hashes: seq<TxHash>, n: nat): seq<RawTx>
    requires Valid(p) && n <= |p.txs|
  {
    if n == 0 then []
    else Kept(p, hashes, n - 1) + if KeyAt(p, n - 1) in hashes then [] else [p.txs[n - 1]]
  }

  /** The transactions these keys point at. */
  ghost function TxsOf(p: Pool, keys: seq<TxHash>): seq<RawTx>
    requires Valid(p) && forall h :: h in keys ==> h in p.index
  {
    seq(|keys|, i requires 0 <= i < |keys| => p.txs[p.index[keys[i]]])
  }

  lemma {:induction false} KeptFollowsKeys(p: Pool, hashes: seq<TxHash>, n: nat)
    requires Valid(p) && n <= |p.txs|
    ensures Kept(p, hashes, n) == TxsOf(p, KeptKeys(p, hashes, n))
  {
    if n > 0 {
      var h, keys := KeyAt(p, n - 1), KeptKeys(p, hashes, n - 1);
      KeptFollowsKeys(p, hashes, n - 1);
      assert keys + [] == keys && Kept(p, hashes, n - 1) + [] == Kept(p, hashes, n - 1);
      assert TxsOf(p, keys + [h]) == TxsOf(p, keys) + [p.txs[n - 1]];
    }
  }

  /** The last key of an increasing enumeration is the greatest; the ones before it are the others. */
  lemma LastIsGreatest(p: Pool, a: seq<TxHash>)
    requires Increasing(p, a) && a != []
    ensures forall h :: h in a ==> p.index[h] <= p.index[a[|a| - 1]]
    ensures forall h :: h in a[..|a| - 1] <==> h in a && h != a[|a| - 1]
    ensures Increasing(p, a[..|a| - 1])
  {
    assert a == a[..|a| - 1] + [a[|a| - 1]];
  }

  /** A set of keys has only one increasing enumeration. */
  lemma {:induction false} IncreasingIsUnique(p: Pool, a: seq<TxHash>, b: seq<TxHash>)
    requires Valid(p) && Increasing(p, a) && Increasing(p, b)
    requires forall h :: h in a <==> h in b
    ensures a == b
    decreases |a|
  {
    assert b != [] ==> b[0] in a;
    if a != [] {
      assert a[0] in b;
      var m, n := |a| - 1, |b| - 1;
      LastIsGreatest(p, a);
      LastIsGreatest(p, b);
      assert a[m] in b && b[n] in a;
      assert a[m] == b[n];
      forall h ensures h in a[..m] <==> h in b[..n] {
        assert h in a <==> h in b;
      }
      IncreasingIsUnique(p, a[..m], b[..n]);
    }
  }

  /** Survivors keep their arrival order exactly when the walk goes by increasing position. */
  lemma SurvivorsKeepOrderIff(p: Pool, hashes: seq<TxHash>, order: seq<TxHash>)
    requires Valid(p) && ValidOrder(p, hashes, order)
    ensures KeepsArrivalOrder(p, Rebuild(p, order)) <==> Increasing(p, order)
  {
    RebuildIsRestriction(p, hashes, order);
    var q := Rebuild(p, order);
    if KeepsArrivalOrder(p, q) {
      forall i, j | 0 <= i < j < |order| ensures p.index[order[i]] < p.index[order[j]] {
        assert q.index[order[i]] < q.index[order[j]];
      }
    }
    if Increasing(p, order) {
      forall g, h | g in q.index && h in q.index
        ensures p.index[g] < p.index[h] <==> q.index[g] < q.index[h]
      {
        assert order[q.index[g]] == g && order[q.index[h]] == h;
      }
    }
  }

  /** A walk by increasing position cuts the listed transactions out and moves nothing else. */
  lemma IncreasingWalkCutsOut(p: Pool, hashes: seq<TxHash>, order: seq<TxHash>)
    requires Valid(p) && ValidOrder(p, hashes, order) && Increasing(p, order)
    ensures Rebuild(p, order).txs == Kept(p, hashes, |p.txs|)
  {
    IncreasingIsUnique(p, order, KeptKeys(p, hashes, |p.txs|));
    KeptFollowsKeys(p, hashes, |p.txs|);
  }

  /** The walk with its first two visits exchanged. */
  function Swapped(order: seq<TxHash>): seq<TxHash>
    requires |order| >= 2
  {
    [order[1], order[0]] + order[2..]
  }

  lemma SwappedIsLegal(p: Pool, hashes: seq<TxHash>, order: seq<TxHash>)
    requires ValidOrder(p, hashes, order) && |order| >= 2
    ensures ValidOrder(p, hashes, Swapped(order))
  {
    assert order == [order[0], order[1]] + order[2..];
    forall h ensures h in Swapped(order) <==> h in order {
      assert h in Swapped(order) <==> h == order[1] || h == order[0] || h in order[2..];
    }
  }

  /** With two survivors or more, some legal walk reorders them: arrival order is not guaranteed. */
  lemma SomeWalkReorders(p: Pool, hashes: seq<TxHash>, order: seq<TxHash>)
    requires Valid(p) && ValidOrder(p, hashes, order) && |order| >= 2
    ensures exists walk :: ValidOrder(p, hashes, walk) && !KeepsArrivalOrder(p, Rebuild(p, walk))
  {
    SurvivorsKeepOrderIff(p, hashes, order);
    if Increasing(p, order) {
      var swapped := Swapped(order);
      SwappedIsLegal(p, hashes, order);
      SurvivorsKeepOrderIff(p, hashes, swapped);
      assert p.index[swapped[0]] > p.index[swapped[1]];
    }
  }

  /**
   * Arrival order survives a removal for certain, whichever way the walk goes, if and only if the removal
   * leaves at most one transaction.
   */
  lemma OrderIsSafeIffOneSurvives(p: Pool, hashes: seq<TxHash>)
    requires Valid(p)
    ensures (forall walk :: ValidOrder(p, hashes, walk) ==> KeepsArrivalOrder(p, Rebuild(p, walk)))
       <==> |p.index.Keys - Elements(hashes)| <= 1
  {
    var order := KeptKeys(p, hashes, |p.txs|);
    WalkLength(p, hashes, order);
    if |order| >= 2 {
      SomeWalkReorders(p, hashes, order);
    } else {
      forall walk | ValidOrder(p, hashes, walk) ensures KeepsArrivalOrder(p, Rebuild(p, walk)) {
        WalkLength(p, hashes, walk);
        SurvivorsKeepOrderIff(p, hashes, walk);
      }
    }
  }

  /** Every walk visits each survivor once. */
  lemma WalkLength(p: Pool, hashes: seq<TxHash>, walk: seq<TxHash>)
    requires ValidOrder(p, hashes, walk)
    ensures |walk| == |p.index.Keys - Elements(hashes)|
  {
    DistinctCardinality(walk);
    assert Elements(walk) == p.index.Keys - Elements(hashes);
  }
}
