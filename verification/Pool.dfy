/** The pooled transactions: a queue and an index from hash to queue position that has to agree with it. */
module Pools {
  import opened Types

  datatype Pool = Pool(txs: seq<RawTx>, index: map<TxHash, nat>)

  const EMPTY := Pool([], map[])

  /** The index is a bijection between its keys and the queue positions. */
  ghost predicate Valid(p: Pool) {
    && (forall h :: h in p.index ==> p.index[h] < |p.txs|)
    && (forall g, h :: g in p.index && h in p.index && p.index[g] == p.index[h] ==> g == h)
    && (forall i :: 0 <= i < |p.txs| ==> Indexed(p, i))
  }

  /** Some key points at the queue position. */
  ghost predicate Indexed(p: Pool, i: nat) {
    exists h :: h in p.index && p.index[h] == i
  }

  /** The one map that queue and index stand for. */
  ghost function View(p: Pool): map<TxHash, RawTx>
    requires Valid(p)
  {
    map h | h in p.index :: p.txs[p.index[h]]
  }

  /** A transaction appended to the queue under a hash. */
  function Insert(p: Pool, h: TxHash, tx: RawTx): Pool {
    Pool(p.txs + [tx], p.index[h := |p.txs|])
  }

  /** An order in which an iteration over the keys that are not listed may visit them. */
  ghost predicate ValidOrder(p: Pool, hashes: seq<TxHash>, order: seq<TxHash>) {
    && Distinct(order)
    && (forall h :: h in order <==> h in p.index && h !in hashes)
  }

  /** Queue and index rebuilt by walking the keys in the given order. */
  function Rebuild(p: Pool, order: seq<TxHash>): (r: Pool)
    requires forall h :: h in order ==> h in p.index && p.index[h] < |p.txs|
    ensures |r.txs| == |order|
  {
    Pool(seq(|order|, i requires 0 <= i < |order| => p.txs[p.index[order[i]]]),
         map h | h in order :: PositionOf(order, h))
  }

  /** The first position of a value known to occur. */
  function PositionOf<T(==)>(s: seq<T>, x: T): (k: nat)
    requires x in s
    ensures k < |s| && s[k] == x
  {
    if s[0] == x then 0 else 1 + PositionOf(s[1..], x)
  }

  lemma PositionInDistinct<T>(s: seq<T>, k: nat)
    requires Distinct(s) && k < |s|
    ensures PositionOf(s, s[k]) == k
  {
  }

  // ---------------------------------------------------------------------------------------------
  // Sizes
  // ---------------------------------------------------------------------------------------------

  /** The key stored for a queue position. */
  ghost function KeyAt(p: Pool, i: nat): (h: TxHash)
    requires Valid(p) && i < |p.txs|
    ensures h in p.index && p.index[h] == i
  {
    assert Indexed(p, i);
    var h :| h in p.index && p.index[h] == i;
    h
  }

  /** The keys in queue order. */
  ghost function KeysInOrder(p: Pool): (keys: seq<TxHash>)
    requires Valid(p)
    ensures |keys| == |p.txs| && Distinct(keys) && Elements(keys) == p.index.Keys
    ensures forall i :: 0 <= i < |keys| ==> p.index[keys[i]] == i
  {
    var keys := seq(|p.txs|, i requires 0 <= i < |p.txs| => KeyAt(p, i));
    assert forall h :: h in p.index ==> keys[p.index[h]] == h;
    keys
  }

  /** The queue is as long as the abstract map is large. */
  lemma SizeOfView(p: Pool)
    requires Valid(p)
    ensures |p.txs| == |p.index.Keys| == |View(p)|
  {
    DistinctCardinality(KeysInOrder(p));
    assert View(p).Keys == p.index.Keys;
  }

  // ---------------------------------------------------------------------------------------------
  // Inserting and rebuilding, on the abstract map
  // ---------------------------------------------------------------------------------------------

  lemma InsertIsMapUpdate(p: Pool, h: TxHash, tx: RawTx)
    requires Valid(p) && h !in p.index
    ensures Valid(Insert(p, h, tx))
    ensures View(Insert(p, h, tx)) == View(p)[h := tx]
  {
    var q := Insert(p, h, tx);
    forall i | 0 <= i < |q.txs| ensures Indexed(q, i) {
      if i < |p.txs| {
        var g := KeyAt(p, i);
        assert g in q.index && q.index[g] == i;
      } else {
        assert q.index[h] == i;
      }
    }
  }

  /**
   * Whatever order the iteration picks, the rebuilt pair is again a bijection, and stands for the
   * old map without the listed hashes.
   */
  lemma RebuildIsRestriction(p: Pool, hashes: seq<TxHash>, order: seq<TxHash>)
    requires Valid(p) && ValidOrder(p, hashes, order)
    ensures Valid(Rebuild(p, order))
    ensures View(Rebuild(p, order)) == View(p) - Elements(hashes)
    ensures forall i :: 0 <= i < |order| ==> Rebuild(p, order).index[order[i]] == i
  {
    var q := Rebuild(p, order);
    forall i | 0 <= i < |order| ensures order[i] in q.index && q.index[order[i]] == i && Indexed(q, i) {
      PositionInDistinct(order, i);
    }
    forall h | h in q.index ensures h in View(p) && q.txs[q.index[h]] == View(p)[h] {
      assert order[q.index[h]] == h;
    }
  }
}
