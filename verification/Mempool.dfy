/** The mempool actor, which updates its queue and its index in place. */
module MempoolActor {
  import opened Types
  import opened Pools
  import opened MempoolSpec
  import Spec = MempoolSpec
  import Blocks
  import Removal

  /** One of the listed hashes points at the queue position. */
  ghost predicate PointedAt(p: Pool, hashes: seq<TxHash>, i: nat) {
    exists h :: h in hashes && h in p.index && p.index[h] == i
  }

  lemma PointedAtExtend(p: Pool, hashes: seq<TxHash>, h: TxHash)
    ensures forall i :: PointedAt(p, hashes + [h], i) <==> PointedAt(p, hashes, i) || (h in p.index && p.index[h] == i)
  {
    forall i | PointedAt(p, hashes, i) ensures PointedAt(p, hashes + [h], i) {
      var g :| g in hashes && g in p.index && p.index[g] == i;
      assert g in hashes + [h];
    }
    assert h in hashes + [h];
  }

  /** Positions that are either kept or freed, but not both, add up. */
  lemma PositionsAddUp(n: nat, kept: seq<nat>, freed: set<nat>)
    requires Distinct(kept)
    requires forall i: nat :: i < n <==> i in kept || i in freed
    requires forall i :: i in freed ==> i !in kept
    ensures |kept| + |freed| == n
  {
    var all: seq<nat> := seq(n, i => i);
    DistinctCardinality(all);
    DistinctCardinality(kept);
    forall x: nat ensures x in all <==> x in Elements(kept) + freed {
      if x < n {
        assert all[x] == x;
      }
    }
    assert Elements(all) == Elements(kept) + freed;
    assert Elements(kept) !! freed;
  }

  /** The positions freed by a removal, as many as there are, leave exactly room for the survivors. */
  lemma FreedPositions(p: Pool, hashes: seq<TxHash>, freed: set<nat>, order: seq<TxHash>)
    requires Valid(p) && ValidOrder(p, hashes, order)
    requires forall i :: i in freed <==> PointedAt(p, hashes, i)
    ensures |freed| <= |p.txs| && |order| == |p.txs| - |freed|
  {
    var kept: seq<nat> := seq(|order|, i requires 0 <= i < |order| => p.index[order[i]]);
    forall i: nat | i < |p.txs| ensures i in freed || i in kept {
      var h := KeyAt(p, i);
      if h !in hashes {
        var k :| 0 <= k < |order| && order[k] == h;
        assert kept[k] == i;
      }
    }
    PositionsAddUp(|p.txs|, kept, freed);
  }

  /** A queue and an index numbered along an order are the ones rebuilt in that order. */
  lemma RebuiltFromParts(p: Pool, order: seq<TxHash>, txs: seq<RawTx>, index: map<TxHash, nat>)
    requires Distinct(order) && |order| == |txs|
    requires forall h :: h in order ==> h in p.index && p.index[h] < |p.txs|
    requires forall i :: 0 <= i < |order| ==> txs[i] == p.txs[p.index[order[i]]]
    requires forall h :: h in index <==> h in order
    requires forall i :: 0 <= i < |order| ==> index[order[i]] == i
    ensures Pool(txs, index) == Rebuild(p, order)
  {
    forall h | h in index ensures index[h] == PositionOf(order, h) {
      PositionInDistinct(order, PositionOf(order, h));
    }
    assert index == Rebuild(p, order).index;
    assert txs == Rebuild(p, order).txs;
  }

  class Mempool {
    const config: Config
    var txs: seq<RawTx>
    var txHashes: map<TxHash, nat>

    /** Everything the actor has sent so far. */
    var sent: seq<Effect>

    ghost function State(): Pool
      reads this
    {
      Pool(txs, txHashes)
    }

    ghost predicate Ok()
      reads this
    {
      Valid(State())
    }

    constructor (config: Config)
      ensures Ok() && State() == EMPTY && sent == [] && this.config == config
    {
      this.config := config;
      txs, txHashes, sent := [], map[], [];
    }

    predicate Exists(hash: TxHash)
      reads this
    {
      hash in txHashes
    }

    /** Takes the reply port out of its `Arc`, when it can, and sends the answer on it. */
    method SendReply(reply: Option<Port>, answer: Answer, env: Env) returns (ok: bool)
      modifies this`sent
      ensures sent == old(sent) + Answering(State(), reply, answer, env).effects
      ensures ok == Answering(State(), reply, answer, env).ok
    {
      ok := true;
      if reply.Some? {
        if env.fate != StillShared {
          if env.fate == SendFailed {
            ok := false;
          } else {
            sent := sent + [Reply(reply.value, answer)];
          }
        }
      }
    }

    method GossipTx(tx: RawTx, castOk: bool)
      modifies this`sent
      ensures sent == old(sent) + if castOk then [Broadcast(BatchOf(tx))] else []
    {
      var batch := BatchOf(tx);
      if castOk {
        sent := sent + [Broadcast(batch)];
      }
    }

    method AddTx(tx: RawTx, reply: Option<Port>, env: Env) returns (ok: bool)
      modifies this`sent
      ensures sent == old(sent) + Spec.AddTx(config, State(), tx, reply, env).effects
      ensures ok == Spec.AddTx(config, State(), tx, reply, env).ok
    {
      if |txs| >= config.maxPoolSize {
        ok := SendReply(reply, Failure(MempoolFull(|txs|, config.maxPoolSize)), env);
        return;
      }
      sent := sent + [EmitCheck(tx, reply)];
      ok := true;
    }

    method HandleNetworkEvent(event: GossipEvent, env: Env) returns (ok: bool)
      modifies this`sent
      ensures sent == old(sent) + Spec.Handle(config, State(), NetworkEvent(event), env, []).effects
      ensures ok == Spec.Handle(config, State(), NetworkEvent(event), env, []).ok
    {
      ok := true;
      match event
      case Message(batch) => ok := AddTx(batch.value, None, env);
      case _ =>
    }

    method HandleCheckTxResult(tx: RawTx, result: CheckResult, reply: Option<Port>, env: Env) returns (ok: bool)
      modifies this
      ensures State() == OnCheckResult(old(State()), tx, result, reply, env).pool
      ensures sent == old(sent) + OnCheckResult(old(State()), tx, result, reply, env).effects
      ensures ok == OnCheckResult(old(State()), tx, result, reply, env).ok
    {
      match result
      case Checked(outcome) =>
        if outcome.valid {
          if Exists(outcome.hash) {
            ok := SendReply(reply, Failure(TxAlreadyExists(outcome.hash)), env);
            return;
          }
          txHashes := txHashes[outcome.hash := |txs|];
          txs := txs + [tx];
          if reply.Some? {
            GossipTx(tx, env.castOk);
          }
        }
        ok := SendReply(reply, Success(outcome), env);
      case AppError(reason) =>
        ok := SendReply(reply, Failure(InvalidTransaction(reason)), env);
    }

    /** The saturating loop computes the longest prefix strictly below the budget, and leaves the pool alone. */
    method TakeBlock() returns (block: seq<RawTx>)
      ensures Blocks.IsLongestPrefix(txs, config.maxTxsBytes, block)
      ensures block == Blocks.Fit(txs, config.maxTxsBytes)
    {
      block := [];
      var maxTxBytes: nat := config.maxTxsBytes;
      var i := 0;
      while i < |txs|
        invariant 0 <= i <= |txs| && block == txs[..i]
        invariant i > 0 ==> maxTxBytes > 0
        invariant Blocks.Fit(txs, config.maxTxsBytes) == block + Blocks.Fit(txs[i..], maxTxBytes)
      {
        var next := txs[i];
        assert txs[i..][1..] == txs[i + 1..];
        maxTxBytes := if maxTxBytes >= |next| then maxTxBytes - |next| else 0;
        if maxTxBytes == 0 {
          break;
        }
        block := block + [next];
        i := i + 1;
      }
      Blocks.FitIsLongestPrefix(txs, config.maxTxsBytes);
    }

    method Take(port: Port, env: Env) returns (ok: bool)
      modifies this`sent
      ensures sent == old(sent) + Spec.Handle(config, State(), Msg.Take(port), env, []).effects
      ensures ok == Spec.Handle(config, State(), Msg.Take(port), env, []).ok
    {
      var block := TakeBlock();
      ok := env.fate == Delivered;
      if ok {
        sent := sent + [ReplyBlock(port, block)];
      }
    }

    /** Takes the listed hashes out of the index and collects the queue positions they pointed at. */
    method DropHashes(hashes: seq<TxHash>) returns (ignore: set<nat>)
      modifies this`txHashes
      ensures txHashes == old(txHashes) - Elements(hashes)
      ensures forall i :: i in ignore <==> PointedAt(old(State()), hashes, i)
    {
      ghost var before := State();
      ignore := {};
      var n := 0;
      while n < |hashes|
        invariant 0 <= n <= |hashes|
        invariant txHashes == before.index - Elements(hashes[..n])
        invariant forall i :: i in ignore <==> PointedAt(before, hashes[..n], i)
      {
        var txHash := hashes[n];
        assert hashes[..n + 1] == hashes[..n] + [txHash];
        PointedAtExtend(before, hashes[..n], txHash);
        if txHash in txHashes {
          ignore := ignore + {txHashes[txHash]};
          txHashes := txHashes - {txHash};
        }
        n := n + 1;
      }
      assert hashes[..n] == hashes;
    }

    /** Walks the index in an order nobody controls and numbers the transactions it meets anew. */
    method Renumber(ignore: set<nat>)
      returns (newTxs: seq<RawTx>, newHashes: map<TxHash, nat>, ghost order: seq<TxHash>)
      requires forall h :: h in txHashes ==> txHashes[h] < |txs| && txHashes[h] !in ignore
      ensures Distinct(order) && (forall h :: h in order <==> h in txHashes)
      ensures Pool(newTxs, newHashes) == Rebuild(State(), order)
    {
      newTxs, newHashes, order := [], map[], [];
      var counter: nat := 0;
      var todo := txHashes.Keys;
      while todo != {}
        invariant todo <= txHashes.Keys
        invariant Distinct(order) && |order| == |newTxs| == counter
        invariant forall h :: h in order <==> h in txHashes && h !in todo
        invariant forall i :: 0 <= i < |order| ==> newTxs[i] == txs[txHashes[order[i]]]
        invariant newHashes.Keys == txHashes.Keys - todo
        invariant forall i :: 0 <= i < |order| ==> newHashes[order[i]] == i
        decreases |todo|
      {
        var hash :| hash in todo;
        var index := txHashes[hash];
        if index !in ignore {
          newHashes := newHashes[hash := counter];
          newTxs := newTxs + [txs[index]];
          counter := counter + 1;
          order := order + [hash];
        }
        todo := todo - {hash};
      }
      RebuiltFromParts(State(), order, newTxs, newHashes);
    }

    /**
     * Whatever order the walk takes, queue and index agree again, and stand for the old map without
     * the listed hashes. The capacity subtraction and the queue lookup are in range.
     */
    method Remove(hashes: seq<TxHash>) returns (ghost order: seq<TxHash>)
      requires Ok()
      modifies this`txs, this`txHashes
      ensures Ok() && ValidOrder(old(State()), hashes, order)
      ensures State() == Rebuild(old(State()), order)
      ensures View(State()) == old(View(State())) - Elements(hashes)
    {
      ghost var before := State();
      var ignore := DropHashes(hashes);
      FreedPositions(before, hashes, ignore, Removal.KeptKeys(before, hashes, |before.txs|));
      var capacity: nat := |txs| - |ignore|;
      var newTxs, newHashes;
      newTxs, newHashes, order := Renumber(ignore);
      assert Rebuild(State(), order) == Rebuild(before, order);
      RebuildIsRestriction(before, hashes, order);
      FreedPositions(before, hashes, ignore, order);
      assert |newTxs| == capacity;
      txs := newTxs;
      txHashes := newHashes;
    }

    method HandleMsg(m: Msg, env: Env) returns (ok: bool, ghost order: seq<TxHash>)
      requires Ok()
      modifies this
      ensures Ok() && LegalOrder(old(State()), m, order)
      ensures State() == Spec.Handle(config, old(State()), m, env, order).pool
      ensures sent == old(sent) + Spec.Handle(config, old(State()), m, env, order).effects
      ensures ok == Spec.Handle(config, old(State()), m, env, order).ok
    {
      ok, order := true, [];
      ghost var before := State();
      match m
      case Subscribe =>
      case NetworkEvent(event) => ok := HandleNetworkEvent(event, env);
      case Add(tx, port) => ok := AddTx(tx, Some(port), env);
      case CheckTxResult(tx, result, reply) =>
        VerdictKeepsValid(before, tx, result, reply, env);
        ok := HandleCheckTxResult(tx, result, reply, env);
      case Take(port) => ok := Take(port, env);
      case Remove(hashes) => order := Remove(hashes);
    }

    /** The entry point swallows the error of a handler, so a failed reply never stops the actor. */
    method Handle(m: Msg, env: Env) returns (ghost order: seq<TxHash>)
      requires Ok()
      modifies this
      ensures Ok() && LegalOrder(old(State()), m, order)
      ensures State() == Spec.Handle(config, old(State()), m, env, order).pool
      ensures sent == old(sent) + Spec.Handle(config, old(State()), m, env, order).effects
    {
      var ok;
      ok, order := HandleMsg(m, env);
      if !ok {
        // logged, not propagated
      }
    }
  }
}
