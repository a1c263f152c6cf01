/** Where pooled transactions come from. */
module Provenance {
  import opened Types
  import opened Pools
  import opened MempoolSpec
  import opened Gossip
  import Wire

  ghost predicate WasSubmitted(log: seq<Event>, i: nat, tx: RawTx) {
    exists port :: Submitted(i, tx, port) in log
  }

  /** The node took the transaction into its pool on behalf of a local request. */
  ghost predicate InsertedLocally(log: seq<Event>, i: nat, tx: RawTx) {
    exists h :: Inserted(i, tx, h, true) in log
  }

  /** The node took the transaction in on behalf of a local request, and broadcast it. */
  ghost predicate Gossiped(log: seq<Event>, src: nat, tx: RawTx) {
    InsertedLocally(log, src, tx) && Published(src, BatchOf(tx)) in log
  }

  ghost predicate GossipedElsewhere(log: seq<Event>, i: nat, tx: RawTx) {
    exists src :: src != i && Gossiped(log, src, tx)
  }

  ghost predicate JudgedValid(log: seq<Event>, i: nat, tx: RawTx, h: TxHash) {
    Judged(i, tx, Checked(Outcome(h, true))) in log
  }

  /** A transaction travels on behalf of a request made here, or because another node broadcast one made there. */
  ghost predicate Justified(log: seq<Event>, i: nat, tx: RawTx, reply: Option<Port>) {
    match reply
    case Some(port) => Submitted(i, tx, port) in log && |tx| < MAX_LEN
    case None => GossipedElsewhere(log, i, tx)
  }

  ghost predicate Encodes(data: Bytes, tx: RawTx) {
    |tx| < MAX_LEN && data == Wire.ToNetworkBytes(BatchOf(tx))
  }

  ghost predicate PacketTraced(log: seq<Event>, p: Packet) {
    match p
    case AddMsg(i, tx, port) => Justified(log, i, tx, Some(port))
    case CheckReq(i, tx, reply) => Justified(log, i, tx, reply)
    case CheckRes(i, tx, result, reply) => Justified(log, i, tx, reply) && Judged(i, tx, result) in log
    case BroadcastMsg(i, batch) =>
      batch == BatchOf(batch.value) && |batch.value| < MAX_LEN && InsertedLocally(log, i, batch.value)
    case WireMsg(src, i, data) =>
      src != i && exists tx :: Encodes(data, tx) && Gossiped(log, src, tx)
    case NetEvent(src, i, batch) => src != i && batch == BatchOf(batch.value) && Gossiped(log, src, batch.value)
  }

  /** An insertion follows a positive verdict at its node, and the submission or broadcast that led to it. */
  ghost predicate EventTraced(before: seq<Event>, e: Event) {
    e.Inserted? ==>
      && JudgedValid(before, e.node, e.tx, e.hash)
      && (e.local ==> WasSubmitted(before, e.node, e.tx))
      && (!e.local ==> GossipedElsewhere(before, e.node, e.tx))
  }

  ghost predicate LogTraced(log: seq<Event>) {
    forall k :: 0 <= k < |log| ==> EventTraced(log[..k], log[k])
  }

  ghost predicate PoolTraced(log: seq<Event>, i: nat, p: Pool)
    requires Valid(p)
  {
    forall h :: h in p.index ==> exists local :: Inserted(i, p.txs[p.index[h]], h, local) in log
  }

  ghost predicate Traced(s: Sys) {
    && AllValid(s)
    && (forall p :: p in s.soup ==> PacketTraced(s.log, p))
    && LogTraced(s.log)
    && (forall i :: 0 <= i < |s.pools| ==> PoolTraced(s.log, i, s.pools[i]))
  }

  // ---------------------------------------------------------------------------------------------
  // A longer log keeps what a shorter one shows
  // ---------------------------------------------------------------------------------------------

  lemma LocallyGrows(log: seq<Event>, more: seq<Event>, i: nat, tx: RawTx)
    requires InsertedLocally(log, i, tx)
    ensures InsertedLocally(log + more, i, tx)
  {
    var h :| Inserted(i, tx, h, true) in log;
    assert Inserted(i, tx, h, true) in log + more;
  }

  lemma GossipedGrows(log: seq<Event>, more: seq<Event>, i: nat, tx: RawTx)
    requires Gossiped(log, i, tx)
    ensures Gossiped(log + more, i, tx)
  {
    LocallyGrows(log, more, i, tx);
  }

  lemma JustifiedGrows(log: seq<Event>, more: seq<Event>, i: nat, tx: RawTx, reply: Option<Port>)
    requires Justified(log, i, tx, reply)
    ensures Justified(log + more, i, tx, reply)
  {
    if reply.None? {
      var src :| src != i && Gossiped(log, src, tx);
      GossipedGrows(log, more, src, tx);
    }
  }

  lemma PacketTracedGrows(log: seq<Event>, more: seq<Event>, p: Packet)
    requires PacketTraced(log, p)
    ensures PacketTraced(log + more, p)
  {
    match p
    case AddMsg(i, tx, port) => JustifiedGrows(log, more, i, tx, Some(port));
    case CheckReq(i, tx, reply) => JustifiedGrows(log, more, i, tx, reply);
    case CheckRes(i, tx, result, reply) => JustifiedGrows(log, more, i, tx, reply);
    case BroadcastMsg(i, batch) => LocallyGrows(log, more, i, batch.value);
    case WireMsg(src, i, data) =>
      var tx :| Encodes(data, tx) && Gossiped(log, src, tx);
      GossipedGrows(log, more, src, tx);
    case NetEvent(src, i, batch) => GossipedGrows(log, more, src, batch.value);
  }

  lemma PoolTracedGrows(log: seq<Event>, more: seq<Event>, i: nat, p: Pool)
    requires Valid(p) && PoolTraced(log, i, p)
    ensures PoolTraced(log + more, i, p)
  {
    forall h | h in p.index ensures exists local :: Inserted(i, p.txs[p.index[h]], h, local) in log + more {
      var local :| Inserted(i, p.txs[p.index[h]], h, local) in log;
      assert Inserted(i, p.txs[p.index[h]], h, local) in log + more;
    }
  }

  lemma LogTracedGrows(log: seq<Event>, more: seq<Event>)
    requires LogTraced(log)
    requires |more| > 0 ==> EventTraced(log, more[0])
    requires |more| <= 2 && (|more| == 2 ==> !more[1].Inserted?)
    ensures LogTraced(log + more)
  {
    var all := log + more;
    forall k | 0 <= k < |all| ensures EventTraced(all[..k], all[k]) {
      if k < |log| {
        assert all[..k] == log[..k];
      } else if k == |log| {
        assert all[..k] == log;
      }
    }
  }

  // ---------------------------------------------------------------------------------------------
  // Reactions
  // ---------------------------------------------------------------------------------------------

  lemma TxUrlIsAscii()
    ensures Wire.Ascii(TX_TYPE_URL) && |TX_TYPE_URL| == 19
  {
  }

  /** What one node sends, another one gets back. */
  lemma WireDelivers(data: Bytes, tx: RawTx)
    requires Encodes(data, tx)
    ensures Wire.FromNetworkBytes(data) == Some(BatchOf(tx))
  {
    TxUrlIsAscii();
    Wire.AsciiIsUtf8(BatchOf(tx).typeUrl);
    Wire.TenBytesHoldU64();
    Wire.ReadWrittenVarint(|tx|, 10, []);
    Wire.WireRoundTrip(BatchOf(tx));
  }

  lemma ReactionEventsTraced(cfg: Config, n: nat, p: Pool, log: seq<Event>, packet: Packet, result: CheckResult)
    requires PacketTraced(log, packet) && LogTraced(log)
    ensures LogTraced(log + React(cfg, n, p, packet, result).events)
  {
    LogTracedGrows(log, React(cfg, n, p, packet, result).events);
  }

  lemma ReactionOutTraced(
      cfg: Config, n: nat, p: Pool, log: seq<Event>, packet: Packet, result: CheckResult, q: Packet)
    requires PacketTraced(log, packet)
    requires q in React(cfg, n, p, packet, result).out
    ensures PacketTraced(log + React(cfg, n, p, packet, result).events, q)
  {
    var r := React(cfg, n, p, packet, result);
    var after := log + r.events;
    match packet
    case AddMsg(i, tx, port) => JustifiedGrows(log, r.events, i, tx, Some(port));
    case CheckReq(i, tx, reply) =>
      JustifiedGrows(log, r.events, i, tx, reply);
      assert r.events[0] in after;
    case CheckRes(i, tx, verdict, reply) =>
      assert r.events[0] == Inserted(i, tx, verdict.outcome.hash, true);
      assert r.events[0] in after;
    case BroadcastMsg(i, batch) =>
      FanoutTargets(n, i, Wire.ToNetworkBytes(batch), q);
      assert Encodes(q.data, batch.value);
      LocallyGrows(log, r.events, i, batch.value);
      assert r.events[0] in after;
    case WireMsg(src, i, data) =>
      var tx :| Encodes(data, tx) && Gossiped(log, src, tx);
      WireDelivers(data, tx);
      GossipedGrows(log, r.events, src, tx);
    case NetEvent(src, i, batch) =>
      GossipedGrows(log, r.events, src, batch.value);
  }

  lemma ReactionPoolTraced(cfg: Config, n: nat, p: Pool, log: seq<Event>, packet: Packet, result: CheckResult)
    requires Valid(p) && PoolTraced(log, packet.node, p)
    ensures Valid(React(cfg, n, p, packet, result).pool)
    ensures PoolTraced(log + React(cfg, n, p, packet, result).events, packet.node, React(cfg, n, p, packet, result).pool)
  {
    var r := React(cfg, n, p, packet, result);
    PoolTracedGrows(log, r.events, packet.node, p);
    if packet.CheckRes? && Admits(p, packet.result) {
      InsertIsMapUpdate(p, packet.result.outcome.hash, packet.tx);
      forall h | h in r.pool.index
        ensures exists local :: Inserted(packet.node, r.pool.txs[r.pool.index[h]], h, local) in log + r.events
      {
        if h in p.index {
          assert r.pool.txs[r.pool.index[h]] == p.txs[p.index[h]];
        } else {
          assert r.events[0] == Inserted(packet.node, r.pool.txs[r.pool.index[h]], h, packet.reply.Some?);
          assert r.events[0] in log + r.events;
        }
      }
    }
  }

  // ---------------------------------------------------------------------------------------------
  // Runs
  // ---------------------------------------------------------------------------------------------

  lemma DeliverKeepsTraced(cfg: Config, s: Sys, k: nat, result: CheckResult)
    requires Enabled(s, Deliver(k, result)) && Traced(s)
    ensures Traced(Next(cfg, s, Deliver(k, result)))
  {
    var n, packet := |s.pools|, s.soup[k];
    var r := React(cfg, n, s.pools[packet.node], packet, result);
    var t := Next(cfg, s, Deliver(k, result));
    assert PacketTraced(s.log, packet);
    NextKeepsValid(cfg, s, Deliver(k, result));
    ReactionEventsTraced(cfg, n, s.pools[packet.node], s.log, packet, result);
    forall q | q in t.soup ensures PacketTraced(t.log, q) {
      if q in r.out {
        ReactionOutTraced(cfg, n, s.pools[packet.node], s.log, packet, result, q);
      } else {
        assert q in s.soup;
        PacketTracedGrows(s.log, r.events, q);
      }
    }
    forall i | 0 <= i < n ensures PoolTraced(t.log, i, t.pools[i]) {
      if i == packet.node {
        ReactionPoolTraced(cfg, n, s.pools[i], s.log, packet, result);
      } else {
        PoolTracedGrows(s.log, r.events, i, s.pools[i]);
      }
    }
  }

  /** Events other than insertions and fewer packets leave everything traced. */
  lemma LogKeepsTraced(s: Sys, e: Event, soup: seq<Packet>)
    requires Traced(s) && !e.Inserted?
    requires forall p :: p in soup ==> p in s.soup || PacketTraced(s.log + [e], p)
    ensures Traced(s.(soup := soup, log := s.log + [e]))
  {
    LogTracedGrows(s.log, [e]);
    forall p | p in soup ensures PacketTraced(s.log + [e], p) {
      if p in s.soup {
        PacketTracedGrows(s.log, [e], p);
      }
    }
    forall i | 0 <= i < |s.pools| ensures PoolTraced(s.log + [e], i, s.pools[i]) {
      PoolTracedGrows(s.log, [e], i, s.pools[i]);
    }
  }

  lemma RebuildKeepsTraced(log: seq<Event>, i: nat, p: Pool, hashes: seq<TxHash>, order: seq<TxHash>)
    requires Valid(p) && PoolTraced(log, i, p) && ValidOrder(p, hashes, order)
    ensures Valid(Rebuild(p, order)) && PoolTraced(log, i, Rebuild(p, order))
  {
    RebuildIsRestriction(p, hashes, order);
    var q := Rebuild(p, order);
    forall h | h in q.index ensures exists local :: Inserted(i, q.txs[q.index[h]], h, local) in log {
      assert View(q)[h] == View(p)[h];
    }
  }

  lemma RemoveKeepsTraced(cfg: Config, s: Sys, i: nat, hashes: seq<TxHash>, order: seq<TxHash>)
    requires Enabled(s, RemoveAt(i, hashes, order)) && Traced(s)
    ensures Traced(Next(cfg, s, RemoveAt(i, hashes, order)))
  {
    NextKeepsValid(cfg, s, RemoveAt(i, hashes, order));
    RebuildKeepsTraced(s.log, i, s.pools[i], hashes, order);
  }

  lemma NextKeepsTraced(cfg: Config, s: Sys, a: Action)
    requires Enabled(s, a) && Traced(s)
    ensures Traced(Next(cfg, s, a))
  {
    match a
    case Submit(i, tx, port) =>
      assert Submitted(i, tx, port) in s.log + [Submitted(i, tx, port)];
      LogKeepsTraced(s, Submitted(i, tx, port), s.soup + [AddMsg(i, tx, port)]);
    case Deliver(k, result) => DeliverKeepsTraced(cfg, s, k, result);
    case Lose(k) => LogKeepsTraced(s, Lost(s.soup[k]), Without(s.soup, k));
    case RemoveAt(i, hashes, order) => RemoveKeepsTraced(cfg, s, i, hashes, order);
  }

  lemma {:induction false} RunKeepsTraced(cfg: Config, s: Sys, acts: seq<Action>)
    requires Possible(cfg, s, acts) && Traced(s)
    ensures Traced(After(cfg, s, acts))
    decreases |acts|
  {
    if acts != [] {
      NextKeepsTraced(cfg, s, acts[0]);
      RunKeepsTraced(cfg, Next(cfg, s, acts[0]), acts[1..]);
    }
  }

  /** The node received the request, judged the transaction valid, pooled it for that, and broadcast it. */
  ghost predicate OriginatesAt(log: seq<Event>, src: nat, tx: RawTx) {
    && WasSubmitted(log, src, tx)
    && (exists h :: JudgedValid(log, src, tx, h) && Inserted(src, tx, h, true) in log)
    && Published(src, BatchOf(tx)) in log
  }

  /**
   * How a transaction got into a pool: it was judged valid at the node, and before that it was submitted there
   * if it came from a local request, or else it originated at another node, which broadcast it.
   */
  ghost predicate Explained(before: seq<Event>, i: nat, tx: RawTx, h: TxHash, local: bool) {
    && JudgedValid(before, i, tx, h)
    && (local ==> WasSubmitted(before, i, tx))
    && (!local ==> exists src :: src != i && OriginatesAt(before, src, tx))
  }

  /**
   * In every run, with removals, losses and reordering, each pooled transaction was put there by an insertion
   * on record under its key, and what precedes the insertion explains it.
   */
  lemma PooledTransactionsHaveAnOrigin(cfg: Config, n: nat, acts: seq<Action>, i: nat, h: TxHash)
    requires Possible(cfg, Start(n), acts)
    requires i < |After(cfg, Start(n), acts).pools| && h in After(cfg, Start(n), acts).pools[i].index
    ensures Valid(After(cfg, Start(n), acts).pools[i])
    ensures var s := After(cfg, Start(n), acts); var tx := View(s.pools[i])[h];
      exists k, local :: 0 <= k < |s.log| && s.log[k] == Inserted(i, tx, h, local) && Explained(s.log[..k], i, tx, h, local)
  {
    RunKeepsTraced(cfg, Start(n), acts);
    var s := After(cfg, Start(n), acts);
    var tx := View(s.pools[i])[h];
    var local :| Inserted(i, tx, h, local) in s.log;
    var k :| 0 <= k < |s.log| && s.log[k] == Inserted(i, tx, h, local);
    PrefixTraced(s.log, k);
    InsertionIsExplained(s.log[..k], s.log[k]);
  }

  lemma InsertionIsExplained(before: seq<Event>, e: Event)
    requires LogTraced(before) && EventTraced(before, e) && e.Inserted?
    ensures Explained(before, e.node, e.tx, e.hash, e.local)
  {
    if !e.local {
      var src :| src != e.node && Gossiped(before, src, e.tx);
      LocalInsertOriginates(before, src, e.tx);
      assert OriginatesAt(before, src, e.tx);
    }
  }

  lemma PrefixTraced(log: seq<Event>, k: nat)
    requires LogTraced(log) && k <= |log|
    ensures LogTraced(log[..k])
  {
    forall l | 0 <= l < k ensures EventTraced(log[..k][..l], log[..k][l]) {
      assert log[..k][..l] == log[..l];
    }
  }

  lemma EarlierIsInLog(log: seq<Event>, k: nat, i: nat, tx: RawTx)
    requires k <= |log|
    ensures WasSubmitted(log[..k], i, tx) ==> WasSubmitted(log, i, tx)
    ensures GossipedElsewhere(log[..k], i, tx) ==> GossipedElsewhere(log, i, tx)
  {
    assert log == log[..k] + log[k..];
    if GossipedElsewhere(log[..k], i, tx) {
      var src :| src != i && Gossiped(log[..k], src, tx);
      GossipedGrows(log[..k], log[k..], src, tx);
    }
    if WasSubmitted(log[..k], i, tx) {
      var port :| Submitted(i, tx, port) in log[..k];
      assert Submitted(i, tx, port) in log;
    }
  }

  /** A node that inserted a transaction on behalf of a local request had received that request and judged it. */
  lemma LocalInsertOriginates(log: seq<Event>, i: nat, tx: RawTx)
    requires LogTraced(log) && InsertedLocally(log, i, tx)
    ensures WasSubmitted(log, i, tx)
    ensures exists h :: JudgedValid(log, i, tx, h) && Inserted(i, tx, h, true) in log
  {
    var h :| Inserted(i, tx, h, true) in log;
    var k :| 0 <= k < |log| && log[k] == Inserted(i, tx, h, true);
    assert EventTraced(log[..k], log[k]);
    EarlierIsInLog(log, k, i, tx);
    assert JudgedValid(log, i, tx, h);
  }
}
