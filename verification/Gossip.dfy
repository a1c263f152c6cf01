/**
 * Several nodes, each a mempool with its application and its network actor, as one state machine. All
 * messages under way are kept in one pool of packets, from which any may be delivered next: mailboxes,
 * output ports and the gossip network may delay, reorder and, by a step of its own, lose them.
 */
module Gossip {
  import opened Types
  import opened Pools
  import opened MempoolSpec
  import Wire

  /** A message under way, and the node that will handle it. */
  datatype Packet =
    | AddMsg(node: nat, tx: RawTx, port: Port)
    | CheckReq(node: nat, tx: RawTx, reply: Option<Port>)
    | CheckRes(node: nat, tx: RawTx, result: CheckResult, reply: Option<Port>)
    | BroadcastMsg(node: nat, batch: Batch)
    | WireMsg(src: nat, node: nat, data: Bytes)
    | NetEvent(src: nat, node: nat, batch: Batch)

  /** What has happened, oldest first. */
  datatype Event =
    | Submitted(node: nat, tx: RawTx, port: Port)
    | Judged(node: nat, tx: RawTx, result: CheckResult)
    | Inserted(node: nat, tx: RawTx, hash: TxHash, local: bool)
    | Answered(node: nat, port: Port, answer: Answer)
    | Published(node: nat, batch: Batch)
    | Lost(packet: Packet)

  datatype Sys = Sys(pools: seq<Pool>, soup: seq<Packet>, log: seq<Event>)

  datatype Action =
    | Submit(node: nat, tx: RawTx, port: Port)
    | Deliver(k: nat, result: CheckResult)
    | Lose(k: nat)
    | RemoveAt(node: nat, hashes: seq<TxHash>, order: seq<TxHash>)

  function Start(n: nat): Sys {
    Sys(seq(n, _ => EMPTY), [], [])
  }

  // ---------------------------------------------------------------------------------------------
  // Reactions
  // ---------------------------------------------------------------------------------------------

  datatype Reaction = Reaction(pool: Pool, out: seq<Packet>, events: seq<Event>)

  /** The pool takes a transaction in under this verdict. */
  predicate Admits(p: Pool, result: CheckResult) {
    result.Checked? && result.outcome.valid && result.outcome.hash !in p.index
  }

  /** One message to every other node. */
  function Fanout(n: nat, src: nat, data: Bytes): seq<Packet> {
    if n == 0 then []
    else Fanout(n - 1, src, data) + if n - 1 == src then [] else [WireMsg(src, n - 1, data)]
  }

  /** How the node a packet is meant for handles it; `result` is the verdict if the application is asked. */
  function React(cfg: Config, n: nat, p: Pool, packet: Packet, result: CheckResult): Reaction {
    match packet
    case AddMsg(i, tx, port) =>
      if |p.txs| >= cfg.maxPoolSize then
        Reaction(p, [], [Answered(i, port, Failure(MempoolFull(|p.txs|, cfg.maxPoolSize)))])
      else
        Reaction(p, [CheckReq(i, tx, Some(port))], [])
    case CheckReq(i, tx, reply) =>
      Reaction(p, [CheckRes(i, tx, result, reply)], [Judged(i, tx, result)])
    case CheckRes(i, tx, verdict, reply) =>
      Reaction(if Admits(p, verdict) then Insert(p, verdict.outcome.hash, tx) else p,
               if Admits(p, verdict) && reply.Some? then [BroadcastMsg(i, BatchOf(tx))] else [],
               (if Admits(p, verdict) then [Inserted(i, tx, verdict.outcome.hash, reply.Some?)] else [])
               + (if reply.Some? then [Answered(i, reply.value, AnswerTo(p, verdict))] else []))
    case BroadcastMsg(i, batch) =>
      Reaction(p, Fanout(n, i, Wire.ToNetworkBytes(batch)), [Published(i, batch)])
    case WireMsg(src, i, data) =>
      (match Wire.FromNetworkBytes(data)
       case None => Reaction(p, [], [])
       case Some(batch) => Reaction(p, [NetEvent(src, i, batch)], []))
    case NetEvent(_, i, batch) =>
      Reaction(p, if |p.txs| >= cfg.maxPoolSize then [] else [CheckReq(i, batch.value, None)], [])
  }

  /** The mailbox message a packet for the mempool carries. */
  function AsMsg(packet: Packet): Option<Msg> {
    match packet
    case AddMsg(_, tx, port) => Some(Add(tx, port))
    case CheckRes(_, tx, result, reply) => Some(CheckTxResult(tx, result, reply))
    case NetEvent(_, _, batch) => Some(NetworkEvent(Message(batch)))
    case _ => None
  }

  /** What the mempool sent, as packets of its node. */
  function PacketsOf(i: nat, effects: seq<Effect>): seq<Packet> {
    if effects == [] then [] else PacketOf(i, effects[0]) + PacketsOf(i, effects[1..])
  }

  function PacketOf(i: nat, effect: Effect): seq<Packet> {
    match effect
    case EmitCheck(tx, reply) => [CheckReq(i, tx, reply)]
    case Broadcast(batch) => [BroadcastMsg(i, batch)]
    case _ => []
  }

  /** The answers the mempool sent. */
  function AnswersOf(i: nat, effects: seq<Effect>): seq<Event> {
    if effects == [] then [] else AnswerOf(i, effects[0]) + AnswersOf(i, effects[1..])
  }

  function AnswerOf(i: nat, effect: Effect): seq<Event> {
    match effect
    case Reply(port, answer) => [Answered(i, port, answer)]
    case _ => []
  }

  /** The answers among the events. */
  function Answers(events: seq<Event>): seq<Event> {
    if events == [] then [] else (if events[0].Answered? then [events[0]] else []) + Answers(events[1..])
  }

  lemma UpToTwo(i: nat, effects: seq<Effect>)
    requires 0 < |effects| <= 2
    ensures PacketsOf(i, effects)
         == PacketOf(i, effects[0]) + (if |effects| == 2 then PacketOf(i, effects[1]) else [])
    ensures AnswersOf(i, effects)
         == AnswerOf(i, effects[0]) + (if |effects| == 2 then AnswerOf(i, effects[1]) else [])
  {
    var rest := effects[1..];
    if |effects| == 2 {
      assert rest == [effects[1]];
      assert PacketsOf(i, rest) == PacketOf(i, effects[1]) + PacketsOf(i, []);
      assert AnswersOf(i, rest) == AnswerOf(i, effects[1]) + AnswersOf(i, []);
    }
  }

  lemma AnswersUpToTwo(events: seq<Event>)
    requires |events| <= 2
    ensures Answers(events)
         == (if |events| > 0 && events[0].Answered? then [events[0]] else [])
            + (if |events| == 2 && events[1].Answered? then [events[1]] else [])
  {
    if |events| == 2 {
      assert events[1..] == [events[1]];
    }
  }

  const IDEAL := Env(Delivered, true)

  /** The reaction is what the mempool actor does on this message. */
  ghost predicate Agrees(i: nat, r: Reaction, h: Handled) {
    && r.pool == h.pool
    && r.out == PacketsOf(i, h.effects)
    && Answers(r.events) == AnswersOf(i, h.effects)
  }

  lemma VerdictPackets(cfg: Config, n: nat, p: Pool, packet: Packet, result: CheckResult)
    requires packet.CheckRes?
    ensures var h := OnCheckResult(p, packet.tx, packet.result, packet.reply, IDEAL);
      && React(cfg, n, p, packet, result).pool == h.pool
      && React(cfg, n, p, packet, result).out == PacketsOf(packet.node, h.effects)
  {
    var effects := OnCheckResult(p, packet.tx, packet.result, packet.reply, IDEAL).effects;
    if effects != [] {
      UpToTwo(packet.node, effects);
    }
  }

  lemma VerdictAnswers(cfg: Config, n: nat, p: Pool, packet: Packet, result: CheckResult)
    requires packet.CheckRes?
    ensures Answers(React(cfg, n, p, packet, result).events)
         == AnswersOf(packet.node, OnCheckResult(p, packet.tx, packet.result, packet.reply, IDEAL).effects)
  {
    var effects := OnCheckResult(p, packet.tx, packet.result, packet.reply, IDEAL).effects;
    if effects != [] {
      UpToTwo(packet.node, effects);
    }
    AnswersUpToTwo(React(cfg, n, p, packet, result).events);
  }

  /** The reactions of a node to messages for its mempool are those of the mempool actor. */
  lemma ReactionsAreTheActors(cfg: Config, n: nat, p: Pool, packet: Packet, result: CheckResult)
    requires packet.AddMsg? || packet.CheckRes? || packet.NetEvent?
    ensures AsMsg(packet).Some?
    ensures Agrees(packet.node, React(cfg, n, p, packet, result),
                   Handle(cfg, p, AsMsg(packet).value, IDEAL, []))
  {
    match packet
    case CheckRes(_, _, _, _) =>
      VerdictPackets(cfg, n, p, packet, result);
      VerdictAnswers(cfg, n, p, packet, result);
    case _ =>
  }

  // ---------------------------------------------------------------------------------------------
  // Steps and runs
  // ---------------------------------------------------------------------------------------------

  /** The length a byte string can have in memory. */
  const MAX_LEN: nat := 0x8000_0000_0000_0000

  function Without<T>(s: seq<T>, k: nat): seq<T>
    requires k < |s|
  {
    s[..k] + s[k + 1..]
  }

  /** A reply port is made for one request. */
  ghost predicate FreshPort(s: Sys, port: Port) {
    forall e :: e in s.log && e.Submitted? ==> e.port != port
  }

  ghost predicate Enabled(s: Sys, a: Action) {
    match a
    case Submit(i, tx, port) => i < |s.pools| && |tx| < MAX_LEN && FreshPort(s, port)
    case Deliver(k, _) => k < |s.soup| && s.soup[k].node < |s.pools|
    case Lose(k) => k < |s.soup|
    case RemoveAt(i, hashes, order) =>
      i < |s.pools| && Valid(s.pools[i]) && ValidOrder(s.pools[i], hashes, order)
  }

  ghost function Next(cfg: Config, s: Sys, a: Action): Sys
    requires Enabled(s, a)
  {
    match a
    case Submit(i, tx, port) =>
      s.(soup := s.soup + [AddMsg(i, tx, port)], log := s.log + [Submitted(i, tx, port)])
    case Deliver(k, result) =>
      var i := s.soup[k].node;
      var r := React(cfg, |s.pools|, s.pools[i], s.soup[k], result);
      Sys(s.pools[i := r.pool], Without(s.soup, k) + r.out, s.log + r.events)
    case Lose(k) =>
      s.(soup := Without(s.soup, k), log := s.log + [Lost(s.soup[k])])
    case RemoveAt(i, _, order) =>
      s.(pools := s.pools[i := Rebuild(s.pools[i], order)])
  }

  ghost predicate Possible(cfg: Config, s: Sys, acts: seq<Action>)
    decreases |acts|
  {
    acts == [] || (Enabled(s, acts[0]) && Possible(cfg, Next(cfg, s, acts[0]), acts[1..]))
  }

  ghost function After(cfg: Config, s: Sys, acts: seq<Action>): Sys
    requires Possible(cfg, s, acts)
    decreases |acts|
  {
    if acts == [] then s else After(cfg, Next(cfg, s, acts[0]), acts[1..])
  }

  ghost predicate AllValid(s: Sys) {
    forall i :: 0 <= i < |s.pools| ==> Valid(s.pools[i])
  }

  lemma NextKeepsValid(cfg: Config, s: Sys, a: Action)
    requires Enabled(s, a) && AllValid(s)
    ensures AllValid(Next(cfg, s, a)) && |Next(cfg, s, a).pools| == |s.pools|
  {
    match a
    case Deliver(k, result) =>
      var packet := s.soup[k];
      if packet.CheckRes? && Admits(s.pools[packet.node], packet.result) {
        InsertIsMapUpdate(s.pools[packet.node], packet.result.outcome.hash, packet.tx);
      }
    case RemoveAt(i, hashes, order) => RebuildIsRestriction(s.pools[i], hashes, order);
    case _ =>
  }

  // ---------------------------------------------------------------------------------------------
  // Sums over packets and events
  // ---------------------------------------------------------------------------------------------

  function Sum<T>(s: seq<T>, w: T -> nat): nat {
    SumTo(s, |s|, w)
  }

  /** The sum over the first `n` elements. */
  function SumTo<T>(s: seq<T>, n: nat, w: T -> nat): nat
    requires n <= |s|
  {
    if n == 0 then 0 else SumTo(s, n - 1, w) + w(s[n - 1])
  }

  lemma {:induction false} SumToPrefix<T>(a: seq<T>, b: seq<T>, n: nat, w: T -> nat)
    requires n <= |a|
    ensures SumTo(a + b, n, w) == SumTo(a, n, w)
  {
    if n > 0 {
      SumToPrefix(a, b, n - 1, w);
    }
  }

  lemma {:induction false} SumToSplit<T>(a: seq<T>, b: seq<T>, n: nat, w: T -> nat)
    requires n <= |b|
    ensures SumTo(a + b, |a| + n, w) == SumTo(a, |a|, w) + SumTo(b, n, w)
  {
    if n == 0 {
      SumToPrefix(a, b, |a|, w);
    } else {
      SumToSplit(a, b, n - 1, w);
    }
  }

  lemma SumSplit<T>(a: seq<T>, b: seq<T>, w: T -> nat)
    ensures Sum(a + b, w) == Sum(a, w) + Sum(b, w)
  {
    SumToSplit(a, b, |b|, w);
  }

  lemma SumOne<T>(x: T, w: T -> nat)
    ensures Sum([x], w) == w(x)
  {
    assert SumTo([x], 0, w) == 0;
  }

  lemma SmallSum<T>(s: seq<T>, w: T -> nat)
    requires |s| <= 2
    ensures Sum(s, w) == (if |s| > 0 then w(s[0]) else 0) + (if |s| > 1 then w(s[1]) else 0)
  {
    if |s| > 0 {
      assert SumTo(s, 1, w) == SumTo(s, 0, w) + w(s[0]);
    }
  }

  /** The last element of a nonempty sequence, split off. */
  lemma SumLast<T>(s: seq<T>, w: T -> nat)
    requires s != []
    ensures Sum(s, w) == Sum(s[..|s| - 1], w) + w(s[|s| - 1])
  {
    var front := s[..|s| - 1];
    SumToPrefix(front, [s[|s| - 1]], |front|, w);
    assert front + [s[|s| - 1]] == s;
  }

  lemma SumAround<T>(front: seq<T>, x: T, back: seq<T>, w: T -> nat)
    ensures Sum(front + [x] + back, w) == Sum(front + back, w) + w(x)
  {
    SumSplit(front + [x], back, w);
    SumSplit(front, [x], w);
    SumOne(x, w);
    SumSplit(front, back, w);
  }

  lemma SumWithout<T>(s: seq<T>, k: nat, w: T -> nat)
    requires k < |s|
    ensures Sum(Without(s, k), w) + w(s[k]) == Sum(s, w)
  {
    SumAround(s[..k], s[k], s[k + 1..], w);
    assert s[..k] + [s[k]] + s[k + 1..] == s;
  }

  /** The number of nodes other than `src` among the first `n`. */
  function Others(n: nat, src: nat): nat {
    if src < n then n - 1 else n
  }

  lemma {:induction false} FanoutTargets(n: nat, src: nat, data: Bytes, p: Packet)
    ensures p in Fanout(n, src, data) <==> p.WireMsg? && p.src == src && p.data == data && p.node < n && p.node != src
  {
    if n > 0 {
      FanoutTargets(n - 1, src, data, p);
    }
  }

  /** A broadcast is one message to each other node, no more and no less. */
  lemma {:induction false} FanoutIsOneEach(n: nat, src: nat, data: Bytes)
    ensures |Fanout(n, src, data)| == Others(n, src) && Distinct(Fanout(n, src, data))
    ensures forall j :: 0 <= j < n && j != src ==> WireMsg(src, j, data) in Fanout(n, src, data)
    ensures forall p :: p in Fanout(n, src, data) ==>
      p.WireMsg? && p.src == src && p.data == data && p.node < n && p.node != src
  {
    if n > 0 {
      FanoutIsOneEach(n - 1, src, data);
    }
  }

  /** Summed over a broadcast, a quantity that is the same for all its messages counts once per other node. */
  lemma {:induction false} FanoutSum(n: nat, src: nat, data: Bytes, w: Packet -> nat, c: nat)
    requires forall j: nat :: j != src ==> w(WireMsg(src, j, data)) == c
    ensures Sum(Fanout(n, src, data), w) == c * Others(n, src)
  {
    if n > 0 {
      FanoutSum(n - 1, src, data, w, c);
      if n - 1 == src {
        assert Fanout(n, src, data) == Fanout(n - 1, src, data);
      } else {
        SumSplit(Fanout(n - 1, src, data), [WireMsg(src, n - 1, data)], w);
        SumOne(WireMsg(src, n - 1, data), w);
        OneMore(c, Others(n - 1, src));
      }
    }
  }

  lemma OneMore(c: nat, k: nat)
    ensures c * (k + 1) == c * k + c
  {
  }

  /** How a sum over the packets changes with a delivery. */
  lemma DeliverSum(cfg: Config, s: Sys, k: nat, result: CheckResult, w: Packet -> nat)
    requires Enabled(s, Deliver(k, result))
    ensures Sum(Next(cfg, s, Deliver(k, result)).soup, w) + w(s.soup[k])
         == Sum(s.soup, w) + Sum(React(cfg, |s.pools|, s.pools[s.soup[k].node], s.soup[k], result).out, w)
  {
    SumWithout(s.soup, k, w);
    SumSplit(Without(s.soup, k), React(cfg, |s.pools|, s.pools[s.soup[k].node], s.soup[k], result).out, w);
  }
}
