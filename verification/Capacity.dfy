/** How far the pool of a node can grow when checks are under way while requests are admitted. */
module Capacity {
  import opened Types
  import opened Pools
  import opened Gossip
  import Wire

  /** The packet is a check under way at the node. */
  function CheckAt(i: nat): Packet -> nat {
    (p: Packet) => if (p.CheckReq? || p.CheckRes?) && p.node == i then 1 else 0
  }

  /** The number of checks under way at a node. */
  function InFlight(s: Sys, i: nat): nat {
    Sum(s.soup, CheckAt(i))
  }

  /** Pooled transactions and those that may still be pooled. */
  function Occupancy(s: Sys, i: nat): nat
    requires i < |s.pools|
  {
    |s.pools[i].txs| + InFlight(s, i)
  }

  /** In no state of the run are more than `w` checks under way at the node. */
  ghost predicate AtMostInFlight(cfg: Config, s: Sys, acts: seq<Action>, i: nat, w: nat)
    requires Possible(cfg, s, acts)
    decreases |acts|
  {
    InFlight(s, i) <= w && (acts != [] ==> AtMostInFlight(cfg, Next(cfg, s, acts[0]), acts[1..], i, w))
  }

  /** Only an admission with room to spare raises the occupancy. */
  lemma ReactionOccupancy(cfg: Config, n: nat, p: Pool, packet: Packet, result: CheckResult, i: nat)
    ensures var r := React(cfg, n, p, packet, result);
      if packet.node == i then
        || |r.pool.txs| + Sum(r.out, CheckAt(i)) <= |p.txs| + CheckAt(i)(packet)
        || |r.pool.txs| < cfg.maxPoolSize
      else Sum(r.out, CheckAt(i)) == 0 == CheckAt(i)(packet)
  {
    var out := React(cfg, n, p, packet, result).out;
    if packet.BroadcastMsg? {
      FanoutSum(n, packet.node, Wire.ToNetworkBytes(packet.batch), CheckAt(i), 0);
    } else {
      SmallSum(out, CheckAt(i));
    }
  }

  lemma RebuildIsNoLonger(p: Pool, hashes: seq<TxHash>, order: seq<TxHash>)
    requires Valid(p) && ValidOrder(p, hashes, order)
    ensures |Rebuild(p, order).txs| <= |p.txs|
  {
    DistinctCardinality(order);
    SizeOfView(p);
    SubsetCardinality(Elements(order), p.index.Keys);
  }

  /** While the pool of a node is full, its occupancy never increases. */
  lemma StepOccupancy(cfg: Config, s: Sys, a: Action, i: nat)
    requires Enabled(s, a) && i < |s.pools|
    ensures |Next(cfg, s, a).pools| == |s.pools|
    ensures Occupancy(Next(cfg, s, a), i) <= Occupancy(s, i) || |Next(cfg, s, a).pools[i].txs| < cfg.maxPoolSize
    ensures |s.pools[i].txs| >= cfg.maxPoolSize ==> Occupancy(Next(cfg, s, a), i) <= Occupancy(s, i)
  {
    match a
    case Submit(j, tx, port) =>
      SumSplit(s.soup, [AddMsg(j, tx, port)], CheckAt(i));
      SumOne(AddMsg(j, tx, port), CheckAt(i));
    case Deliver(k, result) =>
      DeliverSum(cfg, s, k, result, CheckAt(i));
      ReactionOccupancy(cfg, |s.pools|, s.pools[s.soup[k].node], s.soup[k], result, i);
    case Lose(k) => SumWithout(s.soup, k, CheckAt(i));
    case RemoveAt(j, hashes, order) => RebuildIsNoLonger(s.pools[j], hashes, order);
  }

  /**
   * With at most `w` checks under way at a time, pooled transactions and checks together never exceed
   * the limit by `w` or more. With one check at a time the pool respects its limit.
   */
  lemma {:induction false} CapacityBound(cfg: Config, s: Sys, acts: seq<Action>, i: nat, w: nat)
    requires Possible(cfg, s, acts) && i < |s.pools| && AtMostInFlight(cfg, s, acts, i, w)
    requires Occupancy(s, i) <= cfg.maxPoolSize + w - 1
    ensures i < |After(cfg, s, acts).pools|
    ensures Occupancy(After(cfg, s, acts), i) <= cfg.maxPoolSize + w - 1
    ensures w == 1 ==> |After(cfg, s, acts).pools[i].txs| <= cfg.maxPoolSize
    decreases |acts|
  {
    if acts != [] {
      StepOccupancy(cfg, s, acts[0], i);
      assert InFlight(Next(cfg, s, acts[0]), i) <= w;
      CapacityBound(cfg, Next(cfg, s, acts[0]), acts[1..], i, w);
    }
  }
}
