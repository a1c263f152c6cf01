/** Gossip dies out: every step on a packet burns some of a budget that only submissions refill. */
module Termination {
  import opened Types
  import opened Pools
  import opened Gossip
  import Wire

  /** The work a packet can still cause among `n` nodes. */
  function Weight(n: nat, p: Packet): nat
    requires n > 0
  {
    match p
    case AddMsg(_, _, _) => 4 * n
    case CheckReq(_, _, Some(_)) => 4 * n - 1
    case CheckRes(_, _, _, Some(_)) => 4 * n - 2
    case BroadcastMsg(_, _) => 4 * n - 3
    case WireMsg(_, _, _) => 4
    case NetEvent(_, _, _) => 3
    case CheckReq(_, _, None) => 2
    case CheckRes(_, _, _, None) => 1
  }

  function WeightOf(n: nat): Packet -> nat
    requires n > 0
  {
    p => Weight(n, p)
  }

  ghost function Total(s: Sys): nat
    requires |s.pools| > 0
  {
    Sum(s.soup, WeightOf(|s.pools|))
  }

  /** Handling a packet releases less work than the packet stood for. */
  lemma ReactionIsLighter(cfg: Config, n: nat, p: Pool, packet: Packet, result: CheckResult)
    requires packet.node < n
    ensures Sum(React(cfg, n, p, packet, result).out, WeightOf(n)) < Weight(n, packet)
  {
    var out := React(cfg, n, p, packet, result).out;
    if packet.BroadcastMsg? {
      FanoutSum(n, packet.node, Wire.ToNetworkBytes(packet.batch), WeightOf(n), 4);
    } else if out != [] {
      SumOne(out[0], WeightOf(n));
      assert out == [out[0]];
    }
  }

  function IsSubmission(a: Action): nat {
    if a.Submit? then 1 else 0
  }

  /** The step handles or loses a packet. */
  function IsPacketStep(a: Action): nat {
    if a.Deliver? || a.Lose? then 1 else 0
  }

  /** A submission to one of `n` nodes pays for this many steps. */
  function Allowance(n: nat, submissions: nat): nat {
    4 * n * submissions
  }

  lemma AllowanceAdds(n: nat, k: nat, l: nat)
    ensures Allowance(n, k + l) == Allowance(n, k) + Allowance(n, l)
  {
    assert 4 * n * (k + l) == 4 * n * k + 4 * n * l;
  }

  /** Every step on a packet lowers the total, and only a submission raises it. */
  lemma StepTotal(cfg: Config, s: Sys, a: Action)
    requires Enabled(s, a) && |s.pools| > 0
    ensures |Next(cfg, s, a).pools| == |s.pools|
    ensures IsPacketStep(a) + Total(Next(cfg, s, a)) <= Total(s) + Allowance(|s.pools|, IsSubmission(a))
  {
    var n := |s.pools|;
    match a
    case Submit(i, tx, port) =>
      SumSplit(s.soup, [AddMsg(i, tx, port)], WeightOf(n));
      SumOne(AddMsg(i, tx, port), WeightOf(n));
    case Deliver(k, result) =>
      DeliverSum(cfg, s, k, result, WeightOf(n));
      ReactionIsLighter(cfg, n, s.pools[s.soup[k].node], s.soup[k], result);
    case Lose(k) => SumWithout(s.soup, k, WeightOf(n));
    case RemoveAt(_, _, _) =>
  }

  lemma SumFirst<T>(s: seq<T>, w: T -> nat)
    requires s != []
    ensures Sum(s, w) == w(s[0]) + Sum(s[1..], w)
  {
    assert s == [s[0]] + s[1..];
    SumSplit([s[0]], s[1..], w);
    SumOne(s[0], w);
  }

  /**
   * Finitely many submissions cause finitely many steps, whatever is delivered, in whatever order, with
   * or without losses: at most four per submission and node.
   */
  lemma {:induction false} GossipTerminates(cfg: Config, s: Sys, acts: seq<Action>)
    requires Possible(cfg, s, acts) && |s.pools| > 0
    ensures |After(cfg, s, acts).pools| == |s.pools|
    ensures Sum(acts, IsPacketStep) + Total(After(cfg, s, acts))
         <= Total(s) + Allowance(|s.pools|, Sum(acts, IsSubmission))
    decreases |acts|
  {
    if acts != [] {
      var t := Next(cfg, s, acts[0]);
      StepTotal(cfg, s, acts[0]);
      GossipTerminates(cfg, t, acts[1..]);
      SumFirst(acts, IsPacketStep);
      SumFirst(acts, IsSubmission);
      AllowanceAdds(|s.pools|, IsSubmission(acts[0]), Sum(acts[1..], IsSubmission));
    }
  }

  // ---------------------------------------------------------------------------------------------
  // Broadcasts
  // ---------------------------------------------------------------------------------------------

  /** The packet stems from a local request and has not been published yet. */
  function MayBePublished(p: Packet): nat {
    match p
    case AddMsg(_, _, _) => 1
    case CheckReq(_, _, Some(_)) => 1
    case CheckRes(_, _, _, Some(_)) => 1
    case BroadcastMsg(_, _) => 1
    case _ => 0
  }

  function IsPublished(e: Event): nat {
    if e.Published? then 1 else 0
  }

  function IsSubmitted(e: Event): nat {
    if e.Submitted? then 1 else 0
  }

  /** Publications made and still possible never outnumber submissions. */
  ghost predicate PublicationsBounded(s: Sys) {
    Sum(s.log, IsPublished) + Sum(s.soup, MayBePublished) <= Sum(s.log, IsSubmitted)
  }

  lemma ReactionPublishesOnce(cfg: Config, n: nat, p: Pool, packet: Packet, result: CheckResult)
    ensures var r := React(cfg, n, p, packet, result);
      && Sum(r.events, IsPublished) + Sum(r.out, MayBePublished) <= MayBePublished(packet)
      && Sum(r.events, IsSubmitted) == 0
  {
    var r := React(cfg, n, p, packet, result);
    if packet.BroadcastMsg? {
      FanoutSum(n, packet.node, Wire.ToNetworkBytes(packet.batch), MayBePublished, 0);
    } else if r.out != [] {
      SumOne(r.out[0], MayBePublished);
      assert r.out == [r.out[0]];
    }
    SmallSum(r.events, IsPublished);
    SmallSum(r.events, IsSubmitted);
  }

  lemma DeliverKeepsPublicationsBounded(cfg: Config, s: Sys, k: nat, result: CheckResult)
    requires Enabled(s, Deliver(k, result)) && PublicationsBounded(s)
    ensures PublicationsBounded(Next(cfg, s, Deliver(k, result)))
  {
    var n, p := |s.pools|, s.pools[s.soup[k].node];
    var events := React(cfg, n, p, s.soup[k], result).events;
    DeliverSum(cfg, s, k, result, MayBePublished);
    ReactionPublishesOnce(cfg, n, p, s.soup[k], result);
    SumSplit(s.log, events, IsPublished);
    SumSplit(s.log, events, IsSubmitted);
  }

  lemma NextKeepsPublicationsBounded(cfg: Config, s: Sys, a: Action)
    requires Enabled(s, a) && PublicationsBounded(s)
    ensures PublicationsBounded(Next(cfg, s, a))
  {
    match a
    case Submit(i, tx, port) =>
      SumSplit(s.soup, [AddMsg(i, tx, port)], MayBePublished);
      SumOne(AddMsg(i, tx, port), MayBePublished);
      LogOne(s, Submitted(i, tx, port));
    case Deliver(k, result) => DeliverKeepsPublicationsBounded(cfg, s, k, result);
    case Lose(k) =>
      SumWithout(s.soup, k, MayBePublished);
      LogOne(s, Lost(s.soup[k]));
    case RemoveAt(_, _, _) =>
  }

  lemma LogOne(s: Sys, e: Event)
    ensures Sum(s.log + [e], IsPublished) == Sum(s.log, IsPublished) + IsPublished(e)
    ensures Sum(s.log + [e], IsSubmitted) == Sum(s.log, IsSubmitted) + IsSubmitted(e)
  {
    SumSplit(s.log, [e], IsPublished);
    SumSplit(s.log, [e], IsSubmitted);
    SumOne(e, IsPublished);
    SumOne(e, IsSubmitted);
  }

  /** Received transactions are never gossiped again: a run publishes at most as often as it submits. */
  lemma {:induction false} PublishesNoMoreThanSubmitted(cfg: Config, s: Sys, acts: seq<Action>)
    requires Possible(cfg, s, acts) && PublicationsBounded(s)
    ensures PublicationsBounded(After(cfg, s, acts))
    ensures Sum(After(cfg, s, acts).log, IsPublished) <= Sum(After(cfg, s, acts).log, IsSubmitted)
    decreases |acts|
  {
    if acts != [] {
      NextKeepsPublicationsBounded(cfg, s, acts[0]);
      PublishesNoMoreThanSubmitted(cfg, Next(cfg, s, acts[0]), acts[1..]);
    }
  }
}
