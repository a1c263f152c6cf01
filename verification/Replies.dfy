/** Every request is answered once, still under way, or lost with a message: never two of these. */
module Replies {
  import opened Types
  import opened Pools
  import opened Gossip
  import Wire

  /** The reply port a packet carries. */
  function PortOf(p: Packet): Option<Port> {
    match p
    case AddMsg(_, _, port) => Some(port)
    case CheckReq(_, _, reply) => reply
    case CheckRes(_, _, _, reply) => reply
    case _ => None
  }

  function Holds(port: Port): Packet -> nat {
    (p: Packet) => if PortOf(p) == Some(port) then 1 else 0
  }

  function SubmittedOn(port: Port): Event -> nat {
    (e: Event) => if e.Submitted? && e.port == port then 1 else 0
  }

  /** The reply port was used for an answer. */
  function AnsweredOn(port: Port): Event -> nat {
    (e: Event) => if e.Answered? && e.port == port then 1 else 0
  }

  function LostOn(port: Port): Event -> nat {
    (e: Event) => if e.Lost? && PortOf(e.packet) == Some(port) then 1 else 0
  }

  /** A reply port is accounted for as often as it was handed over, and it is handed over at most once. */
  ghost predicate Conserved(s: Sys, port: Port) {
    && Sum(s.soup, Holds(port)) + Sum(s.log, AnsweredOn(port)) + Sum(s.log, LostOn(port))
       == Sum(s.log, SubmittedOn(port)) <= 1
  }

  lemma ReactionHolds(cfg: Config, n: nat, p: Pool, packet: Packet, result: CheckResult, port: Port)
    ensures Sum(React(cfg, n, p, packet, result).out, Holds(port))
         == if packet.CheckReq? || (packet.AddMsg? && |p.txs| < cfg.maxPoolSize) then Holds(port)(packet) else 0
  {
    if packet.BroadcastMsg? {
      FanoutSum(n, packet.node, Wire.ToNetworkBytes(packet.batch), Holds(port), 0);
    } else {
      SmallSum(React(cfg, n, p, packet, result).out, Holds(port));
    }
  }

  lemma ReactionAnswers(cfg: Config, n: nat, p: Pool, packet: Packet, result: CheckResult, port: Port)
    ensures Sum(React(cfg, n, p, packet, result).events, AnsweredOn(port))
         == if packet.CheckRes? || (packet.AddMsg? && |p.txs| >= cfg.maxPoolSize) then Holds(port)(packet) else 0
  {
    SmallSum(React(cfg, n, p, packet, result).events, AnsweredOn(port));
  }

  /** A reaction passes the port on or uses it. */
  lemma ReactionConserves(cfg: Config, n: nat, p: Pool, packet: Packet, result: CheckResult, port: Port)
    ensures var r := React(cfg, n, p, packet, result);
      && Sum(r.out, Holds(port)) + Sum(r.events, AnsweredOn(port)) == Holds(port)(packet)
      && Sum(r.events, LostOn(port)) == 0 == Sum(r.events, SubmittedOn(port))
  {
    var events := React(cfg, n, p, packet, result).events;
    ReactionHolds(cfg, n, p, packet, result, port);
    ReactionAnswers(cfg, n, p, packet, result, port);
    SmallSum(events, LostOn(port));
    SmallSum(events, SubmittedOn(port));
  }

  lemma LogMore(log: seq<Event>, more: seq<Event>, port: Port)
    ensures Sum(log + more, SubmittedOn(port)) == Sum(log, SubmittedOn(port)) + Sum(more, SubmittedOn(port))
    ensures Sum(log + more, AnsweredOn(port)) == Sum(log, AnsweredOn(port)) + Sum(more, AnsweredOn(port))
    ensures Sum(log + more, LostOn(port)) == Sum(log, LostOn(port)) + Sum(more, LostOn(port))
  {
    SumSplit(log, more, SubmittedOn(port));
    SumSplit(log, more, AnsweredOn(port));
    SumSplit(log, more, LostOn(port));
  }

  lemma {:induction false} NeverSubmitted(log: seq<Event>, port: Port)
    requires forall e :: e in log && e.Submitted? ==> e.port != port
    ensures Sum(log, SubmittedOn(port)) == 0
  {
    if log != [] {
      SumLast(log, SubmittedOn(port));
      NeverSubmitted(log[..|log| - 1], port);
    }
  }

  lemma SubmitConserves(cfg: Config, s: Sys, i: nat, tx: RawTx, q: Port, port: Port)
    requires Enabled(s, Submit(i, tx, q)) && Conserved(s, port)
    ensures Conserved(Next(cfg, s, Submit(i, tx, q)), port)
  {
    SumSplit(s.soup, [AddMsg(i, tx, q)], Holds(port));
    SumOne(AddMsg(i, tx, q), Holds(port));
    LogMore(s.log, [Submitted(i, tx, q)], port);
    SmallSum([Submitted(i, tx, q)], SubmittedOn(port));
    SmallSum([Submitted(i, tx, q)], AnsweredOn(port));
    SmallSum([Submitted(i, tx, q)], LostOn(port));
    if q == port {
      NeverSubmitted(s.log, port);
    }
  }

  lemma NextConserves(cfg: Config, s: Sys, a: Action, port: Port)
    requires Enabled(s, a) && Conserved(s, port)
    ensures Conserved(Next(cfg, s, a), port)
  {
    match a
    case Submit(i, tx, q) => SubmitConserves(cfg, s, i, tx, q, port);
    case Deliver(k, result) =>
      var n, p := |s.pools|, s.pools[s.soup[k].node];
      DeliverSum(cfg, s, k, result, Holds(port));
      ReactionConserves(cfg, n, p, s.soup[k], result, port);
      LogMore(s.log, React(cfg, n, p, s.soup[k], result).events, port);
    case Lose(k) =>
      SumWithout(s.soup, k, Holds(port));
      LogMore(s.log, [Lost(s.soup[k])], port);
      SmallSum([Lost(s.soup[k])], SubmittedOn(port));
      SmallSum([Lost(s.soup[k])], AnsweredOn(port));
      SmallSum([Lost(s.soup[k])], LostOn(port));
    case RemoveAt(_, _, _) =>
  }

  lemma {:induction false} RunConserves(cfg: Config, s: Sys, acts: seq<Action>, port: Port)
    requires Possible(cfg, s, acts) && Conserved(s, port)
    ensures Conserved(After(cfg, s, acts), port)
    decreases |acts|
  {
    if acts != [] {
      NextConserves(cfg, s, acts[0], port);
      RunConserves(cfg, Next(cfg, s, acts[0]), acts[1..], port);
    }
  }

  lemma {:induction false} NothingLost(log: seq<Event>, port: Port)
    requires forall e :: e in log ==> !e.Lost?
    ensures Sum(log, LostOn(port)) == 0
  {
    if log != [] {
      SumLast(log, LostOn(port));
      NothingLost(log[..|log| - 1], port);
    }
  }

  /** When nothing is under way and nothing was lost, every request has been answered exactly once. */
  lemma QuiescentMeansAnswered(cfg: Config, n: nat, acts: seq<Action>, port: Port)
    requires Possible(cfg, Start(n), acts)
    requires After(cfg, Start(n), acts).soup == []
    requires forall e :: e in After(cfg, Start(n), acts).log ==> !e.Lost?
    ensures Sum(After(cfg, Start(n), acts).log, AnsweredOn(port))
         == Sum(After(cfg, Start(n), acts).log, SubmittedOn(port)) <= 1
  {
    RunConserves(cfg, Start(n), acts, port);
    NothingLost(After(cfg, Start(n), acts).log, port);
  }

  // ---------------------------------------------------------------------------------------------
  // Positive answers
  // ---------------------------------------------------------------------------------------------

  /** The requester is told that a valid transaction was accepted. */
  function IsAcceptance(e: Event): nat {
    if e.Answered? && e.answer.Success? && e.answer.outcome.valid then 1 else 0
  }

  function IsLocalInsert(e: Event): nat {
    if e.Inserted? && e.local then 1 else 0
  }

  /** Acceptances are sent exactly for transactions that local requests put into a pool. */
  lemma {:induction false} AcceptancesAreLocalInserts(cfg: Config, s: Sys, acts: seq<Action>)
    requires Possible(cfg, s, acts) && Sum(s.log, IsAcceptance) == Sum(s.log, IsLocalInsert)
    ensures Sum(After(cfg, s, acts).log, IsAcceptance) == Sum(After(cfg, s, acts).log, IsLocalInsert)
    decreases |acts|
  {
    if acts != [] {
      StepAcceptances(cfg, s, acts[0]);
      AcceptancesAreLocalInserts(cfg, Next(cfg, s, acts[0]), acts[1..]);
    }
  }

  lemma ReactionAcceptances(cfg: Config, n: nat, p: Pool, packet: Packet, result: CheckResult)
    ensures Sum(React(cfg, n, p, packet, result).events, IsAcceptance)
         == Sum(React(cfg, n, p, packet, result).events, IsLocalInsert)
  {
    SmallSum(React(cfg, n, p, packet, result).events, IsAcceptance);
    SmallSum(React(cfg, n, p, packet, result).events, IsLocalInsert);
  }

  lemma StepAcceptances(cfg: Config, s: Sys, a: Action)
    requires Enabled(s, a) && Sum(s.log, IsAcceptance) == Sum(s.log, IsLocalInsert)
    ensures Sum(Next(cfg, s, a).log, IsAcceptance) == Sum(Next(cfg, s, a).log, IsLocalInsert)
  {
    match a
    case Deliver(k, result) =>
      var p := s.pools[s.soup[k].node];
      ReactionAcceptances(cfg, |s.pools|, p, s.soup[k], result);
      SumSplit(s.log, React(cfg, |s.pools|, p, s.soup[k], result).events, IsAcceptance);
      SumSplit(s.log, React(cfg, |s.pools|, p, s.soup[k], result).events, IsLocalInsert);
    case Submit(i, tx, port) => OtherEvent(s.log, Submitted(i, tx, port));
    case Lose(k) => OtherEvent(s.log, Lost(s.soup[k]));
    case RemoveAt(_, _, _) =>
  }

  lemma OtherEvent(log: seq<Event>, e: Event)
    requires !e.Answered? && !e.Inserted?
    ensures Sum(log + [e], IsAcceptance) == Sum(log, IsAcceptance)
    ensures Sum(log + [e], IsLocalInsert) == Sum(log, IsLocalInsert)
  {
    SumSplit(log, [e], IsAcceptance);
    SumSplit(log, [e], IsLocalInsert);
    SumOne(e, IsAcceptance);
    SumOne(e, IsLocalInsert);
  }
}
