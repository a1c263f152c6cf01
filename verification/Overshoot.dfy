/** Requests admitted together can all be pooled, past the limit. */
module Overshoot {
  import opened Types
  import opened Pools
  import opened MempoolSpec
  import opened Gossip
  import opened Capacity
  import opened Convergence
  import opened Pacing

  /** These transactions, waiting for the application with consecutive reply ports. */
  function Requests(i: nat, txs: seq<RawTx>, port: Port): seq<Packet> {
    seq(|txs|, k requires 0 <= k < |txs| => CheckReq(i, txs[k], Some(port + k)))
  }

  lemma RequestsUnfold(i: nat, txs: seq<RawTx>, port: Port, tail: seq<Packet>, last: Packet)
    requires txs != []
    ensures var rest := Requests(i, txs[1..], port + 1) + tail;
      && Requests(i, txs, port) + tail == [CheckReq(i, txs[0], Some(port))] + rest
      && rest + [last] == Requests(i, txs[1..], port + 1) + (tail + [last])
  {
  }

  lemma RequestsBehind(soup: seq<Packet>, i: nat, txs: seq<RawTx>, port: Port)
    ensures txs == [] ==> soup + Requests(i, txs, port) == soup
    ensures txs != [] ==>
      soup + [CheckReq(i, txs[0], Some(port))] + Requests(i, txs[1..], port + 1) == soup + Requests(i, txs, port)
  {
  }

  /** Later requests may use ports from `port` on. */
  ghost predicate PortsBelow(s: Sys, port: Port) {
    forall e :: e in s.log && e.Submitted? ==> e.port < port
  }

  lemma AppendInFlight(s: Sys, t: Sys, i: nat, p: Packet)
    requires t.soup == s.soup + [p]
    ensures InFlight(t, i) == InFlight(s, i) + CheckAt(i)(p)
  {
    SumSplit(s.soup, [p], CheckAt(i));
    SumOne(p, CheckAt(i));
  }

  lemma TwoSteps(cfg: Config, check: Check, s: Sys, a: Action, b: Action, i: nat, w: nat)
    requires Enabled(s, a) && Calm(check, s, a) && Enabled(Next(cfg, s, a), b) && Calm(check, Next(cfg, s, a), b)
    requires InFlight(s, i) <= w && InFlight(Next(cfg, s, a), i) <= w
    requires InFlight(Next(cfg, Next(cfg, s, a), b), i) <= w
    ensures Possible(cfg, s, [a, b]) && Paced(cfg, check, s, [a, b], i, w)
    ensures After(cfg, s, [a, b]) == Next(cfg, Next(cfg, s, a), b)
  {
    var t := Next(cfg, s, a);
    assert [a, b][1..] == [b] && [b][1..] == [];
    assert Possible(cfg, t, [b]) && Paced(cfg, check, t, [b], i, w);
    assert After(cfg, t, [b]) == After(cfg, Next(cfg, t, b), []);
  }

  /** The request can be made, and there is room for it. */
  ghost predicate HasRoom(cfg: Config, s: Sys, i: nat, tx: RawTx, port: Port) {
    i < |s.pools| && |s.pools[i].txs| < cfg.maxPoolSize && PortsBelow(s, port) && |tx| < MAX_LEN
  }

  /** The steps by which a request is made and admitted. */
  function Admission(s: Sys, i: nat, tx: RawTx, port: Port): seq<Action> {
    [Submit(i, tx, port), Deliver(|s.soup|, AppError(""))]
  }

  lemma AdmitFirst(cfg: Config, check: Check, s: Sys, i: nat, tx: RawTx, port: Port, w: nat)
    returns (u: Sys)
    requires HasRoom(cfg, s, i, tx, port) && InFlight(s, i) < w
    ensures u.pools == s.pools && u.soup == s.soup + [CheckReq(i, tx, Some(port))] && PortsBelow(u, port + 1)
    ensures InFlight(u, i) == InFlight(s, i) + 1
    ensures Possible(cfg, s, Admission(s, i, tx, port)) && Paced(cfg, check, s, Admission(s, i, tx, port), i, w)
    ensures After(cfg, s, Admission(s, i, tx, port)) == u
  {
    var a, b := Submit(i, tx, port), Deliver(|s.soup|, AppError(""));
    var t := Next(cfg, s, a);
    u := Sys(s.pools, s.soup + [CheckReq(i, tx, Some(port))], s.log + [Submitted(i, tx, port)]);
    assert Next(cfg, t, b) == u;
    AppendInFlight(s, t, i, AddMsg(i, tx, port));
    AppendInFlight(s, u, i, CheckReq(i, tx, Some(port)));
    TwoSteps(cfg, check, s, a, b, i, w);
  }

  /** A pool with room admits any number of requests before the first verdict arrives. */
  lemma {:induction false} AdmitAll(cfg: Config, check: Check, s: Sys, i: nat, txs: seq<RawTx>, port: Port, w: nat)
    returns (acts: seq<Action>)
    requires i < |s.pools| && |s.pools[i].txs| < cfg.maxPoolSize && PortsBelow(s, port)
    requires InFlight(s, i) + |txs| <= w && forall tx :: tx in txs ==> |tx| < MAX_LEN
    ensures Possible(cfg, s, acts) && Paced(cfg, check, s, acts, i, w)
    ensures After(cfg, s, acts).soup == s.soup + Requests(i, txs, port)
    ensures After(cfg, s, acts).pools == s.pools
    decreases |txs|
  {
    RequestsBehind(s.soup, i, txs, port);
    if txs == [] {
      acts := [];
    } else {
      var first := Admission(s, i, txs[0], port);
      var u := AdmitFirst(cfg, check, s, i, txs[0], port, w);
      var rest := AdmitAll(cfg, check, u, i, txs[1..], port + 1, w);
      PacedComposes(cfg, check, s, first, rest, i, w);
      acts := first + rest;
    }
  }

  /** The transactions are new to the pool, and different from each other. */
  ghost predicate AllNew(check: Check, p: Pool, txs: seq<RawTx>) {
    && Distinct(txs)
    && (forall tx :: tx in txs ==> Good(check, tx) && HashOf(check, tx) !in p.index)
  }

  /** The application is asked about the first transaction. */
  lemma AskFirst(cfg: Config, s: Sys, i: nat, tx: RawTx, port: Port, rest: seq<Packet>, verdict: CheckResult)
    requires i < |s.pools| && s.soup == [CheckReq(i, tx, Some(port))] + rest
    ensures var t := Next(cfg, s, Deliver(0, verdict));
      && t.pools == s.pools && t.soup == rest + [CheckRes(i, tx, verdict, Some(port))]
      && InFlight(t, i) == InFlight(s, i)
  {
    DeliverSum(cfg, s, 0, verdict, CheckAt(i));
    SumOne(CheckRes(i, tx, verdict, Some(port)), CheckAt(i));
    assert Without(s.soup, 0) == rest;
  }

  /** The last packet, a positive verdict for a new transaction, is handled. */
  lemma InsertLast(cfg: Config, s: Sys, i: nat, tx: RawTx, h: TxHash, port: Port, rest: seq<Packet>)
    requires i < |s.pools| && h !in s.pools[i].index
    requires s.soup == rest + [CheckRes(i, tx, Checked(Outcome(h, true)), Some(port))]
    ensures var t := Next(cfg, s, Deliver(|rest|, AppError("")));
      && t.pools == s.pools[i := Insert(s.pools[i], h, tx)] && t.soup == rest + [BroadcastMsg(i, BatchOf(tx))]
      && InFlight(t, i) == InFlight(s, i) - 1
  {
    DeliverSum(cfg, s, |rest|, AppError(""), CheckAt(i));
    SumOne(BroadcastMsg(i, BatchOf(tx)), CheckAt(i));
    assert Without(s.soup, |rest|) == rest;
  }

  lemma InsertKeepsAllNew(check: Check, p: Pool, txs: seq<RawTx>)
    requires AllNew(check, p, txs) && txs != [] && Injective(check)
    ensures AllNew(check, Insert(p, HashOf(check, txs[0]), txs[0]), txs[1..])
  {
    forall tx | tx in txs[1..] ensures HashOf(check, tx) != HashOf(check, txs[0]) {
      assert tx != txs[0];
    }
  }

  /** The steps by which the first of the waiting transactions is judged and pooled. */
  function Judgement(check: Check, tx: RawTx, rest: seq<Packet>): seq<Action> {
    [Deliver(0, check(tx)), Deliver(|rest|, AppError(""))]
  }

  lemma JudgeFirst(cfg: Config, check: Check, s: Sys, i: nat, tx: RawTx, port: Port, rest: seq<Packet>)
    returns (t: Sys)
    requires i < |s.pools| && s.soup == [CheckReq(i, tx, Some(port))] + rest
    requires Good(check, tx) && HashOf(check, tx) !in s.pools[i].index
    ensures t.pools == s.pools[i := Insert(s.pools[i], HashOf(check, tx), tx)]
    ensures t.soup == rest + [BroadcastMsg(i, BatchOf(tx))] && InFlight(t, i) == InFlight(s, i) - 1
    ensures Possible(cfg, s, Judgement(check, tx, rest))
    ensures Paced(cfg, check, s, Judgement(check, tx, rest), i, InFlight(s, i))
    ensures After(cfg, s, Judgement(check, tx, rest)) == t
  {
    var a, b := Deliver(0, check(tx)), Deliver(|rest|, AppError(""));
    AskFirst(cfg, s, i, tx, port, rest, check(tx));
    InsertLast(cfg, Next(cfg, s, a), i, tx, HashOf(check, tx), port, rest);
    t := Next(cfg, Next(cfg, s, a), b);
    TwoSteps(cfg, check, s, a, b, i, InFlight(s, i));
  }

  /** Verdicts that arrive late still put all their transactions into the pool. */
  lemma {:induction false} JudgeAll(
      cfg: Config, check: Check, s: Sys, i: nat, txs: seq<RawTx>, port: Port, tail: seq<Packet>)
    returns (acts: seq<Action>)
    requires i < |s.pools| && s.soup == Requests(i, txs, port) + tail
    requires AllNew(check, s.pools[i], txs) && Injective(check)
    ensures Possible(cfg, s, acts) && Paced(cfg, check, s, acts, i, InFlight(s, i))
    ensures |After(cfg, s, acts).pools| == |s.pools|
    ensures After(cfg, s, acts).pools[i].txs == s.pools[i].txs + txs
    decreases |txs|
  {
    acts := [];
    if txs != [] {
      var tx, rest, sent := txs[0], Requests(i, txs[1..], port + 1) + tail, BroadcastMsg(i, BatchOf(txs[0]));
      RequestsUnfold(i, txs, port, tail, sent);
      var t := JudgeFirst(cfg, check, s, i, tx, port, rest);
      InsertKeepsAllNew(check, s.pools[i], txs);
      var more := JudgeAll(cfg, check, t, i, txs[1..], port + 1, tail + [sent]);
      PacedWeaker(cfg, check, t, more, i, InFlight(t, i), InFlight(s, i));
      PacedComposes(cfg, check, s, Judgement(check, tx, rest), more, i, InFlight(s, i));
      acts := Judgement(check, tx, rest) + more;
      AppendFirst(s.pools[i].txs, txs);
    }
  }

  lemma AppendFirst<T>(s: seq<T>, more: seq<T>)
    requires more != []
    ensures s + [more[0]] + more[1..] == s + more
  {
  }

  /**
   * From rest and with room for a single transaction, `w` new valid transactions, with never more than
   * `w` checks under way, can all get into the pool: it then exceeds its limit by `w - 1`.
   */
  lemma BoundIsReached(cfg: Config, check: Check, s: Sys, i: nat, txs: seq<RawTx>, port: Port) returns (acts: seq<Action>)
    requires i < |s.pools| && s.soup == [] && PortsBelow(s, port)
    requires |s.pools[i].txs| == cfg.maxPoolSize - 1
    requires AllNew(check, s.pools[i], txs) && Injective(check) && forall tx :: tx in txs ==> |tx| < MAX_LEN
    ensures Possible(cfg, s, acts) && Paced(cfg, check, s, acts, i, |txs|)
    ensures i < |After(cfg, s, acts).pools|
    ensures |After(cfg, s, acts).pools[i].txs| == cfg.maxPoolSize + |txs| - 1
  {
    var admit := AdmitAll(cfg, check, s, i, txs, port, |txs|);
    var t := After(cfg, s, admit);
    assert t.soup == Requests(i, txs, port) + [];
    var judge := JudgeAll(cfg, check, t, i, txs, port, []);
    AtTheEnd(cfg, check, s, admit, i, |txs|);
    PacedWeaker(cfg, check, t, judge, i, InFlight(t, i), |txs|);
    PacedComposes(cfg, check, s, admit, judge, i, |txs|);
    acts := admit + judge;
  }
}
