/** All nodes end up with the same pool. */
module Convergence {
  import opened Types
  import opened Pools
  import opened MempoolSpec
  import opened Gossip
  import opened Provenance
  import Wire

  type Check = RawTx -> CheckResult

  /** The application accepts the transaction. */
  predicate Good(check: Check, tx: RawTx) {
    check(tx).Checked? && check(tx).outcome.valid
  }

  function HashOf(check: Check, tx: RawTx): TxHash
    requires Good(check, tx)
  {
    check(tx).outcome.hash
  }

  ghost predicate Injective(check: Check) {
    forall t, u :: Good(check, t) && Good(check, u) && HashOf(check, t) == HashOf(check, u) ==> t == u
  }

  /** Nothing is removed, and every application applies the same check; packets may be lost. */
  ghost predicate Careful(check: Check, s: Sys, a: Action)
    requires Enabled(s, a)
  {
    match a
    case Deliver(k, result) => s.soup[k].CheckReq? ==> result == check(s.soup[k].tx)
    case RemoveAt(_, _, _) => false
    case _ => true
  }

  ghost predicate CarefulRun(cfg: Config, check: Check, s: Sys, acts: seq<Action>)
    requires Possible(cfg, s, acts)
    decreases |acts|
  {
    acts == [] || (Careful(check, s, acts[0]) && CarefulRun(cfg, check, Next(cfg, s, acts[0]), acts[1..]))
  }

  /** Nothing is lost either. */
  ghost predicate Calm(check: Check, s: Sys, a: Action)
    requires Enabled(s, a)
  {
    Careful(check, s, a) && !a.Lose?
  }

  ghost predicate CalmRun(cfg: Config, check: Check, s: Sys, acts: seq<Action>)
    requires Possible(cfg, s, acts)
    decreases |acts|
  {
    acts == [] || (Calm(check, s, acts[0]) && CalmRun(cfg, check, Next(cfg, s, acts[0]), acts[1..]))
  }

  /** The valid transactions submitted so far, at any node. */
  function ValidSubmissions(check: Check, log: seq<Event>): set<RawTx> {
    set e | e in log && e.Submitted? && Good(check, e.tx) :: e.tx
  }

  // ---------------------------------------------------------------------------------------------
  // Coverage
  // ---------------------------------------------------------------------------------------------

  /** Delivering the packet, and what follows from it, brings the transaction to the node. */
  ghost predicate Carries(p: Packet, tx: RawTx, j: nat) {
    match p
    case AddMsg(i, t, _) => i == j && t == tx
    case CheckReq(i, t, _) => i == j && t == tx
    case CheckRes(i, t, _, _) => i == j && t == tx
    case BroadcastMsg(i, batch) => i != j && batch.value == tx
    case WireMsg(_, i, data) => i == j && Encodes(data, tx)
    case NetEvent(_, i, batch) => i == j && batch.value == tx
  }

  ghost predicate OnTheWay(soup: seq<Packet>, tx: RawTx, j: nat) {
    exists p :: p in soup && Carries(p, tx, j)
  }

  /** A packet that would have brought the transaction to the node was lost. */
  ghost predicate LostOnTheWay(log: seq<Event>, tx: RawTx, j: nat) {
    exists p :: Lost(p) in log && Carries(p, tx, j)
  }

  ghost predicate Covered(s: Sys, tx: RawTx, j: nat)
    requires j < |s.pools|
  {
    tx in s.pools[j].txs || OnTheWay(s.soup, tx, j) || LostOnTheWay(s.log, tx, j)
  }

  /** Somebody gossiped the transaction, or it was submitted at this node. */
  ghost predicate Due(log: seq<Event>, tx: RawTx, j: nat) {
    WasSubmitted(log, j, tx) || exists i :: InsertedLocally(log, i, tx)
  }

  /** Every pooled transaction is valid and indexed by its own hash. */
  ghost predicate GoodPool(check: Check, p: Pool) {
    Valid(p) && forall h :: h in p.index ==> Good(check, p.txs[p.index[h]]) && HashOf(check, p.txs[p.index[h]]) == h
  }

  ghost predicate Verdict(check: Check, p: Packet) {
    p.CheckRes? ==> p.result == check(p.tx)
  }

  ghost predicate AllCovered(check: Check, s: Sys) {
    forall tx, j :: 0 <= j < |s.pools| && Good(check, tx) && Due(s.log, tx, j) ==> Covered(s, tx, j)
  }

  ghost predicate OnCourse(check: Check, s: Sys) {
    && Traced(s)
    && (forall p :: p in s.soup ==> Verdict(check, p))
    && (forall i :: 0 <= i < |s.pools| ==> GoodPool(check, s.pools[i]))
    && (forall e :: e in s.log && e.Submitted? ==> e.node < |s.pools|)
    && AllCovered(check, s)
  }

  // ---------------------------------------------------------------------------------------------
  // Room
  // ---------------------------------------------------------------------------------------------

  lemma GoodPoolIsDistinct(check: Check, p: Pool)
    requires GoodPool(check, p)
    ensures Distinct(p.txs)
    ensures forall tx :: tx in p.txs ==>
      Good(check, tx) && HashOf(check, tx) in p.index && p.txs[p.index[HashOf(check, tx)]] == tx
  {
    forall i | 0 <= i < |p.txs|
      ensures Good(check, p.txs[i]) && HashOf(check, p.txs[i]) in p.index && p.index[HashOf(check, p.txs[i])] == i
    {
      assert KeyAt(p, i) in p.index;
    }
  }

  /** What a traced state pools was submitted somewhere. */
  lemma PooledIsSubmitted(check: Check, s: Sys, i: nat, tx: RawTx)
    requires OnCourse(check, s) && i < |s.pools| && tx in s.pools[i].txs
    ensures tx in ValidSubmissions(check, s.log)
    ensures exists k :: InsertedLocally(s.log, k, tx)
  {
    var p := s.pools[i];
    GoodPoolIsDistinct(check, p);
    var h := HashOf(check, tx);
    var local :| Inserted(i, p.txs[p.index[h]], h, local) in s.log;
    var k :| 0 <= k < |s.log| && s.log[k] == Inserted(i, tx, h, local);
    assert EventTraced(s.log[..k], s.log[k]);
    EarlierIsInLog(s.log, k, i, tx);
    var src := i;
    if local {
      assert InsertedLocally(s.log, i, tx);
    } else {
      src :| InsertedLocally(s.log, src, tx);
    }
    LocalInsertOriginates(s.log, src, tx);
    var port :| Submitted(src, tx, port) in s.log;
  }

  /** A full pool already holds every valid transaction, if there are no more of them than it may hold. */
  lemma FullPoolHasAll(cfg: Config, check: Check, s: Sys, i: nat, all: set<RawTx>)
    requires OnCourse(check, s) && i < |s.pools| && |s.pools[i].txs| >= cfg.maxPoolSize
    requires ValidSubmissions(check, s.log) <= all && |all| <= cfg.maxPoolSize
    ensures forall tx :: tx in all ==> tx in s.pools[i].txs
  {
    var txs := s.pools[i].txs;
    GoodPoolIsDistinct(check, s.pools[i]);
    DistinctCardinality(txs);
    forall tx | tx in txs ensures tx in all {
      PooledIsSubmitted(check, s, i, tx);
    }
    SubsetCardinality(Elements(txs), all);
  }

  // ---------------------------------------------------------------------------------------------
  // One delivery
  // ---------------------------------------------------------------------------------------------

  /** Handling a packet brings its transaction a step closer, unless the node has it already. */
  lemma ReactionCarriesOn(
      cfg: Config, check: Check, n: nat, p: Pool, log: seq<Event>, packet: Packet, result: CheckResult,
      tx: RawTx, j: nat)
    requires GoodPool(check, p) && Injective(check) && Good(check, tx) && j < n
    requires PacketTraced(log, packet) && Verdict(check, packet) && Carries(packet, tx, j)
    requires |p.txs| < cfg.maxPoolSize || packet.node != j || tx in p.txs
    ensures var r := React(cfg, n, p, packet, result);
      (packet.node == j && tx in r.pool.txs) || OnTheWay(r.out, tx, j)
  {
    var r := React(cfg, n, p, packet, result);
    match packet
    case CheckRes(i, t, verdict, reply) =>
      if !Admits(p, verdict) {
        var other := p.txs[p.index[HashOf(check, tx)]];
        assert HashOf(check, other) == HashOf(check, tx);
        assert other == tx;
      }
    case BroadcastMsg(i, batch) =>
      var data := Wire.ToNetworkBytes(batch);
      FanoutTargets(n, i, data, WireMsg(i, j, data));
      assert Carries(WireMsg(i, j, data), tx, j);
    case WireMsg(src, i, data) =>
      WireDelivers(data, tx);
      assert r.out[0] in r.out && Carries(r.out[0], tx, j);
    case _ =>
      if r.out != [] {
        assert r.out[0] in r.out && Carries(r.out[0], tx, j);
      }
  }

  lemma ReactionIsGood(cfg: Config, check: Check, n: nat, p: Pool, packet: Packet, result: CheckResult)
    requires GoodPool(check, p) && Verdict(check, packet)
    requires packet.CheckReq? ==> result == check(packet.tx)
    ensures GoodPool(check, React(cfg, n, p, packet, result).pool)
    ensures forall q :: q in React(cfg, n, p, packet, result).out ==> Verdict(check, q)
  {
    if packet.CheckRes? && Admits(p, packet.result) {
      InsertIsMapUpdate(p, packet.result.outcome.hash, packet.tx);
    }
    if packet.BroadcastMsg? {
      forall q | q in React(cfg, n, p, packet, result).out ensures Verdict(check, q) {
        FanoutTargets(n, packet.node, Wire.ToNetworkBytes(packet.batch), q);
      }
    }
  }

  lemma DueSplit(log: seq<Event>, more: seq<Event>, tx: RawTx, j: nat)
    requires Due(log + more, tx, j)
    ensures Due(log, tx, j) || Due(more, tx, j)
  {
    if WasSubmitted(log + more, j, tx) {
      var port :| Submitted(j, tx, port) in log + more;
      assert Submitted(j, tx, port) in log || Submitted(j, tx, port) in more;
    } else {
      var i :| InsertedLocally(log + more, i, tx);
      var h :| Inserted(i, tx, h, true) in log + more;
      assert Inserted(i, tx, h, true) in log || Inserted(i, tx, h, true) in more;
      assert InsertedLocally(log, i, tx) || InsertedLocally(more, i, tx);
    }
  }

  /** What becomes due by a reaction is covered by it. */
  lemma NewlyDue(cfg: Config, n: nat, p: Pool, packet: Packet, result: CheckResult, tx: RawTx, j: nat)
    requires Due(React(cfg, n, p, packet, result).events, tx, j)
    ensures var r := React(cfg, n, p, packet, result);
      if packet.node == j then tx in r.pool.txs else OnTheWay(r.out, tx, j)
  {
    var r := React(cfg, n, p, packet, result);
    var i :| InsertedLocally(r.events, i, tx);
    var h :| Inserted(i, tx, h, true) in r.events;
    assert r.out == [BroadcastMsg(packet.node, BatchOf(tx))];
    assert packet.node != j ==> r.out[0] in r.out && Carries(r.out[0], tx, j);
  }

  lemma StaysCovered(
      cfg: Config, check: Check, s: Sys, k: nat, result: CheckResult, all: set<RawTx>, tx: RawTx, j: nat)
    requires Enabled(s, Deliver(k, result)) && OnCourse(check, s) && Injective(check)
    requires ValidSubmissions(check, s.log) <= all && |all| <= cfg.maxPoolSize
    requires j < |s.pools| && Good(check, tx) && tx in all && Covered(s, tx, j)
    ensures Covered(Next(cfg, s, Deliver(k, result)), tx, j)
  {
    var packet := s.soup[k];
    var n, p, t := |s.pools|, s.pools[packet.node], Next(cfg, s, Deliver(k, result));
    var r := React(cfg, n, p, packet, result);
    if tx in s.pools[j].txs {
      assert tx in t.pools[j].txs;
    } else if LostOnTheWay(s.log, tx, j) {
      LossStaysOnRecord(s.log, r.events, tx, j);
    } else {
      var q :| q in s.soup && Carries(q, tx, j);
      if q == packet {
        if packet.node == j && |p.txs| >= cfg.maxPoolSize {
          FullPoolHasAll(cfg, check, s, j, all);
        }
        ReactionCarriesOn(cfg, check, n, p, s.log, packet, result, tx, j);
        if OnTheWay(r.out, tx, j) {
          MoreOnTheWay(Without(s.soup, k), r.out, tx, j);
        }
      } else {
        assert q in Without(s.soup, k);
        assert q in t.soup;
      }
    }
  }

  lemma LossStaysOnRecord(log: seq<Event>, more: seq<Event>, tx: RawTx, j: nat)
    requires LostOnTheWay(log, tx, j)
    ensures LostOnTheWay(log + more, tx, j)
  {
    var p :| Lost(p) in log && Carries(p, tx, j);
    assert Lost(p) in log + more;
  }

  lemma MoreOnTheWay(soup: seq<Packet>, more: seq<Packet>, tx: RawTx, j: nat)
    requires OnTheWay(soup, tx, j) || OnTheWay(more, tx, j)
    ensures OnTheWay(soup + more, tx, j)
  {
    var p :| (p in soup || p in more) && Carries(p, tx, j);
    assert p in soup + more;
  }

  /** What is due is on record as submitted. */
  lemma DueIsSubmitted(check: Check, log: seq<Event>, tx: RawTx, j: nat)
    requires LogTraced(log) && Due(log, tx, j) && Good(check, tx)
    ensures tx in ValidSubmissions(check, log)
  {
    var i := j;
    if !WasSubmitted(log, j, tx) {
      i :| InsertedLocally(log, i, tx);
      LocalInsertOriginates(log, i, tx);
    }
    var port :| Submitted(i, tx, port) in log;
  }

  lemma DeliverKeepsCovered(cfg: Config, check: Check, s: Sys, k: nat, result: CheckResult, all: set<RawTx>)
    requires Enabled(s, Deliver(k, result)) && OnCourse(check, s) && Injective(check)
    requires ValidSubmissions(check, s.log) <= all && |all| <= cfg.maxPoolSize
    ensures AllCovered(check, Next(cfg, s, Deliver(k, result)))
  {
    var packet := s.soup[k];
    var n, p, t := |s.pools|, s.pools[packet.node], Next(cfg, s, Deliver(k, result));
    var r := React(cfg, n, p, packet, result);
    forall tx, j | 0 <= j < n && Good(check, tx) && Due(t.log, tx, j) ensures Covered(t, tx, j) {
      DueSplit(s.log, r.events, tx, j);
      if Due(s.log, tx, j) {
        DueIsSubmitted(check, s.log, tx, j);
        StaysCovered(cfg, check, s, k, result, all, tx, j);
      } else {
        NewlyDue(cfg, n, p, packet, result, tx, j);
        if packet.node != j {
          MoreOnTheWay(Without(s.soup, k), r.out, tx, j);
        }
      }
    }
  }

  lemma DeliverKeepsOnCourse(cfg: Config, check: Check, s: Sys, k: nat, result: CheckResult, all: set<RawTx>)
    requires Enabled(s, Deliver(k, result)) && Careful(check, s, Deliver(k, result))
    requires OnCourse(check, s) && Injective(check)
    requires ValidSubmissions(check, s.log) <= all && |all| <= cfg.maxPoolSize
    ensures OnCourse(check, Next(cfg, s, Deliver(k, result)))
  {
    var packet, t := s.soup[k], Next(cfg, s, Deliver(k, result));
    NextKeepsTraced(cfg, s, Deliver(k, result));
    DeliverKeepsCovered(cfg, check, s, k, result, all);
    ReactionIsGood(cfg, check, |s.pools|, s.pools[packet.node], packet, result);
    forall q | q in t.soup ensures Verdict(check, q) {
    }
    forall e | e in t.log && e.Submitted? ensures e.node < |t.pools| {
    }
  }

  lemma SubmitKeepsOnCourse(cfg: Config, check: Check, s: Sys, i: nat, tx: RawTx, port: Port)
    requires Enabled(s, Submit(i, tx, port)) && OnCourse(check, s)
    ensures OnCourse(check, Next(cfg, s, Submit(i, tx, port)))
  {
    var t := Next(cfg, s, Submit(i, tx, port));
    NextKeepsTraced(cfg, s, Submit(i, tx, port));
    forall u, j | 0 <= j < |s.pools| && Good(check, u) && Due(t.log, u, j) ensures Covered(t, u, j) {
      DueSplit(s.log, [Submitted(i, tx, port)], u, j);
      if Due(s.log, u, j) {
        if OnTheWay(s.soup, u, j) {
          MoreOnTheWay(s.soup, [AddMsg(i, tx, port)], u, j);
        } else if LostOnTheWay(s.log, u, j) {
          LossStaysOnRecord(s.log, [Submitted(i, tx, port)], u, j);
        }
      } else {
        assert u == tx && j == i;
        assert Carries(AddMsg(i, tx, port), u, j);
        assert AddMsg(i, tx, port) in t.soup;
      }
    }
  }

  lemma LoseKeepsOnCourse(cfg: Config, check: Check, s: Sys, k: nat)
    requires Enabled(s, Lose(k)) && OnCourse(check, s)
    ensures OnCourse(check, Next(cfg, s, Lose(k)))
  {
    var t, gone := Next(cfg, s, Lose(k)), s.soup[k];
    NextKeepsTraced(cfg, s, Lose(k));
    forall tx, j | 0 <= j < |s.pools| && Good(check, tx) && Due(t.log, tx, j) ensures Covered(t, tx, j) {
      DueSplit(s.log, [Lost(gone)], tx, j);
      assert Covered(s, tx, j);
      if LostOnTheWay(s.log, tx, j) {
        LossStaysOnRecord(s.log, [Lost(gone)], tx, j);
      } else if OnTheWay(s.soup, tx, j) {
        LoseOne(s, k, tx, j);
      }
    }
  }

  /** What was on the way still is, or its loss is on record. */
  lemma LoseOne(s: Sys, k: nat, tx: RawTx, j: nat)
    requires k < |s.soup| && OnTheWay(s.soup, tx, j)
    ensures OnTheWay(Without(s.soup, k), tx, j) || LostOnTheWay(s.log + [Lost(s.soup[k])], tx, j)
  {
    var p :| p in s.soup && Carries(p, tx, j);
    if p == s.soup[k] {
      assert Lost(p) in s.log + [Lost(p)];
    } else {
      assert p in Without(s.soup, k);
    }
  }

  // ---------------------------------------------------------------------------------------------
  // Runs
  // ---------------------------------------------------------------------------------------------

  lemma {:induction false} LogOnlyGrows(cfg: Config, s: Sys, acts: seq<Action>)
    requires Possible(cfg, s, acts)
    ensures s.log <= After(cfg, s, acts).log
    decreases |acts|
  {
    if acts != [] {
      LogOnlyGrows(cfg, Next(cfg, s, acts[0]), acts[1..]);
    }
  }

  lemma {:induction false} RunKeepsOnCourse(cfg: Config, check: Check, s: Sys, acts: seq<Action>)
    requires Possible(cfg, s, acts) && CarefulRun(cfg, check, s, acts)
    requires OnCourse(check, s) && Injective(check)
    requires |ValidSubmissions(check, After(cfg, s, acts).log)| <= cfg.maxPoolSize
    ensures OnCourse(check, After(cfg, s, acts)) && |After(cfg, s, acts).pools| == |s.pools|
    decreases |acts|
  {
    if acts != [] {
      LogOnlyGrows(cfg, s, acts);
      match acts[0] {
        case Submit(i, tx, port) => SubmitKeepsOnCourse(cfg, check, s, i, tx, port);
        case Deliver(k, result) =>
          DeliverKeepsOnCourse(cfg, check, s, k, result, ValidSubmissions(check, After(cfg, s, acts).log));
        case Lose(k) => LoseKeepsOnCourse(cfg, check, s, k);
      }
      RunKeepsOnCourse(cfg, check, Next(cfg, s, acts[0]), acts[1..]);
    }
  }

  /** The pool holds exactly these transactions, each under its own hash. */
  ghost predicate Holds(check: Check, p: Pool, all: set<RawTx>) {
    && Valid(p)
    && (forall tx :: tx in all ==> Good(check, tx) && HashOf(check, tx) in View(p) && View(p)[HashOf(check, tx)] == tx)
    && (forall h :: h in View(p) ==> View(p)[h] in all && HashOf(check, View(p)[h]) == h)
  }

  lemma HoldsDeterminesView(check: Check, p: Pool, q: Pool, all: set<RawTx>)
    requires Holds(check, p, all) && Holds(check, q, all)
    ensures View(p) == View(q)
  {
    forall h | h in View(p) ensures h in View(q) && View(q)[h] == View(p)[h] {
      assert View(p)[h] in all;
    }
    forall h | h in View(q) ensures h in View(p) {
      assert View(q)[h] in all;
    }
  }

  lemma HoldsElements(check: Check, p: Pool, all: set<RawTx>)
    requires Holds(check, p, all)
    ensures Elements(p.txs) == all && |p.txs| == |all|
  {
    forall h | h in p.index ensures p.txs[p.index[h]] in all && HashOf(check, p.txs[p.index[h]]) == h {
      assert View(p)[h] in all;
    }
    assert GoodPool(check, p);
    GoodPoolIsDistinct(check, p);
    DistinctCardinality(p.txs);
    forall tx | tx in p.txs ensures tx in all {
      assert HashOf(check, tx) in p.index;
    }
    forall tx | tx in all ensures tx in p.txs {
      assert View(p)[HashOf(check, tx)] == tx;
    }
  }

  /** A valid transaction submitted somewhere is in the pool, or a loss on its way explains why not. */
  ghost predicate PooledOrLost(s: Sys, tx: RawTx, j: nat)
    requires j < |s.pools|
  {
    || tx in s.pools[j].txs
    || LostOnTheWay(s.log, tx, j)
    || exists i :: WasSubmitted(s.log, i, tx) && LostOnTheWay(s.log, tx, i)
  }

  lemma QuiescentIsComplete(check: Check, s: Sys, j: nat, tx: RawTx)
    requires OnCourse(check, s) && s.soup == [] && j < |s.pools| && tx in ValidSubmissions(check, s.log)
    ensures PooledOrLost(s, tx, j)
  {
    var e :| e in s.log && e.Submitted? && e.tx == tx;
    assert Submitted(e.node, tx, e.port) in s.log;
    assert Due(s.log, tx, e.node) && Covered(s, tx, e.node);
    if tx in s.pools[e.node].txs {
      PooledIsSubmitted(check, s, e.node, tx);
      assert Due(s.log, tx, j) && Covered(s, tx, j);
    } else {
      assert WasSubmitted(s.log, e.node, tx) && LostOnTheWay(s.log, tx, e.node);
    }
  }

  /**
   * With losses, once nothing is under way any more, a pool holds valid submissions only, each under its own
   * hash, and it lacks one only if a packet is on record as lost that would have brought it there, or to a node
   * where it was submitted.
   */
  lemma MissingOnlyByLoss(cfg: Config, check: Check, n: nat, acts: seq<Action>, j: nat)
    requires Possible(cfg, Start(n), acts) && CarefulRun(cfg, check, Start(n), acts) && Injective(check)
    requires After(cfg, Start(n), acts).soup == [] && j < n
    requires |ValidSubmissions(check, After(cfg, Start(n), acts).log)| <= cfg.maxPoolSize
    ensures var s := After(cfg, Start(n), acts);
      && |s.pools| == n && GoodPool(check, s.pools[j]) && Elements(s.pools[j].txs) <= ValidSubmissions(check, s.log)
      && forall tx :: tx in ValidSubmissions(check, s.log) ==> PooledOrLost(s, tx, j)
  {
    RunKeepsOnCourse(cfg, check, Start(n), acts);
    var s := After(cfg, Start(n), acts);
    forall tx | tx in s.pools[j].txs ensures tx in ValidSubmissions(check, s.log) {
      PooledIsSubmitted(check, s, j, tx);
    }
    forall tx | tx in ValidSubmissions(check, s.log) ensures PooledOrLost(s, tx, j) {
      QuiescentIsComplete(check, s, j, tx);
    }
  }

  lemma {:induction false} CalmRunsLoseNothing(cfg: Config, check: Check, s: Sys, acts: seq<Action>)
    requires Possible(cfg, s, acts) && CalmRun(cfg, check, s, acts) && forall e :: e in s.log ==> !e.Lost?
    ensures CarefulRun(cfg, check, s, acts) && forall e :: e in After(cfg, s, acts).log ==> !e.Lost?
    decreases |acts|
  {
    if acts != [] {
      CalmRunsLoseNothing(cfg, check, Next(cfg, s, acts[0]), acts[1..]);
    }
  }

  lemma GoodPoolHolds(check: Check, p: Pool, all: set<RawTx>)
    requires GoodPool(check, p) && Elements(p.txs) == all
    ensures Holds(check, p, all)
  {
    GoodPoolIsDistinct(check, p);
    assert forall tx :: tx in all ==> tx in p.txs;
  }

  /**
   * Whatever the interleaving, once nothing is under way any more all nodes hold the same pool: exactly the
   * valid transactions that were submitted, provided there are no more of them than a pool may hold.
   */
  lemma AllPoolsConverge(cfg: Config, check: Check, n: nat, acts: seq<Action>)
    requires Possible(cfg, Start(n), acts) && CalmRun(cfg, check, Start(n), acts) && Injective(check)
    requires After(cfg, Start(n), acts).soup == []
    requires |ValidSubmissions(check, After(cfg, Start(n), acts).log)| <= cfg.maxPoolSize
    ensures var s := After(cfg, Start(n), acts);
      && |s.pools| == n
      && (forall j :: 0 <= j < n ==> Holds(check, s.pools[j], ValidSubmissions(check, s.log)))
      && (forall i, j :: 0 <= i < n && 0 <= j < n ==> View(s.pools[i]) == View(s.pools[j]))
  {
    CalmRunsLoseNothing(cfg, check, Start(n), acts);
    RunKeepsOnCourse(cfg, check, Start(n), acts);
    var s := After(cfg, Start(n), acts);
    var all := ValidSubmissions(check, s.log);
    forall j | 0 <= j < n ensures Holds(check, s.pools[j], all) {
      MissingOnlyByLoss(cfg, check, n, acts, j);
      assert forall tx :: tx in all ==> PooledOrLost(s, tx, j);
      GoodPoolHolds(check, s.pools[j], all);
    }
    forall i, j | 0 <= i < n && 0 <= j < n ensures View(s.pools[i]) == View(s.pools[j]) {
      HoldsDeterminesView(check, s.pools[i], s.pools[j], all);
    }
  }
}
