/** Runs without loss can always be finished, and convergence needs exactly the room it asks for. */
module Quiescence {
  import opened Types
  import opened Pools
  import opened Gossip
  import opened Provenance
  import opened Convergence
  import opened Pacing
  import Capacity
  import Termination
  import Wire

  /** Every packet is meant for an existing node. */
  ghost predicate InRange(s: Sys) {
    forall p :: p in s.soup ==> p.node < |s.pools|
  }

  lemma ReactionInRange(cfg: Config, n: nat, p: Pool, packet: Packet, result: CheckResult)
    requires packet.node < n
    ensures forall q :: q in React(cfg, n, p, packet, result).out ==> q.node < n
  {
    if packet.BroadcastMsg? {
      forall q | q in React(cfg, n, p, packet, result).out ensures q.node < n {
        FanoutTargets(n, packet.node, Wire.ToNetworkBytes(packet.batch), q);
      }
    }
  }

  lemma NextInRange(cfg: Config, s: Sys, a: Action)
    requires Enabled(s, a) && InRange(s)
    ensures InRange(Next(cfg, s, a)) && |Next(cfg, s, a).pools| == |s.pools|
  {
    if a.Deliver? {
      ReactionInRange(cfg, |s.pools|, s.pools[s.soup[a.k].node], s.soup[a.k], a.result);
    }
  }

  /** The delivery of the oldest packet, with an honest verdict. */
  function Oldest(check: Check, s: Sys): Action
    requires s.soup != []
  {
    Deliver(0, match s.soup[0] case CheckReq(_, tx, _) => check(tx) case _ => AppError(""))
  }

  /** Delivering the oldest packet again and again empties the system. */
  ghost function Finish(cfg: Config, check: Check, s: Sys): (acts: seq<Action>)
    requires InRange(s) && |s.pools| > 0
    ensures Possible(cfg, s, acts) && CalmRun(cfg, check, s, acts)
    ensures After(cfg, s, acts).soup == [] && |After(cfg, s, acts).pools| == |s.pools|
    decreases Termination.Total(s)
  {
    if s.soup == [] then []
    else
      var a := Oldest(check, s);
      OldestIsCalm(cfg, check, s);
      var rest := Finish(cfg, check, Next(cfg, s, a));
      StepFirst(cfg, check, s, a, rest);
      [a] + rest
  }

  lemma StepFirst(cfg: Config, check: Check, s: Sys, a: Action, rest: seq<Action>)
    requires Enabled(s, a) && Calm(check, s, a)
    requires Possible(cfg, Next(cfg, s, a), rest) && CalmRun(cfg, check, Next(cfg, s, a), rest)
    ensures Possible(cfg, s, [a] + rest) && CalmRun(cfg, check, s, [a] + rest)
    ensures After(cfg, s, [a] + rest) == After(cfg, Next(cfg, s, a), rest)
  {
    assert ([a] + rest)[1..] == rest;
  }

  /** The delivery is possible and calm, and leaves less work. */
  lemma OldestIsCalm(cfg: Config, check: Check, s: Sys)
    requires InRange(s) && |s.pools| > 0 && s.soup != []
    ensures Enabled(s, Oldest(check, s)) && Calm(check, s, Oldest(check, s))
    ensures var t := Next(cfg, s, Oldest(check, s));
      InRange(t) && |t.pools| == |s.pools| && Termination.Total(t) < Termination.Total(s)
  {
    assert s.soup[0] in s.soup;
    NextInRange(cfg, s, Oldest(check, s));
    Termination.StepTotal(cfg, s, Oldest(check, s));
  }

  lemma {:induction false} RunInRange(cfg: Config, s: Sys, acts: seq<Action>)
    requires Possible(cfg, s, acts) && InRange(s)
    ensures InRange(After(cfg, s, acts)) && |After(cfg, s, acts).pools| == |s.pools|
    decreases |acts|
  {
    if acts != [] {
      NextInRange(cfg, s, acts[0]);
      RunInRange(cfg, Next(cfg, s, acts[0]), acts[1..]);
    }
  }

  /**
   * Whatever has happened, with losses and removals, the system can be brought to rest from there without loss
   * and without further submissions.
   */
  lemma EveryStateCanComeToRest(cfg: Config, check: Check, n: nat, acts: seq<Action>)
    requires n > 0 && Possible(cfg, Start(n), acts)
    ensures var s := After(cfg, Start(n), acts);
      exists more ::
        && Possible(cfg, s, more) && CalmRun(cfg, check, s, more)
        && After(cfg, s, more).soup == [] && Sum(more, Termination.IsSubmission) == 0
  {
    var s := After(cfg, Start(n), acts);
    RunInRange(cfg, Start(n), acts);
    FinishSubmitsNothing(cfg, check, s);
    assert Possible(cfg, s, Finish(cfg, check, s));
  }

  lemma FinishFirst(cfg: Config, check: Check, s: Sys, a: Action, t: Sys)
    requires InRange(s) && |s.pools| > 0 && s.soup != []
    requires a == Oldest(check, s) && Enabled(s, a) && t == Next(cfg, s, a) && InRange(t) && |t.pools| > 0
    ensures Finish(cfg, check, s) == [a] + Finish(cfg, check, t)
  {
  }

  lemma FinishUnfolds(cfg: Config, check: Check, s: Sys)
    requires InRange(s) && |s.pools| > 0 && s.soup != []
    ensures Enabled(s, Oldest(check, s)) && Calm(check, s, Oldest(check, s))
    ensures var t := Next(cfg, s, Oldest(check, s));
      && InRange(t) && |t.pools| == |s.pools| && Termination.Total(t) < Termination.Total(s)
      && Finish(cfg, check, s) == [Oldest(check, s)] + Finish(cfg, check, t)
      && After(cfg, s, Finish(cfg, check, s)) == After(cfg, t, Finish(cfg, check, t))
  {
    var a := Oldest(check, s);
    OldestIsCalm(cfg, check, s);
    var t := Next(cfg, s, a);
    FinishFirst(cfg, check, s, a, t);
    StepFirst(cfg, check, s, a, Finish(cfg, check, t));
  }

  lemma {:induction false} FinishSubmitsNothing(cfg: Config, check: Check, s: Sys)
    requires InRange(s) && |s.pools| > 0
    ensures Sum(Finish(cfg, check, s), Termination.IsSubmission) == 0
    decreases Termination.Total(s)
  {
    if s.soup != [] {
      var a := Oldest(check, s);
      var t := Next(cfg, s, a);
      FinishUnfolds(cfg, check, s);
      FinishSubmitsNothing(cfg, check, t);
      SumSplit([a], Finish(cfg, check, t), Termination.IsSubmission);
      SumOne(a, Termination.IsSubmission);
    }
  }

  lemma DeliverLogsNoSubmission(cfg: Config, s: Sys, a: Action)
    requires Enabled(s, a) && a.Deliver?
    ensures forall e :: e in Next(cfg, s, a).log && e.Submitted? ==> e in s.log
  {
  }

  lemma {:induction false} FinishLogsNoSubmission(cfg: Config, check: Check, s: Sys)
    requires InRange(s) && |s.pools| > 0
    ensures forall e :: e in After(cfg, s, Finish(cfg, check, s)).log && e.Submitted? ==> e in s.log
    decreases Termination.Total(s)
  {
    if s.soup != [] {
      FinishUnfolds(cfg, check, s);
      DeliverLogsNoSubmission(cfg, s, Oldest(check, s));
      FinishLogsNoSubmission(cfg, check, Next(cfg, s, Oldest(check, s)));
    }
  }

  // ---------------------------------------------------------------------------------------------
  // The room convergence needs
  // ---------------------------------------------------------------------------------------------

  /** The packet is meant for the node. */
  function At(i: nat): Packet -> nat {
    (p: Packet) => if p.node == i then 1 else 0
  }

  /** What reaches a node by gossip, and what follows from it. */
  predicate Foreign(p: Packet) {
    p.WireMsg? || p.NetEvent? || ((p.CheckReq? || p.CheckRes?) && p.reply == None)
  }

  /** The node has at most one packet to handle, and whatever the others have reaches them by gossip. */
  ghost predicate OneAtATime(s: Sys, i: nat) {
    && Sum(s.soup, At(i)) <= 1
    && (forall p :: p in s.soup ==> p.node == i || Foreign(p))
  }

  lemma {:induction false} SumAtMost<T>(s: seq<T>, v: T -> nat, w: T -> nat)
    requires forall x :: x in s ==> v(x) <= w(x)
    ensures Sum(s, v) <= Sum(s, w)
  {
    if s != [] {
      SumLast(s, v);
      SumLast(s, w);
      SumAtMost(s[..|s| - 1], v, w);
    }
  }

  lemma ReactionForeign(cfg: Config, n: nat, p: Pool, packet: Packet, result: CheckResult, i: nat)
    requires packet.node == i || Foreign(packet)
    ensures forall q :: q in React(cfg, n, p, packet, result).out ==> q.node == i || Foreign(q)
  {
    if packet.BroadcastMsg? {
      var data := Wire.ToNetworkBytes(packet.batch);
      forall q | q in Fanout(n, packet.node, data) ensures Foreign(q) {
        FanoutTargets(n, packet.node, data, q);
      }
    }
  }

  lemma ReactionAt(cfg: Config, n: nat, p: Pool, packet: Packet, result: CheckResult, i: nat)
    requires packet.node == i || Foreign(packet)
    ensures Sum(React(cfg, n, p, packet, result).out, At(i)) <= At(i)(packet)
  {
    if packet.BroadcastMsg? {
      var data := Wire.ToNetworkBytes(packet.batch);
      forall q | q in Fanout(n, i, data) ensures At(i)(q) == 0 {
        FanoutTargets(n, i, data, q);
      }
      SumZero(Fanout(n, i, data), At(i));
    } else {
      SmallSum(React(cfg, n, p, packet, result).out, At(i));
    }
  }

  lemma {:induction false} SumZero<T>(s: seq<T>, w: T -> nat)
    requires forall x :: x in s ==> w(x) == 0
    ensures Sum(s, w) == 0
  {
    if s != [] {
      SumLast(s, w);
      SumZero(s[..|s| - 1], w);
    }
  }

  lemma DeliverOneAtATime(cfg: Config, s: Sys, k: nat, result: CheckResult, i: nat)
    requires Enabled(s, Deliver(k, result)) && OneAtATime(s, i)
    ensures OneAtATime(Next(cfg, s, Deliver(k, result)), i)
  {
    var n, packet := |s.pools|, s.soup[k];
    DeliverSum(cfg, s, k, result, At(i));
    ReactionAt(cfg, n, s.pools[packet.node], packet, result, i);
    ReactionForeign(cfg, n, s.pools[packet.node], packet, result, i);
  }

  lemma OneCheckAtATime(s: Sys, i: nat)
    requires OneAtATime(s, i)
    ensures Capacity.InFlight(s, i) <= 1
  {
    SumAtMost(s.soup, Capacity.CheckAt(i), At(i));
  }

  /** With one packet at a time, a node never has more than one check under way. */
  lemma {:induction false} FinishIsPaced(cfg: Config, check: Check, s: Sys, i: nat)
    requires InRange(s) && |s.pools| > 0 && OneAtATime(s, i)
    ensures Paced(cfg, check, s, Finish(cfg, check, s), i, 1)
    decreases Termination.Total(s)
  {
    OneCheckAtATime(s, i);
    if s.soup != [] {
      var a := Oldest(check, s);
      FinishUnfolds(cfg, check, s);
      DeliverOneAtATime(cfg, s, 0, a.result, i);
      FinishIsPaced(cfg, check, Next(cfg, s, a), i);
      PacedFirst(cfg, check, s, a, Finish(cfg, check, Next(cfg, s, a)), i, 1);
    }
  }

  lemma PacedFirst(cfg: Config, check: Check, s: Sys, a: Action, rest: seq<Action>, i: nat, w: nat)
    requires Enabled(s, a) && Calm(check, s, a) && Capacity.InFlight(s, i) <= w
    requires Possible(cfg, Next(cfg, s, a), rest) && Paced(cfg, check, Next(cfg, s, a), rest, i, w)
    ensures Possible(cfg, s, [a] + rest) && Paced(cfg, check, s, [a] + rest, i, w)
    ensures After(cfg, s, [a] + rest) == After(cfg, Next(cfg, s, a), rest)
  {
    assert ([a] + rest)[1..] == rest;
  }

  /** A resting system in which these transactions were submitted, in this order. */
  ghost predicate Served(check: Check, n: nat, s: Sys, txs: seq<RawTx>) {
    && s.soup == [] && |s.pools| == n
    && ValidSubmissions(check, s.log) == Elements(txs)
    && (forall e :: e in s.log && e.Submitted? ==> e.port < |txs|)
  }

  /** One more request at the node, followed by rest. */
  lemma ServeOne(cfg: Config, check: Check, n: nat, i: nat, s: Sys, txs: seq<RawTx>, tx: RawTx)
    returns (acts: seq<Action>)
    requires Served(check, n, s, txs) && i < n && Good(check, tx) && |tx| < MAX_LEN
    ensures Possible(cfg, s, acts) && Paced(cfg, check, s, acts, i, 1)
    ensures Served(check, n, After(cfg, s, acts), txs + [tx])
  {
    var a := Submit(i, tx, |txs|);
    var t := Next(cfg, s, a);
    SmallSum(t.soup, At(i));
    FinishIsPaced(cfg, check, t, i);
    PacedFirst(cfg, check, s, a, Finish(cfg, check, t), i, 1);
    SubmissionsAfterFinish(cfg, check, s, i, tx, |txs|);
    acts := [a] + Finish(cfg, check, t);
  }

  lemma SubmissionsAfterFinish(cfg: Config, check: Check, s: Sys, i: nat, tx: RawTx, port: Port)
    requires Enabled(s, Submit(i, tx, port)) && Good(check, tx) && s.soup == []
    requires InRange(Next(cfg, s, Submit(i, tx, port)))
    ensures var t := Next(cfg, s, Submit(i, tx, port)); var end := After(cfg, t, Finish(cfg, check, t));
      && ValidSubmissions(check, end.log) == ValidSubmissions(check, s.log) + {tx}
      && (forall e :: e in end.log && e.Submitted? ==> e in s.log || e == Submitted(i, tx, port))
  {
    var t := Next(cfg, s, Submit(i, tx, port));
    FinishLogsNoSubmission(cfg, check, t);
    LogOnlyGrows(cfg, t, Finish(cfg, check, t));
    var end := After(cfg, t, Finish(cfg, check, t));
    assert Submitted(i, tx, port) in t.log;
    forall u | u in ValidSubmissions(check, s.log) + {tx} ensures u in ValidSubmissions(check, end.log) {
      if u in ValidSubmissions(check, s.log) {
        var e :| e in s.log && e.Submitted? && e.tx == u;
        assert e in t.log && e in end.log;
      } else {
        assert Submitted(i, tx, port) in end.log;
      }
    }
  }

  /** Requests made one by one at a node, each followed by rest. */
  lemma {:induction false} ServeOneByOne(cfg: Config, check: Check, n: nat, i: nat, txs: seq<RawTx>)
    returns (acts: seq<Action>)
    requires i < n && forall tx :: tx in txs ==> Good(check, tx) && |tx| < MAX_LEN
    ensures Possible(cfg, Start(n), acts) && Paced(cfg, check, Start(n), acts, i, 1)
    ensures Served(check, n, After(cfg, Start(n), acts), txs)
  {
    if txs == [] {
      acts := [];
    } else {
      var last := |txs| - 1;
      var before := ServeOneByOne(cfg, check, n, i, txs[..last]);
      var more := ServeOne(cfg, check, n, i, After(cfg, Start(n), before), txs[..last], txs[last]);
      PacedComposes(cfg, check, Start(n), before, more, i, 1);
      acts := before + more;
      assert txs == txs[..last] + [txs[last]];
    }
  }

  /** Every interleaving of these submissions, brought to rest without loss, leaves all nodes with all of them. */
  ghost predicate AlwaysConverges(cfg: Config, check: Check, n: nat, all: set<RawTx>) {
    forall acts ::
      && Possible(cfg, Start(n), acts) && CalmRun(cfg, check, Start(n), acts)
      && After(cfg, Start(n), acts).soup == []
      && ValidSubmissions(check, After(cfg, Start(n), acts).log) == all
      ==> forall p :: p in After(cfg, Start(n), acts).pools ==> Holds(check, p, all)
  }

  /** The nodes always converge on a set of valid transactions if and only if a pool has room for all of them. */
  lemma ConvergesIffRoom(cfg: Config, check: Check, n: nat, txs: seq<RawTx>)
    requires n > 0 && Injective(check) && Distinct(txs)
    requires forall tx :: tx in txs ==> Good(check, tx) && |tx| < MAX_LEN
    ensures AlwaysConverges(cfg, check, n, Elements(txs)) <==> |txs| <= cfg.maxPoolSize
  {
    DistinctCardinality(txs);
    if |txs| <= cfg.maxPoolSize {
      forall acts |
        && Possible(cfg, Start(n), acts) && CalmRun(cfg, check, Start(n), acts)
        && After(cfg, Start(n), acts).soup == []
        && ValidSubmissions(check, After(cfg, Start(n), acts).log) == Elements(txs)
        ensures forall p :: p in After(cfg, Start(n), acts).pools ==> Holds(check, p, Elements(txs))
      {
        AllPoolsConverge(cfg, check, n, acts);
      }
    } else {
      var acts := ServeOneByOne(cfg, check, n, 0, txs);
      PacedMeans(cfg, check, Start(n), acts, 0, 1);
      Capacity.CapacityBound(cfg, Start(n), acts, 0, 1);
      var p := After(cfg, Start(n), acts).pools[0];
      assert p in After(cfg, Start(n), acts).pools;
      if Holds(check, p, Elements(txs)) {
        HoldsElements(check, p, Elements(txs));
      }
    }
  }
}
