/** Each node of the network runs a mempool of its own, and what holds over every run of a mempool holds there. */
module Nodes {
  import opened Types
  import opened Pools
  import opened MempoolSpec
  import opened Gossip
  import opened History
  import Removal

  /** A removal takes exactly the listed hashes out of one pool, as the mempool does, and touches nothing else. */
  lemma RemoveAtRemoves(cfg: Config, s: Sys, i: nat, hashes: seq<TxHash>, order: seq<TxHash>)
    requires Enabled(s, RemoveAt(i, hashes, order))
    ensures var t := Next(cfg, s, RemoveAt(i, hashes, order));
      && |t.pools| == |s.pools| && Valid(t.pools[i])
      && View(t.pools[i]) == View(s.pools[i]) - Elements(hashes)
      && Handle(cfg, s.pools[i], Remove(hashes), IDEAL, order) == Handled(t.pools[i], [], true)
      && (forall j :: 0 <= j < |s.pools| && j != i ==> t.pools[j] == s.pools[j])
      && t.soup == s.soup && t.log == s.log
  {
    RebuildIsRestriction(s.pools[i], hashes, order);
  }

  /** Whatever is listed, some walk makes the removal possible. */
  lemma RemovalIsPossible(s: Sys, i: nat, hashes: seq<TxHash>)
    requires i < |s.pools| && Valid(s.pools[i])
    ensures exists order :: Enabled(s, RemoveAt(i, hashes, order))
  {
    var order := Removal.KeptKeys(s.pools[i], hashes, |s.pools[i].txs|);
    assert Enabled(s, RemoveAt(i, hashes, order));
  }

  /** A number no reply port in the log has. */
  lemma {:induction false} UnusedPort(log: seq<Event>) returns (port: Port)
    ensures forall e :: e in log && e.Submitted? ==> e.port < port
  {
    port := 0;
    if log != [] {
      var last := log[|log| - 1];
      port := UnusedPort(log[..|log| - 1]);
      if last.Submitted? && last.port >= port {
        port := last.port + 1;
      }
    }
  }

  /** Any transaction that fits into memory can be submitted at any node at any time. */
  lemma SubmissionIsPossible(s: Sys, i: nat, tx: RawTx)
    requires i < |s.pools| && |tx| < 0x8000_0000_0000_0000
    ensures exists port :: Enabled(s, Submit(i, tx, port))
  {
    var port := UnusedPort(s.log);
    assert Enabled(s, Submit(i, tx, port));
  }

  /** The node whose pool a step may change. */
  function Touches(s: Sys, a: Action): Option<nat> {
    match a
    case Deliver(k, _) => if k < |s.soup| then Some(s.soup[k].node) else None
    case RemoveAt(i, _, _) => Some(i)
    case _ => None
  }

  /** What a step takes from the packets under way, and what it puts there. */
  lemma StepsMoveOnePacket(cfg: Config, s: Sys, a: Action)
    requires Enabled(s, a)
    ensures var t := Next(cfg, s, a);
      && |t.pools| == |s.pools| && s.log <= t.log
      && (forall j :: 0 <= j < |s.pools| && Touches(s, a) != Some(j) ==> t.pools[j] == s.pools[j])
      && (a.Submit? ==>
            && multiset(t.soup) == multiset(s.soup) + multiset{AddMsg(a.node, a.tx, a.port)}
            && t.log == s.log + [Submitted(a.node, a.tx, a.port)])
      && (a.Lose? ==>
            && multiset(t.soup) + multiset{s.soup[a.k]} == multiset(s.soup)
            && t.log == s.log + [Lost(s.soup[a.k])])
      && (a.Deliver? ==>
            multiset{s.soup[a.k]} + multiset(t.soup) == multiset(s.soup)
              + multiset(React(cfg, |s.pools|, s.pools[s.soup[a.k].node], s.soup[a.k], a.result).out))
  {
    if a.Deliver? || a.Lose? {
      assert s.soup == s.soup[..a.k] + [s.soup[a.k]] + s.soup[a.k + 1..];
    }
  }

  // ---------------------------------------------------------------------------------------------
  // The mempool of one node
  // ---------------------------------------------------------------------------------------------

  /** What a step brings to the mempool of a node. */
  function InputOf(s: Sys, a: Action, i: nat): seq<Input> {
    match a
    case Deliver(k, _) =>
      if k < |s.soup| && s.soup[k].node == i && AsMsg(s.soup[k]).Some? then
        [Input(AsMsg(s.soup[k]).value, IDEAL, [])]
      else []
    case RemoveAt(j, hashes, order) => if j == i then [Input(Remove(hashes), IDEAL, order)] else []
    case _ => []
  }

  /** What a run brings to the mempool of a node. */
  ghost function InputsAt(cfg: Config, s: Sys, acts: seq<Action>, i: nat): seq<Input>
    requires Possible(cfg, s, acts)
    decreases |acts|
  {
    if acts == [] then [] else InputOf(s, acts[0], i) + InputsAt(cfg, Next(cfg, s, acts[0]), acts[1..], i)
  }

  lemma StepAtNode(cfg: Config, s: Sys, a: Action, i: nat)
    requires Enabled(s, a) && AllValid(s) && i < |s.pools|
    ensures |Next(cfg, s, a).pools| == |s.pools|
    ensures var xs := InputOf(s, a, i);
      && |xs| <= 1
      && (xs == [] ==> Next(cfg, s, a).pools[i] == s.pools[i])
      && (xs != [] ==> LegalOrder(s.pools[i], xs[0].msg, xs[0].order)
                       && Next(cfg, s, a).pools[i] == Step(cfg, s.pools[i], xs[0]).pool)
  {
    if a.Deliver? {
      var packet := s.soup[a.k];
      if packet.node == i && AsMsg(packet).Some? {
        ReactionsAreTheActors(cfg, |s.pools|, s.pools[i], packet, a.result);
      }
    }
  }

  lemma OneInput(cfg: Config, p: Pool, x: Input, rest: seq<Input>)
    requires Valid(p) && LegalOrder(p, x.msg, x.order) && Legal(cfg, Step(cfg, p, x).pool, rest)
    ensures Legal(cfg, p, [x] + rest) && Run(cfg, p, [x] + rest) == Run(cfg, Step(cfg, p, x).pool, rest)
  {
    assert ([x] + rest)[1..] == rest;
  }

  /** In every run of the network each node's pool is the one a mempool has after the messages that reached the node. */
  lemma {:induction false} NodesRunMempools(cfg: Config, s: Sys, acts: seq<Action>, i: nat)
    requires Possible(cfg, s, acts) && AllValid(s) && i < |s.pools|
    ensures i < |After(cfg, s, acts).pools|
    ensures Legal(cfg, s.pools[i], InputsAt(cfg, s, acts, i))
    ensures After(cfg, s, acts).pools[i] == Run(cfg, s.pools[i], InputsAt(cfg, s, acts, i))
    decreases |acts|
  {
    if acts != [] {
      var t := Next(cfg, s, acts[0]);
      var xs, rest := InputOf(s, acts[0], i), InputsAt(cfg, t, acts[1..], i);
      NextKeepsValid(cfg, s, acts[0]);
      StepAtNode(cfg, s, acts[0], i);
      NodesRunMempools(cfg, t, acts[1..], i);
      if xs == [] {
        assert xs + rest == rest;
      } else {
        assert xs == [xs[0]];
        OneInput(cfg, s.pools[i], xs[0], rest);
      }
    }
  }

  /**
   * In every run of the network, with removals, losses and reordering, the pool of a node is the single map driven
   * by the messages that reached it, and a hash is in it exactly if it was inserted once more than removed.
   */
  lemma PoolsFollowTheirMessages(cfg: Config, n: nat, acts: seq<Action>, i: nat, h: TxHash)
    requires Possible(cfg, Start(n), acts) && i < n
    ensures i < |After(cfg, Start(n), acts).pools| && Valid(After(cfg, Start(n), acts).pools[i])
    ensures var p, inputs := After(cfg, Start(n), acts).pools[i], InputsAt(cfg, Start(n), acts, i);
      && Legal(cfg, EMPTY, inputs)
      && View(p) == MapRun(map[], inputs)
      && Inserts(cfg, EMPTY, inputs, h) == Removals(cfg, EMPTY, inputs, h) + (if h in View(p) then 1 else 0)
  {
    NodesRunMempools(cfg, Start(n), acts, i);
    var inputs := InputsAt(cfg, Start(n), acts, i);
    assert View(EMPTY) == map[];
    RunRefinesMap(cfg, EMPTY, inputs);
    HashHistoryBalances(cfg, EMPTY, inputs, h);
  }
}
