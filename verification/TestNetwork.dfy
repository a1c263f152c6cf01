/** Nodes running the test application. */
module TestNetwork {
  import opened Types
  import opened Pools
  import opened Gossip
  import opened Convergence
  import Drain
  import TestApp

  const TEST_CHECK: Check := tx => TestApp.CheckTx(tx)

  /** Every application applies the check; anything may be lost, reordered or removed. */
  ghost predicate HonestRun(cfg: Config, check: Check, s: Sys, acts: seq<Action>)
    requires Possible(cfg, s, acts)
    decreases |acts|
  {
    acts == [] ||
    ((acts[0].Deliver? && s.soup[acts[0].k].CheckReq? ==> acts[0].result == check(s.soup[acts[0].k].tx)) &&
     HonestRun(cfg, check, Next(cfg, s, acts[0]), acts[1..]))
  }

  ghost predicate Honest(check: Check, s: Sys) {
    && (forall p :: p in s.soup ==> Verdict(check, p))
    && (forall i :: 0 <= i < |s.pools| ==> GoodPool(check, s.pools[i]))
  }

  lemma RebuildKeepsGood(check: Check, p: Pool, hashes: seq<TxHash>, order: seq<TxHash>)
    requires GoodPool(check, p) && ValidOrder(p, hashes, order)
    ensures GoodPool(check, Rebuild(p, order))
  {
    RebuildIsRestriction(p, hashes, order);
    var q := Rebuild(p, order);
    forall h | h in q.index ensures Good(check, q.txs[q.index[h]]) && HashOf(check, q.txs[q.index[h]]) == h {
      assert View(q)[h] == View(p)[h];
    }
  }

  lemma {:induction false} RunKeepsHonest(cfg: Config, check: Check, s: Sys, acts: seq<Action>)
    requires Possible(cfg, s, acts) && HonestRun(cfg, check, s, acts) && Honest(check, s)
    ensures Honest(check, After(cfg, s, acts))
    decreases |acts|
  {
    if acts != [] {
      match acts[0] {
        case Deliver(k, result) =>
          var packet := s.soup[k];
          ReactionIsGood(cfg, check, |s.pools|, s.pools[packet.node], packet, result);
        case RemoveAt(i, hashes, order) => RebuildKeepsGood(check, s.pools[i], hashes, order);
        case _ =>
      }
      RunKeepsHonest(cfg, check, Next(cfg, s, acts[0]), acts[1..]);
    }
  }

  lemma TestCheckIsInjective()
    ensures Injective(TEST_CHECK)
  {
    forall t, u | Good(TEST_CHECK, t) && Good(TEST_CHECK, u) && HashOf(TEST_CHECK, t) == HashOf(TEST_CHECK, u)
      ensures t == u
    {
      TestApp.CheckTxMeaning(t);
      TestApp.CheckTxMeaning(u);
    }
  }

  /**
   * In every run, with losses and removals, each key of a pool is the bytes of the transaction it points at,
   * and the pooled transactions are different from each other, eight bytes long, and never 9999.
   */
  lemma TestPoolInvariant(cfg: Config, n: nat, acts: seq<Action>, i: nat)
    requires Possible(cfg, Start(n), acts) && HonestRun(cfg, TEST_CHECK, Start(n), acts)
    requires i < |After(cfg, Start(n), acts).pools|
    ensures var p := After(cfg, Start(n), acts).pools[i];
      && Valid(p)
      && (forall h :: h in View(p) ==> View(p)[h] == h)
      && Distinct(p.txs)
      && (forall tx :: tx in p.txs ==> |tx| == 8 && tx != TestApp.Serialize(TestApp.TestTx(9999)))
  {
    RunKeepsHonest(cfg, TEST_CHECK, Start(n), acts);
    var p := After(cfg, Start(n), acts).pools[i];
    assert GoodPool(TEST_CHECK, p);
    GoodPoolIsDistinct(TEST_CHECK, p);
    forall tx | tx in p.txs ensures |tx| == 8 && tx != TestApp.Serialize(TestApp.TestTx(9999)) {
      assert Good(TEST_CHECK, tx);
      TestApp.CheckTxMeaning(tx);
    }
    forall h | h in View(p) ensures View(p)[h] == h {
      assert Good(TEST_CHECK, View(p)[h]);
      TestApp.CheckTxMeaning(View(p)[h]);
    }
  }

  /** A node running the test application can always drain its pool, for every block budget above eight bytes. */
  lemma TestPoolDrains(
      cfg: Config, n: nat, acts: seq<Action>, i: nat, budget: nat, walks: seq<seq<TxHash>>)
    requires Possible(cfg, Start(n), acts) && HonestRun(cfg, TEST_CHECK, Start(n), acts)
    requires i < |After(cfg, Start(n), acts).pools| && budget > 8
    ensures Drain.KeyedBy(After(cfg, Start(n), acts).pools[i], tx => tx)
    ensures var p := After(cfg, Start(n), acts).pools[i];
      Drain.Rounds(tx => tx, budget, p, walks) && |walks| >= |p.txs| ==>
        && Drain.Left(tx => tx, budget, p, walks) == EMPTY
        && multiset(Drain.Taken(tx => tx, budget, p, walks)) == multiset(p.txs)
  {
    TestPoolInvariant(cfg, n, acts, i);
    var p := After(cfg, Start(n), acts).pools[i];
    assert forall h :: h in p.index ==> View(p)[h] == h;
    if Drain.Rounds(tx => tx, budget, p, walks) && |walks| >= |p.txs| {
      Drain.DrainsIffAllBelowBudget(tx => tx, budget, p, walks);
    }
  }

  /** Nodes running the test application converge on the valid transactions submitted to any of them. */
  lemma TestNetworkConverges(cfg: Config, n: nat, acts: seq<Action>)
    requires Possible(cfg, Start(n), acts) && CalmRun(cfg, TEST_CHECK, Start(n), acts)
    requires After(cfg, Start(n), acts).soup == []
    requires |ValidSubmissions(TEST_CHECK, After(cfg, Start(n), acts).log)| <= cfg.maxPoolSize
    ensures forall p :: p in After(cfg, Start(n), acts).pools ==>
      Valid(p) && Elements(p.txs) == ValidSubmissions(TEST_CHECK, After(cfg, Start(n), acts).log)
  {
    TestCheckIsInjective();
    AllPoolsConverge(cfg, TEST_CHECK, n, acts);
    var s := After(cfg, Start(n), acts);
    var all := ValidSubmissions(TEST_CHECK, s.log);
    forall p | p in s.pools ensures Valid(p) && Elements(p.txs) == all {
      assert Holds(TEST_CHECK, p, all);
      HoldsElements(TEST_CHECK, p, all);
    }
  }
}
