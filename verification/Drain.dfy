/** Taking blocks and removing what was taken, until nothing is left. */
module Drain {
  import opened Types
  import opened Pools
  import opened Blocks
  import opened MempoolSpec
  import opened History
  import Removal

  /** Every key is the hash of the transaction it points at. */
  ghost predicate KeyedBy(p: Pool, hashOf: RawTx -> TxHash) {
    Valid(p) && forall h :: h in p.index ==> hashOf(p.txs[p.index[h]]) == h
  }

  function Hashes(hashOf: RawTx -> TxHash, txs: seq<RawTx>): seq<TxHash> {
    seq(|txs|, i requires 0 <= i < |txs| => hashOf(txs[i]))
  }

  /** The block a round takes. */
  function BlockOf(budget: nat, p: Pool): seq<RawTx> {
    Fit(p.txs, budget)
  }

  /** One walk per round, each legal for removing exactly the hashes of the block just taken. */
  ghost predicate Rounds(hashOf: RawTx -> TxHash, budget: nat, p: Pool, walks: seq<seq<TxHash>>)
    requires KeyedBy(p, hashOf)
    decreases |walks|
  {
    walks == [] ||
    (ValidOrder(p, Hashes(hashOf, BlockOf(budget, p)), walks[0]) &&
     Rounds(hashOf, budget, AfterRound(hashOf, budget, p, walks[0]), walks[1..]))
  }

  ghost function AfterRound(hashOf: RawTx -> TxHash, budget: nat, p: Pool, walk: seq<TxHash>): (q: Pool)
    requires KeyedBy(p, hashOf) && ValidOrder(p, Hashes(hashOf, BlockOf(budget, p)), walk)
    ensures KeyedBy(q, hashOf)
  {
    RebuildKeepsKeys(hashOf, p, Hashes(hashOf, BlockOf(budget, p)), walk);
    Rebuild(p, walk)
  }

  /** The pool left after all rounds. */
  ghost function Left(hashOf: RawTx -> TxHash, budget: nat, p: Pool, walks: seq<seq<TxHash>>): (q: Pool)
    requires KeyedBy(p, hashOf) && Rounds(hashOf, budget, p, walks)
    ensures KeyedBy(q, hashOf)
    decreases |walks|
  {
    if walks == [] then p
    else Left(hashOf, budget, AfterRound(hashOf, budget, p, walks[0]), walks[1..])
  }

  /** The blocks of all rounds, one after the other. */
  ghost function Taken(hashOf: RawTx -> TxHash, budget: nat, p: Pool, walks: seq<seq<TxHash>>): seq<RawTx>
    requires KeyedBy(p, hashOf) && Rounds(hashOf, budget, p, walks)
    decreases |walks|
  {
    if walks == [] then []
    else BlockOf(budget, p) + Taken(hashOf, budget, AfterRound(hashOf, budget, p, walks[0]), walks[1..])
  }

  // ---------------------------------------------------------------------------------------------
  // Rounds as messages to the mempool
  // ---------------------------------------------------------------------------------------------

  /** The messages of all rounds: a block is asked for, then the hashes of what came are removed. */
  ghost function RoundInputs(hashOf: RawTx -> TxHash, budget: nat, p: Pool, walks: seq<seq<TxHash>>, port: Port): seq<Input>
    requires KeyedBy(p, hashOf) && Rounds(hashOf, budget, p, walks)
    decreases |walks|
  {
    if walks == [] then []
    else
      OneRound(port, Hashes(hashOf, BlockOf(budget, p)), walks[0])
      + RoundInputs(hashOf, budget, AfterRound(hashOf, budget, p, walks[0]), walks[1..], port + 1)
  }

  function OneRound(port: Port, hashes: seq<TxHash>, walk: seq<TxHash>): seq<Input> {
    [Input(Take(port), Env(Delivered, true), []), Input(Remove(hashes), Env(Delivered, true), walk)]
  }

  /** The blocks among what was sent, one after the other. */
  function BlocksSent(effects: seq<Effect>): seq<RawTx> {
    if effects == [] then []
    else (if effects[0].ReplyBlock? then effects[0].txs else []) + BlocksSent(effects[1..])
  }

  lemma TwoInputs(cfg: Config, p: Pool, x: Input, y: Input, rest: seq<Input>)
    requires Valid(p) && LegalOrder(p, x.msg, x.order)
    requires LegalOrder(Step(cfg, p, x).pool, y.msg, y.order)
    requires Legal(cfg, Step(cfg, Step(cfg, p, x).pool, y).pool, rest)
    ensures var q := Step(cfg, Step(cfg, p, x).pool, y).pool;
      && Legal(cfg, p, [x, y] + rest) && Run(cfg, p, [x, y] + rest) == Run(cfg, q, rest)
      && Sent(cfg, p, [x, y] + rest)
         == Step(cfg, p, x).effects + (Step(cfg, Step(cfg, p, x).pool, y).effects + Sent(cfg, q, rest))
  {
    assert ([x, y] + rest)[1..] == [y] + rest;
    assert ([y] + rest)[1..] == rest;
  }

  lemma BlockFirst(port: Port, block: seq<RawTx>, effects: seq<Effect>)
    ensures BlocksSent([ReplyBlock(port, block)] + ([] + effects)) == block + BlocksSent(effects)
  {
    assert ([ReplyBlock(port, block)] + ([] + effects))[1..] == effects;
  }

  /** The rounds are a run of the mempool, which sends the blocks and is left with the pool they leave. */
  lemma {:induction false} RoundsAreARun(
      cfg: Config, hashOf: RawTx -> TxHash, p: Pool, walks: seq<seq<TxHash>>, port: Port)
    requires KeyedBy(p, hashOf) && Rounds(hashOf, cfg.maxTxsBytes, p, walks)
    ensures var inputs := RoundInputs(hashOf, cfg.maxTxsBytes, p, walks, port);
      && Legal(cfg, p, inputs)
      && Run(cfg, p, inputs) == Left(hashOf, cfg.maxTxsBytes, p, walks)
      && BlocksSent(Sent(cfg, p, inputs)) == Taken(hashOf, cfg.maxTxsBytes, p, walks)
    decreases |walks|
  {
    if walks != [] {
      var budget := cfg.maxTxsBytes;
      var block, q := BlockOf(budget, p), AfterRound(hashOf, budget, p, walks[0]);
      var round := OneRound(port, Hashes(hashOf, block), walks[0]);
      var rest := RoundInputs(hashOf, budget, q, walks[1..], port + 1);
      RoundsAreARun(cfg, hashOf, q, walks[1..], port + 1);
      assert Step(cfg, p, round[0]) == Handled(p, [ReplyBlock(port, block)], true);
      assert Step(cfg, p, round[1]) == Handled(q, [], true);
      TwoInputs(cfg, p, round[0], round[1], rest);
      BlockFirst(port, block, Sent(cfg, q, rest));
    }
  }

  // ---------------------------------------------------------------------------------------------
  // Conservation
  // ---------------------------------------------------------------------------------------------

  lemma RebuildKeepsKeys(hashOf: RawTx -> TxHash, p: Pool, hashes: seq<TxHash>, walk: seq<TxHash>)
    requires KeyedBy(p, hashOf) && ValidOrder(p, hashes, walk)
    ensures KeyedBy(Rebuild(p, walk), hashOf)
  {
    RebuildIsRestriction(p, hashes, walk);
    var q := Rebuild(p, walk);
    forall h | h in q.index ensures hashOf(q.txs[q.index[h]]) == h {
      assert View(q)[h] == View(p)[h];
    }
  }

  /** When hashes are a function of the transaction, no transaction is pooled twice. */
  lemma KeyedIsDistinct(hashOf: RawTx -> TxHash, p: Pool)
    requires KeyedBy(p, hashOf)
    ensures Distinct(p.txs)
    ensures forall tx :: tx in p.txs <==> hashOf(tx) in View(p) && View(p)[hashOf(tx)] == tx
  {
    forall i | 0 <= i < |p.txs| ensures hashOf(p.txs[i]) in p.index && p.index[hashOf(p.txs[i])] == i {
      assert KeyAt(p, i) == hashOf(p.txs[i]);
    }
  }

  lemma {:induction false} DistinctMultiset<T>(s: seq<T>, x: T)
    requires Distinct(s)
    ensures multiset(s)[x] == if x in s then 1 else 0
  {
    if s != [] {
      var last := |s| - 1;
      DistinctMultiset(s[..last], x);
      assert s == s[..last] + [s[last]];
      assert s[last] !in s[..last];
    }
  }

  /** Among pooled transactions, having a listed hash is the same as being in the list. */
  lemma ListedMeansTaken(hashOf: RawTx -> TxHash, p: Pool, block: seq<RawTx>, tx: RawTx)
    requires KeyedBy(p, hashOf) && block <= p.txs && tx in p.txs
    ensures hashOf(tx) in Hashes(hashOf, block) <==> tx in block
  {
    var hashes := Hashes(hashOf, block);
    KeyedIsDistinct(hashOf, p);
    assert forall i :: 0 <= i < |hashes| ==> hashes[i] == hashOf(block[i]) && block[i] in p.txs;
  }

  /** A round removes from the pool exactly what it puts into the block. */
  lemma RoundMembers(hashOf: RawTx -> TxHash, budget: nat, p: Pool, walk: seq<TxHash>, tx: RawTx)
    requires KeyedBy(p, hashOf) && ValidOrder(p, Hashes(hashOf, BlockOf(budget, p)), walk)
    ensures tx in AfterRound(hashOf, budget, p, walk).txs <==> tx in p.txs && tx !in BlockOf(budget, p)
  {
    var block := BlockOf(budget, p);
    var q := AfterRound(hashOf, budget, p, walk);
    FitIsLongestPrefix(p.txs, budget);
    RebuildIsRestriction(p, Hashes(hashOf, block), walk);
    KeyedIsDistinct(hashOf, p);
    KeyedIsDistinct(hashOf, q);
    if tx in p.txs {
      ListedMeansTaken(hashOf, p, block, tx);
    }
  }

  lemma RoundConserves(hashOf: RawTx -> TxHash, budget: nat, p: Pool, walk: seq<TxHash>)
    requires KeyedBy(p, hashOf) && ValidOrder(p, Hashes(hashOf, BlockOf(budget, p)), walk)
    ensures multiset(BlockOf(budget, p)) + multiset(AfterRound(hashOf, budget, p, walk).txs) == multiset(p.txs)
  {
    var block, q := BlockOf(budget, p), AfterRound(hashOf, budget, p, walk);
    FitIsLongestPrefix(p.txs, budget);
    KeyedIsDistinct(hashOf, p);
    KeyedIsDistinct(hashOf, q);
    forall tx ensures (multiset(block) + multiset(q.txs))[tx] == multiset(p.txs)[tx] {
      RoundMembers(hashOf, budget, p, walk, tx);
      DistinctMultiset(block, tx);
      DistinctMultiset(q.txs, tx);
      DistinctMultiset(p.txs, tx);
    }
  }

  /** Nothing is lost and nothing is included twice, for every walk of every removal. */
  lemma {:induction false} DrainConserves(hashOf: RawTx -> TxHash, budget: nat, p: Pool, walks: seq<seq<TxHash>>)
    requires KeyedBy(p, hashOf) && Rounds(hashOf, budget, p, walks)
    ensures multiset(Taken(hashOf, budget, p, walks)) + multiset(Left(hashOf, budget, p, walks).txs) == multiset(p.txs)
    decreases |walks|
  {
    if walks != [] {
      RoundConserves(hashOf, budget, p, walks[0]);
      DrainConserves(hashOf, budget, AfterRound(hashOf, budget, p, walks[0]), walks[1..]);
    }
  }

  /** Rounds can always go on: some legal walk exists for every removal. */
  lemma {:induction false} RoundsExist(hashOf: RawTx -> TxHash, budget: nat, p: Pool, n: nat)
    returns (walks: seq<seq<TxHash>>)
    requires KeyedBy(p, hashOf)
    ensures |walks| == n && Rounds(hashOf, budget, p, walks)
    decreases n
  {
    if n == 0 {
      walks := [];
    } else {
      var walk := Removal.KeptKeys(p, Hashes(hashOf, BlockOf(budget, p)), |p.txs|);
      var rest := RoundsExist(hashOf, budget, AfterRound(hashOf, budget, p, walk), n - 1);
      walks := [walk] + rest;
      assert walks[1..] == rest;
    }
  }

  /** While every transaction is below the budget, each round on a nonempty pool shortens it. */
  lemma {:induction false} DrainShrinks(hashOf: RawTx -> TxHash, budget: nat, p: Pool, walks: seq<seq<TxHash>>)
    requires KeyedBy(p, hashOf) && Rounds(hashOf, budget, p, walks)
    requires forall tx :: tx in p.txs ==> |tx| < budget
    ensures Left(hashOf, budget, p, walks).txs == [] || |Left(hashOf, budget, p, walks).txs| + |walks| <= |p.txs|
    decreases |walks|
  {
    if walks != [] {
      var block, q := BlockOf(budget, p), AfterRound(hashOf, budget, p, walks[0]);
      RoundConserves(hashOf, budget, p, walks[0]);
      assert |multiset(block)| + |multiset(q.txs)| == |multiset(p.txs)|;
      forall tx | tx in q.txs ensures |tx| < budget {
        RoundMembers(hashOf, budget, p, walks[0], tx);
      }
      DrainShrinks(hashOf, budget, q, walks[1..]);
    }
  }

  /** A transaction as large as the budget is never taken, so it is never removed. */
  lemma {:induction false} OversizedStays(hashOf: RawTx -> TxHash, budget: nat, p: Pool, walks: seq<seq<TxHash>>, tx: RawTx)
    requires KeyedBy(p, hashOf) && Rounds(hashOf, budget, p, walks)
    requires tx in p.txs && |tx| >= budget
    ensures tx in Left(hashOf, budget, p, walks).txs
    decreases |walks|
  {
    if walks != [] {
      BlockTxsBelowBudget(p.txs, budget);
      RoundMembers(hashOf, budget, p, walks[0], tx);
      OversizedStays(hashOf, budget, AfterRound(hashOf, budget, p, walks[0]), walks[1..], tx);
    }
  }

  lemma {:induction false} BlockTxsBelowBudget(txs: seq<RawTx>, budget: nat)
    ensures forall tx :: tx in Fit(txs, budget) ==> |tx| < budget
    decreases |txs|
  {
    if txs != [] && |txs[0]| < budget {
      BlockTxsBelowBudget(txs[1..], budget - |txs[0]|);
    }
  }

  /**
   * As many rounds as there are transactions empty the pool, and the blocks are then a permutation of
   * it, if and only if every pooled transaction is strictly smaller than the block budget.
   */
  lemma DrainsIffAllBelowBudget(hashOf: RawTx -> TxHash, budget: nat, p: Pool, walks: seq<seq<TxHash>>)
    requires KeyedBy(p, hashOf) && Rounds(hashOf, budget, p, walks) && |walks| >= |p.txs|
    ensures Left(hashOf, budget, p, walks) == EMPTY <==> forall tx :: tx in p.txs ==> |tx| < budget
    ensures Left(hashOf, budget, p, walks) == EMPTY ==> multiset(Taken(hashOf, budget, p, walks)) == multiset(p.txs)
  {
    var q := Left(hashOf, budget, p, walks);
    DrainConserves(hashOf, budget, p, walks);
    if forall tx :: tx in p.txs ==> |tx| < budget {
      DrainShrinks(hashOf, budget, p, walks);
      assert q.txs == [];
      assert q.index == map[];
    } else {
      var tx :| tx in p.txs && |tx| >= budget;
      OversizedStays(hashOf, budget, p, walks, tx);
    }
  }
}
