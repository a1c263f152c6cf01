/** How far the pool of a node can grow from the start, exactly. */
module Limits {
  import opened Types
  import opened Pools
  import opened Gossip
  import opened Capacity
  import opened Convergence
  import opened Pacing
  import Overshoot
  import Quiescence

  /** In no run from the start with at most `w` checks under way at the node does its pool exceed the bound. */
  ghost predicate StaysWithin(cfg: Config, n: nat, i: nat, w: nat, bound: nat)
    requires i < n
  {
    forall acts :: Possible(cfg, Start(n), acts) && AtMostInFlight(cfg, Start(n), acts, i, w) ==>
      PoolSize(After(cfg, Start(n), acts), i) <= bound
  }

  /** The same for the runs without loss and removal in which every verdict is honest. */
  ghost predicate CalmlyStaysWithin(cfg: Config, check: Check, n: nat, i: nat, w: nat, bound: nat)
    requires i < n
  {
    forall acts :: Possible(cfg, Start(n), acts) && Paced(cfg, check, Start(n), acts, i, w) ==>
      PoolSize(After(cfg, Start(n), acts), i) <= bound
  }

  function PoolSize(s: Sys, i: nat): nat {
    if i < |s.pools| then |s.pools[i].txs| else 0
  }

  /** The most transactions a pool can hold, with at most `w` checks under way at its node. */
  function Largest(limit: nat, w: nat): nat
    requires w >= 1
  {
    if limit == 0 then 0 else limit + w - 1
  }

  // ---------------------------------------------------------------------------------------------
  // Reaching the bound
  // ---------------------------------------------------------------------------------------------

  /** The system rests, and the pool of the node holds exactly these transactions. */
  ghost predicate Ready(check: Check, s: Sys, i: nat, held: seq<RawTx>) {
    && i < |s.pools| && s.soup == [] && Overshoot.PortsBelow(s, |held|)
    && Holds(check, s.pools[i], Elements(held)) && |s.pools[i].txs| == |held|
  }

  /** Requests made one by one, as far as there is room, lead to a pool that holds exactly what was requested. */
  lemma Prepare(cfg: Config, check: Check, n: nat, i: nat, txs: seq<RawTx>) returns (acts: seq<Action>)
    requires i < n && Injective(check) && Distinct(txs) && |txs| <= cfg.maxPoolSize
    requires forall tx :: tx in txs ==> Good(check, tx) && |tx| < MAX_LEN
    ensures Possible(cfg, Start(n), acts) && Paced(cfg, check, Start(n), acts, i, 1)
    ensures Ready(check, After(cfg, Start(n), acts), i, txs)
  {
    acts := Quiescence.ServeOneByOne(cfg, check, n, i, txs);
    PacedMeans(cfg, check, Start(n), acts, i, 1);
    DistinctCardinality(txs);
    AllPoolsConverge(cfg, check, n, acts);
    HoldsElements(check, After(cfg, Start(n), acts).pools[i], Elements(txs));
  }

  lemma KnownHashIsHeld(check: Check, p: Pool, all: set<RawTx>, tx: RawTx)
    requires Injective(check) && Holds(check, p, all) && Good(check, tx)
    ensures HashOf(check, tx) in p.index ==> tx in all
  {
    assert HashOf(check, tx) in p.index ==> View(p)[HashOf(check, tx)] == tx;
  }

  lemma DistinctParts<T>(a: seq<T>, b: seq<T>)
    requires Distinct(a + b)
    ensures Distinct(a) && Distinct(b) && forall x :: x in b ==> x !in a
  {
    var all := a + b;
    assert forall k :: 0 <= k < |a| ==> all[k] == a[k];
    assert forall k :: 0 <= k < |b| ==> all[|a| + k] == b[k];
  }

  /** Further transactions are new to a pool that holds exactly these. */
  lemma RestIsNew(check: Check, p: Pool, held: seq<RawTx>, more: seq<RawTx>)
    requires Injective(check) && Distinct(held + more) && Holds(check, p, Elements(held))
    requires forall tx :: tx in more ==> Good(check, tx)
    ensures Overshoot.AllNew(check, p, more)
  {
    DistinctParts(held, more);
    forall tx | tx in more ensures HashOf(check, tx) !in p.index {
      KnownHashIsHeld(check, p, Elements(held), tx);
    }
  }

  /** A pool with room for one takes in all further transactions, checked at the same time. */
  lemma GrowFrom(cfg: Config, check: Check, s: Sys, i: nat, held: seq<RawTx>, more: seq<RawTx>)
    returns (acts: seq<Action>)
    requires Ready(check, s, i, held) && |held| == cfg.maxPoolSize - 1
    requires Injective(check) && Distinct(held + more)
    requires forall tx :: tx in more ==> Good(check, tx) && |tx| < MAX_LEN
    ensures Possible(cfg, s, acts) && Paced(cfg, check, s, acts, i, |more|)
    ensures PoolSize(After(cfg, s, acts), i) == |held| + |more|
  {
    RestIsNew(check, s.pools[i], held, more);
    acts := Overshoot.BoundIsReached(cfg, check, s, i, more, |held|);
  }

  /**
   * Every size up to the largest is reached, with as many transactions: as far as there is room they are served
   * one by one, and the rest is admitted together.
   */
  lemma SizeIsReached(cfg: Config, check: Check, n: nat, i: nat, w: nat, txs: seq<RawTx>) returns (acts: seq<Action>)
    requires i < n && w >= 1 && |txs| <= Largest(cfg.maxPoolSize, w)
    requires Injective(check) && Distinct(txs) && forall tx :: tx in txs ==> Good(check, tx) && |tx| < MAX_LEN
    ensures Possible(cfg, Start(n), acts) && Paced(cfg, check, Start(n), acts, i, w)
    ensures PoolSize(After(cfg, Start(n), acts), i) == |txs|
  {
    if |txs| <= cfg.maxPoolSize {
      acts := Prepare(cfg, check, n, i, txs);
      PacedWeaker(cfg, check, Start(n), acts, i, 1, w);
    } else {
      var room := cfg.maxPoolSize - 1;
      var held, more := txs[..room], txs[room..];
      assert held + more == txs;
      var serve := Prepare(cfg, check, n, i, held);
      var grow := GrowFrom(cfg, check, After(cfg, Start(n), serve), i, held, more);
      PacedWeaker(cfg, check, Start(n), serve, i, 1, w);
      PacedWeaker(cfg, check, After(cfg, Start(n), serve), grow, i, |more|, w);
      PacedComposes(cfg, check, Start(n), serve, grow, i, w);
      acts := serve + grow;
    }
  }

  // ---------------------------------------------------------------------------------------------
  // The exact bound
  // ---------------------------------------------------------------------------------------------

  /** Nothing gets into a pool that is always full. */
  lemma {:induction false} NoRoomAtAll(cfg: Config, s: Sys, acts: seq<Action>, i: nat)
    requires Possible(cfg, s, acts) && i < |s.pools| && cfg.maxPoolSize == 0
    ensures i < |After(cfg, s, acts).pools| && Occupancy(After(cfg, s, acts), i) <= Occupancy(s, i)
    decreases |acts|
  {
    if acts != [] {
      StepOccupancy(cfg, s, acts[0], i);
      NoRoomAtAll(cfg, Next(cfg, s, acts[0]), acts[1..], i);
    }
  }

  lemma StaysWithinLargest(cfg: Config, n: nat, acts: seq<Action>, i: nat, w: nat)
    requires i < n && w >= 1 && Possible(cfg, Start(n), acts) && AtMostInFlight(cfg, Start(n), acts, i, w)
    ensures PoolSize(After(cfg, Start(n), acts), i) <= Largest(cfg.maxPoolSize, w)
  {
    if cfg.maxPoolSize == 0 {
      NoRoomAtAll(cfg, Start(n), acts, i);
    } else {
      CapacityBound(cfg, Start(n), acts, i, w);
    }
  }

  lemma CalmRunsAreRuns(cfg: Config, check: Check, n: nat, i: nat, w: nat, bound: nat)
    requires i < n && StaysWithin(cfg, n, i, w, bound)
    ensures CalmlyStaysWithin(cfg, check, n, i, w, bound)
  {
    forall acts | Possible(cfg, Start(n), acts) && Paced(cfg, check, Start(n), acts, i, w)
      ensures PoolSize(After(cfg, Start(n), acts), i) <= bound
    {
      PacedMeans(cfg, check, Start(n), acts, i, w);
    }
  }

  lemma BelowLargestIsExceeded(cfg: Config, check: Check, n: nat, i: nat, w: nat, bound: nat, txs: seq<RawTx>)
    requires i < n && w >= 1 && Injective(check) && Distinct(txs) && |txs| > bound
    requires forall tx :: tx in txs ==> Good(check, tx) && |tx| < MAX_LEN
    requires bound < Largest(cfg.maxPoolSize, w)
    ensures !CalmlyStaysWithin(cfg, check, n, i, w, bound)
  {
    var acts := SizeIsReached(cfg, check, n, i, w, txs[..bound + 1]);
    assert PoolSize(After(cfg, Start(n), acts), i) == bound + 1;
  }

  /**
   * With enough distinct valid transactions at hand, the pool of a node stays within a bound in every run with
   * at most `w` checks under way if and only if the bound is at least the limit plus `w - 1`. It makes no
   * difference whether losses, removals and wrong verdicts are among the runs.
   */
  lemma StaysWithinIff(cfg: Config, check: Check, n: nat, i: nat, w: nat, bound: nat, txs: seq<RawTx>)
    requires i < n && w >= 1 && Injective(check) && Distinct(txs) && |txs| > bound
    requires forall tx :: tx in txs ==> Good(check, tx) && |tx| < MAX_LEN
    ensures StaysWithin(cfg, n, i, w, bound) <==> Largest(cfg.maxPoolSize, w) <= bound
    ensures CalmlyStaysWithin(cfg, check, n, i, w, bound) <==> Largest(cfg.maxPoolSize, w) <= bound
  {
    if Largest(cfg.maxPoolSize, w) <= bound {
      forall acts | Possible(cfg, Start(n), acts) && AtMostInFlight(cfg, Start(n), acts, i, w)
        ensures PoolSize(After(cfg, Start(n), acts), i) <= bound
      {
        StaysWithinLargest(cfg, n, acts, i, w);
      }
      CalmRunsAreRuns(cfg, check, n, i, w, bound);
    } else {
      BelowLargestIsExceeded(cfg, check, n, i, w, bound, txs);
      if StaysWithin(cfg, n, i, w, bound) {
        CalmRunsAreRuns(cfg, check, n, i, w, bound);
      }
    }
  }

  lemma {:induction false} FewerChecks(cfg: Config, s: Sys, acts: seq<Action>, i: nat, v: nat, w: nat)
    requires Possible(cfg, s, acts) && AtMostInFlight(cfg, s, acts, i, v) && v <= w
    ensures AtMostInFlight(cfg, s, acts, i, w)
    decreases |acts|
  {
    if acts != [] {
      FewerChecks(cfg, Next(cfg, s, acts[0]), acts[1..], i, v, w);
    }
  }

  lemma StaysWithinForFewer(cfg: Config, n: nat, i: nat, v: nat, w: nat, bound: nat)
    requires i < n && v <= w && StaysWithin(cfg, n, i, w, bound)
    ensures StaysWithin(cfg, n, i, v, bound)
  {
    forall acts | Possible(cfg, Start(n), acts) && AtMostInFlight(cfg, Start(n), acts, i, v)
      ensures PoolSize(After(cfg, Start(n), acts), i) <= bound
    {
      FewerChecks(cfg, Start(n), acts, i, v, w);
    }
  }

  /**
   * Given one more distinct valid transaction than the limit, the limit is kept in every run with at most `w`
   * checks under way if and only if checks never overlap, or nothing is ever admitted.
   */
  lemma LimitKeptIffOneAtATime(cfg: Config, check: Check, n: nat, i: nat, w: nat, txs: seq<RawTx>)
    requires i < n && Injective(check) && Distinct(txs) && |txs| > cfg.maxPoolSize
    requires forall tx :: tx in txs ==> Good(check, tx) && |tx| < MAX_LEN
    ensures StaysWithin(cfg, n, i, w, cfg.maxPoolSize) <==> w <= 1 || cfg.maxPoolSize == 0
    ensures CalmlyStaysWithin(cfg, check, n, i, w, cfg.maxPoolSize) <==> w <= 1 || cfg.maxPoolSize == 0
  {
    if w >= 1 {
      StaysWithinIff(cfg, check, n, i, w, cfg.maxPoolSize, txs);
    } else {
      StaysWithinIff(cfg, check, n, i, 1, cfg.maxPoolSize, txs);
      StaysWithinForFewer(cfg, n, i, w, 1, cfg.maxPoolSize);
      CalmRunsAreRuns(cfg, check, n, i, w, cfg.maxPoolSize);
    }
  }
}
