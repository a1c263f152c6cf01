/** Calm runs in which the checks under way at a node never exceed a number. */
module Pacing {
  import opened Types
  import opened Gossip
  import opened Capacity
  import opened Convergence

  /** Nothing is lost or removed, verdicts are honest, and never more than `w` checks are under way at the node. */
  ghost predicate Paced(cfg: Config, check: Check, s: Sys, acts: seq<Action>, i: nat, w: nat)
    requires Possible(cfg, s, acts)
    decreases |acts|
  {
    && InFlight(s, i) <= w
    && (acts != [] ==> Calm(check, s, acts[0]) && Paced(cfg, check, Next(cfg, s, acts[0]), acts[1..], i, w))
  }

  lemma {:induction false} PacedMeans(cfg: Config, check: Check, s: Sys, acts: seq<Action>, i: nat, w: nat)
    requires Possible(cfg, s, acts)
    ensures Paced(cfg, check, s, acts, i, w) <==> CalmRun(cfg, check, s, acts) && AtMostInFlight(cfg, s, acts, i, w)
    decreases |acts|
  {
    if acts != [] && Calm(check, s, acts[0]) {
      PacedMeans(cfg, check, Next(cfg, s, acts[0]), acts[1..], i, w);
    }
  }

  lemma {:induction false} PacedWeaker(cfg: Config, check: Check, s: Sys, acts: seq<Action>, i: nat, v: nat, w: nat)
    requires Possible(cfg, s, acts) && Paced(cfg, check, s, acts, i, v) && v <= w
    ensures Paced(cfg, check, s, acts, i, w)
    decreases |acts|
  {
    if acts != [] {
      PacedWeaker(cfg, check, Next(cfg, s, acts[0]), acts[1..], i, v, w);
    }
  }

  lemma {:induction false} PacedComposes(cfg: Config, check: Check, s: Sys, a: seq<Action>, b: seq<Action>, i: nat, w: nat)
    requires Possible(cfg, s, a) && Paced(cfg, check, s, a, i, w)
    requires Possible(cfg, After(cfg, s, a), b) && Paced(cfg, check, After(cfg, s, a), b, i, w)
    ensures Possible(cfg, s, a + b) && Paced(cfg, check, s, a + b, i, w)
    ensures After(cfg, s, a + b) == After(cfg, After(cfg, s, a), b)
    decreases |a|
  {
    if a == [] {
      assert a + b == b;
    } else {
      assert (a + b)[1..] == a[1..] + b;
      PacedComposes(cfg, check, Next(cfg, s, a[0]), a[1..], b, i, w);
    }
  }

  lemma {:induction false} AtTheEnd(cfg: Config, check: Check, s: Sys, acts: seq<Action>, i: nat, w: nat)
    requires Possible(cfg, s, acts) && Paced(cfg, check, s, acts, i, w)
    ensures InFlight(After(cfg, s, acts), i) <= w
    decreases |acts|
  {
    if acts != [] {
      AtTheEnd(cfg, check, Next(cfg, s, acts[0]), acts[1..], i, w);
    }
  }
}
