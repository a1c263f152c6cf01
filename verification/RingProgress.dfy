/** Applications can always keep up with their rings, whatever is under way. */
module RingProgress {
  import opened Types
  import opened Pools
  import opened Gossip
  import opened Convergence
  import opened Selection
  import opened RingNetwork
  import Quiescence
  import Termination
  import Wire

  /** No application has more waiting than its ring holds. */
  ghost predicate NoneBehind(capacity: nat, c: Rings)
    requires WellFormed(c)
  {
    forall i :: 0 <= i < |c.apps| ==> |Waiting(c, i)| <= capacity
  }

  lemma {:induction false} SelectIsNoLonger<T>(s: seq<T>, f: T -> bool)
    ensures |Select(s, f)| <= |s|
  {
    if s != [] {
      SelectIsNoLonger(s[..|s| - 1], f);
    }
  }

  /** Handling a packet makes at most one request. */
  lemma AtMostOneRequest(cfg: Config, n: nat, p: Pool, packet: Packet, result: CheckResult, i: nat)
    ensures |Select(React(cfg, n, p, packet, result).out, Request(i))| <= 1
  {
    var out := React(cfg, n, p, packet, result).out;
    if packet.BroadcastMsg? {
      forall q | q in out ensures !Request(i)(q) {
        FanoutTargets(n, packet.node, Wire.ToNetworkBytes(packet.batch), q);
      }
      SelectNone(out, Request(i));
    } else {
      SelectIsNoLonger(out, Request(i));
    }
  }

  lemma RestHasNoRequest(c: Rings, k: nat, i: nat)
    requires WellFormed(c) && k < |c.mail|
    ensures Select(Without(c.mail, k), Request(i)) == []
  {
    forall p | p in Without(c.mail, k) ensures !Request(i)(p) {
      assert p in c.mail;
    }
    SelectNone(Without(c.mail, k), Request(i));
  }

  /** With empty rings, a step on the mail leaves at most one request in each. */
  lemma MailLeavesOne(cfg: Config, c: Rings, k: nat, result: CheckResult)
    requires WellFormed(c) && CanStep(c, Mail(Deliver(k, result)))
    requires forall i :: 0 <= i < |c.apps| ==> Waiting(c, i) == []
    ensures var d := Posted(c, Next(cfg, WithoutRings(c), Deliver(k, result)));
      WellFormed(d) && NoneBehind(1, d)
  {
    var t, packet := Next(cfg, WithoutRings(c), Deliver(k, result)), c.mail[k];
    var out := React(cfg, |c.pools|, c.pools[packet.node], packet, result).out;
    PostedIsWellFormed(c, t);
    forall i | 0 <= i < |c.apps| ensures |Waiting(Posted(c, t), i)| <= 1 {
      SelectSplit(Without(c.mail, k), out, Request(i));
      RestHasNoRequest(c, k, i);
      AtMostOneRequest(cfg, |c.pools|, c.pools[packet.node], packet, result, i);
    }
  }

  /** A turn with no more waiting than the ring holds asks about the oldest request. */
  lemma TurnAsks(cfg: Config, capacity: nat, c: Rings, i: nat, result: CheckResult)
    requires WellFormed(c) && i < |c.apps| && 0 < |Waiting(c, i)| <= capacity
    ensures var t := TurnOf(capacity, c, i); var d := StepTo(cfg, capacity, c, Turned(i, result));
      && Listening(c.sent[i], t) && t.cursor == c.apps[i].cursor + 1
      && d == Asked(cfg, c, i, t, Waiting(c, i)[0], result) && WellFormed(d) && |d.pools| == |c.pools|
      && (NoneBehind(capacity, c) ==> NoneBehind(capacity, d))
  {
    TurnCases(capacity, c, i);
    AskedIsWellFormed(cfg, c, i, TurnOf(capacity, c, i), result);
  }

  lemma LessIsLeft(cfg: Config, s: Sys, k: nat, result: CheckResult)
    requires Enabled(s, Deliver(k, result)) && Quiescence.InRange(s)
    ensures var u := Next(cfg, s, Deliver(k, result));
      Quiescence.InRange(u) && |u.pools| == |s.pools| > 0 && Termination.Total(u) < Termination.Total(s)
  {
    Quiescence.NextInRange(cfg, s, Deliver(k, result));
    Termination.StepTotal(cfg, s, Deliver(k, result));
  }

  /** The application that has something waiting takes its turn. */
  lemma TurnNow(cfg: Config, check: Check, capacity: nat, c: Rings, s: Sys, i: nat) returns (x: Step, u: Sys)
    requires WellFormed(c) && Stands(c, s) && Quiescence.InRange(s) && |c.pools| > 0
    requires NoneBehind(capacity, c) && i < |c.apps| && Waiting(c, i) != []
    ensures CanStep(c, x) && !x.Mail? && Undisturbed(check, capacity, c, x)
    ensures var d := StepTo(cfg, capacity, c, x);
      WellFormed(d) && Stands(d, u) && NoneBehind(capacity, d) && |d.pools| == |c.pools|
    ensures Quiescence.InRange(u) && |u.pools| > 0 && Termination.Total(u) < Termination.Total(s)
  {
    var request := Waiting(c, i)[0];
    assert request in c.sent[i];
    var result := check(request.tx);
    x := Turned(i, result);
    TurnAsks(cfg, capacity, c, i, result);
    var j := AskedStands(cfg, c, s, i, TurnOf(capacity, c, i), result);
    LessIsLeft(cfg, s, j, result);
    u := Next(cfg, s, Deliver(j, result));
  }

  /** With nothing waiting, the oldest of the mail is handled. */
  lemma MailNow(cfg: Config, check: Check, capacity: nat, c: Rings, s: Sys) returns (x: Step, u: Sys)
    requires WellFormed(c) && Stands(c, s) && Quiescence.InRange(s) && |c.pools| > 0 && capacity > 0
    requires c.mail != [] && forall i :: 0 <= i < |c.apps| ==> Waiting(c, i) == []
    ensures CanStep(c, x) && x.Mail? && !x.a.Submit? && Undisturbed(check, capacity, c, x)
    ensures var d := StepTo(cfg, capacity, c, x);
      WellFormed(d) && Stands(d, u) && NoneBehind(capacity, d) && |d.pools| == |c.pools|
    ensures Quiescence.InRange(u) && |u.pools| > 0 && Termination.Total(u) < Termination.Total(s)
  {
    var a := Deliver(0, AppError(""));
    SelectMembers(s.soup, NoRequest(), c.mail[0]);
    assert c.mail[0] in c.mail;
    x := Mail(a);
    MailLeavesOne(cfg, c, 0, AppError(""));
    var b := MailSimulated(cfg, check, capacity, c, s, a);
    u := Next(cfg, s, b);
    LessIsLeft(cfg, s, b.k, b.result);
  }

  lemma RunFirst(cfg: Config, check: Check, capacity: nat, c: Rings, x: Step, rest: seq<Step>)
    requires WellFormed(c) && CanStep(c, x) && Undisturbed(check, capacity, c, x)
    requires CanRun(cfg, capacity, StepTo(cfg, capacity, c, x), rest)
    requires UndisturbedRun(cfg, check, capacity, StepTo(cfg, capacity, c, x), rest)
    ensures CanRun(cfg, capacity, c, [x] + rest) && UndisturbedRun(cfg, check, capacity, c, [x] + rest)
    ensures RunTo(cfg, capacity, c, [x] + rest) == RunTo(cfg, capacity, StepTo(cfg, capacity, c, x), rest)
  {
    assert ([x] + rest)[1..] == rest;
  }

  lemma {:induction false} Settle(cfg: Config, check: Check, capacity: nat, c: Rings, s: Sys) returns (steps: seq<Step>)
    requires WellFormed(c) && Stands(c, s) && Quiescence.InRange(s) && |c.pools| > 0
    requires capacity > 0 && NoneBehind(capacity, c)
    ensures CanRun(cfg, capacity, c, steps) && UndisturbedRun(cfg, check, capacity, c, steps)
    ensures forall x :: x in steps && x.Mail? ==> !x.a.Submit?
    ensures WellFormed(RunTo(cfg, capacity, c, steps)) && AtRest(RunTo(cfg, capacity, c, steps))
    decreases Termination.Total(s)
  {
    steps := [];
    if !AtRest(c) {
      var x, u;
      if i: nat :| i < |c.apps| && Waiting(c, i) != [] {
        x, u := TurnNow(cfg, check, capacity, c, s, i);
      } else {
        x, u := MailNow(cfg, check, capacity, c, s);
      }
      var rest := Settle(cfg, check, capacity, StepTo(cfg, capacity, c, x), u);
      RunFirst(cfg, check, capacity, c, x, rest);
      steps := [x] + rest;
    }
  }

  /**
   * Wherever a run of the network with rings has got to, as long as no application is behind, there is a way to rest
   * on which none ever falls behind, nothing is lost, and nothing more is submitted: a ring of one slot is enough.
   */
  lemma ApplicationsCanKeepUp(cfg: Config, check: Check, capacity: nat, n: nat, steps: seq<Step>)
    returns (more: seq<Step>)
    requires n > 0 && capacity > 0 && CanRun(cfg, capacity, StartRings(n), steps)
    requires var c := RunTo(cfg, capacity, StartRings(n), steps); WellFormed(c) ==> NoneBehind(capacity, c)
    ensures var c := RunTo(cfg, capacity, StartRings(n), steps);
      && CanRun(cfg, capacity, c, more) && UndisturbedRun(cfg, check, capacity, c, more)
      && (forall x :: x in more && x.Mail? ==> !x.a.Submit?)
      && WellFormed(RunTo(cfg, capacity, c, more)) && AtRest(RunTo(cfg, capacity, c, more))
  {
    var acts := RingRunsAreRuns(cfg, check, capacity, n, steps);
    var c, s := RunTo(cfg, capacity, StartRings(n), steps), After(cfg, Start(n), acts);
    Quiescence.RunInRange(cfg, Start(n), acts);
    more := Settle(cfg, check, capacity, c, s);
  }
}
