/**
 * The network in which every application reads its check requests from the ring of its mempool's output port.
 * It behaves as the network model does, in which a request overwritten in the ring is a lost packet.
 */
module RingNetwork {
  import opened Types
  import opened Pools
  import opened Gossip
  import opened Convergence
  import opened Selection
  import Replies
  import Subscriptions
  import Wire

  type App = Subscriptions.Sub<Packet, Packet>

  /** `sent` holds, per node, the check requests sent on its output port; `mail` is all that is under way otherwise. */
  datatype Rings = Rings(pools: seq<Pool>, mail: seq<Packet>, log: seq<Event>, sent: seq<seq<Packet>>, apps: seq<App>)

  /** Either something under way is handled, as in the network model, or an application takes a turn at its ring. */
  datatype Step = Mail(a: Action) | Turned(node: nat, result: CheckResult)

  function Request(i: nat): Packet -> bool {
    (p: Packet) => p.CheckReq? && p.node == i
  }

  function NoRequest(): Packet -> bool {
    (p: Packet) => !p.CheckReq?
  }

  /** The messages on the channel behind an output port. */
  function Channel(sent: seq<Packet>): seq<Option<Packet>> {
    seq(|sent|, k requires 0 <= k < |sent| => Some(sent[k]))
  }

  /** The application has subscribed and runs; every event of the mempool becomes a check request for it. */
  ghost predicate Listening(sent: seq<Packet>, app: App) {
    app.alive && app.cursor <= |sent| && forall p :: app.convert(p) == Some(p)
  }

  ghost predicate WellFormed(c: Rings) {
    && |c.sent| == |c.apps| == |c.pools|
    && (forall i :: 0 <= i < |c.apps| ==> Listening(c.sent[i], c.apps[i]))
    && (forall i, p :: 0 <= i < |c.sent| && p in c.sent[i] ==> Request(i)(p))
    && (forall p :: p in c.mail ==> NoRequest()(p))
  }

  /** The requests an application has not looked at. */
  function Waiting(c: Rings, i: nat): seq<Packet>
    requires i < |c.sent| && i < |c.apps| && c.apps[i].cursor <= |c.sent[i]|
  {
    c.sent[i][c.apps[i].cursor..]
  }

  function WithoutRings(c: Rings): Sys {
    Sys(c.pools, c.mail, c.log)
  }

  function StartRings(n: nat): Rings {
    Rings(seq(n, _ => EMPTY), [], [], seq(n, _ => []), seq(n, _ => Subscriptions.NewSub(p => Some(p), 0)))
  }

  ghost predicate CanStep(c: Rings, x: Step) {
    match x
    case Mail(a) => Enabled(WithoutRings(c), a)
    case Turned(i, _) => i < |c.apps|
  }

  function Losses(lost: seq<Packet>): seq<Event> {
    seq(|lost|, k requires 0 <= k < |lost| => Lost(lost[k]))
  }

  function TurnOf(capacity: nat, c: Rings, i: nat): App
    requires i < |c.sent| && i < |c.apps|
  {
    Subscriptions.Turn(Channel(c.sent[i]), capacity, c.apps[i], true)
  }

  /** The rest of the mail has become this; check requests go into the ring of their node. */
  function Posted(c: Rings, t: Sys): Rings {
    Rings(t.pools, Select(t.soup, NoRequest()), t.log,
          seq(|c.sent|, i requires 0 <= i < |c.sent| => c.sent[i] + Select(t.soup, Request(i))), c.apps)
  }

  /** The application has been asked about the oldest request. */
  function Asked(cfg: Config, c: Rings, i: nat, t: App, request: Packet, result: CheckResult): Rings
    requires i < |c.pools| && i < |c.apps|
  {
    var r := React(cfg, |c.pools|, c.pools[i], request, result);
    c.(pools := c.pools[i := r.pool], mail := c.mail + r.out, log := c.log + r.events, apps := c.apps[i := t])
  }

  /** One step. An application that turns to its ring may find some gone. */
  ghost function StepTo(cfg: Config, capacity: nat, c: Rings, x: Step): Rings
    requires WellFormed(c) && CanStep(c, x)
  {
    match x
    case Mail(a) => Posted(c, Next(cfg, WithoutRings(c), a))
    case Turned(i, result) =>
      var t, waiting := TurnOf(capacity, c, i), Waiting(c, i);
      if waiting == [] then c
      else if t.lagged > c.apps[i].lagged then
        c.(apps := c.apps[i := t], log := c.log + Losses(waiting[..t.lagged - c.apps[i].lagged]))
      else
        Asked(cfg, c, i, t, waiting[0], result)
  }

  ghost predicate CanRun(cfg: Config, capacity: nat, c: Rings, steps: seq<Step>)
    decreases |steps|
  {
    steps == [] ||
    (WellFormed(c) && CanStep(c, steps[0]) && CanRun(cfg, capacity, StepTo(cfg, capacity, c, steps[0]), steps[1..]))
  }

  ghost function RunTo(cfg: Config, capacity: nat, c: Rings, steps: seq<Step>): Rings
    requires CanRun(cfg, capacity, c, steps)
    decreases |steps|
  {
    if steps == [] then c else RunTo(cfg, capacity, StepTo(cfg, capacity, c, steps[0]), steps[1..])
  }

  // ---------------------------------------------------------------------------------------------
  // What the network model makes of it
  // ---------------------------------------------------------------------------------------------

  /** The same state, with the requests not looked at among the packets under way. */
  ghost predicate Stands(c: Rings, s: Sys)
    requires WellFormed(c)
  {
    && s.pools == c.pools && s.log == c.log
    && Select(s.soup, NoRequest()) == c.mail
    && (forall i :: 0 <= i < |c.pools| ==> Select(s.soup, Request(i)) == Waiting(c, i))
    && (forall p :: p in s.soup && p.CheckReq? ==> p.node < |c.pools|)
  }

  /** What a turn does, in terms of the requests that wait. */
  lemma TurnCases(capacity: nat, c: Rings, i: nat)
    requires WellFormed(c) && i < |c.apps|
    ensures var t, app, waiting := TurnOf(capacity, c, i), c.apps[i], Waiting(c, i);
      && Listening(c.sent[i], t) && t.cursor >= app.cursor
      && (waiting == [] ==> t == app)
      && (|waiting| > capacity ==>
            && t.lagged - app.lagged == t.cursor - app.cursor == |waiting| - capacity
            && t.forwarded == app.forwarded)
      && (0 < |waiting| <= capacity ==>
            t.lagged == app.lagged && t.cursor == app.cursor + 1 && t.forwarded == app.forwarded + [waiting[0]])
  {
  }

  lemma NewRequestsAreHere(cfg: Config, n: nat, p: Pool, packet: Packet, result: CheckResult)
    ensures forall q :: q in React(cfg, n, p, packet, result).out && q.CheckReq? ==> q.node == packet.node
  {
    if packet.BroadcastMsg? {
      forall q | q in React(cfg, n, p, packet, result).out ensures q.WireMsg? {
        FanoutTargets(n, packet.node, Wire.ToNetworkBytes(packet.batch), q);
      }
    }
  }

  /** The soup of the network model after a step on the rest of the mail, given the one before it. */
  ghost predicate Extends(soup: seq<Packet>, mail: seq<Packet>, next: seq<Packet>) {
    && Select(next, NoRequest()) == Select(mail, NoRequest())
    && (forall i: nat :: Select(next, Request(i)) == Select(soup, Request(i)) + Select(mail, Request(i)))
  }

  /** Appending to a soup from which one packet other than a request may have been taken. */
  lemma AppendedAfter(soup: seq<Packet>, base: seq<Packet>, mail: seq<Packet>, out: seq<Packet>)
    requires Select(base, NoRequest()) == mail && forall p :: p in mail ==> NoRequest()(p)
    requires forall i: nat :: Select(base, Request(i)) == Select(soup, Request(i))
    ensures Extends(soup, mail + out, base + out)
  {
    AppendToSelected(base, mail, out, NoRequest());
    forall i: nat
      ensures Select(base + out, Request(i)) == Select(soup, Request(i)) + Select(mail + out, Request(i))
    {
      AppendToOthers(base, mail, out, Request(i));
    }
  }

  lemma NothingAppended(soup: seq<Packet>, base: seq<Packet>, mail: seq<Packet>)
    requires Select(base, NoRequest()) == mail && forall p :: p in mail ==> NoRequest()(p)
    requires forall i: nat :: Select(base, Request(i)) == Select(soup, Request(i))
    ensures Extends(soup, mail, base)
  {
    AppendedAfter(soup, base, mail, []);
    assert mail + [] == mail && base + [] == base;
  }

  /** Where a packet of the mail is among all packets, and what is left without it. */
  lemma TakeMail(soup: seq<Packet>, k: nat) returns (j: nat)
    requires k < |Select(soup, NoRequest())|
    ensures j < |soup| && soup[j] == Select(soup, NoRequest())[k]
    ensures Select(Without(soup, j), NoRequest()) == Without(Select(soup, NoRequest()), k)
    ensures forall i: nat :: Select(Without(soup, j), Request(i)) == Select(soup, Request(i))
  {
    j := Find(soup, NoRequest(), k);
    FindAndRemove(soup, NoRequest(), k);
    forall i: nat ensures Select(Without(soup, j), Request(i)) == Select(soup, Request(i)) {
      RemoveOther(soup, j, Request(i));
    }
  }

  /** A step on the rest of the mail is a step of the network model. */
  lemma MailIsAStep(cfg: Config, check: Check, c: Rings, s: Sys, a: Action) returns (b: Action)
    requires WellFormed(c) && Stands(c, s) && Enabled(WithoutRings(c), a)
    ensures Enabled(s, b) && Next(cfg, s, b).pools == Next(cfg, WithoutRings(c), a).pools
    ensures Next(cfg, s, b).log == Next(cfg, WithoutRings(c), a).log
    ensures Extends(s.soup, Next(cfg, WithoutRings(c), a).soup, Next(cfg, s, b).soup)
    ensures Calm(check, WithoutRings(c), a) ==> Calm(check, s, b)
    ensures a.Deliver? ==> b.Deliver?
  {
    b := a;
    match a
    case Submit(i, tx, port) => AppendedAfter(s.soup, s.soup, c.mail, [AddMsg(i, tx, port)]);
    case Deliver(k, result) =>
      var packet := c.mail[k];
      var j := TakeMail(s.soup, k);
      b := Deliver(j, result);
      AppendedAfter(s.soup, Without(s.soup, j), Without(c.mail, k),
                    React(cfg, |c.pools|, c.pools[packet.node], packet, result).out);
    case Lose(k) =>
      var j := TakeMail(s.soup, k);
      b := Lose(j);
      NothingAppended(s.soup, Without(s.soup, j), Without(c.mail, k));
    case RemoveAt(_, _, _) => NothingAppended(s.soup, s.soup, c.mail);
  }

  /** Where the oldest request of a node is among all packets, and what is left without it. */
  lemma TakeRequest(soup: seq<Packet>, i: nat) returns (j: nat)
    requires Select(soup, Request(i)) != []
    ensures j < |soup| && soup[j] == Select(soup, Request(i))[0] && Request(i)(soup[j])
    ensures Select(Without(soup, j), NoRequest()) == Select(soup, NoRequest())
    ensures Select(Without(soup, j), Request(i)) == Select(soup, Request(i))[1..]
    ensures forall l: nat :: l != i ==> Select(Without(soup, j), Request(l)) == Select(soup, Request(l))
  {
    j := Find(soup, Request(i), 0);
    FindAndRemove(soup, Request(i), 0);
    RemoveOther(soup, j, NoRequest());
    forall l: nat | l != i ensures Select(Without(soup, j), Request(l)) == Select(soup, Request(l)) {
      RemoveOther(soup, j, Request(l));
    }
  }

  /** Only requests of one node have left. */
  ghost predicate Drops(s: Sys, i: nat, d: nat, t: Sys) {
    && d <= |Select(s.soup, Request(i))|
    && t.pools == s.pools && t.log == s.log + Losses(Select(s.soup, Request(i))[..d])
    && Select(t.soup, NoRequest()) == Select(s.soup, NoRequest())
    && Select(t.soup, Request(i)) == Select(s.soup, Request(i))[d..]
    && (forall l: nat :: l != i ==> Select(t.soup, Request(l)) == Select(s.soup, Request(l)))
    && (forall p :: p in t.soup ==> p in s.soup)
  }

  lemma DropsNone(s: Sys, i: nat)
    ensures Drops(s, i, 0, s)
  {
    assert Losses(Select(s.soup, Request(i))[..0]) == [];
  }

  lemma LossesUnfold(log: seq<Event>, waiting: seq<Packet>, d: nat)
    requires 0 < d <= |waiting|
    ensures log + [Lost(waiting[0])] + Losses(waiting[1..][..d - 1]) == log + Losses(waiting[..d])
    ensures waiting[1..][d - 1..] == waiting[d..]
  {
  }

  /** What the ring overwrites is lost in the network model, packet by packet. */
  lemma {:induction false} DropOldest(cfg: Config, s: Sys, i: nat, d: nat) returns (acts: seq<Action>)
    requires d <= |Select(s.soup, Request(i))|
    ensures Possible(cfg, s, acts) && Drops(s, i, d, After(cfg, s, acts))
    decreases d
  {
    if d == 0 {
      acts := [];
      DropsNone(s, i);
    } else {
      var j := TakeRequest(s.soup, i);
      var t := Next(cfg, s, Lose(j));
      var rest := DropOldest(cfg, t, i, d - 1);
      LossesUnfold(s.log, Select(s.soup, Request(i)), d);
      acts := [Lose(j)] + rest;
      assert acts[1..] == rest;
    }
  }

  /** Forwarding the oldest request to the application delivers it in the network model. */
  lemma AnswerOldest(cfg: Config, s: Sys, i: nat, result: CheckResult) returns (j: nat)
    requires i < |s.pools| && Select(s.soup, Request(i)) != []
    ensures Enabled(s, Deliver(j, result)) && s.soup[j] == Select(s.soup, Request(i))[0]
    ensures var t, r := Next(cfg, s, Deliver(j, result)),
                        React(cfg, |s.pools|, s.pools[i], Select(s.soup, Request(i))[0], result);
      && t.pools == s.pools[i := r.pool] && t.log == s.log + r.events
      && Select(t.soup, NoRequest()) == Select(s.soup, NoRequest()) + r.out
      && Select(t.soup, Request(i)) == Select(s.soup, Request(i))[1..]
      && (forall l: nat :: l != i ==> Select(t.soup, Request(l)) == Select(s.soup, Request(l)))
      && (forall p :: p in t.soup && p.CheckReq? ==> p in s.soup)
  {
    j := TakeRequest(s.soup, i);
    var q := s.soup[j];
    var answer := CheckRes(i, q.tx, result, q.reply);
    assert React(cfg, |s.pools|, s.pools[i], q, result).out == [answer];
    SelectLast(Without(s.soup, j), answer, NoRequest());
    forall l: nat ensures Select(Without(s.soup, j) + [answer], Request(l)) == Select(Without(s.soup, j), Request(l)) {
      SelectLast(Without(s.soup, j), answer, Request(l));
    }
  }

  // ---------------------------------------------------------------------------------------------
  // Simulation
  // ---------------------------------------------------------------------------------------------

  predicate HonestOn(check: Check, p: Packet, result: CheckResult) {
    p.CheckReq? ==> result == check(p.tx)
  }

  /** Nothing is lost or removed, verdicts are honest, and no application has fallen behind by more than the capacity. */
  ghost predicate Undisturbed(check: Check, capacity: nat, c: Rings, x: Step)
    requires WellFormed(c) && CanStep(c, x)
  {
    match x
    case Mail(a) => Calm(check, WithoutRings(c), a)
    case Turned(i, result) =>
      Waiting(c, i) == [] || (|Waiting(c, i)| <= capacity && HonestOn(check, Waiting(c, i)[0], result))
  }

  lemma PostedIsWellFormed(c: Rings, t: Sys)
    requires WellFormed(c) && |t.pools| == |c.pools|
    ensures WellFormed(Posted(c, t))
    ensures forall i :: 0 <= i < |c.apps| ==> Waiting(Posted(c, t), i) == Waiting(c, i) + Select(t.soup, Request(i))
  {
    var d := Posted(c, t);
    forall i, p | 0 <= i < |d.sent| && p in d.sent[i] ensures Request(i)(p) {
      assert d.sent[i] == c.sent[i] + Select(t.soup, Request(i));
      SelectMembers(t.soup, Request(i), p);
    }
    forall p | p in d.mail ensures NoRequest()(p) {
      SelectMembers(t.soup, NoRequest(), p);
    }
    forall i | 0 <= i < |c.apps| ensures Waiting(d, i) == Waiting(c, i) + Select(t.soup, Request(i)) {
      var sent, more, k := c.sent[i], Select(t.soup, Request(i)), c.apps[i].cursor;
      assert d.sent[i] == sent + more && (sent + more)[k..] == sent[k..] + more;
    }
  }

  lemma PostedStands(c: Rings, s: Sys, t: Sys, u: Sys)
    requires WellFormed(c) && Stands(c, s) && |t.pools| == |c.pools| && u.pools == t.pools && u.log == t.log
    requires Extends(s.soup, t.soup, u.soup)
    requires forall p :: p in t.soup && p.CheckReq? ==> p.node < |c.pools|
    ensures WellFormed(Posted(c, t)) && Stands(Posted(c, t), u)
  {
    PostedIsWellFormed(c, t);
    forall p | p in u.soup && p.CheckReq? ensures p.node < |c.pools| {
      SelectMembers(u.soup, Request(p.node), p);
      SelectMembers(s.soup, Request(p.node), p);
      SelectMembers(t.soup, Request(p.node), p);
    }
  }

  lemma RequestsInRange(cfg: Config, c: Rings, a: Action)
    requires WellFormed(c) && Enabled(WithoutRings(c), a)
    ensures |Next(cfg, WithoutRings(c), a).pools| == |c.pools|
    ensures forall p :: p in Next(cfg, WithoutRings(c), a).soup && p.CheckReq? ==> p.node < |c.pools|
  {
    forall p | p in Next(cfg, WithoutRings(c), a).soup && p.CheckReq? ensures p.node < |c.pools| {
      assert p !in c.mail;
      if a.Deliver? {
        NewRequestsAreHere(cfg, |c.pools|, c.pools[c.mail[a.k].node], c.mail[a.k], a.result);
        assert p in React(cfg, |c.pools|, c.pools[c.mail[a.k].node], c.mail[a.k], a.result).out;
      }
    }
  }

  lemma MailSimulated(cfg: Config, check: Check, capacity: nat, c: Rings, s: Sys, a: Action) returns (b: Action)
    requires WellFormed(c) && Stands(c, s) && CanStep(c, Mail(a))
    ensures WellFormed(StepTo(cfg, capacity, c, Mail(a))) && Enabled(s, b)
    ensures Stands(StepTo(cfg, capacity, c, Mail(a)), Next(cfg, s, b))
    ensures Calm(check, WithoutRings(c), a) ==> Calm(check, s, b)
    ensures a.Deliver? ==> b.Deliver?
  {
    b := MailIsAStep(cfg, check, c, s, a);
    RequestsInRange(cfg, c, a);
    PostedStands(c, s, Next(cfg, WithoutRings(c), a), Next(cfg, s, b));
  }

  lemma DropStands(c: Rings, s: Sys, i: nat, t: App, d: nat, u: Sys)
    requires WellFormed(c) && Stands(c, s) && i < |c.apps| && Listening(c.sent[i], t)
    requires t.cursor == c.apps[i].cursor + d && Drops(s, i, d, u)
    ensures var e := c.(apps := c.apps[i := t], log := c.log + Losses(Waiting(c, i)[..d]));
      WellFormed(e) && Stands(e, u)
  {
    var sent, k := c.sent[i], c.apps[i].cursor;
    assert sent[k..][d..] == sent[k + d..];
  }

  lemma AskedIsWellFormed(cfg: Config, c: Rings, i: nat, t: App, result: CheckResult)
    requires WellFormed(c) && i < |c.apps| && Waiting(c, i) != []
    requires Listening(c.sent[i], t) && t.cursor == c.apps[i].cursor + 1
    ensures var e := Asked(cfg, c, i, t, Waiting(c, i)[0], result);
      && WellFormed(e) && Waiting(e, i) == Waiting(c, i)[1..]
      && forall l :: 0 <= l < |c.apps| && l != i ==> Waiting(e, l) == Waiting(c, l)
  {
    assert Waiting(c, i)[0] in c.sent[i];
  }

  lemma AskedStands(cfg: Config, c: Rings, s: Sys, i: nat, t: App, result: CheckResult) returns (j: nat)
    requires WellFormed(c) && Stands(c, s) && i < |c.apps| && Waiting(c, i) != []
    requires Listening(c.sent[i], t) && t.cursor == c.apps[i].cursor + 1
    ensures WellFormed(Asked(cfg, c, i, t, Waiting(c, i)[0], result))
    ensures Enabled(s, Deliver(j, result)) && s.soup[j] == Waiting(c, i)[0]
    ensures Stands(Asked(cfg, c, i, t, Waiting(c, i)[0], result), Next(cfg, s, Deliver(j, result)))
  {
    j := AnswerOldest(cfg, s, i, result);
    AskedIsWellFormed(cfg, c, i, t, result);
  }

  lemma OneStep(cfg: Config, check: Check, s: Sys, a: Action)
    requires Enabled(s, a)
    ensures Possible(cfg, s, [a]) && After(cfg, s, [a]) == Next(cfg, s, a)
    ensures Calm(check, s, a) ==> CalmRun(cfg, check, s, [a])
  {
    assert [a][1..] == [];
    assert After(cfg, Next(cfg, s, a), []) == Next(cfg, s, a);
  }

  /** A turn that finds the ring overrun loses exactly the requests reported as dropped; any other loses none. */
  lemma TurnSimulated(cfg: Config, check: Check, capacity: nat, c: Rings, s: Sys, i: nat, result: CheckResult)
    returns (acts: seq<Action>)
    requires WellFormed(c) && Stands(c, s) && CanStep(c, Turned(i, result))
    ensures WellFormed(StepTo(cfg, capacity, c, Turned(i, result))) && Possible(cfg, s, acts)
    ensures Stands(StepTo(cfg, capacity, c, Turned(i, result)), After(cfg, s, acts))
    ensures Undisturbed(check, capacity, c, Turned(i, result)) ==> CalmRun(cfg, check, s, acts)
  {
    var t, waiting := TurnOf(capacity, c, i), Waiting(c, i);
    TurnCases(capacity, c, i);
    acts := [];
    if |waiting| > capacity {
      acts := DropOldest(cfg, s, i, |waiting| - capacity);
      DropStands(c, s, i, t, |waiting| - capacity, After(cfg, s, acts));
    } else if waiting != [] {
      var j := AskedStands(cfg, c, s, i, t, result);
      OneStep(cfg, check, s, Deliver(j, result));
      acts := [Deliver(j, result)];
    }
  }

  /** Each step is a stretch of steps of the network model. */
  lemma StepSimulated(cfg: Config, check: Check, capacity: nat, c: Rings, s: Sys, x: Step) returns (acts: seq<Action>)
    requires WellFormed(c) && Stands(c, s) && CanStep(c, x)
    ensures WellFormed(StepTo(cfg, capacity, c, x)) && Possible(cfg, s, acts)
    ensures Stands(StepTo(cfg, capacity, c, x), After(cfg, s, acts))
    ensures Undisturbed(check, capacity, c, x) ==> CalmRun(cfg, check, s, acts)
  {
    match x
    case Mail(a) =>
      var b := MailSimulated(cfg, check, capacity, c, s, a);
      OneStep(cfg, check, s, b);
      acts := [b];
    case Turned(i, result) => acts := TurnSimulated(cfg, check, capacity, c, s, i, result);
  }

  /** Every step of the run is undisturbed. */
  ghost predicate UndisturbedRun(cfg: Config, check: Check, capacity: nat, c: Rings, steps: seq<Step>)
    requires CanRun(cfg, capacity, c, steps)
    decreases |steps|
  {
    steps == [] ||
    (Undisturbed(check, capacity, c, steps[0]) &&
     UndisturbedRun(cfg, check, capacity, StepTo(cfg, capacity, c, steps[0]), steps[1..]))
  }

  lemma {:induction false} RunsCompose(cfg: Config, check: Check, s: Sys, a: seq<Action>, b: seq<Action>)
    requires Possible(cfg, s, a) && Possible(cfg, After(cfg, s, a), b)
    ensures Possible(cfg, s, a + b) && After(cfg, s, a + b) == After(cfg, After(cfg, s, a), b)
    ensures CalmRun(cfg, check, s, a) && CalmRun(cfg, check, After(cfg, s, a), b) ==> CalmRun(cfg, check, s, a + b)
    decreases |a|
  {
    if a == [] {
      assert a + b == b;
    } else {
      assert (a + b)[1..] == a[1..] + b;
      RunsCompose(cfg, check, Next(cfg, s, a[0]), a[1..], b);
    }
  }

  lemma {:induction false} RunSimulated(cfg: Config, check: Check, capacity: nat, c: Rings, s: Sys, steps: seq<Step>)
    returns (acts: seq<Action>)
    requires WellFormed(c) && Stands(c, s) && CanRun(cfg, capacity, c, steps)
    ensures WellFormed(RunTo(cfg, capacity, c, steps)) && Possible(cfg, s, acts)
    ensures Stands(RunTo(cfg, capacity, c, steps), After(cfg, s, acts))
    ensures UndisturbedRun(cfg, check, capacity, c, steps) ==> CalmRun(cfg, check, s, acts)
    decreases |steps|
  {
    acts := [];
    if steps != [] {
      var first := StepSimulated(cfg, check, capacity, c, s, steps[0]);
      var rest := RunSimulated(cfg, check, capacity, StepTo(cfg, capacity, c, steps[0]), After(cfg, s, first), steps[1..]);
      RunsCompose(cfg, check, s, first, rest);
      acts := first + rest;
    }
  }

  lemma StartStands(n: nat)
    ensures WellFormed(StartRings(n)) && Stands(StartRings(n), Start(n))
  {
  }

  /** Nothing is under way, in the mail or in a ring. */
  ghost predicate AtRest(c: Rings)
    requires WellFormed(c)
  {
    c.mail == [] && forall i :: 0 <= i < |c.apps| ==> Waiting(c, i) == []
  }

  lemma PacketIsSomewhere(c: Rings, s: Sys, p: Packet)
    requires WellFormed(c) && Stands(c, s) && p in s.soup
    ensures p in c.mail || (p.node < |c.apps| && p in Waiting(c, p.node))
  {
    SelectMembers(s.soup, NoRequest(), p);
    SelectMembers(s.soup, Request(p.node), p);
  }

  lemma RestIsRest(c: Rings, s: Sys)
    requires WellFormed(c) && Stands(c, s) && AtRest(c)
    ensures s.soup == []
  {
    if s.soup != [] {
      PacketIsSomewhere(c, s, s.soup[0]);
    }
  }

  /** A ring network does what the network model does: its end state, with its rings, is one the model reaches. */
  lemma RingRunsAreRuns(cfg: Config, check: Check, capacity: nat, n: nat, steps: seq<Step>) returns (acts: seq<Action>)
    requires CanRun(cfg, capacity, StartRings(n), steps)
    ensures WellFormed(RunTo(cfg, capacity, StartRings(n), steps)) && Possible(cfg, Start(n), acts)
    ensures Stands(RunTo(cfg, capacity, StartRings(n), steps), After(cfg, Start(n), acts))
    ensures UndisturbedRun(cfg, check, capacity, StartRings(n), steps) ==> CalmRun(cfg, check, Start(n), acts)
  {
    StartStands(n);
    acts := RunSimulated(cfg, check, capacity, StartRings(n), Start(n), steps);
  }

  /**
   * If no application ever falls behind by more than the ring holds, and nothing else is lost, all pools converge
   * once mail and rings are empty.
   */
  lemma KeepingUpConverges(cfg: Config, check: Check, capacity: nat, n: nat, steps: seq<Step>)
    requires CanRun(cfg, capacity, StartRings(n), steps) && Injective(check)
    requires UndisturbedRun(cfg, check, capacity, StartRings(n), steps)
    ensures WellFormed(RunTo(cfg, capacity, StartRings(n), steps))
    ensures var c := RunTo(cfg, capacity, StartRings(n), steps); var all := ValidSubmissions(check, c.log);
      AtRest(c) && |all| <= cfg.maxPoolSize ==>
        |c.pools| == n && forall p :: p in c.pools ==> Holds(check, p, all)
  {
    var acts := RingRunsAreRuns(cfg, check, capacity, n, steps);
    var c := RunTo(cfg, capacity, StartRings(n), steps);
    if AtRest(c) && |ValidSubmissions(check, c.log)| <= cfg.maxPoolSize {
      RestIsRest(c, After(cfg, Start(n), acts));
      AllPoolsConverge(cfg, check, n, acts);
    }
  }

  /** Likewise every request made has then been answered exactly once. */
  lemma KeepingUpAnswers(cfg: Config, check: Check, capacity: nat, n: nat, steps: seq<Step>, port: Port)
    requires CanRun(cfg, capacity, StartRings(n), steps)
    requires UndisturbedRun(cfg, check, capacity, StartRings(n), steps)
    ensures WellFormed(RunTo(cfg, capacity, StartRings(n), steps))
    ensures var c := RunTo(cfg, capacity, StartRings(n), steps);
      AtRest(c) ==> Sum(c.log, Replies.AnsweredOn(port)) == Sum(c.log, Replies.SubmittedOn(port)) <= 1
  {
    var acts := RingRunsAreRuns(cfg, check, capacity, n, steps);
    var c := RunTo(cfg, capacity, StartRings(n), steps);
    if AtRest(c) {
      RestIsRest(c, After(cfg, Start(n), acts));
      CalmRunsLoseNothing(cfg, check, Start(n), acts);
      Replies.QuiescentMeansAnswered(cfg, n, acts, port);
    }
  }

  // ---------------------------------------------------------------------------------------------
  // What the channel reports as dropped
  // ---------------------------------------------------------------------------------------------

  function RequestLost(i: nat): Event -> nat {
    (e: Event) => if e.Lost? && Request(i)(e.packet) then 1 else 0
  }

  lemma OneLoss(p: Packet, i: nat, l: nat)
    ensures Request(i)(p) ==> RequestLost(l)(Lost(p)) == if l == i then 1 else 0
    ensures NoRequest()(p) ==> RequestLost(l)(Lost(p)) == 0
  {
    assert Lost(p).Lost? && Lost(p).packet == p;
    assert Request(l)(p) <==> p.CheckReq? && p.node == l;
  }

  lemma {:induction false} CountLosses(lost: seq<Packet>, i: nat, l: nat)
    requires forall p :: p in lost ==> Request(i)(p)
    ensures Sum(Losses(lost), RequestLost(l)) == if l == i then |lost| else 0
  {
    if lost != [] {
      var front := lost[..|lost| - 1];
      CountLosses(front, i, l);
      SumLast(Losses(lost), RequestLost(l));
      assert Losses(lost)[..|lost| - 1] == Losses(front);
      OneLoss(lost[|lost| - 1], i, l);
    }
  }

  lemma ReactionsLoseNothing(cfg: Config, n: nat, p: Pool, packet: Packet, result: CheckResult, l: nat)
    ensures Sum(React(cfg, n, p, packet, result).events, RequestLost(l)) == 0
  {
    SmallSum(React(cfg, n, p, packet, result).events, RequestLost(l));
  }

  lemma MailLosesNoRequest(cfg: Config, c: Rings, a: Action, l: nat)
    requires WellFormed(c) && Enabled(WithoutRings(c), a)
    ensures Sum(Next(cfg, WithoutRings(c), a).log, RequestLost(l)) == Sum(c.log, RequestLost(l))
  {
    match a
    case Submit(i, tx, port) =>
      SumSplit(c.log, [Submitted(i, tx, port)], RequestLost(l));
      SumOne(Submitted(i, tx, port), RequestLost(l));
    case Deliver(k, result) =>
      var packet := c.mail[k];
      ReactionsLoseNothing(cfg, |c.pools|, c.pools[packet.node], packet, result, l);
      SumSplit(c.log, React(cfg, |c.pools|, c.pools[packet.node], packet, result).events, RequestLost(l));
    case Lose(k) =>
      OneLoss(c.mail[k], l, l);
      SumSplit(c.log, [Lost(c.mail[k])], RequestLost(l));
      SumOne(Lost(c.mail[k]), RequestLost(l));
    case RemoveAt(_, _, _) =>
  }

  lemma TurnLosesWhatIsReported(cfg: Config, capacity: nat, c: Rings, i: nat, result: CheckResult, l: nat)
    requires WellFormed(c) && i < |c.apps| && l < |c.apps|
    ensures var d := StepTo(cfg, capacity, c, Turned(i, result));
      && |d.apps| == |c.apps|
      && Sum(d.log, RequestLost(l)) - Sum(c.log, RequestLost(l)) == d.apps[l].lagged - c.apps[l].lagged
  {
    var waiting := Waiting(c, i);
    TurnCases(capacity, c, i);
    if |waiting| > capacity {
      var lost := waiting[..|waiting| - capacity];
      assert forall p :: p in lost ==> p in c.sent[i];
      CountLosses(lost, i, l);
      SumSplit(c.log, Losses(lost), RequestLost(l));
    } else if waiting != [] {
      ReactionsLoseNothing(cfg, |c.pools|, c.pools[i], waiting[0], result, l);
      SumSplit(c.log, React(cfg, |c.pools|, c.pools[i], waiting[0], result).events, RequestLost(l));
    }
  }

  lemma {:induction false} LossMatchesReport(cfg: Config, capacity: nat, c: Rings, s: Sys, steps: seq<Step>, l: nat)
    requires WellFormed(c) && Stands(c, s) && CanRun(cfg, capacity, c, steps) && l < |c.apps|
    ensures var d := RunTo(cfg, capacity, c, steps);
      && |d.apps| == |c.apps|
      && Sum(d.log, RequestLost(l)) - Sum(c.log, RequestLost(l)) == d.apps[l].lagged - c.apps[l].lagged
    decreases |steps|
  {
    if steps != [] {
      match steps[0] {
        case Mail(a) => MailLosesNoRequest(cfg, c, a, l);
        case Turned(i, result) => TurnLosesWhatIsReported(cfg, capacity, c, i, result, l);
      }
      var acts := StepSimulated(cfg, _ => AppError(""), capacity, c, s, steps[0]);
      LossMatchesReport(cfg, capacity, StepTo(cfg, capacity, c, steps[0]), After(cfg, s, acts), steps[1..], l);
    }
  }

  /** In every run as many check requests of a node are lost as its channel reported as dropped, no more and no fewer. */
  lemma LostIsReported(cfg: Config, capacity: nat, n: nat, steps: seq<Step>, l: nat)
    requires CanRun(cfg, capacity, StartRings(n), steps) && l < n
    ensures var c := RunTo(cfg, capacity, StartRings(n), steps);
      |c.apps| == n && Sum(c.log, RequestLost(l)) == c.apps[l].lagged
  {
    StartStands(n);
    LossMatchesReport(cfg, capacity, StartRings(n), Start(n), steps, l);
  }

  // ---------------------------------------------------------------------------------------------
  // What the applications are asked about
  // ---------------------------------------------------------------------------------------------

  function JudgedAt(i: nat): Event -> bool {
    (e: Event) => e.Judged? && e.node == i
  }

  /** The transactions judged at a node, oldest first. */
  function Judgements(log: seq<Event>, i: nat): seq<RawTx> {
    var judged := Select(log, JudgedAt(i));
    seq(|judged|, k requires 0 <= k < |judged| => if judged[k].Judged? then judged[k].tx else [])
  }

  /** The transactions these requests are about. */
  function Subjects(requests: seq<Packet>): seq<RawTx> {
    seq(|requests|, k requires 0 <= k < |requests| => if requests[k].CheckReq? then requests[k].tx else [])
  }

  lemma NoJudgement(log: seq<Event>, more: seq<Event>, i: nat)
    requires forall e :: e in more ==> !JudgedAt(i)(e)
    ensures Judgements(log + more, i) == Judgements(log, i)
  {
    SelectSplit(log, more, JudgedAt(i));
    SelectNone(more, JudgedAt(i));
  }

  lemma OneJudgement(log: seq<Event>, i: nat, tx: RawTx, result: CheckResult)
    ensures Judgements(log + [Judged(i, tx, result)], i) == Judgements(log, i) + [tx]
  {
    SelectLast(log, Judged(i, tx, result), JudgedAt(i));
  }

  lemma MailJudgesNothing(cfg: Config, c: Rings, a: Action, l: nat)
    requires WellFormed(c) && Enabled(WithoutRings(c), a)
    ensures Judgements(Next(cfg, WithoutRings(c), a).log, l) == Judgements(c.log, l)
  {
    match a
    case Submit(i, tx, port) => NoJudgement(c.log, [Submitted(i, tx, port)], l);
    case Deliver(k, result) =>
      var packet := c.mail[k];
      assert NoRequest()(packet);
      NoJudgement(c.log, React(cfg, |c.pools|, c.pools[packet.node], packet, result).events, l);
    case Lose(k) => NoJudgement(c.log, [Lost(c.mail[k])], l);
    case RemoveAt(_, _, _) =>
  }

  /** A turn judges the request it forwards, and nothing else is judged. */
  lemma TurnJudgesTheForwarded(cfg: Config, capacity: nat, c: Rings, i: nat, result: CheckResult, l: nat)
    requires WellFormed(c) && i < |c.apps| && l < |c.apps|
    requires Judgements(c.log, l) == Subjects(c.apps[l].forwarded)
    ensures var d := StepTo(cfg, capacity, c, Turned(i, result));
      |d.apps| == |c.apps| && Judgements(d.log, l) == Subjects(d.apps[l].forwarded)
  {
    var waiting := Waiting(c, i);
    TurnCases(capacity, c, i);
    if |waiting| > capacity {
      NoJudgement(c.log, Losses(waiting[..|waiting| - capacity]), l);
    } else if waiting != [] {
      assert waiting[0] in c.sent[i];
      var asked := Judged(i, waiting[0].tx, result);
      assert React(cfg, |c.pools|, c.pools[i], waiting[0], result).events == [asked];
      if l == i {
        OneJudgement(c.log, i, waiting[0].tx, result);
        assert Subjects(c.apps[i].forwarded + [waiting[0]]) == Subjects(c.apps[i].forwarded) + [waiting[0].tx];
      } else {
        NoJudgement(c.log, [asked], l);
      }
    }
  }

  lemma {:induction false} ForwardedAreJudgedFrom(
      cfg: Config, capacity: nat, c: Rings, s: Sys, steps: seq<Step>, l: nat)
    requires WellFormed(c) && Stands(c, s) && CanRun(cfg, capacity, c, steps) && l < |c.apps|
    requires Judgements(c.log, l) == Subjects(c.apps[l].forwarded)
    ensures var d := RunTo(cfg, capacity, c, steps);
      |d.apps| == |c.apps| && Judgements(d.log, l) == Subjects(d.apps[l].forwarded)
    decreases |steps|
  {
    if steps != [] {
      match steps[0] {
        case Mail(a) => MailJudgesNothing(cfg, c, a, l);
        case Turned(i, result) => TurnJudgesTheForwarded(cfg, capacity, c, i, result, l);
      }
      var acts := StepSimulated(cfg, _ => AppError(""), capacity, c, s, steps[0]);
      ForwardedAreJudgedFrom(cfg, capacity, StepTo(cfg, capacity, c, steps[0]), After(cfg, s, acts), steps[1..], l);
    }
  }

  /** In every run an application judges exactly the requests its subscription forwards, in the order it forwards them. */
  lemma ForwardedAreJudged(cfg: Config, capacity: nat, n: nat, steps: seq<Step>, l: nat)
    requires CanRun(cfg, capacity, StartRings(n), steps) && l < n
    ensures var c := RunTo(cfg, capacity, StartRings(n), steps);
      |c.apps| == n && Judgements(c.log, l) == Subjects(c.apps[l].forwarded)
  {
    StartStands(n);
    ForwardedAreJudgedFrom(cfg, capacity, StartRings(n), Start(n), steps, l);
  }
}
