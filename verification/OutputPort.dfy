/** A subscriber of an output port, and what one turn of its forwarding loop does to it. */
module Subscriptions {
  import opened Types

  /**
   * `start` and `cursor` count messages sent on the port. `positions` records where each forwarded
   * message came from, and `lagged` adds up what the channel reported as dropped.
   */
  datatype Sub<!M, N> = Sub(
    convert: M -> Option<N>,
    start: nat,
    cursor: nat,
    forwarded: seq<N>,
    positions: seq<nat>,
    skipped: nat,
    lagged: nat,
    alive: bool)

  function NewSub<M, N>(convert: M -> Option<N>, now: nat): Sub<M, N> {
    Sub(convert, now, now, [], [], 0, 0, true)
  }

  /** Messages sent and not yet looked at. */
  function Backlog<M, N>(history: seq<Option<M>>, s: Sub<M, N>): int {
    |history| - s.cursor
  }

  /** What the receiver is to get for an element of the channel: an empty element is skipped. */
  function Received<M, N>(convert: M -> Option<N>, element: Option<M>): Option<N> {
    match element
    case None => None
    case Some(msg) => convert(msg)
  }

  /** The element is a message that the converter does not drop. */
  predicate Forwards<M, N>(convert: M -> Option<N>, element: Option<M>) {
    element.Some? && convert(element.value).Some?
  }

  /**
   * One turn, given all messages ever sent: nothing is pending, or the oldest retained message is
   * further ahead and the gap is reported, or the next message is converted and forwarded.
   */
  function Turn<M, N>(history: seq<Option<M>>, capacity: nat, s: Sub<M, N>, receiverUp: bool): Sub<M, N>
  {
    if !s.alive || s.cursor >= |history| then s
    else if |history| - s.cursor > capacity then
      s.(cursor := |history| - capacity, lagged := s.lagged + (|history| - capacity - s.cursor))
    else
      match Received(s.convert, history[s.cursor])
      case None => s.(cursor := s.cursor + 1, skipped := s.skipped + 1)
      case Some(n) =>
        if receiverUp then
          s.(cursor := s.cursor + 1, forwarded := s.forwarded + [n], positions := s.positions + [s.cursor])
        else
          s.(cursor := s.cursor + 1, alive := false)
  }

  /**
   * The forwarded messages are a subsequence of those sent since the subscription, in order and
   * without repetition, and every message sent since is accounted for.
   */
  ghost predicate Accounts<M, N>(history: seq<Option<M>>, s: Sub<M, N>) {
    && s.start <= s.cursor <= |history|
    && |s.forwarded| == |s.positions|
    && (forall i :: 0 <= i < |s.positions| ==> s.start <= s.positions[i] < s.cursor)
    && (forall i, j :: 0 <= i < j < |s.positions| ==> s.positions[i] < s.positions[j])
    && (forall i :: 0 <= i < |s.positions| ==>
          Forwards(s.convert, history[s.positions[i]]) && s.convert(history[s.positions[i]].value) == Some(s.forwarded[i]))
    && (|s.forwarded| + s.skipped + s.lagged + Backlog(history, s) + (if s.alive then 0 else 1)
        == |history| - s.start)
  }

  /** A new subscriber has nothing behind it: only messages sent from now on are for it. */
  lemma NewSubStartsHere<M, N>(history: seq<Option<M>>, convert: M -> Option<N>)
    ensures var s := NewSub(convert, |history|);
      && s.alive && s.start == s.cursor == |history| && s.convert == convert
      && s.forwarded == [] && s.skipped == s.lagged == 0
      && Accounts(history, s) && Complete(history, s)
  {
  }

  /** What a turn does to a subscriber, case by case. */
  lemma TurnMeaning<M, N>(history: seq<Option<M>>, capacity: nat, s: Sub<M, N>, up: bool)
    requires s.cursor <= |history|
    ensures var t, waiting := Turn(history, capacity, s, up), Backlog(history, s);
      && (!s.alive || waiting == 0 ==> t == s)
      && (s.alive && waiting > capacity ==>
            t == s.(cursor := |history| - capacity, lagged := s.lagged + (waiting - capacity)))
      && (s.alive && 0 < waiting <= capacity ==>
            match history[s.cursor]
            case None => t == s.(cursor := s.cursor + 1, skipped := s.skipped + 1)
            case Some(m) =>
              match s.convert(m)
              case None => t == s.(cursor := s.cursor + 1, skipped := s.skipped + 1)
              case Some(n) =>
                t == if up then
                       s.(cursor := s.cursor + 1, forwarded := s.forwarded + [n], positions := s.positions + [s.cursor])
                     else s.(cursor := s.cursor + 1, alive := false))
  {
  }

  lemma TurnKeepsAccounts<M, N>(history: seq<Option<M>>, capacity: nat, s: Sub<M, N>, receiverUp: bool)
    requires Accounts(history, s)
    ensures Accounts(history, Turn(history, capacity, s, receiverUp))
  {
  }

  lemma SendKeepsAccounts<M, N>(history: seq<Option<M>>, element: Option<M>, s: Sub<M, N>)
    requires Accounts(history, s)
    ensures Accounts(history + [element], s)
  {
  }

  // ---------------------------------------------------------------------------------------------
  // Runs, as one subscriber sees them
  // ---------------------------------------------------------------------------------------------

  datatype Event<M> = Sent(msg: M) | Turned(receiverUp: bool)

  /** The messages sent in a run. */
  function Messages<M>(events: seq<Event<M>>): seq<Option<M>> {
    if events == [] then []
    else (if events[0].Sent? then [Some(events[0].msg)] else []) + Messages(events[1..])
  }

  function Follow<M, N>(history: seq<Option<M>>, capacity: nat, s: Sub<M, N>, events: seq<Event<M>>): (r: Sub<M, N>)
    decreases |events|
  {
    if events == [] then s
    else match events[0]
      case Sent(m) => Follow(history + [Some(m)], capacity, s, events[1..])
      case Turned(up) => Follow(history, capacity, Turn(history, capacity, s, up), events[1..])
  }

  /** Whenever the subscriber takes a turn, at most `capacity` messages are waiting for it. */
  ghost predicate KeepsUp<M, N>(history: seq<Option<M>>, capacity: nat, s: Sub<M, N>, events: seq<Event<M>>)
    decreases |events|
  {
    if events == [] then true
    else match events[0]
      case Sent(m) => KeepsUp(history + [Some(m)], capacity, s, events[1..])
      case Turned(up) =>
        (s.alive ==> Backlog(history, s) <= capacity) &&
        KeepsUp(history, capacity, Turn(history, capacity, s, up), events[1..])
  }

  lemma MessagesSplit<M>(history: seq<Option<M>>, events: seq<Event<M>>)
    requires events != []
    ensures history + Messages(events)
         == (match events[0] case Sent(m) => history + [Some(m)] case Turned(_) => history) + Messages(events[1..])
  {
  }

  /** The accounts stay balanced over every run. */
  lemma {:induction false} FollowKeepsAccounts<M, N>(
      history: seq<Option<M>>, capacity: nat, s: Sub<M, N>, events: seq<Event<M>>)
    requires Accounts(history, s)
    ensures Accounts(history + Messages(events), Follow(history, capacity, s, events))
    decreases |events|
  {
    if events == [] {
      assert history + [] == history;
    } else {
      MessagesSplit(history, events);
      match events[0]
      case Sent(m) =>
        SendKeepsAccounts(history, Some(m), s);
        FollowKeepsAccounts(history + [Some(m)], capacity, s, events[1..]);
      case Turned(up) =>
        TurnKeepsAccounts(history, capacity, s, up);
        FollowKeepsAccounts(history, capacity, Turn(history, capacity, s, up), events[1..]);
    }
  }

  /** The reported loss never shrinks. */
  lemma {:induction false} LossOnlyGrows<M, N>(history: seq<Option<M>>, capacity: nat, s: Sub<M, N>, events: seq<Event<M>>)
    ensures Follow(history, capacity, s, events).lagged >= s.lagged
    decreases |events|
  {
    if events != [] {
      match events[0]
      case Sent(m) => LossOnlyGrows(history + [Some(m)], capacity, s, events[1..]);
      case Turned(up) => LossOnlyGrows(history, capacity, Turn(history, capacity, s, up), events[1..]);
    }
  }

  /** The channel drops nothing for a subscriber if and only if it is never found more than the capacity behind. */
  lemma {:induction false} LosslessIffKeepsUp<M, N>(
      history: seq<Option<M>>, capacity: nat, s: Sub<M, N>, events: seq<Event<M>>)
    ensures Follow(history, capacity, s, events).lagged == s.lagged <==> KeepsUp(history, capacity, s, events)
    decreases |events|
  {
    if events != [] {
      match events[0]
      case Sent(m) => LosslessIffKeepsUp(history + [Some(m)], capacity, s, events[1..]);
      case Turned(up) =>
        var t := Turn(history, capacity, s, up);
        LosslessIffKeepsUp(history, capacity, t, events[1..]);
        LossOnlyGrows(history, capacity, t, events[1..]);
    }
  }

  /** Every message to be forwarded that the subscriber has passed has been forwarded. */
  ghost predicate Complete<M, N>(history: seq<Option<M>>, s: Sub<M, N>) {
    s.start <= s.cursor <= |history| &&
    (s.alive ==> forall k :: s.start <= k < s.cursor && Forwards(s.convert, history[k]) ==> k in s.positions)
  }

  lemma TurnKeepsComplete<M, N>(history: seq<Option<M>>, capacity: nat, s: Sub<M, N>, up: bool)
    requires Complete(history, s) && (s.alive ==> Backlog(history, s) <= capacity)
    ensures Complete(history, Turn(history, capacity, s, up))
  {
  }

  /**
   * A subscriber that keeps up has forwarded each message it has passed, unless the converter drops it: with its
   * accounts, which never change, exactly those, in order, and converted.
   */
  lemma {:induction false} KeepingUpForwardsAll<M, N>(
      history: seq<Option<M>>, capacity: nat, s: Sub<M, N>, events: seq<Event<M>>)
    requires Complete(history, s) && KeepsUp(history, capacity, s, events)
    ensures Complete(history + Messages(events), Follow(history, capacity, s, events))
    decreases |events|
  {
    if events == [] {
      assert history + [] == history;
    } else {
      MessagesSplit(history, events);
      match events[0]
      case Sent(m) =>
        KeepingUpForwardsAll(history + [Some(m)], capacity, s, events[1..]);
      case Turned(up) =>
        TurnKeepsComplete(history, capacity, s, up);
        KeepingUpForwardsAll(history, capacity, Turn(history, capacity, s, up), events[1..]);
    }
  }

  /** Increasing positions that miss none of a stretch are the stretch. */
  lemma {:induction false} NoGaps(positions: seq<nat>, a: nat, b: nat)
    requires a <= b && forall k :: a <= k < b <==> k in positions
    requires forall i, j :: 0 <= i < j < |positions| ==> positions[i] < positions[j]
    ensures |positions| == b - a && forall j :: 0 <= j < |positions| ==> positions[j] == a + j
    decreases |positions|
  {
    if positions == [] {
      assert a !in positions;
    } else {
      var last := |positions| - 1;
      var front := positions[..last];
      assert positions[last] in positions;
      assert b - 1 in positions;
      forall k ensures a <= k < b - 1 <==> k in front {
        assert k in positions <==> k in front || k == positions[last];
      }
      NoGaps(front, a, b - 1);
    }
  }

  /** The subscriber has forwarded one message for each one sent since it subscribed, up to its cursor. */
  ghost predicate MissesNone<M, N>(history: seq<Option<M>>, s: Sub<M, N>) {
    && s.start <= s.cursor <= |history| && |s.forwarded| == s.cursor - s.start
    && forall j :: 0 <= j < |s.forwarded| ==>
         history[s.start + j].Some? && s.convert(history[s.start + j].value) == Some(s.forwarded[j])
  }

  lemma NoneDropped<M, N>(history: seq<Option<M>>, s: Sub<M, N>)
    requires Accounts(history, s) && Complete(history, s) && s.alive
    requires forall k :: s.start <= k < s.cursor ==> Forwards(s.convert, history[k])
    ensures MissesNone(history, s)
  {
    forall k ensures s.start <= k < s.cursor <==> k in s.positions {
    }
    NoGaps(s.positions, s.start, s.cursor);
  }

  /**
   * From its subscription on, a subscriber that keeps up loses nothing and forwards exactly the messages passed that
   * its converter does not drop, in order and converted. If it drops none of them, that is every one.
   */
  lemma SubscriberSeesAll<M, N>(history: seq<Option<M>>, capacity: nat, convert: M -> Option<N>, events: seq<Event<M>>)
    requires KeepsUp(history, capacity, NewSub(convert, |history|), events)
    ensures var s, all := Follow(history, capacity, NewSub(convert, |history|), events), history + Messages(events);
      && s.start == |history| && s.convert == convert && s.lagged == 0
      && Accounts(all, s) && Complete(all, s)
      && (s.alive && (forall k :: s.start <= k < s.cursor && all[k].Some? ==> convert(all[k].value).Some?) ==>
            MissesNone(all, s))
  {
    var s0 := NewSub(convert, |history|);
    var s, all := Follow(history, capacity, s0, events), history + Messages(events);
    NewSubStartsHere(history, convert);
    FollowKeepsAccounts(history, capacity, s0, events);
    KeepingUpForwardsAll(history, capacity, s0, events);
    LosslessIffKeepsUp(history, capacity, s0, events);
    FollowKeepsOrigin(history, capacity, s0, events);
    MessagesAreMessages(events);
    if s.alive && forall k :: s.start <= k < s.cursor && all[k].Some? ==> convert(all[k].value).Some? {
      forall k | s.start <= k < s.cursor ensures Forwards(s.convert, all[k]) {
        assert all[k] == Messages(events)[k - |history|];
      }
      NoneDropped(all, s);
    }
  }

  lemma {:induction false} MessagesAreMessages<M>(events: seq<Event<M>>)
    ensures forall k :: 0 <= k < |Messages(events)| ==> Messages(events)[k].Some?
  {
    if events != [] {
      MessagesAreMessages(events[1..]);
    }
  }

  /** Start and converter of a subscription never change. */
  lemma {:induction false} FollowKeepsOrigin<M, N>(
      history: seq<Option<M>>, capacity: nat, s: Sub<M, N>, events: seq<Event<M>>)
    ensures var t := Follow(history, capacity, s, events); t.start == s.start && t.convert == s.convert
    decreases |events|
  {
    if events != [] {
      match events[0]
      case Sent(m) => FollowKeepsOrigin(history + [Some(m)], capacity, s, events[1..]);
      case Turned(up) => FollowKeepsOrigin(history, capacity, Turn(history, capacity, s, up), events[1..]);
    }
  }
}

/** The output port: a bounded broadcast ring and the subscriptions reading from it. */
module OutputPorts {
  import opened Types
  import opened Subscriptions

  lemma ResiduesDiffer(a: nat, b: nat, c: nat)
    requires a < b < a + c
    ensures a % c != b % c
  {
    var k := b / c - a / c;
    assert b % c - a % c == b - a - c * k;
    if k <= 0 {
      assert c * k <= 0;
    } else {
      assert c * k >= c;
    }
  }

  class OutputPort<M, N> {
    const capacity: nat
    const slots: array<Option<M>>
    var tail: nat
    var subscriptions: seq<Sub<M, N>>

    /** All messages sent while somebody was listening, including those already overwritten. */
    ghost var history: seq<Option<M>>

    ghost predicate Valid()
      reads this, slots
    {
      && capacity > 0 && slots.Length == capacity
      && tail == |history|
      && (forall pos :: 0 <= pos < tail && tail <= pos + capacity ==> slots[pos % capacity] == history[pos])
      && (forall s :: s in subscriptions ==> Accounts(history, s))
    }

    constructor (capacity: nat)
      requires capacity > 0
      ensures Valid() && fresh(slots)
      ensures this.capacity == capacity && history == [] && subscriptions == []
    {
      this.capacity := capacity;
      slots := new Option<M>[capacity](_ => None);
      tail, subscriptions, history := 0, [], [];
    }

    /** Drops the subscriptions that have died and adds one that starts with the next message. */
    method Subscribe(convert: M -> Option<N>)
      requires Valid()
      modifies this`subscriptions
      ensures Valid()
      ensures |subscriptions| > 0
      ensures KeepsTheLiving(old(subscriptions), subscriptions[..|subscriptions| - 1])
      ensures var s := subscriptions[|subscriptions| - 1];
        s.alive && s.convert == convert && s.start == s.cursor == |history| && s.forwarded == []
      ensures subscriptions == Alive(old(subscriptions)) + [NewSub(convert, |history|)]
    {
      var kept := [];
      var i := 0;
      while i < |subscriptions|
        invariant 0 <= i <= |subscriptions|
        invariant kept == Alive(subscriptions[..i])
        invariant forall s :: s in kept ==> s in subscriptions
      {
        assert subscriptions[..i + 1][..i] == subscriptions[..i];
        if subscriptions[i].alive {
          kept := kept + [subscriptions[i]];
        }
        i := i + 1;
      }
      assert subscriptions[..i] == subscriptions;
      ghost var positions := AliveInOrder(subscriptions);
      subscriptions := kept + [NewSub(convert, tail)];
      assert subscriptions[..|subscriptions| - 1] == kept;
    }

    /** How many receivers the channel has. */
    function ReceiverCount(): nat
      reads this
    {
      |Alive(subscriptions)|
    }

    /** Overwrites the oldest slot, unless nobody listens, in which case the message is gone. */
    method Send(msg: M)
      requires Valid()
      modifies this`tail, this`history, slots
      ensures Valid()
      ensures history == if Listened(subscriptions) then old(history) + [Some(msg)] else old(history)
    {
      ReceiversAreTheLiving(subscriptions);
      if ReceiverCount() > 0 {
        forall pos: nat | pos < tail && tail < pos + capacity
          ensures pos % capacity != tail % capacity
        {
          ResiduesDiffer(pos, tail, capacity);
        }
        slots[tail % capacity] := Some(msg);
        tail := tail + 1;
        history := history + [Some(msg)];
      }
    }

    /** One turn of the forwarding loop of a subscription, reading from the ring only. */
    method Forward(k: nat, receiverUp: bool)
      requires Valid() && k < |subscriptions|
      modifies this`subscriptions
      ensures Valid()
      ensures subscriptions == old(subscriptions)[k := Turn(history, capacity, old(subscriptions)[k], receiverUp)]
    {
      var s := subscriptions[k];
      TurnKeepsAccounts(history, capacity, s, receiverUp);
      if !s.alive || s.cursor >= tail {
        return;
      }
      if tail - s.cursor > capacity {
        var missed := tail - capacity - s.cursor;
        s := s.(cursor := tail - capacity, lagged := s.lagged + missed);
      } else {
        var element := slots[s.cursor % capacity];
        var converted := match element case None => None case Some(msg) => s.convert(msg);
        match converted
        case None => s := s.(cursor := s.cursor + 1, skipped := s.skipped + 1);
        case Some(n) =>
          if receiverUp {
            s := s.(cursor := s.cursor + 1, forwarded := s.forwarded + [n], positions := s.positions + [s.cursor]);
          } else {
            s := s.(cursor := s.cursor + 1, alive := false);
          }
      }
      subscriptions := subscriptions[k := s];
    }
  }

  /** Somebody would receive a message. */
  ghost predicate Listened<M, N>(subs: seq<Sub<M, N>>) {
    exists s :: s in subs && s.alive
  }

  /** The living subscriptions, all of them, in their old order. */
  ghost predicate KeepsTheLiving<M, N>(before: seq<Sub<M, N>>, kept: seq<Sub<M, N>>) {
    exists positions: seq<nat> :: LivingAt(before, kept, positions)
  }

  /** These are the positions of the living subscriptions. */
  ghost predicate LivingAt<M, N>(before: seq<Sub<M, N>>, kept: seq<Sub<M, N>>, positions: seq<nat>) {
    && |positions| == |kept|
    && (forall i, j :: 0 <= i < j < |positions| ==> positions[i] < positions[j])
    && (forall j :: 0 <= j < |positions| ==> positions[j] < |before| && kept[j] == before[positions[j]])
    && (forall k :: 0 <= k < |before| ==> (before[k].alive <==> k in positions))
  }

  /** The subscriptions whose forwarding task still runs. */
  function Alive<M, N>(subs: seq<Sub<M, N>>): seq<Sub<M, N>> {
    if subs == [] then []
    else
      var last := subs[|subs| - 1];
      Alive(subs[..|subs| - 1]) + if last.alive then [last] else []
  }

  lemma {:induction false} AliveInOrder<M, N>(subs: seq<Sub<M, N>>) returns (positions: seq<nat>)
    ensures LivingAt(subs, Alive(subs), positions)
  {
    positions := [];
    if subs != [] {
      var front := subs[..|subs| - 1];
      positions := AliveInOrder(front);
      if subs[|subs| - 1].alive {
        positions := positions + [|subs| - 1];
      }
    }
  }

  lemma ReceiversAreTheLiving<M, N>(subs: seq<Sub<M, N>>)
    ensures Alive(subs) != [] <==> Listened(subs)
  {
    var positions := AliveInOrder(subs);
    if Alive(subs) != [] {
      assert positions[0] in positions;
    }
  }
}
