/** The network actor between the mempool and the gossip network. */
module Network {
  import opened Types
  import opened OutputPorts
  import Gossip
  import Decoding
  import Pools
  import Wire

  type PeerId = nat

  /** What the gossip layer reports. */
  datatype NetworkEvent =
    | Listening
    | Message(source: PeerId, batch: Batch)
    | PeerConnected(peer: PeerId)
    | PeerDisconnected(peer: PeerId)

  /** A gossip message as the swarm hands it over. */
  datatype GossipMessage = GossipMessage(source: Option<PeerId>, topic: string, data: Bytes)

  const MEMPOOL_TOPIC := "/mempool"

  /** The event a gossip message leads to; without a source, on another topic, or undecodable, it leads to none. */
  function EventOf(m: GossipMessage): Option<NetworkEvent> {
    if m.source.None? || m.topic != MEMPOOL_TOPIC then None
    else
      match Wire.FromNetworkBytes(m.data)
      case None => None
      case Some(batch) => Some(Message(m.source.value, batch))
  }

  function PeersAfter(peers: set<PeerId>, event: NetworkEvent): set<PeerId> {
    match event
    case PeerConnected(peer) => peers + {peer}
    case PeerDisconnected(peer) => peers - {peer}
    case _ => peers
  }

  /** A gossip message leads to an event if and only if it has a source, the topic of the mempool, and a batch inside. */
  lemma EventIff(m: GossipMessage, event: NetworkEvent)
    ensures EventOf(m) == Some(event)
       <==> event.Message? && m.source == Some(event.source) && m.topic == "/mempool"
            && Wire.FromNetworkBytes(m.data) == Some(event.batch)
  {
  }

  /**
   * Bytes that are not a batch lead to no event, whoever sends them: nothing at all, fields without a batch, a field
   * of another kind in its place, a key that never ends, and any part of a batch that stops short.
   */
  lemma OtherBytesAreDropped(m: GossipMessage, items: seq<Decoding.Item>, batch: Batch, k: nat)
    requires Decoding.AllWritable(items) && Wire.SizeBytes(batch) < U64_LIMIT && k < |Wire.ToNetworkBytes(batch)|
    ensures || m.data == []
            || (m.data == Decoding.WriteItems(items)
                && ((forall f :: f in items ==> f.tag != 1) || (exists f :: f in items && f.tag == 1 && !f.Text?)))
            || (m.data != [] && forall i :: 0 <= i < |m.data| ==> m.data[i] >= 128)
            || m.data == Wire.ToNetworkBytes(batch)[..k]
       ==> EventOf(m) == None
  {
    Decoding.NothingIsNoBatch();
    Decoding.CutBatch(batch, k);
    if forall f :: f in items ==> f.tag != 1 {
      Decoding.MissingBatch(items);
    } else if exists f :: f in items && f.tag == 1 && !f.Text? {
      var f :| f in items && f.tag == 1 && !f.Text?;
      var l :| 0 <= l < |items| && items[l] == f;
      Decoding.WrongKind(items, l);
    }
    if m.data != [] && forall i :: 0 <= i < |m.data| ==> m.data[i] >= 128 {
      Decoding.UnfinishedKey(m.data);
    }
  }

  /** Connecting adds a peer, disconnecting removes it, and nothing else changes who is a peer. */
  lemma PeersMeaning(peers: set<PeerId>, event: NetworkEvent, peer: PeerId)
    ensures peer in PeersAfter(peers, event)
       <==> event == PeerConnected(peer) || (peer in peers && event != PeerDisconnected(peer))
  {
  }

  /** The peers after a run of events. */
  function PeersAfterAll(peers: set<PeerId>, events: seq<NetworkEvent>): set<PeerId>
    decreases |events|
  {
    if events == [] then peers else PeersAfterAll(PeersAfter(peers, events[0]), events[1..])
  }

  /** The last event that names the peer connects it; if none names it, it was there before. */
  ghost predicate LastConnects(peers: set<PeerId>, events: seq<NetworkEvent>, peer: PeerId) {
    || (peer in peers && PeerDisconnected(peer) !in events)
    || exists k :: 0 <= k < |events| && events[k] == PeerConnected(peer) && PeerDisconnected(peer) !in events[k..]
  }

  /** After any run, a peer is known exactly if it was connected since it was last disconnected. */
  lemma {:induction false} PeersFollowEvents(peers: set<PeerId>, events: seq<NetworkEvent>, peer: PeerId)
    ensures peer in PeersAfterAll(peers, events) <==> LastConnects(peers, events, peer)
    decreases |events|
  {
    if events != [] {
      var first, rest := events[0], events[1..];
      var next := PeersAfter(peers, first);
      PeersMeaning(peers, first, peer);
      PeersFollowEvents(next, rest, peer);
      LastConnectsUnfolds(peers, events, peer);
    }
  }

  lemma LastConnectsUnfolds(peers: set<PeerId>, events: seq<NetworkEvent>, peer: PeerId)
    requires events != []
    ensures LastConnects(peers, events, peer) <==> LastConnects(PeersAfter(peers, events[0]), events[1..], peer)
  {
    var first, rest, next := events[0], events[1..], PeersAfter(peers, events[0]);
    PeersMeaning(peers, first, peer);
    assert events == [first] + rest;
    assert forall k :: 0 < k <= |events| ==> events[k..] == rest[k - 1..];
    if LastConnects(peers, events, peer) && !(peer in peers && PeerDisconnected(peer) !in events) {
      var k :| 0 <= k < |events| && events[k] == PeerConnected(peer) && PeerDisconnected(peer) !in events[k..];
      if k > 0 {
        assert rest[k - 1] == PeerConnected(peer);
      } else {
        assert events[0..] == events;
      }
    }
    if LastConnects(next, rest, peer) {
      if peer in next && PeerDisconnected(peer) !in rest {
        assert first == PeerConnected(peer) ==> events[0..] == events;
      } else {
        var k :| 0 <= k < |rest| && rest[k] == PeerConnected(peer) && PeerDisconnected(peer) !in rest[k..];
        assert events[k + 1] == PeerConnected(peer) && events[k + 1..] == rest[k..];
      }
    }
  }

  // ---------------------------------------------------------------------------------------------
  // The packets of the network model
  // ---------------------------------------------------------------------------------------------

  /** What a broadcast request makes the actor publish. */
  function Publications(running: bool, swarmUp: bool, batch: Batch): seq<Bytes> {
    if running && swarmUp then [Wire.ToNetworkBytes(batch)] else []
  }

  /** What a gossip message makes the actor send on its output port. */
  function Notifications(running: bool, listened: bool, m: GossipMessage): seq<NetworkEvent> {
    if running && listened && EventOf(m).Some? then [EventOf(m).value] else []
  }

  /** Events as elements of the channel behind the port. */
  function Sends(events: seq<NetworkEvent>): seq<Option<NetworkEvent>> {
    seq(|events|, i requires 0 <= i < |events| => Some(events[i]))
  }

  /** Each publication is offered to every other node. */
  function Offers(n: nat, src: nat, published: seq<Bytes>): seq<Gossip.Packet> {
    if |published| == 0 then [] else Gossip.Fanout(n, src, published[0]) + Offers(n, src, published[1..])
  }

  /** The events the mempool of a node hears about. */
  function Events(node: nat, events: seq<NetworkEvent>): seq<Gossip.Packet> {
    if events == [] then []
    else
      (match events[0]
       case Message(source, batch) => [Gossip.NetEvent(source, node, batch)]
       case _ => []) + Events(node, events[1..])
  }

  /**
   * The reactions of a node to a broadcast request and to a message off the wire are what its actor publishes
   * and sends on its port, when it runs, the swarm is up and the mempool listens. Otherwise nothing comes of
   * them, as if the packet had been lost.
   */
  lemma ReactionsAreTheNetworkActors(
      cfg: Config, n: nat, p: Pools.Pool, i: nat, batch: Batch, src: nat, data: Bytes, result: CheckResult,
      running: bool, swarmUp: bool, listened: bool)
    ensures Offers(n, i, Publications(running, swarmUp, batch))
         == if running && swarmUp then Gossip.React(cfg, n, p, Gossip.BroadcastMsg(i, batch), result).out else []
    ensures Events(i, Notifications(running, listened, GossipMessage(Some(src), MEMPOOL_TOPIC, data)))
         == if running && listened then Gossip.React(cfg, n, p, Gossip.WireMsg(src, i, data), result).out else []
  {
    var bytes := Wire.ToNetworkBytes(batch);
    var published: seq<Bytes> := [bytes];
    assert published[1..] == [];
    assert Offers(n, i, published) == Gossip.Fanout(n, i, bytes) + Offers(n, i, []);
    assert Events(i, []) == [];
  }

  /** What one node broadcasts arrives at every other one as an event with the same batch. */
  lemma BroadcastArrives(cfg: Config, n: nat, batch: Batch, src: nat, dst: nat, p: Pools.Pool, result: CheckResult)
    requires Wire.ValidUtf8(batch.typeUrl) && Wire.SizeBytes(batch) < U64_LIMIT
    requires src != dst && dst < n
    ensures var data := Wire.ToNetworkBytes(batch);
      && EventOf(GossipMessage(Some(src), MEMPOOL_TOPIC, data)) == Some(Message(src, batch))
      && Gossip.WireMsg(src, dst, data) in Gossip.React(cfg, n, p, Gossip.BroadcastMsg(src, batch), result).out
      && Gossip.React(cfg, n, p, Gossip.WireMsg(src, dst, data), result).out == [Gossip.NetEvent(src, dst, batch)]
  {
    Wire.WireRoundTrip(batch);
    var data := Wire.ToNetworkBytes(batch);
    Gossip.FanoutTargets(n, src, data, Gossip.WireMsg(src, dst, data));
  }

  /** A node of the model drops what its actor drops. */
  lemma UndecodableIsDropped(
      cfg: Config, n: nat, p: Pools.Pool, src: nat, dst: nat, data: Bytes, result: CheckResult)
    ensures EventOf(GossipMessage(Some(src), "/mempool", data)) == None
       <==> Gossip.React(cfg, n, p, Gossip.WireMsg(src, dst, data), result).out == []
    ensures Gossip.React(cfg, n, p, Gossip.WireMsg(src, dst, data), result).pool == p
  {
  }

  /** Two running actors: what is broadcast at one reaches the subscribers of the other, by the packets of the model. */
  method Relay<N>(sender: NetworkActor<N>, receiver: NetworkActor<N>, src: nat, dst: nat, batch: Batch, n: nat)
    returns (data: Bytes)
    requires sender != receiver && sender.running && receiver.running && receiver.Valid()
    requires Listened(receiver.port.subscriptions)
    requires Wire.ValidUtf8(batch.typeUrl) && Wire.SizeBytes(batch) < U64_LIMIT
    requires src != dst && dst < n
    modifies sender`published
    modifies receiver`peers, receiver.port`tail, receiver.port`history, receiver.port.slots
    ensures receiver.Valid()
    ensures sender.published == old(sender.published) + [data]
    ensures receiver.port.history == old(receiver.port.history) + [Some(Message(src, batch))]
    ensures forall cfg, p, result ::
      Gossip.WireMsg(src, dst, data) in Gossip.React(cfg, n, p, Gossip.BroadcastMsg(src, batch), result).out
    ensures forall cfg, p, result ::
      Gossip.React(cfg, n, p, Gossip.WireMsg(src, dst, data), result).out == [Gossip.NetEvent(src, dst, batch)]
  {
    var ok := sender.HandleBroadcast(batch, true);
    data := sender.published[|sender.published| - 1];
    receiver.Receive(GossipMessage(Some(src), MEMPOOL_TOPIC, data));
    forall cfg, p, result
      ensures Gossip.WireMsg(src, dst, data) in Gossip.React(cfg, n, p, Gossip.BroadcastMsg(src, batch), result).out
      ensures Gossip.React(cfg, n, p, Gossip.WireMsg(src, dst, data), result).out == [Gossip.NetEvent(src, dst, batch)]
    {
      BroadcastArrives(cfg, n, batch, src, dst, p, result);
    }
    Wire.WireRoundTrip(batch);
  }

  class NetworkActor<N> {
    var running: bool
    var peers: set<PeerId>
    const port: OutputPort<NetworkEvent, N>

    /** The encoded batches handed to the swarm for publication. */
    var published: seq<Bytes>

    ghost predicate Valid()
      reads this, port, port.slots
    {
      port.Valid()
    }

    constructor (port: OutputPort<NetworkEvent, N>)
      requires port.Valid()
      ensures Valid() && this.port == port && running && peers == {} && published == []
    {
      this.port := port;
      running, peers, published := true, {}, [];
    }

    /** Encodes and publishes a batch, unless the actor has stopped; fails if the swarm is gone. */
    method HandleBroadcast(batch: Batch, swarmUp: bool) returns (ok: bool)
      modifies this`published
      ensures ok <==> !running || swarmUp
      ensures published == old(published) + Publications(running, swarmUp, batch)
    {
      ok := true;
      if running {
        var bytes := Wire.ToNetworkBytes(batch);
        ok := swarmUp;
        if ok {
          published := published + [bytes];
        }
      }
    }

    /** Keeps the peers up to date and passes every event on to the subscribers. */
    method HandleNewEvent(event: NetworkEvent)
      requires Valid()
      modifies this`peers, port`tail, port`history, port.slots
      ensures Valid()
      ensures peers == if running then PeersAfter(old(peers), event) else old(peers)
      ensures port.history == old(port.history)
        + if running && Listened(port.subscriptions) then [Some(event)] else []
    {
      if running {
        match event {
          case PeerConnected(peer) => peers := peers + {peer};
          case PeerDisconnected(peer) => peers := peers - {peer};
          case _ =>
        }
        port.Send(event);
      }
    }

    /** The swarm received a gossip message; the event it leads to comes back to this actor. */
    method Receive(m: GossipMessage)
      requires Valid()
      modifies this`peers, port`tail, port`history, port.slots
      ensures Valid() && peers == old(peers)
      ensures port.history == old(port.history) + Sends(Notifications(running, Listened(port.subscriptions), m))
      ensures m.source == None || m.topic != "/mempool" || Wire.FromNetworkBytes(m.data) == None ==>
        port.history == old(port.history)
    {
      if m.source == None || m.topic != MEMPOOL_TOPIC {
        return;
      }
      var decoded := Wire.FromNetworkBytes(m.data);
      match decoded
      case None =>
      case Some(batch) => HandleNewEvent(Message(m.source.value, batch));
    }

    /** After the actor has stopped, messages have no effect. */
    method Stop()
      modifies this`running
      ensures !running
    {
      running := false;
    }
  }
}
