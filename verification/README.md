# Mempool verification

A Dafny model of the FIFO mempool, of the output port it talks to its application through, of the test
application, and of the gossip between nodes, with proofs of what the system keeps over every run.

| file | content |
|---|---|
| `Types.dfy` | transactions, hashes, verdicts, answers, batches, configuration |
| `Pool.dfy` | queue and index, the bijection between them, the one map they stand for |
| `Blocks.dfy` | blocks under a byte budget |
| `MempoolSpec.dfy` | what each message does, as functions on values |
| `Effects.dfy` | what leaves the mempool, told effect by effect and apart from those functions |
| `Mempool.dfy` | the actor as a class that updates queue and index in place |
| `History.dfy` | runs of one mempool: refinement of a single map, two-run properties, hash history, queue order |
| `Removal.dfy` | removal and arrival order |
| `Drain.dfy` | taking blocks and removing what was taken |
| `OutputPort.dfy` | the bounded broadcast ring with its subscriptions, and what one subscriber sees of it |
| `TestApp.dfy` | the little-endian codec and the check of the test application |
| `Wire.dfy` | the Protocol Buffers form of a batch, encoder and decoder |
| `Varints.dfy`, `Text.dfy`, `Decoding.dfy` | what the bytes on the wire stand for, which are decoded, to what, and which are rejected |
| `Network.dfy` | the network actor as a class, and its link to the network model |
| `Gossip.dfy` | several nodes as one state machine over packets under way |
| `Nodes.dfy` | each node of that machine runs a mempool, removals included |
| `Capacity.dfy`, `Overshoot.dfy`, `Limits.dfy` | the capacity bound, requests that go past the limit together, and the exact bound over all runs |
| `Replies.dfy` | conservation of reply ports |
| `Provenance.dfy` | where pooled transactions come from |
| `Termination.dfy` | gossip dies out |
| `Convergence.dfy`, `Pacing.dfy`, `Quiescence.dfy` | all pools agree, with losses as far as nothing was lost, and the room that needs |
| `Selection.dfy`, `RingNetwork.dfy`, `RingProgress.dfy` | the network with every application behind the ring of an output port refines the network without rings, and applications can always keep up |
| `TestNetwork.dfy` | nodes running the test application |

How the surroundings appear in the model:

- A removal walks the index in an order nobody controls. The actor picks keys by `:|`, so its contract holds
  for every order; the functions on values take the order as an argument.
- A reply port is a number used once. Whether a reply can be sent, and whether the cast to the network actor
  works, is an argument (`Env`) of every handler. In the network model every reply is sent; `FailuresAndOrdersDoNotMatter`
  shows that failed replies change neither pools nor broadcasts, and a failed cast is a lost packet there.
- One application subscribes to a mempool. A second one would make `From<Arc<MempoolEvent>>`
  (host-integration/src/app.rs:19-26) panic.
- In the network model all messages under way form one pool of packets, and any of them may be handled or lost
  next. This contains every interleaving of first-in-first-out mailboxes, and more. Each published batch is
  offered once to every other node.
- `usize` has 64 bits, and a byte string in memory is shorter than 2^63.
- In `RingNetwork.dfy` the applications have subscribed and keep running, and a request that is forwarded is judged in
  the same step; what happens to the verdict afterwards is left open as for any packet.
- The broadcast channel is a ring of `capacity` slots with one cursor per receiver; `capacity` is the number of
  slots it really has.

Where the code and what its names or comments suggest differ, the model follows the code:

- `max_txs_per_block` is only a capacity hint (fifo-mempool/src/mempool.rs:288); `Take` is bounded by bytes alone.
- `take` stops as soon as the budget left is zero, so a block stays strictly below `max_txs_bytes`.
- A removal keeps arrival order for certain if and only if it leaves at most one transaction
  (`OrderIsSafeIffOneSurvives`); which walks keep it is said by `SurvivorsKeepOrderIff`.
- `max_pool_size` is checked on admission only. With at most `w` checks under way at a node, its pool stays within
  the limit in every run if and only if `w <= 1` or the limit is zero (`LimitKeptIffOneAtATime`), and `w` checks take
  it up to the limit plus `w - 1` and no further (`StaysWithinIff`).
- The type URL of a batch is not checked on the path that received bytes take (libp2p-network/src/msg.rs:20-22).

## Model

| member | source | states |
|---|---|---|
| `Pools.SizeOfView` | fifo-mempool/src/mempool.rs:60-64 | the queue has as many entries as the abstract map from hash to transaction has keys |
| `Pools.InsertIsMapUpdate` | fifo-mempool/src/mempool.rs:231-232 | appending to queue and index keeps them a bijection and adds one key to the map they stand for |
| `Pools.RebuildIsRestriction` | fifo-mempool/src/mempool.rs:321-331 | whatever order the walk takes, the rebuilt pair is a bijection and stands for the old map without the listed hashes, unknown and repeated ones included |
| `Blocks.FitIsLongestPrefix` | fifo-mempool/src/mempool.rs:290-300 | a block consists of exactly the positions whose inclusive size stays strictly below the budget |
| `Blocks.LongestPrefixIsUnique` | fifo-mempool/src/mempool.rs:290-300 | no other list of transactions meets that description |
| `Blocks.BlockBelowBudget` | fifo-mempool/src/mempool.rs:293-297 | a nonempty block weighs strictly less than the budget |
| `Blocks.FitMonotone` | fifo-mempool/src/mempool.rs:286-305 | a larger budget and a longer queue only extend the block |
| `MempoolSpec.HandleKeepsValid` | fifo-mempool/src/mempool.rs:123-142 | every message keeps the index a bijection onto the queue positions |
| `MempoolSpec.AnswersTellTheTruth` | fifo-mempool/src/mempool.rs:174-187 | at most one answer per message, on the port of the request; success with a valid outcome exactly when the transaction was just pooled; full, duplicate and invalid each for its own reason and with the pool unchanged |
| `Effects.SentIffCalledFor` | fifo-mempool/src/mempool.rs:144-357 | for every message, reply fate and cast: an effect is sent if and only if it is called for. A check for what arrives below the limit; a broadcast under the URL "mempool.transaction" for what was just pooled on a local request, if the cast works; a true answer on the port of the request; a block that is the longest prefix below the budget on the port of `Take` |
| `Effects.SentOnceAndInOrder` | fifo-mempool/src/mempool.rs:234-246 | at most two effects leave a handler, and of two the first is the broadcast and the second the answer |
| `Effects.FailsIffAnswerFails` | fifo-mempool/src/mempool.rs:167-302 | a handler fails exactly when an answer is due and its send fails, or a block cannot be sent |
| `Effects.AnsweredExactlyOnce` | fifo-mempool/src/mempool.rs:193-284 | while replies get through, a verdict on a local request and a request that meets a full pool are answered exactly once, truly and on their own port, whether or not gossiping works |
| `Effects.CastHasNoOtherSay` | fifo-mempool/src/mempool.rs:345-356 | a failed cast to the network actor takes away the broadcast and changes neither pool, nor success, nor any other effect |
| `MempoolActor.FreedPositions` | fifo-mempool/src/mempool.rs:318-319 | the capacity subtraction never underflows and is exactly the number of survivors |
| `MempoolActor.Mempool.SendReply` | fifo-mempool/src/mempool.rs:175-181 | a reply goes out only if the port can be taken out of its `Arc` and the send works; only a failed send is an error |
| `MempoolActor.Mempool.AddTx` | fifo-mempool/src/mempool.rs:167-190 | admission does what the specification function says and leaves the pool alone |
| `MempoolActor.Mempool.HandleNetworkEvent` | fifo-mempool/src/mempool.rs:144-164 | a gossiped batch is admitted without a reply port; other events do nothing |
| `MempoolActor.Mempool.HandleCheckTxResult` | fifo-mempool/src/mempool.rs:193-284 | insertion, gossip and reply as specified, in that order, for every fate of the reply |
| `MempoolActor.Mempool.TakeBlock` | fifo-mempool/src/mempool.rs:288-300 | the saturating loop returns the longest prefix strictly below the budget |
| `MempoolActor.Mempool.DropHashes` | fifo-mempool/src/mempool.rs:309-314 | the index loses the listed hashes, and the collected positions are exactly those they pointed at |
| `MempoolActor.Mempool.Renumber` | fifo-mempool/src/mempool.rs:321-328 | the walk in arbitrary order yields the queue and index rebuilt in that order, without leaving the queue |
| `MempoolActor.Mempool.Remove` | fifo-mempool/src/mempool.rs:308-334 | the pool afterwards stands for the old map minus the listed hashes |
| `MempoolActor.Mempool.Handle` | fifo-mempool/src/mempool.rs:380-391 | an error of a handler is swallowed: state and messages are as specified either way |
| `History.StepRefinesMap` | fifo-mempool/src/mempool.rs:129-141 | each message acts on the abstract map as one insert of an absent key, a restriction, or nothing |
| `History.RunRefinesMap` | fifo-mempool/src/mempool.rs:123-142 | over every run the pool, the checks requested and the broadcasts are those of a single map driven by the messages |
| `History.FailuresAndOrdersDoNotMatter` | fifo-mempool/src/mempool.rs:380-391 | runs on the same messages, with different reply failures and different removal orders, end with the same map, the same checks and the same broadcasts |
| `History.OriginDoesNotMatter` | fifo-mempool/src/mempool.rs:134-135 | replacing local submissions by gossiped ones changes neither queue, nor index, nor what is checked |
| `History.HashHistoryBalances` | fifo-mempool/src/mempool.rs:206-232 | inserts of a hash minus its effective removals is the presence of the hash, always 0 or 1 |
| `History.OneInsertBetweenRemovals` | fifo-mempool/src/mempool.rs:206-228 | however many verdicts on one hash arrive, there is one insert between removals |
| `History.QueueGrowsInOrder` | fifo-mempool/src/mempool.rs:231-232 | without removals the queue grows at its end by the accepted transactions in order |
| `History.BlocksGrow` | fifo-mempool/src/mempool.rs:292-300 | without removals an earlier block is a prefix of every later one |
| `Removal.SurvivorsKeepOrderIff` | fifo-mempool/src/mempool.rs:322-328 | survivors keep arrival order exactly when the walk goes by increasing position |
| `Removal.OrderIsSafeIffOneSurvives` | fifo-mempool/src/mempool.rs:321-331 | a removal keeps arrival order for every legal walk if and only if at most one pooled hash is not listed |
| `Removal.IncreasingWalkCutsOut` | fifo-mempool/src/mempool.rs:322-328 | such a walk cuts the listed transactions out of the queue and moves nothing |
| `Removal.SomeWalkReorders` | fifo-mempool/src/mempool.rs:322-328 | with two survivors or more, some legal walk breaks arrival order |
| `Drain.RoundsAreARun` | fifo-mempool/src/mempool.rs:286-334 | rounds of taking and removing are a legal run of `Take` and `Remove` messages, which sends exactly those blocks and leaves exactly that pool |
| `Drain.RoundConserves` | fifo-mempool/src/mempool.rs:286-334 | taking a block and removing it splits the pool into the block and the rest, as multisets |
| `Drain.RoundsExist` | fifo-mempool/src/mempool.rs:308-334 | rounds of taking and removing can always go on |
| `Drain.DrainsIffAllBelowBudget` | fifo-mempool/src/mempool.rs:286-334 | as many rounds as transactions empty the pool, whatever the walks, if and only if every pooled transaction is smaller than the budget, and the blocks are then a permutation of the pool |
| `Subscriptions.FollowKeepsAccounts` | libp2p-network/src/output_port.rs:145-168 | what a subscriber has forwarded is an in-order, duplicate-free subsequence of what was sent since it subscribed, and forwarded, skipped, lost and waiting messages add up |
| `Subscriptions.LosslessIffKeepsUp` | libp2p-network/src/output_port.rs:147-150 | nothing is reported as dropped if and only if the subscriber is never found more than the capacity behind |
| `Subscriptions.KeepingUpForwardsAll` | libp2p-network/src/output_port.rs:151-162 | a subscriber that keeps up leaves out no message it has passed and its converter does not drop |
| `Subscriptions.NewSubStartsHere` | libp2p-network/src/output_port.rs:83-88 | a new subscription is alive and has nothing behind it |
| `Subscriptions.TurnMeaning` | libp2p-network/src/output_port.rs:145-168 | a turn waits, reports the gap, skips an empty or unconverted element, forwards the converted message, or ends the subscription when the receiver is gone, each in exactly its case |
| `Subscriptions.SubscriberSeesAll` | libp2p-network/src/output_port.rs:145-168 | from its subscription on, a subscriber that keeps up loses nothing and forwards exactly the messages its converter does not drop, in order; if it drops none, one for each message passed |
| `OutputPorts.OutputPort.Subscribe` | libp2p-network/src/output_port.rs:73-89 | an old subscription is kept if and only if it is alive, those kept stay in order, and the new one is alive and starts with the next message |
| `OutputPorts.ReceiversAreTheLiving` | libp2p-network/src/output_port.rs:95 | the channel has a receiver if and only if some subscription is alive |
| `OutputPorts.OutputPort.Send` | libp2p-network/src/output_port.rs:94-98 | the ring retains the last messages sent; a message is sent if and only if some subscription is alive |
| `OutputPorts.OutputPort.Forward` | libp2p-network/src/output_port.rs:145-168 | a turn that reads the ring does what a turn on the whole history does |
| `TestApp.CodecIsBijection` | host-integration/src/app.rs:40-49 | the codec is a bijection between 64-bit numbers and strings of eight bytes |
| `TestApp.LittleEndianWeights` | host-integration/src/app.rs:40-49 | byte k of a string counts 256 to the power k: least significant first |
| `TestApp.CheckTxMeaning` | host-integration/src/app.rs:142-162 | a transaction is accepted exactly when it has eight bytes and is not 9999, under its own bytes as hash |
| `Wire.ReadWrittenVarint` | libp2p-network/src/msg.rs:24-28 | a varint below the 64-bit limit is read back in at most ten bytes |
| `Wire.WireRoundTrip` | libp2p-network/src/msg.rs:20-28 | decoding an encoded batch gives it back, for every type URL and payload, empty ones included |
| `Wire.EncodedSize` | libp2p-network/src/msg.rs:30-34 | the reported size is that of the embedded message; the frame adds one byte and the length of the size |
| `Wire.WireLayout` | libp2p-network/src/proto.rs:19-23 | the bytes of a batch with short parts |
| `Varints.OnlyVarintsAreRead` | libp2p-network/src/msg.rs:20-22 | what is read as a number is a varint of at most ten bytes, the last of ten being 0 or 1, and byte k counts 128 to the power k |
| `Varints.VarintsAreRead` | libp2p-network/src/msg.rs:20-22 | every such varint is read as that number |
| `Varints.WrittenVarint` | libp2p-network/src/msg.rs:24-28 | a written number is such a varint, stands for the number, and is as short as can be |
| `Text.Utf8IffText` | libp2p-network/src/msg.rs:20-22 | the type URLs accepted are exactly the encodings of sequences of Unicode scalar values |
| `Decoding.ItemsAreRead` | libp2p-network/src/msg.rs:20-22 | written fields of every wire type are read back in order, before anything that follows |
| `Decoding.DecodedIff` | libp2p-network/src/proto.rs:12-16 | bytes are decoded if and only if they are fields with an embedded message among them, all embedded messages are fields, and each type URL and payload has its form; the last of each wins |
| `Decoding.MissingBatch` | libp2p-network/src/proto.rs:12-16 | well-formed fields without the batch, none at all included, are an error |
| `Decoding.WrongKind` | libp2p-network/src/msg.rs:20-22 | field 1 in another wire type is an error, whatever surrounds it |
| `Decoding.UnreadableEnd` | libp2p-network/src/msg.rs:20-22 | after any fields, what is not a field makes the whole an error |
| `Decoding.BadKey` | libp2p-network/src/msg.rs:20-22 | tag zero, tags beyond 29 bits, and the wire types 4, 6 and 7 do not begin a field |
| `Decoding.CutBatch` | libp2p-network/src/msg.rs:20-22 | every proper prefix of an encoded batch is rejected |
| `Decoding.UnknownFieldsAreSkipped` | libp2p-network/src/msg.rs:20-22 | a batch among unknown fields is decoded to itself, unless its type URL is not UTF-8, which is an error |
| `Network.EventIff` | libp2p-network/src/lib.rs:334-369 | a gossip message leads to an event if and only if it has a source, the topic "/mempool" and a batch inside, and the event is that batch from that source |
| `Network.OtherBytesAreDropped` | libp2p-network/src/lib.rs:358-361 | empty data, fields without a batch, a batch of another kind, a key that never ends, and a batch cut short lead to no event |
| `Network.UndecodableIsDropped` | libp2p-network/src/lib.rs:358-361 | a node of the network model drops exactly the data its actor drops |
| `Network.PeersFollowEvents` | libp2p-network/src/network.rs:143-151 | after any run of events a peer is known if and only if it was connected since it was last disconnected |
| `Network.BroadcastArrives` | libp2p-network/src/network.rs:130-156 | a broadcast batch reaches every other node as an event with the same batch, through the packets of the network model |
| `Network.ReactionsAreTheNetworkActors` | libp2p-network/src/network.rs:117-156 | what a node of the network model makes of a broadcast request and of a message off the wire is what its network actor publishes and sends on its port, if it runs and is connected and listened to, and otherwise what a lost packet leaves: nothing |
| `Network.Relay` | libp2p-network/src/network.rs:130-156 | the bytes one running actor publishes for a batch make another one send that batch as an event, and are those of the packets between them in the model |
| `Network.NetworkActor.HandleBroadcast` | libp2p-network/src/network.rs:117-141 | a running actor publishes the encoded batch; a stopped one does nothing |
| `Network.NetworkActor.HandleNewEvent` | libp2p-network/src/network.rs:143-156 | peers follow connections, and every event goes to the output port |
| `Network.NetworkActor.Receive` | libp2p-network/src/lib.rs:334-369 | a gossip message becomes an event exactly if it has a source, the mempool topic, and bytes that decode; otherwise nothing is sent |
| `Gossip.ReactionsAreTheActors` | fifo-mempool/src/mempool.rs:123-142 | a node of the network model handles messages for its mempool as the mempool actor does |
| `Gossip.NextKeepsValid` | fifo-mempool/src/mempool.rs:123-142 | every step of the network keeps every index a bijection |
| `Nodes.RemoveAtRemoves` | fifo-mempool/src/mempool.rs:308-334 | a removal in the network leaves the old map without exactly the listed hashes, as the mempool does, and touches no other pool, no packet and no record |
| `Nodes.RemovalIsPossible` | fifo-mempool/src/mempool.rs:308-334 | any list of hashes can be removed at any node at any time |
| `Nodes.SubmissionIsPossible` | fifo-mempool/src/mempool.rs:134-135 | any transaction that fits into memory can be submitted at any node at any time |
| `Nodes.StepsMoveOnePacket` | fifo-mempool/src/mempool.rs:123-142 | a step changes the pool of one node at most, and takes and puts exactly the packets it says |
| `Nodes.NodesRunMempools` | fifo-mempool/src/mempool.rs:123-142 | in every run of the network, the pool of a node is that of a mempool after the messages that reached the node |
| `Nodes.PoolsFollowTheirMessages` | fifo-mempool/src/mempool.rs:206-232 | that pool is the single map driven by those messages, and a hash is in it exactly if it was inserted once more than removed |
| `Capacity.StepOccupancy` | fifo-mempool/src/mempool.rs:174-187 | while a pool is full, pooled transactions plus checks under way never increase |
| `Capacity.CapacityBound` | fifo-mempool/src/mempool.rs:174-187 | with at most W checks under way that sum never exceeds the limit plus W - 1; with one at a time the pool respects its limit |
| `Overshoot.BoundIsReached` | fifo-mempool/src/mempool.rs:231-232 | from any resting state with room for one, W new valid transactions admitted together all get into the pool, with honest verdicts and without loss |
| `Limits.SizeIsReached` | fifo-mempool/src/mempool.rs:174-232 | from the start, every pool size up to the limit plus W - 1 is reached with at most W checks under way, by as many distinct valid transactions |
| `Limits.StaysWithinIff` | fifo-mempool/src/mempool.rs:174-187 | given more distinct valid transactions than a bound, the pool of a node stays within the bound in every run with at most W checks under way if and only if the bound is at least the limit plus W - 1, or the limit is zero; the same holds for runs without losses, removals and wrong verdicts |
| `Limits.LimitKeptIffOneAtATime` | fifo-mempool/src/mempool.rs:174-187 | given one more distinct valid transaction than the limit, the limit is kept in every run with at most W checks under way if and only if W is at most one or the limit is zero |
| `Replies.NextConserves` | fifo-mempool/src/mempool.rs:193-284 | every step keeps each reply port in exactly one place: under way, used, or lost with its message |
| `Replies.QuiescentMeansAnswered` | fifo-mempool/src/mempool.rs:167-284 | at rest and without loss, every request has been answered exactly once |
| `Replies.AcceptancesAreLocalInserts` | fifo-mempool/src/mempool.rs:231-246 | positive answers equal insertions on behalf of local requests in number |
| `Provenance.WireDelivers` | fifo-mempool/src/mempool.rs:337-357 | the receiver rebuilds the exact transaction the sender gossiped |
| `Provenance.NextKeepsTraced` | fifo-mempool/src/mempool.rs:144-164 | every insertion follows a positive verdict at its node, and the local submission or the broadcast at another node that led to it |
| `Provenance.PooledTransactionsHaveAnOrigin` | fifo-mempool/src/mempool.rs:204-237 | every pooled key and transaction were put there by an insertion on record, before which the node judged the transaction valid, and either received it as a local request, or another node received it, judged it valid, pooled it for that request and published it |
| `Gossip.FanoutIsOneEach` | libp2p-network/src/network.rs:130-141 | a broadcast makes exactly one message for every other node, all with the same bytes, and none for the sender |
| `Termination.StepTotal` | fifo-mempool/src/mempool.rs:235-237 | the weighted count of messages under way falls at every step on a packet and rises only by submissions |
| `Termination.GossipTerminates` | README.md:67 | finitely many submissions cause finitely many steps, at most four per submission and node |
| `Termination.PublishesNoMoreThanSubmitted` | fifo-mempool/src/mempool.rs:235-237 | received transactions are not gossiped again: publications never outnumber submissions |
| `Convergence.ReactionCarriesOn` | libp2p-network/src/lib.rs:334-369 | handling a packet brings its transaction a step closer to the node that lacks it |
| `Convergence.FullPoolHasAll` | fifo-mempool/src/mempool.rs:174-183 | a full pool already holds every valid transaction, if there are no more than it may hold |
| `Convergence.MissingOnlyByLoss` | fifo-mempool/src/mempool.rs:144-187 | at rest, with packets lost on the way, a pool holds valid submissions only and lacks one only if a packet on record as lost would have carried it there or to a node where it was submitted |
| `Convergence.AllPoolsConverge` | host-integration/tests/integration.rs:135-148 | at rest, after any interleaving without loss or removal, all nodes hold exactly the valid transactions submitted |
| `Quiescence.EveryStateCanComeToRest` | libp2p-network/src/network.rs:143-156 | from every state that any run reaches, delivering what is under way leads to rest without loss and without further submissions |
| `Quiescence.ConvergesIffRoom` | fifo-mempool/src/mempool.rs:174-183 | the nodes always converge on a set of valid transactions if and only if a pool has room for all of them |
| `RingNetwork.TurnSimulated` | libp2p-network/src/output_port.rs:145-168 | a turn of an application at its ring is, in the network model, the loss of exactly the overwritten check requests or the delivery of the oldest one |
| `RingNetwork.RingRunsAreRuns` | libp2p-network/src/output_port.rs:145-168 | every run with rings ends in a state that a run of the network model reaches, with the unread requests of each ring under way in order; if no application falls behind by more than the capacity, that run is free of losses |
| `RingNetwork.LostIsReported` | libp2p-network/src/output_port.rs:147-150 | over every run, as many check requests of a node are lost as its channel reported as dropped |
| `RingNetwork.ForwardedAreJudged` | libp2p-network/src/output_port.rs:151-157 | over every run an application judges exactly the requests its subscription forwarded, in that order |
| `RingNetwork.KeepingUpConverges` | fifo-mempool/src/mempool.rs:184-187 | if applications keep up with their rings and nothing else is lost, all pools converge once mail and rings are empty |
| `RingNetwork.KeepingUpAnswers` | fifo-mempool/src/mempool.rs:167-284 | under the same conditions every request has then been answered exactly once |
| `RingProgress.ApplicationsCanKeepUp` | libp2p-network/src/output_port.rs:145-168 | from wherever a run has got to with no ring overrun, there is a way to rest on which nothing is lost, nothing more is submitted and no application falls behind, however small the ring |
| `TestNetwork.TestPoolInvariant` | host-integration/src/app.rs:142-162 | in every run with the test application each key is the bytes of its transaction, and pooled transactions are distinct, eight bytes long and never 9999 |
| `TestNetwork.TestPoolDrains` | fifo-mempool/src/mempool.rs:286-334 | a node running the test application drains for every budget above eight bytes |
| `TestNetwork.TestNetworkConverges` | host-integration/tests/integration.rs:99-148 | nodes running the test application converge on the valid transactions submitted to any of them |

## Left out

- Construction of the libp2p swarm, transports, dialing, identify and ping: gossipsub is the step that turns a
  publication into one message per other node, which may be delayed, reordered or lost. Its own duplicate
  suppression and its size limit for messages are not modelled.
- Gossip messages without a source or on another topic (libp2p-network/src/lib.rs:339-350): dropped by the code, so a
  lost packet in the model.
- The mailboxes of ractor and the tasks of tokio: any message under way may be next; mailbox order is not used.
- Starting the network actor and waiting for its shutdown, and the control channel between it and the swarm: what is
  put into the channel counts as published.
- Decoding of group wire types: the decoder in `Wire.dfy` rejects them.
- More than one subscriber on the output port of a mempool.
- Error texts other than those the test application returns, logging, and configuration defaults.
- `max_txs_per_block`: the code does not enforce it.
- Shutdown of the output port: dropping the port ends its subscriptions.
