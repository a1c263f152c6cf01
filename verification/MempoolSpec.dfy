/** What the mempool does with each message, as functions on values. */
module MempoolSpec {
  import opened Types
  import opened Pools
  import Blocks

  /** The type URL under which single transactions are gossiped: "mempool.transaction". */
  const TX_TYPE_URL: Bytes :=
    [0x6d, 0x65, 0x6d, 0x70, 0x6f, 0x6f, 0x6c, 0x2e, 0x74, 0x72, 0x61, 0x6e, 0x73, 0x61, 0x63, 0x74, 0x69, 0x6f, 0x6e]

  function BatchOf(tx: RawTx): Batch {
    Batch(TX_TYPE_URL, tx)
  }

  /** What the gossip network reports to the mempool. */
  datatype GossipEvent = Listening | Message(batch: Batch) | PeerConnected | PeerDisconnected

  datatype Msg =
    | Subscribe
    | NetworkEvent(event: GossipEvent)
    | Add(tx: RawTx, port: Port)
    | CheckTxResult(tx: RawTx, result: CheckResult, reply: Option<Port>)
    | Take(port: Port)
    | Remove(hashes: seq<TxHash>)

  /** What leaves the actor: events on its output port, replies, and requests to the network actor. */
  datatype Effect =
    | EmitCheck(tx: RawTx, reply: Option<Port>)
    | Reply(port: Port, answer: Answer)
    | ReplyBlock(port: Port, txs: seq<RawTx>)
    | Broadcast(batch: Batch)

  /**
   * Whether an attempt to use a reply port works: the send goes through, the send fails because
   * the caller is gone, or the port is still shared and cannot be taken out of its `Arc`.
   */
  datatype ReplyFate = Delivered | SendFailed | StillShared

  /** How the surroundings respond while one message is handled. */
  datatype Env = Env(fate: ReplyFate, castOk: bool)

  /** The new pool, what was sent, and whether the handler returned `Ok`. */
  datatype Handled = Handled(pool: Pool, effects: seq<Effect>, ok: bool)

  /** Uses the reply port, if there is one, as far as the surroundings let it. */
  function Answering(p: Pool, reply: Option<Port>, answer: Answer, env: Env): Handled {
    match reply
    case None => Handled(p, [], true)
    case Some(port) =>
      match env.fate
      case Delivered => Handled(p, [Reply(port, answer)], true)
      case SendFailed => Handled(p, [], false)
      case StillShared => Handled(p, [], true)
  }

  /** Admission: only a pool below its size limit passes the transaction on to the application. */
  function AddTx(cfg: Config, p: Pool, tx: RawTx, reply: Option<Port>, env: Env): Handled {
    if |p.txs| >= cfg.maxPoolSize then
      Answering(p, reply, Failure(MempoolFull(|p.txs|, cfg.maxPoolSize)), env)
    else
      Handled(p, [EmitCheck(tx, reply)], true)
  }

  /** The verdict of the application arrives. */
  function OnCheckResult(p: Pool, tx: RawTx, result: CheckResult, reply: Option<Port>, env: Env): Handled {
    match result
    case AppError(reason) => Answering(p, reply, Failure(InvalidTransaction(reason)), env)
    case Checked(outcome) =>
      if !outcome.valid then Answering(p, reply, Success(outcome), env)
      else if outcome.hash in p.index then Answering(p, reply, Failure(TxAlreadyExists(outcome.hash)), env)
      else
        var answered := Answering(Insert(p, outcome.hash, tx), reply, Success(outcome), env);
        var gossip := if reply.Some? && env.castOk then [Broadcast(BatchOf(tx))] else [];
        answered.(effects := gossip + answered.effects)
  }

  /** One message handled, given the order in which a removal walks the surviving keys. */
  function Handle(cfg: Config, p: Pool, m: Msg, env: Env, order: seq<TxHash>): Handled
    requires m.Remove? ==> forall h :: h in order ==> h in p.index && p.index[h] < |p.txs|
  {
    match m
    case Subscribe => Handled(p, [], true)
    case NetworkEvent(Message(batch)) => AddTx(cfg, p, batch.value, None, env)
    case NetworkEvent(_) => Handled(p, [], true)
    case Add(tx, port) => AddTx(cfg, p, tx, Some(port), env)
    case CheckTxResult(tx, result, reply) => OnCheckResult(p, tx, result, reply, env)
    case Take(port) =>
      if env.fate.Delivered? then Handled(p, [ReplyBlock(port, Blocks.Fit(p.txs, cfg.maxTxsBytes))], true)
      else Handled(p, [], false)
    case Remove(hashes) => Handled(Rebuild(p, order), [], true)
  }

  /** What a removal may do to a pool, over all iteration orders. */
  ghost predicate LegalOrder(p: Pool, m: Msg, order: seq<TxHash>) {
    m.Remove? ==> ValidOrder(p, m.hashes, order)
  }

  /** The pool after a message: nothing about replies or broadcasts has a say in it. */
  function PoolAfter(p: Pool, m: Msg, order: seq<TxHash>): Pool
    requires m.Remove? ==> forall h :: h in order ==> h in p.index && p.index[h] < |p.txs|
  {
    match m
    case CheckTxResult(tx, Checked(Outcome(h, true)), _) => if h in p.index then p else Insert(p, h, tx)
    case Remove(_) => Rebuild(p, order)
    case _ => p
  }

  lemma HandlePool(cfg: Config, p: Pool, m: Msg, env: Env, order: seq<TxHash>)
    requires m.Remove? ==> forall h :: h in order ==> h in p.index && p.index[h] < |p.txs|
    ensures Handle(cfg, p, m, env, order).pool == PoolAfter(p, m, order)
  {
  }

  lemma VerdictKeepsValid(p: Pool, tx: RawTx, result: CheckResult, reply: Option<Port>, env: Env)
    requires Valid(p)
    ensures Valid(OnCheckResult(p, tx, result, reply, env).pool)
  {
    if result.Checked? && result.outcome.valid && result.outcome.hash !in p.index {
      InsertIsMapUpdate(p, result.outcome.hash, tx);
    }
  }

  lemma HandleKeepsValid(cfg: Config, p: Pool, m: Msg, env: Env, order: seq<TxHash>)
    requires Valid(p) && LegalOrder(p, m, order)
    ensures Valid(Handle(cfg, p, m, env, order).pool)
  {
    match m
    case CheckTxResult(tx, result, reply) => VerdictKeepsValid(p, tx, result, reply, env);
    case Remove(hashes) => RebuildIsRestriction(p, hashes, order);
    case _ =>
  }

  /** The reply port a message brings along. */
  function ReplyPort(m: Msg): Option<Port> {
    match m
    case Add(_, port) => Some(port)
    case CheckTxResult(_, _, reply) => reply
    case Take(port) => Some(port)
    case _ => None
  }

  /** What an answer says about the pool before and after the message it answers. */
  ghost predicate TellsTheTruth(cfg: Config, m: Msg, before: Pool, after: Pool, answer: Answer)
    requires Valid(before) && Valid(after)
  {
    match answer
    case Success(outcome) =>
      && m.CheckTxResult? && m.result == Checked(outcome)
      && (outcome.valid <==> |after.txs| == |before.txs| + 1)
      && (outcome.valid ==> outcome.hash !in before.index && View(after) == View(before)[outcome.hash := m.tx])
      && (!outcome.valid ==> after == before)
    case Failure(MempoolFull(current, max)) =>
      m.Add? && after == before && current == |before.txs| && max == cfg.maxPoolSize && current >= max
    case Failure(TxAlreadyExists(h)) =>
      after == before && h in before.index && m.CheckTxResult? && m.result == Checked(Outcome(h, true))
    case Failure(InvalidTransaction(reason)) =>
      after == before && m.CheckTxResult? && m.result == AppError(reason)
  }

  /** At most one answer, on the port of the message, and a true one. */
  ghost predicate AnswersTruly(cfg: Config, m: Msg, before: Pool, h: Handled)
    requires Valid(before) && Valid(h.pool)
  {
    && (forall e :: e in h.effects && e.Reply? ==>
          ReplyPort(m) == Some(e.port) && TellsTheTruth(cfg, m, before, h.pool, e.answer))
    && (forall i, j :: 0 <= i < j < |h.effects| ==> !(h.effects[i].Reply? && h.effects[j].Reply?))
  }

  /** What the requester is told about a verdict. */
  function AnswerTo(p: Pool, result: CheckResult): Answer {
    match result
    case AppError(reason) => Failure(InvalidTransaction(reason))
    case Checked(outcome) =>
      if outcome.valid && outcome.hash in p.index then Failure(TxAlreadyExists(outcome.hash)) else Success(outcome)
  }

  lemma VerdictAnswer(p: Pool, tx: RawTx, result: CheckResult, reply: Option<Port>, env: Env)
    ensures var effects := OnCheckResult(p, tx, result, reply, env).effects;
      && (forall e :: e in effects && e.Reply? ==> reply == Some(e.port) && e.answer == AnswerTo(p, result))
      && (forall i, j :: 0 <= i < j < |effects| ==> !(effects[i].Reply? && effects[j].Reply?))
  {
  }

  lemma VerdictIsTrue(cfg: Config, p: Pool, tx: RawTx, result: CheckResult, reply: Option<Port>)
    requires Valid(p)
    ensures var m := CheckTxResult(tx, result, reply);
      Valid(PoolAfter(p, m, [])) && TellsTheTruth(cfg, m, p, PoolAfter(p, m, []), AnswerTo(p, result))
  {
    if result.Checked? && result.outcome.valid && result.outcome.hash !in p.index {
      InsertIsMapUpdate(p, result.outcome.hash, tx);
    }
  }

  /**
   * A request is answered on its own port, at most once per message, and the answer tells the truth: success
   * with a valid outcome exactly when the transaction has just been pooled, and each error for its own reason.
   */
  lemma AnswersTellTheTruth(cfg: Config, p: Pool, m: Msg, env: Env, order: seq<TxHash>)
    requires Valid(p) && LegalOrder(p, m, order)
    ensures Valid(Handle(cfg, p, m, env, order).pool) && AnswersTruly(cfg, m, p, Handle(cfg, p, m, env, order))
  {
    HandleKeepsValid(cfg, p, m, env, order);
    match m
    case CheckTxResult(tx, result, reply) =>
      HandlePool(cfg, p, m, env, order);
      VerdictAnswer(p, tx, result, reply, env);
      VerdictIsTrue(cfg, p, tx, result, reply);
    case _ =>
  }
}
