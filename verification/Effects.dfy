/** What leaves the mempool, told effect by effect: which, when, on which port, and in which order. */
module Effects {
  import opened Types
  import opened Pools
  import opened MempoolSpec
  import Blocks

  /** The bytes spell the text. */
  predicate Spells(b: Bytes, text: string) {
    |b| == |text| && forall i :: 0 <= i < |b| ==> b[i] == text[i] as int
  }

  /** The requester is waiting for an answer to this message. */
  predicate AnswerDue(cfg: Config, p: Pool, m: Msg, port: Port) {
    || (m.CheckTxResult? && m.reply == Some(port))
    || (m.Add? && m.port == port && |p.txs| >= cfg.maxPoolSize)
  }

  /** A transaction arrives, from a requester or from the network. */
  predicate Arrives(m: Msg, tx: RawTx, reply: Option<Port>) {
    || (m.Add? && m.tx == tx && reply == Some(m.port))
    || (m.NetworkEvent? && m.event.Message? && m.event.batch.value == tx && reply == None)
  }

  /** The message, the pool before and after it, and the surroundings call for the effect. */
  ghost predicate CalledFor(cfg: Config, m: Msg, env: Env, before: Pool, after: Pool, e: Effect)
    requires Valid(before) && Valid(after)
  {
    match e
    case EmitCheck(tx, reply) => Arrives(m, tx, reply) && |before.txs| < cfg.maxPoolSize
    case Broadcast(batch) =>
      && env.castOk && m.CheckTxResult? && m.reply.Some? && |after.txs| == |before.txs| + 1
      && batch.value == m.tx && Spells(batch.typeUrl, "mempool.transaction")
    case Reply(port, answer) =>
      env.fate == Delivered && AnswerDue(cfg, before, m, port) && TellsTheTruth(cfg, m, before, after, answer)
    case ReplyBlock(port, block) =>
      env.fate == Delivered && m == Take(port) && Blocks.IsLongestPrefix(before.txs, cfg.maxTxsBytes, block)
  }

  lemma UrlIsText(url: Bytes)
    ensures Spells(url, "mempool.transaction") <==> url == TX_TYPE_URL
  {
    var text := "mempool.transaction";
    assert forall i :: 0 <= i < |text| ==> TX_TYPE_URL[i] == text[i] as int;
  }

  /** Only one answer is true. */
  lemma TruthIsUnique(cfg: Config, p: Pool, tx: RawTx, result: CheckResult, reply: Option<Port>, answer: Answer)
    requires Valid(p)
    ensures var m := CheckTxResult(tx, result, reply);
      && Valid(PoolAfter(p, m, []))
      && (TellsTheTruth(cfg, m, p, PoolAfter(p, m, []), answer) <==> answer == AnswerTo(p, result))
  {
    VerdictIsTrue(cfg, p, tx, result, reply);
  }

  lemma VerdictPool(p: Pool, tx: RawTx, result: CheckResult, reply: Option<Port>, env: Env)
    requires Valid(p)
    ensures var after := OnCheckResult(p, tx, result, reply, env).pool;
      && after == PoolAfter(p, CheckTxResult(tx, result, reply), []) && Valid(after)
      && (|after.txs| == |p.txs| + 1
          <==> result.Checked? && result.outcome.valid && result.outcome.hash !in p.index)
  {
    VerdictKeepsValid(p, tx, result, reply, env);
  }

  lemma VerdictBroadcast(p: Pool, tx: RawTx, result: CheckResult, reply: Option<Port>, env: Env, batch: Batch)
    ensures Broadcast(batch) in OnCheckResult(p, tx, result, reply, env).effects
       <==> && env.castOk && reply.Some? && batch == BatchOf(tx)
            && result.Checked? && result.outcome.valid && result.outcome.hash !in p.index
  {
  }

  lemma VerdictReply(p: Pool, tx: RawTx, result: CheckResult, reply: Option<Port>, env: Env, port: Port, answer: Answer)
    ensures Reply(port, answer) in OnCheckResult(p, tx, result, reply, env).effects
       <==> env.fate == Delivered && reply == Some(port) && answer == AnswerTo(p, result)
  {
  }

  lemma VerdictSendsNothingElse(p: Pool, tx: RawTx, result: CheckResult, reply: Option<Port>, env: Env)
    ensures forall e :: e in OnCheckResult(p, tx, result, reply, env).effects ==> e.Broadcast? || e.Reply?
  {
  }

  lemma VerdictEffects(cfg: Config, p: Pool, tx: RawTx, result: CheckResult, reply: Option<Port>, env: Env, e: Effect)
    requires Valid(p)
    ensures var m, h := CheckTxResult(tx, result, reply), OnCheckResult(p, tx, result, reply, env);
      && h.pool == PoolAfter(p, m, []) && Valid(h.pool)
      && (e in h.effects <==> CalledFor(cfg, m, env, p, h.pool, e))
  {
    VerdictPool(p, tx, result, reply, env);
    match e
    case Broadcast(batch) =>
      UrlIsText(batch.typeUrl);
      VerdictBroadcast(p, tx, result, reply, env, batch);
    case Reply(port, answer) =>
      TruthIsUnique(cfg, p, tx, result, reply, answer);
      VerdictReply(p, tx, result, reply, env, port, answer);
    case _ => VerdictSendsNothingElse(p, tx, result, reply, env);
  }

  lemma BlockEffect(cfg: Config, p: Pool, port: Port, env: Env, e: Effect)
    requires Valid(p)
    ensures e in Handle(cfg, p, Take(port), env, []).effects <==> CalledFor(cfg, Take(port), env, p, p, e)
  {
    Blocks.FitIsLongestPrefix(p.txs, cfg.maxTxsBytes);
    if e.ReplyBlock? && Blocks.IsLongestPrefix(p.txs, cfg.maxTxsBytes, e.txs) {
      Blocks.LongestPrefixIsUnique(p.txs, cfg.maxTxsBytes, e.txs);
    }
  }

  lemma AdmissionEffects(cfg: Config, p: Pool, m: Msg, env: Env, e: Effect)
    requires Valid(p) && (m.Add? || m.NetworkEvent?)
    ensures e in Handle(cfg, p, m, env, []).effects <==> CalledFor(cfg, m, env, p, p, e)
  {
  }

  /** What is sent is exactly what is called for, for every message and every response of the surroundings. */
  lemma SentIffCalledFor(cfg: Config, p: Pool, m: Msg, env: Env, order: seq<TxHash>, e: Effect)
    requires Valid(p) && LegalOrder(p, m, order)
    ensures var h := Handle(cfg, p, m, env, order);
      Valid(h.pool) && (e in h.effects <==> CalledFor(cfg, m, env, p, h.pool, e))
  {
    HandleKeepsValid(cfg, p, m, env, order);
    match m
    case CheckTxResult(tx, result, reply) => VerdictEffects(cfg, p, tx, result, reply, env, e);
    case Take(port) => BlockEffect(cfg, p, port, env, e);
    case Add(_, _) => AdmissionEffects(cfg, p, m, env, e);
    case NetworkEvent(_) => AdmissionEffects(cfg, p, m, env, e);
    case _ =>
  }

  /** Nothing is sent twice, and a broadcast goes out before the answer. */
  lemma SentOnceAndInOrder(cfg: Config, p: Pool, m: Msg, env: Env, order: seq<TxHash>)
    requires Valid(p) && LegalOrder(p, m, order)
    ensures var effects := Handle(cfg, p, m, env, order).effects;
      && |effects| <= 2
      && (|effects| == 2 ==> effects[0].Broadcast? && effects[1].Reply?)
  {
  }

  /** The handler fails exactly when an answer is due, or a block, and cannot be sent. */
  lemma FailsIffAnswerFails(cfg: Config, p: Pool, m: Msg, env: Env, order: seq<TxHash>)
    requires Valid(p) && LegalOrder(p, m, order)
    ensures !Handle(cfg, p, m, env, order).ok
       <==> || (env.fate == SendFailed && exists port :: AnswerDue(cfg, p, m, port))
            || (env.fate != Delivered && m.Take?)
  {
    match m
    case Add(_, port) => assert |p.txs| >= cfg.maxPoolSize <==> AnswerDue(cfg, p, m, port);
    case CheckTxResult(_, _, Some(port)) => assert AnswerDue(cfg, p, m, port);
    case _ =>
  }

  /** The requester gets exactly one answer, on its own port, and a true one, even if gossiping fails. */
  lemma AnsweredExactlyOnce(cfg: Config, p: Pool, m: Msg, env: Env, order: seq<TxHash>, port: Port)
    requires Valid(p) && LegalOrder(p, m, order) && AnswerDue(cfg, p, m, port) && env.fate == Delivered
    ensures var h := Handle(cfg, p, m, env, order);
      && Valid(h.pool) && h.ok
      && exists k :: 0 <= k < |h.effects| && h.effects[k].Reply? && h.effects[k].port == port
           && TellsTheTruth(cfg, m, p, h.pool, h.effects[k].answer)
           && forall l :: 0 <= l < |h.effects| && l != k ==> !h.effects[l].Reply?
  {
    var h := Handle(cfg, p, m, env, order);
    AnswersTellTheTruth(cfg, p, m, env, order);
    var last := |h.effects| - 1;
    assert h.effects[last].Reply?;
  }

  /** Whether the network actor can be reached has no say in anything but the broadcast. */
  lemma CastHasNoOtherSay(cfg: Config, p: Pool, m: Msg, fate: ReplyFate, order: seq<TxHash>)
    requires Valid(p) && LegalOrder(p, m, order)
    ensures var up, down := Handle(cfg, p, m, Env(fate, true), order), Handle(cfg, p, m, Env(fate, false), order);
      && up.pool == down.pool && up.ok == down.ok
      && (up.effects == down.effects
          || (up.effects != [] && up.effects[0].Broadcast? && up.effects[1..] == down.effects))
      && forall e :: e in down.effects ==> !e.Broadcast?
  {
  }
}
