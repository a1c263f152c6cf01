/** What holds over every run of the mempool: any messages, any reply failures, any removal orders. */
module History {
  import opened Types
  import opened Pools
  import opened MempoolSpec
  import opened Blocks

  /** A message together with everything the actor does not control while handling it. */
  datatype Input = Input(msg: Msg, env: Env, order: seq<TxHash>)

  /** Each removal walks its surviving keys in some legal order. */
  ghost predicate Legal(cfg: Config, p: Pool, inputs: seq<Input>)
    requires Valid(p)
    decreases |inputs|
  {
    inputs == [] ||
    (LegalOrder(p, inputs[0].msg, inputs[0].order) && Legal(cfg, Step(cfg, p, inputs[0]).pool, inputs[1..]))
  }

  ghost function Step(cfg: Config, p: Pool, x: Input): (r: Handled)
    requires Valid(p) && LegalOrder(p, x.msg, x.order)
    ensures Valid(r.pool) && r.pool == PoolAfter(p, x.msg, x.order)
  {
    HandlePool(cfg, p, x.msg, x.env, x.order);
    HandleKeepsValid(cfg, p, x.msg, x.env, x.order);
    Handle(cfg, p, x.msg, x.env, x.order)
  }

  /** The pool after a run. Its index is a bijection again, whatever happened. */
  ghost function Run(cfg: Config, p: Pool, inputs: seq<Input>): (r: Pool)
    requires Valid(p) && Legal(cfg, p, inputs)
    ensures Valid(r)
    decreases |inputs|
  {
    if inputs == [] then p else Run(cfg, Step(cfg, p, inputs[0]).pool, inputs[1..])
  }

  /** Everything sent during a run. */
  ghost function Sent(cfg: Config, p: Pool, inputs: seq<Input>): seq<Effect>
    requires Valid(p) && Legal(cfg, p, inputs)
    decreases |inputs|
  {
    if inputs == [] then []
    else Step(cfg, p, inputs[0]).effects + Sent(cfg, Step(cfg, p, inputs[0]).pool, inputs[1..])
  }

  // ---------------------------------------------------------------------------------------------
  // Refinement: the pair of queue and index behaves as one map
  // ---------------------------------------------------------------------------------------------

  /** A message on the map: one insert of an absent key, a restriction, or nothing. */
  function MapStep(view: map<TxHash, RawTx>, m: Msg): map<TxHash, RawTx> {
    match m
    case CheckTxResult(tx, Checked(Outcome(h, true)), _) => if h in view then view else view[h := tx]
    case Remove(hashes) => view - Elements(hashes)
    case _ => view
  }

  /** What the map makes the mempool ask of the application and of the network. */
  function MapRequests(cfg: Config, view: map<TxHash, RawTx>, m: Msg, castOk: bool): seq<Effect> {
    match m
    case Add(tx, port) => if |view| < cfg.maxPoolSize then [EmitCheck(tx, Some(port))] else []
    case NetworkEvent(Message(batch)) => if |view| < cfg.maxPoolSize then [EmitCheck(batch.value, None)] else []
    case CheckTxResult(tx, result, reply) =>
      if result.Checked? && result.outcome.valid && result.outcome.hash !in view && reply.Some? && castOk
      then [Broadcast(BatchOf(tx))] else []
    case _ => []
  }

  function MapRun(view: map<TxHash, RawTx>, inputs: seq<Input>): map<TxHash, RawTx>
    decreases |inputs|
  {
    if inputs == [] then view else MapRun(MapStep(view, inputs[0].msg), inputs[1..])
  }

  function MapSent(cfg: Config, view: map<TxHash, RawTx>, inputs: seq<Input>): seq<Effect>
    decreases |inputs|
  {
    if inputs == [] then []
    else MapRequests(cfg, view, inputs[0].msg, inputs[0].env.castOk)
         + MapSent(cfg, MapStep(view, inputs[0].msg), inputs[1..])
  }

  /** The part of what was sent that goes to the application or to the network. */
  function Requests(effects: seq<Effect>): seq<Effect> {
    if effects == [] then [] else Requests(effects[..|effects| - 1]) + Request(effects[|effects| - 1])
  }

  function Request(effect: Effect): seq<Effect> {
    if effect.EmitCheck? || effect.Broadcast? then [effect] else []
  }

  lemma {:induction false} RequestsSplit(a: seq<Effect>, b: seq<Effect>)
    ensures Requests(a + b) == Requests(a) + Requests(b)
  {
    if b == [] {
      assert a + b == a;
    } else {
      var last := |b| - 1;
      RequestsSplit(a, b[..last]);
      assert (a + b)[..|a + b| - 1] == a + b[..last];
      Associates(Requests(a), Requests(b[..last]), Request(b[last]));
    }
  }

  lemma RequestsUpToTwo(effects: seq<Effect>)
    requires 0 < |effects| <= 2
    ensures Requests(effects) == Request(effects[0]) + (if |effects| == 2 then Request(effects[1]) else [])
  {
    var front := effects[..|effects| - 1];
    if |effects| == 2 {
      assert front == [effects[0]];
      assert Requests(front) == Requests([]) + Request(effects[0]);
    }
  }

  lemma StepRefinesMap(cfg: Config, p: Pool, x: Input)
    requires Valid(p) && LegalOrder(p, x.msg, x.order)
    ensures View(Step(cfg, p, x).pool) == MapStep(View(p), x.msg)
  {
    var q := Step(cfg, p, x).pool;
    match x.msg
    case CheckTxResult(tx, Checked(Outcome(h, true)), _) =>
      if h !in p.index {
        InsertIsMapUpdate(p, h, tx);
      }
    case Remove(hashes) => RebuildIsRestriction(p, hashes, x.order);
    case _ =>
  }

  /** Answers are not requests. */
  lemma AnsweringRequests(p: Pool, reply: Option<Port>, answer: Answer, env: Env)
    ensures Requests(Answering(p, reply, answer, env).effects) == []
  {
    var effects := Answering(p, reply, answer, env).effects;
    if effects != [] {
      RequestsUpToTwo(effects);
    }
  }

  lemma VerdictRequests(p: Pool, tx: RawTx, result: CheckResult, reply: Option<Port>, env: Env)
    ensures Requests(OnCheckResult(p, tx, result, reply, env).effects)
         == if result.Checked? && result.outcome.valid && result.outcome.hash !in p.index && reply.Some? && env.castOk
            then [Broadcast(BatchOf(tx))] else []
  {
    match result
    case AppError(reason) => AnsweringRequests(p, reply, Failure(InvalidTransaction(reason)), env);
    case Checked(outcome) =>
      if !outcome.valid {
        AnsweringRequests(p, reply, Success(outcome), env);
      } else if outcome.hash in p.index {
        AnsweringRequests(p, reply, Failure(TxAlreadyExists(outcome.hash)), env);
      } else {
        AcceptedRequests(p, tx, outcome, reply, env);
      }
  }

  lemma AcceptedRequests(p: Pool, tx: RawTx, outcome: Outcome, reply: Option<Port>, env: Env)
    requires outcome.valid && outcome.hash !in p.index
    ensures Requests(OnCheckResult(p, tx, Checked(outcome), reply, env).effects)
         == if reply.Some? && env.castOk then [Broadcast(BatchOf(tx))] else []
  {
    var gossip := if reply.Some? && env.castOk then [Broadcast(BatchOf(tx))] else [];
    var inserted := Insert(p, outcome.hash, tx);
    AnsweringRequests(inserted, reply, Success(outcome), env);
    RequestsSplit(gossip, Answering(inserted, reply, Success(outcome), env).effects);
    if gossip != [] {
      RequestsUpToTwo(gossip);
    }
  }

  lemma AdmissionRequests(cfg: Config, p: Pool, tx: RawTx, reply: Option<Port>, env: Env)
    ensures Requests(MempoolSpec.AddTx(cfg, p, tx, reply, env).effects)
         == if |p.txs| < cfg.maxPoolSize then [EmitCheck(tx, reply)] else []
  {
    if |p.txs| >= cfg.maxPoolSize {
      AnsweringRequests(p, reply, Failure(MempoolFull(|p.txs|, cfg.maxPoolSize)), env);
    } else {
      RequestsUpToTwo([EmitCheck(tx, reply)]);
    }
  }

  lemma HandleVerdictRequests(cfg: Config, p: Pool, m: Msg, env: Env)
    requires Valid(p) && m.CheckTxResult?
    ensures Requests(Handle(cfg, p, m, env, []).effects) == MapRequests(cfg, View(p), m, env.castOk)
  {
    VerdictRequests(p, m.tx, m.result, m.reply, env);
    assert View(p).Keys == p.index.Keys;
  }

  lemma HandleRequests(cfg: Config, p: Pool, m: Msg, env: Env)
    requires Valid(p) && !m.Remove?
    ensures Requests(Handle(cfg, p, m, env, []).effects) == MapRequests(cfg, View(p), m, env.castOk)
  {
    match m
    case CheckTxResult(_, _, _) => HandleVerdictRequests(cfg, p, m, env);
    case Add(tx, port) =>
      SizeOfView(p);
      AdmissionRequests(cfg, p, tx, Some(port), env);
    case NetworkEvent(Message(batch)) =>
      SizeOfView(p);
      AdmissionRequests(cfg, p, batch.value, None, env);
    case _ => QuietRequests(cfg, p, m, env);
  }

  lemma QuietRequests(cfg: Config, p: Pool, m: Msg, env: Env)
    requires m.Subscribe? || m.Take? || (m.NetworkEvent? && !m.event.Message?)
    ensures Requests(Handle(cfg, p, m, env, []).effects) == []
  {
    var effects := Handle(cfg, p, m, env, []).effects;
    if effects != [] {
      RequestsUpToTwo(effects);
    }
  }

  lemma StepRequests(cfg: Config, p: Pool, x: Input)
    requires Valid(p) && LegalOrder(p, x.msg, x.order)
    ensures Requests(Step(cfg, p, x).effects) == MapRequests(cfg, View(p), x.msg, x.env.castOk)
  {
    if !x.msg.Remove? {
      HandleRequests(cfg, p, x.msg, x.env);
    }
  }

  /**
   * Every run refines the run of a single map: the abstract pool, the checks requested and the
   * broadcasts made are functions of the messages alone.
   */
  lemma {:induction false} RunRefinesMap(cfg: Config, p: Pool, inputs: seq<Input>)
    requires Valid(p) && Legal(cfg, p, inputs)
    ensures View(Run(cfg, p, inputs)) == MapRun(View(p), inputs)
    ensures Requests(Sent(cfg, p, inputs)) == MapSent(cfg, View(p), inputs)
    decreases |inputs|
  {
    if inputs != [] {
      var s := Step(cfg, p, inputs[0]);
      StepRefinesMap(cfg, p, inputs[0]);
      StepRequests(cfg, p, inputs[0]);
      RunRefinesMap(cfg, s.pool, inputs[1..]);
      RequestsSplit(s.effects, Sent(cfg, s.pool, inputs[1..]));
    }
  }

  // ---------------------------------------------------------------------------------------------
  // Two runs
  // ---------------------------------------------------------------------------------------------

  /** The same messages reach the actor; replies may fail differently and removals may walk differently. */
  ghost predicate SameMessages(a: seq<Input>, b: seq<Input>) {
    && |a| == |b|
    && (forall i :: 0 <= i < |a| ==> a[i].msg == b[i].msg && a[i].env.castOk == b[i].env.castOk)
  }

  lemma {:induction false} SameMessagesSameMap(cfg: Config, view: map<TxHash, RawTx>, a: seq<Input>, b: seq<Input>)
    requires SameMessages(a, b)
    ensures MapRun(view, a) == MapRun(view, b) && MapSent(cfg, view, a) == MapSent(cfg, view, b)
    decreases |a|
  {
    if a != [] {
      SameMessagesSameMap(cfg, MapStep(view, a[0].msg), a[1..], b[1..]);
    }
  }

  /**
   * Reply failures and iteration orders influence neither which transactions are pooled under which
   * hash, nor what is checked, nor what is broadcast.
   */
  lemma FailuresAndOrdersDoNotMatter(cfg: Config, p: Pool, a: seq<Input>, b: seq<Input>)
    requires Valid(p) && Legal(cfg, p, a) && Legal(cfg, p, b) && SameMessages(a, b)
    ensures View(Run(cfg, p, a)) == View(Run(cfg, p, b))
    ensures Requests(Sent(cfg, p, a)) == Requests(Sent(cfg, p, b))
  {
    RunRefinesMap(cfg, p, a);
    RunRefinesMap(cfg, p, b);
    SameMessagesSameMap(cfg, View(p), a, b);
  }

  /** The messages differ at most in where a transaction came from: a local request or a peer. */
  ghost predicate SameUpToOrigin(m: Msg, n: Msg) {
    match (m, n)
    case (CheckTxResult(tx, result, _), CheckTxResult(tx', result', _)) => tx == tx' && result == result'
    case (_, _) => m == n || (Submission(m).Some? && Submission(m) == Submission(n))
  }

  /** The transaction a message submits for checking. */
  function Submission(m: Msg): Option<RawTx> {
    match m
    case Add(tx, _) => Some(tx)
    case NetworkEvent(Message(batch)) => Some(batch.value)
    case _ => None
  }

  /** The transactions handed to the application, in order. */
  function CheckedTxs(effects: seq<Effect>): seq<RawTx> {
    if effects == [] then [] else CheckedTxs(effects[..|effects| - 1]) + CheckedTx(effects[|effects| - 1])
  }

  function CheckedTx(effect: Effect): seq<RawTx> {
    if effect.EmitCheck? then [effect.tx] else []
  }

  lemma {:induction false} CheckedTxsSplit(a: seq<Effect>, b: seq<Effect>)
    ensures CheckedTxs(a + b) == CheckedTxs(a) + CheckedTxs(b)
  {
    if b == [] {
      assert a + b == a;
    } else {
      var last := |b| - 1;
      CheckedTxsSplit(a, b[..last]);
      assert (a + b)[..|a + b| - 1] == a + b[..last];
      Associates(CheckedTxs(a), CheckedTxs(b[..last]), CheckedTx(b[last]));
    }
  }

  lemma CheckedTxsUpToTwo(effects: seq<Effect>)
    requires 0 < |effects| <= 2
    ensures CheckedTxs(effects) == CheckedTx(effects[0]) + (if |effects| == 2 then CheckedTx(effects[1]) else [])
  {
    var front := effects[..|effects| - 1];
    if |effects| == 2 {
      assert front == [effects[0]];
      assert CheckedTxs(front) == CheckedTxs([]) + CheckedTx(effects[0]);
    }
  }

  lemma OriginStep(cfg: Config, p: Pool, x: Input, y: Input)
    requires Valid(p) && LegalOrder(p, x.msg, x.order)
    requires SameUpToOrigin(x.msg, y.msg) && x.order == y.order
    ensures LegalOrder(p, y.msg, y.order)
    ensures Step(cfg, p, x).pool == Step(cfg, p, y).pool
    ensures CheckedTxs(Step(cfg, p, x).effects) == CheckedTxs(Step(cfg, p, y).effects)
  {
    EffectsOfStep(cfg, p, x);
    EffectsOfStep(cfg, p, y);
  }

  lemma VerdictChecksNothing(p: Pool, tx: RawTx, result: CheckResult, reply: Option<Port>, env: Env)
    ensures CheckedTxs(OnCheckResult(p, tx, result, reply, env).effects) == []
  {
    var effects := OnCheckResult(p, tx, result, reply, env).effects;
    if effects != [] {
      CheckedTxsUpToTwo(effects);
    }
  }

  lemma AdmissionChecks(cfg: Config, p: Pool, tx: RawTx, reply: Option<Port>, env: Env)
    ensures CheckedTxs(MempoolSpec.AddTx(cfg, p, tx, reply, env).effects)
         == if |p.txs| < cfg.maxPoolSize then [tx] else []
  {
  }

  /** A step asks the application to check the submitted transaction, if there is room, and nothing else. */
  lemma EffectsOfStep(cfg: Config, p: Pool, x: Input)
    requires Valid(p) && LegalOrder(p, x.msg, x.order)
    ensures CheckedTxs(Step(cfg, p, x).effects)
         == if Submission(x.msg).Some? && |p.txs| < cfg.maxPoolSize then [Submission(x.msg).value] else []
  {
    match x.msg
    case CheckTxResult(tx, result, reply) => VerdictChecksNothing(p, tx, result, reply, x.env);
    case Add(tx, port) => AdmissionChecks(cfg, p, tx, Some(port), x.env);
    case NetworkEvent(Message(batch)) => AdmissionChecks(cfg, p, batch.value, None, x.env);
    case _ =>
  }

  /**
   * Replacing local submissions by gossiped ones, and the other way round, changes neither the queue,
   * nor the index, nor what the application is asked to check.
   */
  lemma {:induction false} OriginDoesNotMatter(cfg: Config, p: Pool, a: seq<Input>, b: seq<Input>)
    requires Valid(p) && Legal(cfg, p, a) && |a| == |b|
    requires forall i :: 0 <= i < |a| ==> SameUpToOrigin(a[i].msg, b[i].msg) && a[i].order == b[i].order
    ensures Legal(cfg, p, b) && Run(cfg, p, a) == Run(cfg, p, b)
    ensures CheckedTxs(Sent(cfg, p, a)) == CheckedTxs(Sent(cfg, p, b))
    decreases |a|
  {
    if a != [] {
      OriginStep(cfg, p, a[0], b[0]);
      var s, t := Step(cfg, p, a[0]), Step(cfg, p, b[0]);
      OriginDoesNotMatter(cfg, s.pool, a[1..], b[1..]);
      CheckedTxsSplit(s.effects, Sent(cfg, s.pool, a[1..]));
      CheckedTxsSplit(t.effects, Sent(cfg, t.pool, b[1..]));
    }
  }

  // ---------------------------------------------------------------------------------------------
  // The history of one hash
  // ---------------------------------------------------------------------------------------------

  ghost function Bit(b: bool): nat {
    if b then 1 else 0
  }

  /** The message is a positive verdict under this hash. */
  predicate Accepts(m: Msg, h: TxHash) {
    m.CheckTxResult? && m.result == Checked(Outcome(h, true))
  }

  /** How often a run inserts a transaction under this hash. */
  ghost function Inserts(cfg: Config, p: Pool, inputs: seq<Input>, h: TxHash): nat
    requires Valid(p) && Legal(cfg, p, inputs)
    decreases |inputs|
  {
    if inputs == [] then 0
    else Bit(Accepts(inputs[0].msg, h) && |Step(cfg, p, inputs[0]).pool.txs| > |p.txs|)
         + Inserts(cfg, Step(cfg, p, inputs[0]).pool, inputs[1..], h)
  }

  /** How often a run removes this hash when it is there. */
  ghost function Removals(cfg: Config, p: Pool, inputs: seq<Input>, h: TxHash): nat
    requires Valid(p) && Legal(cfg, p, inputs)
    decreases |inputs|
  {
    if inputs == [] then 0
    else Bit(inputs[0].msg.Remove? && h in inputs[0].msg.hashes && h in p.index)
         + Removals(cfg, Step(cfg, p, inputs[0]).pool, inputs[1..], h)
  }

  lemma HashStep(cfg: Config, p: Pool, x: Input, h: TxHash)
    requires Valid(p) && LegalOrder(p, x.msg, x.order)
    ensures var q := Step(cfg, p, x).pool;
      Bit(h in p.index) + Bit(Accepts(x.msg, h) && |q.txs| > |p.txs|)
      == Bit(h in q.index) + Bit(x.msg.Remove? && h in x.msg.hashes && h in p.index)
  {
    StepRefinesMap(cfg, p, x);
    assert forall q :: Valid(q) ==> (h in View(q) <==> h in q.index);
  }

  /** Inserts and removals of a hash alternate: their difference is the presence of the hash. */
  lemma {:induction false} HashHistoryBalances(cfg: Config, p: Pool, inputs: seq<Input>, h: TxHash)
    requires Valid(p) && Legal(cfg, p, inputs)
    ensures Bit(h in p.index) + Inserts(cfg, p, inputs, h)
         == Bit(h in Run(cfg, p, inputs).index) + Removals(cfg, p, inputs, h)
    decreases |inputs|
  {
    if inputs != [] {
      HashStep(cfg, p, inputs[0], h);
      HashHistoryBalances(cfg, Step(cfg, p, inputs[0]).pool, inputs[1..], h);
    }
  }

  /** However many checks of a hash were in flight, the first verdict inserts it and the others do not. */
  lemma {:induction false} OneInsertBetweenRemovals(cfg: Config, p: Pool, inputs: seq<Input>, h: TxHash)
    requires Valid(p) && Legal(cfg, p, inputs)
    requires forall x :: x in inputs && x.msg.Remove? ==> h !in x.msg.hashes
    requires exists x :: x in inputs && Accepts(x.msg, h)
    ensures h in Run(cfg, p, inputs).index
    ensures Inserts(cfg, p, inputs, h) == Bit(h !in p.index)
  {
    NoRemovalKeepsHash(cfg, p, inputs, h);
    HashHistoryBalances(cfg, p, inputs, h);
  }

  lemma {:induction false} NoRemovalKeepsHash(cfg: Config, p: Pool, inputs: seq<Input>, h: TxHash)
    requires Valid(p) && Legal(cfg, p, inputs)
    requires forall x :: x in inputs && x.msg.Remove? ==> h !in x.msg.hashes
    ensures Removals(cfg, p, inputs, h) == 0
    ensures h in p.index || (exists x :: x in inputs && Accepts(x.msg, h)) ==> h in Run(cfg, p, inputs).index
    decreases |inputs|
  {
    if inputs != [] {
      assert inputs == [inputs[0]] + inputs[1..];
      StepRefinesMap(cfg, p, inputs[0]);
      NoRemovalKeepsHash(cfg, Step(cfg, p, inputs[0]).pool, inputs[1..], h);
      assert forall q :: Valid(q) ==> (h in View(q) <==> h in q.index);
    }
  }

  // ---------------------------------------------------------------------------------------------
  // First in, first out
  // ---------------------------------------------------------------------------------------------

  /** The transactions accepted by a run of verdicts, in order, given the hashes already known. */
  function AcceptedTxs(known: set<TxHash>, inputs: seq<Input>): seq<RawTx>
    decreases |inputs|
  {
    if inputs == [] then []
    else match inputs[0].msg
      case CheckTxResult(tx, Checked(Outcome(h, true)), _) =>
        (if h in known then [] else [tx]) + AcceptedTxs(known + {h}, inputs[1..])
      case _ => AcceptedTxs(known, inputs[1..])
  }

  lemma QueueStep(p: Pool, x: Input, rest: seq<Input>)
    requires !x.msg.Remove?
    ensures p.txs + AcceptedTxs(p.index.Keys, [x] + rest)
         == PoolAfter(p, x.msg, x.order).txs + AcceptedTxs(PoolAfter(p, x.msg, x.order).index.Keys, rest)
  {
    assert ([x] + rest)[1..] == rest;
    match x.msg
    case CheckTxResult(tx, Checked(Outcome(h, true)), _) =>
      assert PoolAfter(p, x.msg, x.order).index.Keys == p.index.Keys + {h};
    case _ =>
  }

  /** Without removals the queue grows at its end only, by the accepted transactions in order. */
  lemma {:induction false} QueueGrowsInOrder(cfg: Config, p: Pool, inputs: seq<Input>)
    requires Valid(p) && Legal(cfg, p, inputs)
    requires forall x :: x in inputs ==> !x.msg.Remove?
    ensures Run(cfg, p, inputs).txs == p.txs + AcceptedTxs(p.index.Keys, inputs)
    decreases |inputs|
  {
    if inputs != [] {
      assert inputs[0] in inputs;
      var q := Step(cfg, p, inputs[0]).pool;
      QueueGrowsInOrder(cfg, q, inputs[1..]);
      QueueStep(p, inputs[0], inputs[1..]);
      assert [inputs[0]] + inputs[1..] == inputs;
    }
  }

  /** Without removals an earlier block is always a prefix of a later one. */
  lemma BlocksGrow(cfg: Config, p: Pool, inputs: seq<Input>)
    requires Valid(p) && Legal(cfg, p, inputs)
    requires forall x :: x in inputs ==> !x.msg.Remove?
    ensures Fit(p.txs, cfg.maxTxsBytes) <= Fit(Run(cfg, p, inputs).txs, cfg.maxTxsBytes)
  {
    QueueGrowsInOrder(cfg, p, inputs);
    FitMonotone(p.txs, AcceptedTxs(p.index.Keys, inputs), cfg.maxTxsBytes, cfg.maxTxsBytes);
  }
}
