/**
  The delivery protocol as a transition system: workers, the cron and the listener over one
  `transactions` table and a chain they do not control. The queue is left completely free: any
  message, fresh or stale, may be handed to any worker at any time.
 */
module Protocol {
  import opened Basics
  import opened Rows
  import opened WalletPool

  type WorkerId = nat

  /** How a delivery attempt can fail; anything unexpected counts as Retriable. */
  datatype Failure = WalletsBusy | Defer | Permanent | Retriable

  datatype Tx = Tx(id: RowId, wallet: Wallet, dst: ChainId, nonce: nat, vaa: VaaId)

  datatype Receipt = Receipt(success: bool, gasUsed: Option<nat>, gasLimit: Option<int>)

  /** A (wallet, nonce) pair committed to a row. */
  datatype Commit = Commit(id: RowId, wallet: Wallet, nonce: nat)

  /** Where a worker stands; every state but Idle holds the message lock of `id`. */
  datatype WorkerAt =
    | Idle
    | Loaded(id: RowId, rec: Row, resubmit: Option<nat>)
    | FoundConsumed(id: RowId)
    | Ready(id: RowId, rec: Row, resubmit: Option<nat>)
    | Reserving(id: RowId, rec: Row, wallet: Wallet, nonce: nat)
    | Secured(id: RowId, rec: Row, wallet: Wallet, nonce: nat)
    | Sent(id: RowId, rec: Row, wallet: Wallet, nonce: nat, hash: Hash)
    | Failing(id: RowId, committed: bool, failure: Failure)
    | Dying(id: RowId)

  datatype CronAt =
    | Scanning
    | Confirming(id: RowId)
    | Refreshing(id: RowId, rec: Row)
    | Burying(id: RowId)

  /** The leader cron: row snapshots it selected and has not acted on yet, and its current point. */
  datatype Cron = Cron(snaps: map<RowId, Row>, at: CronAt)

  /** The destination chains: transactions on the wire, receipts, consumed VAAs, pending nonces. */
  datatype Chain = Chain(
    sent: map<Hash, Tx>,
    mined: map<Hash, Receipt>,
    consumed: set<(ChainId, VaaId)>,
    nonces: map<(Wallet, ChainId), nat>)

  /**
    History of a run: pairs ever committed, recorded reverts with the transaction that reverted,
    and the number of fresh reservations per row.
   */
  datatype History = History(
    committed: set<Commit>,
    reverted: map<Commit, Hash>,
    reservations: map<RowId, nat>)

  datatype State = State(
    rows: map<RowId, Row>,
    workers: map<WorkerId, WorkerAt>,
    cron: Cron,
    chain: Chain,
    log: History)

  predicate Init(s: State) {
    && s.rows == map[] && s.workers == map[] && s.cron == Cron(map[], Scanning)
    && s.chain.sent == map[] && s.chain.mined == map[]
    && s.log == History({}, map[], map[])
  }

  function At(s: State, w: WorkerId): WorkerAt {
    if w in s.workers then s.workers[w] else Idle
  }

  function ChainNonce(c: Chain, wallet: Wallet, dst: ChainId): nat {
    if (wallet, dst) in c.nonces then c.nonces[(wallet, dst)] else 0
  }

  function Reservations(log: History, id: RowId): nat {
    if id in log.reservations then log.reservations[id] else 0
  }

  // ---- Locks ----

  predicate MessageUnlocked(s: State, id: RowId) {
    forall w | w in s.workers && s.workers[w] != Idle :: s.workers[w].id != id
  }

  predicate WalletUnlocked(s: State, wallet: Wallet, chain: ChainId) {
    forall w | w in s.workers && s.workers[w].Reserving? ::
      s.workers[w].wallet != wallet || s.workers[w].rec.dst != chain
  }

  /** A failed row keeps the nonce of its reverted transaction until its next reservation. */
  predicate FailedOn(r: Row, wallet: Wallet, chain: ChainId, nonce: nat) {
    r.status == Failed && HoldsPair(r, wallet, nonce) && r.dst == chain
  }

  /**
    Environment hypothesis on `reserve`, about the chain nonce it read before its transaction: no
    failed row of this wallet and chain holds that nonce or, when a live row holds that one, the
    nonce after the highest live one.
   */
  predicate SafeSnapshot(rows: map<RowId, Row>, wallet: Wallet, chain: ChainId, snapshot: nat) {
    var live := LiveNonces(rows, wallet, chain);
    var next := if snapshot in live then DbNext(live) else snapshot;
    forall id | id in rows :: !FailedOn(rows[id], wallet, chain, next)
  }

  // ---- The worker's decisions ----

  /** Idempotency guard: terminal rows always, submitted rows unless a resubmit was asked for. */
  predicate SkipIdempotent(status: Status, replace: Option<nat>) {
    status == Confirmed || status == DeadLetter || (status == Submitted && replace.None?)
  }

  /** A replace_nonce message for a nonce the row no longer holds. */
  predicate SkipStale(rec: Row, replace: Option<nat>) {
    replace.Some? && rec.nonce != replace
  }

  /** The committed nonce this attempt must reuse, if any. */
  function ResubmitNonce(rec: Row, replace: Option<nat>): Option<nat> {
    if rec.wallet.None? then None
    else if replace.Some? then replace
    else if rec.status == Submitting then rec.nonce
    else None
  }

  /** A near-full gasUsed/gasLimit ratio is the out-of-gas signal; unknown figures count as one. */
  predicate LikelyOutOfGas(r: Receipt) {
    r.gasUsed.None? || r.gasLimit.None? || r.gasLimit.value <= 0
    || r.gasUsed.value * 100 >= r.gasLimit.value * 95
  }

  // ---- Steps ----

  datatype PrepareOutcome = PreparedReady | AlreadyConsumed | PrepareFailed(failure: Failure)

  datatype Step =
    // listener
    | InsertRow(id: RowId, dst: ChainId, vaa: VaaId, maxRetries: int, now: int)
    // worker
    | Begin(w: WorkerId, id: RowId, dst: ChainId, vaa: VaaId, maxRetries: int, replace: Option<nat>, now: int)
    | Prepare(w: WorkerId, outcome: PrepareOutcome)
    | ConfirmConsumed(w: WorkerId, now: int)
    | ReuseNonce(w: WorkerId, walletKnown: bool)
    | ReserveRead(w: WorkerId, wallet: Wallet, snapshot: nat)
    | ReserveFail(w: WorkerId, failure: Failure)
    | ReserveCommit(w: WorkerId, now: int, acknowledged: bool)
    | Broadcast(w: WorkerId, hash: Hash, reached: bool, problem: Option<Failure>)
    | RecordSubmitted(w: WorkerId, now: int)
    | HandleFailure(w: WorkerId, expired: bool, now: int)
    | BuryRow(w: WorkerId, now: int)
    | CrashWorker(w: WorkerId)
    // cron
    | CronSelect(ids: set<RowId>)
    | CronResubmit(id: RowId, now: int)
    | CronReceipt(id: RowId)
    | CronConfirm(now: int)
    | CronRefresh(now: int)
    | CronBury(now: int)
    | CrashCron
    // chain
    | Mine(hash: Hash, receipt: Receipt)
    | ConsumeElsewhere(dst: ChainId, vaa: VaaId)
    | PendingNonce(wallet: Wallet, dst: ChainId, nonce: nat)

  predicate IsCrash(step: Step) {
    step.CrashWorker? || step.CrashCron?
  }

  predicate Enabled(s: State, step: Step) {
    match step
    case InsertRow(_, _, _, _, _) => true
    case Begin(w, id, _, _, _, _, _) => At(s, w) == Idle && MessageUnlocked(s, id)
    case Prepare(w, outcome) =>
      var at := At(s, w);
      at.Loaded? && (outcome.AlreadyConsumed? ==> (at.rec.dst, at.rec.vaa) in s.chain.consumed)
    case ConfirmConsumed(w, _) => At(s, w).FoundConsumed? && At(s, w).id in s.rows
    case ReuseNonce(w, _) => var at := At(s, w); at.Ready? && at.resubmit.Some? && at.rec.wallet.Some?
    case ReserveRead(w, wallet, snapshot) =>
      var at := At(s, w);
      && at.Ready? && at.resubmit.None?
      && WalletUnlocked(s, wallet, at.rec.dst)
      && SafeSnapshot(s.rows, wallet, at.rec.dst, snapshot)
    case ReserveFail(w, _) => var at := At(s, w); (at.Ready? && at.resubmit.None?) || at.Reserving?
    case ReserveCommit(w, _, _) => At(s, w).Reserving? && At(s, w).id in s.rows
    case Broadcast(w, hash, reached, failure) =>
      var at := At(s, w);
      && at.Secured?
      && (failure.None? ==> reached)
      && (reached && hash in s.chain.sent ==> s.chain.sent[hash] == TxOf(at))
    case RecordSubmitted(w, _) => At(s, w).Sent? && At(s, w).id in s.rows
    case HandleFailure(w, _, _) => At(s, w).Failing? && At(s, w).id in s.rows
    case BuryRow(w, _) => At(s, w).Dying? && At(s, w).id in s.rows
    case CrashWorker(w) => true
    case CronSelect(ids) =>
      && s.cron.at == Scanning
      && forall id | id in ids :: id in s.rows && (s.rows[id].status == Submitting || s.rows[id].status == Submitted)
    case CronResubmit(id, _) => s.cron.at == Scanning && id in s.cron.snaps && id in s.rows
    case CronReceipt(id) =>
      && s.cron.at == Scanning && id in s.cron.snaps && s.cron.snaps[id].status == Submitted
      && s.cron.snaps[id].hash.Some? && s.cron.snaps[id].hash.value in s.chain.mined
    case CronConfirm(_) => s.cron.at.Confirming? && s.cron.at.id in s.rows
    case CronRefresh(_) => s.cron.at.Refreshing? && s.cron.at.id in s.rows
    case CronBury(_) => s.cron.at.Burying? && s.cron.at.id in s.rows
    case CrashCron => true
    case Mine(hash, _) => hash in s.chain.sent && hash !in s.chain.mined
    case ConsumeElsewhere(_, _) => true
    // The pending nonce may fall when the mempool drops transactions, never to a mined one.
    case PendingNonce(wallet, dst, nonce) =>
      forall h | h in s.chain.mined && h in s.chain.sent && s.chain.sent[h].wallet == wallet && s.chain.sent[h].dst == dst ::
        s.chain.sent[h].nonce < nonce
  }

  function TxOf(at: WorkerAt): Tx
    requires at.Secured?
  {
    Tx(at.id, at.wallet, at.rec.dst, at.nonce, at.rec.vaa)
  }

  function Goto(s: State, w: WorkerId, at: WorkerAt): State {
    s.(workers := s.workers[w := at])
  }

  function WriteRow(s: State, id: RowId, updated: Option<Row>): State {
    s.(rows := Store(s.rows, id, updated))
  }

  function InsertIfAbsent(s: State, id: RowId, row: Row): State {
    if id in s.rows then s else s.(rows := s.rows[id := row])
  }

  /** find-or-insert, then the idempotency and stale-replacement guards. */
  function ApplyBegin(s: State, w: WorkerId, id: RowId, row: Row, replace: Option<nat>): State {
    var s1 := InsertIfAbsent(s, id, row);
    var rec := s1.rows[id];
    if SkipIdempotent(rec.status, replace) || SkipStale(rec, replace) then s1
    else Goto(s1, w, Loaded(id, rec, ResubmitNonce(rec, replace)))
  }

  function ApplyReserveCommit(s: State, w: WorkerId, at: WorkerAt, now: int, acknowledged: bool): State
    requires at.Reserving? && at.id in s.rows
  {
    var updated := MarkSubmitting(s.rows[at.id], at.wallet, at.nonce, now);
    if updated.None? then Goto(s, w, Failing(at.id, false, Retriable))   // rolled back
    else
      var s1 := WriteRow(s, at.id, updated).(log := s.log.(
        committed := s.log.committed + {Commit(at.id, at.wallet, at.nonce)},
        reservations := s.log.reservations[at.id := Reservations(s.log, at.id) + 1]));
      // A commit whose acknowledgement is lost is durable, yet the worker sees an error.
      Goto(s1, w, if acknowledged then Secured(at.id, at.rec, at.wallet, at.nonce)
                  else Failing(at.id, false, Retriable))
  }

  function ApplyBroadcast(s: State, w: WorkerId, at: WorkerAt, hash: Hash, reached: bool, failure: Option<Failure>): State
    requires at.Secured?
  {
    var s1 := if reached then s.(chain := s.chain.(sent := s.chain.sent[hash := TxOf(at)])) else s;
    Goto(s1, w, if failure.Some? then Failing(at.id, true, failure.value)
                else Sent(at.id, at.rec, at.wallet, at.nonce, hash))
  }

  /** Failure after the nonce was committed: never a fresh nonce. */
  function ApplySubmittingFailure(s: State, w: WorkerId, id: RowId, failure: Failure, now: int): State
    requires id in s.rows
  {
    match failure
    case Permanent => Goto(s, w, Dying(id))
    case Defer => Goto(WriteRow(s, id, Touch(s.rows[id], now)), w, Idle)
    case _ =>
      var updated := IncrementRetry(s.rows[id], now);
      Goto(WriteRow(s, id, updated), w,
           if updated.Some? && Exhausted(updated) then Dying(id) else Idle)
  }

  /** Failure before any nonce was committed in this attempt. */
  function ApplyDeliveryFailure(s: State, w: WorkerId, id: RowId, failure: Failure, expired: bool, now: int): State
    requires id in s.rows
  {
    if failure.WalletsBusy? || (failure.Defer? && !expired) then
      Goto(WriteRow(s, id, Touch(s.rows[id], now)), w, Idle)
    else
      var updated := MarkFailed(s.rows[id], now);
      Goto(WriteRow(s, id, updated), w,
           if failure.Retriable? && !Exhausted(updated) then Idle else Dying(id))
  }

  function CronGoto(s: State, at: CronAt): State {
    s.(cron := s.cron.(at := at))
  }

  function DropSnap(s: State, id: RowId): State {
    s.(cron := s.cron.(snaps := s.cron.snaps - {id}))
  }

  /** Resubmit a stuck or crashed row; without a committed pair, fall back to a fresh send. */
  function ApplyCronResubmit(s: State, id: RowId, now: int): State
    requires id in s.cron.snaps && id in s.rows
  {
    var rec := s.cron.snaps[id];
    var s1 := DropSnap(s, id);
    if rec.nonce.None? || rec.wallet.None? then CronGoto(s1, Refreshing(id, rec))
    else
      var updated := IncrementRetry(s.rows[id], now);
      CronGoto(WriteRow(s1, id, updated),
               if updated.Some? && Exhausted(updated) then Burying(id) else Scanning)
  }

  function ApplyCronReceipt(s: State, id: RowId): State
    requires id in s.cron.snaps && s.cron.snaps[id].hash.Some? && s.cron.snaps[id].hash.value in s.chain.mined
  {
    var rec := s.cron.snaps[id];
    var receipt := s.chain.mined[rec.hash.value];
    CronGoto(DropSnap(s, id),
             if receipt.success then Confirming(id)
             else if LikelyOutOfGas(receipt) then Refreshing(id, rec)
             else Burying(id))
  }

  /** retryFresh: mark failed on a mined revert; bury the row when the budget is gone. */
  function ApplyCronRefresh(s: State, id: RowId, rec: Row, now: int): State
    requires id in s.rows
  {
    var row := s.rows[id];
    var updated := MarkFailed(row, now);
    var s1 := CronGoto(WriteRow(s, id, updated), if Exhausted(updated) then Burying(id) else Scanning);
    if updated.Some? && row.wallet.Some? && row.nonce.Some? && rec.hash.Some?
    then s1.(log := s1.log.(
      reverted := s1.log.reverted[Commit(id, row.wallet.value, row.nonce.value) := rec.hash.value]))
    else s1
  }

  /** A transaction mines; a successful receiveMessage marks its VAA consumed. */
  function MineTx(c: Chain, hash: Hash, receipt: Receipt): Chain
    requires hash in c.sent
  {
    var tx := c.sent[hash];
    c.(mined := c.mined[hash := receipt],
       consumed := if receipt.success then c.consumed + {(tx.dst, tx.vaa)} else c.consumed,
       nonces := c.nonces[(tx.wallet, tx.dst) := Max(ChainNonce(c, tx.wallet, tx.dst), tx.nonce + 1)])
  }

  function Apply(s: State, step: Step): State
    requires Enabled(s, step)
  {
    match step
    case InsertRow(id, dst, vaa, maxRetries, now) => InsertIfAbsent(s, id, NewRow(dst, vaa, maxRetries, now))
    case Begin(w, id, dst, vaa, maxRetries, replace, now) =>
      ApplyBegin(s, w, id, NewRow(dst, vaa, maxRetries, now), replace)
    case Prepare(w, outcome) =>
      var at := At(s, w);
      Goto(s, w, match outcome
                 case PreparedReady => Ready(at.id, at.rec, at.resubmit)
                 case AlreadyConsumed => FoundConsumed(at.id)
                 case PrepareFailed(failure) => Failing(at.id, at.resubmit.Some?, failure))
    case ConfirmConsumed(w, now) =>
      var id := At(s, w).id;
      Goto(WriteRow(s, id, MarkConfirmed(s.rows[id], now)), w, Idle)
    case ReuseNonce(w, walletKnown) =>
      var at := At(s, w);
      Goto(s, w, if walletKnown then Secured(at.id, at.rec, at.rec.wallet.value, at.resubmit.value)
                 else Failing(at.id, true, Retriable))
    case ReserveRead(w, wallet, snapshot) =>
      var at := At(s, w);
      Goto(s, w, Reserving(at.id, at.rec, wallet, ReserveNonce(LiveNonces(s.rows, wallet, at.rec.dst), snapshot)))
    case ReserveFail(w, failure) => Goto(s, w, Failing(At(s, w).id, false, failure))
    case ReserveCommit(w, now, acknowledged) => ApplyReserveCommit(s, w, At(s, w), now, acknowledged)
    case Broadcast(w, hash, reached, failure) => ApplyBroadcast(s, w, At(s, w), hash, reached, failure)
    case RecordSubmitted(w, now) =>
      var at := At(s, w);
      Goto(WriteRow(s, at.id, MarkSubmitted(s.rows[at.id], at.hash, at.wallet, at.nonce, now)), w, Idle)
    case HandleFailure(w, expired, now) =>
      var at := At(s, w);
      if at.committed then ApplySubmittingFailure(s, w, at.id, at.failure, now)
      else ApplyDeliveryFailure(s, w, at.id, at.failure, expired, now)
    case BuryRow(w, now) =>
      var id := At(s, w).id;
      Goto(WriteRow(s, id, MarkDeadLetter(s.rows[id], now)), w, Idle)
    case CrashWorker(w) => Goto(s, w, Idle)
    case CronSelect(ids) => s.(cron := s.cron.(snaps := s.cron.snaps + map id | id in ids :: s.rows[id]))
    case CronResubmit(id, now) => ApplyCronResubmit(s, id, now)
    case CronReceipt(id) => ApplyCronReceipt(s, id)
    case CronConfirm(now) =>
      CronGoto(WriteRow(s, s.cron.at.id, MarkConfirmed(s.rows[s.cron.at.id], now)), Scanning)
    case CronRefresh(now) => ApplyCronRefresh(s, s.cron.at.id, s.cron.at.rec, now)
    case CronBury(now) =>
      CronGoto(WriteRow(s, s.cron.at.id, MarkDeadLetter(s.rows[s.cron.at.id], now)), Scanning)
    case CrashCron => s.(cron := Cron(map[], Scanning))
    case Mine(hash, receipt) => s.(chain := MineTx(s.chain, hash, receipt))
    case ConsumeElsewhere(dst, vaa) => s.(chain := s.chain.(consumed := s.chain.consumed + {(dst, vaa)}))
    case PendingNonce(wallet, dst, nonce) => s.(chain := s.chain.(nonces := s.chain.nonces[(wallet, dst) := nonce]))
  }

  ghost predicate StepAt(states: seq<State>, steps: seq<Step>, i: nat)
    requires i < |steps| && i + 1 < |states|
  {
    Enabled(states[i], steps[i]) && states[i + 1] == Apply(states[i], steps[i])
  }

  /** An execution: any interleaving of enabled steps from an initial state. */
  ghost predicate Run(states: seq<State>, steps: seq<Step>) {
    && |states| == |steps| + 1
    && Init(states[0])
    && forall i | 0 <= i < |steps| :: StepAt(states, steps, i)
  }
}
