/**
  Where the protocol stops short of what its comments promise, each with the exact condition: a
  confirmed row can keep a nonce that was never broadcast, a stale snapshot can hand out a nonce that a
  failed row still holds, and one nonce can go out for two rows.
 */
module ProtocolLimits {
  import opened Basics
  import opened Rows
  import opened WalletPool
  import opened Protocol
  import opened ProtocolInvariant
  import opened ProtocolTheorems

  // ---- Reachability ----

  ghost predicate Path(states: seq<State>, steps: seq<Step>, s: State, t: State) {
    && |states| == |steps| + 1 && states[0] == s && states[|steps|] == t
    && forall i | 0 <= i < |steps| :: StepAt(states, steps, i)
  }

  ghost predicate CanReach(s: State, t: State) {
    exists states, steps :: Path(states, steps, s, t)
  }

  ghost predicate Reachable(t: State) {
    exists s :: Init(s) && CanReach(s, t)
  }

  lemma ReachSelf(s: State)
    ensures CanReach(s, s)
  {
    assert Path([s], [], s, s);
  }

  lemma ExtendPath(s: State, t: State, step: Step)
    requires CanReach(s, t) && Enabled(t, step)
    ensures CanReach(s, Apply(t, step))
  {
    var states, steps :| Path(states, steps, s, t);
    var states', steps' := states + [Apply(t, step)], steps + [step];
    forall i | 0 <= i < |steps'|
      ensures StepAt(states', steps', i)
    {
      assert i < |steps| ==> StepAt(states, steps, i);
    }
    assert Path(states', steps', s, Apply(t, step));
  }

  lemma ReachStep(t: State, step: Step)
    requires Reachable(t) && Enabled(t, step)
    ensures Reachable(Apply(t, step))
  {
    var s :| Init(s) && CanReach(s, t);
    ExtendPath(s, t, step);
  }

  lemma {:induction false} PathInv(states: seq<State>, steps: seq<Step>, s: State, t: State, i: nat)
    requires Path(states, steps, s, t) && Inv(s) && i < |states|
    ensures Inv(states[i])
  {
    if i > 0 {
      PathInv(states, steps, s, t, i - 1);
      assert StepAt(states, steps, i - 1);
      StepInv(states[i - 1], steps[i - 1]);
    }
  }

  lemma InvAlong(s: State, t: State)
    requires Inv(s) && CanReach(s, t)
    ensures Inv(t)
  {
    var states, steps :| Path(states, steps, s, t);
    PathInv(states, steps, s, t, |steps|);
  }

  lemma ReachableInv(t: State)
    requires Reachable(t)
    ensures Inv(t)
  {
    var s :| Init(s) && CanReach(s, t);
    InitInv(s);
    InvAlong(s, t);
  }

  // ---- Runs, piece by piece ----
  // One wallet and one destination; times do not matter and are 0.

  const DST: ChainId := 1
  const WALLET: Wallet := 3
  const REVERT := Receipt(false, None, None)
  const SUCCESS := Receipt(true, None, None)

  lemma ReachLoaded(s: State, w: WorkerId, id: RowId, rec: Row, resubmit: Option<nat>)
    requires Reachable(s) && At(s, w) == Idle && MessageUnlocked(s, id)
    requires if id in s.rows then rec == s.rows[id] else rec == NewRow(rec.dst, rec.vaa, rec.maxRetries, 0)
    requires !SkipIdempotent(rec.status, None) && resubmit == ResubmitNonce(rec, None)
    ensures Reachable(s.(rows := s.rows[id := rec], workers := s.workers[w := Loaded(id, rec, resubmit)]))
  {
    var step := Begin(w, id, rec.dst, rec.vaa, rec.maxRetries, None, 0);
    ReachStep(s, step);
    assert id in s.rows ==> s.rows[id := rec] == s.rows;
  }

  /** After a fresh reservation has committed. */
  function Committed(s: State, w: WorkerId, id: RowId, rec: Row, nonce: nat): State {
    s.(rows := s.rows[id := rec.(status := Submitting, wallet := Some(WALLET), nonce := Some(nonce), updatedAt := 0)],
       workers := s.workers[w := Secured(id, rec, WALLET, nonce)],
       log := s.log.(committed := s.log.committed + {Commit(id, WALLET, nonce)},
                     reservations := s.log.reservations[id := Reservations(s.log, id) + 1]))
  }

  lemma ReachReserving(s: State, w: WorkerId, id: RowId, rec: Row, snapshot: nat)
    requires Reachable(s) && At(s, w) == Loaded(id, rec, None) && w in s.workers && rec.dst == DST
    requires WalletUnlocked(s, WALLET, DST) && SafeSnapshot(s.rows, WALLET, DST, snapshot)
    ensures Reachable(s.(workers := s.workers[w := Reserving(id, rec, WALLET, ReserveNonce(LiveNonces(s.rows, WALLET, DST), snapshot))]))
  {
    ReachStep(s, Prepare(w, PreparedReady));
    var ready := s.(workers := s.workers[w := Ready(id, rec, None)]);
    assert Apply(s, Prepare(w, PreparedReady)) == ready;
    ReachStep(ready, ReserveRead(w, WALLET, snapshot));
    var last := Reserving(id, rec, WALLET, ReserveNonce(LiveNonces(s.rows, WALLET, DST), snapshot));
    assert ready.workers[w := last] == s.workers[w := last];
  }

  lemma ReachCommitted(s: State, w: WorkerId, id: RowId, rec: Row, snapshot: nat, nonce: nat)
    requires Reachable(s) && At(s, w) == Loaded(id, rec, None) && w in s.workers && rec.dst == DST
    requires id in s.rows && s.rows[id] == rec && (rec.status == Pending || rec.status == Failed)
    requires WalletUnlocked(s, WALLET, DST) && SafeSnapshot(s.rows, WALLET, DST, snapshot)
    requires ReserveNonce(LiveNonces(s.rows, WALLET, DST), snapshot) == nonce
    ensures Reachable(Committed(s, w, id, rec, nonce))
  {
    ReachReserving(s, w, id, rec, snapshot);
    var reserving := s.(workers := s.workers[w := Reserving(id, rec, WALLET, nonce)]);
    ReachStep(reserving, ReserveCommit(w, 0, true));
    assert reserving.workers[w := Secured(id, rec, WALLET, nonce)] == s.workers[w := Secured(id, rec, WALLET, nonce)];
  }

  /** A worker takes a row that holds no nonce to attempt and reserves one for it. */
  lemma ReachReserved(s: State, w: WorkerId, id: RowId, rec: Row, snapshot: nat, nonce: nat)
    requires Reachable(s) && At(s, w) == Idle && MessageUnlocked(s, id) && rec.dst == DST
    requires if id in s.rows then rec == s.rows[id] else rec == NewRow(rec.dst, rec.vaa, rec.maxRetries, 0)
    requires rec.status == Pending || rec.status == Failed
    requires var rows := s.rows[id := rec];
      && WalletUnlocked(s, WALLET, DST) && SafeSnapshot(rows, WALLET, DST, snapshot)
      && ReserveNonce(LiveNonces(rows, WALLET, DST), snapshot) == nonce
    ensures Reachable(Committed(s, w, id, rec, nonce))
  {
    ReachLoaded(s, w, id, rec, None);
    var loaded := s.(rows := s.rows[id := rec], workers := s.workers[w := Loaded(id, rec, None)]);
    LoadedUnlocked(s, w, id, rec);
    ReachCommitted(loaded, w, id, rec, snapshot, nonce);
    CommittedAfterLoad(s, w, id, rec, nonce);
  }

  lemma LoadedUnlocked(s: State, w: WorkerId, id: RowId, rec: Row)
    requires WalletUnlocked(s, WALLET, DST)
    ensures WalletUnlocked(s.(rows := s.rows[id := rec], workers := s.workers[w := Loaded(id, rec, None)]), WALLET, DST)
  {
  }

  lemma CommittedAfterLoad(s: State, w: WorkerId, id: RowId, rec: Row, nonce: nat)
    ensures Committed(s.(rows := s.rows[id := rec], workers := s.workers[w := Loaded(id, rec, None)]), w, id, rec, nonce)
      == Committed(s, w, id, rec, nonce)
  {
    var last := Secured(id, rec, WALLET, nonce);
    assert s.workers[w := Loaded(id, rec, None)][w := last] == s.workers[w := last];
    var row := rec.(status := Submitting, wallet := Some(WALLET), nonce := Some(nonce), updatedAt := 0);
    assert s.rows[id := rec][id := row] == s.rows[id := row];
  }

  /** The transaction of a secured pair goes out and its hash is recorded. */
  function Delivered(s: State, w: WorkerId, hash: Hash): State
    requires At(s, w).Secured? && At(s, w).id in s.rows
  {
    var at := At(s, w);
    s.(rows := s.rows[at.id := s.rows[at.id].(status := Submitted, hash := Some(hash), wallet := Some(at.wallet), nonce := Some(at.nonce), updatedAt := 0)],
       workers := s.workers[w := Idle],
       chain := s.chain.(sent := s.chain.sent[hash := TxOf(at)]))
  }

  lemma ReachDelivered(s: State, w: WorkerId, hash: Hash)
    requires Reachable(s) && At(s, w).Secured? && At(s, w).id in s.rows && !Terminal(s.rows[At(s, w).id])
    requires hash !in s.chain.sent
    ensures Reachable(Delivered(s, w, hash))
  {
    var at := At(s, w);
    ReachStep(s, Broadcast(w, hash, true, None));
    var sent := s.(workers := s.workers[w := Sent(at.id, at.rec, at.wallet, at.nonce, hash)],
                   chain := s.chain.(sent := s.chain.sent[hash := TxOf(at)]));
    assert Apply(s, Broadcast(w, hash, true, None)) == sent;
    ReachStep(sent, RecordSubmitted(w, 0));
    assert sent.workers[w := Idle] == s.workers[w := Idle];
  }

  /** A submitted transaction mines as an out-of-gas revert and the cron fails its row. */
  function RevertRecorded(s: State, id: RowId): State
    requires id in s.rows && s.rows[id].hash.Some? && s.rows[id].hash.value in s.chain.sent
    requires s.rows[id].wallet.Some? && s.rows[id].nonce.Some?
  {
    var r := s.rows[id];
    s.(rows := s.rows[id := r.(status := Failed, retryCount := r.retryCount + 1, updatedAt := 0)],
       chain := MineTx(s.chain, r.hash.value, REVERT),
       log := s.log.(reverted := s.log.reverted[Commit(id, r.wallet.value, r.nonce.value) := r.hash.value]))
  }

  lemma ReachReceipt(s: State, id: RowId)
    requires Reachable(s) && s.cron == Cron(map[], Scanning) && id in s.rows && s.rows[id].status == Submitted
    requires s.rows[id].hash.Some? && s.rows[id].hash.value in s.chain.sent && s.rows[id].hash.value !in s.chain.mined
    ensures Reachable(s.(chain := MineTx(s.chain, s.rows[id].hash.value, REVERT), cron := Cron(map[], Refreshing(id, s.rows[id]))))
  {
    var r := s.rows[id];
    ReachStep(s, Mine(r.hash.value, REVERT));
    var mined := s.(chain := MineTx(s.chain, r.hash.value, REVERT));
    assert Apply(s, Mine(r.hash.value, REVERT)) == mined;
    ReachSelected(mined, id);
    var selected := mined.(cron := Cron(map[id := r], Scanning));
    ReachStep(selected, CronReceipt(id));
    assert selected.cron.snaps - {id} == map[];
    assert Apply(selected, CronReceipt(id)) == mined.(cron := Cron(map[], Refreshing(id, r)));
  }

  lemma ReachSelected(s: State, id: RowId)
    requires Reachable(s) && s.cron == Cron(map[], Scanning) && id in s.rows
    requires s.rows[id].status == Submitting || s.rows[id].status == Submitted
    ensures Reachable(s.(cron := Cron(map[id := s.rows[id]], Scanning)))
  {
    ReachStep(s, CronSelect({id}));
    assert Apply(s, CronSelect({id})) == s.(cron := Cron(map[id := s.rows[id]], Scanning));
  }

  lemma ReachReverted(s: State, id: RowId)
    requires Reachable(s) && s.cron == Cron(map[], Scanning) && id in s.rows && s.rows[id].status == Submitted
    requires s.rows[id].hash.Some? && s.rows[id].hash.value in s.chain.sent && s.rows[id].hash.value !in s.chain.mined
    requires s.rows[id].wallet.Some? && s.rows[id].nonce.Some? && s.rows[id].retryCount + 1 < s.rows[id].maxRetries
    ensures Reachable(RevertRecorded(s, id))
  {
    ReachReceipt(s, id);
    var r := s.rows[id];
    var refreshing := s.(chain := MineTx(s.chain, r.hash.value, REVERT), cron := Cron(map[], Refreshing(id, r)));
    ReachStep(refreshing, CronRefresh(0));
    assert Apply(refreshing, CronRefresh(0)) == RevertRecorded(s, id);
  }

  /** The cron gives up a reserved row whose budget its count exhausts: the unsent nonce is cleared. */
  function Buried(s: State, id: RowId): State
    requires id in s.rows
  {
    s.(rows := s.rows[id := s.rows[id].(status := DeadLetter, nonce := None, retryCount := s.rows[id].retryCount + 1, updatedAt := 0)])
  }

  lemma ReachBuried(s: State, id: RowId)
    requires Reachable(s) && s.cron == Cron(map[], Scanning) && id in s.rows
    requires s.rows[id].status == Submitting && s.rows[id].hash.None? && s.rows[id].wallet.Some? && s.rows[id].nonce.Some?
    requires s.rows[id].retryCount + 1 >= s.rows[id].maxRetries
    ensures Reachable(Buried(s, id))
  {
    ReachSelected(s, id);
    var selected := s.(cron := Cron(map[id := s.rows[id]], Scanning));
    ReachStep(selected, CronResubmit(id, 0));
    assert selected.cron.snaps - {id} == map[];
    var counted := s.(rows := s.rows[id := s.rows[id].(retryCount := s.rows[id].retryCount + 1, updatedAt := 0)],
                      cron := Cron(map[], Burying(id)));
    assert Apply(selected, CronResubmit(id, 0)) == counted;
    ReachStep(counted, CronBury(0));
    assert Apply(counted, CronBury(0)) == Buried(s, id);
  }

  /** The worker crashes, somebody else delivers the VAA, and the redelivery confirms the row. */
  function ConfirmedElsewhere(s: State, w: WorkerId, id: RowId): State
    requires id in s.rows
  {
    var r := s.rows[id];
    s.(rows := s.rows[id := r.(status := Confirmed, nonce := KeptNonce(r), updatedAt := 0)],
       workers := s.workers[w := Idle],
       chain := s.chain.(consumed := s.chain.consumed + {(r.dst, r.vaa)}))
  }

  lemma ReachFoundConsumed(s: State, w: WorkerId, id: RowId)
    requires Reachable(s) && At(s, w) == Idle && MessageUnlocked(s, id) && id in s.rows && s.rows[id].status == Submitting
    requires (s.rows[id].dst, s.rows[id].vaa) in s.chain.consumed
    ensures Reachable(s.(workers := s.workers[w := FoundConsumed(id)]))
  {
    var r := s.rows[id];
    ReachLoaded(s, w, id, r, ResubmitNonce(r, None));
    assert s.rows[id := r] == s.rows;
    var loaded := s.(workers := s.workers[w := Loaded(id, r, ResubmitNonce(r, None))]);
    ReachStep(loaded, Prepare(w, AlreadyConsumed));
    assert loaded.workers[w := FoundConsumed(id)] == s.workers[w := FoundConsumed(id)];
  }

  lemma ReachConsumed(s: State, w: WorkerId, dst: ChainId, vaa: VaaId)
    requires Reachable(s)
    ensures Reachable(s.(workers := s.workers[w := Idle], chain := s.chain.(consumed := s.chain.consumed + {(dst, vaa)})))
  {
    ReachStep(s, CrashWorker(w));
    ReachStep(Apply(s, CrashWorker(w)), ConsumeElsewhere(dst, vaa));
  }

  lemma ReachConfirmed(s: State, w: WorkerId, id: RowId)
    requires Reachable(s) && At(s, w) != Idle && At(s, w).id == id && id in s.rows && s.rows[id].status == Submitting
    ensures Reachable(ConfirmedElsewhere(s, w, id))
  {
    var r := s.rows[id];
    ReachableInv(s);
    DetachInv(s, w);
    ReachConsumed(s, w, r.dst, r.vaa);
    var gone := s.(workers := s.workers[w := Idle], chain := s.chain.(consumed := s.chain.consumed + {(r.dst, r.vaa)}));
    ReachFoundConsumed(gone, w, id);
    var found := gone.(workers := gone.workers[w := FoundConsumed(id)]);
    ReachStep(found, ConfirmConsumed(w, 0));
    assert found.workers[w := Idle] == s.workers[w := Idle];
    assert Apply(found, ConfirmConsumed(w, 0)) == ConfirmedElsewhere(s, w, id);
  }

  // ---- The concrete runs ----
  // Row 0 delivers VAA 2. Its first transaction, hash 7, carries nonce 0 and reverts out of gas.
  // Row 1 delivers VAA 4 and may be retried once.

  function Start(): State {
    State(map[], map[], Cron(map[], Scanning), Chain(map[], map[], {}, map[]), History({}, map[], map[]))
  }

  function First(): Row { NewRow(DST, 2, 5, 0) }

  function Second(): Row { NewRow(DST, 4, 1, 0) }

  function Reverted(): State { RevertRecorded(Delivered(Committed(Start(), 0, 0, First(), 0), 0, 7), 0) }

  lemma ReachFirst()
    ensures Reachable(Committed(Start(), 0, 0, First(), 0))
  {
    ReachSelf(Start());
    var rows := Start().rows[0 := First()];
    assert LiveNonces(rows, WALLET, DST) == {};
    DbNextUnique({}, 0);
    ReachReserved(Start(), 0, 0, First(), 0, 0);
  }

  lemma ReachFirstReverted()
    ensures Reachable(Reverted())
  {
    ReachFirst();
    var s := Committed(Start(), 0, 0, First(), 0);
    ReachDelivered(s, 0, 7);
    ReachReverted(Delivered(s, 0, 7), 0);
  }

  /** Row 0 retries: nobody is live, and the chain nonce is 1. */
  lemma ReachRetried(s: State)
    requires Reachable(s) && At(s, 0) == Idle && MessageUnlocked(s, 0) && 0 in s.rows && s.rows[0] == Reverted().rows[0]
    requires forall id | id in s.rows :: !Live(s.rows[id]) && !FailedOn(s.rows[id], WALLET, DST, 1)
    requires WalletUnlocked(s, WALLET, DST)
    ensures Reachable(Committed(s, 0, 0, s.rows[0], 1))
  {
    assert s.rows[0 := s.rows[0]] == s.rows;
    assert LiveNonces(s.rows, WALLET, DST) == {};
    DbNextUnique({}, 0);
    ReachReserved(s, 0, 0, s.rows[0], 1, 1);
  }

  /** Worker 1 reserves nonce 1 for row 1 and stays about to broadcast it. */
  function Rival(): State { Committed(Reverted(), 1, 1, Second(), 1) }

  lemma ReachRival()
    ensures Reachable(Rival())
  {
    ReachFirstReverted();
    var rows := Reverted().rows[1 := Second()];
    assert LiveNonces(rows, WALLET, DST) == {};
    DbNextUnique({}, 0);
    ReachReserved(Reverted(), 1, 1, Second(), 1, 1);
  }

  /** The cron gives row 1 up meanwhile, and row 0 reserves the nonce that this released. */
  function Doubled(): State { Committed(Buried(Rival(), 1), 0, 0, Reverted().rows[0], 1) }

  lemma ReachRivalBuried()
    ensures Reachable(Buried(Rival(), 1))
  {
    ReachRival();
    ReachBuried(Rival(), 1);
  }

  lemma RivalBuriedFacts()
    ensures var s := Buried(Rival(), 1);
      && At(s, 0) == Idle && MessageUnlocked(s, 0) && WalletUnlocked(s, WALLET, DST)
      && 0 in s.rows && s.rows[0] == Reverted().rows[0]
      && forall id | id in s.rows :: !Live(s.rows[id]) && !FailedOn(s.rows[id], WALLET, DST, 1)
  {
  }

  lemma ReachDoubled()
    ensures Reachable(Doubled())
  {
    ReachRivalBuried();
    RivalBuriedFacts();
    ReachRetried(Buried(Rival(), 1));
  }

  // ---- A nonce nobody will ever send ----

  predicate Carries(tx: Tx, wallet: Wallet, chain: ChainId, nonce: nat) {
    tx.wallet == wallet && tx.dst == chain && tx.nonce == nonce
  }

  ghost predicate Unsent(s: State, wallet: Wallet, chain: ChainId, nonce: nat) {
    forall h | h in s.chain.sent :: !Carries(s.chain.sent[h], wallet, chain, nonce)
  }

  /** Row `id` itself has put the nonce on the wire. */
  ghost predicate RowSent(s: State, id: RowId, wallet: Wallet, chain: ChainId, nonce: nat) {
    exists h :: h in s.chain.sent && s.chain.sent[h].id == id && Carries(s.chain.sent[h], wallet, chain, nonce)
  }

  /** A confirmed row counted live on a nonce that no transaction carries. */
  ghost predicate ConfirmedUnsent(s: State, id: RowId, wallet: Wallet, chain: ChainId, nonce: nat) {
    && id in s.rows && s.rows[id].status == Confirmed && HoldsPair(s.rows[id], wallet, nonce) && s.rows[id].dst == chain
    && Unsent(s, wallet, chain, nonce)
  }

  /**
    A row can end up confirmed while holding a live nonce that no transaction carries: clearing on
    termination looks at relay_tx_hash, and the hash of the reverted first attempt is still there.
   */
  lemma ConfirmedMayHoldUnsentNonce()
    ensures exists s, id, wallet, chain, nonce :: Reachable(s) && ConfirmedUnsent(s, id, wallet, chain, nonce)
  {
    ReachFirstReverted();
    ReachRetried(Reverted());
    var s := Committed(Reverted(), 0, 0, Reverted().rows[0], 1);
    ReachConfirmed(s, 0, 0);
    assert ConfirmedUnsent(ConfirmedElsewhere(s, 0, 0), 0, WALLET, DST, 1);
  }

  /**
    Exactly when: confirming a reachable row leaves it live on a nonce that no transaction carries if
    and only if the row is `submitting` on an unsent nonce and its relay_tx_hash is set.
   */
  lemma ConfirmLeavesUnsentNonceIff(s: State, id: RowId, now: int)
    requires Reachable(s) && id in s.rows && !Terminal(s.rows[id]) && Holder(s.rows[id])
    ensures var r, r' := s.rows[id], MarkConfirmed(s.rows[id], now).value;
      (Live(r') && Unsent(s, r'.wallet.value, r'.dst, r'.nonce.value))
        <==> (r.hash.Some? && r.status == Submitting && Unsent(s, r.wallet.value, r.dst, r.nonce.value))
  {
    ReachableInv(s);
    assert RowOk(s.chain, s.log, id, s.rows[id]);
    var r := s.rows[id];
    if r.hash.Some? && r.status != Submitting {
      assert Carries(s.chain.sent[r.hash.value], r.wallet.value, r.dst, r.nonce.value);
    }
  }

  /** Nobody has the pair in hand. */
  predicate NotInHand(at: WorkerAt, wallet: Wallet, chain: ChainId, nonce: nat) {
    match at
    case Loaded(_, rec, resubmit) => !(resubmit == Some(nonce) && rec.wallet == Some(wallet) && rec.dst == chain)
    case Ready(_, rec, resubmit) => !(resubmit == Some(nonce) && rec.wallet == Some(wallet) && rec.dst == chain)
    case Reserving(_, rec, u, n) => !(n == nonce && u == wallet && rec.dst == chain)
    case Secured(_, rec, u, n) => !(n == nonce && u == wallet && rec.dst == chain)
    case _ => true
  }

  ghost predicate NobodyHolds(workers: map<WorkerId, WorkerAt>, wallet: Wallet, chain: ChainId, nonce: nat) {
    forall w | w in workers :: NotInHand(workers[w], wallet, chain, nonce)
  }

  ghost predicate Stranded(s: State, id: RowId, wallet: Wallet, chain: ChainId, nonce: nat) {
    ConfirmedUnsent(s, id, wallet, chain, nonce) && NobodyHolds(s.workers, wallet, chain, nonce)
  }

  /** Only these steps give a worker a pair or put one on the wire. */
  lemma StrandedBegin(s: State, w: WorkerId, id: RowId, row: Row, replace: Option<nat>, c: RowId, wallet: Wallet, chain: ChainId, nonce: nat)
    requires Inv(s) && Stranded(s, c, wallet, chain, nonce) && At(s, w) == Idle
    requires row.status == Pending && row.nonce.None?
    ensures Stranded(ApplyBegin(s, w, id, row, replace), c, wallet, chain, nonce)
  {
    if id in s.rows && id != c {
      assert RowOk(s.chain, s.log, id, s.rows[id]);
      assert Apart(s.rows[id], s.rows[c]);
    }
  }

  lemma StrandedReserveRead(s: State, w: WorkerId, u: Wallet, snapshot: nat, c: RowId, wallet: Wallet, chain: ChainId, nonce: nat)
    requires Inv(s) && Stranded(s, c, wallet, chain, nonce) && Enabled(s, ReserveRead(w, u, snapshot))
    ensures Stranded(Apply(s, ReserveRead(w, u, snapshot)), c, wallet, chain, nonce)
  {
    ReservedUnheld(s.rows, u, At(s, w).rec.dst, snapshot);
  }

  lemma StepKeepsStranded(s: State, step: Step, c: RowId, wallet: Wallet, chain: ChainId, nonce: nat)
    requires Inv(s) && Enabled(s, step) && Stranded(s, c, wallet, chain, nonce)
    ensures Stranded(Apply(s, step), c, wallet, chain, nonce)
  {
    match step {
      case Begin(w, id, dst, vaa, maxRetries, replace, now) =>
        StrandedBegin(s, w, id, NewRow(dst, vaa, maxRetries, now), replace, c, wallet, chain, nonce);
      case ReserveRead(w, u, snapshot) => StrandedReserveRead(s, w, u, snapshot, c, wallet, chain, nonce);
      case _ => StrandedOtherwise(s, step, c, wallet, chain, nonce);
    }
  }

  /** A worker's next point: no step but Begin and ReserveRead puts a new pair in its hand. */
  lemma NextPoint(s: State, step: Step, w: WorkerId, wallet: Wallet, chain: ChainId, nonce: nat)
    requires Enabled(s, step) && !step.Begin? && !step.ReserveRead?
    requires NotInHand(At(s, w), wallet, chain, nonce)
    ensures NotInHand(At(Apply(s, step), w), wallet, chain, nonce)
  {
    if WorkerStep(step) {
      if step.w == w {
        OwnPoint(s, step, wallet, chain, nonce);
      } else {
        OtherPoint(s, step, w);
      }
    } else {
      EnvironmentKeepsPoints(s, step);
    }
  }

  lemma OwnPoint(s: State, step: Step, wallet: Wallet, chain: ChainId, nonce: nat)
    requires Enabled(s, step) && WorkerStep(step) && !step.Begin? && !step.ReserveRead?
    requires NotInHand(At(s, step.w), wallet, chain, nonce)
    ensures NotInHand(At(Apply(s, step), step.w), wallet, chain, nonce)
  {
  }

  lemma NextWire(s: State, step: Step, wallet: Wallet, chain: ChainId, nonce: nat)
    requires Enabled(s, step) && Unsent(s, wallet, chain, nonce)
    requires step.Broadcast? ==> NotInHand(At(s, step.w), wallet, chain, nonce)
    ensures Unsent(Apply(s, step), wallet, chain, nonce)
  {
  }

  lemma StrandedOtherwise(s: State, step: Step, c: RowId, wallet: Wallet, chain: ChainId, nonce: nat)
    requires Enabled(s, step) && Stranded(s, c, wallet, chain, nonce)
    requires !step.Begin? && !step.ReserveRead?
    ensures Stranded(Apply(s, step), c, wallet, chain, nonce)
  {
    var s' := Apply(s, step);
    StepAdvances(s, step);
    NextWire(s, step, wallet, chain, nonce);
    forall w | w in s'.workers
      ensures NotInHand(s'.workers[w], wallet, chain, nonce)
    {
      NextPoint(s, step, w, wallet, chain, nonce);
    }
  }

  lemma {:induction false} StrandedAlong(states: seq<State>, steps: seq<Step>, s: State, t: State, i: nat,
                                         id: RowId, wallet: Wallet, chain: ChainId, nonce: nat)
    requires Path(states, steps, s, t) && i < |states| && Inv(s) && Stranded(s, id, wallet, chain, nonce)
    ensures Stranded(states[i], id, wallet, chain, nonce)
  {
    if i > 0 {
      StrandedAlong(states, steps, s, t, i - 1, id, wallet, chain, nonce);
      PathInv(states, steps, s, t, i - 1);
      assert StepAt(states, steps, i - 1);
      StepKeepsStranded(states[i - 1], steps[i - 1], id, wallet, chain, nonce);
    }
  }

  /** With nobody holding the pair, no continuation ever sends the nonce: the gap is permanent. */
  lemma StrandedForever(s: State, t: State, id: RowId, wallet: Wallet, chain: ChainId, nonce: nat)
    requires Reachable(s) && CanReach(s, t) && Stranded(s, id, wallet, chain, nonce)
    ensures Stranded(t, id, wallet, chain, nonce)
  {
    ReachableInv(s);
    var states, steps :| Path(states, steps, s, t);
    StrandedAlong(states, steps, s, t, |steps|, id, wallet, chain, nonce);
  }

  // ---- Who can still send it ----

  lemma UnusedHash(sent: map<Hash, Tx>) returns (h: Hash)
    ensures h !in sent
  {
    h := DbNext(sent.Keys);
  }

  lemma SecuredCanSend(s: State, t: State, w: WorkerId, wallet: Wallet, chain: ChainId, nonce: nat) returns (u: State)
    requires CanReach(s, t) && At(t, w).Secured? && !NotInHand(At(t, w), wallet, chain, nonce)
    ensures CanReach(s, u) && !Unsent(u, wallet, chain, nonce)
    ensures u.rows == t.rows && RowSent(u, At(t, w).id, wallet, chain, nonce)
  {
    var h := UnusedHash(t.chain.sent);
    var step := Broadcast(w, h, true, None);
    ExtendPath(s, t, step);
    u := Apply(t, step);
    assert h in u.chain.sent && Carries(u.chain.sent[h], wallet, chain, nonce);
  }

  lemma ReadyCanSend(s: State, t: State, w: WorkerId, wallet: Wallet, chain: ChainId, nonce: nat) returns (u: State)
    requires CanReach(s, t) && At(t, w).Ready? && !NotInHand(At(t, w), wallet, chain, nonce)
    ensures CanReach(s, u) && !Unsent(u, wallet, chain, nonce)
    ensures u.rows == t.rows && RowSent(u, At(t, w).id, wallet, chain, nonce)
  {
    ExtendPath(s, t, ReuseNonce(w, true));
    u := SecuredCanSend(s, Apply(t, ReuseNonce(w, true)), w, wallet, chain, nonce);
  }

  lemma LoadedCanSend(s: State, t: State, w: WorkerId, wallet: Wallet, chain: ChainId, nonce: nat) returns (u: State)
    requires CanReach(s, t) && At(t, w).Loaded? && !NotInHand(At(t, w), wallet, chain, nonce)
    ensures CanReach(s, u) && !Unsent(u, wallet, chain, nonce)
    ensures u.rows == t.rows && RowSent(u, At(t, w).id, wallet, chain, nonce)
  {
    ExtendPath(s, t, Prepare(w, PreparedReady));
    u := ReadyCanSend(s, Apply(t, Prepare(w, PreparedReady)), w, wallet, chain, nonce);
  }

  /** A worker that has the pair in hand can send it, whatever became of its row. */
  lemma HolderCanSend(s: State, id: RowId, w: WorkerId, wallet: Wallet, chain: ChainId, nonce: nat) returns (u: State)
    requires Inv(s) && ConfirmedUnsent(s, id, wallet, chain, nonce)
    requires w in s.workers && !NotInHand(s.workers[w], wallet, chain, nonce)
    ensures CanReach(s, u) && !Unsent(u, wallet, chain, nonce)
  {
    ReachSelf(s);
    assert RowOk(s.chain, s.log, id, s.rows[id]);
    if At(s, w).Secured? {
      u := SecuredCanSend(s, s, w, wallet, chain, nonce);
    } else if At(s, w).Ready? {
      u := ReadyCanSend(s, s, w, wallet, chain, nonce);
    } else {
      assert !At(s, w).Reserving?;
      u := LoadedCanSend(s, s, w, wallet, chain, nonce);
    }
  }

  /** The nonce of a confirmed row is sent in no continuation if and only if no worker has the pair in hand. */
  lemma NeverSentIff(s: State, id: RowId, wallet: Wallet, chain: ChainId, nonce: nat)
    requires Reachable(s) && ConfirmedUnsent(s, id, wallet, chain, nonce)
    ensures (forall t | CanReach(s, t) :: Unsent(t, wallet, chain, nonce)) <==> NobodyHolds(s.workers, wallet, chain, nonce)
  {
    ReachableInv(s);
    if NobodyHolds(s.workers, wallet, chain, nonce) {
      forall t | CanReach(s, t)
        ensures Unsent(t, wallet, chain, nonce)
      {
        StrandedForever(s, t, id, wallet, chain, nonce);
      }
    } else {
      var w :| w in s.workers && !NotInHand(s.workers[w], wallet, chain, nonce);
      var u := HolderCanSend(s, id, w, wallet, chain, nonce);
    }
  }

  lemma ConfirmKeepsHands(s: State, step: Step, wallet: Wallet, chain: ChainId, nonce: nat)
    requires Enabled(s, step) && (step.ConfirmConsumed? || step.CronConfirm?)
    ensures NobodyHolds(Apply(s, step).workers, wallet, chain, nonce) <==> NobodyHolds(s.workers, wallet, chain, nonce)
    ensures Apply(s, step).chain == s.chain
    ensures TargetRow(s, step) in s.rows
      && Apply(s, step).rows == Store(s.rows, TargetRow(s, step), MarkConfirmed(s.rows[TargetRow(s, step)], step.now))
  {
    var t := Apply(s, step);
    if step.ConfirmConsumed? {
      assert forall w | w in s.workers && w != step.w :: t.workers[w] == s.workers[w];
      assert forall w | w in t.workers && w != step.w :: w in s.workers;
      assert step.w in s.workers && t.workers[step.w] == Idle;
    }
  }

  /**
    The whole answer: a confirmation, by a worker or by the cron, leaves the row counted live on a nonce
    that no continuation ever sends if and only if the row is `submitting` on an unsent nonce with an
    older relay_tx_hash, and no worker has that pair in hand.
   */
  lemma ConfirmStrandsIff(s: State, step: Step)
    requires Reachable(s) && Enabled(s, step) && (step.ConfirmConsumed? || step.CronConfirm?)
    requires TargetRow(s, step) in s.rows && !Terminal(s.rows[TargetRow(s, step)]) && Holder(s.rows[TargetRow(s, step)])
    ensures var t, id := Apply(s, step), TargetRow(s, step);
      var r := s.rows[id];
      var wallet, nonce := r.wallet.value, r.nonce.value;
      && id in t.rows
      && ((Live(t.rows[id]) && forall u | CanReach(t, u) :: Unsent(u, wallet, r.dst, nonce)) <==>
          (&& r.hash.Some? && r.status == Submitting && Unsent(s, wallet, r.dst, nonce)
           && NobodyHolds(s.workers, wallet, r.dst, nonce)))
  {
    var t, id := Apply(s, step), TargetRow(s, step);
    var r := s.rows[id];
    var wallet, nonce := r.wallet.value, r.nonce.value;
    ReachStep(s, step);
    ConfirmKeepsHands(s, step, wallet, r.dst, nonce);
    ConfirmLeavesUnsentNonceIff(s, id, step.now);
    ReachSelf(t);
    if Live(t.rows[id]) && Unsent(s, wallet, r.dst, nonce) {
      assert ConfirmedUnsent(t, id, wallet, r.dst, nonce);
      NeverSentIff(t, id, wallet, r.dst, nonce);
    }
  }

  /** A run that strands a nonce for good. */
  lemma ConcreteRunStrands()
    ensures exists s, id, wallet, chain, nonce :: Reachable(s) && Stranded(s, id, wallet, chain, nonce)
  {
    ReachFirstReverted();
    ReachRetried(Reverted());
    var s := Committed(Reverted(), 0, 0, Reverted().rows[0], 1);
    ReachConfirmed(s, 0, 0);
    assert Stranded(ConfirmedElsewhere(s, 0, 0), 0, WALLET, DST, 1);
  }

  /** Both workers are about to broadcast nonce 1, and only transaction 7 is on the wire. */
  lemma DoubledFacts()
    ensures var s := Doubled();
      && 0 in s.rows && s.rows[0].status == Submitting && s.rows[0].hash.Some? && HoldsPair(s.rows[0], WALLET, 1) && s.rows[0].dst == DST
      && s.workers == map[0 := s.workers[0], 1 := s.workers[1]]
      && s.workers[0].Secured? && s.workers[0].id == 0 && !NotInHand(s.workers[0], WALLET, DST, 1)
      && s.workers[1].Secured? && s.workers[1].id == 1 && !NotInHand(s.workers[1], WALLET, DST, 1)
      && s.chain.sent == map[7 := s.chain.sent[7]] && s.chain.sent[7].nonce == 0
  {
  }

  lemma DoubledConfirmed()
    ensures var s := ConfirmedElsewhere(Doubled(), 0, 0);
      && Reachable(s) && ConfirmedUnsent(s, 0, WALLET, DST, 1)
      && 1 in s.workers && !NotInHand(s.workers[1], WALLET, DST, 1)
  {
    ReachDoubled();
    DoubledFacts();
    ReachConfirmed(Doubled(), 0, 0);
  }

  /** And one whose confirmed, unsent nonce is sent later, by the worker of a row the cron gave up. */
  lemma ConfirmedNonceMayBeSentLater()
    ensures exists s, id, wallet, chain, nonce, t ::
      Reachable(s) && ConfirmedUnsent(s, id, wallet, chain, nonce) && CanReach(s, t) && !Unsent(t, wallet, chain, nonce)
  {
    DoubledConfirmed();
    var s := ConfirmedElsewhere(Doubled(), 0, 0);
    ReachableInv(s);
    var t := HolderCanSend(s, 0, 1, WALLET, DST, 1);
  }

  lemma BroadcastAdds(s: State, w: WorkerId, hash: Hash)
    requires Reachable(s) && At(s, w).Secured? && hash !in s.chain.sent
    ensures Enabled(s, Broadcast(w, hash, true, None))
    ensures var t := Apply(s, Broadcast(w, hash, true, None));
      && Reachable(t) && t.chain.sent == s.chain.sent[hash := TxOf(At(s, w))]
      && forall v | v != w :: At(t, v) == At(s, v)
  {
    ReachStep(s, Broadcast(w, hash, true, None));
  }

  /** Two transactions of different rows on one nonce. */
  predicate SharedNonce(sent: map<Hash, Tx>, g: Hash, h: Hash) {
    && g in sent && h in sent && sent[g].id != sent[h].id
    && Carries(sent[g], sent[h].wallet, sent[h].dst, sent[h].nonce)
  }

  /** One nonce can go out for two rows: the cron releases a nonce that a worker is about to broadcast. */
  lemma TwoRowsMayShareWireNonce()
    ensures exists s, g, h :: Reachable(s) && SharedNonce(s.chain.sent, g, h)
  {
    ReachDoubled();
    DoubledFacts();
    BroadcastAdds(Doubled(), 1, 8);
    var s := Apply(Doubled(), Broadcast(1, 8, true, None));
    BroadcastAdds(s, 0, 9);
    var t := Apply(s, Broadcast(0, 9, true, None));
    assert SharedNonce(t.chain.sent, 8, 9);
  }

  // ---- The snapshot hypothesis ----

  /** A reachable state and an older chain nonce from which the allocator hands out a nonce a failed row holds. */
  ghost predicate Collides(s: State, wallet: Wallet, chain: ChainId, snapshot: nat) {
    && snapshot < ChainNonce(s.chain, wallet, chain)
    && !NonceUnheld(s.rows, wallet, chain, ReserveNonce(LiveNonces(s.rows, wallet, chain), snapshot))
  }

  /** First family: the snapshot itself is the nonce of a failed row. */
  lemma StaleSnapshotCollides()
    ensures exists s, wallet, chain, snapshot: nat ::
      Reachable(s) && Collides(s, wallet, chain, snapshot) && snapshot !in LiveNonces(s.rows, wallet, chain)
  {
    ReachFirstReverted();
    var s := Reverted();
    assert LiveNonces(s.rows, WALLET, DST) == {};
    DbNextUnique({}, 0);
    assert FailedOn(s.rows[0], WALLET, DST, 0);
    SnapshotSafeIff(s.rows, WALLET, DST, 0);
    assert Collides(s, WALLET, DST, 0);
  }

  // Row 1's transaction, hash 8, carries nonce 1 and succeeds; row 0's retry, hash 9, carries nonce 2
  // and reverts. Nonce 1 is live, and the nonce after it is the failed row's.

  function RivalDelivered(): State {
    var s := Delivered(Rival(), 1, 8);
    s.(chain := MineTx(s.chain, 8, SUCCESS))
  }

  function BothMined(): State {
    RevertRecorded(Delivered(Committed(RivalDelivered(), 0, 0, Reverted().rows[0], 2), 0, 9), 0)
  }

  lemma ReachBothMined()
    ensures Reachable(BothMined())
  {
    ReachRetryBehindRival();
    var t := Committed(RivalDelivered(), 0, 0, Reverted().rows[0], 2);
    ReachDelivered(t, 0, 9);
    ReachReverted(Delivered(t, 0, 9), 0);
  }

  lemma ReachRivalDelivered()
    ensures Reachable(RivalDelivered())
  {
    ReachRival();
    ReachDelivered(Rival(), 1, 8);
    ReachStep(Delivered(Rival(), 1, 8), Mine(8, SUCCESS));
  }

  lemma ReachRetryBehindRival()
    ensures Reachable(Committed(RivalDelivered(), 0, 0, Reverted().rows[0], 2))
  {
    ReachRivalDelivered();
    RivalDeliveredFacts();
    var s := RivalDelivered();
    assert s.rows[0 := s.rows[0]] == s.rows;
    DbNextUnique({1}, 2);
    ReachReserved(s, 0, 0, Reverted().rows[0], 2, 2);
  }

  lemma RivalDeliveredFacts()
    ensures var s := RivalDelivered();
      && At(s, 0) == Idle && MessageUnlocked(s, 0) && WalletUnlocked(s, WALLET, DST)
      && 0 in s.rows && s.rows[0] == Reverted().rows[0] && s.rows[0].status == Failed && s.rows[0].dst == DST
      && LiveNonces(s.rows, WALLET, DST) == {1} && SafeSnapshot(s.rows, WALLET, DST, 2)
  {
    LiveIsOne(RivalDelivered().rows, 1);
  }

  lemma LiveIsOne(rows: map<RowId, Row>, n: nat)
    requires 0 in rows && 1 in rows && rows.Keys == {0, 1} && !Live(rows[0])
    requires Live(rows[1]) && rows[1].wallet == Some(WALLET) && rows[1].dst == DST && rows[1].nonce == Some(n)
    ensures LiveNonces(rows, WALLET, DST) == {n}
  {
  }

  /** Second family: the snapshot is live, and the nonce after the highest live one is a failed row's. */
  lemma LiveSnapshotCollides()
    ensures exists s, wallet, chain, snapshot: nat ::
      Reachable(s) && Collides(s, wallet, chain, snapshot) && snapshot in LiveNonces(s.rows, wallet, chain)
  {
    ReachBothMined();
    var s := BothMined();
    LiveIsOne(s.rows, 1);
    DbNextUnique({1}, 2);
    assert FailedOn(s.rows[0], WALLET, DST, 2);
    SnapshotSafeIff(s.rows, WALLET, DST, 1);
    assert Collides(s, WALLET, DST, 1);
  }
}
