/** The inductive invariant of the delivery protocol and its preservation by every step. */
module ProtocolInvariant {
  import opened Basics
  import opened Rows
  import opened WalletPool
  import opened Protocol

  // ---- The invariant ----

  /** The hash recorded on a row names a delivery of that row's own VAA. */
  predicate NamesOwnDelivery(chain: Chain, id: RowId, r: Row, h: Hash) {
    h in chain.sent && chain.sent[h].id == id && chain.sent[h].dst == r.dst && chain.sent[h].vaa == r.vaa
  }

  /** One row: its shape, what its hash names, what its status and its pair are evidence of. */
  predicate RowOk(chain: Chain, log: History, id: RowId, r: Row) {
    && Shape(r)
    && (r.hash.Some? ==> NamesOwnDelivery(chain, id, r, r.hash.value))
    && (r.hash.Some? && (r.status == Submitted || r.status == Failed) ==>
          HoldsPair(r, chain.sent[r.hash.value].wallet, chain.sent[r.hash.value].nonce))
    && (r.status == Confirmed ==> (r.dst, r.vaa) in chain.consumed)
    && (Holder(r) ==> Commit(id, r.wallet.value, r.nonce.value) in log.committed)
    && (Holder(r) && r.status == Failed ==> Commit(id, r.wallet.value, r.nonce.value) in log.reverted)
    && Reservations(log, id) <= r.retryCount + (if r.status == Pending || r.status == Failed then 0 else 1)
  }

  ghost predicate RowsOk(rows: map<RowId, Row>, chain: Chain, log: History) {
    && (forall id | id in rows :: RowOk(chain, log, id, rows[id]))
    && log.reservations.Keys <= rows.Keys
  }

  /** Nobody has moved the row off the pair its lock holder is working with. */
  predicate Keeps(r: Row, wallet: Wallet, nonce: nat) {
    Terminal(r) || (HoldsPair(r, wallet, nonce) && r.status != Pending)
  }

  /** No nonce is committed for the current attempt. */
  predicate Uncommitted(r: Row) {
    Terminal(r) || r.status == Pending || r.status == Failed
  }

  predicate ResubmitOk(log: History, id: RowId, r: Row, rec: Row, resubmit: Option<nat>) {
    if resubmit.Some? then
      && rec.wallet.Some? && Keeps(r, rec.wallet.value, resubmit.value)
      && Commit(id, rec.wallet.value, resubmit.value) in log.committed
    else Uncommitted(r)
  }

  /** A worker's point against the row it holds the message lock of. */
  predicate PointOk(at: WorkerAt, r: Row, chain: Chain, log: History) {
    match at
    case Idle => true
    case Loaded(id, rec, resubmit) => SameEvent(rec, r) && ResubmitOk(log, id, r, rec, resubmit)
    case Ready(id, rec, resubmit) => SameEvent(rec, r) && ResubmitOk(log, id, r, rec, resubmit)
    case FoundConsumed(_) => (r.dst, r.vaa) in chain.consumed
    case Reserving(_, rec, _, _) => SameEvent(rec, r) && Uncommitted(r)
    case Secured(id, rec, wallet, nonce) =>
      SameEvent(rec, r) && Keeps(r, wallet, nonce) && Commit(id, wallet, nonce) in log.committed
    case Sent(id, rec, wallet, nonce, hash) =>
      && SameEvent(rec, r) && Keeps(r, wallet, nonce) && Commit(id, wallet, nonce) in log.committed
      && hash in chain.sent && chain.sent[hash] == Tx(id, wallet, r.dst, nonce, r.vaa)
    case Failing(_, committed, _) => if committed then r.status != Pending else r.status != Submitted
    case Dying(_) => true
  }

  ghost predicate NonceUnheld(rows: map<RowId, Row>, wallet: Wallet, chain: ChainId, nonce: nat) {
    forall id | id in rows && Holder(rows[id]) && rows[id].wallet.value == wallet && rows[id].dst == chain ::
      rows[id].nonce.value != nonce
  }

  ghost predicate WorkersOk(workers: map<WorkerId, WorkerAt>, rows: map<RowId, Row>, chain: Chain, log: History) {
    forall w | w in workers && workers[w] != Idle ::
      && workers[w].id in rows
      && PointOk(workers[w], rows[workers[w].id], chain, log)
      && (workers[w].Reserving? ==> NonceUnheld(rows, workers[w].wallet, workers[w].rec.dst, workers[w].nonce))
  }

  predicate Excludes(a: WorkerAt, b: WorkerAt) {
    a != Idle && b != Idle ==>
      && a.id != b.id
      && (a.Reserving? && b.Reserving? ==> a.wallet != b.wallet || a.rec.dst != b.rec.dst)
  }

  /** Message locks and wallet locks are mutually exclusive. */
  ghost predicate LocksExclusive(workers: map<WorkerId, WorkerAt>) {
    forall v, w {:trigger Excludes(workers[v], workers[w])} | v in workers && w in workers && v != w ::
      Excludes(workers[v], workers[w])
  }

  /** A snapshot the cron acts on still describes the row, unless the row has become terminal. */
  predicate SnapOk(id: RowId, rec: Row, r: Row, chain: Chain) {
    && (rec.status == Submitting || rec.status == Submitted)
    && Shape(rec) && SameEvent(rec, r)
    && (rec.status == Submitted ==>
          && rec.hash.value in chain.sent
          && chain.sent[rec.hash.value] == Tx(id, rec.wallet.value, r.dst, rec.nonce.value, r.vaa))
    && (|| Terminal(r)
        || (&& HoldsPair(r, rec.wallet.value, rec.nonce.value)
            && (r.status == Submitted || (r.status == Submitting && rec.status == Submitting))))
  }

  predicate CronPointOk(at: CronAt, rows: map<RowId, Row>, chain: Chain) {
    match at
    case Scanning => true
    case Confirming(id) => id in rows && (rows[id].dst, rows[id].vaa) in chain.consumed
    case Refreshing(id, rec) =>
      && id in rows && SnapOk(id, rec, rows[id], chain) && rec.status == Submitted
      && rec.hash.value in chain.mined && !chain.mined[rec.hash.value].success
    case Burying(id) => id in rows
  }

  ghost predicate CronOk(cron: Cron, rows: map<RowId, Row>, chain: Chain) {
    && (forall id | id in cron.snaps :: id in rows && SnapOk(id, cron.snaps[id], rows[id], chain))
    && CronPointOk(cron.at, rows, chain)
    && (cron.at.Refreshing? ==> cron.at.id !in cron.snaps)
  }

  predicate Apart(a: Row, b: Row) {
    Holder(a) && Holder(b) && a.wallet == b.wallet && a.dst == b.dst ==> a.nonce != b.nonce
  }

  ghost predicate NoncesUnique(rows: map<RowId, Row>) {
    forall a, b {:trigger Apart(rows[a], rows[b])} | a in rows && b in rows && a != b :: Apart(rows[a], rows[b])
  }

  /** Every transaction on the wire was committed first, for the row and VAA it delivers. */
  ghost predicate SentOk(rows: map<RowId, Row>, chain: Chain, log: History) {
    forall h | h in chain.sent ::
      && chain.sent[h].id in rows
      && rows[chain.sent[h].id].dst == chain.sent[h].dst && rows[chain.sent[h].id].vaa == chain.sent[h].vaa
      && Commit(chain.sent[h].id, chain.sent[h].wallet, chain.sent[h].nonce) in log.committed
  }

  ghost predicate MinedOk(chain: Chain) {
    forall h | h in chain.mined ::
      && h in chain.sent
      && (chain.mined[h].success ==> (chain.sent[h].dst, chain.sent[h].vaa) in chain.consumed)
      && chain.sent[h].nonce < ChainNonce(chain, chain.sent[h].wallet, chain.sent[h].dst)
  }

  /** A committed pair stays with its row until termination or a recorded mined revert. */
  ghost predicate CommittedOk(rows: map<RowId, Row>, log: History) {
    forall c | c in log.committed ::
      && c.id in rows
      && (Terminal(rows[c.id]) || HoldsPair(rows[c.id], c.wallet, c.nonce) || c in log.reverted)
  }

  ghost predicate RevertedOk(rows: map<RowId, Row>, chain: Chain, log: History) {
    forall c | c in log.reverted ::
      && c.id in rows
      && log.reverted[c] in chain.mined && !chain.mined[log.reverted[c]].success
      && log.reverted[c] in chain.sent
      && chain.sent[log.reverted[c]] == Tx(c.id, c.wallet, rows[c.id].dst, c.nonce, rows[c.id].vaa)
  }

  ghost predicate Inv(s: State) {
    && RowsOk(s.rows, s.chain, s.log)
    && WorkersOk(s.workers, s.rows, s.chain, s.log)
    && LocksExclusive(s.workers)
    && CronOk(s.cron, s.rows, s.chain)
    && NoncesUnique(s.rows)
    && SentOk(s.rows, s.chain, s.log)
    && MinedOk(s.chain)
    && CommittedOk(s.rows, s.log)
    && RevertedOk(s.rows, s.chain, s.log)
  }

  // ---- Preservation, by what a step changes ----

  lemma InitInv(s: State)
    requires Init(s)
    ensures Inv(s)
  {
  }

  ghost predicate MayGoto(s: State, w: WorkerId, at: WorkerAt) {
    at != Idle ==>
      && at.id in s.rows
      && PointOk(at, s.rows[at.id], s.chain, s.log)
      && (if At(s, w) != Idle then at.id == At(s, w).id else MessageUnlocked(s, at.id))
      && (at.Reserving? ==> NonceUnheld(s.rows, at.wallet, at.rec.dst, at.nonce) && WalletUnlocked(s, at.wallet, at.rec.dst))
  }

  /** A worker moves to another point; nothing shared changes. */
  lemma GotoInv(s: State, w: WorkerId, at: WorkerAt)
    requires Inv(s)
    requires MayGoto(s, w, at)
    ensures Inv(Goto(s, w, at))
  {
    var workers := s.workers[w := at];
    forall u, v | u in workers && v in workers && u != v
      ensures Excludes(workers[u], workers[v])
    {
      assert u in s.workers && v in s.workers ==> Excludes(s.workers[u], s.workers[v]);
    }
  }

  /** The lock holder steps aside: its message and wallet locks are free. */
  lemma DetachInv(s: State, w: WorkerId)
    requires Inv(s)
    ensures Inv(Goto(s, w, Idle))
    ensures At(s, w) != Idle ==> MessageUnlocked(Goto(s, w, Idle), At(s, w).id)
    ensures At(s, w).Reserving? ==> WalletUnlocked(Goto(s, w, Idle), At(s, w).wallet, At(s, w).rec.dst)
  {
    GotoInv(s, w, Idle);
    forall v | v in s.workers && v != w && w in s.workers
      ensures Excludes(s.workers[v], s.workers[w])
    {
    }
  }

  /** Changes of one row that every other party tolerates. */
  ghost predicate RowStep(s: State, id: RowId, r': Row) {
    && id in s.rows
    && var r := s.rows[id];
    && !Terminal(r) && SameEvent(r, r') && RowOk(s.chain, s.log, id, r')
    && (Terminal(r') || (r'.wallet == r.wallet && r'.nonce == r.nonce))
    && (Holder(r') ==> Holder(r) && r'.wallet == r.wallet && r'.nonce == r.nonce)
    && (|| Terminal(r') || r'.status == r.status
        || (r.status == Submitted && r'.status == Failed)
        || MessageUnlocked(s, id))
    && (|| Terminal(r') || r'.status == r.status || r'.status == Submitted
        || r.status == Pending || r.status == Failed
        || (id !in s.cron.snaps && s.cron.at == Scanning))
    && (r'.status == Pending ==> r.status == Pending)
  }

  lemma RowStepWorkers(s: State, id: RowId, r': Row)
    requires WorkersOk(s.workers, s.rows, s.chain, s.log) && RowStep(s, id, r')
    ensures WorkersOk(s.workers, s.rows[id := r'], s.chain, s.log)
  {
  }

  lemma RowStepCron(s: State, id: RowId, r': Row)
    requires CronOk(s.cron, s.rows, s.chain) && RowStep(s, id, r')
    ensures CronOk(s.cron, s.rows[id := r'], s.chain)
  {
    var rows := s.rows[id := r'];
    forall j | j in s.cron.snaps
      ensures j in rows && SnapOk(j, s.cron.snaps[j], rows[j], s.chain)
    {
      assert SnapOk(j, s.cron.snaps[j], s.rows[j], s.chain);
    }
  }

  lemma RowStepInv(s: State, id: RowId, r': Row)
    requires Inv(s) && RowStep(s, id, r')
    ensures Inv(s.(rows := s.rows[id := r']))
  {
    RowStepWorkers(s, id, r');
    RowStepCron(s, id, r');
    var rows := s.rows[id := r'];
    forall a, b | a in rows && b in rows && a != b
      ensures Apart(rows[a], rows[b])
    {
      assert Apart(s.rows[a], s.rows[b]);
    }
  }

  lemma InsertRows(s: State, id: RowId, row: Row)
    requires Inv(s) && id !in s.rows
    requires row.status == Pending && Shape(row) && row.retryCount == 0
    ensures var rows := s.rows[id := row];
      && RowsOk(rows, s.chain, s.log) && SentOk(rows, s.chain, s.log)
      && CommittedOk(rows, s.log) && RevertedOk(rows, s.chain, s.log) && NoncesUnique(rows)
  {
    assert id !in s.log.reservations;
    var rows := s.rows[id := row];
    forall a, b | a in rows && b in rows && a != b
      ensures Apart(rows[a], rows[b])
    {
      assert a != id && b != id ==> Apart(s.rows[a], s.rows[b]);
    }
  }

  /** A new pending row. */
  lemma InsertInv(s: State, id: RowId, row: Row)
    requires Inv(s) && id !in s.rows
    requires row.status == Pending && Shape(row) && row.retryCount == 0
    ensures Inv(s.(rows := s.rows[id := row]))
  {
    var rows := s.rows[id := row];
    InsertRows(s, id, row);
    assert WorkersOk(s.workers, rows, s.chain, s.log);
    assert CronOk(s.cron, rows, s.chain);
  }

  /** Guarded updates that find a terminal row write nothing; others must be a RowStep. */
  lemma WriteInv(s: State, id: RowId, updated: Option<Row>)
    requires Inv(s) && id in s.rows
    requires updated.Some? ==> RowStep(s, id, updated.value)
    ensures Inv(WriteRow(s, id, updated))
  {
    if updated.Some? {
      RowStepInv(s, id, updated.value);
    }
  }

  /** What the chain may add: it forgets nothing. */
  ghost predicate ChainGrows(a: Chain, b: Chain) {
    && (forall h | h in a.sent :: h in b.sent && b.sent[h] == a.sent[h])
    && (forall h | h in a.mined :: h in b.mined && b.mined[h] == a.mined[h])
    && a.consumed <= b.consumed
  }

  lemma ChainRows(s: State, chain: Chain)
    requires Inv(s) && ChainGrows(s.chain, chain)
    ensures RowsOk(s.rows, chain, s.log) && RevertedOk(s.rows, chain, s.log)
  {
  }

  lemma ChainWorkers(s: State, chain: Chain)
    requires Inv(s) && ChainGrows(s.chain, chain)
    ensures WorkersOk(s.workers, s.rows, chain, s.log)
  {
  }

  lemma ChainCron(s: State, chain: Chain)
    requires Inv(s) && ChainGrows(s.chain, chain)
    ensures CronOk(s.cron, s.rows, chain)
  {
  }

  lemma ChainInv(s: State, chain: Chain)
    requires Inv(s) && ChainGrows(s.chain, chain)
    requires SentOk(s.rows, chain, s.log) && MinedOk(chain)
    ensures Inv(s.(chain := chain))
  {
    ChainRows(s, chain);
    ChainWorkers(s, chain);
    ChainCron(s, chain);
  }

  /** The row and history after a fresh reservation commits. */
  function CommitPair(s: State, id: RowId, wallet: Wallet, nonce: nat, row: Row): State {
    s.(rows := s.rows[id := row],
       log := s.log.(committed := s.log.committed + {Commit(id, wallet, nonce)},
                     reservations := s.log.reservations[id := Reservations(s.log, id) + 1]))
  }

  ghost predicate MayCommit(s: State, id: RowId, wallet: Wallet, nonce: nat, row: Row) {
    && id in s.rows && (s.rows[id].status == Pending || s.rows[id].status == Failed)
    && MessageUnlocked(s, id) && WalletUnlocked(s, wallet, s.rows[id].dst)
    && NonceUnheld(s.rows, wallet, s.rows[id].dst, nonce)
    && row == s.rows[id].(status := Submitting, wallet := Some(wallet), nonce := Some(nonce), updatedAt := row.updatedAt)
  }

  lemma CommitRows(s: State, id: RowId, wallet: Wallet, nonce: nat, row: Row)
    requires Inv(s) && MayCommit(s, id, wallet, nonce, row)
    ensures var t := CommitPair(s, id, wallet, nonce, row); RowsOk(t.rows, t.chain, t.log)
  {
    var t := CommitPair(s, id, wallet, nonce, row);
    assert RowOk(s.chain, s.log, id, s.rows[id]);
    forall j | j in t.rows
      ensures RowOk(t.chain, t.log, j, t.rows[j])
    {
      assert j != id ==> RowOk(s.chain, s.log, j, s.rows[j]);
    }
  }

  lemma CommitLog(s: State, id: RowId, wallet: Wallet, nonce: nat, row: Row)
    requires Inv(s) && MayCommit(s, id, wallet, nonce, row)
    ensures var t := CommitPair(s, id, wallet, nonce, row);
      && CommittedOk(t.rows, t.log) && NoncesUnique(t.rows)
      && SentOk(t.rows, t.chain, t.log) && RevertedOk(t.rows, t.chain, t.log)
  {
    assert RowOk(s.chain, s.log, id, s.rows[id]);
    var rows := s.rows[id := row];
    forall a, b | a in rows && b in rows && a != b
      ensures Apart(rows[a], rows[b])
    {
      assert a != id && b != id ==> Apart(s.rows[a], s.rows[b]);
    }
  }

  lemma CommitWorkers(s: State, id: RowId, wallet: Wallet, nonce: nat, row: Row)
    requires Inv(s) && MayCommit(s, id, wallet, nonce, row)
    ensures var t := CommitPair(s, id, wallet, nonce, row); WorkersOk(t.workers, t.rows, t.chain, t.log)
  {
    var t := CommitPair(s, id, wallet, nonce, row);
    forall w | w in t.workers && t.workers[w] != Idle
      ensures t.workers[w].id in t.rows
      ensures PointOk(t.workers[w], t.rows[t.workers[w].id], t.chain, t.log)
    {
      assert PointOk(s.workers[w], s.rows[s.workers[w].id], s.chain, s.log);
    }
    forall w | w in t.workers && t.workers[w].Reserving?
      ensures NonceUnheld(t.rows, t.workers[w].wallet, t.workers[w].rec.dst, t.workers[w].nonce)
    {
      assert s.workers[w].wallet != wallet || s.workers[w].rec.dst != s.rows[id].dst;
    }
  }

  lemma CommitCron(s: State, id: RowId, wallet: Wallet, nonce: nat, row: Row)
    requires Inv(s) && MayCommit(s, id, wallet, nonce, row)
    ensures CronOk(s.cron, s.rows[id := row], s.chain)
  {
  }

  lemma CommitInv(s: State, id: RowId, wallet: Wallet, nonce: nat, row: Row)
    requires Inv(s) && MayCommit(s, id, wallet, nonce, row)
    ensures Inv(CommitPair(s, id, wallet, nonce, row))
  {
    CommitRows(s, id, wallet, nonce, row);
    CommitLog(s, id, wallet, nonce, row);
    CommitWorkers(s, id, wallet, nonce, row);
    CommitCron(s, id, wallet, nonce, row);
  }

  /** Recording a mined revert of a committed pair. */
  lemma RecordRevertInv(s: State, c: Commit, h: Hash)
    requires Inv(s) && c.id in s.rows
    requires h in s.chain.mined && !s.chain.mined[h].success && h in s.chain.sent
    requires s.chain.sent[h] == Tx(c.id, c.wallet, s.rows[c.id].dst, c.nonce, s.rows[c.id].vaa)
    ensures Inv(s.(log := s.log.(reverted := s.log.reverted[c := h])))
  {
    var log := s.log.(reverted := s.log.reverted[c := h]);
    RecordRevertRows(s, c, h);
    assert WorkersOk(s.workers, s.rows, s.chain, log);
  }

  lemma RecordRevertRows(s: State, c: Commit, h: Hash)
    requires RowsOk(s.rows, s.chain, s.log)
    ensures RowsOk(s.rows, s.chain, s.log.(reverted := s.log.reverted[c := h]))
  {
    var log := s.log.(reverted := s.log.reverted[c := h]);
    forall id | id in s.rows
      ensures RowOk(s.chain, log, id, s.rows[id])
    {
      assert RowOk(s.chain, s.log, id, s.rows[id]);
    }
  }

  lemma CronPointInv(s: State, at: CronAt)
    requires Inv(s) && CronPointOk(at, s.rows, s.chain)
    requires at.Refreshing? ==> at.id !in s.cron.snaps
    ensures Inv(CronGoto(s, at))
  {
  }

  // ---- Preservation, step by step ----

  lemma BeginInv(s: State, w: WorkerId, id: RowId, row: Row, replace: Option<nat>)
    requires Inv(s) && At(s, w) == Idle && MessageUnlocked(s, id)
    requires row.status == Pending && Shape(row) && row.retryCount == 0
    ensures Inv(ApplyBegin(s, w, id, row, replace))
  {
    var s1 := InsertIfAbsent(s, id, row);
    if id !in s.rows {
      InsertInv(s, id, row);
    }
    var rec := s1.rows[id];
    assert RowOk(s1.chain, s1.log, id, rec);
    if !SkipIdempotent(rec.status, replace) && !SkipStale(rec, replace) {
      GotoInv(s1, w, Loaded(id, rec, ResubmitNonce(rec, replace)));
    }
  }

  lemma PrepareInv(s: State, w: WorkerId, outcome: PrepareOutcome)
    requires Inv(s) && Enabled(s, Prepare(w, outcome))
    ensures Inv(Apply(s, Prepare(w, outcome)))
  {
    var at := At(s, w);
    match outcome {
      case PreparedReady => GotoInv(s, w, Ready(at.id, at.rec, at.resubmit));
      case AlreadyConsumed => GotoInv(s, w, FoundConsumed(at.id));
      case PrepareFailed(failure) => GotoInv(s, w, Failing(at.id, at.resubmit.Some?, failure));
    }
  }

  lemma ReuseInv(s: State, w: WorkerId, walletKnown: bool)
    requires Inv(s) && Enabled(s, ReuseNonce(w, walletKnown))
    ensures Inv(Apply(s, ReuseNonce(w, walletKnown)))
  {
    var at := At(s, w);
    assert RowOk(s.chain, s.log, at.id, s.rows[at.id]);
    if walletKnown {
      GotoInv(s, w, Secured(at.id, at.rec, at.rec.wallet.value, at.resubmit.value));
    } else {
      GotoInv(s, w, Failing(at.id, true, Retriable));
    }
  }

  /** The chosen nonce is held by nobody, not even by a failed row that may come back. */
  lemma ReservedUnheld(rows: map<RowId, Row>, wallet: Wallet, chain: ChainId, snapshot: nat)
    requires SafeSnapshot(rows, wallet, chain, snapshot)
    ensures NonceUnheld(rows, wallet, chain, ReserveNonce(LiveNonces(rows, wallet, chain), snapshot))
  {
    var live := LiveNonces(rows, wallet, chain);
    ReserveNonceLaw(live, snapshot);
    forall id | id in rows && Holder(rows[id]) && rows[id].wallet.value == wallet && rows[id].dst == chain
      ensures rows[id].nonce.value != ReserveNonce(live, snapshot)
    {
      if rows[id].status == Failed {
        assert !FailedOn(rows[id], wallet, chain, ReserveNonce(live, snapshot));
      } else {
        assert rows[id].nonce.value in live;
      }
    }
  }

  lemma ReserveReadInv(s: State, w: WorkerId, wallet: Wallet, snapshot: nat)
    requires Inv(s) && Enabled(s, ReserveRead(w, wallet, snapshot))
    ensures Inv(Apply(s, ReserveRead(w, wallet, snapshot)))
  {
    var at := At(s, w);
    ReservedUnheld(s.rows, wallet, at.rec.dst, snapshot);
    GotoInv(s, w, Reserving(at.id, at.rec, wallet, ReserveNonce(LiveNonces(s.rows, wallet, at.rec.dst), snapshot)));
  }

  lemma CommittedPairInv(s: State, w: WorkerId, at: WorkerAt, row: Row, next: WorkerAt)
    requires Inv(s) && at == At(s, w) && at.Reserving? && at.id in s.rows && !Terminal(s.rows[at.id])
    requires MarkSubmitting(s.rows[at.id], at.wallet, at.nonce, row.updatedAt) == Some(row)
    requires next == Secured(at.id, at.rec, at.wallet, at.nonce) || next == Failing(at.id, false, Retriable)
    ensures Inv(Goto(CommitPair(s, at.id, at.wallet, at.nonce, row), w, next))
  {
    ReservingDetach(s, w);
    DetachedCommit(Goto(s, w, Idle), w, at, row, next);
    CommitCommutes(s, w, at.id, at.wallet, at.nonce, row, next);
  }

  lemma CommitCommutes(s: State, w: WorkerId, id: RowId, wallet: Wallet, nonce: nat, row: Row, next: WorkerAt)
    ensures Goto(CommitPair(s, id, wallet, nonce, row), w, next)
      == Goto(CommitPair(Goto(s, w, Idle), id, wallet, nonce, row), w, next)
  {
    assert s.workers[w := Idle][w := next] == s.workers[w := next];
  }

  lemma ReservingDetach(s: State, w: WorkerId)
    requires Inv(s) && At(s, w).Reserving?
    ensures var at, t := At(s, w), Goto(s, w, Idle);
      && Inv(t) && at.id in t.rows && PointOk(at, t.rows[at.id], t.chain, t.log)
      && MessageUnlocked(t, at.id) && WalletUnlocked(t, at.wallet, at.rec.dst)
      && NonceUnheld(t.rows, at.wallet, at.rec.dst, at.nonce)
  {
    DetachInv(s, w);
  }

  lemma DetachedCommit(s: State, w: WorkerId, at: WorkerAt, row: Row, next: WorkerAt)
    requires Inv(s) && At(s, w) == Idle && at.Reserving? && at.id in s.rows && !Terminal(s.rows[at.id])
    requires PointOk(at, s.rows[at.id], s.chain, s.log)
    requires MessageUnlocked(s, at.id) && WalletUnlocked(s, at.wallet, at.rec.dst)
    requires NonceUnheld(s.rows, at.wallet, at.rec.dst, at.nonce)
    requires MarkSubmitting(s.rows[at.id], at.wallet, at.nonce, row.updatedAt) == Some(row)
    requires next == Secured(at.id, at.rec, at.wallet, at.nonce) || next == Failing(at.id, false, Retriable)
    ensures Inv(Goto(CommitPair(s, at.id, at.wallet, at.nonce, row), w, next))
  {
    CommitInv(s, at.id, at.wallet, at.nonce, row);
    GotoInv(CommitPair(s, at.id, at.wallet, at.nonce, row), w, next);
  }

  lemma ReserveCommitInv(s: State, w: WorkerId, now: int, acknowledged: bool)
    requires Inv(s) && At(s, w).Reserving? && At(s, w).id in s.rows
    ensures Inv(ApplyReserveCommit(s, w, At(s, w), now, acknowledged))
  {
    var at := At(s, w);
    var updated := MarkSubmitting(s.rows[at.id], at.wallet, at.nonce, now);
    if updated.None? {
      GotoInv(s, w, Failing(at.id, false, Retriable));
    } else {
      var next := if acknowledged then Secured(at.id, at.rec, at.wallet, at.nonce) else Failing(at.id, false, Retriable);
      CommittedPairInv(s, w, at, updated.value, next);
    }
  }

  lemma BroadcastInv(s: State, w: WorkerId, hash: Hash, reached: bool, problem: Option<Failure>)
    requires Inv(s) && At(s, w).Secured? && (problem.None? ==> reached)
    requires reached && hash in s.chain.sent ==> s.chain.sent[hash] == TxOf(At(s, w))
    ensures Inv(ApplyBroadcast(s, w, At(s, w), hash, reached, problem))
  {
    var at := At(s, w);
    var s1 := if reached then s.(chain := s.chain.(sent := s.chain.sent[hash := TxOf(at)])) else s;
    assert PointOk(at, s.rows[at.id], s.chain, s.log);
    if reached {
      SendInv(s, hash, TxOf(at));
    }
    var next := if problem.Some? then Failing(at.id, true, problem.value)
                else Sent(at.id, at.rec, at.wallet, at.nonce, hash);
    assert PointOk(at, s1.rows[at.id], s1.chain, s1.log);
    GotoInv(s1, w, next);
  }

  lemma SendInv(s: State, hash: Hash, tx: Tx)
    requires Inv(s) && (hash in s.chain.sent ==> s.chain.sent[hash] == tx)
    requires tx.id in s.rows && s.rows[tx.id].dst == tx.dst && s.rows[tx.id].vaa == tx.vaa
    requires Commit(tx.id, tx.wallet, tx.nonce) in s.log.committed
    ensures Inv(s.(chain := s.chain.(sent := s.chain.sent[hash := tx])))
  {
    ChainInv(s, s.chain.(sent := s.chain.sent[hash := tx]));
  }

  /** A worker writes its row and steps back to Idle or to a point that relies on nothing. */
  lemma WorkerWriteInv(s: State, w: WorkerId, id: RowId, updated: Option<Row>, next: WorkerAt)
    requires Inv(s) && At(s, w) != Idle && At(s, w).id == id && id in s.rows
    requires updated.Some? ==> RowStep(Goto(s, w, Idle), id, updated.value)
    requires next == Idle || next == Dying(id)
    ensures Inv(Goto(WriteRow(s, id, updated), w, next))
  {
    DetachInv(s, w);
    WriteInv(Goto(s, w, Idle), id, updated);
    ReattachInv(s, w, WriteRow(Goto(s, w, Idle), id, updated), next);
    assert WriteRow(s, id, updated) == WriteRow(Goto(s, w, Idle), id, updated).(workers := s.workers);
  }

  /** After a detached step, the worker takes up its next point. */
  lemma ReattachInv(s: State, w: WorkerId, s1: State, next: WorkerAt)
    requires At(s, w) != Idle && s1.workers == s.workers[w := Idle]
    requires Inv(s1) && MayGoto(s1, w, next)
    ensures Inv(Goto(s1.(workers := s.workers), w, next))
  {
    GotoInv(s1, w, next);
    assert s1.workers[w := next] == s.workers[w := next];
  }

  lemma ConfirmConsumedInv(s: State, w: WorkerId, now: int)
    requires Inv(s) && Enabled(s, ConfirmConsumed(w, now))
    ensures Inv(Apply(s, ConfirmConsumed(w, now)))
  {
    var id := At(s, w).id;
    DetachInv(s, w);
    assert RowOk(s.chain, s.log, id, s.rows[id]);
    WorkerWriteInv(s, w, id, MarkConfirmed(s.rows[id], now), Idle);
  }

  lemma RecordSubmittedInv(s: State, w: WorkerId, now: int)
    requires Inv(s) && Enabled(s, RecordSubmitted(w, now))
    ensures Inv(Apply(s, RecordSubmitted(w, now)))
  {
    var at := At(s, w);
    DetachInv(s, w);
    assert RowOk(s.chain, s.log, at.id, s.rows[at.id]);
    WorkerWriteInv(s, w, at.id, MarkSubmitted(s.rows[at.id], at.hash, at.wallet, at.nonce, now), Idle);
  }

  lemma BuryRowInv(s: State, w: WorkerId, now: int)
    requires Inv(s) && Enabled(s, BuryRow(w, now))
    ensures Inv(Apply(s, BuryRow(w, now)))
  {
    var id := At(s, w).id;
    DetachInv(s, w);
    assert RowOk(s.chain, s.log, id, s.rows[id]);
    WorkerWriteInv(s, w, id, MarkDeadLetter(s.rows[id], now), Idle);
  }

  lemma SubmittingFailureInv(s: State, w: WorkerId, id: RowId, failure: Failure, now: int)
    requires Inv(s) && At(s, w).Failing? && At(s, w).id == id && id in s.rows
    ensures Inv(ApplySubmittingFailure(s, w, id, failure, now))
  {
    DetachInv(s, w);
    assert RowOk(s.chain, s.log, id, s.rows[id]);
    match failure {
      case Permanent => GotoInv(s, w, Dying(id));
      case Defer => TouchInv(s, w, id, now);
      case _ =>
        var updated := IncrementRetry(s.rows[id], now);
        WorkerWriteInv(s, w, id, updated, if updated.Some? && Exhausted(updated) then Dying(id) else Idle);
    }
  }

  lemma DeliveryFailureInv(s: State, w: WorkerId, id: RowId, failure: Failure, expired: bool, now: int)
    requires Inv(s) && At(s, w).Failing? && At(s, w).id == id && !At(s, w).committed && id in s.rows
    ensures Inv(ApplyDeliveryFailure(s, w, id, failure, expired, now))
  {
    if failure.WalletsBusy? || (failure.Defer? && !expired) {
      TouchInv(s, w, id, now);
    } else {
      var updated := MarkFailed(s.rows[id], now);
      WorkerFailInv(s, w, id, now, if failure.Retriable? && !Exhausted(updated) then Idle else Dying(id));
    }
  }

  lemma TouchInv(s: State, w: WorkerId, id: RowId, now: int)
    requires Inv(s) && At(s, w) != Idle && At(s, w).id == id && id in s.rows
    ensures Inv(Goto(WriteRow(s, id, Touch(s.rows[id], now)), w, Idle))
  {
    DetachInv(s, w);
    assert RowOk(s.chain, s.log, id, s.rows[id]);
    WorkerWriteInv(s, w, id, Touch(s.rows[id], now), Idle);
  }

  /** A worker marks a row failed only while no nonce of this attempt is submitted. */
  lemma WorkerFailInv(s: State, w: WorkerId, id: RowId, now: int, next: WorkerAt)
    requires Inv(s) && At(s, w).Failing? && At(s, w).id == id && !At(s, w).committed && id in s.rows
    requires next == Idle || next == Dying(id)
    ensures Inv(Goto(WriteRow(s, id, MarkFailed(s.rows[id], now)), w, next))
  {
    DetachInv(s, w);
    var updated := MarkFailed(s.rows[id], now);
    if updated.Some? {
      FailIsRowStep(Goto(s, w, Idle), id, updated.value);
    }
    WorkerWriteInv(s, w, id, updated, next);
  }

  lemma FailIsRowStep(s: State, id: RowId, r': Row)
    requires id in s.rows && RowOk(s.chain, s.log, id, s.rows[id]) && MessageUnlocked(s, id)
    requires s.rows[id].status != Submitted && MarkFailed(s.rows[id], r'.updatedAt) == Some(r')
    ensures RowStep(s, id, r')
  {
  }

  lemma CronSelectInv(s: State, ids: set<RowId>)
    requires Inv(s) && Enabled(s, CronSelect(ids))
    ensures Inv(Apply(s, CronSelect(ids)))
  {
    var snaps := s.cron.snaps + map id | id in ids :: s.rows[id];
    forall id | id in snaps
      ensures id in s.rows && SnapOk(id, snaps[id], s.rows[id], s.chain)
    {
      if id in ids {
        assert RowOk(s.chain, s.log, id, s.rows[id]);
      }
    }
  }

  lemma DropSnapInv(s: State, id: RowId)
    requires Inv(s)
    ensures Inv(DropSnap(s, id))
  {
  }

  lemma CronResubmitInv(s: State, id: RowId, now: int)
    requires Inv(s) && s.cron.at == Scanning && id in s.cron.snaps && id in s.rows
    ensures Inv(ApplyCronResubmit(s, id, now))
  {
    var s1 := DropSnap(s, id);
    DropSnapInv(s, id);
    assert RowOk(s.chain, s.log, id, s.rows[id]);
    var updated := IncrementRetry(s.rows[id], now);
    WriteInv(s1, id, updated);
    CronPointInv(WriteRow(s1, id, updated), if updated.Some? && Exhausted(updated) then Burying(id) else Scanning);
  }

  lemma CronReceiptInv(s: State, id: RowId)
    requires Inv(s) && s.cron.at == Scanning && id in s.cron.snaps && s.cron.snaps[id].status == Submitted
    requires s.cron.snaps[id].hash.Some? && s.cron.snaps[id].hash.value in s.chain.mined
    ensures Inv(ApplyCronReceipt(s, id))
  {
    DropSnapInv(s, id);
    var rec := s.cron.snaps[id];
    var receipt := s.chain.mined[rec.hash.value];
    assert SnapOk(id, rec, s.rows[id], s.chain);
    CronPointInv(DropSnap(s, id),
                 if receipt.success then Confirming(id)
                 else if LikelyOutOfGas(receipt) then Refreshing(id, rec)
                 else Burying(id));
  }

  lemma CronWriteInv(s: State, updated: Option<Row>, id: RowId, next: CronAt)
    requires Inv(s) && id in s.rows
    requires updated.Some? ==> RowStep(CronGoto(s, Scanning), id, updated.value)
    requires next == Scanning || next == Burying(id)
    ensures Inv(CronGoto(WriteRow(s, id, updated), next))
  {
    var s0 := CronGoto(s, Scanning);
    CronPointInv(s, Scanning);
    WriteInv(s0, id, updated);
    CronPointInv(WriteRow(s0, id, updated), next);
    assert CronGoto(WriteRow(s0, id, updated), next) == CronGoto(WriteRow(s, id, updated), next);
  }

  lemma CronConfirmInv(s: State, now: int)
    requires Inv(s) && Enabled(s, CronConfirm(now))
    ensures Inv(Apply(s, CronConfirm(now)))
  {
    var id := s.cron.at.id;
    assert RowOk(s.chain, s.log, id, s.rows[id]);
    CronWriteInv(s, MarkConfirmed(s.rows[id], now), id, Scanning);
  }

  lemma CronBuryInv(s: State, now: int)
    requires Inv(s) && Enabled(s, CronBury(now))
    ensures Inv(Apply(s, CronBury(now)))
  {
    var id := s.cron.at.id;
    assert RowOk(s.chain, s.log, id, s.rows[id]);
    CronWriteInv(s, MarkDeadLetter(s.rows[id], now), id, Scanning);
  }

  /** The revert is recorded and the row marked failed. */
  lemma RefreshedInv(s: State, id: RowId, rec: Row, row': Row, next: CronAt)
    requires Inv(s) && s.cron.at == Refreshing(id, rec) && s.rows[id].status == Submitted
    requires MarkFailed(s.rows[id], row'.updatedAt) == Some(row')
    requires HoldsPair(s.rows[id], rec.wallet.value, rec.nonce.value)
    requires next == Scanning || next == Burying(id)
    ensures var log := s.log.(reverted := s.log.reverted[Commit(id, rec.wallet.value, rec.nonce.value) := rec.hash.value]);
      Inv(CronGoto(WriteRow(s, id, Some(row')), next).(log := log))
  {
    var c := Commit(id, rec.wallet.value, rec.nonce.value);
    assert RowOk(s.chain, s.log, id, s.rows[id]);
    RecordRevertInv(s, c, rec.hash.value);
    CronWriteInv(s.(log := s.log.(reverted := s.log.reverted[c := rec.hash.value])), Some(row'), id, next);
  }

  lemma CronRefreshInv(s: State, now: int)
    requires Inv(s) && s.cron.at.Refreshing? && s.cron.at.id in s.rows
    ensures Inv(ApplyCronRefresh(s, s.cron.at.id, s.cron.at.rec, now))
  {
    var id, rec := s.cron.at.id, s.cron.at.rec;
    var row := s.rows[id];
    var updated := MarkFailed(row, now);
    var next := if Exhausted(updated) then Burying(id) else Scanning;
    assert RowOk(s.chain, s.log, id, row);
    if updated.None? {
      CronWriteInv(s, updated, id, next);
    } else {
      assert SnapOk(id, rec, row, s.chain);
      RefreshedInv(s, id, rec, updated.value, next);
    }
  }

  lemma MineInv(s: State, hash: Hash, receipt: Receipt)
    requires Inv(s) && hash in s.chain.sent && hash !in s.chain.mined
    ensures Inv(s.(chain := MineTx(s.chain, hash, receipt)))
  {
    var chain := MineTx(s.chain, hash, receipt);
    forall h | h in chain.mined
      ensures h in chain.sent
      ensures chain.sent[h].nonce < ChainNonce(chain, chain.sent[h].wallet, chain.sent[h].dst)
    {
      assert h != hash ==> h in s.chain.mined;
    }
    ChainInv(s, chain);
  }

  lemma InsertRowInv(s: State, id: RowId, row: Row)
    requires Inv(s) && row.status == Pending && Shape(row) && row.retryCount == 0
    ensures Inv(InsertIfAbsent(s, id, row))
  {
    if id !in s.rows {
      InsertInv(s, id, row);
    }
  }

  lemma ReserveFailInv(s: State, w: WorkerId, failure: Failure)
    requires Inv(s) && Enabled(s, ReserveFail(w, failure))
    ensures Inv(Apply(s, ReserveFail(w, failure)))
  {
    GotoInv(s, w, Failing(At(s, w).id, false, failure));
  }

  lemma HandleFailureInv(s: State, w: WorkerId, expired: bool, now: int)
    requires Inv(s) && Enabled(s, HandleFailure(w, expired, now))
    ensures Inv(Apply(s, HandleFailure(w, expired, now)))
  {
    var at := At(s, w);
    if at.committed {
      SubmittingFailureInv(s, w, at.id, at.failure, now);
    } else {
      DeliveryFailureInv(s, w, at.id, at.failure, expired, now);
    }
  }

  lemma CrashCronInv(s: State)
    requires Inv(s)
    ensures Inv(s.(cron := Cron(map[], Scanning)))
  {
  }

  lemma ConsumeInv(s: State, dst: ChainId, vaa: VaaId)
    requires Inv(s)
    ensures Inv(s.(chain := s.chain.(consumed := s.chain.consumed + {(dst, vaa)})))
  {
    ChainInv(s, s.chain.(consumed := s.chain.consumed + {(dst, vaa)}));
  }

  lemma PendingNonceInv(s: State, wallet: Wallet, dst: ChainId, nonce: nat)
    requires Inv(s) && Enabled(s, PendingNonce(wallet, dst, nonce))
    ensures Inv(s.(chain := s.chain.(nonces := s.chain.nonces[(wallet, dst) := nonce])))
  {
    ChainInv(s, s.chain.(nonces := s.chain.nonces[(wallet, dst) := nonce]));
  }

  predicate WorkerStep(step: Step) {
    || step.Begin? || step.Prepare? || step.ConfirmConsumed? || step.ReuseNonce? || step.ReserveRead?
    || step.ReserveFail? || step.ReserveCommit? || step.Broadcast? || step.RecordSubmitted?
    || step.HandleFailure? || step.BuryRow? || step.CrashWorker?
  }

  lemma WorkerStepInv(s: State, step: Step)
    requires Inv(s) && Enabled(s, step) && WorkerStep(step)
    ensures Inv(Apply(s, step))
  {
    match step {
      case Begin(w, id, dst, vaa, maxRetries, replace, now) =>
        BeginInv(s, w, id, NewRow(dst, vaa, maxRetries, now), replace);
      case Prepare(w, outcome) => PrepareInv(s, w, outcome);
      case ConfirmConsumed(w, now) => ConfirmConsumedInv(s, w, now);
      case ReuseNonce(w, walletKnown) => ReuseInv(s, w, walletKnown);
      case ReserveRead(w, wallet, snapshot) => ReserveReadInv(s, w, wallet, snapshot);
      case ReserveFail(w, failure) => ReserveFailInv(s, w, failure);
      case ReserveCommit(w, now, acknowledged) => ReserveCommitInv(s, w, now, acknowledged);
      case Broadcast(w, hash, reached, problem) => BroadcastInv(s, w, hash, reached, problem);
      case RecordSubmitted(w, now) => RecordSubmittedInv(s, w, now);
      case HandleFailure(w, expired, now) => HandleFailureInv(s, w, expired, now);
      case BuryRow(w, now) => BuryRowInv(s, w, now);
      case CrashWorker(w) => GotoInv(s, w, Idle);
    }
  }

  lemma EnvironmentStepInv(s: State, step: Step)
    requires Inv(s) && Enabled(s, step) && !WorkerStep(step)
    ensures Inv(Apply(s, step))
  {
    match step {
      case InsertRow(id, dst, vaa, maxRetries, now) => InsertRowInv(s, id, NewRow(dst, vaa, maxRetries, now));
      case CronSelect(ids) => CronSelectInv(s, ids);
      case CronResubmit(id, now) => CronResubmitInv(s, id, now);
      case CronReceipt(id) => CronReceiptInv(s, id);
      case CronConfirm(now) => CronConfirmInv(s, now);
      case CronRefresh(now) => CronRefreshInv(s, now);
      case CronBury(now) => CronBuryInv(s, now);
      case CrashCron => CrashCronInv(s);
      case Mine(hash, receipt) => MineInv(s, hash, receipt);
      case ConsumeElsewhere(dst, vaa) => ConsumeInv(s, dst, vaa);
      case PendingNonce(wallet, dst, nonce) => PendingNonceInv(s, wallet, dst, nonce);
    }
  }

  /** Every step of every party preserves the invariant. */
  lemma StepInv(s: State, step: Step)
    requires Inv(s) && Enabled(s, step)
    ensures Inv(Apply(s, step))
  {
    if WorkerStep(step) {
      WorkerStepInv(s, step);
    } else {
      EnvironmentStepInv(s, step);
    }
  }
}
