/** What the delivery protocol guarantees over whole runs. */
module ProtocolTheorems {
  import opened Basics
  import opened Rows
  import opened WalletPool
  import opened Protocol
  import opened ProtocolInvariant

  lemma {:induction false} RunInv(states: seq<State>, steps: seq<Step>, i: nat)
    requires Run(states, steps) && i < |states|
    ensures Inv(states[i])
  {
    if i == 0 {
      InitInv(states[0]);
    } else {
      RunInv(states, steps, i - 1);
      assert StepAt(states, steps, i - 1);
      StepInv(states[i - 1], steps[i - 1]);
    }
  }

  lemma RunExtends(states: seq<State>, steps: seq<Step>, step: Step)
    requires Run(states, steps) && Enabled(states[|steps|], step)
    ensures Run(states + [Apply(states[|steps|], step)], steps + [step])
  {
    var states', steps' := states + [Apply(states[|steps|], step)], steps + [step];
    forall i | 0 <= i < |steps'|
      ensures StepAt(states', steps', i)
    {
      assert i < |steps| ==> StepAt(states, steps, i);
    }
  }

  // ---- Nonces ----

  /**
    In every reachable state no two rows that hold a nonce hold the same one on the same wallet and
    chain; failed rows are included because they may still return to submitted or confirmed.
   */
  lemma NoSharedNonce(states: seq<State>, steps: seq<Step>, i: nat, a: RowId, b: RowId)
    requires Run(states, steps) && i < |states|
    requires a in states[i].rows && b in states[i].rows && a != b
    requires Holder(states[i].rows[a]) && Holder(states[i].rows[b])
    requires states[i].rows[a].wallet == states[i].rows[b].wallet && states[i].rows[a].dst == states[i].rows[b].dst
    ensures states[i].rows[a].nonce != states[i].rows[b].nonce
  {
    RunInv(states, steps, i);
    assert Apart(states[i].rows[a], states[i].rows[b]);
  }

  /**
    Exactly when a chain nonce read earlier is safe to reserve from: the allocator's choice is held by
    nobody, not even by a failed row that may come back, if and only if no failed row of the wallet and
    chain holds the snapshot or, when a live row holds that, the nonce after the highest live one.
   */
  lemma SnapshotSafeIff(rows: map<RowId, Row>, wallet: Wallet, chain: ChainId, snapshot: nat)
    ensures NonceUnheld(rows, wallet, chain, ReserveNonce(LiveNonces(rows, wallet, chain), snapshot))
      <==> SafeSnapshot(rows, wallet, chain, snapshot)
  {
    if SafeSnapshot(rows, wallet, chain, snapshot) {
      ReservedUnheld(rows, wallet, chain, snapshot);
    } else {
      var live := LiveNonces(rows, wallet, chain);
      var next := if snapshot in live then DbNext(live) else snapshot;
      var id :| id in rows && FailedOn(rows[id], wallet, chain, next);
      assert Holder(rows[id]);
    }
  }

  /** A snapshot above every nonce of this wallet whose revert the cron has recorded. */
  predicate FreshSnapshot(s: State, wallet: Wallet, chain: ChainId, snapshot: nat) {
    forall c | c in s.log.reverted && c.wallet == wallet && c.id in s.rows && s.rows[c.id].dst == chain ::
      c.nonce < snapshot
  }

  lemma FreshIsSafe(s: State, wallet: Wallet, chain: ChainId, snapshot: nat)
    requires Inv(s) && FreshSnapshot(s, wallet, chain, snapshot)
    ensures SafeSnapshot(s.rows, wallet, chain, snapshot)
  {
    forall id, n: nat | id in s.rows && FailedOn(s.rows[id], wallet, chain, n)
      ensures n < snapshot
    {
      assert RowOk(s.chain, s.log, id, s.rows[id]);
      assert Commit(id, wallet, n) in s.log.reverted;
    }
  }

  /** A stale snapshot is safe in every run as long as it exceeds the reverts recorded since it was read. */
  lemma FreshSnapshotIsSafe(states: seq<State>, steps: seq<Step>, i: nat, wallet: Wallet, chain: ChainId, snapshot: nat)
    requires Run(states, steps) && i < |states| && FreshSnapshot(states[i], wallet, chain, snapshot)
    ensures SafeSnapshot(states[i].rows, wallet, chain, snapshot)
  {
    RunInv(states, steps, i);
    FreshIsSafe(states[i], wallet, chain, snapshot);
  }

  /** The snapshot hypothesis can always be met: the current pending nonce is a fresh snapshot. */
  lemma CurrentNonceIsFresh(states: seq<State>, steps: seq<Step>, i: nat, wallet: Wallet, chain: ChainId)
    requires Run(states, steps) && i < |states|
    ensures FreshSnapshot(states[i], wallet, chain, ChainNonce(states[i].chain, wallet, chain))
  {
    RunInv(states, steps, i);
    var s := states[i];
    forall c | c in s.log.reverted && c.wallet == wallet && c.id in s.rows && s.rows[c.id].dst == chain
      ensures c.nonce < ChainNonce(s.chain, wallet, chain)
    {
      assert s.log.reverted[c] in s.chain.mined;
    }
  }

  /**
    A nonce is given to two rows of one wallet and chain only after one of them became terminal or its
    revert was recorded.
   */
  lemma NonceReusedOnlyAfterRelease(states: seq<State>, steps: seq<Step>, i: nat, c: Commit, d: Commit)
    requires Run(states, steps) && i < |states|
    requires c in states[i].log.committed && d in states[i].log.committed
    requires c.id != d.id && c.wallet == d.wallet && c.nonce == d.nonce
    ensures c.id in states[i].rows && d.id in states[i].rows
    ensures states[i].rows[c.id].dst == states[i].rows[d.id].dst ==>
      || Terminal(states[i].rows[c.id]) || c in states[i].log.reverted
      || Terminal(states[i].rows[d.id]) || d in states[i].log.reverted
  {
    RunInv(states, steps, i);
    var s := states[i];
    assert RowOk(s.chain, s.log, c.id, s.rows[c.id]) && RowOk(s.chain, s.log, d.id, s.rows[d.id]);
    assert Apart(s.rows[c.id], s.rows[d.id]);
  }

  /** A snapshot not below the pending nonce never yields a nonce that has mined. */
  lemma CurrentSnapshotNotMined(
    states: seq<State>, steps: seq<Step>, i: nat, wallet: Wallet, chain: ChainId, snapshot: nat, h: Hash)
    requires Run(states, steps) && i < |states| && ChainNonce(states[i].chain, wallet, chain) <= snapshot
    requires h in states[i].chain.mined
    ensures h in states[i].chain.sent
    ensures var tx := states[i].chain.sent[h];
      tx.wallet == wallet && tx.dst == chain ==> tx.nonce != ReserveNonce(LiveNonces(states[i].rows, wallet, chain), snapshot)
  {
    RunInv(states, steps, i);
    ReserveNonceLaw(LiveNonces(states[i].rows, wallet, chain), snapshot);
  }

  // ---- Confirmation ----

  /** A row is confirmed only if its VAA is consumed on its destination chain. */
  lemma ConfirmedIsConsumed(states: seq<State>, steps: seq<Step>, i: nat, id: RowId)
    requires Run(states, steps) && i < |states|
    requires id in states[i].rows && states[i].rows[id].status == Confirmed
    ensures (states[i].rows[id].dst, states[i].rows[id].vaa) in states[i].chain.consumed
  {
    RunInv(states, steps, i);
    assert RowOk(states[i].chain, states[i].log, id, states[i].rows[id]);
  }

  /** Any recorded relay hash names a delivery of the row's own VAA to its own destination. */
  lemma HashNamesOwnDelivery(states: seq<State>, steps: seq<Step>, i: nat, id: RowId)
    requires Run(states, steps) && i < |states|
    requires id in states[i].rows && states[i].rows[id].hash.Some?
    ensures NamesOwnDelivery(states[i].chain, id, states[i].rows[id], states[i].rows[id].hash.value)
  {
    RunInv(states, steps, i);
    assert RowOk(states[i].chain, states[i].log, id, states[i].rows[id]);
  }

  // ---- What never changes back ----

  /** One step keeps the event, never lowers the retry count, and leaves terminal rows alone. */
  ghost predicate Advances(a: State, b: State) {
    && (forall id | id in a.rows ::
          && id in b.rows && SameEvent(a.rows[id], b.rows[id])
          && a.rows[id].retryCount <= b.rows[id].retryCount
          && (Terminal(a.rows[id]) ==> b.rows[id] == a.rows[id]))
    && a.log.committed <= b.log.committed
    && ChainGrows(a.chain, b.chain)
  }

  predicate WritesRow(step: Step) {
    || step.ConfirmConsumed? || step.RecordSubmitted? || step.HandleFailure? || step.BuryRow?
    || step.CronResubmit? || step.CronConfirm? || step.CronRefresh? || step.CronBury?
  }

  /** The row a guarded update is aimed at. */
  function TargetRow(s: State, step: Step): RowId
    requires Enabled(s, step) && (WritesRow(step) || step.ReserveCommit?)
  {
    if step.CronResubmit? then step.id
    else if step.CronConfirm? || step.CronRefresh? || step.CronBury? then s.cron.at.id
    else At(s, step.w).id
  }

  /** One guarded update of a row, or none. */
  predicate GuardedUpdate(r: Row, r': Row) {
    || r' == r
    || MarkConfirmed(r, r'.updatedAt) == Some(r')
    || Touch(r, r'.updatedAt) == Some(r')
    || IncrementRetry(r, r'.updatedAt) == Some(r')
    || MarkFailed(r, r'.updatedAt) == Some(r')
    || MarkDeadLetter(r, r'.updatedAt) == Some(r')
    || (r'.wallet.Some? && r'.nonce.Some? && r'.hash.Some?
        && MarkSubmitted(r, r'.hash.value, r'.wallet.value, r'.nonce.value, r'.updatedAt) == Some(r'))
    || (r'.wallet.Some? && r'.nonce.Some?
        && MarkSubmitting(r, r'.wallet.value, r'.nonce.value, r'.updatedAt) == Some(r'))
  }

  /** One row changes, by one guarded update; commitments are not forgotten. */
  ghost predicate ChangesOnly(s: State, s': State, id: RowId) {
    && id in s.rows && id in s'.rows && s'.rows == s.rows[id := s'.rows[id]]
    && GuardedUpdate(s.rows[id], s'.rows[id])
    && s'.chain == s.chain && s.log.committed <= s'.log.committed
  }

  lemma WorkerWriteChangesOneRow(s: State, step: Step)
    requires Enabled(s, step)
    requires step.ConfirmConsumed? || step.RecordSubmitted? || step.BuryRow? || step.ReserveCommit?
    ensures ChangesOnly(s, Apply(s, step), At(s, step.w).id)
  {
  }

  lemma FailureChangesOneRow(s: State, step: Step)
    requires Enabled(s, step) && step.HandleFailure?
    ensures ChangesOnly(s, Apply(s, step), At(s, step.w).id)
  {
  }

  lemma CronWriteChangesOneRow(s: State, step: Step)
    requires Enabled(s, step) && (step.CronResubmit? || step.CronConfirm? || step.CronRefresh? || step.CronBury?)
    ensures ChangesOnly(s, Apply(s, step), if step.CronResubmit? then step.id else s.cron.at.id)
  {
  }

  /** A step that writes a row changes only that row, by one guarded update. */
  lemma WriteChangesOneRow(s: State, step: Step)
    requires Enabled(s, step) && (WritesRow(step) || step.ReserveCommit?)
    ensures ChangesOnly(s, Apply(s, step), TargetRow(s, step))
  {
    if step.CronResubmit? || step.CronConfirm? || step.CronRefresh? || step.CronBury? {
      CronWriteChangesOneRow(s, step);
    } else if step.HandleFailure? {
      FailureChangesOneRow(s, step);
    } else {
      WorkerWriteChangesOneRow(s, step);
    }
  }

  /** Every other step leaves existing rows as they are. */
  lemma OtherStepsKeepRows(s: State, step: Step)
    requires Enabled(s, step) && !WritesRow(step) && !step.ReserveCommit?
    ensures var s' := Apply(s, step);
      && (forall id | id in s.rows :: id in s'.rows && s'.rows[id] == s.rows[id])
      && s'.log == s.log && ChainGrows(s.chain, s'.chain)
  {
  }

  lemma StepAdvances(s: State, step: Step)
    requires Enabled(s, step)
    ensures Advances(s, Apply(s, step))
  {
    if WritesRow(step) || step.ReserveCommit? {
      WriteChangesOneRow(s, step);
      ChangeAdvances(s, Apply(s, step), TargetRow(s, step));
    } else {
      OtherStepsKeepRows(s, step);
    }
  }

  lemma ChangeAdvances(s: State, s': State, id: RowId)
    requires ChangesOnly(s, s', id)
    ensures Advances(s, s')
  {
  }

  lemma RunStepAdvances(states: seq<State>, steps: seq<Step>, k: nat)
    requires Run(states, steps) && k < |steps|
    ensures Advances(states[k], states[k + 1])
  {
    assert StepAt(states, steps, k);
    StepAdvances(states[k], steps[k]);
  }

  lemma {:induction false} RunAdvances(states: seq<State>, steps: seq<Step>, i: nat, j: nat)
    requires Run(states, steps) && i <= j < |states|
    ensures Advances(states[i], states[j])
    decreases j
  {
    if i < j {
      RunAdvances(states, steps, i, j - 1);
      RunStepAdvances(states, steps, j - 1);
      AdvancesTransitive(states[i], states[j - 1], states[j]);
    }
  }

  lemma AdvancesTransitive(a: State, b: State, c: State)
    requires Advances(a, b) && Advances(b, c)
    ensures Advances(a, c)
  {
  }

  // ---- What one step leaves alone ----

  lemma OtherPoint(s: State, step: Step, w: WorkerId)
    requires Enabled(s, step) && WorkerStep(step) && step.w != w
    ensures At(Apply(s, step), w) == At(s, w)
  {
  }

  lemma EnvironmentKeepsPoints(s: State, step: Step)
    requires Enabled(s, step) && !WorkerStep(step)
    ensures Apply(s, step).workers == s.workers
  {
  }

  predicate CronStep(step: Step) {
    || step.CronSelect? || step.CronResubmit? || step.CronReceipt? || step.CronConfirm? || step.CronRefresh?
    || step.CronBury? || step.CrashCron?
  }

  lemma OthersKeepCron(s: State, step: Step)
    requires Enabled(s, step) && !CronStep(step)
    ensures Apply(s, step).cron == s.cron
  {
  }

  // ---- How one step may change one row ----

  predicate MinedRevert(chain: Chain, h: Hash, id: RowId, wallet: Wallet, nonce: nat) {
    && h in chain.mined && !chain.mined[h].success && h in chain.sent
    && chain.sent[h].id == id && chain.sent[h].wallet == wallet && chain.sent[h].nonce == nonce
  }

  predicate SamePair(r: Row, r': Row) {
    r'.wallet == r.wallet && r'.nonce == r.nonce
  }

  /** Nothing; termination; a count or a touch; the four moves between non-terminal statuses. */
  ghost predicate RowMove(chain: Chain, step: Step, id: RowId, r: Row, r': Row) {
    || r' == r
    || (!Terminal(r) && Terminal(r') && r'.wallet == r.wallet && (r'.nonce.Some? ==> r'.nonce == r.nonce))
    || (!Terminal(r) && r'.status == r.status && SamePair(r, r'))
    || (step.RecordSubmitted? && Holder(r) && r'.status == Submitted && SamePair(r, r'))
    || (step.ReserveCommit? && Uncommitted(r) && r'.status == Submitting)
    || (r.status == Pending && r'.status == Failed && SamePair(r, r'))
    || (&& step.CronRefresh? && r.status == Submitted && Holder(r) && r'.status == Failed && SamePair(r, r')
        && exists h :: MinedRevert(chain, h, id, r.wallet.value, r.nonce.value))
  }

  lemma RecordMoves(s: State, step: Step)
    requires Inv(s) && Enabled(s, step) && step.RecordSubmitted?
    ensures var id := At(s, step.w).id;
      id in Apply(s, step).rows && RowMove(s.chain, step, id, s.rows[id], Apply(s, step).rows[id])
  {
    assert PointOk(At(s, step.w), s.rows[At(s, step.w).id], s.chain, s.log);
  }

  lemma CommitMoves(s: State, step: Step)
    requires Inv(s) && Enabled(s, step) && step.ReserveCommit?
    ensures var id := At(s, step.w).id;
      id in Apply(s, step).rows && RowMove(s.chain, step, id, s.rows[id], Apply(s, step).rows[id])
  {
    assert PointOk(At(s, step.w), s.rows[At(s, step.w).id], s.chain, s.log);
  }

  lemma SubmittingFailureMoves(s: State, w: WorkerId, id: RowId, failure: Failure, step: Step, now: int)
    requires id in s.rows
    ensures var t := ApplySubmittingFailure(s, w, id, failure, now);
      id in t.rows && RowMove(s.chain, step, id, s.rows[id], t.rows[id])
  {
  }

  lemma DeliveryFailureMoves(s: State, w: WorkerId, id: RowId, failure: Failure, expired: bool, step: Step, now: int)
    requires id in s.rows && s.rows[id].status != Submitted
    ensures var t := ApplyDeliveryFailure(s, w, id, failure, expired, now);
      id in t.rows && RowMove(s.chain, step, id, s.rows[id], t.rows[id])
  {
  }

  lemma FailureMoves(s: State, step: Step)
    requires Inv(s) && Enabled(s, step) && step.HandleFailure?
    ensures var id := At(s, step.w).id;
      id in Apply(s, step).rows && RowMove(s.chain, step, id, s.rows[id], Apply(s, step).rows[id])
  {
    var at := At(s, step.w);
    assert PointOk(at, s.rows[at.id], s.chain, s.log);
    if at.committed {
      SubmittingFailureMoves(s, step.w, at.id, at.failure, step, step.now);
    } else {
      DeliveryFailureMoves(s, step.w, at.id, at.failure, step.expired, step, step.now);
    }
  }

  lemma RefreshMoves(s: State, step: Step)
    requires Inv(s) && Enabled(s, step) && step.CronRefresh?
    ensures var id := s.cron.at.id;
      id in Apply(s, step).rows && RowMove(s.chain, step, id, s.rows[id], Apply(s, step).rows[id])
  {
    var id, rec := s.cron.at.id, s.cron.at.rec;
    var r := s.rows[id];
    assert SnapOk(id, rec, r, s.chain);
    if !Terminal(r) {
      assert MinedRevert(s.chain, rec.hash.value, id, r.wallet.value, r.nonce.value);
    }
  }

  lemma OtherWriteMoves(s: State, step: Step)
    requires Enabled(s, step) && WritesRow(step)
    requires !step.RecordSubmitted? && !step.HandleFailure? && !step.CronRefresh?
    ensures var id := TargetRow(s, step);
      && id in s.rows && id in Apply(s, step).rows
      && RowMove(s.chain, step, id, s.rows[id], Apply(s, step).rows[id])
  {
  }

  /** Every step moves every existing row in one of these ways. */
  lemma StepMovesRow(s: State, step: Step, id: RowId)
    requires Inv(s) && Enabled(s, step) && id in s.rows
    ensures id in Apply(s, step).rows && RowMove(s.chain, step, id, s.rows[id], Apply(s, step).rows[id])
  {
    if WritesRow(step) || step.ReserveCommit? {
      WriteChangesOneRow(s, step);
      if id == TargetRow(s, step) {
        TargetMoves(s, step);
      }
    } else {
      OtherStepsKeepRows(s, step);
    }
  }

  lemma TargetMoves(s: State, step: Step)
    requires Inv(s) && Enabled(s, step) && (WritesRow(step) || step.ReserveCommit?)
    ensures var id := TargetRow(s, step);
      && id in s.rows && id in Apply(s, step).rows
      && RowMove(s.chain, step, id, s.rows[id], Apply(s, step).rows[id])
  {
    if step.RecordSubmitted? {
      RecordMoves(s, step);
    } else if step.ReserveCommit? {
      CommitMoves(s, step);
    } else if step.HandleFailure? {
      FailureMoves(s, step);
    } else if step.CronRefresh? {
      RefreshMoves(s, step);
    } else {
      OtherWriteMoves(s, step);
    }
  }

  lemma RunMovesRow(states: seq<State>, steps: seq<Step>, k: nat, id: RowId)
    requires Run(states, steps) && k < |steps| && id in states[k].rows
    ensures id in states[k + 1].rows
    ensures RowMove(states[k].chain, steps[k], id, states[k].rows[id], states[k + 1].rows[id])
    ensures Shape(states[k].rows[id])
  {
    RunInv(states, steps, k);
    assert StepAt(states, steps, k) && RowOk(states[k].chain, states[k].log, id, states[k].rows[id]);
    StepMovesRow(states[k], steps[k], id);
  }

  lemma RunNewRow(states: seq<State>, steps: seq<Step>, k: nat, id: RowId)
    requires Run(states, steps) && k < |steps| && id !in states[k].rows && id in states[k + 1].rows
    ensures states[k + 1].rows[id].status == Pending
  {
    assert StepAt(states, steps, k);
    NewRowsArePending(states[k], steps[k], id);
  }

  /** Row shapes in every reachable state; the cron's null-field fallbacks are never taken. */
  lemma ShapesHold(states: seq<State>, steps: seq<Step>, i: nat)
    requires Run(states, steps) && i < |states|
    ensures forall id | id in states[i].rows :: Shape(states[i].rows[id])
    ensures forall id | id in states[i].cron.snaps ::
      var rec := states[i].cron.snaps[id];
      rec.wallet.Some? && rec.nonce.Some? && (rec.status == Submitted ==> rec.hash.Some?)
  {
    RunInv(states, steps, i);
    forall id | id in states[i].rows
      ensures Shape(states[i].rows[id])
    {
      assert RowOk(states[i].chain, states[i].log, id, states[i].rows[id]);
    }
  }

  // ---- Intent log ----

  /** The step at k commits a fresh reservation of (wallet, nonce) to row id, before any broadcast of it. */
  ghost predicate CommitsAt(states: seq<State>, steps: seq<Step>, k: nat, id: RowId, wallet: Wallet, nonce: nat)
    requires Run(states, steps) && k < |steps|
  {
    && steps[k].ReserveCommit?
    && id in states[k + 1].rows
    && states[k + 1].rows[id].status == Submitting
    && HoldsPair(states[k + 1].rows[id], wallet, nonce)
  }

  lemma {:induction false} CommittedEarlier(states: seq<State>, steps: seq<Step>, i: nat, c: Commit) returns (k: nat)
    requires Run(states, steps) && i < |states|
    requires c in states[i].log.committed
    ensures k < i && CommitsAt(states, steps, k, c.id, c.wallet, c.nonce)
    ensures c !in states[k].log.committed && c in states[k + 1].log.committed
  {
    assert i > 0;
    if c in states[i - 1].log.committed {
      k := CommittedEarlier(states, steps, i - 1, c);
    } else {
      k := i - 1;
      assert StepAt(states, steps, k);
      assert steps[k].ReserveCommit?;
    }
  }

  /**
    Intent log, before the broadcast: a transaction on the wire uses a (wallet, nonce) pair that an
    earlier step had durably committed to its row.
   */
  lemma BroadcastWasCommitted(states: seq<State>, steps: seq<Step>, i: nat, h: Hash) returns (k: nat)
    requires Run(states, steps) && i < |states|
    requires h in states[i].chain.sent
    ensures var tx := states[i].chain.sent[h];
      k < i && CommitsAt(states, steps, k, tx.id, tx.wallet, tx.nonce)
  {
    RunInv(states, steps, i);
    var tx := states[i].chain.sent[h];
    k := CommittedEarlier(states, steps, i, Commit(tx.id, tx.wallet, tx.nonce));
  }

  /** At step k the cron fails the row, which holds the pair, on a mined revert of exactly that pair. */
  ghost predicate FailedOnRevert(states: seq<State>, steps: seq<Step>, k: nat, id: RowId, wallet: Wallet, nonce: nat)
    requires Run(states, steps) && k < |steps|
  {
    && steps[k].CronRefresh?
    && id in states[k].rows && states[k].rows[id].status == Submitted && HoldsPair(states[k].rows[id], wallet, nonce)
    && id in states[k + 1].rows && states[k + 1].rows[id].status == Failed
    && exists h :: MinedRevert(states[k].chain, h, id, wallet, nonce)
  }

  /** Behind every failed row that holds a pair is the step that failed it on a mined revert. */
  lemma {:induction false} FailedEarlier(states: seq<State>, steps: seq<Step>, i: nat, j: nat, id: RowId) returns (k: nat)
    requires Run(states, steps) && i <= j < |states|
    requires id in states[j].rows && states[j].rows[id].status == Failed && Holder(states[j].rows[id])
    ensures k < j && FailedOnRevert(states, steps, k, id, states[j].rows[id].wallet.value, states[j].rows[id].nonce.value)
    ensures id in states[i].rows && states[i].rows[id].status != Failed ==> i <= k
    decreases j
  {
    assert j > 0;
    if id !in states[j - 1].rows {
      RunNewRow(states, steps, j - 1, id);
      assert false;
    }
    RunMovesRow(states, steps, j - 1, id);
    if states[j - 1].rows[id].status == Failed {
      k := FailedEarlier(states, steps, if i < j then i else j - 1, j - 1, id);
    } else {
      k := j - 1;
    }
  }

  /** The third way out of a pair: the row was failed on a mined revert of it, after i if it was not failed at i. */
  ghost predicate GivenUpOnRevert(states: seq<State>, steps: seq<Step>, i: nat, j: nat, id: RowId, wallet: Wallet, nonce: nat)
    requires Run(states, steps) && i <= j < |states| && id in states[i].rows
  {
    exists k: nat :: k < j && FailedOnRevert(states, steps, k, id, wallet, nonce) && (states[i].rows[id].status != Failed ==> i <= k)
  }

  /** At j the row still holds the pair it held at i, or it is terminal, or was failed on a mined revert. */
  ghost predicate KeptSince(states: seq<State>, steps: seq<Step>, i: nat, j: nat, id: RowId)
    requires Run(states, steps) && i <= j < |states|
    requires id in states[i].rows && Holder(states[i].rows[id])
  {
    var wallet, nonce := states[i].rows[id].wallet.value, states[i].rows[id].nonce.value;
    && id in states[j].rows
    && (|| Terminal(states[j].rows[id])
        || HoldsPair(states[j].rows[id], wallet, nonce)
        || GivenUpOnRevert(states, steps, i, j, id, wallet, nonce))
  }

  /**
    Intent log, after the commit: whatever crashes and interleavings follow, the row keeps the pair
    until it is confirmed, dead-lettered, or failed by the cron on a mined revert of exactly that pair.
   */
  lemma {:induction false} PairIsKept(states: seq<State>, steps: seq<Step>, i: nat, j: nat, id: RowId)
    requires Run(states, steps) && i <= j < |states|
    requires id in states[i].rows && Holder(states[i].rows[id])
    ensures KeptSince(states, steps, i, j, id)
    decreases j
  {
    if i < j {
      PairIsKept(states, steps, i, j - 1, id);
      PairKeptStep(states, steps, i, j - 1, id);
    }
  }

  lemma PairKeptStep(states: seq<State>, steps: seq<Step>, i: nat, m: nat, id: RowId)
    requires Run(states, steps) && i <= m < |steps|
    requires id in states[i].rows && Holder(states[i].rows[id]) && KeptSince(states, steps, i, m, id)
    ensures KeptSince(states, steps, i, m + 1, id)
  {
    RunStepAdvances(states, steps, m);
    var wallet, nonce := states[i].rows[id].wallet.value, states[i].rows[id].nonce.value;
    if !Terminal(states[m].rows[id]) {
      if HoldsPair(states[m].rows[id], wallet, nonce) {
        PairLeftAt(states, steps, i, m, id);
      } else {
        GivenUpStays(states, steps, i, m, id, wallet, nonce);
      }
    }
  }

  lemma GivenUpStays(states: seq<State>, steps: seq<Step>, i: nat, m: nat, id: RowId, wallet: Wallet, nonce: nat)
    requires Run(states, steps) && i <= m < |steps| && id in states[i].rows
    requires GivenUpOnRevert(states, steps, i, m, id, wallet, nonce)
    ensures GivenUpOnRevert(states, steps, i, m + 1, id, wallet, nonce)
  {
    var k: nat :| k < m && FailedOnRevert(states, steps, k, id, wallet, nonce) && (states[i].rows[id].status != Failed ==> i <= k);
    assert FailedOnRevert(states, steps, k, id, wallet, nonce);
  }

  lemma PairLeftAt(states: seq<State>, steps: seq<Step>, i: nat, m: nat, id: RowId)
    requires Run(states, steps) && i <= m < |steps|
    requires id in states[i].rows && id in states[m].rows && !Terminal(states[m].rows[id])
    requires states[m].rows[id].wallet.Some? && states[m].rows[id].nonce.Some?
    ensures var r := states[m].rows[id];
      && id in states[m + 1].rows
      && (|| Terminal(states[m + 1].rows[id])
          || HoldsPair(states[m + 1].rows[id], r.wallet.value, r.nonce.value)
          || GivenUpOnRevert(states, steps, i, m + 1, id, r.wallet.value, r.nonce.value))
  {
    var r := states[m].rows[id];
    RunMovesRow(states, steps, m, id);
    if r.status == Failed {
      var k := FailedEarlier(states, steps, i, m, id);
      assert FailedOnRevert(states, steps, k, id, r.wallet.value, r.nonce.value);
    }
  }

  // ---- One nonce for two rows ----

  /** At k the row no longer stands in the way of its pair: dead-lettered, or off the pair by termination or revert. */
  ghost predicate Released(states: seq<State>, steps: seq<Step>, k: nat, id: RowId, wallet: Wallet, nonce: nat)
    requires Run(states, steps) && k < |states|
  {
    && id in states[k].rows
    && var r := states[k].rows[id];
    || r.status == DeadLetter
    || (&& !HoldsPair(r, wallet, nonce)
        && (r.status == Confirmed || exists m: nat :: m < k && FailedOnRevert(states, steps, m, id, wallet, nonce)))
  }

  /** When a pair is committed to a row, every row it was committed to earlier has been released from it. */
  lemma CommitAfterRelease(states: seq<State>, steps: seq<Step>, k: nat, c: Commit, earlier: Commit)
    requires Run(states, steps) && k < |steps| && CommitsAt(states, steps, k, c.id, c.wallet, c.nonce)
    requires c !in states[k].log.committed && c in states[k + 1].log.committed
    requires earlier in states[k].log.committed && earlier.id != c.id
    requires earlier.wallet == c.wallet && earlier.nonce == c.nonce
    requires c.id in states[k].rows && earlier.id in states[k].rows && states[k].rows[earlier.id].dst == states[k].rows[c.id].dst
    ensures Released(states, steps, k, earlier.id, c.wallet, c.nonce)
  {
    RunInv(states, steps, k);
    var s, r := states[k], states[k].rows[earlier.id];
    CommitterHolds(states, steps, k, c);
    assert RowOk(s.chain, s.log, earlier.id, r);
    assert !(Holder(r) && HoldsPair(r, c.wallet, c.nonce));
    if !Terminal(r) {
      var j := CommittedEarlier(states, steps, k, earlier);
      assert Holder(states[j + 1].rows[earlier.id]);
      PairIsKept(states, steps, j + 1, k, earlier.id);
    }
  }

  lemma CommitterHolds(states: seq<State>, steps: seq<Step>, k: nat, c: Commit)
    requires Run(states, steps) && k < |steps|
    requires c !in states[k].log.committed && c in states[k + 1].log.committed
    ensures c.id in states[k].rows && NonceUnheld(states[k].rows, c.wallet, states[k].rows[c.id].dst, c.nonce)
  {
    RunInv(states, steps, k);
    assert StepAt(states, steps, k);
    var s, at := states[k], At(states[k], steps[k].w);
    assert PointOk(at, s.rows[at.id], s.chain, s.log);
  }

  /**
    Two rows' transactions on one wallet, destination and nonce: at some earlier step the pair was
    committed to one of the rows when the other had been released from it.
   */
  lemma SharedWireNonce(states: seq<State>, steps: seq<Step>, i: nat, g: Hash, h: Hash) returns (k: nat)
    requires Run(states, steps) && i < |states| && g in states[i].chain.sent && h in states[i].chain.sent
    requires var a, b := states[i].chain.sent[g], states[i].chain.sent[h];
      a.id != b.id && a.wallet == b.wallet && a.dst == b.dst && a.nonce == b.nonce
    ensures var a, b := states[i].chain.sent[g], states[i].chain.sent[h];
      && k < i
      && (|| (CommitsAt(states, steps, k, a.id, a.wallet, a.nonce) && Released(states, steps, k, b.id, a.wallet, a.nonce))
          || (CommitsAt(states, steps, k, b.id, a.wallet, a.nonce) && Released(states, steps, k, a.id, a.wallet, a.nonce)))
  {
    RunInv(states, steps, i);
    var a, b := states[i].chain.sent[g], states[i].chain.sent[h];
    var c, d := Commit(a.id, a.wallet, a.nonce), Commit(b.id, b.wallet, b.nonce);
    var m := CommittedEarlier(states, steps, i, c);
    var n := CommittedEarlier(states, steps, i, d);
    if m < n {
      LaterCommit(states, steps, m, n, i, c, d);
      k := n;
    } else {
      OneCommitPerStep(states, steps, m, n, c, d);
      LaterCommit(states, steps, n, m, i, d, c);
      k := m;
    }
  }

  lemma OneCommitPerStep(states: seq<State>, steps: seq<Step>, m: nat, n: nat, c: Commit, d: Commit)
    requires Run(states, steps) && m < |steps| && n < |steps| && c != d
    requires c !in states[m].log.committed && c in states[m + 1].log.committed
    requires d !in states[n].log.committed && d in states[n + 1].log.committed
    ensures m != n
  {
    assert StepAt(states, steps, m);
  }

  lemma LaterCommit(states: seq<State>, steps: seq<Step>, m: nat, n: nat, i: nat, c: Commit, d: Commit)
    requires Run(states, steps) && m < n < i < |states|
    requires c in states[m + 1].log.committed && d !in states[n].log.committed && d in states[n + 1].log.committed
    requires CommitsAt(states, steps, n, d.id, d.wallet, d.nonce)
    requires c.id != d.id && c.wallet == d.wallet && c.nonce == d.nonce
    requires c.id in states[i].rows && d.id in states[i].rows && states[i].rows[c.id].dst == states[i].rows[d.id].dst
    ensures Released(states, steps, n, c.id, d.wallet, d.nonce)
  {
    RunInv(states, steps, n);
    RunAdvances(states, steps, m + 1, n);
    RunAdvances(states, steps, n, i);
    CommitterHolds(states, steps, n, d);
    CommitAfterRelease(states, steps, n, d, c);
  }

  // ---- Fresh reservations and the retry budget ----

  /** The step at k hands row id a fresh nonce. */
  ghost predicate ReservesAt(states: seq<State>, steps: seq<Step>, k: nat, id: RowId)
    requires Run(states, steps) && k < |steps|
  {
    assert StepAt(states, steps, k);
    && steps[k].ReserveCommit?
    && At(states[k], steps[k].w).id == id
    && states[k].rows[id].status != Confirmed && states[k].rows[id].status != DeadLetter
    && states[k].rows[id].status != Submitted
  }

  ghost function CountReservations(states: seq<State>, steps: seq<Step>, i: nat, id: RowId): nat
    requires Run(states, steps) && i < |states|
  {
    if i == 0 then 0
    else CountReservations(states, steps, i - 1, id) + (if ReservesAt(states, steps, i - 1, id) then 1 else 0)
  }

  lemma CountStep(states: seq<State>, steps: seq<Step>, k: nat, id: RowId)
    requires Run(states, steps) && k < |steps|
    ensures Reservations(states[k + 1].log, id) ==
      Reservations(states[k].log, id) + if ReservesAt(states, steps, k, id) then 1 else 0
  {
    assert StepAt(states, steps, k);
  }

  lemma {:induction false} CountIsLogged(states: seq<State>, steps: seq<Step>, i: nat, id: RowId)
    requires Run(states, steps) && i < |states|
    ensures CountReservations(states, steps, i, id) == Reservations(states[i].log, id)
  {
    if i > 0 {
      CountIsLogged(states, steps, i - 1, id);
      CountStep(states, steps, i - 1, id);
    }
  }

  /** A row is handed at most retry_count + 1 fresh nonces, and at most retry_count while it holds none for the next attempt. */
  lemma FreshNonceBound(states: seq<State>, steps: seq<Step>, i: nat, id: RowId)
    requires Run(states, steps) && i < |states| && id in states[i].rows
    ensures var r := states[i].rows[id];
      CountReservations(states, steps, i, id)
        <= r.retryCount + (if r.status == Pending || r.status == Failed then 0 else 1)
  {
    CountIsLogged(states, steps, i, id);
    RunInv(states, steps, i);
    assert RowOk(states[i].chain, states[i].log, id, states[i].rows[id]);
  }

  /** Somebody is about to dead-letter the row. */
  ghost predicate DeathPending(s: State, id: RowId) {
    s.cron.at == Burying(id) || exists w :: w in s.workers && s.workers[w] == Dying(id)
  }

  ghost predicate WithinBudget(s: State) {
    forall id | id in s.rows && !Terminal(s.rows[id]) && !DeathPending(s, id) ::
      s.rows[id].retryCount == 0 || s.rows[id].retryCount < s.rows[id].maxRetries
  }

  /** Without crashes, a pending burial is only discharged by burying the row. */
  lemma DeathStaysPending(s: State, step: Step, id: RowId)
    requires Enabled(s, step) && !IsCrash(step) && id in s.rows && DeathPending(s, id)
    ensures DeathPending(Apply(s, step), id) || Terminal(Apply(s, step).rows[id])
  {
    var s' := Apply(s, step);
    if s.cron.at != Burying(id) {
      var w :| w in s.workers && s.workers[w] == Dying(id);
      if !step.BuryRow? || step.w != w {
        assert w in s'.workers && s'.workers[w] == Dying(id);
      }
    }
  }

  /** A counted failure either leaves budget or announces the burial. */
  lemma CountedFailure(s: State, step: Step)
    requires Enabled(s, step) && (WritesRow(step) || step.ReserveCommit?)
    ensures var id, s' := TargetRow(s, step), Apply(s, step);
      && id in s.rows && id in s'.rows
      && (|| Terminal(s'.rows[id]) || DeathPending(s', id)
          || s'.rows[id].retryCount == s.rows[id].retryCount
          || s'.rows[id].retryCount < s'.rows[id].maxRetries)
  {
    var id, s' := TargetRow(s, step), Apply(s, step);
    if step.HandleFailure? {
      assert s'.workers[step.w] == Idle || s'.workers[step.w] == Dying(id);
    }
  }

  lemma StepWithinBudget(s: State, step: Step)
    requires WithinBudget(s) && Enabled(s, step) && !IsCrash(step)
    ensures WithinBudget(Apply(s, step))
  {
    var s' := Apply(s, step);
    StepAdvances(s, step);
    forall id | id in s'.rows && !Terminal(s'.rows[id]) && !DeathPending(s', id)
      ensures s'.rows[id].retryCount == 0 || s'.rows[id].retryCount < s'.rows[id].maxRetries
    {
      if id !in s.rows {
        NewRowsArePending(s, step, id);
      } else {
        if DeathPending(s, id) {
          DeathStaysPending(s, step, id);
        }
        if WritesRow(step) || step.ReserveCommit? {
          CountedFailure(s, step);
          WriteChangesOneRow(s, step);
        } else {
          OtherStepsKeepRows(s, step);
        }
      }
    }
  }

  lemma NewRowsArePending(s: State, step: Step, id: RowId)
    requires Enabled(s, step) && id !in s.rows && id in Apply(s, step).rows
    ensures Apply(s, step).rows[id].status == Pending && Apply(s, step).rows[id].retryCount == 0
  {
  }

  /** In runs without crashes, a row nobody is about to bury has spent none or not all of its budget. */
  lemma {:induction false} BudgetRespected(states: seq<State>, steps: seq<Step>, i: nat)
    requires Run(states, steps) && i < |states|
    requires forall k | 0 <= k < |steps| :: !IsCrash(steps[k])
    ensures WithinBudget(states[i])
  {
    if i > 0 {
      BudgetRespected(states, steps, i - 1);
      assert StepAt(states, steps, i - 1);
      StepWithinBudget(states[i - 1], steps[i - 1]);
    }
  }

  // ---- Contiguity ----

  /** A nonce becomes live by a reservation, or comes back on a row whose revert has mined. */
  lemma NewLiveNonce(s: State, step: Step, wallet: Wallet, chain: ChainId, n: nat)
    requires Inv(s) && Enabled(s, step)
    requires n in LiveNonces(Apply(s, step).rows, wallet, chain) && n !in LiveNonces(s.rows, wallet, chain)
    ensures || n < ChainNonce(s.chain, wallet, chain)
            || (step.ReserveCommit? && var at := At(s, step.w); at.wallet == wallet && at.rec.dst == chain && at.nonce == n)
  {
    var s' := Apply(s, step);
    var id :| id in s'.rows && Live(s'.rows[id]) && s'.rows[id].wallet.value == wallet && s'.rows[id].dst == chain
      && s'.rows[id].nonce.value == n;
    if id !in s.rows {
      NewRowsArePending(s, step, id);
    } else {
      StepAdvances(s, step);
      StepMovesRow(s, step, id);
      assert s.rows[id] != s'.rows[id] && s.rows[id].dst == chain;
      if step.ReserveCommit? {
        NewLiveByCommit(s, step, id);
      } else {
        NewLiveByMove(s, step, id, s'.rows[id]);
      }
    }
  }

  lemma NewLiveByMove(s: State, step: Step, id: RowId, r': Row)
    requires Inv(s) && id in s.rows && RowMove(s.chain, step, id, s.rows[id], r') && !step.ReserveCommit?
    requires Live(r') && !(Live(s.rows[id]) && SamePair(s.rows[id], r'))
    ensures r'.nonce.value < ChainNonce(s.chain, r'.wallet.value, s.rows[id].dst)
  {
    assert RowOk(s.chain, s.log, id, s.rows[id]);
    RevertedNonceIsMined(s, id);
  }

  lemma NewLiveByCommit(s: State, step: Step, id: RowId)
    requires Inv(s) && Enabled(s, step) && step.ReserveCommit?
    requires id in s.rows && id in Apply(s, step).rows && Apply(s, step).rows[id] != s.rows[id]
    ensures var at, r' := At(s, step.w), Apply(s, step).rows[id];
      r'.wallet == Some(at.wallet) && r'.nonce == Some(at.nonce) && r'.dst == at.rec.dst
  {
    var at := At(s, step.w);
    assert PointOk(at, s.rows[at.id], s.chain, s.log);
  }

  /** A failed row's nonce lies below the chain nonce. */
  lemma RevertedNonceIsMined(s: State, id: RowId)
    requires Inv(s) && id in s.rows
    ensures Holder(s.rows[id]) && s.rows[id].status == Failed ==>
      s.rows[id].nonce.value < ChainNonce(s.chain, s.rows[id].wallet.value, s.rows[id].dst)
  {
    assert RowOk(s.chain, s.log, id, s.rows[id]);
    if Holder(s.rows[id]) && s.rows[id].status == Failed {
      var c := Commit(id, s.rows[id].wallet.value, s.rows[id].nonce.value);
      assert s.log.reverted[c] in s.chain.mined;
    }
  }

  /** Committed nonces at or above the chain nonce form one block, also counting those being reserved. */
  ghost predicate OneBlock(s: State, wallet: Wallet, chain: ChainId) {
    var live, floor := LiveNonces(s.rows, wallet, chain), ChainNonce(s.chain, wallet, chain);
    && Contiguous(live, floor)
    && forall w | w in s.workers && s.workers[w].Reserving? && s.workers[w].wallet == wallet && s.workers[w].rec.dst == chain ::
         Contiguous(live + {s.workers[w].nonce}, floor)
  }

  /** No live nonce at or above the chain nonce is given up. */
  ghost predicate KeepsLiveNonces(s: State, s': State, wallet: Wallet, chain: ChainId) {
    forall n | n in LiveNonces(s.rows, wallet, chain) && n >= ChainNonce(s'.chain, wallet, chain) ::
      n in LiveNonces(s'.rows, wallet, chain)
  }

  /**
    A step that disturbs no block of this wallet: no live nonce at or above the chain nonce is given up,
    the pending nonce does not fall, and a reservation reads a chain nonce of now or earlier.
   */
  ghost predicate Orderly(s: State, step: Step, s': State, wallet: Wallet, chain: ChainId) {
    && KeepsLiveNonces(s, s', wallet, chain)
    && ChainNonce(s.chain, wallet, chain) <= ChainNonce(s'.chain, wallet, chain)
    && (step.ReserveRead? && step.wallet == wallet && At(s, step.w).Ready? && At(s, step.w).rec.dst == chain ==>
          step.snapshot <= ChainNonce(s.chain, wallet, chain))
  }

  /** Recording a mined revert is such a step: the nonce that leaves the live set lies below the chain nonce. */
  lemma RefreshIsOrderly(s: State, step: Step, wallet: Wallet, chain: ChainId)
    requires Inv(s) && Enabled(s, step) && step.CronRefresh?
    ensures Orderly(s, step, Apply(s, step), wallet, chain)
  {
    CronWriteChangesOneRow(s, step);
    RefreshMoves(s, step);
    RefreshedBelow(s, s.cron.at.id, s.cron.at.rec);
    LowNonceLeaves(s, Apply(s, step), s.cron.at.id, wallet, chain);
  }

  lemma LowNonceLeaves(s: State, s': State, id: RowId, wallet: Wallet, chain: ChainId)
    requires id in s.rows && id in s'.rows && s'.rows == s.rows[id := s'.rows[id]] && s'.chain == s.chain
    requires s'.rows[id] == s.rows[id]
      || (Live(s.rows[id]) ==> s.rows[id].nonce.value < ChainNonce(s.chain, s.rows[id].wallet.value, s.rows[id].dst))
    ensures KeepsLiveNonces(s, s', wallet, chain)
  {
    forall n | n in LiveNonces(s.rows, wallet, chain) && n >= ChainNonce(s'.chain, wallet, chain)
      ensures n in LiveNonces(s'.rows, wallet, chain)
    {
      var j :| j in s.rows && Live(s.rows[j]) && s.rows[j].wallet.value == wallet && s.rows[j].dst == chain && s.rows[j].nonce.value == n;
      assert s'.rows[j] == s.rows[j];
    }
  }

  lemma RefreshedBelow(s: State, id: RowId, rec: Row)
    requires Inv(s) && s.cron.at == Refreshing(id, rec)
    ensures id in s.rows && (!Terminal(s.rows[id]) ==>
      && Holder(s.rows[id])
      && s.rows[id].nonce.value < ChainNonce(s.chain, s.rows[id].wallet.value, s.rows[id].dst))
  {
    assert SnapOk(id, rec, s.rows[id], s.chain);
  }

  /** Growing the set below the floor, or raising the floor, keeps a block contiguous. */
  lemma ContiguousGrows(live: set<nat>, live': set<nat>, floor: nat, floor': nat)
    requires Contiguous(live, floor) && floor <= floor'
    requires forall n | n in live && n >= floor' :: n in live'
    requires forall n | n in live' && n !in live :: n < floor
    ensures Contiguous(live', floor')
  {
  }

  /** A worker that is reserving after a step was reserving the same nonce before, or just read it. */
  lemma ReservingSince(s: State, step: Step, w: WorkerId)
    requires Enabled(s, step)
    requires w in Apply(s, step).workers && Apply(s, step).workers[w].Reserving?
    ensures || (w in s.workers && s.workers[w] == Apply(s, step).workers[w])
            || (step.ReserveRead? && step.w == w)
  {
  }

  lemma StepKeepsOneBlock(s: State, step: Step, wallet: Wallet, chain: ChainId)
    requires Inv(s) && Enabled(s, step) && OneBlock(s, wallet, chain)
    requires Orderly(s, step, Apply(s, step), wallet, chain)
    ensures OneBlock(Apply(s, step), wallet, chain)
  {
    var s' := Apply(s, step);
    var live, live' := LiveNonces(s.rows, wallet, chain), LiveNonces(s'.rows, wallet, chain);
    var floor, floor' := ChainNonce(s.chain, wallet, chain), ChainNonce(s'.chain, wallet, chain);
    forall n | n in live' && n !in live
      ensures n < floor || (step.ReserveCommit? && At(s, step.w).wallet == wallet && At(s, step.w).rec.dst == chain && At(s, step.w).nonce == n)
    {
      NewLiveNonce(s, step, wallet, chain, n);
    }
    var commits := step.ReserveCommit? && At(s, step.w).wallet == wallet && At(s, step.w).rec.dst == chain;
    if commits && At(s, step.w).nonce in live' {
      ContiguousGrows(live + {At(s, step.w).nonce}, live', floor, floor');
    } else {
      ContiguousGrows(live, live', floor, floor');
    }
    forall w | w in s'.workers && s'.workers[w].Reserving? && s'.workers[w].wallet == wallet && s'.workers[w].rec.dst == chain
      ensures Contiguous(live' + {s'.workers[w].nonce}, floor')
    {
      ReservingSince(s, step, w);
      var m := s'.workers[w].nonce;
      if step.ReserveRead? && step.w == w {
        assert s'.rows == s.rows;
        ReserveKeepsContiguous(live, step.snapshot, floor);
      } else {
        assert commits && step.w != w ==> Excludes(s.workers[step.w], s.workers[w]);
        assert !commits;
        ContiguousGrows(live + {m}, live' + {m}, floor, floor');
      }
    }
  }

  /**
    In runs where no live nonce of a wallet at or above the chain nonce is given up, the pending nonce does
    not fall and every reservation reads an earlier chain nonce, the committed nonces at or above the chain nonce form one
    contiguous block that starts there.
   */
  lemma {:induction false} CommittedNoncesContiguous(states: seq<State>, steps: seq<Step>, i: nat, wallet: Wallet, chain: ChainId)
    requires Run(states, steps) && i < |states|
    requires forall k | 0 <= k < |steps| :: Orderly(states[k], steps[k], states[k + 1], wallet, chain)
    ensures OneBlock(states[i], wallet, chain)
  {
    if i > 0 {
      CommittedNoncesContiguous(states, steps, i - 1, wallet, chain);
      RunInv(states, steps, i - 1);
      assert StepAt(states, steps, i - 1) && Orderly(states[i - 1], steps[i - 1], states[i - 1 + 1], wallet, chain);
      StepKeepsOneBlock(states[i - 1], steps[i - 1], wallet, chain);
    }
  }
}
