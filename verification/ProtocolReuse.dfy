/**
  Nonces that come back: what a termination that releases a nonce leaves possible, and how a stale chain
  nonce makes the allocator hand out one that has already mined.
 */
module ProtocolReuse {
  import opened Basics
  import opened Rows
  import opened WalletPool
  import opened Protocol
  import opened ProtocolInvariant
  import opened ProtocolTheorems
  import opened ProtocolLimits

  // ---- A termination that releases the nonce ----

  predicate Terminates(step: Step) {
    step.ConfirmConsumed? || step.BuryRow? || step.CronConfirm? || step.CronBury?
  }

  /**
    The step terminates a row that holds a pair in such a way that the allocator no longer counts its
    nonce: the row is dead-lettered, or it has no relay hash and its nonce is cleared.
   */
  ghost predicate Releases(s: State, step: Step, id: RowId) {
    && Enabled(s, step) && Terminates(step) && id == TargetRow(s, step)
    && id in s.rows && !Terminal(s.rows[id]) && Holder(s.rows[id])
    && (step.BuryRow? || step.CronBury? || s.rows[id].hash.None?)
  }

  /** A worker of the row has the pair in hand. */
  ghost predicate RowHolds(workers: map<WorkerId, WorkerAt>, id: RowId, wallet: Wallet, chain: ChainId, nonce: nat) {
    exists w :: w in workers && workers[w] != Idle && workers[w].id == id && !NotInHand(workers[w], wallet, chain, nonce)
  }

  predicate BeforeBroadcast(at: WorkerAt) {
    at.Loaded? || at.Ready? || at.Reserving? || at.Secured?
  }

  /** The row is terminal and nobody is on the way to a broadcast for it. */
  ghost predicate Quiet(s: State, id: RowId) {
    && id in s.rows && Terminal(s.rows[id])
    && forall w | w in s.workers && BeforeBroadcast(s.workers[w]) :: s.workers[w].id != id
  }

  lemma ReleaseEffect(s: State, step: Step, id: RowId)
    requires Releases(s, step, id)
    ensures var t := Apply(s, step);
      && id in t.rows && t.rows == s.rows[id := t.rows[id]] && Terminal(t.rows[id]) && !Holder(t.rows[id])
      && t.chain == s.chain
  {
  }

  lemma ReleaseKeepsHands(s: State, step: Step, id: RowId, wallet: Wallet, chain: ChainId, nonce: nat)
    requires Releases(s, step, id)
    ensures forall w | w in Apply(s, step).workers && BeforeBroadcast(Apply(s, step).workers[w]) ::
      w in s.workers && s.workers[w] == Apply(s, step).workers[w]
    ensures RowHolds(s.workers, id, wallet, chain, nonce) ==> RowHolds(Apply(s, step).workers, id, wallet, chain, nonce)
  {
    var t := Apply(s, step);
    if RowHolds(s.workers, id, wallet, chain, nonce) {
      var w :| w in s.workers && s.workers[w] != Idle && s.workers[w].id == id && !NotInHand(s.workers[w], wallet, chain, nonce);
      assert w in t.workers && t.workers[w] == s.workers[w];
    }
  }

  /** Before the termination, a worker on the way to a broadcast for the row has exactly its pair in hand. */
  lemma OnTheWayHolds(s: State, id: RowId, w: WorkerId)
    requires Inv(s) && id in s.rows && !Terminal(s.rows[id]) && Holder(s.rows[id]) && s.rows[id].status != Failed
    requires w in s.workers && BeforeBroadcast(s.workers[w]) && s.workers[w].id == id
    ensures !NotInHand(s.workers[w], s.rows[id].wallet.value, s.rows[id].dst, s.rows[id].nonce.value)
  {
    assert RowOk(s.chain, s.log, id, s.rows[id]);
    assert PointOk(s.workers[w], s.rows[id], s.chain, s.log);
  }

  /** A failed row that holds a pair has a mined transaction on it. */
  lemma FailedHasSent(s: State, id: RowId)
    requires Inv(s) && id in s.rows && Holder(s.rows[id]) && s.rows[id].status == Failed
    ensures RowSent(s, id, s.rows[id].wallet.value, s.rows[id].dst, s.rows[id].nonce.value)
  {
    var r := s.rows[id];
    assert RowOk(s.chain, s.log, id, r);
    assert Carries(s.chain.sent[s.log.reverted[Commit(id, r.wallet.value, r.nonce.value)]], r.wallet.value, r.dst, r.nonce.value);
  }

  lemma ReleasedIsQuiet(s: State, step: Step, id: RowId)
    requires Inv(s) && Releases(s, step, id)
    requires !RowSent(s, id, s.rows[id].wallet.value, s.rows[id].dst, s.rows[id].nonce.value)
    requires !RowHolds(s.workers, id, s.rows[id].wallet.value, s.rows[id].dst, s.rows[id].nonce.value)
    ensures Quiet(Apply(s, step), id)
  {
    var t := Apply(s, step);
    ReleaseEffect(s, step, id);
    ReleaseKeepsHands(s, step, id, s.rows[id].wallet.value, s.rows[id].dst, s.rows[id].nonce.value);
    if s.rows[id].status == Failed {
      FailedHasSent(s, id);
    }
    forall w | w in t.workers && BeforeBroadcast(t.workers[w])
      ensures t.workers[w].id != id
    {
      if s.workers[w].id == id {
        OnTheWayHolds(s, id, w);
      }
    }
  }

  // ---- A quiet row sends nothing more ----

  /** No step but Begin starts a worker on a row, and Begin leaves a terminal row alone. */
  lemma OnTheWaySince(s: State, step: Step, id: RowId, w: WorkerId)
    requires Enabled(s, step) && id in s.rows && Terminal(s.rows[id])
    requires w in Apply(s, step).workers && BeforeBroadcast(Apply(s, step).workers[w]) && Apply(s, step).workers[w].id == id
    ensures w in s.workers && BeforeBroadcast(s.workers[w]) && s.workers[w].id == id
  {
    if WorkerStep(step) {
      if step.w == w {
        OwnWaySince(s, step, id);
      } else {
        assert At(Apply(s, step), w) == At(s, w) by { OtherPoint(s, step, w); }
      }
    } else {
      EnvironmentKeepsPoints(s, step);
    }
  }

  lemma OwnWaySince(s: State, step: Step, id: RowId)
    requires Enabled(s, step) && WorkerStep(step) && id in s.rows && Terminal(s.rows[id])
    requires BeforeBroadcast(At(Apply(s, step), step.w)) && At(Apply(s, step), step.w).id == id
    ensures BeforeBroadcast(At(s, step.w)) && At(s, step.w).id == id
  {
  }

  lemma StepKeepsQuiet(s: State, step: Step, id: RowId)
    requires Enabled(s, step) && Quiet(s, id)
    ensures Quiet(Apply(s, step), id)
  {
    StepAdvances(s, step);
    var t := Apply(s, step);
    forall w | w in t.workers && BeforeBroadcast(t.workers[w])
      ensures t.workers[w].id != id
    {
      if t.workers[w].id == id {
        OnTheWaySince(s, step, id, w);
      }
    }
  }

  lemma QuietSendsNothing(s: State, step: Step, id: RowId, wallet: Wallet, chain: ChainId, nonce: nat)
    requires Enabled(s, step) && Quiet(s, id) && !RowSent(s, id, wallet, chain, nonce)
    ensures !RowSent(Apply(s, step), id, wallet, chain, nonce)
  {
    if RowSent(Apply(s, step), id, wallet, chain, nonce) {
      var h :| h in Apply(s, step).chain.sent && Apply(s, step).chain.sent[h].id == id && Carries(Apply(s, step).chain.sent[h], wallet, chain, nonce);
      SentSince(s, step, h);
    }
  }

  lemma SentSince(s: State, step: Step, h: Hash)
    requires Enabled(s, step) && h in Apply(s, step).chain.sent
    ensures (h in s.chain.sent && s.chain.sent[h] == Apply(s, step).chain.sent[h])
      || (step.Broadcast? && At(s, step.w).Secured? && Apply(s, step).chain.sent[h].id == At(s, step.w).id)
  {
  }

  lemma {:induction false} QuietAlong(states: seq<State>, steps: seq<Step>, s: State, t: State, i: nat,
                                      id: RowId, wallet: Wallet, chain: ChainId, nonce: nat)
    requires Path(states, steps, s, t) && i < |states| && Quiet(s, id) && !RowSent(s, id, wallet, chain, nonce)
    ensures Quiet(states[i], id) && !RowSent(states[i], id, wallet, chain, nonce)
  {
    if i > 0 {
      QuietAlong(states, steps, s, t, i - 1, id, wallet, chain, nonce);
      assert StepAt(states, steps, i - 1);
      StepKeepsQuiet(states[i - 1], steps[i - 1], id);
      QuietSendsNothing(states[i - 1], steps[i - 1], id, wallet, chain, nonce);
    }
  }

  lemma QuietForever(s: State, t: State, id: RowId, wallet: Wallet, chain: ChainId, nonce: nat)
    requires CanReach(s, t) && Quiet(s, id) && !RowSent(s, id, wallet, chain, nonce)
    ensures !RowSent(t, id, wallet, chain, nonce)
  {
    var states, steps :| Path(states, steps, s, t);
    QuietAlong(states, steps, s, t, |steps|, id, wallet, chain, nonce);
  }

  // ---- Who can still send for the row ----

  /** A worker of the row that has its pair in hand can send it after the termination. */
  lemma RowCanSend(s: State, step: Step, id: RowId) returns (u: State)
    requires Inv(s) && Releases(s, step, id)
    requires RowHolds(s.workers, id, s.rows[id].wallet.value, s.rows[id].dst, s.rows[id].nonce.value)
    ensures CanReach(Apply(s, step), u) && u.rows == Apply(s, step).rows
    ensures RowSent(u, id, s.rows[id].wallet.value, s.rows[id].dst, s.rows[id].nonce.value)
  {
    var wallet, chain, nonce := s.rows[id].wallet.value, s.rows[id].dst, s.rows[id].nonce.value;
    var t := Apply(s, step);
    ReleaseKeepsHands(s, step, id, wallet, chain, nonce);
    var w :| w in t.workers && t.workers[w] != Idle && t.workers[w].id == id && !NotInHand(t.workers[w], wallet, chain, nonce);
    ReachSelf(t);
    assert w in s.workers && s.workers[w] == t.workers[w];
    assert !s.workers[w].Reserving?;
    if At(t, w).Secured? {
      u := SecuredCanSend(t, t, w, wallet, chain, nonce);
    } else if At(t, w).Ready? {
      u := ReadyCanSend(t, t, w, wallet, chain, nonce);
    } else {
      u := LoadedCanSend(t, t, w, wallet, chain, nonce);
    }
  }

  /**
    After a termination that releases the row's nonce, no continuation puts a transaction of the row on
    that nonce if and only if the row has sent none and no worker of the row has the pair in hand.
   */
  lemma ReleasedNeverSentIff(s: State, step: Step, id: RowId)
    requires Reachable(s) && Releases(s, step, id)
    ensures var r, t := s.rows[id], Apply(s, step);
      var wallet, chain, nonce := r.wallet.value, r.dst, r.nonce.value;
      (forall u | CanReach(t, u) :: !RowSent(u, id, wallet, chain, nonce)) <==>
      (!RowSent(s, id, wallet, chain, nonce) && !RowHolds(s.workers, id, wallet, chain, nonce))
  {
    var r, t := s.rows[id], Apply(s, step);
    var wallet, chain, nonce := r.wallet.value, r.dst, r.nonce.value;
    ReachableInv(s);
    ReleaseEffect(s, step, id);
    ReachSelf(t);
    assert RowSent(t, id, wallet, chain, nonce) <==> RowSent(s, id, wallet, chain, nonce);
    if RowHolds(s.workers, id, wallet, chain, nonce) {
      var u := RowCanSend(s, step, id);
    } else if !RowSent(s, id, wallet, chain, nonce) {
      ReleasedIsQuiet(s, step, id);
      forall u | CanReach(t, u)
        ensures !RowSent(u, id, wallet, chain, nonce)
      {
        QuietForever(t, u, id, wallet, chain, nonce);
      }
    }
  }

  // ---- Another row on the released nonce ----

  lemma ReleasedIsUnheld(s: State, step: Step, id: RowId)
    requires Inv(s) && Releases(s, step, id)
    ensures NonceUnheld(Apply(s, step).rows, s.rows[id].wallet.value, s.rows[id].dst, s.rows[id].nonce.value)
  {
    ReleaseEffect(s, step, id);
    UnheldWithout(s.rows, Apply(s, step).rows, id);
  }

  lemma UnheldWithout(rows: map<RowId, Row>, rows': map<RowId, Row>, id: RowId)
    requires NoncesUnique(rows) && id in rows && Holder(rows[id]) && id in rows' && rows' == rows[id := rows'[id]] && !Holder(rows'[id])
    ensures NonceUnheld(rows', rows[id].wallet.value, rows[id].dst, rows[id].nonce.value)
  {
    forall j | j in rows' && Holder(rows'[j]) && rows'[j].wallet == rows[id].wallet && rows'[j].dst == rows[id].dst
      ensures rows'[j].nonce != rows[id].nonce
    {
      assert Apart(rows[j], rows[id]);
    }
  }

  /** Make the wallet's lock free: at most one worker holds it, and it may crash. */
  lemma Unlock(z: State, s: State, wallet: Wallet, chain: ChainId) returns (t: State)
    requires CanReach(z, s) && Inv(s)
    ensures CanReach(z, t) && Inv(t) && t.rows == s.rows && t.chain == s.chain && WalletUnlocked(t, wallet, chain)
  {
    t := s;
    if !WalletUnlocked(s, wallet, chain) {
      var v :| v in s.workers && s.workers[v].Reserving? && s.workers[v].wallet == wallet && s.workers[v].rec.dst == chain;
      ExtendPath(z, s, CrashWorker(v));
      t := Apply(s, CrashWorker(v));
      DetachInv(s, v);
    }
  }

  lemma NewRowLoads(z: State, s: State, w: WorkerId, id: RowId, row: Row)
    requires CanReach(z, s) && Inv(s) && w !in s.workers && id !in s.rows && row == NewRow(row.dst, 0, 1, 0)
    ensures CanReach(z, s.(rows := s.rows[id := row], workers := s.workers[w := Loaded(id, row, None)]))
  {
    ExtendPath(z, s, Begin(w, id, row.dst, 0, 1, None, 0));
  }

  lemma LoadedReserves(z: State, s: State, w: WorkerId, id: RowId, row: Row, wallet: Wallet, nonce: nat)
    requires CanReach(z, s) && w in s.workers && s.workers[w] == Loaded(id, row, None)
    requires WalletUnlocked(s, wallet, row.dst) && NonceUnheld(s.rows, wallet, row.dst, nonce)
    ensures CanReach(z, s.(workers := s.workers[w := Reserving(id, row, wallet, nonce)]))
  {
    ExtendPath(z, s, Prepare(w, PreparedReady));
    var ready := s.(workers := s.workers[w := Ready(id, row, None)]);
    assert Apply(s, Prepare(w, PreparedReady)) == ready;
    UnheldIsChosen(s.rows, wallet, row.dst, nonce);
    ExtendPath(z, ready, ReserveRead(w, wallet, nonce));
    assert ready.workers[w := Reserving(id, row, wallet, nonce)] == s.workers[w := Reserving(id, row, wallet, nonce)];
  }

  /** An unheld nonce, read as the chain nonce, is what the allocator hands out. */
  lemma UnheldIsChosen(rows: map<RowId, Row>, wallet: Wallet, chain: ChainId, nonce: nat)
    requires NonceUnheld(rows, wallet, chain, nonce)
    ensures SafeSnapshot(rows, wallet, chain, nonce) && ReserveNonce(LiveNonces(rows, wallet, chain), nonce) == nonce
  {
    assert nonce !in LiveNonces(rows, wallet, chain);
    ReserveNonceLaw(LiveNonces(rows, wallet, chain), nonce);
    SnapshotSafeIff(rows, wallet, chain, nonce);
  }

  lemma ReservingSends(z: State, s: State, w: WorkerId, id: RowId, row: Row, wallet: Wallet, nonce: nat) returns (u: State)
    requires CanReach(z, s) && w in s.workers && s.workers[w] == Reserving(id, row, wallet, nonce)
    requires id in s.rows && s.rows[id] == row && row.status == Pending
    ensures CanReach(z, u) && RowSent(u, id, wallet, row.dst, nonce)
    ensures forall h | h in s.chain.sent :: h in u.chain.sent && u.chain.sent[h] == s.chain.sent[h]
  {
    ExtendPath(z, s, ReserveCommit(w, 0, true));
    var secured := Apply(s, ReserveCommit(w, 0, true));
    assert At(secured, w) == Secured(id, row, wallet, nonce) && secured.chain == s.chain;
    var h := UnusedHash(s.chain.sent);
    ExtendPath(z, secured, Broadcast(w, h, true, None));
    u := Apply(secured, Broadcast(w, h, true, None));
    assert u.chain.sent == s.chain.sent[h := Tx(id, wallet, row.dst, nonce, row.vaa)];
    assert h in u.chain.sent && Carries(u.chain.sent[h], wallet, row.dst, nonce);
  }

  /** A row that does not exist yet can be given any nonce nobody holds, and send on it. */
  lemma AnotherRowSends(z: State, s: State, id: RowId, wallet: Wallet, chain: ChainId, nonce: nat) returns (u: State, other: RowId)
    requires CanReach(z, s) && Inv(s) && id in s.rows && NonceUnheld(s.rows, wallet, chain, nonce)
    ensures CanReach(z, u) && other != id && RowSent(u, other, wallet, chain, nonce)
    ensures forall h | h in s.chain.sent :: h in u.chain.sent && u.chain.sent[h] == s.chain.sent[h]
  {
    var t := Unlock(z, s, wallet, chain);
    var w, row := DbNext(t.workers.Keys), NewRow(chain, 0, 1, 0);
    other := DbNext(t.rows.Keys);
    assert w !in t.workers && other !in t.rows;
    NewRowLoads(z, t, w, other, row);
    var loaded := t.(rows := t.rows[other := row], workers := t.workers[w := Loaded(other, row, None)]);
    LoadedReserves(z, loaded, w, other, row, wallet, nonce);
    var reserving := loaded.(workers := loaded.workers[w := Reserving(other, row, wallet, nonce)]);
    u := ReservingSends(z, reserving, w, other, row, wallet, nonce);
  }

  /** The row's transaction and another row's are both on the nonce. */
  ghost predicate SharedWith(s: State, id: RowId, wallet: Wallet, chain: ChainId, nonce: nat) {
    RowSent(s, id, wallet, chain, nonce) && exists other :: other != id && RowSent(s, other, wallet, chain, nonce)
  }

  /**
    After a termination that releases the row's nonce, some continuation puts the row's transaction and
    another row's on that nonce if and only if the row has sent one already or a worker of the row has
    the pair in hand.
   */
  lemma ReleasedNonceSharedIff(s: State, step: Step, id: RowId)
    requires Reachable(s) && Releases(s, step, id)
    ensures var r, t := s.rows[id], Apply(s, step);
      var wallet, chain, nonce := r.wallet.value, r.dst, r.nonce.value;
      (exists u :: CanReach(t, u) && SharedWith(u, id, wallet, chain, nonce)) <==>
      (RowSent(s, id, wallet, chain, nonce) || RowHolds(s.workers, id, wallet, chain, nonce))
  {
    var r, t := s.rows[id], Apply(s, step);
    var wallet, chain, nonce := r.wallet.value, r.dst, r.nonce.value;
    ReachableInv(s);
    ReleasedNeverSentIff(s, step, id);
    if RowSent(s, id, wallet, chain, nonce) || RowHolds(s.workers, id, wallet, chain, nonce) {
      var u := ReleasedRowShares(s, step, id);
    }
  }

  lemma ReleasedRowShares(s: State, step: Step, id: RowId) returns (u: State)
    requires Inv(s) && Releases(s, step, id)
    requires var r := s.rows[id];
      RowSent(s, id, r.wallet.value, r.dst, r.nonce.value) || RowHolds(s.workers, id, r.wallet.value, r.dst, r.nonce.value)
    ensures CanReach(Apply(s, step), u)
    ensures SharedWith(u, id, s.rows[id].wallet.value, s.rows[id].dst, s.rows[id].nonce.value)
  {
    var t := Apply(s, step);
    var wallet, chain, nonce := s.rows[id].wallet.value, s.rows[id].dst, s.rows[id].nonce.value;
    ReleaseEffect(s, step, id);
    ReleasedIsUnheld(s, step, id);
    StepInv(s, step);
    var sent := t;
    if RowSent(s, id, wallet, chain, nonce) {
      ReachSelf(t);
      assert RowSent(t, id, wallet, chain, nonce);
    } else {
      sent := RowCanSend(s, step, id);
    }
    InvAlong(t, sent);
    var other;
    u, other := AnotherRowSends(t, sent, id, wallet, chain, nonce);
    StillSent(sent, u, id, wallet, chain, nonce);
  }

  lemma StillSent(s: State, u: State, id: RowId, wallet: Wallet, chain: ChainId, nonce: nat)
    requires RowSent(s, id, wallet, chain, nonce)
    requires forall h | h in s.chain.sent :: h in u.chain.sent && u.chain.sent[h] == s.chain.sent[h]
    ensures RowSent(u, id, wallet, chain, nonce)
  {
    var h :| h in s.chain.sent && s.chain.sent[h].id == id && Carries(s.chain.sent[h], wallet, chain, nonce);
    assert h in u.chain.sent;
  }

  // ---- Concrete runs ----

  /** The transaction goes out and the worker crashes before it can record the hash. */
  function SentUnrecorded(s: State, w: WorkerId, hash: Hash): State
    requires At(s, w).Secured?
  {
    s.(workers := s.workers[w := Idle], chain := s.chain.(sent := s.chain.sent[hash := TxOf(At(s, w))]))
  }

  lemma ReachSentUnrecorded(s: State, w: WorkerId, hash: Hash)
    requires Reachable(s) && At(s, w).Secured? && hash !in s.chain.sent
    ensures Reachable(SentUnrecorded(s, w, hash))
  {
    BroadcastAdds(s, w, hash);
    var t := Apply(s, Broadcast(w, hash, true, None));
    ReachStep(t, CrashWorker(w));
    assert t.workers[w := Idle] == s.workers[w := Idle];
    assert Apply(t, CrashWorker(w)) == SentUnrecorded(s, w, hash);
  }

  /** The row is terminal without a nonce, its transaction is on the wire, and no worker has the pair in hand. */
  ghost predicate ClearedOnWire(s: State, id: RowId, wallet: Wallet, chain: ChainId, nonce: nat) {
    && id in s.rows && Terminal(s.rows[id]) && s.rows[id].nonce.None?
    && RowSent(s, id, wallet, chain, nonce) && NobodyHolds(s.workers, wallet, chain, nonce)
  }

  /** A nonce that was broadcast is cleared as if it never had been. */
  lemma WireNonceMayBeCleared()
    ensures exists s, id, wallet, chain, nonce :: Reachable(s) && ClearedOnWire(s, id, wallet, chain, nonce)
  {
    ReachRival();
    var s := SentUnrecorded(Rival(), 1, 8);
    ReachSentUnrecorded(Rival(), 1, 8);
    ReachBuried(s, 1);
    var t := Buried(s, 1);
    assert 8 in t.chain.sent && t.chain.sent[8].id == 1 && Carries(t.chain.sent[8], WALLET, DST, 1);
    assert ClearedOnWire(t, 1, WALLET, DST, 1);
  }

  /** A mined transaction already carries the nonce the allocator chooses from the older snapshot. */
  ghost predicate HandsOutSpent(s: State, wallet: Wallet, chain: ChainId, snapshot: nat) {
    && SafeSnapshot(s.rows, wallet, chain, snapshot) && snapshot < ChainNonce(s.chain, wallet, chain)
    && exists h :: h in s.chain.mined && h in s.chain.sent
         && Carries(s.chain.sent[h], wallet, chain, ReserveNonce(LiveNonces(s.rows, wallet, chain), snapshot))
  }

  function ConfirmedUnrecorded(): State {
    var s := SentUnrecorded(Committed(Start(), 0, 0, First(), 0), 0, 7);
    s.(rows := s.rows[0 := s.rows[0].(status := Confirmed, nonce := None)],
       chain := MineTx(s.chain, 7, SUCCESS))
  }

  lemma ReachConfirmedUnrecorded()
    ensures Reachable(ConfirmedUnrecorded())
  {
    ReachFirst();
    var c := Committed(Start(), 0, 0, First(), 0);
    ReachSentUnrecorded(c, 0, 7);
    var s := SentUnrecorded(c, 0, 7);
    ReachStep(s, Mine(7, SUCCESS));
    var mined := s.(chain := MineTx(s.chain, 7, SUCCESS));
    assert Apply(s, Mine(7, SUCCESS)) == mined;
    ReachFoundConsumed(mined, 0, 0);
    var found := mined.(workers := mined.workers[0 := FoundConsumed(0)]);
    ReachStep(found, ConfirmConsumed(0, 0));
    assert found.workers[0 := Idle] == mined.workers;
    assert Apply(found, ConfirmConsumed(0, 0)) == ConfirmedUnrecorded();
  }

  /** The row was confirmed before its hash was recorded, so its mined nonce was cleared. */
  lemma ClearedNonceHandedOutSpent()
    ensures exists s, wallet, chain, snapshot: nat :: Reachable(s) && HandsOutSpent(s, wallet, chain, snapshot)
  {
    ReachConfirmedUnrecorded();
    var s := ConfirmedUnrecorded();
    assert LiveNonces(s.rows, WALLET, DST) == {};
    DbNextUnique({}, 0);
    assert 7 in s.chain.mined && Carries(s.chain.sent[7], WALLET, DST, 0);
    assert HandsOutSpent(s, WALLET, DST, 0);
  }

  const DETERMINISTIC := Receipt(false, Some(1), Some(100))

  function BuriedOnRevert(): State {
    var s := Delivered(Committed(Start(), 0, 0, First(), 0), 0, 7);
    s.(rows := s.rows[0 := s.rows[0].(status := DeadLetter)], chain := MineTx(s.chain, 7, DETERMINISTIC))
  }

  lemma ReachBuriedOnRevert()
    ensures Reachable(BuriedOnRevert())
  {
    ReachFirst();
    var c := Committed(Start(), 0, 0, First(), 0);
    ReachDelivered(c, 0, 7);
    var s := Delivered(c, 0, 7);
    ReachStep(s, Mine(7, DETERMINISTIC));
    var mined := s.(chain := MineTx(s.chain, 7, DETERMINISTIC));
    assert Apply(s, Mine(7, DETERMINISTIC)) == mined;
    ReachSelected(mined, 0);
    BuryOnReceipt(mined, 0);
    assert mined.rows[0 := mined.rows[0].(status := DeadLetter, updatedAt := 0)] == BuriedOnRevert().rows;
  }

  lemma BuryOnReceipt(s: State, id: RowId)
    requires id in s.rows && s.rows[id].status == Submitted && s.rows[id].hash.Some? && s.cron == Cron(map[], Scanning)
    requires s.rows[id].hash.value in s.chain.mined && s.chain.mined[s.rows[id].hash.value] == DETERMINISTIC
    requires Reachable(s.(cron := Cron(map[id := s.rows[id]], Scanning)))
    ensures Reachable(s.(rows := s.rows[id := s.rows[id].(status := DeadLetter, updatedAt := 0)]))
  {
    var selected := s.(cron := Cron(map[id := s.rows[id]], Scanning));
    ReachStep(selected, CronReceipt(id));
    var burying := s.(cron := Cron(map[], Burying(id)));
    assert selected.cron.snaps - {id} == map[];
    assert Apply(selected, CronReceipt(id)) == burying;
    ReachStep(burying, CronBury(0));
    assert Apply(burying, CronBury(0)) == s.(rows := s.rows[id := s.rows[id].(status := DeadLetter, updatedAt := 0)]);
  }

  /** The row was dead-lettered on a mined revert, and the allocator does not count that status. */
  lemma BuriedNonceHandedOutSpent()
    ensures exists s, id, wallet, chain, snapshot: nat ::
      Reachable(s) && HandsOutSpent(s, wallet, chain, snapshot) && id in s.rows && s.rows[id].status == DeadLetter && s.rows[id].nonce == Some(snapshot)
  {
    ReachBuriedOnRevert();
    var s := BuriedOnRevert();
    assert LiveNonces(s.rows, WALLET, DST) == {};
    DbNextUnique({}, 0);
    assert 7 in s.chain.mined && Carries(s.chain.sent[7], WALLET, DST, 0);
    assert HandsOutSpent(s, WALLET, DST, 0) && s.rows[0].nonce == Some(0);
  }
}
