/**
  The worker's delivery routine as imperative code over the shared state, with the other parties
  free to act at every await point.
 */
module Worker {
  import opened Basics
  import opened Rows
  import opened WalletPool
  import opened Protocol
  import opened ProtocolInvariant
  import opened ProtocolTheorems

  /** What happens to the queue message in the end. */
  datatype Disposal = Skipped | Acked | Nacked | DeadLettered

  datatype Message = Message(id: RowId, dst: ChainId, vaa: VaaId, replace: Option<nat>)

  datatype LeaseAnswer = NoLease(failure: Failure) | Leased(wallet: Wallet, snapshot: nat)

  datatype BroadcastAnswer = BroadcastAnswer(hash: Hash, reached: bool, problem: Option<Failure>)

  /** The outside world as it answers at the moment it is asked. */
  datatype World = World(
    prepare: State -> PrepareOutcome,
    walletKnown: State -> bool,
    lease: State -> LeaseAnswer,
    acknowledged: State -> bool,
    broadcast: State -> BroadcastAnswer,
    expired: State -> bool,
    now: State -> int)

  /** The environment hypotheses: a consumed answer is true, a lease holds the lock and its snapshot is safe. */
  ghost predicate Truthful(world: World, w: WorkerId) {
    && (forall s: State :: At(s, w).Loaded? ==> Enabled(s, Prepare(w, world.prepare(s))))
    && (forall s: State :: At(s, w).Ready? && At(s, w).resubmit.None? && world.lease(s).Leased? ==>
          Enabled(s, ReserveRead(w, world.lease(s).wallet, world.lease(s).snapshot)))
    && (forall s: State :: At(s, w).Secured? ==>
          Enabled(s, Broadcast(w, world.broadcast(s).hash, world.broadcast(s).reached, world.broadcast(s).problem)))
  }

  predicate ByWorker(step: Step, w: WorkerId) {
    WorkerStep(step) && step.w == w
  }

  /** A row that does not depend on the message just acknowledged. */
  predicate Settled(r: Row) {
    r.status != Pending && r.status != Submitting
  }

  // ---- What is expected of the failure handlers, in statuses and counts ----

  /** The retry that this failure costs is the last one, or the row can no longer be marked failed. */
  predicate LastAttempt(r: Row) {
    (r.status != Pending && r.status != Submitted && r.status != Failed) || r.retryCount + 1 >= r.maxRetries
  }

  /** Before a nonce is committed: permanent errors, expired defers and exhausted budgets are given up. */
  function FreshVerdict(failure: Failure, expired: bool, r: Row): Disposal {
    match failure
    case WalletsBusy => Nacked
    case Defer => if expired then DeadLettered else Nacked
    case Permanent => DeadLettered
    case Retriable => if LastAttempt(r) then DeadLettered else Nacked
  }

  /** After a nonce is committed: a row that moved on is left alone, a defer never costs an attempt. */
  function CommittedVerdict(failure: Failure, r: Row): Disposal {
    match failure
    case Permanent => DeadLettered
    case Defer => Nacked
    case _ =>
      if r.status != Submitting && r.status != Submitted then Acked
      else if r.retryCount + 1 >= r.maxRetries then DeadLettered
      else Nacked
  }

  function Verdict(at: WorkerAt, expired: bool, r: Row): Disposal
    requires at.Failing?
  {
    if at.committed then CommittedVerdict(at.failure, r) else FreshVerdict(at.failure, expired, r)
  }

  /** The attempt is counted on the row. */
  predicate Counts(at: WorkerAt, expired: bool, r: Row)
    requires at.Failing?
  {
    if at.committed then
      !at.failure.Permanent? && !at.failure.Defer? && (r.status == Submitting || r.status == Submitted)
    else
      && (at.failure.Permanent? || at.failure.Retriable? || (at.failure.Defer? && expired))
      && (r.status == Pending || r.status == Submitted || r.status == Failed)
  }

  /** The row only gets the current time. */
  predicate Touches(at: WorkerAt, expired: bool, r: Row)
    requires at.Failing?
  {
    && r.status != Confirmed && r.status != DeadLetter
    && (if at.committed then at.failure.Defer? else at.failure.WalletsBusy? || (at.failure.Defer? && !expired))
  }

  function RowAfter(at: WorkerAt, expired: bool, r: Row, now: int): Row
    requires at.Failing?
  {
    if Counts(at, expired, r) then
      r.(status := if at.committed then r.status else Failed, retryCount := r.retryCount + 1, updatedAt := now)
    else if Touches(at, expired, r) then r.(updatedAt := now)
    else r
  }

  lemma FreshFailureTable(s: State, w: WorkerId, at: WorkerAt, expired: bool, now: int)
    requires at.Failing? && !at.committed && at.id in s.rows
    ensures var t, r := ApplyDeliveryFailure(s, w, at.id, at.failure, expired, now), s.rows[at.id];
      && t.rows == s.rows[at.id := RowAfter(at, expired, r, now)]
      && At(t, w) == if FreshVerdict(at.failure, expired, r) == DeadLettered then Dying(at.id) else Idle
  {
    assert s.rows == s.rows[at.id := s.rows[at.id]];
  }

  lemma CommittedFailureTable(s: State, w: WorkerId, at: WorkerAt, expired: bool, now: int)
    requires at.Failing? && at.committed && at.id in s.rows
    ensures var t, r := ApplySubmittingFailure(s, w, at.id, at.failure, now), s.rows[at.id];
      && t.rows == s.rows[at.id := RowAfter(at, expired, r, now)]
      && At(t, w) == if CommittedVerdict(at.failure, r) == DeadLettered then Dying(at.id) else Idle
  {
    assert s.rows == s.rows[at.id := s.rows[at.id]];
  }

  /** Both failure handlers, for every failure, row and budget. */
  lemma FailureTable(s: State, w: WorkerId, expired: bool, now: int)
    requires Enabled(s, HandleFailure(w, expired, now))
    ensures var t, at := Apply(s, HandleFailure(w, expired, now)), At(s, w);
      && t.rows == s.rows[at.id := RowAfter(at, expired, s.rows[at.id], now)]
      && At(t, w) == if Verdict(at, expired, s.rows[at.id]) == DeadLettered then Dying(at.id) else Idle
  {
    var at := At(s, w);
    if at.committed {
      CommittedFailureTable(s, w, at, expired, now);
    } else {
      FreshFailureTable(s, w, at, expired, now);
    }
  }

  // ---- What is expected of the guards at the start of a delivery ----

  /** Final rows, submitted rows without a request to replace, and requests for a nonce the row does not hold. */
  predicate Skips(r: Row, replace: Option<nat>) {
    match replace
    case None => r.status == Confirmed || r.status == DeadLetter || r.status == Submitted
    case Some(n) => r.status == Confirmed || r.status == DeadLetter || r.nonce != Some(n)
  }

  /** A nonce asked for is reused, else the one a crashed attempt committed, on the wallet the row names. */
  function ReusedNonce(r: Row, replace: Option<nat>): Option<nat> {
    match (r.wallet, replace)
    case (None, _) => None
    case (Some(_), Some(n)) => Some(n)
    case (Some(_), None) => if r.status == Submitting then r.nonce else None
  }

  lemma BeginTable(s: State, w: WorkerId, m: Message, maxRetries: int, now: int)
    requires Enabled(s, Begin(w, m.id, m.dst, m.vaa, maxRetries, m.replace, now))
    ensures var t := Apply(s, Begin(w, m.id, m.dst, m.vaa, maxRetries, m.replace, now));
      && m.id in t.rows && t.rows == s.rows[m.id := t.rows[m.id]]
      && (m.id in s.rows ==> t.rows[m.id] == s.rows[m.id])
      && (Skips(t.rows[m.id], m.replace) ==> At(t, w) == Idle)
      && (!Skips(t.rows[m.id], m.replace) ==>
            && At(t, w).Loaded? && At(t, w).id == m.id && At(t, w).rec == t.rows[m.id]
            && At(t, w).resubmit == ReusedNonce(t.rows[m.id], m.replace))
  {
    assert m.id in s.rows ==> s.rows == s.rows[m.id := s.rows[m.id]];
  }

  /** With Shape, the wallet of a reused nonce is always known; so the nonce asked for is the one reused. */
  lemma ReuseTable(r: Row, replace: Option<nat>)
    requires !Skips(r, replace) && Shape(r)
    ensures ReusedNonce(r, replace).Some? <==> replace.Some? || r.status == Submitting
    ensures ReusedNonce(r, replace).Some? ==> r.wallet.Some? && r.nonce == ReusedNonce(r, replace)
    ensures ReusedNonce(r, replace).None? ==> r.status == Pending || r.status == Failed
  {
  }

  /** The row got this status, unless it was final already. */
  predicate Final(r: Row, r': Row, status: Status) {
    if r.status == Confirmed || r.status == DeadLetter then r' == r else r'.status == status
  }

  class Relayer {
    var state: State
    ghost var states: seq<State>
    ghost var steps: seq<Step>

    ghost predicate Valid()
      reads this
    {
      Run(states, steps) && states[|states| - 1] == state
    }

    constructor (s: State)
      requires Init(s)
      ensures Valid() && state == s && steps == []
    {
      state, states, steps := s, [s], [];
    }

    /** One atomic step. */
    method Do(step: Step)
      requires Valid() && Enabled(state, step)
      modifies this
      ensures Valid() && state == Apply(old(state), step)
      ensures states == old(states) + [state] && steps == old(steps) + [step]
    {
      RunExtends(states, steps, step);
      state := Apply(state, step);
      states, steps := states + [state], steps + [step];
    }

    /** Everybody but worker w acts, in any order and as often as the schedule says. */
    method Others(w: WorkerId, schedule: seq<Step>)
      requires Valid()
      modifies this
      ensures Valid() && old(steps) <= steps && old(states) <= states
      ensures At(state, w) == old(At(state, w))
    {
      for i := 0 to |schedule|
        invariant Valid() && old(steps) <= steps && old(states) <= states
        invariant At(state, w) == old(At(state, w))
      {
        var step := schedule[i];
        if Enabled(state, step) && !ByWorker(step, w) {
          OthersKeepPoint(state, step, w);
          Do(step);
        }
      }
    }

    /** Acquire the message lock, or leave the message to its holder. */
    method HandleDelivery(w: WorkerId, m: Message, maxRetries: int, world: World, others: nat -> seq<Step>)
      returns (disposal: Disposal)
      requires Valid() && At(state, w) == Idle && Truthful(world, w)
      modifies this
      ensures Valid() && old(steps) <= steps && At(state, w) == Idle
      ensures disposal == DeadLettered ==> m.id in state.rows && Terminal(state.rows[m.id])
      ensures disposal == Acked && m.replace.None? ==> m.id in state.rows && Settled(state.rows[m.id])
      ensures disposal == Skipped ==> exists v :: v in state.workers && v != w && state.workers[v] != Idle && state.workers[v].id == m.id
      ensures disposal != Skipped ==> exists k :: |old(steps)| <= k < |steps| && steps[k].Begin? && steps[k].w == w && steps[k].id == m.id
    {
      Others(w, others(0));
      if MessageUnlocked(state, m.id) {
        disposal := ProcessDelivery(w, m, maxRetries, world, others);
      } else {
        disposal := Skipped;
      }
    }

    method ProcessDelivery(w: WorkerId, m: Message, maxRetries: int, world: World, others: nat -> seq<Step>)
      returns (disposal: Disposal)
      requires Valid() && At(state, w) == Idle && MessageUnlocked(state, m.id) && Truthful(world, w)
      modifies this
      ensures Valid() && old(steps) <= steps && At(state, w) == Idle
      ensures disposal == DeadLettered ==> m.id in state.rows && Terminal(state.rows[m.id])
      ensures disposal == Acked && m.replace.None? ==> m.id in state.rows && Settled(state.rows[m.id])
      ensures disposal != Skipped && |steps| > |old(steps)|
      ensures steps[|old(steps)|].Begin? && steps[|old(steps)|].w == w && steps[|old(steps)|].id == m.id
    {
      Load(w, m, maxRetries, world);
      if At(state, w) == Idle {
        return Acked;
      }
      disposal := Attempt(w, world, others);
    }

    /** Everything after the guards: prepare, confirm or transmit, conclude. */
    method Attempt(w: WorkerId, world: World, others: nat -> seq<Step>) returns (disposal: Disposal)
      requires Valid() && At(state, w).Loaded? && Truthful(world, w)
      modifies this
      ensures Valid() && old(steps) <= steps && At(state, w) == Idle && disposal != Skipped
      ensures old(At(state, w)).id in state.rows
      ensures disposal == DeadLettered ==> Terminal(state.rows[old(At(state, w)).id])
      ensures disposal == Acked ==> Settled(state.rows[old(At(state, w)).id])
    {
      Others(w, others(1));
      Prepared(w, world);
      Others(w, others(2));
      if At(state, w).FoundConsumed? {
        RecordConfirmed(w, world);
        return Acked;
      }
      if At(state, w).Ready? {
        Transmit(w, world, others);
      }
      disposal := Conclude(w, world, others);
    }

    /** Phase 2: secure a nonce, then broadcast. */
    method Transmit(w: WorkerId, world: World, others: nat -> seq<Step>)
      requires Valid() && At(state, w).Ready? && Truthful(world, w)
      modifies this
      ensures Valid() && old(steps) <= steps
      ensures At(state, w).Sent? || At(state, w).Failing?
      ensures At(state, w).id == old(At(state, w)).id
    {
      SecureNonce(w, world, others);
      Others(w, others(4));
      if At(state, w).Secured? {
        Send(w, world);
      }
    }

    /** Record the hash of a sent transaction, or route the failure. */
    method Conclude(w: WorkerId, world: World, others: nat -> seq<Step>) returns (disposal: Disposal)
      requires Valid() && (At(state, w).Sent? || At(state, w).Failing?)
      modifies this
      ensures Valid() && old(steps) <= steps && At(state, w) == Idle && disposal != Skipped
      ensures old(At(state, w)).id in state.rows
      ensures disposal == DeadLettered ==> Terminal(state.rows[old(At(state, w)).id])
      ensures disposal == Acked ==> Settled(state.rows[old(At(state, w)).id])
    {
      Others(w, others(5));
      if At(state, w).Sent? {
        RecordSent(w, world);
        return Acked;
      }
      ghost var k;
      disposal, k := RouteFailure(w, world, others);
    }

    /** Find or insert the row, then the idempotency and stale-replacement guards. */
    method Load(w: WorkerId, m: Message, maxRetries: int, world: World)
      requires Valid() && At(state, w) == Idle && MessageUnlocked(state, m.id)
      modifies this
      ensures Valid() && old(steps) <= steps && m.id in state.rows
      ensures state.rows == old(state).rows[m.id := state.rows[m.id]]
      ensures m.id in old(state).rows ==> state.rows[m.id] == old(state).rows[m.id]
      ensures At(state, w) == Idle <==> Skips(state.rows[m.id], m.replace)
      ensures At(state, w) == Idle && m.replace.None? ==> Settled(state.rows[m.id])
      ensures At(state, w) != Idle ==> At(state, w) == Loaded(m.id, state.rows[m.id], ReusedNonce(state.rows[m.id], m.replace))
      ensures steps == old(steps) + [Begin(w, m.id, m.dst, m.vaa, maxRetries, m.replace, world.now(old(state)))]
    {
      BeginTable(state, w, m, maxRetries, world.now(state));
      Do(Begin(w, m.id, m.dst, m.vaa, maxRetries, m.replace, world.now(state)));
    }

    /** Phase 1: prepare, no wallet held. */
    method Prepared(w: WorkerId, world: World)
      requires Valid() && At(state, w).Loaded? && Truthful(world, w)
      modifies this
      ensures Valid() && old(steps) <= steps
      ensures state.rows == old(state).rows && state.chain == old(state).chain
      ensures var at := old(At(state, w));
        match world.prepare(old(state))
        case PreparedReady => At(state, w) == Ready(at.id, at.rec, at.resubmit)
        case AlreadyConsumed => At(state, w) == FoundConsumed(at.id)
        case PrepareFailed(failure) => At(state, w) == Failing(at.id, at.resubmit.Some?, failure)
      ensures steps == old(steps) + [Prepare(w, world.prepare(old(state)))]
    {
      Do(Prepare(w, world.prepare(state)));
    }

    method RecordConfirmed(w: WorkerId, world: World)
      requires Valid() && At(state, w).FoundConsumed?
      modifies this
      ensures Valid() && old(steps) <= steps && At(state, w) == Idle
      ensures old(At(state, w)).id in state.rows && Terminal(state.rows[old(At(state, w)).id])
      ensures old(At(state, w)).id in old(state).rows && Final(old(state).rows[old(At(state, w)).id], state.rows[old(At(state, w)).id], Confirmed)
      ensures steps == old(steps) + [ConfirmConsumed(w, world.now(old(state)))]
    {
      RowExists(w);
      Do(ConfirmConsumed(w, world.now(state)));
    }

    /** Phase 2a: reuse the committed nonce, or reserve and commit a fresh one before broadcasting. */
    method SecureNonce(w: WorkerId, world: World, others: nat -> seq<Step>)
      requires Valid() && At(state, w).Ready? && Truthful(world, w)
      modifies this
      ensures Valid() && old(steps) <= steps
      ensures At(state, w).Secured? || At(state, w).Failing?
      ensures At(state, w).id == old(At(state, w)).id
      ensures At(state, w).Secured? ==> Commit(At(state, w).id, At(state, w).wallet, At(state, w).nonce) in state.log.committed
      ensures At(state, w).Failing? ==> (At(state, w).committed <==> old(At(state, w)).resubmit.Some?)
      ensures old(At(state, w)).resubmit.Some? ==> state.rows == old(state).rows && (At(state, w).Secured? <==> world.walletKnown(old(state)))
      ensures old(At(state, w)).resubmit.Some? && At(state, w).Failing? ==> At(state, w) == Failing(old(At(state, w)).id, true, Retriable)
      ensures old(At(state, w)).resubmit.None? && world.lease(old(state)).NoLease? ==>
        At(state, w) == Failing(old(At(state, w)).id, false, world.lease(old(state)).failure) && state.rows == old(state).rows
      ensures old(At(state, w)).resubmit.Some? && At(state, w).Secured? ==>
        old(At(state, w)).rec.wallet == Some(At(state, w).wallet) && old(At(state, w)).resubmit == Some(At(state, w).nonce)
    {
      if At(state, w).resubmit.Some? {
        RowExists(w);
        Do(ReuseNonce(w, world.walletKnown(state)));
        SecuredIsCommitted(w);
        return;
      }
      match world.lease(state) {
        case NoLease(failure) => Do(ReserveFail(w, failure));
        case Leased(wallet, snapshot) =>
          Lease(w, wallet, snapshot);
          Others(w, others(3));
          CommitLease(w, world);
          SecuredIsCommitted(w);
      }
    }

    method Lease(w: WorkerId, wallet: Wallet, snapshot: nat)
      requires Valid() && Enabled(state, ReserveRead(w, wallet, snapshot))
      modifies this
      ensures Valid() && old(steps) <= steps
      ensures At(state, w).Reserving? && At(state, w).id == old(At(state, w)).id && At(state, w).rec == old(At(state, w)).rec
      ensures At(state, w).wallet == wallet && state.rows == old(state).rows
      ensures At(state, w).nonce == ReserveNonce(LiveNonces(state.rows, wallet, At(state, w).rec.dst), snapshot)
      ensures steps == old(steps) + [ReserveRead(w, wallet, snapshot)]
    {
      Do(ReserveRead(w, wallet, snapshot));
    }

    method CommitLease(w: WorkerId, world: World)
      requires Valid() && At(state, w).Reserving?
      modifies this
      ensures Valid() && old(steps) <= steps
      ensures At(state, w).Secured? || At(state, w).Failing?
      ensures At(state, w).id == old(At(state, w)).id
      ensures At(state, w).Failing? ==> At(state, w) == Failing(old(At(state, w)).id, false, Retriable)
      ensures old(At(state, w)).id in old(state).rows && old(At(state, w)).id in state.rows
      ensures var r := old(state).rows[old(At(state, w)).id];
        var accepted := r.status == Pending || r.status == Failed || r.status == Submitting;
        && (At(state, w).Secured? <==> accepted && world.acknowledged(old(state)))
        && (!accepted ==> state.rows == old(state).rows)
        && (accepted ==> state.rows == old(state).rows[old(At(state, w)).id := state.rows[old(At(state, w)).id]]
                         && HoldsPair(state.rows[old(At(state, w)).id], old(At(state, w)).wallet, old(At(state, w)).nonce))
      ensures At(state, w).Secured? ==>
        var at := old(At(state, w));
        && At(state, w) == Secured(at.id, at.rec, at.wallet, at.nonce)
        && at.id in state.rows && state.rows[at.id].status == Submitting && HoldsPair(state.rows[at.id], at.wallet, at.nonce)
      ensures steps == old(steps) + [ReserveCommit(w, world.now(old(state)), world.acknowledged(old(state)))]
    {
      RowExists(w);
      Do(ReserveCommit(w, world.now(state), world.acknowledged(state)));
    }

    /** Phase 2b: broadcast, lock-free. */
    method Send(w: WorkerId, world: World)
      requires Valid() && At(state, w).Secured? && Truthful(world, w)
      modifies this
      ensures Valid() && old(steps) <= steps
      ensures At(state, w).Sent? <==> world.broadcast(old(state)).problem.None?
      ensures At(state, w).Failing? <==> world.broadcast(old(state)).problem.Some?
      ensures At(state, w).Failing? ==> At(state, w).committed && Some(At(state, w).failure) == world.broadcast(old(state)).problem
      ensures At(state, w).id == old(At(state, w)).id
      ensures var answer := world.broadcast(old(state)); steps == old(steps) + [Broadcast(w, answer.hash, answer.reached, answer.problem)]
      ensures var answer, at := world.broadcast(old(state)), old(At(state, w));
        && state.chain == (if answer.reached then old(state).chain.(sent := old(state).chain.sent[answer.hash := TxOf(at)]) else old(state).chain)
        && (At(state, w).Sent? ==>
              && At(state, w) == Sent(at.id, at.rec, at.wallet, at.nonce, answer.hash)
              && answer.hash in state.chain.sent && state.chain.sent[answer.hash] == TxOf(at))
    {
      var answer := world.broadcast(state);
      Do(Broadcast(w, answer.hash, answer.reached, answer.problem));
    }

    method RecordSent(w: WorkerId, world: World)
      requires Valid() && At(state, w).Sent?
      modifies this
      ensures Valid() && old(steps) <= steps && At(state, w) == Idle
      ensures old(At(state, w)).id in state.rows && Settled(state.rows[old(At(state, w)).id])
      ensures var at, r := old(At(state, w)), state.rows[old(At(state, w)).id];
        && at.id in old(state).rows && Final(old(state).rows[at.id], r, Submitted)
        && (r.status == Submitted ==> HoldsPair(r, at.wallet, at.nonce) && r.hash == Some(at.hash))
      ensures steps == old(steps) + [RecordSubmitted(w, world.now(old(state)))]
    {
      RowExists(w);
      Do(RecordSubmitted(w, world.now(state)));
    }

    /** handleSubmittingFailure / handleDeliveryFailure and the burial that may follow; `k` is the step that decides. */
    method RouteFailure(w: WorkerId, world: World, others: nat -> seq<Step>) returns (disposal: Disposal, ghost k: nat)
      requires Valid() && At(state, w).Failing?
      modifies this
      ensures Valid() && old(steps) <= steps && At(state, w) == Idle
      ensures old(At(state, w)).id in state.rows
      ensures disposal == DeadLettered ==> Terminal(state.rows[old(At(state, w)).id])
      ensures disposal == Acked ==> Settled(state.rows[old(At(state, w)).id])
      ensures |old(steps)| <= k < |steps| && steps[k].HandleFailure? && steps[k].w == w
      ensures old(At(state, w)).id in states[k].rows
        && disposal == Verdict(old(At(state, w)), steps[k].expired, states[k].rows[old(At(state, w)).id])
    {
      Others(w, others(6));
      k := |steps|;
      disposal := HandleAndBury(w, world, others(7));
    }

    method HandleAndBury(w: WorkerId, world: World, schedule: seq<Step>) returns (disposal: Disposal)
      requires Valid() && At(state, w).Failing?
      modifies this
      ensures Valid() && old(states) <= states && At(state, w) == Idle
      ensures old(At(state, w)).id in state.rows && old(At(state, w)).id in old(state).rows
      ensures disposal == DeadLettered ==> Terminal(state.rows[old(At(state, w)).id])
      ensures disposal == Acked ==> Settled(state.rows[old(At(state, w)).id])
      ensures old(steps) <= steps && |old(steps)| < |steps| < |states| && states[|old(steps)|] == old(state)
      ensures steps[|old(steps)|] == HandleFailure(w, world.expired(old(state)), world.now(old(state)))
      ensures disposal == Verdict(old(At(state, w)), world.expired(old(state)), old(state).rows[old(At(state, w)).id])
    {
      disposal := CountFailure(w, world);
      if disposal == DeadLettered {
        Others(w, schedule);
        Bury(w, world);
      }
    }

    /** The outcome table of the two handlers, over the row as it is when the failure is handled. */
    method CountFailure(w: WorkerId, world: World) returns (disposal: Disposal)
      requires Valid() && At(state, w).Failing?
      modifies this
      ensures Valid() && old(steps) <= steps && old(states) <= states
      ensures old(At(state, w)).id in old(state).rows
      ensures disposal == Verdict(old(At(state, w)), world.expired(old(state)), old(state).rows[old(At(state, w)).id])
      ensures state.rows == old(state).rows[old(At(state, w)).id :=
        RowAfter(old(At(state, w)), world.expired(old(state)), old(state).rows[old(At(state, w)).id], world.now(old(state)))]
      ensures At(state, w) == if disposal == DeadLettered then Dying(old(At(state, w)).id) else Idle
      ensures disposal == Acked ==> Settled(state.rows[old(At(state, w)).id])
      ensures steps == old(steps) + [HandleFailure(w, world.expired(old(state)), world.now(old(state)))]
    {
      RowExists(w);
      var at, row := At(state, w), state.rows[At(state, w).id];
      // A counted failure of a row that left submitting/submitted concurrently: nothing to re-drive.
      var noop := at.committed && !at.failure.Defer? && !at.failure.Permanent? && IncrementRetry(row, 0).None?;
      FailureTable(state, w, world.expired(state), world.now(state));
      Do(HandleFailure(w, world.expired(state), world.now(state)));
      if At(state, w).Dying? {
        disposal := DeadLettered;
      } else {
        disposal := if noop then Acked else Nacked;
      }
    }

    method Bury(w: WorkerId, world: World)
      requires Valid() && At(state, w).Dying?
      modifies this
      ensures Valid() && old(steps) <= steps && old(states) <= states && At(state, w) == Idle
      ensures old(At(state, w)).id in state.rows && Terminal(state.rows[old(At(state, w)).id])
      ensures old(At(state, w)).id in old(state).rows && Final(old(state).rows[old(At(state, w)).id], state.rows[old(At(state, w)).id], DeadLetter)
      ensures steps == old(steps) + [BuryRow(w, world.now(old(state)))]
    {
      RowExists(w);
      Do(BuryRow(w, world.now(state)));
    }

    /** A secured pair is committed to its row. */
    lemma SecuredIsCommitted(w: WorkerId)
      requires Valid()
      ensures At(state, w).Secured? ==> Commit(At(state, w).id, At(state, w).wallet, At(state, w).nonce) in state.log.committed
    {
      RunInv(states, steps, |states| - 1);
    }

    /** The row behind a worker's point is always there. */
    lemma RowExists(w: WorkerId)
      requires Valid() && At(state, w) != Idle
      ensures At(state, w).id in state.rows && Inv(state)
      ensures At(state, w).Ready? && At(state, w).resubmit.Some? ==> At(state, w).rec.wallet.Some?
      ensures At(state, w).Failing? && At(state, w).committed ==> state.rows[At(state, w).id].status != Pending
    {
      RunInv(states, steps, |states| - 1);
    }
  }

  lemma OthersKeepPoint(s: State, step: Step, w: WorkerId)
    requires Enabled(s, step) && !ByWorker(step, w)
    ensures At(Apply(s, step), w) == At(s, w)
  {
    if WorkerStep(step) {
      OtherPoint(s, step, w);
    } else {
      EnvironmentKeepsPoints(s, step);
    }
  }
}
