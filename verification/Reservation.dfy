/**
  The `transactions` table as an object: every guarded update with the statuses it accepts and the
  fields it writes, and `reserve`, which finds a free wallet, allocates its nonce and commits it to the
  row in one transaction.
 */
module Reservation {
  import opened Basics
  import opened Rows
  import opened WalletPool

  datatype Lease = Lease(wallet: Wallet, nonce: nat)

  datatype ReserveError = AllWalletsBusy | RowMovedOn

  /** What a counting update returns: the new retry count and the budget. */
  datatype Budget = Budget(retryCount: nat, maxRetries: int)

  /** Every row but `id` is as before, and there are no others. */
  predicate OnlyRow(before: map<RowId, Row>, after: map<RowId, Row>, id: RowId) {
    after.Keys == before.Keys && forall j | j in before && j != id :: after[j] == before[j]
  }

  class TransactionsTable {
    var rows: map<RowId, Row>

    constructor (rows: map<RowId, Row>)
      ensures this.rows == rows
    {
      this.rows := rows;
    }

    /** A new row is pending with no hash, wallet or nonce and nothing counted; an existing one is returned as it is. */
    method InsertPending(id: RowId, dst: ChainId, vaa: VaaId, maxRetries: int, now: int) returns (row: Row)
      modifies this
      ensures id in rows && row == rows[id]
      ensures rows == old(rows)[id := row]
      ensures id in old(rows) ==> row == old(rows)[id]
      ensures id !in old(rows) ==>
        && row.status == Pending && row.hash == None && row.wallet == None && row.nonce == None && row.retryCount == 0
        && row.dst == dst && row.vaa == vaa && row.maxRetries == maxRetries && row.createdAt == now && row.updatedAt == now
    {
      if id !in rows {
        rows := rows[id := NewRow(dst, vaa, maxRetries, now)];
      }
      row := rows[id];
    }

    /** From any status but the two final ones; hash, wallet and nonce are those of the transaction sent. */
    method RecordSubmitted(id: RowId, hash: Hash, lease: Lease, now: int) returns (ok: bool)
      requires id in rows
      modifies this
      ensures OnlyRow(old(rows), rows, id)
      ensures ok <==> old(rows)[id].status != Confirmed && old(rows)[id].status != DeadLetter
      ensures rows[id] == if !ok then old(rows)[id] else
        old(rows)[id].(status := Submitted, hash := Some(hash), wallet := Some(lease.wallet), nonce := Some(lease.nonce), updatedAt := now)
    {
      var updated := MarkSubmitted(rows[id], hash, lease.wallet, lease.nonce, now);
      rows, ok := Store(rows, id, updated), updated.Some?;
    }

    /** From any status but the two final ones; a nonce without a relay hash is cleared. */
    method Confirm(id: RowId, now: int) returns (ok: bool)
      requires id in rows
      modifies this
      ensures OnlyRow(old(rows), rows, id)
      ensures ok <==> old(rows)[id].status != Confirmed && old(rows)[id].status != DeadLetter
      ensures !ok ==> rows[id] == old(rows)[id]
      ensures ok && old(rows)[id].hash.Some? ==> rows[id] == old(rows)[id].(status := Confirmed, updatedAt := now)
      ensures ok && old(rows)[id].hash.None? ==> rows[id] == old(rows)[id].(status := Confirmed, nonce := None, updatedAt := now)
    {
      var updated := MarkConfirmed(rows[id], now);
      rows, ok := Store(rows, id, updated), updated.Some?;
    }

    /** The heartbeat: a row that is not final gets the current time, and nothing else changes. */
    method Heartbeat(id: RowId, now: int)
      requires id in rows
      modifies this
      ensures OnlyRow(old(rows), rows, id)
      ensures old(rows)[id].status == Confirmed || old(rows)[id].status == DeadLetter ==> rows[id] == old(rows)[id]
      ensures old(rows)[id].status != Confirmed && old(rows)[id].status != DeadLetter ==>
        rows[id] == old(rows)[id].(updatedAt := now)
    {
      rows := Store(rows, id, Touch(rows[id], now));
    }

    /** One more attempt on the committed nonce: only from submitting or submitted, without leaving it. */
    method CountRetry(id: RowId, now: int) returns (budget: Option<Budget>)
      requires id in rows
      modifies this
      ensures OnlyRow(old(rows), rows, id)
      ensures budget.Some? <==> old(rows)[id].status == Submitting || old(rows)[id].status == Submitted
      ensures budget.None? ==> rows[id] == old(rows)[id]
      ensures budget.Some? ==>
        && budget.value == Budget(old(rows)[id].retryCount + 1, old(rows)[id].maxRetries)
        && rows[id] == old(rows)[id].(retryCount := old(rows)[id].retryCount + 1, updatedAt := now)
    {
      var updated := IncrementRetry(rows[id], now);
      rows := Store(rows, id, updated);
      budget := if updated.Some? then Some(Budget(updated.value.retryCount, updated.value.maxRetries)) else None;
    }

    /** From pending, submitted or failed, never from submitting: failed, with one more attempt counted. */
    method Fail(id: RowId, now: int) returns (budget: Option<Budget>)
      requires id in rows
      modifies this
      ensures OnlyRow(old(rows), rows, id)
      ensures budget.Some? <==>
        old(rows)[id].status == Pending || old(rows)[id].status == Submitted || old(rows)[id].status == Failed
      ensures budget.None? ==> rows[id] == old(rows)[id]
      ensures budget.Some? ==>
        && budget.value == Budget(old(rows)[id].retryCount + 1, old(rows)[id].maxRetries)
        && rows[id] == old(rows)[id].(status := Failed, retryCount := old(rows)[id].retryCount + 1, updatedAt := now)
    {
      var updated := MarkFailed(rows[id], now);
      rows := Store(rows, id, updated);
      budget := if updated.Some? then Some(Budget(updated.value.retryCount, updated.value.maxRetries)) else None;
    }

    /** From any status but the two final ones: a confirmed row is never turned into a dead letter. */
    method Bury(id: RowId, now: int) returns (ok: bool)
      requires id in rows
      modifies this
      ensures OnlyRow(old(rows), rows, id)
      ensures ok <==> old(rows)[id].status != Confirmed && old(rows)[id].status != DeadLetter
      ensures !ok ==> rows[id] == old(rows)[id]
      ensures ok && old(rows)[id].hash.Some? ==> rows[id] == old(rows)[id].(status := DeadLetter, updatedAt := now)
      ensures ok && old(rows)[id].hash.None? ==> rows[id] == old(rows)[id].(status := DeadLetter, nonce := None, updatedAt := now)
    {
      var updated := MarkDeadLetter(rows[id], now);
      rows, ok := Store(rows, id, updated), updated.Some?;
    }

    /**
      markSubmitting: true iff the row was still pending, failed or submitting; then it holds the lease
      and counts as live, with the relay hash of an earlier attempt left as it was. No other row changes.
     */
    method CommitIntent(id: RowId, lease: Lease, now: int) returns (ok: bool)
      requires id in rows
      modifies this
      ensures ok <==>
        old(rows)[id].status == Pending || old(rows)[id].status == Failed || old(rows)[id].status == Submitting
      ensures rows.Keys == old(rows).Keys && forall j | j in rows && j != id :: rows[j] == old(rows)[j]
      ensures !ok ==> rows == old(rows)
      ensures ok ==>
        && Live(rows[id]) && HoldsPair(rows[id], lease.wallet, lease.nonce) && rows[id].status == Submitting
        && SameEvent(old(rows)[id], rows[id]) && rows[id].hash == old(rows)[id].hash
        && rows[id].retryCount == old(rows)[id].retryCount && rows[id].updatedAt == now
    {
      var updated := MarkSubmitting(rows[id], lease.wallet, lease.nonce, now);
      rows := Store(rows, id, updated);
      ok := updated.Some?;
    }

    /**
      Walk the (shuffled) candidates; the first wallet whose lock is free decides the outcome. A
      refused commit rolls the whole transaction back.
     */
    method Reserve(candidates: seq<Wallet>, chainNonces: map<Wallet, nat>, busy: set<Wallet>, id: RowId, now: int)
      returns (lease: Result<Lease, ReserveError>)
      requires id in rows && forall w | w in candidates :: w in chainNonces
      modifies this
      ensures lease.Err? ==> rows == old(rows)
      ensures lease == Err(AllWalletsBusy) <==> forall w | w in candidates :: w in busy
      ensures lease == Err(RowMovedOn) ==> id in rows && (Terminal(rows[id]) || rows[id].status == Submitted)
      ensures lease.Ok? ==>
        && exists k :: 0 <= k < |candidates| && candidates[k] == lease.value.wallet && lease.value.wallet !in busy
                       && forall j | 0 <= j < k :: candidates[j] in busy
      ensures lease.Ok? ==>
        && lease.value.wallet in chainNonces
        && lease.value.nonce == ReserveNonce(LiveNonces(old(rows), lease.value.wallet, old(rows)[id].dst), chainNonces[lease.value.wallet])
        && id in rows && Live(rows[id]) && HoldsPair(rows[id], lease.value.wallet, lease.value.nonce)
        && rows == old(rows)[id := rows[id]]
    {
      for i := 0 to |candidates|
        invariant rows == old(rows)
        invariant forall j | 0 <= j < i :: candidates[j] in busy
      {
        var wallet := candidates[i];
        if wallet in busy {
          continue;
        }
        var nonce := ReserveNonce(LiveNonces(rows, wallet, rows[id].dst), chainNonces[wallet]);
        var before := rows;
        var ok := CommitIntent(id, Lease(wallet, nonce), now);
        if !ok {
          rows := before;
          return Err(RowMovedOn);
        }
        return Ok(Lease(wallet, nonce));
      }
      return Err(AllWalletsBusy);
    }
  }

  /** One reservation closes the gap at the chain nonce and opens none. */
  lemma ReserveClosesGap(rows: map<RowId, Row>, id: RowId, wallet: Wallet, chainNonce: nat, now: int)
    requires id in rows && (rows[id].status == Pending || rows[id].status == Failed)
    ensures var live := LiveNonces(rows, wallet, rows[id].dst);
      var updated := MarkSubmitting(rows[id], wallet, ReserveNonce(live, chainNonce), now);
      var live' := LiveNonces(rows[id := updated.value], wallet, rows[id].dst);
      && live' == live + {ReserveNonce(live, chainNonce)}
      && chainNonce in live'
      && Gaps(live', chainNonce) == Gaps(live, chainNonce) - {chainNonce}
  {
    var live := LiveNonces(rows, wallet, rows[id].dst);
    var m := ReserveNonce(live, chainNonce);
    var rows' := rows[id := MarkSubmitting(rows[id], wallet, m, now).value];
    var live' := LiveNonces(rows', wallet, rows[id].dst);
    ReserveNonceLaw(live, chainNonce);
    forall n
      ensures n in live' <==> n in live + {m}
    {
      if n in live {
        var k :| k in rows && Live(rows[k]) && rows[k].wallet.value == wallet && rows[k].dst == rows[id].dst && rows[k].nonce.value == n;
        assert rows'[k] == rows[k];
      }
      assert Live(rows'[id]) && rows'[id].nonce.value == m;
    }
  }
}
