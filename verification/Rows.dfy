/** The `transactions` table: one row per relay and every guarded status transition. */
module Rows {
  import opened Basics

  // Primary key. The unique constraint on (source_chain_id, event_tx_hash) makes it
  // interchangeable with the source event it was created for.
  type RowId = nat
  type ChainId = nat
  type Wallet = nat
  type Hash = nat
  type VaaId = nat

  datatype Status = Pending | Submitting | Submitted | Confirmed | Failed | DeadLetter

  datatype Row = Row(
    status: Status,
    dst: ChainId,
    vaa: VaaId,
    hash: Option<Hash>,
    wallet: Option<Wallet>,
    nonce: Option<nat>,
    retryCount: nat,
    maxRetries: int,
    createdAt: int,
    updatedAt: int)

  predicate Terminal(r: Row) {
    r.status == Confirmed || r.status == DeadLetter
  }

  function NewRow(dst: ChainId, vaa: VaaId, maxRetries: int, now: int): Row {
    Row(Pending, dst, vaa, None, None, None, 0, maxRetries, now, now)
  }

  /** A row nonce that the chain can still see: cleared on termination when no hash was recorded. */
  function KeptNonce(r: Row): Option<nat> {
    if r.hash.None? then None else r.nonce
  }

  // Each UPDATE ... WHERE status IN (...) is a partial function: None means "0 rows updated".

  function MarkSubmitting(r: Row, wallet: Wallet, nonce: nat, now: int): Option<Row> {
    if r.status == Pending || r.status == Failed || r.status == Submitting
    then Some(r.(status := Submitting, wallet := Some(wallet), nonce := Some(nonce), updatedAt := now))
    else None
  }

  function MarkSubmitted(r: Row, hash: Hash, wallet: Wallet, nonce: nat, now: int): Option<Row> {
    if Terminal(r) then None
    else Some(r.(status := Submitted, hash := Some(hash), wallet := Some(wallet),
                 nonce := Some(nonce), updatedAt := now))
  }

  function MarkConfirmed(r: Row, now: int): Option<Row> {
    if Terminal(r) then None
    else Some(r.(status := Confirmed, nonce := KeptNonce(r), updatedAt := now))
  }

  function Touch(r: Row, now: int): Option<Row> {
    if Terminal(r) then None else Some(r.(updatedAt := now))
  }

  function IncrementRetry(r: Row, now: int): Option<Row> {
    if r.status == Submitting || r.status == Submitted
    then Some(r.(retryCount := r.retryCount + 1, updatedAt := now))
    else None
  }

  function MarkFailed(r: Row, now: int): Option<Row> {
    if r.status == Pending || r.status == Submitted || r.status == Failed
    then Some(r.(status := Failed, retryCount := r.retryCount + 1, updatedAt := now))
    else None
  }

  function MarkDeadLetter(r: Row, now: int): Option<Row> {
    if Terminal(r) then None
    else Some(r.(status := DeadLetter, nonce := KeptNonce(r), updatedAt := now))
  }

  /** Write back the outcome of a guarded update. */
  function Store(rows: map<RowId, Row>, id: RowId, updated: Option<Row>): map<RowId, Row> {
    if updated.Some? then rows[id := updated.value] else rows
  }

  /** Budget test after a counted failure: dead-letter when no row was updated or none is left. */
  predicate Exhausted(updated: Option<Row>) {
    updated.None? || updated.value.retryCount >= updated.value.maxRetries
  }

  // ---- What a row may hold in each status ----

  predicate Shape(r: Row) {
    match r.status
    case Pending => r.hash.None? && r.wallet.None? && r.nonce.None?
    case Submitting => r.wallet.Some? && r.nonce.Some?
    case Submitted => r.hash.Some? && r.wallet.Some? && r.nonce.Some?
    case Failed =>
      || (r.hash.None? && r.wallet.None? && r.nonce.None?)
      || (r.hash.Some? && r.wallet.Some? && r.nonce.Some?)
    case _ => r.nonce.Some? ==> r.wallet.Some? && r.hash.Some?
  }

  /** Rows the wallet pool counts: their nonce must not be handed out again. */
  predicate Live(r: Row) {
    && (r.status == Submitting || r.status == Submitted || r.status == Confirmed)
    && r.wallet.Some? && r.nonce.Some?
  }

  /** Live rows, and failed rows that may still return to `submitted` or `confirmed`. */
  predicate Holder(r: Row) {
    && r.status != Pending && r.status != DeadLetter
    && r.wallet.Some? && r.nonce.Some?
  }

  predicate HoldsPair(r: Row, wallet: Wallet, nonce: nat) {
    r.wallet == Some(wallet) && r.nonce == Some(nonce)
  }

  /** The event a row was created for never changes. */
  predicate SameEvent(a: Row, b: Row) {
    a.dst == b.dst && a.vaa == b.vaa && a.maxRetries == b.maxRetries && a.createdAt == b.createdAt
  }
}
