# A verified model of the bridge's relayer, oracle and quoting services

This project models the parts of the repository whose correctness rests on
state, interleaving or arithmetic, and proves what they promise.

* **The delivery protocol** (`Rows`, `WalletPool`, `Reservation`, `Protocol`,
  `ProtocolInvariant`, `ProtocolTheorems`, `ProtocolLimits`, `ProtocolReuse`,
  `Worker`, `CronPass`). A listener, any number of workers and one leader cron share the
  `transactions` table and send transactions to chains they do not control.
  `Protocol` is a transition system: its state holds the rows, the program
  point of every worker and of the cron, and the chains (transactions on the
  wire, receipts, consumed VAAs, pending nonces). Its 23 kinds of step include a crash
  of a worker or of the cron at any point, a commit whose acknowledgement is
  lost, and a delivery by somebody else. The queue is left completely free: any
  message, fresh or stale, may reach any worker at any time. `ProtocolInvariant`
  is kept by every step; the theorems hold in every state of every run. `Worker`
  and `CronPass` are the imperative routines, with every other party free to act
  at each await point.
* **The queues** (`RedisQueue`, `MemoryQueue`, `MemoryQueueRuns`). The Redis
  driver as sequences of single commands with a crash allowed between any two;
  the in-process driver as a class whose runs carry a non-decreasing clock.
* **The listener** (`Listener`, `StartupSweep`): a cursor shared by any number
  of scanners, and the keyset-paginated sweep at start-up.
* **The oracle's sender** (`OracleSender`): nonce floor and replacement by fee.
* **Pure logic** (`ConfigDiff`, `TrimmedAmounts`, `Scaling`, `Vaa`, `Quote`,
  with `Decimals` and `Bytes` beneath them).

## Hypotheses

* The message lock of a row and the lock of a (wallet, chain) pair are each held
  by one worker at a time (`Protocol.MessageUnlocked`, `Protocol.WalletUnlocked`).
* The chain nonce that `reserve` read before its transaction is safe to reserve
  from (`Protocol.SafeSnapshot`): no failed row of the wallet and chain holds it
  or, when a live row holds it, the nonce after the highest live one. This is
  exactly what uniqueness among rows needs (`ProtocolTheorems.SnapshotSafeIff`); it
  does not keep a stale snapshot from yielding a nonce that has mined and that no
  row holds any more, see below. A snapshot
  above every nonce whose revert the cron has recorded meets it, and the current
  pending nonce always does (`ProtocolTheorems.FreshSnapshotIsSafe`,
  `ProtocolTheorems.CurrentNonceIsFresh`). Nothing else is asked of a snapshot: it
  may be ahead of the chain or long out of date.
* A mined transaction stays mined, a hash names one transaction, a successful
  `receiveMessage` marks its VAA consumed, and a pre-flight answer "already
  consumed" is true. The pending nonce of a wallet may rise and, when the mempool
  drops transactions, fall, but not to a nonce that has mined. Only the
  contiguity theorem supposes more, and says so in its premise
  (`ProtocolTheorems.Orderly`).

## Where the code and its comments differ

The comment on `markConfirmed` (relayer-bot/src/db/transactions.ts:139-143) says
that a reserved nonce which was never broadcast is cleared when its row is
confirmed. The test is on `relay_tx_hash`, which `markSubmitting` does not
reset. A row that reverted once, reserved a second nonce and crashed before
broadcasting it is therefore confirmed with the unsent nonce still counted
(`ProtocolLimits.ConfirmedMayHoldUnsentNonce`,
`ProtocolLimits.ConfirmLeavesUnsentNonceIff`). Whether that nonce is ever sent
depends on who else has it in hand: if no worker does, no continuation sends it;
if one does, some continuation does (`ProtocolLimits.NeverSentIff`). The second
case is real: the cron can dead-letter a row, and so release its nonce, while
that row's worker is about to broadcast it
(`ProtocolLimits.ConfirmedNonceMayBeSentLater`). `ProtocolLimits.ConfirmStrandsIff`
puts both together into the exact condition for a permanent gap.

The same comment, and the one on `markDeadLetter`
(relayer-bot/src/db/transactions.ts:220-223), take a missing `relay_tx_hash` to
mean that the nonce was never broadcast. A worker that crashes between the
broadcast and recording the hash leaves a row without hash whose nonce is on the
wire; terminating that row clears the nonce all the same
(`ProtocolReuse.WireNonceMayBeCleared`).

So the promise that a reserved nonce is never handed out twice
(relayer-bot/src/wallet/walletPool.ts:142-144) holds for rows but not for
transactions: two rows can broadcast on one nonce
(`ProtocolLimits.TwoRowsMayShareWireNonce`). Exactly when: after a termination
that releases a row's nonce, by dead-lettering it or by confirming it without a
hash, some continuation puts this row and another on that nonce if and only if
the row has already sent on it or one of its own workers has the pair in hand
(`ProtocolReuse.ReleasedNonceSharedIff`); otherwise no continuation sends the
row's transaction on it at all (`ProtocolReuse.ReleasedNeverSentIff`). And
whenever two rows do share a nonce on the wire, the second got it after the first
had been released from it (`ProtocolTheorems.SharedWireNonce`).

The comment on `reserve` (relayer-bot/src/wallet/walletPool.ts:91-95) calls a
slightly stale chain nonce safe. It fails in two ways. First, the choice can be
held by a failed row: the snapshot is itself the nonce of a failed row
(`ProtocolLimits.StaleSnapshotCollides`), or the snapshot is live and the nonce
after the highest live one is a failed row's
(`ProtocolLimits.LiveSnapshotCollides`); these are the only cases of that kind
(`ProtocolTheorems.SnapshotSafeIff`, which is about held nonces only). Second, the
choice can be a nonce that has mined and that no row holds any more, because its
row was confirmed before the hash was recorded
(`ProtocolReuse.ClearedNonceHandedOutSpent`) or dead-lettered on a revert, a
status the allocator does not count (`ProtocolReuse.BuriedNonceHandedOutSpent`).
The choice lies below a given floor exactly when the snapshot does and, if the
snapshot is live, the nonce after the highest live one does too
(`WalletPool.ReserveBelowIff`); a snapshot not below the current pending nonce
never yields a mined nonce (`ProtocolTheorems.CurrentSnapshotNotMined`). A row
that got a spent nonce is deferred on every attempt
(relayer-bot/src/relay/delivery.ts:199-200), and such defers have no age limit
(relayer-bot/src/roles/worker.ts:306-312).

Excluding a path from the configuration diff does not protect what lies under it
when a key above it is replaced as a whole, because one side is not an object
there: `ConfigDiff.PullMayDropExcluded` shows the loss and
`ConfigDiff.PullKeepsExcludedIff` says exactly when the subtree is kept.

`decodeSignedQuote` is described as the inverse of `encodeQuoteBody`
(quoter-service/src/signedQuote.ts:120-121). It does not look at the four-byte
prefix, so it is an inverse on exactly the byte strings that start with "PQ01"
(`Quote.ReencodeIff`).

## Model

| member | source | states |
|---|---|---|
| ProtocolInvariant.StepInv | relayer-bot/src/roles/worker.ts:101-281 | every step of every party, crashes included, keeps the protocol invariant: row shapes, unique nonces, committed pairs, exclusive locks, truthful hashes |
| ProtocolTheorems.RunInv | relayer-bot/README.md:42-49 | the invariant holds in every state of every run |
| ProtocolTheorems.NoSharedNonce | relayer-bot/src/wallet/walletPool.ts:85-185 | in every reachable state no two rows holding a nonce on one wallet and destination hold the same one, failed rows that may come back included |
| ProtocolTheorems.SnapshotSafeIff | relayer-bot/src/wallet/walletPool.ts:91-185 | for any rows and any snapshot: the allocator's choice is held by no row, failed ones included, if and only if no failed row of the wallet and chain holds the snapshot or, when that is live, the nonce after the highest live one; says nothing about nonces that have mined and are held by nobody |
| ProtocolTheorems.FreshSnapshotIsSafe | relayer-bot/src/wallet/walletPool.ts:91-104 | in every reachable state a snapshot above all nonces whose revert the cron has recorded is safe, however stale |
| ProtocolTheorems.CurrentNonceIsFresh | relayer-bot/src/wallet/walletPool.ts:91-104 | the current pending nonce is above every recorded revert in each reachable state, so the snapshot hypothesis can always be met |
| ProtocolTheorems.CurrentSnapshotNotMined | relayer-bot/src/wallet/walletPool.ts:91-104 | in every reachable state a snapshot not below the pending nonce yields no nonce that a mined transaction carries |
| ProtocolTheorems.NonceReusedOnlyAfterRelease | relayer-bot/src/wallet/walletPool.ts:142-144 | a nonce committed to two rows of one wallet and destination implies that one of them is terminal or its revert is recorded |
| ProtocolTheorems.SharedWireNonce | relayer-bot/src/roles/worker.ts:240-248 | two rows' transactions on one wallet, destination and nonce, in any state of a run: an earlier step committed the pair to one of them when the other had been dead-lettered, confirmed off the pair, or had left it after a mined revert |
| ProtocolTheorems.CommitAfterRelease | relayer-bot/src/wallet/walletPool.ts:142-185 | whenever a pair is committed to a row, every other row it was committed to earlier has been released from it in that sense |
| ProtocolTheorems.ConfirmedIsConsumed | relayer-bot/src/roles/worker.ts:190-199 | a row is confirmed only if its VAA is consumed on its destination, whichever party confirmed it |
| ProtocolTheorems.HashNamesOwnDelivery | relayer-bot/src/roles/cron.ts:187-223 | a recorded relay hash always names a delivery of the row's own VAA to its own destination |
| ProtocolTheorems.StepAdvances | relayer-bot/src/db/transactions.ts:103-233 | no step changes a row's event, lowers its retry count, leaves a terminal status or forgets a commitment |
| ProtocolTheorems.RunAdvances | relayer-bot/src/db/transactions.ts:139-233 | the same between any two states of a run: confirmed and dead-letter rows never change again |
| ProtocolTheorems.StepMovesRow | relayer-bot/src/db/transactions.ts:106-233 | every step leaves each row alone, terminates it, counts or touches it on its pair, or makes one of four moves; a fresh pair only from pending or failed, failed from submitted only by the cron on a mined revert of that pair |
| ProtocolTheorems.ShapesHold | relayer-bot/src/roles/cron.ts:90-94 | pending rows hold no hash, wallet or nonce, submitting rows hold wallet and nonce, submitted rows all three; the cron's null-field fallbacks are never taken |
| ProtocolTheorems.CommittedEarlier | relayer-bot/src/roles/worker.ts:201-231 | a committed pair goes back to an earlier commit step that put the row in `submitting` with exactly that pair |
| ProtocolTheorems.BroadcastWasCommitted | relayer-bot/src/roles/worker.ts:240-248 | every transaction on the wire uses a pair that an earlier step had committed to its row |
| ProtocolTheorems.FailedEarlier | relayer-bot/src/roles/cron.ts:224-231 | behind every failed row that holds a pair is an earlier cron step that failed it, while submitted on that pair, on a mined revert of exactly that pair |
| ProtocolTheorems.PairIsKept | relayer-bot/src/roles/worker.ts:145-281 | after any continuation, crashes included, the row still holds the pair, or is confirmed or dead-lettered, or the cron failed it on a mined revert of exactly that pair, after the starting point unless it was already failed there |
| ProtocolTheorems.FreshNonceBound | relayer-bot/src/roles/worker.ts:160-238 | the reservations counted over the run's steps are at most retry_count + 1, and at most retry_count while pending or failed |
| ProtocolTheorems.BudgetRespected | relayer-bot/src/db/transactions.ts:172-208 | in runs without crashes a non-terminal row nobody is about to bury has retry_count 0 or below max_retries |
| ProtocolTheorems.StepKeepsOneBlock | relayer-bot/src/wallet/walletPool.ts:142-185 | a step by which no live nonce at or above the chain nonce is given up, the pending nonce does not fall and a reservation reads a chain nonce of now or earlier keeps the committed nonces at or above the chain nonce contiguous |
| ProtocolTheorems.RefreshIsOrderly | relayer-bot/src/roles/cron.ts:224-231 | recording a mined revert is always such a step |
| ProtocolTheorems.CommittedNoncesContiguous | relayer-bot/src/wallet/walletPool.ts:142-185 | over whole runs of such steps the committed nonces form one block that starts at the chain nonce |
| ProtocolLimits.ConfirmedMayHoldUnsentNonce | relayer-bot/src/db/transactions.ts:139-154 | a reachable state has a confirmed row that is counted live on a nonce no transaction carries |
| ProtocolLimits.ConfirmLeavesUnsentNonceIff | relayer-bot/src/db/transactions.ts:144-154 | confirming a reachable row leaves it live on an unsent nonce if and only if it is `submitting` on an unsent nonce with an older relay hash still set |
| ProtocolLimits.StrandedForever | relayer-bot/src/db/transactions.ts:111-117 | from a reachable state where a confirmed row holds an unsent nonce and no worker has that pair in hand, every continuation leaves it so: the nonce is never sent |
| ProtocolLimits.NeverSentIff | relayer-bot/src/roles/worker.ts:201-248 | the unsent nonce of a confirmed row is sent in no continuation if and only if no worker has the pair in hand |
| ProtocolLimits.ConfirmStrandsIff | relayer-bot/src/db/transactions.ts:144-154 | a confirmation by worker or cron leaves the row live on a nonce that no continuation sends if and only if the row is `submitting` on an unsent nonce with an older relay hash set and no worker has the pair in hand |
| ProtocolLimits.ConfirmedNonceMayBeSentLater | relayer-bot/src/roles/cron.ts:95-101 | a reachable run in which a confirmed row's unsent nonce is sent later, by the worker of a row the cron dead-lettered |
| ProtocolLimits.TwoRowsMayShareWireNonce | relayer-bot/src/roles/worker.ts:240-248 | a reachable state has two transactions of different rows on one wallet, destination and nonce |
| ProtocolLimits.ConcreteRunStrands | relayer-bot/src/roles/worker.ts:190-199 | a reachable state strands a nonce: confirmed, unsent, and in nobody's hand |
| ProtocolLimits.StaleSnapshotCollides | relayer-bot/src/wallet/walletPool.ts:91-104 | a reachable state and an older chain nonce, not live, from which the allocator hands out the nonce a failed row holds |
| ProtocolLimits.LiveSnapshotCollides | relayer-bot/src/wallet/walletPool.ts:164-184 | the same with an older chain nonce that is live: the failed row holds the nonce after the highest live one |
| ProtocolReuse.ReleasedNonceSharedIff | relayer-bot/src/db/transactions.ts:139-154 | from any reachable state, after a termination that releases a row's nonce some continuation puts this row's transaction and another row's on it if and only if the row has sent on it already or a worker of the row has the pair in hand |
| ProtocolReuse.ReleasedNeverSentIff | relayer-bot/src/db/transactions.ts:215-233 | after such a termination no continuation puts a transaction of the row on the nonce if and only if the row has sent none and no worker of the row has the pair in hand |
| ProtocolReuse.AnotherRowSends | relayer-bot/src/wallet/walletPool.ts:151-185 | from any state that keeps the invariant a nonce nobody holds can be handed to a new row and broadcast by it, with everything sent so far still on the wire |
| ProtocolReuse.QuietForever | relayer-bot/src/roles/worker.ts:112-132 | a terminal row that nobody is on the way to broadcast for never sends on a nonce it has not sent on, in any continuation |
| ProtocolReuse.WireNonceMayBeCleared | relayer-bot/src/db/transactions.ts:220-233 | a reachable state has a terminal row whose nonce was cleared although its transaction is on the wire and no worker has the pair in hand |
| ProtocolReuse.ClearedNonceHandedOutSpent | relayer-bot/src/wallet/walletPool.ts:157-182 | a reachable state and an older, safe snapshot from which the allocator hands out a nonce that a mined transaction carries, its row confirmed before the hash was recorded |
| ProtocolReuse.BuriedNonceHandedOutSpent | relayer-bot/src/wallet/walletPool.ts:157-182 | the same where the row was dead-lettered on a mined revert and still holds the nonce |
| WalletPool.ReserveNonceLaw | relayer-bot/src/wallet/walletPool.ts:151-185 | for every live set and chain nonce: the nonce is unheld, not below the chain nonce, equal to it exactly when no live row holds it, and the gaps afterwards are the old ones without the chain nonce |
| WalletPool.ReserveBelowIff | relayer-bot/src/wallet/walletPool.ts:151-185 | the choice is below a floor if and only if the snapshot is and, when the snapshot is live, the nonce after the highest live one is too |
| WalletPool.ReserveKeepsContiguous | relayer-bot/src/wallet/walletPool.ts:142-185 | a snapshot no later than the floor keeps the committed block above the floor free of holes |
| WalletPool.DbNext | relayer-bot/src/wallet/walletPool.ts:157-165 | the next database nonce is above every live nonce, and one above a live one unless there is none |
| Reservation.TransactionsTable.Reserve | relayer-bot/src/wallet/walletPool.ts:105-131 | the first wallet whose lock is free decides; success changes that one row to hold the allocated pair; any error leaves the table as it was; busy exactly when every wallet is |
| Reservation.TransactionsTable.CommitIntent | relayer-bot/src/db/transactions.ts:106-119 | true exactly when the row is not terminal or submitted; then it is live on the lease with its event, retry count and any older relay hash kept; no other row changes, and none at all on refusal |
| Reservation.TransactionsTable.InsertPending | relayer-bot/src/db/transactions.ts:67-101 | a new row is pending with nothing recorded and nothing counted; an existing one is returned unchanged; no other row changes |
| Reservation.TransactionsTable.RecordSubmitted | relayer-bot/src/db/transactions.ts:124-137 | from any status but the two final ones, with the hash, wallet and nonce given; no other row changes |
| Reservation.TransactionsTable.Confirm | relayer-bot/src/db/transactions.ts:144-154 | from any status but the two final ones; the nonce is cleared exactly when there is no relay hash |
| Reservation.TransactionsTable.Heartbeat | relayer-bot/src/db/transactions.ts:161-167 | a row that is not final gets the current time and nothing else changes |
| Reservation.TransactionsTable.CountRetry | relayer-bot/src/db/transactions.ts:172-187 | exactly from submitting or submitted: one more attempt, returned with the budget, status and pair kept |
| Reservation.TransactionsTable.Fail | relayer-bot/src/db/transactions.ts:191-208 | exactly from pending, submitted or failed: failed with one more attempt, returned with the budget |
| Reservation.TransactionsTable.Bury | relayer-bot/src/db/transactions.ts:210-233 | from any status but the two final ones, so never from confirmed; the nonce is cleared exactly when there is no relay hash |
| Reservation.ReserveClosesGap | relayer-bot/src/wallet/walletPool.ts:146-184 | committing a reservation to a pending or failed row makes the chain nonce held, adds no gap and removes only the one at the chain nonce |
| Worker.Relayer.HandleDelivery | relayer-bot/src/roles/worker.ts:79-96 | with everybody else acting at each await, the routine makes only protocol steps; a dead-lettered message leaves a terminal row, an acknowledged ordinary message a row that is neither pending nor submitting; a message is skipped only if another worker is on its row, and otherwise its processing has begun |
| Worker.Relayer.ProcessDelivery | relayer-bot/src/roles/worker.ts:101-281 | the same under the message lock, over all the phases |
| Worker.Relayer.Load | relayer-bot/src/roles/worker.ts:112-171 | the row is found as it is or inserted; exactly final rows, submitted rows without a request to replace and requests for a nonce the row does not hold are skipped; any other attempt reuses the nonce asked for or, on a submitting row, the committed one |
| Worker.Relayer.Prepared | relayer-bot/src/roles/worker.ts:177-199 | ready, found consumed, or failing with the error as it was and marked committed exactly for a resubmit; nothing shared changes |
| Worker.Relayer.SecureNonce | relayer-bot/src/roles/worker.ts:201-238 | ends in failure routing or with a pair that is durably committed to the same row; a resubmit secures exactly the wallet and nonce the row already held if the wallet is known, else fails as a retriable error of a committed row; no lease fails with its own error as an uncommitted one |
| Worker.Relayer.CommitLease | relayer-bot/src/roles/worker.ts:214-231 | secured exactly when the row was pending, failed or submitting and the commit was acknowledged; a refused commit leaves the table as it was, an unacknowledged one holds |
| Worker.Relayer.RecordConfirmed | relayer-bot/src/roles/worker.ts:190-199 | the row is confirmed unless it was final, in which case it is unchanged |
| Worker.Relayer.Send | relayer-bot/src/roles/worker.ts:240-248 | exactly one broadcast step; what reaches the wire under the answered hash is the transaction of the secured wallet, nonce, row and VAA, and nothing else on the chain changes |
| Worker.Relayer.RecordSent | relayer-bot/src/roles/worker.ts:250-281 | exactly one recording step; a row that was not final is submitted with the hash, wallet and nonce that were sent, a final one is unchanged |
| Worker.Relayer.RouteFailure | relayer-bot/src/roles/worker.ts:286-428 | the disposal is the verdict of the outcome table on the row at the step that handles the failure; dead-lettering leaves a terminal row, acknowledging one that needs no message |
| Worker.Relayer.CountFailure | relayer-bot/src/roles/worker.ts:286-428 | the outcome table over statuses and counts: before a commit, permanent errors, expired defers and retriable errors on the last attempt are dead-lettered and everything else is nacked; after one, permanent errors and the last counted attempt are dead-lettered, a row no longer submitting or submitted is acknowledged, and everything else is nacked; and the row afterwards, counted, touched or unchanged |
| Worker.FailureTable | relayer-bot/src/roles/worker.ts:286-428 | both handlers against that table, for every failure, row and budget |
| Worker.ReuseTable | relayer-bot/src/roles/worker.ts:162-171 | an attempt reuses a nonce exactly when one was asked for or the row is submitting, and then it is the row's own nonce on a known wallet; otherwise the row is pending or failed |
| CronPass.Pass.SelectStale | relayer-bot/src/db/transactions.ts:239-254 | the selected rows have the status, were last written before start - timeout and are not locked; oldest first, distinct, at most the limit, all of them when they fit, and none left out is older |
| CronPass.Pass.RetryFresh | relayer-bot/src/roles/cron.ts:53-79 | one message without a nonce is published exactly when the row is pending, submitted or failed with retry_count + 1 < max_retries; an unmoved row is then failed with one more attempt counted, and given up otherwise |
| CronPass.Pass.Resubmit | relayer-bot/src/roles/cron.ts:85-120 | one message naming the committed nonce is published exactly when the row is submitting or submitted with retry_count + 1 < max_retries; an unmoved row then keeps status and pair with one more attempt counted, is dead-lettered on the last one, and is left alone in any other status |
| CronPass.Pass.Settle | relayer-bot/src/roles/cron.ts:216-244 | whatever others do between the receipt read and the write: success, or a revert with both figures known, a positive limit and gasUsed * 100 < gasLimit * 95, makes the row terminal and publishes nothing, and confirms or dead-letters an unmoved row; any other revert of an unmoved row publishes one message for a fresh nonce while retry_count + 1 < max_retries and gives the row up otherwise |
| CronPass.Pass.Chase | relayer-bot/src/roles/cron.ts:196-214 | the case without a receipt, with others acting between the read and the count |
| CronPass.Pass.Reconcile | relayer-bot/src/roles/cron.ts:187-245 | with a receipt as above; without one a dropped or clearly stuck transaction that nobody moved meanwhile is resubmitted on its nonce exactly while budget is left, and any other row is left alone; a snapshot without hash never occurs |
| CronPass.Pass.RepublishLost | relayer-bot/src/roles/cron.ts:148-166 | every stale pending or failed row is published again, was moved by somebody else, or was locked when its status was selected; the messages added name no nonce, only rows of that status, and none twice |
| CronPass.Pass.ProcessBatch | relayer-bot/src/roles/cron.ts:171-245 | every stale submitting or submitted row is handled, and the pass writes no row of another status |
| CronPass.Pass.Tick | relayer-bot/src/roles/cron.ts:125-246 | no stranded row: the pass is a stretch of a protocol run, after which each stale pending or failed row was published again, moved by somebody else or locked when its own status was selected, and each stale submitting or submitted row too, or is terminal, or is submitted, still known, without a visible receipt and younger than twice the timeout |
| RedisQueue.StepKeepsPayload | relayer-bot/src/queue/redisStreams.ts:156-171 | one command, crash or concurrent publish keeps a payload deliverable unless it is the acknowledging command of that payload |
| RedisQueue.LostOnlyByAck | relayer-bot/src/queue/redisStreams.ts:147-273 | in every run a payload that stops being in stream, delay set or dead-letter stream was acknowledged in between |
| RedisQueue.PublishedIsDeliverable | relayer-bot/src/queue/redisStreams.ts:147-153 | a published payload is deliverable at once |
| RedisQueue.NothingInvented | relayer-bot/src/queue/redisStreams.ts:147-273 | whatever sits in the queue or in a worker's hands was published earlier in the run |
| RedisQueue.FirstReadsInOrder | relayer-bot/src/queue/redisStreams.ts:173-197 | FIFO over whole runs: of two entries of the partition the earlier is first handed out no later than the later one, with deletes, delays, reclaims and crashes in between |
| RedisQueue.PublishedIsReadInOrder | relayer-bot/src/queue/redisStreams.ts:147-197 | of two published messages the first published is first handed out no later than the other |
| RedisQueue.ReadOnce | relayer-bot/src/queue/redisStreams.ts:179-196 | an entry is handed out as unread in exactly one step of a run |
| RedisQueue.UnreadStays | relayer-bot/src/queue/redisStreams.ts:235-273 | no entry is deleted before it has been read, in any run |
| RedisQueue.RedisStreamsQueue.PumpDelayed | relayer-bot/src/queue/redisStreams.ts:156-171 | the delay set loses only due members, each of which is then unread on the stream, and all of them when at most 100 are due, with publishers interleaving between the two commands |
| RedisQueue.NextUnread | relayer-bot/src/queue/redisStreams.ts:179-196 | the first unread entries in stream order, none skipped, at most `max`, all of them when fewer |
| RedisQueue.RedisStreamsQueue.Consume | relayer-bot/src/queue/redisStreams.ts:173-197 | hands out in stream order, and without skipping, at most `max` unread entries, all of them when fewer; each becomes pending |
| RedisQueue.RedisStreamsQueue.ReclaimExpired | relayer-bot/src/queue/redisStreams.ts:199-218 | hands out at most `max` pending idle entries with their stored payloads and changes nothing in the store |
| RedisQueue.RedisStreamsQueue.Ack | relayer-bot/src/queue/redisStreams.ts:235-241 | removes exactly this entry from stream, pending list and hands |
| RedisQueue.RedisStreamsQueue.Nack | relayer-bot/src/queue/redisStreams.ts:243-255 | moves exactly this payload to the delay set at its due time |
| RedisQueue.RedisStreamsQueue.DeadLetter | relayer-bot/src/queue/redisStreams.ts:257-273 | moves exactly this payload to the end of the dead-letter stream |
| MemoryQueue.InMemoryQueue.Publish | relayer-bot/src/queue/inMemory.ts:36-46 | the message stands last, ready at once with no attempt, under a handle above every one before it; no earlier entry changes and the bag of messages gains exactly it |
| MemoryQueue.InMemoryQueue.Take | relayer-bot/src/queue/inMemory.ts:62-86 | only entries of this partition in the asked state whose time has come change, each to in flight with one more attempt until now + timeout; the deliveries are exactly those entries in order, at most max; none due is passed over, and none is left when fewer than max were handed out |
| MemoryQueue.TakeLaw | relayer-bot/src/queue/inMemory.ts:62-86 | the recursive specification of a take against those fields, for every queue |
| MemoryQueue.InMemoryQueue.Ack | relayer-bot/src/queue/inMemory.ts:88-90 | exactly the entry of this handle goes, and the bag of messages loses exactly what it tracked |
| MemoryQueue.InMemoryQueue.Nack | relayer-bot/src/queue/inMemory.ts:92-107 | no message is lost and no other entry changes; a tracked one stands last under a handle never used, with its attempts kept, ready after the delay; an unknown handle changes nothing |
| MemoryQueue.NackLaw | relayer-bot/src/queue/inMemory.ts:92-107 | handles stay increasing and unused ones unused, messages are conserved with multiplicity, and the redelivered one is last |
| MemoryQueue.InMemoryQueue.DeadLetter | relayer-bot/src/queue/inMemory.ts:109-112 | exactly the entry of this handle goes, the bag of messages loses exactly what it tracked, and the message is listed last among the dead with its reason |
| MemoryQueueRuns.StepInv | relayer-bot/src/queue/inMemory.ts:36-116 | every operation at a time not before the last keeps the queue's invariant |
| MemoryQueueRuns.FirstDeliveriesInPublishOrder | relayer-bot/src/queue/inMemory.ts:62-86 | first deliveries of never-nacked messages of one partition happen in publish order |
| MemoryQueueRuns.NeverOvertaken | relayer-bot/src/queue/inMemory.ts:69-77 | a never-nacked message published before one already delivered has itself been delivered |
| MemoryQueueRuns.NoEarlyRedelivery | relayer-bot/src/queue/inMemory.ts:55-86 | two hand-outs of one handle are at least the visibility timeout apart |
| MemoryQueueRuns.MessagesConserved | relayer-bot/src/queue/inMemory.ts:88-116 | until the queue is closed, published messages equal tracked plus removed ones, with multiplicity |
| Listener.EveryEventHasARow | relayer-bot/src/roles/listener.ts:31-94 | in every run each source transaction with an event in a block from genesis through the stored cursor has a row |
| Listener.CursorIsMonotone | relayer-bot/src/db/blockTracker.ts:39-52 | the cursor never moves backward and rows never disappear |
| Listener.CursorMovesByCommit | relayer-bot/src/roles/listener.ts:61-79 | an existing cursor changes only by a commit of a finished scan, exactly to the last block that scan covered |
| Listener.ScanIsExact | relayer-bot/src/roles/listener.ts:54-59 | a scan finds exactly the source transactions with an event in its blocks |
| Listener.Scanner.ReadOrInit | relayer-bot/src/db/blockTracker.ts:12-36 | returns the stored cursor, at least genesis - 1, whatever others did between the two statements |
| Listener.Scanner.CommitScan | relayer-bot/src/roles/listener.ts:63-79 | rows and cursor move together: the rows added are exactly the source transactions of the scanned blocks, the cursor becomes the later of itself and the scan's end, and every block through it is covered |
| Listener.Scanner.ScanChainOnce | relayer-bot/src/roles/listener.ts:31-94 | scans from cursor + 1 to the nearer of head and cursor + span, or nothing; coverage holds and the cursor has not moved back |
| StartupSweep.Sweep.SelectPage | relayer-bot/src/db/transactions.ts:261-283 | the page is the first pending rows past the cursor by creation time and then id, at most a batch, and all of them when fewer; what it leaves out comes later |
| StartupSweep.PageSwept | relayer-bot/src/roles/listener.ts:114-121 | after a page everything up to its last key is swept, and a short page was the last |
| StartupSweep.Sweep.PublishPage | relayer-bot/src/roles/listener.ts:114-117 | publishes each steady row of the page once, whatever happens to rows meanwhile |
| StartupSweep.Sweep.RepublishPending | relayer-bot/src/roles/listener.ts:100-127 | for every batch size from 1 on, every row that stays pending without a hash is published exactly once, nothing is published twice or without having been pending without a hash, and the loop ends |
| OracleSender.RpcOracleWriter.Send | oracle-service/src/oracle.ts:289-399 | which refusal happens when, in numbers; the transaction sent has the latest nonce or one past the last mined; a replacement carries the least priority fee, max fee or gas price that meets the market and an eighth more than the stuck one, the larger gas limit, and max fee at least priority fee; the fields after refusal, rejection, timeout and mining |
| OracleSender.SendInv | oracle-service/src/oracle.ts:334-376 | a send keeps confirmed nonces increasing and every same-nonce pair of consecutive transactions bumped |
| OracleSender.ConfirmedNoncesIncrease | oracle-service/src/oracle.ts:294-333 | over any sequence of sends confirmed nonces strictly increase |
| OracleSender.ReplacementsEscalate | oracle-service/src/oracle.ts:121-125 | k successive replacements at one nonce carry at least (9/8)^k times the first fees, max fee at least priority fee, and a gas limit that never falls |
| ConfigDiff.DiffObjects | cli/src/diff.ts:21-78 | collecting over both key sets in any order and then pruning computes the specified diff |
| ConfigDiff.Prune | cli/src/diff.ts:68-75 | pruning the collected entries leaves exactly the reported differences |
| ConfigDiff.EmptyDiffMeansSame | cli/src/diff.ts:21-78 | the diff is empty if and only if the trees show the same at every path that is not excluded |
| ConfigDiff.ReportsExactly | cli/src/diff.ts:29-75 | exactly what is reported at every path: nothing at an excluded path or below a difference, the two sides where they differ and are not both objects, a nested diff where both are objects that differ below, nothing where they agree |
| ConfigDiff.PullGivesRemote | cli/src/diff.ts:35-54 | applying the pull sides to the local tree gives the remote one at every path that is not excluded |
| ConfigDiff.PushGivesLocal | cli/src/diff.ts:35-54 | applying the push sides to the remote tree gives the local one at those paths |
| ConfigDiff.PullUnderExcluded | cli/src/diff.ts:31-54 | under an excluded key reached through keys that are not excluded, pulling leaves the local subtree where both trees are objects down to the key, and the remote one elsewhere |
| ConfigDiff.PullKeepsExcludedIff | cli/src/diff.ts:31-54 | so the local subtree is kept if and only if both trees are objects down to the key or hold the same there |
| ConfigDiff.PullMayDropExcluded | cli/src/diff.ts:42-49 | with local {a: {b: 1}}, remote {a: 2} and "a.b" excluded, pulling drops a.b |
| ConfigDiff.SwapExchangesPushAndPull | cli/src/diff.ts:21-78 | swapping the arguments gives the same paths with push and pull exchanged |
| TrimmedAmounts.PathIndependent | sdk/definitions/src/trimmedAmount.ts:34-48 | rescaling through any precision not below the coarser end equals rescaling directly, for negative amounts too |
| TrimmedAmounts.PathIndependentIff | sdk/definitions/src/trimmedAmount.ts:34-48 | through any precision at all it does if and only if the digits dropped on the way are zeros |
| TrimmedAmounts.DownThenUpLoss | sdk/definitions/src/trimmedAmount.ts:43-47 | down and up again never gains and loses less than one coarse unit, on either side of zero |
| TrimmedAmounts.EncodeIsSum | sdk/definitions/src/trimmedAmount.ts:16-27 | accepted exactly for decimals in a byte and amounts below 2^64, decimals refused first; an encoding is amount * 256 + decimals |
| TrimmedAmounts.DecodeEncode | sdk/definitions/src/trimmedAmount.ts:16-27 | decoding undoes encoding, and an encoding fits 72 bits |
| TrimmedAmounts.EncodeDecode | sdk/definitions/src/trimmedAmount.ts:5-14 | encoding undoes decoding exactly on the 72-bit values and is refused on all others |
| TrimmedAmounts.UntrimAfterTransport | sdk/definitions/src/trimmedAmount.ts:29-32 | packing, unpacking and untrimming equals scaling directly when the trimmed precision is not below the coarser end |
| Scaling.AcceptedIffDecimal | oracle-service/src/scaling.ts:16-20 | a string is accepted if and only if it is digits, optionally a point and more digits, between white space |
| Scaling.CharacterTable | oracle-service/src/scaling.ts:16-20 | the ten digits with their values, and the white space of string trimming by code point |
| Scaling.ScaledIffHalfUp | oracle-service/src/scaling.ts:16-34 | for digit runs of any length the result is the exact half-up rounding of value * 10^d and no other number |
| Scaling.PriceOutcome | oracle-service/src/scaling.ts:38-60 | a well-formed price is value * 10^10 rounded half-up into 1..2^64-1, refused as not positive below half a unit, or refused as too large from 2^64 on |
| Scaling.UsdToScaled | oracle-service/src/scaling.ts:51-60 | an accepted price is in 1..2^64-1 |
| Scaling.RatioBounds | oracle-service/src/scaling.ts:103-116 | r * den <= num * 10^18 < (r + 1) * den with r positive; refused as zero exactly when num * 10^18 < den; a refused price is passed on, the numerator's first |
| Bytes.FromToBE | relayer-bot/src/relay/vaa.ts:95-100 | reading big-endian bytes undoes writing a value that fits |
| Bytes.ToFromBE | relayer-bot/src/relay/vaa.ts:170-175 | writing undoes reading, for every byte string |
| Bytes.ToBEAt | relayer-bot/src/relay/vaa.ts:95-100 | byte k of an n-byte integer is its k-th digit to base 256 from the most significant end |
| Bytes.SetBytes | relayer-bot/src/relay/vaa.ts:98-101 | the buffer is the old one with the bytes written over it at the offset, nothing else |
| Bytes.SetBE | relayer-bot/src/relay/vaa.ts:95-97 | the buffer is the old one with the low n bytes written over it, most significant first |
| Vaa.EncodeVaaBody | relayer-bot/src/relay/vaa.ts:65-103 | refuses with the first failing check; otherwise the filled buffer is the field layout in order |
| Vaa.RefusalTable | relayer-bot/src/relay/vaa.ts:65-91 | which field is refused, in numbers and in the order of the checks |
| Vaa.PackSignedVaa | relayer-bot/src/relay/vaa.ts:112-140 | the header is version 1, the guardian set and one signature; the block holds index, r, s and v of the signature over the returned hash; from byte 72 on lies the body of the fields; and the hash is H applied twice to that body |
| Vaa.PackOutcome | relayer-bot/src/relay/vaa.ts:112-140 | which error packing gives: guardian set first, then the fields, then a signature that does not fit; otherwise the hash, and the digest signed, is H applied twice to the body |
| Vaa.FieldsOfBody | relayer-bot/src/relay/vaa.ts:168-176 | reading the fields back from an encoded body gives them, for any payload length |
| Vaa.BodyOfFields | relayer-bot/src/relay/vaa.ts:168-176 | encoding the fields read from any 51 or more bytes gives those bytes |
| Vaa.ParseOutcome | relayer-bot/src/relay/vaa.ts:145-191 | which byte strings parse, with which error the others fail, and that the hash is H applied twice to the bytes from 6 + 66 * signatures on |
| Vaa.ParseAssembled | relayer-bot/src/relay/vaa.ts:145-191 | any header with any number of signature blocks of any content parses to the body's own fields and H applied twice to the body |
| Vaa.ParseUndoesPack | relayer-bot/src/relay/vaa.ts:112-191 | parsing a packed VAA gives version 1, the guardian set, one signature, the fields and the hash that was signed |
| Vaa.ParsedBytes | relayer-bot/src/relay/vaa.ts:145-191 | what parses is its own header, signatures and re-encoded body, with the double hash of that body |
| Vaa.HashDependsOnlyOnBody | relayer-bot/src/relay/vaa.ts:105-108 | two VAAs with the same body fields have the same hash, whatever guardian set or signatures they carry |
| Vaa.DifferentFieldsCollide | relayer-bot/src/relay/vaa.ts:105-108 | two VAAs with different fields and one hash exhibit a collision of the hash function |
| Vaa.SignatureLayout | relayer-bot/src/relay/vaa.ts:133-137 | with 32-byte r and s the block is index, r, s, v and nothing is overwritten |
| Quote.EncodeQuoteBody | quoter-service/src/signedQuote.ts:61-103 | refuses with the first failing check; otherwise the filled buffer is the 132-byte layout in order |
| Quote.RefusalTable | quoter-service/src/signedQuote.ts:61-88 | which field is refused, in numbers and in the order of the checks |
| Quote.SignLaw | quoter-service/src/signedQuote.ts:108-118 | the signed bytes start with "PQ01" and end with the signature over the hash of the 132 bytes before it |
| Quote.DecodeUndoesSign | quoter-service/src/signedQuote.ts:108-147 | decoding a signed quote gives the quote back, for all fields in range and any 65-byte signature |
| Quote.ReencodeIff | quoter-service/src/signedQuote.ts:120-147 | any 197 bytes decode to fields in range, and encoding these gives the body back if and only if it starts with "PQ01" |

## Left out

- The queue inside `Protocol`: deliveries there are arbitrary, so the theorems need nothing from it; the two queue drivers are proved separately, each on its own state.
- Liveness: defers on a committed nonce have no age limit in the code, so only safety is stated about them.
- `delivery.ts` gas and fee arithmetic and revert classification: `prepare` and `broadcast` appear only through their outcome classes, which are arbitrary.
- Advisory locks and `withLeaderLock`: mutual exclusion is a hypothesis; key collisions and lost lock sessions are outside the model.
- The reads of `reserve`: the chain snapshot is constrained at the moment the transaction reads the rows, and the two row queries inside that transaction are one step.
- Chain reorganisations: a mined transaction stays mined.
- The worker's find and insert of a row are one step, as are a statement and its row lock.
- Timestamps are exact integers: the millisecond truncation of a JavaScript `Date` used as a keyset cursor is not modelled.
- `drainPartition`, `runWorker`, `runCron`, `runListener`: loops over the modelled routines.
- The publish after a scan commits: a message that is not published leaves a pending row, which the sweep and the cron pass are proved to publish.
- One Redis partition with one consumer; the consumer group's creation, JSON encoding of payloads and the choice of node are not modelled.
- RedisQueue.RedisStreamsQueue.ReclaimExpired: does not say which of the idle entries are claimed first, because XAUTOCLAIM may return fewer than it could.
- CronPass.Pass.Tick: supposes at most 100 stale rows per status, a clock that does not run backward within the pass, and writes by others stamped no earlier than the cutoff; a receipt the node does not show yet reads as none.
- StartupSweep.Sweep.RepublishPending: termination is over a finite backlog, which a parameter fixes.
- Error messages, logging, alerts, metrics and health endpoints.
- Retry and backoff helpers, jitter and wallet shuffling: random or short; `reserve` is proved for every order of the candidates.
- `TwapAggregator` and number-typed prices (`toFixed`): floating point; the string-typed price path is modelled.
- Arrays, functions, `NaN` and `undefined` values in configuration trees; a nested diff and a change are distinct constructors, so a configuration key named "push" or "pull" is not confused with a change.
- keccak, secp256k1, hex text and checksum addresses: hash and signature are function parameters over byte strings.
- Non-integer numbers passed where the code expects an integer.
- The CLI's other commands, deployment scripts, SDK platform classes and on-chain programs.
