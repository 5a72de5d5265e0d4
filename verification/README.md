# A verified model of the OMNIGO money, escrow, location and dispatch cores

OMNIGO's Go services move money through a double-entry ledger that is mirrored into TigerBeetle,
hold vendors' money in escrow until it may be released, keep riders' live positions in sharded Redis
sets, dispatch delivery gigs, split payments, guard upstreams with a circuit breaker and reserve
stock for checkouts. This project models those cores in Dafny and proves what they keep. Nothing of
the services is executed.

The project is checked with `dafny verify dfyconfig.toml`.

## How the model is built

* `Ledger.dfy` has the tables and the service as a class whose fields change at its commits;
  `LedgerEffects.dfy` says what a call writes, field by field, `LedgerLaws.dfy` what every run keeps.
* `Outbox.dfy` is the transition system of ledger calls, relay workers, partial applies, lost replies
  and crashes around TigerBeetle, a map from transfer id whose create is a no-op on an existing id;
  `OutboxWorker.dfy` is the worker's code, proved to be a run of that system, `OutboxRetries.dfy` how often a
  row is retried.
* `Escrow.dfy` says what each escrow operation does to the tables. `EscrowProtocol.dfy` interleaves
  release workers, whose ledger transfer and final commit are two steps, refunds, which read, pay and
  commit in three, and everything else. `EscrowInvariant.dfy` and `EscrowTheorems.dfy` prove what every run
  keeps, `EscrowGates.dfy` what the release gates promise, `EscrowRecipients.dfy` who is paid,
  `EscrowLimits.dfy` where the guarantees end. `EscrowPass.dfy` is about one pass of the release job, over the
  Redis index or over the table; `EscrowService.dfy` is the code of the service and of the index, `EscrowReport.dfy`
  what a scan reports, `EscrowAnswers.dfy` what creations, index updates and answers come to.
* `EscrowMoves.dfy` has the pending-escrow transfers, `Commission.dfy` the splits.
* `LocationSync.dfy`, `Proximity.dfy` and `Geohash.dfy` are the live location merge with its shard
  index, the nearest-rider merge and the geohash loop; `Base32.dfy` has the characters of a geohash.
* `GigLifecycle.dfy` has every writer of the delivery gigs, `GigTheorems.dfy` what their runs keep;
  `CircuitBreaker.dfy` and `Checkout.dfy` are the gateway's breaker and the stock reservation saga.

A commit is one atomic step. A run is a sequence of steps in which a step that is not possible is
skipped, so a statement about every sequence is one about every interleaving. Times, rates,
distances and coordinates are exact; identifiers drawn by `uuid.New` are fresh.

## Where the code and its claims part

The model follows the code. Each point is a lemma below.

* The 72-hour rule for COD holds never releases: it ends in the rollback after it.
* The table scan claims the first expired hold again and again if it is blocked, and never reaches
  those behind it. The index can get past a blocked hold, so an index pass may release more.
* `ReleaseExpiredHolds` counts skipped holds as released; a scan that stops at one counts every iteration.
* A hold unfrozen by a rejected dispute is not put back into the index: the query looks for the
  dispute id that has just been cleared.
* Refunds read the rupee column into an amount in paisa: they fail for holds that are not whole rupees,
  and pay one hundredth, unless a return names its own amount.
* Refunds update their hold without a status guard: one that commits over a hold released or refunded
  since it was read pays a second time. All credits are exactly once if and only if no refund does so.
  A refund that died behind its ledger leg does not stop a release either.
* `CreateHold` can add a second hold for an order whose first was cancelled or refunded, `CreateHoldTx` also
  for one whose first was released.
* A retried `Transfer` may be answered with another transaction's id if a key ends in ":debit" or
  ":credit"; only one keyless pair can ever be written, because its rows' keys are unique.
* A COMPLETED outbox row can go back to PENDING or FAILED exactly while a worker still has it queued.
* A release at a commission of 0 or 100 percent always fails, and a release and a reversal of the
  same order both go through.
* The nearest-rider merge keeps the first entry of a rider, not the closest, so a ghost entry can hide it.
* Two moves of one rider in a batch leave a ghost entry; a latest payload without a position makes
  the final coordinates depend on the order of arrival.
* A failed gig blocks its order until the order's timeout or a failed payment cancels it: creations and
  those two disagree on whether it is active. The gig timeout may cancel the order of a gig accepted
  meanwhile. A gig accepted by a status update has no rider to pay, and a rider with an accepted gig may
  accept another. A reassignment changes the rider of completed and failed gigs, and of gigs on offer.
* The release gates are about the moment of the check: a dispute opened before the final commit does not
  stop the release, and the freeze that follows finds nothing to freeze.
* After a probe that fails, the breaker admits nobody until a request admitted earlier records a success.

## Model

| member | source | states |
|---|---|---|
| `Ledger.LedgerService.Transfer` | backend/go-services/internal/ledger/service.go:81-197 | The reply, and the whole new contents of keys, entries and outbox, of one call: a repeated key changes nothing and answers with a matching row; otherwise key, both rows and the outbox row commit together or not at all |
| `Ledger.LedgerService.MultiTransfer` | backend/go-services/internal/ledger/service.go:203-323 | The same for many transfers: the first used or repeated key, the first invalid leg, whose error is the reply, or a clash of row keys leaves the tables as they were |
| `Ledger.LedgerService.GetBalance` | backend/go-services/internal/ledger/repository.go:41-50 | The balance is the sum of the rows of the account |
| `Ledger.InsertEntries` | backend/go-services/internal/ledger/repository.go:23-38 | Succeeds exactly when no new row repeats an idempotency key of the table or of the batch, and then appends all rows, in order |
| `Ledger.FindByKey` | backend/go-services/internal/ledger/service.go:123-132 | Answers with some row carrying one of the keys, and fails exactly when there is none |
| `Ledger.ReserveKeys` | backend/go-services/internal/ledger/service.go:216-244 | Stops at the first request whose key is used or repeated; otherwise reserves exactly the non-empty keys |
| `Ledger.BuildRows` | backend/go-services/internal/ledger/service.go:246-290 | Stops at the first invalid request; otherwise yields the debit and credit rows of every request |
| `Ledger.BuildPayload` | backend/go-services/internal/ledger/service.go:299-311 | One TigerBeetle transfer per leg, with an id of its own |
| `LedgerLaws.SingleCommitsExactly` | backend/go-services/internal/ledger/service.go:81-197 | A valid transfer with a fresh key always commits; without a key it commits only while no other keyless pair exists |
| `LedgerLaws.KeyedTransferSucceedsExactly` | backend/go-services/internal/ledger/service.go:112-134 | A keyed transfer, fresh or repeated, is answered with a transaction exactly when the request is valid |
| `LedgerLaws.MultiCommitsExactly` | backend/go-services/internal/ledger/service.go:203-323 | All or nothing: commits exactly when non-empty, every leg valid and no key used or repeated; otherwise no leg is applied |
| `LedgerLaws.AfterKeepsConsistent` | backend/go-services/internal/ledger/service.go:81-323 | Every call keeps the table a sequence of balanced pairs with distinct keys that match the reserved ones |
| `LedgerLaws.RunIsConsistent` | backend/go-services/internal/ledger/service.go:81-323 | So does every run from the empty ledger |
| `LedgerLaws.Conservation` | backend/go-services/internal/ledger/service.go:136-163 | In every reachable state the rows sum to zero, overall and per transaction and currency |
| `LedgerLaws.CommittedKeyOwnsOnePair` | backend/go-services/internal/ledger/service.go:136-163 | In every reachable state a committed key owns exactly one debit and one credit row, of one transaction |
| `LedgerLaws.RetryReturnsOriginal` | backend/go-services/internal/ledger/service.go:112-134 | A retry changes nothing; it is certain to return the original transaction exactly when no other transaction's row carries the key itself |
| `LedgerLaws.PlainKeysAreNeverShadowed` | backend/go-services/internal/ledger/service.go:123-127 | No key is shadowed when no committed key ends in ":debit" or ":credit" |
| `LedgerLaws.MultiLookupFindsOwner` | backend/go-services/internal/ledger/service.go:229-242 | The lookup of a multi-transfer always finds the key's own transaction |
| `LedgerLaws.OwnerIsStable` | backend/go-services/internal/ledger/service.go:112-134 | No later call changes the transaction of a committed key |
| `LedgerLaws.RetryAfterAnyRun` | backend/go-services/internal/ledger/service.go:112-134 | After any calls in between, a repeated transfer leaves the ledger as it is and answers with the first transaction unless the key is shadowed |
| `LedgerLaws.MultiRetryAfterAnyRun` | backend/go-services/internal/ledger/service.go:218-244 | The same for a multi-transfer whose first request repeats a key |
| `LedgerLaws.ShadowedRetryExists` | backend/go-services/internal/ledger/service.go:123-132 | The exception is real: keys "a" and "a:debit" make a retry return the wrong transaction |
| `LedgerEffects.ValidExactly` | backend/go-services/internal/ledger/service.go:81-110 | Which of the sixteen accounts and which amounts make a request valid, and which error names the first fault |
| `LedgerEffects.TransferWrites` | backend/go-services/internal/ledger/service.go:136-197 | A committed transfer writes one debit and one credit row with the request's accounts, amount, currency - rupees by default - and reference, under its key with the two suffixes, reserves the key and enqueues one transfer; another writes nothing |
| `LedgerEffects.MultiWrites` | backend/go-services/internal/ledger/service.go:246-323 | The same leg by leg for a multi-transfer, under one transaction and in one outbox row |
| `LedgerEffects.NoConflictExactly` | backend/go-services/internal/ledger/service.go:216-244 | A multi-transfer meets no conflict exactly when none of its keys is used and no two are the same |
| `LedgerEffects.SingleRepliesExactly` | backend/go-services/internal/ledger/service.go:81-197 | The reply of a transfer in each case: the first fault, the new transaction, the row found for a used key, or an insert failure |
| `LedgerEffects.MultiRepliesExactly` | backend/go-services/internal/ledger/service.go:203-323 | The reply of a multi-transfer in each case, in order: nothing to do, the first conflict's row, the first fault, the new transaction, or an insert failure |
| `Outbox.NextKeepsInv` | backend/go-services/internal/ledger/tb_outbox.go:31-96 | Every step - ledger call, fetch, partial relay, either mark, lost mark, crash - of any number of workers keeps the books of both ledgers in agreement |
| `Outbox.OutboxRefinement` | backend/go-services/internal/ledger/tb_outbox_worker.go:52-78 | In every run TigerBeetle holds only enqueued transfers, each applied once, completed rows have all theirs there, and balances on both sides follow |
| `Outbox.CompletedOutboxReconciles` | backend/go-services/internal/ledger/tb_outbox_worker.go:52-78 | When every row is COMPLETED each account has the same balance in both ledgers |
| `Outbox.CompletedReopensExactly` | backend/go-services/internal/ledger/tb_outbox.go:46-96 | For a COMPLETED row: some run takes it out of COMPLETED if and only if some worker still holds an entry for it other than a head it has relayed successfully |
| `Outbox.SoleWorkerKeepsCompleted` | backend/go-services/internal/ledger/tb_outbox.go:75-96 | So with one worker a COMPLETED row stays COMPLETED in every run |
| `Outbox.DuplicateWorkersReopenCompleted` | backend/go-services/internal/ledger/tb_outbox.go:46-96 | With two idle workers six steps bring a row to COMPLETED and back to PENDING: row locks end with the query and the marks have no guard |
| `OutboxRetries.AppliesExactly` | backend/go-services/internal/ledger/tb_service.go:56-75 | A transfer is applied exactly if it is accepted, its id is new and its accounts differ, and adds its amount to both sides |
| `OutboxRetries.RetriesExactly` | backend/go-services/internal/ledger/tb_outbox.go:75-96 | In every run with any workers a row's retry count is the number of failed marks it has had; it is FAILED exactly when its last mark was a failed one and it has had ten, COMPLETED exactly when its last mark said so |
| `OutboxRetries.FetchesAreAccounted` | backend/go-services/internal/ledger/tb_outbox_worker.go:52-78 | With a sole worker every fetch of a row has ended in a failed mark, a completed mark, a crash or a lost mark, or the row is still queued |
| `OutboxRetries.SoleWorkerRetriesAtMostTen` | backend/go-services/internal/ledger/tb_outbox.go:86-96 | With a sole worker a row fails at most ten times, is completed at most once, is FAILED exactly when it has failed ten times, and is fetched at most ten times apart from crashes and lost marks |
| `OutboxWorker.CreateTransfers` | backend/go-services/internal/ledger/tb_service.go:56-75 | Ok exactly when the reply arrives and refuses no transfer, and then every transfer is present; what is applied is the idempotent create of each |
| `OutboxWorker.NoRefusalMeansAllPresent` | backend/go-services/internal/ledger/tb_service.go:56-75 | A batch without refusals, first or repeated, leaves all of its transfers applied |
| `OutboxWorker.TBOutboxWorker.FetchPendingTBOutbox` | backend/go-services/internal/ledger/tb_outbox.go:46-72 | The oldest pending rows that are not locked, up to the limit |
| `OutboxWorker.TBOutboxWorker.MarkTBOutboxCompleted` | backend/go-services/internal/ledger/tb_outbox.go:75-82 | Only the status of that row changes |
| `OutboxWorker.TBOutboxWorker.MarkTBOutboxFailed` | backend/go-services/internal/ledger/tb_outbox.go:86-96 | One more retry; FAILED from the limit on, else PENDING, whatever the status was |
| `OutboxWorker.TBOutboxWorker.ProcessEntry` | backend/go-services/internal/ledger/tb_outbox_worker.go:65-78 | One entry is the relay step and then the mark its outcome calls for; a payload that cannot be decoded is marked as failed with nothing relayed |
| `OutboxWorker.TBOutboxWorker.ProcessBatch` | backend/go-services/internal/ledger/tb_outbox_worker.go:52-63 | One polling round is a run of the transition system: fetch, then relay and mark each row in order |
| `EscrowInvariant.NextKeepsInv` | backend/go-services/internal/escrow/service.go:204-376 | Every step of release workers, refunds in three steps, crashes, disputes, cancellations, admin refunds and the rest of the platform keeps: locks exclusive, the vendor credited at most once and always for a released hold, the customer if and only if refunded, wallets equal to their credits and the other writers' moves, withdrawable balance equal to the holds paid in the ledger plus the other calls; and credits stay exactly once if and only if the step is not a refund commit on a hold already released or refunded |
| `EscrowInvariant.CommitIsExactlyOnceIff` | backend/go-services/internal/escrow/service.go:489-496 | The commit of a refund, from whatever was read before, keeps the credits exactly once if and only if it finds its hold neither released nor refunded: the guard its update lacks |
| `EscrowTheorems.AtMostOneReleaseTransfer` | backend/go-services/internal/escrow/service.go:318-332 | In every reachable state a hold has at most one release transfer, of exactly its amount, and one if it is released or its vendor credited |
| `EscrowTheorems.CreditsInEveryRun` | backend/go-services/internal/escrow/service.go:334-369 | Stale refunds included: the vendor is credited at most once and always when released, the customer if and only if refunded; a vendor's lifetime earnings are the sum of its credits, its balance and a customer's that sum plus what all other writers of the wallets moved |
| `EscrowTheorems.WalletsCreditedExactlyOnce` | backend/go-services/internal/escrow/service.go:334-369 | In every run: vendor credited exactly once if released and else never, customer exactly once if refunded and else never, if and only if no refund of the run commits over a hold that is already released or refunded |
| `EscrowTheorems.UninterruptedRefundsCreditOnce` | backend/go-services/internal/escrow/service.go:444-531 | In particular when every refund commits directly after its own reading and payment |
| `EscrowTheorems.ReconciliationGap` | backend/go-services/internal/escrow/service.go:318-369 | At every moment the withdrawable balance is the vendor credits, plus the holds whose ledger leg committed but whose final commit has not, plus the net of all other ledger calls on the account |
| `EscrowTheorems.ProcessHoldIsARun` | backend/go-services/internal/escrow/service.go:204-376 | One uninterrupted processHoldTx is the protocol's claim, check, pay, finish |
| `EscrowTheorems.RetryClosesGap` | backend/go-services/internal/escrow/service.go:318-376 | A retry after a crash between the commits moves no money in the ledger, releases the hold and closes the gap by its amount |
| `EscrowTheorems.TerminalHoldChangesExactly` | backend/go-services/internal/escrow/repository.go:141-175 | A released, refunded or cancelled hold changes in a run if and only if it is not refunded and the run commits a refund of it; then it ends up refunded |
| `EscrowRecipients.EveryReleasePaysItsVendor` | backend/go-services/internal/escrow/service.go:334-369 | In every run each credit of a vendor is for the vendor and the amount of its hold |
| `EscrowRecipients.EveryRefundNamesItsCustomer` | backend/go-services/internal/escrow/service.go:444-531 | In every run each credit of a customer was read before by a dispute or return refund - for the customer of that hold's order at that moment, with the amount and the ledger request it read - or made by the admin with that customer and amount |
| `EscrowRecipients.RefundChangesOneWallet` | backend/go-services/internal/escrow/service.go:489-530 | The commit of a refund changes that customer's wallet by exactly its amount, the hold, the order's payment status and, for a return, the order's debts, and nothing else |
| `EscrowRecipients.ReleaseChangesExactly` | backend/go-services/internal/escrow/service.go:334-372 | The commit of a release changes the hold, the vendor's balance and lifetime earnings by the amount, and the order's flag, and nothing else |
| `EscrowRecipients.ReleasedOrderNeverPasses` | backend/go-services/internal/escrow/service.go:224-228 | After it the gates are closed for every hold of the order |
| `EscrowRecipients.ReleaseWritesItsLeg` | backend/go-services/internal/escrow/service.go:318-332 | The ledger leg of a release moves the amount of the hold from the locked escrow to the withdrawable account, with the order as its reference and under a key of the hold's own |
| `EscrowRecipients.FreezeAndBack` | backend/go-services/internal/escrow/repository.go:160-174 | A freeze takes every held or paid-out hold of the order from the release job under the dispute's id, no other, and a rejection gives them back as held |
| `EscrowRecipients.CancelEndsHolds` | backend/go-services/internal/escrow/repository.go:141-147 | A cancellation ends every held or paid-out hold of the order and touches no other |
| `EscrowRecipients.ExtendPostpones` | backend/go-services/internal/escrow/repository.go:151-157 | After an extension the held holds of the order expire from the new time on, and no other changes |
| `EscrowRecipients.AdminUnfreezesOrder` | backend/go-services/internal/admin/service.go:942-950 | The admin's unfreeze gives back every disputed hold of the order |
| `EscrowTheorems.RefundIsHarmlessExactly` | backend/go-services/internal/escrow/service.go:491-494 | A refund commit keeps every credit exactly once and every terminal hold as it was if and only if its hold is held or disputed |
| `EscrowTheorems.ClaimedOrderIsNotReleased` | backend/go-services/internal/escrow/service.go:224-228 | With one hold per order the already-released branch is never taken |
| `EscrowTheorems.LatestDebtIsNewest` | backend/go-services/internal/escrow/service.go:273-276 | The debt consulted is the newest one of the order |
| `EscrowTheorems.GatePassesExactly` | backend/go-services/internal/escrow/service.go:230-316 | The gates pass exactly when there is no open dispute, the order is delivered or completed, and the newest COD debt is settled or, without COD, the payment status is empty or paid |
| `EscrowTheorems.GateGivesUpExactly` | backend/go-services/internal/escrow/service.go:205-316 | The claim is given up silently exactly for an unknown or released order, and with an error exactly for a COD order whose only fault is a debt record still missing after 72 hours; otherwise a closed gate puts the hold back |
| `EscrowTheorems.EqualFoldExactly` | backend/go-services/internal/escrow/service.go:257-316 | A status compares equal to a word exactly when it has the same length and the same letters in any case |
| `EscrowTheorems.UndeliveredNeverPasses` | backend/go-services/internal/escrow/service.go:257-262 | An order whose status is neither delivered nor completed, in any case, never passes the gates |
| `EscrowTheorems.CancelledNeverPasses` | backend/go-services/internal/escrow/service.go:257-262 | In particular a cancelled one |
| `EscrowTheorems.UnpaidNeverPasses` | backend/go-services/internal/escrow/service.go:265-316 | Nor does an order with a payment status other than paid, or a COD order without a settled newest debt |
| `EscrowTheorems.NoReleaseWhileBlocked` | backend/go-services/internal/escrow/service.go:204-376 | One uninterrupted call either releases, and then the gates held, or leaves holds, orders and wallets alone |
| `EscrowGates.PassedWasChecked` | backend/go-services/internal/escrow/service.go:204-316 | In every run a worker that is past the gates passed them in a step of that run, with the order deliverable, paid or settled and free of disputes at that moment, and has kept its hold since |
| `EscrowGates.EveryReleaseWasChecked` | backend/go-services/internal/escrow/service.go:204-376 | In every run a vendor is credited, and a hold released, only by a worker that checked the hold earlier with open gates and kept it until its commit |
| `EscrowGates.ClosedOnlyByTheWorld` | backend/go-services/internal/escrow/service.go:318-376 | If the gates of a worker past its check are closed later, a change to orders, disputes or debts by the rest of the platform closed them: no release, refund, freeze or ledger call does |
| `EscrowGates.QuietReleaseIsOpen` | backend/go-services/internal/escrow/service.go:318-376 | So a release in a run without such a change commits while the gates are open |
| `EscrowGates.DisputeAfterCheckIsReleased` | backend/go-services/internal/escrow/service.go:334-376 | A dispute opened between the ledger transfer and the commit stops no worker: the hold is released with the dispute open, and the freeze that follows leaves it alone |
| `EscrowTheorems.StaleCodHoldIsNeverReleased` | backend/go-services/internal/escrow/service.go:277-297 | A COD hold without a debt record is not released at any age, the 72 hours included |
| `EscrowTheorems.ReleaseSucceeds` | backend/go-services/internal/ledger/service.go:81-134 | The release transfer is answered with a transaction exactly when the amount is positive |
| `EscrowLimits.DisputeRefundPaysOneHundredth` | backend/go-services/internal/escrow/service.go:444-531 | A dispute refund can be planned exactly for whole rupees and pays one hundredth of the hold, because it reads the rupee column |
| `EscrowLimits.ReturnRefundPaysExactly` | backend/go-services/internal/escrow/service.go:575-640 | A return refund too can be planned exactly for whole rupees; it pays one hundredth of the hold exactly when asked for the whole hold or for that hundredth, and otherwise what it is asked for |
| `EscrowLimits.RefundLegExactly` | backend/go-services/internal/escrow/service.go:467-479 | The ledger leg of a refund succeeds exactly for a positive amount and moves it exactly when its key is fresh |
| `EscrowLimits.OverlappingRefundsExactly` | backend/go-services/internal/escrow/service.go:444-531 | Of two refunds that both read first the wallet is credited with both; the ledger pays each key that was fresh once, so wallet and ledger agree if and only if both keys are fresh and differ |
| `EscrowLimits.OverlappingRefundsCreditTwice` | backend/go-services/internal/escrow/service.go:444-531 | Two refunds of one dispute that both read first credit the wallet twice while the ledger pays once; one after the other, the second finds nothing |
| `EscrowLimits.DisputeAndReturnBothPay` | backend/go-services/internal/escrow/service.go:575-705 | A dispute refund and a return refund that both read first use two keys: wallet and ledger pay the customer for both |
| `EscrowLimits.SecondRefundIsStale` | backend/go-services/internal/escrow/service.go:444-531 | In the protocol the second of two refunds to commit is stale, and the customer has been credited twice |
| `EscrowLimits.RefundAcrossReleasePaysBoth` | backend/go-services/internal/escrow/service.go:444-531 | In the protocol a refund that has read its hold and commits after its release is stale: vendor and customer are both credited and the hold ends up refunded |
| `EscrowLimits.ReleaseAfterCrashedRefundExactly` | backend/go-services/internal/escrow/service.go:444-531 | After a refund that died behind its ledger leg, a release of the hold debits the locked escrow for the release alone if and only if the refund key had been used before, and for both otherwise |
| `EscrowLimits.CrashedRefundThenReleaseDebitsTwice` | backend/go-services/internal/escrow/service.go:444-531 | Without concurrency: a dispute refund that dies, a rejected dispute and a release of an unpaid hold debit the locked escrow for the hold, and for the refund too exactly when its key was fresh |
| `EscrowLimits.UnfrozenHoldsAreNotReindexed` | backend/go-services/internal/escrow/service.go:398-439 | The re-index query after a rejection selects none of the holds it has just unfrozen |
| `EscrowPass.IndexPassReleasesExactly` | backend/go-services/internal/escrow/service.go:125-136 | Whatever ids the index holds, a pass over them releases exactly the candidates that the scan's WHERE clause and the gates accept in the same state, and leaves all others alone |
| `EscrowPass.ScanReleasesExactly` | backend/go-services/internal/escrow/service.go:138-175 | The scan releases exactly the expired held holds that no blocked one precedes |
| `EscrowPass.ScanEndsExactlyWhenNothingIsBlocked` | backend/go-services/internal/escrow/service.go:138-175 | The scan loop ends if and only if no expired held hold is blocked, and then after at most as many iterations as there are holds |
| `EscrowPass.ScanMeasure` | backend/go-services/internal/escrow/service.go:138-175 | The number of expired held holds drops by one per release; an iteration that puts a hold back changes nothing |
| `EscrowPass.IndexWithinScanExactly` | backend/go-services/internal/escrow/service.go:111-178 | The index pass releases only what a scan would release exactly when none of its candidates stands behind a blocked hold |
| `EscrowPass.FirstExpired` | backend/go-services/internal/escrow/service.go:149-156 | The row the scan claims: expired, held and first by hold_until |
| `EscrowService.HoldIndex.Add` | backend/go-services/internal/escrow/hold_index.go:24-33 | Sets the member's score |
| `EscrowService.HoldIndex.Remove` | backend/go-services/internal/escrow/hold_index.go:36-41 | Removes that member only |
| `EscrowService.HoldIndex.ClaimExpired` | backend/go-services/internal/escrow/hold_index.go:45-68 | Takes out up to n distinct expired members, lowest scores first, and leaves an expired one behind only if n were taken and none of those scores higher |
| `EscrowService.EscrowService.CreateHold` | backend/go-services/internal/escrow/service.go:48-77 | The table and index after a creation, and when it answers nil; the id is indexed even when no row was inserted |
| `EscrowService.EscrowService.CreateHoldTx` | backend/go-services/internal/escrow/service.go:81-104 | The same inside a caller's transaction: a released or paid-out hold does not stop it, and nothing is indexed |
| `EscrowService.EscrowService.CreateReturnHold` | backend/go-services/internal/escrow/service.go:540-571 | Extends the active holds of the order, without indexing them again, or creates one |
| `EscrowService.CreateKeepsOneHoldExactly` | backend/go-services/internal/escrow/repository.go:50-127 | One hold per order is kept except exactly when the earlier one no longer blocks - cancelled or refunded, inside a transaction also released or paid out - and the new one names another vendor |
| `EscrowAnswers.InsertsExactly` | backend/go-services/internal/escrow/repository.go:50-127 | A hold is inserted exactly for a known order and vendor that have no row together, when no hold of the order is held, disputed, released or paid out - inside a transaction, held or disputed |
| `EscrowService.EscrowService.HoldExistsForOrder` | backend/go-services/internal/escrow/repository.go:86-96 | True exactly when the order has a held or disputed hold |
| `EscrowService.EscrowService.ExtendHoldUntil` | backend/go-services/internal/escrow/repository.go:151-157 | Moves hold_until of the held holds of the order and nothing else |
| `EscrowService.EscrowService.CheckGates` | backend/go-services/internal/escrow/service.go:205-316 | The nested checks compute the verdict about which the theorems speak |
| `EscrowService.EscrowService.CommitRelease` | backend/go-services/internal/escrow/service.go:334-372 | Hold, order, wallet and index after the final commit |
| `EscrowService.EscrowService.ProcessHoldTx` | backend/go-services/internal/escrow/service.go:204-376 | The tables and index after a call, with or without a crash after the ledger leg, and when it returns nil |
| `EscrowService.EscrowService.ReleaseOneHold` | backend/go-services/internal/escrow/service.go:181-201 | Processes the hold only if it is held and expired; nil exactly when processHoldTx is reached and returns nil |
| `EscrowService.EscrowService.ReleaseExpiredHolds` | backend/go-services/internal/escrow/service.go:111-178 | One pass over the claimed candidates or, without any, over the scan; the count is that of nil returns |
| `EscrowService.ReportIsExactlyReleases` | backend/go-services/internal/escrow/service.go:126-136 | The count of an index pass is never below the releases made and equals them exactly when no candidate was skipped by the gates |
| `EscrowAnswers.NilExactly` | backend/go-services/internal/escrow/service.go:204-376 | A release returns nil exactly if it commits, or if the gates are closed for another reason than a debt record missing after 72 hours |
| `EscrowReport.ScanReportExactly` | backend/go-services/internal/escrow/service.go:138-175 | A scan of n iterations releases the holds that no blocked one precedes, as far as n goes, and reports them; if it stops at a hold that the gates skip it reports every further iteration too, so the report equals the releases if and only if n does not exceed them or it does not stop there |
| `EscrowService.LostHoldIsStillReleased` | backend/go-services/internal/escrow/service.go:114-178 | A hold lost from the index is released by the call that finds no expired member there, unless it stands behind a blocked one |
| `EscrowService.EscrowService.FreezeForDispute` | backend/go-services/internal/escrow/service.go:379-386 | Held and paid-out holds of the order become disputed and leave the index |
| `EscrowService.EscrowService.CancelForOrder` | backend/go-services/internal/escrow/service.go:389-395 | Held and paid-out holds of the order become cancelled and leave the index |
| `EscrowService.EscrowService.UnfreezeOnRejection` | backend/go-services/internal/escrow/service.go:398-404 | Disputed holds of the dispute become held; only holds still carrying the dispute id are indexed again |
| `EscrowService.EscrowService.RemoveHoldsFromIndex` | backend/go-services/internal/escrow/service.go:407-421 | Exactly the closed and disputed holds of the order leave the index |
| `EscrowAnswers.ClosedIdsExactly` | backend/go-services/internal/escrow/service.go:407-421 | The entries removed are those of the order's cancelled, released, refunded and disputed holds |
| `EscrowService.EscrowService.ReAddHoldsToIndex` | backend/go-services/internal/escrow/service.go:424-439 | Exactly the held holds with that dispute id are added |
| `EscrowAnswers.HeldScoresExactly` | backend/go-services/internal/escrow/service.go:424-439 | The entries put back are the held holds that carry the dispute's id, each at its own time |
| `EscrowService.EscrowService.RebuildIndex` | backend/go-services/internal/escrow/service.go:859-879 | The index afterwards: the held holds at their hold_until over the earlier entries, which all stay |
| `EscrowService.AllHeldScoresExactly` | backend/go-services/internal/escrow/service.go:859-879 | What a rebuild adds are exactly the ids of the held holds, each at its hold_until |
| `EscrowService.EscrowService.RefundDispute` | backend/go-services/internal/escrow/service.go:444-531 | The tables and index after a refund of some disputed hold of the dispute, with or without a crash after the ledger leg; nil exactly when the refund could be planned, its transfer succeeded and there was no crash, and then that order's customer has one hundredth of the hold more |
| `EscrowService.EscrowService.RefundForReturn` | backend/go-services/internal/escrow/service.go:575-705 | The same for a return, with the amount asked for or one hundredth, and which fallback is taken when there is no hold to refund from |
| `EscrowAnswers.ActiveExactly` | backend/go-services/internal/escrow/repository.go:86-96 | An order has an active hold exactly with one of its own that is held or disputed; a dispute is refunded from a hold exactly if that is disputed under its id |
| `EscrowAnswers.WithoutHoldExactly` | backend/go-services/internal/escrow/service.go:590-612 | Without an open hold a return is clawed back exactly for a released order, refunded from the debt exactly for another COD order, and else rejected |
| `EscrowService.EscrowService.PayPlan` | backend/go-services/internal/escrow/service.go:467-530 | Ledger leg first, then hold, wallet, order and debts in one commit |
| `EscrowMoves.MoveToVendorPendingEscrow` | backend/go-services/internal/ledger/escrow_service.go:12-25 | The ledger and reply of the hold transfer |
| `EscrowMoves.ReleaseEscrowToVendor` | backend/go-services/internal/ledger/escrow_service.go:29-61 | The ledger and reply of the split release, and the refusal of a rate outside 0 to 100 |
| `EscrowMoves.ReverseEscrowToCustomer` | backend/go-services/internal/ledger/escrow_service.go:64-77 | The ledger and reply of the refund transfer |
| `EscrowMoves.MovesWrite` | backend/go-services/internal/ledger/escrow_service.go:12-77 | Holding writes a leg from the central to the pending escrow, reversing one from there to the refunds account, each with its reference and key |
| `EscrowMoves.ReleaseWrites` | backend/go-services/internal/ledger/escrow_service.go:29-61 | Releasing writes two legs out of the pending escrow: that percentage of the amount, within half a paisa, to the platform and the rest to the vendor |
| `EscrowMoves.ReleaseIsAllOrNothing` | backend/go-services/internal/ledger/escrow_service.go:29-61 | Takes exactly the amount out of the pending escrow, split between platform and vendor, exactly when the rate is a percentage, neither leg rounds away and the keys are fresh; otherwise applies nothing |
| `EscrowMoves.LegsCountExactly` | backend/go-services/internal/ledger/escrow_service.go:34-35 | Both legs are positive exactly when the platform's share is at least and the vendor's more than half a paisa |
| `EscrowMoves.ExtremeRatesNeverRelease` | backend/go-services/internal/ledger/escrow_service.go:29-61 | At a commission of 0 or 100 percent nothing is ever released |
| `EscrowMoves.HoldThenReleaseCancelsOut` | backend/go-services/internal/ledger/escrow_service.go:12-61 | Holding an amount and releasing it leaves the pending escrow as it was |
| `EscrowMoves.ReleaseThenReversePaysTwiceExactly` | backend/go-services/internal/ledger/escrow_service.go:29-77 | Nothing ties the refund to the release: a release and a reversal of one order take the amount out of the pending escrow twice if and only if the release would commit and the refund key is fresh |
| `LocationSync.Worker.ReadPass` | backend/go-services/internal/syncworker/worker.go:184-201 | The clock and cell of every rider of the batch, as stored before it |
| `LocationSync.WritePass` | backend/go-services/internal/syncworker/worker.go:203-309 | The queued commands amount to the payload-by-payload merge against the values read first |
| `LocationSync.Worker.FlushBatch` | backend/go-services/internal/syncworker/worker.go:182-316 | The stored keys and shards after a batch |
| `LocationSync.Worker.Start` | backend/go-services/internal/syncworker/worker.go:132-155 | Every payload received is flushed once, in order, in batches of 1 to 100 |
| `LocationSync.FlushOfOneExactly` | backend/go-services/internal/syncworker/worker.go:203-309 | One payload: nothing if stale; gone if offline; moved, with its shard entry, if neither coordinate is zero; otherwise its clock alone |
| `LocationSync.BatchesMergeTheStream` | backend/go-services/internal/syncworker/worker.go:203-309 | Clock, coordinates and cells of a rider depend only on the concatenated stream, not on where it is cut |
| `LocationSync.LatestPayloadWins` | backend/go-services/internal/syncworker/worker.go:203-309 | They are those of the rider's highest-timestamp payload in any order of arrival, if that one is offline or positioned |
| `LocationSync.ConvergesExactly` | backend/go-services/internal/syncworker/worker.go:218-257 | Every order of arrival gives the same record exactly when the newest payload is offline or positioned, or none of the rider's payloads is positioned |
| `LocationSync.RedeliveryIsANoOp` | backend/go-services/internal/syncworker/worker.go:207-221 | Flushing already flushed payloads again, later and in any order, changes no key and no shard |
| `LocationSync.ClocksNeverDecrease` | backend/go-services/internal/syncworker/worker.go:207-224 | No flush moves a clock back |
| `LocationSync.RidersArePresent` | backend/go-services/internal/syncworker/worker.go:257-301 | A rider with a last_h5 is always in that shard at its latest coordinates |
| `LocationSync.FlushLeavesNoGhostExactly` | backend/go-services/internal/syncworker/worker.go:232-301 | A flush leaves no ghost entry exactly when every shard entered by an accepted payload is the one read before the batch or the last one |
| `LocationSync.ShardsAgree` | backend/go-services/internal/syncworker/worker.go:232-305 | If no batch has a rider twice, a rider is in shard c exactly when its last_h5 is c |
| `LocationSync.TwoMovesLeaveAGhost` | backend/go-services/internal/syncworker/worker.go:232-301 | Two moves of one rider in one batch leave it in two shards |
| `Proximity.FindNearbyRiders` | backend/go-services/internal/delivery/service/proximity.go:46-87 | The answer is the capped, sorted, first-occurrence merge of the shards' answers |
| `Proximity.SortRidersByDistance` | backend/go-services/internal/delivery/service/proximity.go:91-101 | The array in place becomes the insertion sort of what it was |
| `Proximity.InsertAt` | backend/go-services/internal/delivery/service/proximity.go:93-99 | One round puts the element behind everyone at most as far away |
| `Proximity.SortIsAscending` | backend/go-services/internal/delivery/service/proximity.go:91-101 | The sort orders by distance |
| `Proximity.SortIsStable` | backend/go-services/internal/delivery/service/proximity.go:91-101 | Riders equally far away keep their order, so the sort only rearranges |
| `Proximity.DedupIsDistinct` | backend/go-services/internal/delivery/service/proximity.go:65-69 | No rider is reported twice |
| `Proximity.DedupKeepsFirst` | backend/go-services/internal/delivery/service/proximity.go:65-69 | The entry kept of a rider is the first one in the order of the answers |
| `Proximity.KeptIsClosestExactly` | backend/go-services/internal/delivery/service/proximity.go:65-69 | It is the closest entry of that rider if and only if no later entry with its id is closer |
| `Proximity.NearestExactly` | backend/go-services/internal/delivery/service/proximity.go:46-87 | For all replies: the answer is free of duplicates, sorted, within the radius, and no entry left out is closer than one in it - the global closest maxRiders - if and only if every entry of a rider other than its first has at least maxRiders first entries no further away |
| `Proximity.NearestKMerge` | backend/go-services/internal/delivery/service/proximity.go:46-87 | So it is whenever the entries of one rider agree, in particular when it lives in one shard |
| `Proximity.GhostEntryWins` | backend/go-services/internal/delivery/service/proximity.go:65-77 | A rider has a later entry closer than its first: the answer is not the global closest maxRiders when fewer than maxRiders first entries are as close as the later one, and the stale entry is in it when at most maxRiders are as close as that |
| `Proximity.OneGhostIsEnough` | backend/go-services/internal/delivery/service/proximity.go:65-77 | Two shards and one rider in both: it is reported at its old distance, and the answer is not the nearest one |
| `Geohash.GeohashPrefix` | backend/go-services/internal/delivery/service/bid_ttl.go:135-172 | Terminates with the geohash of the point, no characters for a precision below one; the integer index or-ed together for each character stays below 32 |
| `Geohash.CellContainsPoint` | backend/go-services/internal/delivery/service/bid_ttl.go:145-164 | The cell read back from the result contains the point |
| `Geohash.SameGeohashIffSameCell` | backend/go-services/internal/delivery/service/bid_ttl.go:145-170 | Two points get the same string exactly when they lie in the same cell |
| `Base32.ShorterIsPrefix` | backend/go-services/internal/delivery/service/bid_ttl.go:144-170 | A shorter precision gives a prefix of a longer one |
| `Base32.BuildingGoesOn` | backend/go-services/internal/delivery/service/bid_ttl.go:155-169 | Or-ing the weight of the next bit into the index keeps it the number that its bits spell, below 32; the fifth bit completes the character |
| `Base32.AlphabetExactly` | backend/go-services/internal/delivery/service/bid_ttl.go:136-136 | The alphabet is the digits and the small letters but a, i, l and o, each once and in order |
| `Geohash.KnownGeohash` | backend/go-services/internal/delivery/service/bid_ttl.go:135-172 | A point east and a little south of the origin has the geohash k |
| `Geohash.StringRoundTrip` | backend/go-services/internal/delivery/service/bid_ttl.go:135-172 | Every string over the alphabet is the geohash of exactly the points of its cell |
| `Geohash.CellSize` | backend/go-services/internal/delivery/service/bid_ttl.go:145-164 | A cell is 360/2^ceil(5n/2) wide and 180/2^floor(5n/2) high |
| `GigLifecycle.DeliveryRepository.CreateGig` | backend/go-services/internal/delivery/repository/delivery_repository.go:58-160 | The tables after a creation; a gig is added exactly when it answers ok |
| `GigLifecycle.DeliveryRepository.AcceptGigWithEligibility` | backend/go-services/internal/delivery/repository/delivery_repository.go:262-390 | Assigns the rider exactly when every condition holds |
| `GigLifecycle.DeliveryRepository.AcceptGig` | backend/go-services/internal/delivery/repository/delivery_repository.go:394-432 | Assigns the rider exactly when the gig is broadcasting |
| `GigLifecycle.DeliveryRepository.UpdateGigStatus` | backend/go-services/internal/delivery/repository/delivery_repository.go:631-728 | Moves only along the transition table, clears the rider on a revert, pays it with a completion |
| `GigLifecycle.DeliveryRepository.CancelDeliveryForOrder` | backend/go-services/internal/delivery/repository/delivery_repository.go:792-811 | Cancels the order's gigs that are on the way, and only those |
| `GigLifecycle.DeliveryRepository.CancelGigAndOrder` | backend/go-services/internal/delivery/service/gig_timeout_worker.go:129-160 | Gig and order after a timeout |
| `GigLifecycle.DeliveryRepository.CancelOrder` | backend/go-services/internal/order/service/order_timeout_worker.go:116-150 | A pending order that timed out is cancelled together with every gig of it that is not completed, failed ones included; otherwise nothing changes |
| `GigLifecycle.DeliveryRepository.CancelGigsOfFailedPayment` | backend/go-services/internal/payment_orchestrator/service/stripe_service.go:379-384 | Every gig of the order that is not completed is cancelled, failed ones included |
| `GigLifecycle.DeliveryRepository.CancelExpiredReturn` | backend/go-services/internal/payment_orchestrator/workers/pickup_deadline_worker.go:115-119 | Offered and accepted gigs of the order are cancelled, and only those |
| `GigLifecycle.DeliveryRepository.ReassignRider` | backend/go-services/cmd/admin-service/main.go:1354-1395 | Every gig of the order but the cancelled ones gets the new rider, completed, failed and offered ones included, and so does the order |
| `GigLifecycle.CreatesExactly` | backend/go-services/internal/delivery/repository/delivery_repository.go:58-160 | A creation goes through exactly for a known order and known parties, with a fresh id, when all gigs of the order are cancelled or completed; it puts one gig on offer and a given code onto the order |
| `GigLifecycle.EligibleExactly` | backend/go-services/internal/delivery/repository/delivery_repository.go:275-369 | The conditions of an acceptance one by one: on offer, pickup point known and rider in the zone; paid, about to be settled, or COD and unpaid; rider not known to be unverified; for COD an unblocked wallet below the limit; nothing on the road |
| `GigLifecycle.UnpaidOnlyForCash` | backend/go-services/internal/delivery/repository/delivery_repository.go:295-301 | An unpaid gig may be taken if and only if it is cash on delivery |
| `GigLifecycle.AssignsExactly` | backend/go-services/internal/delivery/repository/delivery_repository.go:371-390 | An assignment writes the rider to its gig and to the gig's order, and nothing else |
| `GigLifecycle.CreditsExactly` | backend/go-services/internal/delivery/repository/delivery_repository.go:706-723 | A paid completion adds the earning to balance and lifetime earnings, leaves the cash as it is, and starts a wallet without cash |
| `GigLifecycle.CancelsExactly` | backend/go-services/internal/delivery/repository/delivery_repository.go:792-811 | Which gigs each of the four cancellations of an order ends |
| `GigLifecycle.TimesOutExactly` | backend/go-services/internal/delivery/service/gig_timeout_worker.go:137-149 | Gig and order after a gig timeout, each by its own guard |
| `GigLifecycle.ReassignsExactly` | backend/go-services/cmd/admin-service/main.go:1374-1390 | Gigs and order after a reassignment |
| `GigTheorems.OneActiveGigPerOrder` | backend/go-services/internal/delivery/repository/delivery_repository.go:101-109 | In every run of all writers of gigs an order has at most one gig outside cancelled and completed |
| `GigTheorems.FinishedGigsNeverChange` | backend/go-services/internal/delivery/repository/delivery_repository.go:31-36 | A cancelled gig never changes again; a completed one stays completed and changes only its rider, to that of the last reassignment of its order |
| `GigTheorems.RidersArePaidOnce` | backend/go-services/internal/delivery/repository/delivery_repository.go:706-723 | Lifetime earnings are the sum of the earnings passed at the completions of the gigs the rider had at that moment, one completion per completed gig; the balance is that sum plus what payouts, fees and cash changed |
| `GigTheorems.UpdatesMoveExactly` | backend/go-services/internal/delivery/repository/delivery_repository.go:31-36 | A status update goes through exactly one place further on the way from offer to completion, to failed on it, or from accepted back on offer, and then changes only its gig |
| `GigTheorems.EveryCheckedGigMayBeTaken` | backend/go-services/internal/delivery/repository/delivery_repository.go:262-390 | In every run a gig that the check took off offer was taken in a step at which each of those conditions held |
| `GigTheorems.FailedGigIsCancelledExactly` | backend/go-services/internal/order/service/order_timeout_worker.go:136-140 | A failed gig leaves that status in a run if and only if the run times out its order while that is pending or fails its payment; then it is cancelled |
| `GigTheorems.FailedGigBlocksOrder` | backend/go-services/internal/delivery/repository/delivery_repository.go:101-109 | A failed gig counts as active: its order gets another gig in a run only after such a cancellation |
| `GigTheorems.CancelledOrderGetsAnother` | backend/go-services/internal/delivery/repository/delivery_repository.go:101-160 | After one it does: the creation that follows goes through, whatever the status of the order |
| `GigTheorems.TimeoutCancelsOrderOnlyExactly` | backend/go-services/internal/delivery/service/gig_timeout_worker.go:137-149 | The order is cancelled under a live gig exactly when the gig has left broadcasting and the order is still open |
| `GigTheorems.WithoutRiderExactly` | backend/go-services/internal/delivery/repository/delivery_repository.go:631-700 | In every run a gig that is accepted, under way, completed or failed has no rider if and only if a status update took it off offer and nobody reassigned it since it was put there |
| `GigTheorems.OfferedGigHasRiderExactly` | backend/go-services/cmd/admin-service/main.go:1374-1377 | A gig on offer has a rider if and only if somebody reassigned it there |
| `GigTheorems.CompletionPaysNobodyExactly` | backend/go-services/internal/delivery/repository/delivery_repository.go:703-723 | A completion pays nobody if and only if its earning is not positive, the rider has an empty id, or the gig has no rider in the way just described |
| `GigTheorems.UnassignedGigPaysNobody` | backend/go-services/internal/delivery/repository/delivery_repository.go:649-723 | So a gig on offer that nobody reassigned goes to its end by status updates alone, and pays nobody |
| `GigTheorems.EligibleKeepsOneExactly` | backend/go-services/internal/delivery/repository/delivery_repository.go:359-376 | An eligible acceptance keeps a rider at one gig under way if and only if the rider has no accepted gig: the check looks for a status that gigs never have in its place |
| `GigTheorems.OneGigAtATimeExactly` | backend/go-services/internal/delivery/repository/delivery_repository.go:262-390 | In every run whose riders are assigned through the check alone, a rider has at most one gig under way throughout if and only if no acceptance found it with an accepted gig |
| `CircuitBreaker.CircuitState.Allow` | backend/go-services/internal/gateway/router.go:58-72 | The answer and the new state of one request |
| `CircuitBreaker.CircuitState.RecordSuccess` | backend/go-services/internal/gateway/router.go:74-80 | The new state: closed |
| `CircuitBreaker.CircuitState.RecordFailure` | backend/go-services/internal/gateway/router.go:82-89 | The new state: one more failure, opened now from the threshold on, the probe flag as it was |
| `CircuitBreaker.NewBreaker` | backend/go-services/internal/gateway/router.go:131-131 | The gateway's breakers start closed with threshold 5 and 15 seconds |
| `CircuitBreaker.FieldsFollowHistory` | backend/go-services/internal/gateway/router.go:45-89 | The fields are the failures since the last success, the time of the last of them once the threshold is reached, and whether a request got through while open |
| `CircuitBreaker.AdmittedExactly` | backend/go-services/internal/gateway/router.go:58-72 | A request is admitted exactly when the breaker is closed, or the timeout since the last failure is over and none got through since the last success |
| `CircuitBreaker.ClosedForTheTimeout` | backend/go-services/internal/gateway/router.go:58-72 | While open nothing is admitted until more than the timeout after the latest failure |
| `CircuitBreaker.OneProbeUntilSuccess` | backend/go-services/internal/gateway/router.go:64-70 | At most one request is admitted between an opening and the next success, so a failed probe blocks for good |
| `CircuitBreaker.SuccessCloses` | backend/go-services/internal/gateway/router.go:74-80 | The request after a success is admitted |
| `CircuitBreaker.NonPositiveThresholdIsOne` | backend/go-services/internal/gateway/router.go:82-89 | A threshold below 1 behaves like 1 |
| `Commission.SplitsSumToTotal` | backend/go-services/internal/payment_orchestrator/commission.go:80-95 | Both splits hand out exactly the total, for all rates, fees and signs |
| `Commission.SplitIsFair` | backend/go-services/internal/payment_orchestrator/commission.go:80-95 | Rider first, then platform, then vendor, each from what is left; no part is negative |
| `Commission.CODSplitIsFair` | backend/go-services/internal/payment_orchestrator/commission.go:136-152 | The same with the surcharge |
| `Commission.CashFavoursThePlatform` | backend/go-services/internal/payment_orchestrator/commission.go:134-152 | For equal fee the COD split never lowers the platform's part or raises the vendor's |
| `Commission.NegativePartExactly` | backend/go-services/internal/payment_orchestrator/commission.go:84-95 | A part is negative exactly when the rounded share is and the fee leaves room for it |
| `Commission.RoundIsNearest` | backend/go-services/internal/payment_orchestrator/commission.go:14-16 | Rounding is off by at most a half and never crosses zero |
| `Commission.RoundExactly` | backend/go-services/internal/payment_orchestrator/commission.go:14-16 | The rounded number is the one integer within a half, and of two such the one further from zero |
| `Commission.SplitsInPercent` | backend/go-services/internal/payment_orchestrator/commission.go:50-150 | The platform's share is within half a paisa of the store's rate, or the default, in percent of the total, with the surcharge for cash; the fee within half a paisa of its rupees, none without a gig |
| `Checkout.CheckoutService.ReserveInventory` | backend/go-services/internal/checkout/service/checkout_service.go:57-81 | All items are taken or none |
| `Checkout.CheckoutService.CompensateFailedInventory` | backend/go-services/internal/checkout/service/checkout_service.go:116-142 | Every named, existing product gets its items back |
| `Checkout.CheckoutService.CreateCheckoutTransaction` | backend/go-services/internal/checkout/service/checkout_service.go:33-111 | A checkout whose payment cannot be set up leaves the stock as it was |
| `Checkout.ReserveSucceedsExactly` | backend/go-services/internal/checkout/service/checkout_service.go:64-79 | A reservation succeeds exactly when every item names a stocked product that covers all the items asking for it together |
| `Checkout.PaddedIdNamesProduct` | backend/go-services/internal/checkout/service/checkout_service.go:67-70 | White space around a product id does not matter, and nothing else does |
| `Checkout.CompensateUndoesReserve` | backend/go-services/internal/checkout/service/checkout_service.go:57-142 | Compensating undoes reserving, repeated items included |
| `Checkout.StockIsConserved` | backend/go-services/internal/checkout/service/checkout_service.go:57-142 | In every interleaving with the product service's writers, stock plus reserved plus sold is what there was plus what that service added, product by product |
| `Checkout.AllFailedRestoresStock` | backend/go-services/internal/checkout/service/checkout_service.go:116-142 | Once every payment has failed and been compensated the stock is what it was, plus what the product service added |
| `Checkout.NeverOversold` | backend/go-services/internal/checkout/service/checkout_service.go:72-79 | With quantities that are not negative no product goes below zero |

## Left out

- Postgres, Redis, Kafka, TigerBeetle and H3 internals: tables are sequences and maps, a sorted set is
  a map from member to score, an H3 cell is an unknown function of a position.
- HMAC signatures, descriptions and timestamps of ledger rows, JSON round trips of payloads; MD5 and
  UUID conversions are taken as free of collisions.
- Integer widths: amounts and sums are unbounded, as are the column widths of keys.
- Failures of the database itself in the middle of an operation, other than the crashes modelled.
- Statuses are compared with ASCII words only; folding between two other strings is not modelled.
- EscrowService.EscrowService.RefundForReturn: hands over to the vendor clawback and the COD refund without
  modelling them; their wallet updates are not idempotent on retry and their ledger leg is an ordinary
  transfer.
- The already-released branch of processHoldTx as code: it updates, through a second connection, the row
  its own transaction has locked. It is proved unreachable with one hold per order.
- EscrowInvariant.NextKeepsInv: supposes one hold per order (`CreateKeepsOneHoldExactly` says when that is kept),
  that only the release job uses keys that begin with "escrow:release:", and no paid-out holds: the only writer
  of that status, the payout worker (payment_orchestrator/workers/payout_worker.go:166-176), first runs an
  aggregate query with FOR UPDATE, which Postgres refuses, so it rolls back. The checks before a release are read
  in one step, where the code runs one query after the other. The admin's resolution of a dispute
  (internal/admin/service.go:836-946) and manual refund (cmd/admin-service/main.go:1305-1347) credit the customer
  whether or not the hold is still open: without an open hold that is a move of the wallet like any other, not a
  credit for the hold; and the manual refund of a customer without a wallet is a credit of nothing.
- EscrowTheorems.CreditsInEveryRun: what top-ups, payments and other refunds do to a customer's wallet is any
  amount in any step, so nothing is said about those writers themselves.
- EscrowService.EscrowService.CheckGates: escrow_released is a flag without NULL; the code reads NULL as false
  before the release, but its update then leaves a NULL flag as it is.
- The queries for screens and reports, and ReleaseHold and RefundDisputedHold, which nothing calls.
- EscrowService.EscrowService.ReleaseExpiredHolds: one clock value serves the whole call, ties in hold_until go
  by row order, and the loop over the scan is cut after a given number of iterations.
- Index scores are whole seconds in the code; the model compares them with the same clock as hold_until.
- Expiry of Redis keys, the H7 member sets, the PostGIS history, the live GPS cache and the peak path, which
  writes clocks and shards without the guards used here.
- The sets of resolution 8 that the delivery service keeps under the same prefix: no search reads them.
- LocationSync.Worker.FlushBatch: the write pipeline takes effect as a whole.
- Proximity.FindNearbyRiders: a negative maxRiders, which makes the code slice out of range, is not modelled,
  and the order among riders equally far away within one shard is whatever Redis answers.
- Floating point: distances, coordinates and rates are reals, rounding is half away from zero.
- GigLifecycle.DeliveryRepository.UpdateGigStatus: photos are not stored, a status that does not exist is refused
  like any other that is not allowed, and the earning is the whole number that the wallet column receives.
- GigLifecycle.DeliveryRepository.AcceptGigWithEligibility: its checks are read at its commit; in the code two
  acceptances by one rider can run them side by side.
- GigLifecycle.DeliveryRepository.CancelGigsOfFailedPayment: the order and payment rows that the handler also
  writes, in commits of their own, change with the rest of the platform. The same holds for the order behind a
  reassignment or an expired return.
- The rider fee on cancellation and cash collection: they change wallets, but no lifetime earnings.
- CircuitBreaker.CircuitState.Allow: runs under a mutex, so calls are one after the other.
- CalculateRiderDeliveryCredit and the lookups of rates and fees: the values they read are parameters.
- Checkout.CheckoutService.CompensateFailedInventory: its transaction is supposed to commit; the Redis lock and the
  Stripe call are reduced to whether the payment is set up.
- Checkout.StockIsConserved: a vendor may delete a product, which is not a step; the product service's own
  reservations are single updates of one product.
- Authentication, chat, carts, notifications, proxying, ML models and the Flutter applications.
