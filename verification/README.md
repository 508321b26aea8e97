# Time-off balances against an external authority: a verified model

The service lets employees take time off while the authoritative balance lives in another system,
HCM, which changes on its own, answers late, loses answers and sometimes lies. The service keeps a
cached snapshot per employee and location, a ledger of holds and commits, a request lifecycle, and a
transactional outbox whose messages a background drain delivers to HCM; reconciliation absorbs newer
snapshots without counting the service's own debits twice. This project models that protocol in
Dafny and proves what it keeps under every interleaving, including what it does not keep.

## How the model is built

Each source file has a module. What the source computes is a function on values; where the source
changes fields, the module also holds a class with those fields (`Domain.Database` for the tables,
`HcmCore.Engine`, `BalanceService`, `OutboxService`, `TimeOffService`, `SyncService`, `Processor`,
`Mutex`, `Circuit`) whose methods are proved to leave the state the function says.

| layer | modules |
|---|---|
| rows and tables | `Domain`, `Tables` |
| the services | `StateMachine`, `BalanceMath`, `ReconciliationMath`, `HcmCore`, `Balances`, `Outbox`, `TimeOff`, `Sync`, `OutboxProcessor` |
| the whole system as steps | `Protocol`; one request's share of it and the invariant: `Views` |
| every step keeps the invariant | `StoreSteps`, `DeliverySteps`, `Invariant` |
| what follows for every run | `Accounting`, `Spending`, `Coverage`, `ExactlyOnce`, `Deliverability`, `Promises`, `Lifecycle`, `Lifetimes`, `Endings`, `Cancellations`, `Exhaustion`, `Refunds`, `Recall`; runs that end badly: `Witnesses` |
| operations are runs, and where they leave the requests | `Refinement`, `Outcomes` |
| independent parts | `Confluence`, `KeyedMutex`, `CircuitBreaker`, `KeyStrings` |

`Protocol.System` holds the database, HCM with the history of every balance, the drain in progress
and the submits inside their critical section. A transaction is one step. A delivery is three steps
(claim, exchange with HCM, settle) and a submit two (read under the key's lock, check and reserve),
so any other step may fall in between; an exchange may be answered, applied with its answer lost, or
never arrive; the drain may crash; other clients may do anything at HCM; a snapshot offered to
reconciliation may be any balance HCM ever had. A step that cannot be taken changes nothing, so
every list of steps is a run and "for every run" means for every list.

`Views.Shape` states, status by status, which ledger rows, messages and HCM acknowledgements a
request can have; `Views.Inv` adds that the cache is genuine, that claimed copies agree with their
rows and that HCM's log is truthful. `Invariant.EveryRunAgrees` proves it of every run.

## What is proved, in short

- **Accounted for to the day.** In every run the available balance equals a balance HCM really had,
  less the live requests that balance does not contain, less the days counted twice and the orphans
  still held, plus the fakes a later snapshot retired. So it is never overstated unless HCM fakes a
  success, and it is known exactly when days are counted twice.
- **No double count by a snapshot.** After a snapshot is applied a request has an active commit if and
  only if its debit is settled, unrefunded and above the snapshot's version; a settled, unrefunded
  debit HCM really applied is in the snapshot or among the commits, one and not both.
- **Convergence, exactly.** Offered HCM's current snapshot, the available balance is HCM's balance
  less the open requests and less the debits still pending, and none is pending if and only if the
  snapshot was news or none was before.
- **No double spend.** Only a snapshot or an orphan debit can push an available balance below
  zero; check-then-reserve is sound under the lock although everything else interleaves.
- **Promises are covered.** HCM's own balance covers every promised day it has not been told of, up
  to never-refunded debits and outside losses; so an approved debit is otherwise never refused
  for funds.
- **Exactly once.** Each request's debit and credit are written at HCM at most once, whatever is
  lost and retried.
- **Bounded delivery.** At most five tries a message, doubling waits, and repeated drains come to
  rest within eleven drains for each message.
- **Recall.** Cancelling an approved request keeps HCM unmoved in every continuation if and only if
  HCM has not applied its debit and either believes it has or the message is not under way.
- **Terminal states.** In every run they hold no active reservation, and a request in one still holds
  days exactly when its debit was acknowledged after its cancel and the commit that made has not been
  reconciled yet.
- **What is accepted, answered and left.** For every store and every state of HCM: which submits,
  approvals, rejections and cancels are accepted, which answer a command gets, when a first load
  succeeds, and the rows each leaves.
- **Coming to rest.** Once every message is stuck, whoever still waits for HCM waits for a buried or
  lost message; and if every call is delivered and answered, each approved request whose debit was
  not buried or lost before ends committed or failed, and by a HCM without faults each refund arrives.
- **Confluence.** A batch of snapshots has one outcome in any order and multiplicity.
- **The lock and the breaker.** Mutual exclusion, arrival order, no starvation; and the breaker's answer
  as a function of its history.

## Where the code does not do what its documentation says

- The comment at `src/outbox/outbox.processor.ts:15-16` and G6 and C10 of `docs/TRD.md` say a crash
  mid-delivery leaves the message reclaimable. It is never claimed again
  (`Endings.CrashStrandsTheClaimed`, with a run in `Witnesses.InFlightForGood`); exactly the messages
  in flight are lost (`Endings.CrashLosesExactlyTheClaimed`), and without crashes none is
  (`Endings.IdleMeansNothingInFlight`).
- `src/common/state-machine.ts:37-39` says a debit that lands after its request was cancelled is
  reconciled away or compensated. It is never compensated (`Cancellations.OrphanIsNeverRefunded`,
  with a run in `Witnesses.CancelledYetDebited`). `Recall.CancelIsFreeExactly` says for which approved
  requests it cannot land at all.
- `src/balances/balance.service.ts:12-14` says a double count is structurally impossible. A debit
  settled after a snapshot containing it was absorbed is subtracted twice until HCM's next version
  (`Coverage.LateAcknowledgement`, with a run in `Witnesses.CountedTwiceForNow`);
  `Coverage.CountedTwiceExactly` says when, and the understatement is to the day what is counted twice
  (`Coverage.NeverOverstated`, `Coverage.Convergence`).
- `docs/TRD.md:484` says cancelling a commitment credits HCM once and restores the balance. A refused
  credit, or one out of tries, leaves the request waiting for ever, and HCM stays debited exactly if it
  had applied the debit and not the credit (`Refunds.AbandonedStaysDebited`, with a run in
  `Witnesses.RefundRefused`); `Refunds.RefundEndsExactly` says which settlements end it.
- `src/outbox/outbox.service.ts:101-102` says a FAILED message is safe to cancel. It is exactly when
  HCM had not applied it (`Cancellations.CancelIsFreeExactlyWhenUnapplied`); after a lost answer HCM
  stays debited for ever (`Witnesses.CancelledInVain`).
- `src/common/state-machine.ts:13` says exhausted retries reject the request. An approved request
  fails if and only if a refusal of its debit is settled (`Exhaustion.FailsExactlyWhenRefused`); its
  fifth unanswered try, and no earlier one, leaves it approved with its hold in force
  (`Exhaustion.FifthFailureExhausts`, `Exhaustion.ExhaustedKeepsItsHold`, with a run in
  `Witnesses.ApprovedForGood`).
- `src/common/state-machine.ts:49-52` gives cancelled requests no way out. A submit that read the
  draft before the cancel saves its copy after it, and the request is submitted again; it leaves the
  cancelled state exactly then (`Lifecycle.StatusFollowsTable`, with a run in
  `Witnesses.CancelledYetSubmitted`). Cancel does not take the submit's lock and no code compares the
  version column (`src/database/entities/time-off-request.entity.ts:50-52`); a database or mapper that
  serialises the two transactions, or refuses the stale save, excludes that step, and what is proved
  of all runs holds of the remaining ones.
- `docs/TRD.md:316-319` lets reconciliation correct a success HCM only claimed. Drift is logged
  (`OutboxProcessor.DriftIsLogged`), but the next snapshot forgets the debit: the request stays
  committed while nothing is held for it and HCM was never debited (`Coverage.FakedIsForgotten`, with
  a run in `Witnesses.FakedAndForgotten`).
- The joined key `employee|location` is not injective (`KeyStrings.JoinsCollideExactly`).

## Model

| member | source | states |
|---|---|---|
| StateMachine.LifecycleIsBounded | src/common/state-machine.ts:23-53 | the lifecycle has no cycle: under any list of actions a request makes at most five transitions |
| StateMachine.TerminalStates | src/common/state-machine.ts:65-68 | the states that accept no action are exactly rejected, cancelled and failed |
| Lifecycle.StatusFollowsTable | src/common/state-machine.ts:23-53 | every step moves every status along the table, but for a submit that saves a draft cancelled meanwhile; a cancelled request leaves its state exactly then |
| Lifecycle.TerminalHoldsNoReservation | src/common/state-machine.ts:65-68 | in every run every hold of a request in a terminal state is released |
| Lifecycle.TerminalHoldsDaysExactly | src/common/state-machine.ts:65-68 | such a request still holds days if and only if it was cancelled, its debit acknowledged afterwards, and the commit that made not yet reconciled |
| BalanceMath.GrantedExactlyWhenNotOverAllocating | src/common/balance-math.ts:44-51 | a reservation is granted if and only if it is positive and placing it does not over-allocate |
| ReconciliationMath.MatchedIdsAreTheAbsorbed | src/common/reconciliation-math.ts:79-84 | the matched ids are those of the entries HCM acknowledged at or below the snapshot, no others |
| ReconciliationMath.AvailableMovesByUnexplainedDelta | src/common/reconciliation-math.ts:54-124 | an applied snapshot moves the available balance by HCM's movement plus the matched amounts; a stale one moves nothing; the watermark ends at or above both versions |
| ReconciliationMath.OwnDebitsAreInvisible | src/common/reconciliation-math.ts:98-110 | a snapshot that moved by our own matched debits changes the available balance by nothing and is a plain reconcile unless over-allocated |
| ReconciliationMath.FiguresExactly | src/common/reconciliation-math.ts:54-124 | every figure of a result: a stale snapshot reports the old ones and nothing matched, a newer one those it brings, and the event is over-allocation, rise, fall or none by the balances before and after |
| HcmCore.ApplyDeltaKeeps | src/hcm/hcm-core.ts:150-213 | a delivery keeps the log truthful, replays the original acknowledgement without effect, uses up a key exactly when it acknowledges, and touches no other balance |
| HcmCore.ApplyDeltaMoves | src/hcm/hcm-core.ts:176-213 | the balance moves by the signed amount if newly applied and else not; without silent overdraw no debit ends below zero; a debit is refused for funds exactly when it is new, well addressed, unfaked and larger than the balance |
| HcmCore.ReplyExactly | src/hcm/hcm-core.ts:150-213 | for every state and command, which answer comes: replay, unavailable, each refusal, faked, applied, each if and only if; a credit to a valid key without faults is always applied |
| HcmCore.EffectExactly | src/hcm/hcm-core.ts:160-213 | what a command taken up leaves: an unknown key created at zero, then nothing, a faked acknowledgement, or one entry of the balance plus or less the amount, acknowledged under the next version and reference |
| HcmCore.NoEffectExactly | src/hcm/hcm-core.ts:151-174 | any other command is replayed or refused without effect, or takes one injected failure and nothing else |
| HcmCore.FreshIsHonest | src/hcm/hcm-core.ts:71-93 | a fresh engine injects no faults and creates what it is asked for |
| HcmCore.ReadExactly | src/hcm/hcm-core.ts:134-147 | a read is refused exactly for an invalid key, or an unknown one that may not be created; otherwise it answers the last balance and version, creating an unknown key at zero |
| HcmCore.WritesExactly | src/hcm/hcm-core.ts:109-130 | seeding overwrites, adjusting moves a known balance; each is one entry under the next version and touches nothing else |
| HcmCore.EveryRunIsOk | src/hcm/hcm-core.ts:109-213 | after any calls every acknowledgement names a log entry of its own amount and every entry its acknowledgement |
| HcmCore.AppliedKeysAreDistinct | src/hcm/hcm-core.ts:151-155 | the idempotency keys that moved a balance are listed once each and are exactly those acknowledged as applied |
| HcmCore.Conservation | src/hcm/hcm-core.ts:109-213 | over any calls a balance is the outside movements plus the signed amounts of the applied commands, each key once |
| HcmCore.Engine.ConfigureFaults | src/hcm/hcm-core.ts:97-99 | only the faults change |
| HcmCore.Engine.SeedBalance | src/hcm/hcm-core.ts:109-121 | the balance is overwritten under the next version |
| HcmCore.Engine.AdjustBalance | src/hcm/hcm-core.ts:124-130 | an existing balance moves by the delta under the next version; an unknown one is refused |
| HcmCore.Engine.ReadBalance | src/hcm/hcm-core.ts:134-147 | current row, created at zero when unknown and allowed, refused for invalid dimensions |
| HcmCore.Engine.Apply | src/hcm/hcm-core.ts:150-213 | the engine, stored rows and idempotency table included, answers and changes as the abstract authority |
| HcmCore.Engine.StampGhost | src/hcm/hcm-core.ts:179-190 | a ghost success uses up the key at an unchanged balance and version |
| HcmCore.Engine.StampApplied | src/hcm/hcm-core.ts:200-212 | a real success writes the balance and stamps the acknowledgement with the new version |
| Balances.BalanceService.EnsureBalanceLoaded | src/balances/balance.service.ts:33-54 | a first snapshot is inserted, an existing one is left, a refused key loads nothing |
| Balances.LoadedExactly | src/balances/balance.service.ts:33-54 | a first load succeeds if and only if HCM has the key or may create it, and caches HCM's balance and version; a cached key and every other table are left alone |
| Balances.BalanceService.ComputeComponents | src/balances/balance.service.ts:57-82 | the loop's sums are the cached balance and the active amounts of the key by phase |
| Balances.BalanceService.Hold | src/balances/balance.service.ts:106-123 | one active hold is added |
| Balances.BalanceService.Unreserve | src/balances/balance.service.ts:126-132 | the request's active holds become released, nothing else |
| Balances.BalanceService.CommitHold | src/balances/balance.service.ts:139-159 | holds released and one active commit added, stamped with HCM's version |
| Balances.BalanceService.Uncommit | src/balances/balance.service.ts:162-168 | the request's active commits become released, nothing else |
| Outbox.ClaimedExactly | src/outbox/outbox.service.ts:46-53 | a message is claimed if and only if it is pending or its backoff has elapsed, and fewer older ones are than the limit |
| Outbox.OldestFirst | src/outbox/outbox.service.ts:46-53 | messages are claimed in the order they were enqueued |
| Outbox.ClaimExactly | src/outbox/outbox.service.ts:44-63 | row by row, the messages taken go in flight without their next attempt and no other row changes; the copies are those messages |
| Outbox.FiftyAtATime | src/outbox/outbox.service.ts:44-54 | a drain claims what is due, fifty messages at most |
| Outbox.RetryExactly | src/outbox/outbox.service.ts:70-97 | a failure counted from the claimed copy buries the row if it was the fifth, else it waits 200, 400, 800 or 1600 ms; no other row changes |
| Outbox.OutboxService.Append | src/outbox/outbox.service.ts:29-41 | one pending message is added |
| Outbox.OutboxService.Claim | src/outbox/outbox.service.ts:44-63 | the due rows go in flight and copies of them are handed out |
| Outbox.OutboxService.Complete | src/outbox/outbox.service.ts:65-67 | the message is done |
| Outbox.OutboxService.RetryOrBury | src/outbox/outbox.service.ts:70-97 | retry with backoff, or dead at the last attempt, counted from the claimed copy |
| Outbox.OutboxService.StopRequest | src/outbox/outbox.service.ts:105-115 | the request's pending and failed messages die, those in flight do not |
| Outbox.OutboxService.Bury | src/outbox/outbox.service.ts:118-124 | the message is dead |
| TimeOff.TimeOffService.NewDraft | src/time-off/time-off.service.ts:73-86 | a draft request is added |
| TimeOff.TimeOffService.SubmitDraft | src/time-off/time-off.service.ts:99-123 | refusals change nothing but a first snapshot; an accepted submit reserves and leaves the available balance non-negative |
| TimeOff.TimeOffService.ApproveOne | src/time-off/time-off.service.ts:126-143 | approved and a debit enqueued together, or nothing; the caller gets the saved request or the error |
| TimeOff.TimeOffService.RejectOne | src/time-off/time-off.service.ts:146-157 | rejected and the hold released together, or nothing; the caller gets the saved request or the error |
| TimeOff.TimeOffService.CancelOne | src/time-off/time-off.service.ts:164-193 | a committed request gets a credit, an earlier one loses its hold and its queued debit, an illegal one changes nothing |
| TimeOff.SubmitRefusals | src/time-off/time-off.service.ts:107-117 | a submit is refused for a missing request, a request that is no draft, or days not positive and within the available balance, and the error says which |
| TimeOff.SubmitExactly | src/time-off/time-off.service.ts:107-122 | a submit is granted exactly to a draft whose positive days are available; it becomes pending with one active hold of its days |
| TimeOff.FirstSubmitExactly | src/time-off/time-off.service.ts:99-122 | on an uncached key, exactly if HCM has or may create it and the days fit its balance less the key's active rows |
| TimeOff.ApproveExactly | src/time-off/time-off.service.ts:126-143 | an approval is accepted exactly for a pending request, with one pending debit of its days under its own key, and the refusals say why |
| TimeOff.RejectExactly | src/time-off/time-off.service.ts:146-157 | a rejection is accepted exactly for a pending request, whose active hold is released, and the refusals say why |
| TimeOff.CancelExactly | src/time-off/time-off.service.ts:164-193 | a cancel is accepted exactly for a draft, pending, approved or committed request, with what each becomes and leaves row by row, and the refusals say why |
| TimeOff.ReservingCosts | src/balances/balance.service.ts:106-123 | a hold lowers the available balance of its own key by its days and no other |
| Sync.MatchingRetiresTheAbsorbed | src/sync/sync.service.ts:113-147 | matching by row id retires exactly the key's active commits at or below the version |
| Sync.ReconcileAgreesWithStore | src/sync/sync.service.ts:87-178 | the pure result's before and after are the available balances the ledger derives; a stale update changes nothing; other keys keep theirs; over-allocation is logged |
| Sync.ReconcileExactly | src/sync/sync.service.ts:87-152 | a snapshot no newer than the cached one does nothing; a newer one, any for a key not cached, replaces it and retires row by row the commits acknowledged by then |
| Sync.EventsTellWhatChanged | src/sync/sync.service.ts:154-173 | the event logged is what the employee sees change, and nothing is logged when nothing changes |
| Sync.SyncService.ReconcileOne | src/sync/sync.service.ts:87-178 | the transaction leaves the store and the result of the pure reconcile |
| Sync.SyncService.Ingest | src/sync/sync.service.ts:46-55 | rows one after the other, with the counts of applied and over-allocated ones |
| Sync.SyncService.Refresh | src/sync/sync.service.ts:64-73 | the store is left as reconciling the row HCM now has for the key leaves it; a refusal changes nothing anywhere |
| Sync.SyncService.ReconcileAll | src/sync/sync.service.ts:61-76 | the store is left as ingesting HCM's current row of every cached key once leaves it, or of those before the key HCM refused |
| Sync.ListedExactly | src/sync/sync.service.ts:61-76 | those rows are HCM's current ones of the keys swept, each once and no others |
| OutboxProcessor.DriftIsLogged | src/outbox/outbox.processor.ts:122-126 | a ghost success of a debit is the one outcome that logs drift |
| OutboxProcessor.SettledMessage | src/outbox/outbox.processor.ts:72-155 | the delivered message's row becomes done, buried or failed once more by HCM's answer, also when its request is gone; no other row changes |
| OutboxProcessor.SettledRequest | src/outbox/outbox.processor.ts:94-155 | the status and reference of the request after each answer, for each status it may have; no other request changes |
| OutboxProcessor.SettledLedger | src/outbox/outbox.processor.ts:94-155 | the ledger rows after each answer: hold into commit, commit released, hold released, or nothing |
| OutboxProcessor.Processor.DrainOnce | src/outbox/outbox.processor.ts:56-70 | nothing while a drain runs; otherwise one claim, delivered and settled message by message |
| OutboxProcessor.Processor.Deliver | src/outbox/outbox.processor.ts:72-92 | success, refusal or retry by HCM's answer |
| OutboxProcessor.Processor.ApplySuccess | src/outbox/outbox.processor.ts:94-139 | commit or release, status advanced if legal, reference stored, drift logged, message done |
| OutboxProcessor.Processor.ApplyRejection | src/outbox/outbox.processor.ts:141-155 | a refused debit releases its hold and fails its request; a refused credit only dies |
| Invariant.NextKeeps | src/time-off/time-off.service.ts:99-193 | each of the thirteen steps keeps the invariant from any state that has it |
| Invariant.EveryRunAgrees | src/outbox/outbox.processor.ts:94-155 | in every state of every run each request's status fixes its rows, messages, acknowledgements and reference, the cache is genuine and HCM's log truthful |
| Accounting.LedgerByRequest | src/balances/balance.service.ts:65-81 | summing active rows by phase or by request is the same |
| Accounting.AvailableByRequest | src/balances/balance.service.ts:57-82 | the available balance is the snapshot less what each request holds |
| Accounting.HeldValue | src/balances/balance.service.ts:106-168 | a request holds its days or nothing: never two active rows |
| Accounting.EveryStepMovesExactly | src/balances/balance.service.ts:57-168 | the exact change every step makes to every available balance |
| Spending.OnlyTheseLower | src/time-off/time-off.service.ts:125-193 | only a reservation, a snapshot or an orphan acknowledgement lowers an available balance |
| Spending.EveryRunIsBacked | src/time-off/time-off.service.ts:107-122 | what a submit read is still available until it ends, less the orphan debits acknowledged since |
| Spending.CheckThenReserveIsSound | src/time-off/time-off.service.ts:107-122 | a granted reservation over-allocates by no more than those orphan debits, whatever happened in between |
| Spending.NoDoubleSpend | src/time-off/time-off.service.ts:94-123 | the only steps that take an available balance from non-negative to negative |
| Spending.LockIsNeeded | src/common/keyed-mutex.ts:1-7 | two drafts of a key that each fit are both granted when both read first, and the balance ends below zero if and only if together they exceed it |
| Coverage.LedgerStatesAreTruthful | src/sync/sync.service.ts:140-147 | a reconciled row is in the cached snapshot, a released commit is refunded, no request has two active rows |
| Coverage.LedgerOnlyRetires | src/balances/balance.service.ts:106-168 | no step deletes or rewrites a ledger row; a row only leaves the active state, and for good |
| Coverage.StampsAreTruthful | src/hcm/hcm-core.ts:151-155 | a commit's version is where HCM's history shows its debit, even after replays, unless HCM faked the success |
| Coverage.NeverOverstated | src/common/reconciliation-math.ts:79-93 | available equals a genuine snapshot less every live request HCM's history does not show by then, plus the retired fakes, less what is counted twice, less the orphans held |
| Coverage.CountedTwiceExactly | src/balances/balance.service.ts:10-15 | a live request's days are counted twice if and only if HCM applied its debit at or below the watermark and it is unsettled or its commit is still active |
| Coverage.LateAcknowledgement | src/outbox/outbox.processor.ts:107-121 | a commit is counted twice from its birth if and only if HCM applied the debit and a snapshot at or above its version was absorbed before the settlement |
| Coverage.UncoveredIsHeld | src/common/reconciliation-math.ts:79-93 | a live request the snapshot does not show is held, unless its debit was faked and its commit retired: then, and only then, it is not |
| Coverage.FakedIsForgotten | src/outbox/outbox.processor.ts:122-126 | a commit made on a faked success is retired by the next snapshot at or above its version, and then nothing is held for its request |
| Coverage.WatermarkNeverFalls | src/common/reconciliation-math.ts:62-77 | no step lowers a watermark or drops a cached key |
| Coverage.CacheStaysGenuine | src/sync/sync.service.ts:127-152 | over any run the cached balance is the one HCM had under its version, which only grows |
| Coverage.NoDoubleCount | src/sync/sync.service.ts:113-152 | after a snapshot each request of the key has an active commit if and only if its debit is settled, unrefunded and above it; a settled, unrefunded debit really applied is in the snapshot or in a commit, not both |
| Coverage.ActiveCommitRows | src/sync/sync.service.ts:113-147 | and no other row of the ledger is an active commit of the key |
| Coverage.Convergence | src/sync/sync.service.ts:57-76 | with HCM's latest snapshot the available balance is HCM's less the open requests and the debits pending; it is HCM's less the open requests if and only if it was news or nothing was pending |
| ExactlyOnce.WritesAreAcknowledged | src/hcm/hcm-core.ts:151-155 | a key is written in a balance's history once if acknowledged as applied there, else never |
| ExactlyOnce.RequestMoves | src/hcm/hcm-core.ts:200-212 | a request's effect above any version, read off HCM's history, is what its acknowledgements say |
| ExactlyOnce.EachMovesOnce | src/time-off/time-off.service.ts:135-181 | each request's debit and credit are written at most once, for its days; its status says which were acknowledged, for a refunded one both |
| ExactlyOnce.ReferencesAreDistinct | src/outbox/outbox.processor.ts:116-121 | no two requests ever carry the same reference of HCM |
| Deliverability.ServiceMoves | src/hcm/hcm-core.ts:200-212 | the service's total effect on a balance is the sum over its requests |
| Deliverability.BalanceCovers | src/common/reconciliation-math.ts:79-93 | HCM's balance covers the waiting days, the available balance and the orphans held, up to unrefunded debits and outside losses |
| Promises.OrphansGrow | src/outbox/outbox.processor.ts:107-121 | while a key is locked its orphans' holds never shrink, and grow by each orphan acknowledged |
| Promises.EveryRunIsSolvent | src/time-off/time-off.service.ts:94-123 | every step keeps HCM's balance above what is still owed to requests |
| Promises.PromisesAreCovered | src/time-off/time-off.service.ts:94-123 | over every run HCM's balance covers all promised days it has not been told of, up to unrefunded debits and outside losses |
| Promises.ApprovedDebitsAreNotRefused | src/hcm/hcm-core.ts:192-198 | an approved debit refused for funds means an outside loss or an unrefunded debit on its key |
| Lifetimes.StepMovesMessage | src/outbox/outbox.service.ts:44-124 | the exact effect of every step on every stored message |
| Lifetimes.HandedAtMostFiveTimes | src/outbox/outbox.service.ts:70-84 | over any run a message is handed to HCM at most five times, and as often as it failed while it waits |
| Endings.StuckForever | src/outbox/outbox.service.ts:46-53 | a done, dead or lost message never changes again |
| Endings.CrashStrandsTheClaimed | src/outbox/outbox.processor.ts:13-17 | after a crash a message in flight stays in flight in every continuation |
| Endings.CrashLosesExactlyTheClaimed | src/outbox/outbox.service.ts:46-60 | a crash loses the messages in flight and no others |
| Endings.CrashFreeRunsLoseNone | src/outbox/outbox.processor.ts:56-70 | without crashes whatever is in flight is in the running drain's queue |
| Endings.IdleMeansNothingInFlight | src/outbox/outbox.processor.ts:56-70 | without crashes nothing is in flight when no drain runs |
| Endings.WorkIsBounded | src/outbox/outbox.service.ts:44-97 | a run contains at most eleven claims and settlements for each message enqueued |
| Endings.NothingDueMeansAllStuck | src/outbox/outbox.service.ts:46-54 | once backoffs have elapsed, a claim finds nothing if and only if every message is done, dead or lost |
| Endings.FailedDelivery | src/outbox/outbox.service.ts:76-96 | dead at the fifth failure, else retried after 200, 400, 800 or 1600 ms |
| Endings.RetryWaits | src/outbox/outbox.service.ts:46-50 | until its backoff has elapsed a message is left alone, but for a cancel |
| Cancellations.FrozenForever | src/time-off/time-off.service.ts:185-191 | a cancelled request with no deliverable message that no submit is holding keeps itself, its messages, its acknowledgements at HCM and its ledger rows in every continuation, but that an active commit may be reconciled |
| Cancellations.CancelledWhileQueued | src/time-off/time-off.service.ts:185-191 | cancelled with its debit queued, a request never gets a commit, a later debit or a refund |
| Cancellations.CancelIsFreeExactlyWhenUnapplied | src/outbox/outbox.service.ts:99-115 | such a cancel leaves HCM unmoved if and only if HCM had not applied the debit, so always when it was never tried |
| Cancellations.OrphanIsNeverRefunded | src/outbox/outbox.processor.ts:107-121 | a debit acknowledged after the cancel leaves an active commit and is never refunded in any continuation |
| Recall.CancelIsFreeExactly | src/time-off/time-off.service.ts:185-191 | whatever state an approved request's message is in, its cancel leaves HCM unmoved in every continuation if and only if HCM has not applied the debit and either already acknowledged it or the message is not under way |
| Recall.NeverMovesExactly | src/outbox/outbox.service.ts:99-115 | the same for a request already cancelled: as long as its debit may be delivered, some continuation delivers it |
| Exhaustion.FifthFailureExhausts | src/outbox/outbox.service.ts:76-84 | an unanswered try of an approved request's debit leaves it approved with the debit buried if and only if it was the fifth |
| Exhaustion.ExhaustedKeepsItsHold | src/outbox/outbox.service.ts:76-84 | from then on the request stays approved with its hold until it is cancelled |
| Exhaustion.FailsExactlyWhenRefused | src/outbox/outbox.processor.ts:141-155 | an approved request fails exactly when a refusal of its debit is settled |
| Refunds.RefundEndsExactly | src/outbox/outbox.processor.ts:133-153 | a request waiting for its refund is cancelled exactly when the credit's acknowledgement is settled, and the credit is buried exactly by its refusal or fifth failure, the request waiting on |
| Refunds.AbandonedStaysDebited | src/outbox/outbox.processor.ts:152-153 | a request whose credit was buried or lost waits in every continuation, and HCM stays debited for it if and only if it had applied the debit and not the credit |
| Witnesses.CancelledYetDebited | src/time-off/time-off.service.ts:185-191 | a run after which a cancelled request stays debited at HCM whatever follows |
| Witnesses.CancelledInVain | src/outbox/outbox.service.ts:99-115 | a run to a queued debit that HCM has applied unheard, after whose cancel HCM stays debited whatever follows |
| Witnesses.ApprovedForGood | src/outbox/outbox.service.ts:76-84 | a run of five unanswered tries after which the request stays approved, its days held, until it is cancelled |
| Witnesses.HandedFiveTimes | src/outbox/outbox.service.ts:70-84 | a run in which a message is handed to HCM exactly five times |
| Witnesses.InFlightForGood | src/outbox/outbox.processor.ts:13-17 | a run with a crash after which a message is in flight whatever follows |
| Witnesses.CancelledYetSubmitted | src/time-off/time-off.service.ts:107-122 | a run to a cancelled request that a submit still in progress brings back to pending approval |
| Witnesses.FakedAndForgotten | src/hcm/hcm-core.ts:179-190 | a run to a committed request with nothing held and nothing debited at HCM |
| Witnesses.CountedTwiceForNow | src/outbox/outbox.processor.ts:107-121 | a run after which a debit is in the newest snapshot and in an active commit: HCM has seven days, nothing is open, four are offered |
| Witnesses.RefundRefused | src/outbox/outbox.processor.ts:152-153 | a run after which a cancelled commitment waits for its refund, and HCM stays debited, whatever follows |
| Refinement.SubmitIsTwoSteps | src/time-off/time-off.service.ts:107-122 | a submit is its two steps with nothing in between |
| Refinement.LoadIsARun | src/balances/balance.service.ts:33-54 | loading a first snapshot is a read at HCM and an insert of its answer |
| Refinement.BatchIsARun | src/sync/sync.service.ts:46-55 | ingesting genuine rows under free locks is a run of reconcile steps |
| Refinement.DrainIsARun | src/outbox/outbox.processor.ts:56-70 | what a drain does to database and HCM is a run of the system that ends with no drain |
| Refinement.DrainSettlesItsClaim | src/outbox/outbox.processor.ts:60-66 | a drain that returns leaves nothing in flight |
| Refinement.DrainsComeToRest | src/outbox/outbox.processor.ts:52-70 | enough drains with elapsed backoffs leave every message done, dead or lost, whatever the network does |
| Outcomes.WaitsInVain | src/outbox/outbox.processor.ts:94-155 | once every message is stuck, an approved request has a buried or lost debit and one pending cancellation a buried or lost credit |
| Outcomes.AnsweredDrainsDecide | src/outbox/outbox.processor.ts:56-155 | with every call delivered and answered, repeated drains take an approved request whose debit was not buried or lost to committed, exactly if HCM acknowledged the debit, or to failed |
| Outcomes.RefundArrives | src/outbox/outbox.processor.ts:56-139 | with every call delivered and answered by a HCM without faults, a request whose credit was not buried or lost ends cancelled, at zero net effect if and only if HCM had applied the debit and not faked the credit before, or faked both |
| Confluence.TopIsNewest | src/common/reconciliation-math.ts:62-77 | the version a batch settles on is the newest offered for the key |
| Confluence.BatchOutcomeIs | src/sync/sync.service.ts:46-55 | a batch leaves for each key its newest snapshot above the watermark, with the commits it contains retired, and nothing else |
| Confluence.BatchOrderDoesNotMatter | src/sync/sync.service.ts:46-55 | batches with the same rows in any order and multiplicity leave the same balances, watermarks and ledger |
| Confluence.ReingestAppliesNothing | src/sync/sync.service.ts:45-55 | ingesting a batch again, or any part of it, applies nothing |
| Confluence.OtherKeysAreUntouched | src/sync/sync.service.ts:87-92 | a key no row mentions keeps balance, watermark, rows and available balance |
| Confluence.AppliedAreTheRises | src/sync/sync.service.ts:47-54 | the rows counted as applied are those newer than the watermark and than every earlier row of their key |
| Confluence.OverAllocationsAreLogged | src/sync/sync.service.ts:47-54 | the over-allocations counted are those the log gained |
| KeyedMutex.ArriveExactly | src/common/keyed-mutex.ts:14-18 | a call arrives last, awaiting what its key's entry names, and the entry names it |
| KeyedMutex.StartExactly | src/common/keyed-mutex.ts:20-21 | a call whose awaited promise is resolved runs and nothing else changes; any other stays as it is |
| KeyedMutex.FinishExactly | src/common/keyed-mutex.ts:22-29 | a running call releases and takes its key's entry along exactly if that still names it |
| KeyedMutex.EveryRunKeeps | src/common/keyed-mutex.ts:13-30 | every interleaving keeps each call queued behind the last one of its key, and `tails` naming just the last open calls |
| KeyedMutex.MutualExclusionInOrder | src/common/keyed-mutex.ts:13-30 | one body per key at a time, in order of arrival, and an entry in `tails` exactly while a call is unfinished |
| KeyedMutex.FrontRunsOrMayStart | src/common/keyed-mutex.ts:20-21 | it is an open call's turn if and only if nobody of its key is ahead |
| KeyedMutex.ExactlyOneMayProceed | src/common/keyed-mutex.ts:20-29 | while a key has an open call exactly one of its calls runs or may start |
| KeyedMutex.QueueAheadOnlyShrinks | src/common/keyed-mutex.ts:12-30 | the calls ahead of a call never grow and fall by one when one of them finishes |
| KeyedMutex.EveryOpenCallMayRun | src/common/keyed-mutex.ts:13-30 | from every run each open call comes to run in a continuation that only lets calls already there start and finish |
| KeyedMutex.Mutex.Enter | src/common/keyed-mutex.ts:14-18 | a call takes the last promise of its key and leaves its own |
| KeyedMutex.Mutex.Resume | src/common/keyed-mutex.ts:20 | the await returns only when that promise is resolved |
| KeyedMutex.Mutex.Exit | src/common/keyed-mutex.ts:23-29 | release, and the entry dropped if nobody queued behind |
| CircuitBreaker.RefusesExactly | src/common/circuit-breaker.ts:27-50 | for any calls and any clock an attempt is refused if and only if the failures reached the threshold, the last is recent, and no query since found the cooldown elapsed |
| CircuitBreaker.RefusesExactlyWhenRecent | src/common/circuit-breaker.ts:27-50 | with a clock that does not go back, two numbers decide |
| CircuitBreaker.ClockMustNotGoBack | src/common/circuit-breaker.ts:27-33 | with one that does, they do not |
| CircuitBreaker.GuardedCallCounts | src/hcm/http-hcm.client.ts:56-70 | a guarded call adds a failure only when it got through and broke, clears them only when answered; a refusal by HCM counts as neither |
| CircuitBreaker.Circuit.GetState | src/common/circuit-breaker.ts:27-33 | the state is the one the history of calls determines |
| CircuitBreaker.Circuit.CanAttempt | src/common/circuit-breaker.ts:35-37 | allowed exactly as the history says |
| CircuitBreaker.Circuit.RecordSuccess | src/common/circuit-breaker.ts:39-42 | closed, with no failures |
| CircuitBreaker.Circuit.RecordFailure | src/common/circuit-breaker.ts:44-50 | one failure more, opening at the threshold |
| KeyStrings.JoinsCollideExactly | src/time-off/time-off.service.ts:16 | two balances share a joined key if and only if one employee id continues the other past a bar |
| KeyStrings.BarlessEmployeesNeverCollide | src/hcm/hcm-core.ts:80 | employee ids without a bar never collide |

## Left out

- Controllers, DTO validation, module wiring, HTTP errors and health checks: no protocol state.
- HTTP transport, timeouts and JSON: their effect is that an answer may be lost or a call never
  arrive, which every exchange in the model may do. `src/hcm/http-hcm.client.ts` appears only as the
  breaker's caller.
- TypeORM, SQLite and version columns: a transaction is an atomic step on tables held as sequences
  in insertion order, and row numbers stand for fresh uuids. Only a submit is two steps, its read and
  its save. Approve, reject, cancel and the settlements also read a request before they save it; pairs
  of these on one request are assumed serialised, so a cancel that read an approved request before its
  debit's settlement committed, and saves after it, is not part of the model.
- A settling transaction that itself fails is caught as a transient failure
  (`src/outbox/outbox.processor.ts:82-90`); it is the exchange whose answer was lost.
- Dates, reasons, `asOf`, `lastError`, event details, logging and the client's idempotency key on
  create (`src/time-off/time-off.service.ts:66-71`): no property here depends on them.
- Keys are pairs of employee and location; `KeyStrings` says when the joined strings of the source
  agree with that.
- `HcmCore.reset`, which restarts versions, and deleted requests outside the processor's own guard.
- `HcmCore.seed` hands out its stored row and a ghost acknowledgement its stored object; callers do
  not write to them, so aliasing is not modelled.
- Updates pushed to the webhook or the batch endpoint are taken to be balances HCM really had.
- The order of events in a batch: it does depend on the order of the rows, so `Confluence` speaks of
  balances, watermarks and the ledger only.
- Loads and sweeps fetch outside the lock; `Protocol.LoadStep` and `Protocol.ReconcileStep` therefore
  accept snapshots of any age, and a submit begins only once its key is cached, which the source
  awaits before taking the lock.
- The drain's timer, and recovery of messages in flight: the source has no reclaim step.
- CircuitBreaker.GuardedCallCounts: speaks of guarded calls that do not overlap, because overlapping
  ones are arbitrary histories, which CircuitBreaker.RefusesExactly covers.
