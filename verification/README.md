# Formal model of the record-keeping core

This project models the parts of the repository where a mistake is hard to see in review: a static
analysis over a cyclic type graph, database protocols whose steps interleave, and arithmetic that has
to conserve mass. Everything is proved for all inputs, all runs and all interleavings of the model.
Each module follows one component.

- **The Server Action gate** (`TypeGraph`, `TupleLists`, `Search`, `ServerActionTypes`, `ServerActionTypeLaws`,
  `ServerActionCallTargets`, `ServerActionFindings`, `ServerActionProvenance`, `ServerActionProvenanceLaws`). TypeScript types are a finite, possibly cyclic
  graph, and the type checker is an oracle on it. The three memoised searches are imperative, with the
  visited set they share, and are proved equal to plain reachability. The argument analysis is compared
  with a semantics of run-time values.
- **Idempotency keys** (`IdempotencyRecords`, `Retention`). A state machine over database statements at
  Read Committed: uncommitted records, waiting inserts, lock timeouts, rollbacks, expiry and purge.
- **Keyed API-key issuance** (`ApiKeys`). A saga with an external commit in its middle and a
  compensation at its end, interleaved with updates, revokes and member removals.
- **The application write scope** (`LockOrder`, `LockRetries`, `WriteScope`, `ApplicationWrites`). Ranked
  and sorted locks, deadlocks and retries, discovery before and after locking, and the capacity of every delivery.
- **The feedstock ledger** (`FeedstockTimeline`, `FeedstockShares`, `FeedstockReplay`, `FeedstockLedger`,
  `MovementRequests`). Backdated losses and stock-takes on an ordered timeline, the replay that charges every
  withdrawal to deliveries and closes each write, first as single commands and then as interleaved transactions.
- **Products** (`Composition`, `ProductRequests`, `ProductPosting`, `MassSplit`, `Sorting`). Canonical
  comparison, bin draws, frozen dry mass, replayed requests and proportional splits.
- **The token bucket** (`RateLimits`) with a clock that may run backwards, and **keyset pages**
  (`Keyset`) over a table that changes between them.

Protocols are state machines whose `Next` takes any step of any transaction, in any order; a step that
is not enabled changes nothing, which is how waiting is expressed. Their theorems speak of every state
a sequence of steps can reach. Methods and classes are used where the code works by changing things
step by step; each is proved against a specification, and the properties are lemmas about that.

## What the proofs found

- An optional element at the end of a spread tuple shifts every argument after it, so
  `f(...maybe, input)` can hand `input` to a parameter the analysis never compares it with.
  `AlignmentIff` says exactly when alignment holds, and `BoundCountIff` when a `.bind` count does.
- A row's recording time is the start of its transaction, in milliseconds, and identifiers are random. So a
  loss can pass its check and still sort before an intake of the same event time that it needs, and a count
  that began before a later-dated intake can need stock that is not there yet. `LossCheckIff` and
  `CountKeepsCoveredIff` say exactly when. The replay that closes every feedstock write refuses exactly these
  cases (`LossPostsIffCovered`), so no interleaving ever takes a balance below zero (`InterleavingsStayCovered`).
- Losses, stock-takes and product deletions do not always lock in order: rebuilding the allocations of later
  runs can take them back to a lower bin. `AscendsIff` says exactly when, `TwoLossesDeadlock` shows two losses
  that stop each other, and `WritersAlwaysEnd` that aborting and retrying finishes them all the same.
- A key issuance whose commit takes effect but is reported as failed disables the key it has just bound, after
  its predecessor is gone: `LostCommitLeavesNoUsableKey`.
- The candidates for a tuple index include trailing elements that cannot stand there: `CandidatesExactIff`.
- An idle purge shows when the clock afterwards steps back behind the purged row:
  `ForgettingIsUnobservableIff`.
- Freezing a frozen composition again changes it when two lines share material, bin and gram mass but
  not moisture: `RefreezeIff`. Validation rejects such products by requiring distinct lines.
- Disabling a member's keys before taking the member row would leave a usable key behind:
  `DisableFirstLeavesUsableKey`. The membership writers take the row first.
- The comment on `splitApplicationAcrossSourceAllocations` calls wet and dry conservation independent;
  `ProjectionConserves` proves it, and the remainder rule turns out to be the proportional share.

## Model

| member | source | states |
|---|---|---|
| TupleLists.MaySitIff | scripts/server-action-types.ts:143-153 | over the run-time lists of a tuple or array type (fixed, optional, repeated and trailing elements), a prefix element stands only at its own index, and a later one at every index from the number of fixed elements before it on |
| TupleLists.CandidatesCoverLists | scripts/server-action-types.ts:155-170 | whatever can stand at an index of some run-time list is a candidate for that index |
| TupleLists.CandidatesExactIff | scripts/server-action-types.ts:155-170 | the candidates are exact at every index if and only if no fixed element but the last follows the first variable one |
| TupleLists.TrailingElementIsEarlyCandidate | scripts/server-action-types.ts:155-170 | in `[...A[], B, C]` the last element is a candidate for index 0, where it never stands |
| ServerActionTypes.ParameterInspector.Describe | scripts/server-action-types.ts:54-127 | a reason is given if and only if some chain of unions, constraints, elements, properties and index signatures leads to an organization context, database handle or tenant id, on any cyclic type graph |
| ServerActionTypes.ParameterInspector.DescribeMember | scripts/server-action-types.ts:64-127 | one visited type: a reason means a trusted shape is reachable from it; no reason means everything it carries was visited and is none, so an already seen type never hides an answer |
| ServerActionTypeLaws.TrustedShapeIff | scripts/server-action-types.ts:85-115 | by its own members a type is trusted exactly when it is an object, no plain callback, and names an organization context property or a tenant id, or all members of a database or client handle |
| ServerActionTypeLaws.DescribableUnfolds | scripts/server-action-types.ts:54-127 | a type has a reason if and only if it is trusted by its own members, or a constraint, part, element, declared property or index signature of it has one |
| ServerActionTypes.SharedIndexMeets | scripts/server-action-types.ts:215-231 | a value element and a target element that stand at one index of a run-time list of each are always compared |
| ServerActionTypes.AnyContextSearch.CarriesAnyContext | scripts/server-action-types.ts:196-252 | true if and only if an `any` reaches a trusted slot (unfolded by `CarriesAnyUnfolds` over members, properties, index signatures and lists); the memo of pairs loses no answer |
| ServerActionTypes.AnyContextSearch.Search | scripts/server-action-types.ts:196-212 | the memoised step: the search ends because unseen pairs run out, and a pair it answers false for stays explored |
| ServerActionTypeLaws.CarriesAnyUnfolds | scripts/server-action-types.ts:196-252 | an `any` is carried into a target if and only if the target has a reason and a non-nullish member of the value is `any`, or a part of a member carries one into the slot where it lands: list elements by index, properties by name, index signature values |
| ServerActionTypeLaws.ObjectCarriesAnyIff | scripts/server-action-types.ts:233-248 | for two plain types: through a property and the target's first property of that name, or without one any index signature whose key admits the name as a string or number; or through index signatures of both; and through nothing else |
| ServerActionProvenance.ProvenanceSearch.LosesGuardedSignature | scripts/server-action-provenance.ts:42-103 | true if and only if some access path shared by source and target reaches a guarded signature that the target drops |
| ServerActionProvenance.ProvenanceSearch.GuardedParameters | scripts/server-action-provenance.ts:26-34 | exactly the (type, index) slots of a signature whose candidate type is a trusted shape |
| ServerActionProvenance.ProvenanceSearch.LosesSignatures | scripts/server-action-provenance.ts:70-81 | a signature is lost when nothing receives it, or some receiver supplies nothing, an undescribed type or an `any` for a guarded slot |
| ServerActionProvenanceLaws.LosesUnfolds | scripts/server-action-provenance.ts:42-103 | a conversion loses a guard if and only if the types differ and a guarded parameter has no receiver or an unguarded one, or a part on a shared path (constraint, part, accepting union member, index, name, key, else `unknown`) loses one |
| ServerActionCallTargets.ArgumentSlots | scripts/server-action-call-targets.ts:366-401 | the scanning loop assigns the slots of its fold over the arguments, for plain arguments, spreads, spread literals and `reportAs` |
| ServerActionCallTargets.RuntimeListsAreTyped | scripts/server-action-call-targets.ts:341-358 | every run-time list of a tuple or array type is among those the alignment lets a spread yield |
| ServerActionCallTargets.AlignmentIsSound | scripts/server-action-call-targets.ts:341-401 | every run-time value of every run sits in a slot with its node, type and expression, exact or at a lower bound of its position |
| ServerActionCallTargets.AlignmentIff | scripts/server-action-call-targets.ts:341-401 | alignment holds for every run if and only if no spread whose fixed part can end early (an optional last element) precedes an argument that yields a value |
| ServerActionCallTargets.OptionalElementShifts | scripts/server-action-call-targets.ts:341-401 | `f(...maybe, input)` with `maybe: [string?]` empty: `input` reaches parameter 0, where no slot covers it |
| ServerActionFindings.FiniteScanCoversAllPositions | scripts/server-action-call-targets.ts:274-305 | a candidate at any later position, without bound, is a candidate at one of the finitely many positions the scan of an open slot tries |
| ServerActionFindings.CandidatesCoverReceivers | scripts/server-action-call-targets.ts:283-305 | the type that receives the argument at a position, by the parameter there or past them by the run-time lists of the rest, is a candidate; and every candidate is received at that position or a later one |
| ServerActionFindings.CandidatesAreReceivers | scripts/server-action-call-targets.ts:283-305 | the candidates are exactly the received types when no fixed element but the last follows a variable one in the rest |
| ServerActionFindings.BoundParameterCount | scripts/server-action-call-targets.ts:403-406 | the number of values a `.bind` binds, or unknown when a slot is open |
| ServerActionFindings.BoundCountIff | scripts/server-action-call-targets.ts:403-406 | a known count is right for every run if and only if no spread can end early, or at most one value is passed |
| ServerActionFindings.OptionalElementMiscounts | scripts/server-action-call-targets.ts:403-406 | `fn.bind(self, ...maybe)` with `maybe: [string?]` empty counts one bound parameter where there is none |
| ServerActionFindings.ExpandCovers | scripts/server-action-call-targets.ts:409-422 | opening a slot into the list it holds covers every value of that list, literal or not |
| ServerActionFindings.DirectCovers | scripts/server-action-call-targets.ts:442-456 | dropping the leading arguments and adding the bound count keeps every value covered |
| ServerActionFindings.AppliedCovers | scripts/server-action-call-targets.ts:445-451 | `.apply`: the slot that may be the list covers each of its values |
| ServerActionFindings.ReceiverDroppedCovers | scripts/server-action-call-targets.ts:460-464 | a built-in `.call` or `.bind` forwarded through Reflect drops its receiver and keeps the rest covered |
| ServerActionFindings.EveryLandingIsCovered | scripts/server-action-call-targets.ts:434-464 | every value a run passes to a declared parameter, through direct calls, `.call`, `.apply`, bound functions and Reflect, is covered by a slot at that position |
| ServerActionFindings.DeclaredParameterFindings | scripts/server-action-call-targets.ts:425-483 | the loop reports a node if and only if it is not exempt and one of its slots has a signature, tried position and candidate that takes an `any`; what candidates are is `CandidatesCoverReceivers` |
| ServerActionFindings.EveryReachedContextIsReported | scripts/server-action-call-targets.ts:425-483 | whenever a run hands a value that puts an `any` where the declared parameter that receives it expects a trusted shape, the argument it came from is reported (or exempt) |
| ServerActionFindings.PlainCallReportsIff | scripts/server-action-call-targets.ts:425-483 | a direct call without spreads: an argument is reported if and only if the parameter that receives it, after the bound ones, takes the `any` it puts in a trusted place |
| ServerActionFindings.AppliedLiteralReportsIff | scripts/server-action-call-targets.ts:409-483 | an applied array literal, also forwarded through `.call`, `.bind` or `.apply`: exactly that literal is reported, and only when an element reaches a trusted parameter |
| IdempotencyRecords.AtMostOneOwner | src/data-access/api-idempotency-records.ts:104-132 | in every interleaving at most one transaction owns a key, and the only committed record of it is the expired one the owner removes |
| IdempotencyRecords.OwnersSeparatedByExpiry | src/data-access/api-idempotency-records.ts:158-174 | two committed owners of one organization, credential and key are separated by a removal whose clock reading is at or past the first record's expiry |
| IdempotencyRecords.ReplayReturnsLastCommitted | src/data-access/api-idempotency-records.ts:176-200 | a replay answers an unexpired record of equal key and fingerprint with the outcome last committed on it; whose outcome that is, `RecordedOutcomeIsReplayed` says |
| IdempotencyRecords.RecordedOutcomeIsReplayed | src/data-access/api-idempotency-records.ts:223-241 | over every interleaving, what a committed transaction recorded last (data and effect), as owner or while replaying, is what every replay answers that looks after that commit and before the next outcome committed on the record |
| IdempotencyRecords.OwnersOutcomeIsReplayed | src/data-access/api-idempotency-records.ts:176-200 | a replay of an owner's record with no later recorded outcome answers exactly the data and effect the owner recorded last |
| IdempotencyRecords.WaiterIsAnswered | src/data-access/api-idempotency-records.ts:140-200 | a claim that looks after an owner's commit: reclaimed after seven days, refused for another request, still running without an outcome, unavailable for another schema version, and replayed otherwise |
| IdempotencyRecords.AloneItCommits | src/data-access/api-idempotency-records.ts:104-148 | a write under an unused key that nobody disturbs commits its record, outcome and expiry |
| IdempotencyRecords.RollbackLeavesNoTrace | src/data-access/api-idempotency-records.ts:18-19 | however it was interleaved, when a write rolls back the table is what the committed history says, every event added meanwhile was committed by a step of someone else, and no key or row stays held |
| IdempotencyRecords.WaiterReplaysAfterCommit | src/data-access/api-idempotency-records.ts:13-14 | a claim that waited for a write that committed replays its outcome |
| IdempotencyRecords.WaiterOwnsAfterRollback | src/data-access/api-idempotency-records.ts:15-16 | a claim that waited for a write that rolled back owns the key if and only if that write had removed no record, or one that is expired at the waiter's own reading |
| IdempotencyRecords.DryRunAgreesWithClaim | src/data-access/api-idempotency-records.ts:206-221 | with no other write of its key in progress, a dry run is refused exactly when a claim would not become an owner |
| IdempotencyRecords.RecordTable.PurgeExpired | src/data-access/api-idempotency-records.ts:247-259 | the purge loop ends, removes exactly the expired unlocked rows, and counts them |
| IdempotencyRecords.RecordTable.DeleteBatch | src/data-access/api-idempotency-records.ts:250-255 | one statement removes the earliest-expiring rows up to the limit |
| ApiKeys.OneUsableKeyPerRecord | src/data-access/api-keys.ts:108-143 | in every reachable state, crashes and failures included, a live intent record has at most one usable key: the one its outcome names |
| ApiKeys.CommitReplacesPreviousKey | src/data-access/api-keys.ts:134-142 | a commit binds the new key to its member, removes the key it replaces, names the new one in the record, and changes no other key |
| ApiKeys.LookedUpWasIssued | src/data-access/api-credential-auth.ts:7-20 | the credential lookup only returns keys whose commit took effect, never one of an issuance that rolled back or crashed before it |
| ApiKeys.FailedAttemptKeepsPreviousKey | src/data-access/api-keys.ts:144-153 | in every interleaving, an attempt whose commit does not take effect leaves what is recorded for every intent and the usability of every key alone: if they differ at the end, a step of someone else changed them |
| ApiKeys.LostCommitLeavesNoUsableKey | src/data-access/api-keys.ts:144-153 | a commit that took effect but was reported as failed: the compensation disables the bound, recorded key after its predecessor is gone, and the record has no usable key |
| ApiKeys.CompensatedStaysDisabled | src/data-access/api-keys.ts:144-153 | the key of an attempt that failed, or was told so, is disabled by the compensation and in every later state |
| ApiKeys.CommittedKeyIsUsable | src/data-access/api-keys.ts:71-143 | in every interleaving the key of an issuance that commits is enabled, bound and usable |
| ApiKeys.ManagedWrites | src/data-access/api-keys.ts:156-203 | an update raises the version and changes nothing a key can do, a revocation takes exactly one key out of use, and a stale version changes nothing |
| ApiKeys.RevokedForGood | src/data-access/api-keys.ts:169-203 | a revoked key stays revoked over every later run: no update, revoke or issuance makes it usable |
| ApiKeys.RemovedMemberHasNoUsableKey | src/data-access/api-credential-auth.ts:37-60 | once a removal that takes the member row before disabling has finished, no key bound to that member is usable |
| ApiKeys.RemovalRunsThrough | src/data-access/api-credential-auth.ts:37-60 | a member-first removal that finds its locks free finishes, removes the member, and revokes every key bound to its user and no other |
| ApiKeys.DisableFirstLeavesUsableKey | src/data-access/api-credential-auth.ts:37-60 | disabling before taking the member row lets a concurrent issuance leave a usable key of the removed member |
| LockOrder.Sorted | src/data-access/application-write-scope.ts:43 | dedup and sort: strictly increasing, and the same identifiers |
| LockOrder.SortedDependsOnMembersOnly | src/data-access/application-write-scope.ts:43 | lists of the same identifiers sort to one list, so the order of discovery never shows |
| LockOrder.AscendsIff | src/data-access/feedstock-run-allocations.ts:22-109 | the locks of an application write, deletion, loss or stock-take, with the bins, runs and transport owners its allocation rebuild finds, ascend if and only if: always for an application write; every bin drawn from is the one held or above it for a loss or stock-take; every such bin is held already for a deletion |
| LockOrder.PlanIff | src/data-access/application-write-scope.ts:3-28 | a lock plan asks for exactly the rows its writer and its allocation rebuild need, each in the mode it needs |
| LockOrder.WritersNeverDeadlock | src/data-access/application-write-scope.ts:3-28 | any application writes, deletions, losses and stock-takes whose rebuilds stay in that order: in every interleaving, while one is unfinished some transaction can step |
| LockOrder.WritersFinish | src/data-access/application-write-scope.ts:3-28 | and from every state they reach, finitely many steps finish them all |
| LockOrder.TwoLossesDeadlock | src/data-access/bin-movements.ts:241-289 | two losses on different bins of one later run: each holds its own bin, waits for the other, and neither can step |
| LockRetries.StuckMeansCycle | src/lib/db/transaction-retry.ts:5-32 | with any lock plans, if no unfinished transaction can step then some wait in a cycle, which deadlock detection breaks |
| LockRetries.RunsEnd | src/lib/db/transaction-retry.ts:22-32 | no schedule and no choice of victims goes on for ever: the work of the attempts that are left bounds the steps that change anything |
| LockRetries.WritersAlwaysEnd | src/lib/db/transaction-retry.ts:22-32 | any writers, in order or not, with any attempts left: while one is unfinished a step or a deadlock abort is possible, and steps and aborts finish them all |
| LockRetries.StockWritersMakeRoom | src/lib/db/transaction-retry.ts:22-32 | losses and stock-takes, in every state they reach: aborting whichever transaction another one waits for lets that one step at once |
| LockOrder.NoWaitingCycle | src/data-access/application-write-scope.ts:3-28 | no transaction that locks in order waits for itself through others, in shared and exclusive modes |
| LockOrder.NeverDeadlocked | src/data-access/application-write-scope.ts:3-28 | transactions whose plans ascend: after any interleaving, if one is unfinished then some transaction can step |
| LockOrder.AllFinish | src/data-access/application-write-scope.ts:3-28 | from any state of such transactions, finitely many steps that are not waits finish every one |
| LockOrder.RunHoldsTogether | src/data-access/application-write-scope.ts:7-11 | an UPDATE lock is held alone, SHARE locks only beside SHARE locks, in every run |
| WriteScope.ReturnedScopeIsTrue | src/data-access/application-write-scope.ts:51-107 | from its return to the write's first change, the facilities, runs and batches a scope locked are the true lineage of its deliveries and application, and the row has the expected version |
| WriteScope.TrueLineageIff | src/data-access/application-write-scope.ts:51-107 | the true lineage row by row: facilities of the deliveries, runs that supplied them or share in the application, and batches with such a run as a member or owning a slice |
| WriteScope.PlanHoldsScope | src/data-access/application-write-scope.ts:7-28 | a writer that took its whole lock plan holds every row the rediscovery relies on |
| WriteScope.AloneItReturns | src/data-access/application-write-scope.ts:93-107 | undisturbed, a scope that holds its rows, discovered the true lineage and finds the row as expected returns, and its write takes effect |
| WriteScope.ComparisonIsExact | src/data-access/application-write-scope.ts:103-105 | the rediscovery returns if and only if the discovered lineage is the true one, and otherwise refuses retryably |
| WriteScope.ForeignWriteKeepsScope | src/data-access/application-write-scope.ts:17-28 | no change another writer may make under the documented locks touches what a locked scope has read |
| ApplicationWrites.NeverAppliedBeyondDelivered | src/data-access/application-writes.ts:69-75 | over every interleaving of create, update, re-pointing and delete, wet and dry grams applied on a delivery never exceed what was delivered |
| ApplicationWrites.EditsFormOneChain | src/data-access/application-write-scope.ts:92-97 | each write of an application expected the version made by the write before it: one version chain, no lost update |
| ApplicationWrites.AcceptedIff | src/lib/application-write-rules.ts:13-16 | beside what other applications took, a mass is accepted exactly when the delivered mass covers it and the dry mass is tracked, and over-capacity is exactly the other case |
| ApplicationWrites.EffectKeepsWithin | src/data-access/application-writes.ts:86-165 | each accepted write, gram-equal edits included, keeps every delivery within its delivered mass; which mass it writes is `WrittenRow` |
| ApplicationWrites.WrittenRow | src/data-access/application-writes.ts:86-142 | an accepted create or edit leaves the delivery, grams and version asked for; when it adds, moves or resizes, the dry mass applied on the delivery is the nearest gram to applied wet times delivered dry over delivered wet, or what others already took if more, and all of it once everything is applied |
| ApplicationWrites.CommitsFollowWet | src/data-access/application-writes.ts:86-142 | the same at every commit of every interleaving |
| ApplicationWrites.WriteAcceptedIff | src/data-access/application-writes.ts:69-165 | exactly when a create, edit or delete is accepted: rows and deliveries there, version and saved delivery as expected, and room for a new mass |
| ApplicationWrites.AloneItCommits | src/data-access/application-writes.ts:86-165 | a write that holds its locks and is not disturbed takes exactly its effect, or is refused as the effect says |
| ApplicationWrites.AppliedOnDelivery | src/data-access/delivery-allocation-provenance.ts:96-101 | the wet and dry sums over the delivery's applications, without the one being edited |
| ApplicationWrites.PartsConserve | src/lib/calculations/gram-allocation.ts:11-28 | two largest-remainder parts add up to the total: no gram is lost or invented |
| ApplicationWrites.PartWithinShare | src/lib/application-write-rules.ts:34-37 | the cumulative dry entitlement never exceeds the delivery's dry mass |
| FeedstockTimeline.InsertKeepsOrder | src/data-access/feedstock-bin-ledger.ts:104 | an entry takes its place by event time, recording time and identifier, and none is lost |
| FeedstockTimeline.ReadsTheSameTimeline | src/data-access/feedstock-bin-ledger.ts:104 | rows with distinct identifiers have one ordered timeline, however they were read |
| FeedstockTimeline.InsertCoveredIff | src/data-access/bin-movements.ts:271-276 | a ledger stays non-negative after an insertion exactly when its place and every later balance can take the delta |
| FeedstockShares.ProportionalFacts | src/lib/feedstock-draw-replay.ts:50-62 | largest-remainder shares add up to the amount to the gram, and take from no delivery more than it holds |
| FeedstockShares.DrawSharesConserve | src/lib/feedstock-draw-replay.ts:64-74 | mixed, oldest first or newest first: a draw of what is there takes exactly the amount, from no delivery more than it holds; from which is `DrawSharesInOrder` |
| FeedstockShares.ProportionalIsFair | src/lib/feedstock-draw-replay.ts:50-62 | every largest-remainder share is within a gram of its exact part, and of two deliveries the larger remainder, or the earlier one, is rounded up first |
| FeedstockShares.DrawSharesInOrder | src/lib/feedstock-draw-replay.ts:64-74 | oldest first gives all of a delivery before anything of a later one, newest first the reverse, and a mix is fair between any two deliveries |
| FeedstockReplay.PilesMatchBalances | src/lib/feedstock-draw-replay.ts:77-145 | however withdrawals are charged to deliveries, saved shares and debt included, what is left of them and the rest add up to the plain running balance; no delivery is overdrawn, and debt means nothing is left |
| FeedstockReplay.WithdrawInOrder | src/lib/feedstock-draw-replay.ts:103-140 | a withdrawal without saved shares: what each delivery of the pile gave follows the draw method, in delivery order |
| FeedstockReplay.ReplayChargesInOrder | src/lib/feedstock-draw-replay.ts:85-140 | in the replay every withdrawal planned anew is charged in the order of the method that holds at its time |
| FeedstockReplay.SavedSharesAreTaken | src/lib/feedstock-draw-replay.ts:114-137 | saved shares that the withdrawal covers are taken from their own deliveries, as far as those still hold them |
| FeedstockReplay.IntakeIsHeld | src/lib/feedstock-draw-replay.ts:91-97 | an intake first repays the debt, and the rest is held by its own delivery alone |
| FeedstockReplay.GainIsSpread | src/lib/feedstock-draw-replay.ts:98-101 | a gain without a delivery is spread fairly over the deliveries present |
| FeedstockReplay.ReplayFeedstockDraws | src/lib/feedstock-draw-replay.ts:77-145 | the replay refuses exactly at the first checked withdrawal that the running balance cannot cover, and otherwise its totals are the running balances |
| FeedstockReplay.ReplayTimeline | src/data-access/feedstock-run-allocations.ts:110-118 | the replay of a write that begins at its new entry accepts exactly when every withdrawal from there on is covered, whatever shares are saved |
| FeedstockReplay.AcceptedIffCovered | src/data-access/bin-movements.ts:166-203 | on a covered timeline the closing replay accepts an insertion of any kind if and only if every running balance stays at or above zero |
| FeedstockLedger.LossCheckIff | src/data-access/bin-movements.ts:258-281 | a backdated loss leaves every running balance covered if and only if it fits the check and the entries of its own event time cover it |
| FeedstockLedger.LossCheckExact | src/data-access/bin-movements.ts:258-281 | for a loss that sorts last at its own event time, by recording time and identifier, the check alone is exact |
| FeedstockLedger.LossPostsIffCovered | src/data-access/bin-movements.ts:201-283 | check and replay together accept a loss if and only if no running balance goes below zero; the replay refuses a loss that fits exactly when an entry of its own event time does not cover it |
| FeedstockLedger.TieEscapesCheckOnly | src/data-access/bin-movements.ts:268-276 | a loss recorded before an intake of the same event time, or in the same millisecond under a smaller identifier, passes the check and is refused by the replay |
| FeedstockLedger.CountSetsDerivedStock | src/data-access/bin-movements.ts:340-360 | a stock-take leaves the derived stock equal to the count, whatever its time |
| FeedstockLedger.CountKeepsCoveredIff | src/data-access/bin-movements.ts:340-360 | a stock-take keeps every balance covered, and is accepted by the replay, exactly when the entries after its place never add more than was counted |
| FeedstockLedger.CountAtTheEndKeepsCovered | src/data-access/bin-movements.ts:340-360 | a stock-take that sorts after every entry always keeps every balance covered |
| FeedstockLedger.CountBeforeLaterIntakeIsRefused | src/data-access/bin-movements.ts:340-360 | a stock-take whose transaction began before a later-dated intake passes its own test, would go below zero, and is refused by the replay |
| FeedstockLedger.EveryRunStaysCovered | src/data-access/bin-movements.ts:214-360 | over every run of intakes, draws, losses and stock-takes, with any event times, recording times and identifiers, no running balance goes below zero |
| FeedstockLedger.PostsIff | src/data-access/bin-movements.ts:214-360 | nothing more is refused: intakes post, draws and losses post exactly when no balance goes below zero, and counts also when they stay within the derived stock |
| FeedstockLedger.PostingMovesStock | src/data-access/bin-movements.ts:214-360 | an intake adds its mass to the stock, a draw or loss takes it, a count leaves what was counted, and a refused command changes nothing |
| FeedstockLedger.MovementLedger.CreateBinMovement | src/data-access/bin-movements.ts:214-292 | the loss command: refusals in order, replay or conflict for a stored key, otherwise exactly one entry at its place under any identifier; every timeline stays in order and covered |
| FeedstockLedger.MovementLedger.AppendMovement | src/data-access/bin-movements.ts:166-203 | a row is kept exactly when the timeline that shows it stays covered; otherwise it goes back with its transaction |
| FeedstockLedger.MovementLedger.AfterBalances | src/data-access/feedstock-bin-ledger.ts:132-137 | the running balance after each entry |
| FeedstockLedger.MovementLedger.RecordStockTakeMovement | src/data-access/bin-movements.ts:299-362 | the count command: exactly when it is accepted, in terms of the entries after it, and that the derived stock then equals the count |
| MovementRequests.ExactlyOnce | src/data-access/bin-movements.ts:238-292 | in every interleaving a request key has one movement, and all submits that answer with a movement share it and its payload |
| MovementRequests.StoredKeyIsReplayedOrRefused | src/data-access/bin-movement-requests.ts:52-66 | a look-up under a stored key replays an equal payload, refuses a changed one, and leaves the ledger unchanged |
| MovementRequests.PostedIsAskedFor | src/data-access/bin-movements.ts:238-360 | in every interleaving a posted movement has the bin, kind, mass and times of its command, its transaction's start as recording time, and no loss lies in the future |
| MovementRequests.AloneItPostsIff | src/data-access/bin-movements.ts:253-292 | a command that holds its bin and is not disturbed posts exactly when its check and the replay pass |
| MovementRequests.ChecksHoldAtCommit | src/data-access/bin-movements.ts:253-289 | no interleaving commits a movement whose check or replay a concurrent commit had made stale |
| MovementRequests.InterleavingsStayCovered | src/data-access/bin-movements.ts:238-360 | over every interleaving, whatever the clock, the ties and the identifiers, every bin is in order and no running balance is below zero, at every commit |
| MovementRequests.LossRefusedIff | src/data-access/bin-movements.ts:253-283 | in every reachable state a loss that holds its bin is refused exactly when it is not negative or would take a running balance below zero |
| MovementRequests.ChecksAloneCoverIff | src/data-access/bin-movements.ts:258-281 | without the replay: rows that pass their own checks keep a bin covered at every commit if and only if each loss is covered by the entries of its own event time and each count takes what comes after it |
| ProductRequests.SamePayloadIff | src/data-access/biochar-product-create.ts:64-83 | with distinct recipe lines, payloads are equal if and only if the header and, in any order, the operator facts of every line are |
| ProductRequests.LineOrderHiddenIff | src/data-access/biochar-product-create.ts:78-83 | the order of recipe lines never shows if and only if no two lines of one identifier differ |
| ProductRequests.PayloadShowsEveryFact | src/data-access/biochar-product-create.ts:72-83 | one payload always means the same header and the same operator facts |
| ProductPosting.OneProductPerKey | src/data-access/biochar-product-create.ts:100-136 | in every interleaving, submits of one key that return a product return the same one and carried the same operator facts |
| ProductPosting.RetryReplaysIff | src/data-access/biochar-product-create.ts:85-105 | a look-up under a stored key writes nothing, and returns the product exactly for a request that repeats the stored one in any line order; any other is a conflict |
| ProductPosting.ProductsMatchMovements | src/data-access/biochar-product-create.ts:166-177 | products and posted movements go one to one |
| ProductPosting.PostedProductIsAskedFor | src/data-access/biochar-product-create.ts:166-187 | in every interleaving a submit that posts leaves its code, one snapshot per line with a mass, in order, and a movement under its key |
| ProductPosting.BinsAreHeldAlone | src/data-access/biochar-product-create.ts:132-136 | between their checks and their commits no two submits share a bin |
| ProductPosting.AloneItPosts | src/data-access/biochar-product-create.ts:114-195 | a submit under a new key that is allowed and not disturbed posts and releases its locks |
| RateLimits.WindowBound | src/data-access/api-rate-limits.ts:28-51 | over any run of requests with any clock readings, admitted cost plus final tokens is at most starting tokens plus the refill over the rise of the high-water timestamp |
| RateLimits.WindowIsExact | src/data-access/api-rate-limits.ts:39-51 | while the refill never runs over the capacity, admitted cost plus final tokens is exactly the starting tokens plus the refill: no denied request loses any |
| RateLimits.OneRequest | src/data-access/api-rate-limits.ts:28-63 | one request: a new key is full, any other earns a sixtieth of the minute rate per second up to its capacity; the cost is taken exactly when it is there, and the answer says so |
| RateLimits.AdmittedCostWithinWindow | src/data-access/api-rate-limits.ts:28-51 | from an unused key, admitted cost never exceeds the capacity plus the refill over the elapsed high-water time |
| RateLimits.DebitKeepsBucketValid | src/data-access/api-rate-limits.ts:39-51 | tokens stay within zero and the capacity, and the timestamp never goes back |
| RateLimits.RetryAfterIsExact | src/data-access/api-rate-limits.ts:46-63 | the same cost is admitted k whole seconds later exactly when k is at least `retryAfterSeconds`, after a backward clock step too |
| RateLimits.ResetIsExact | src/data-access/api-rate-limits.ts:57-59 | the bucket is full k whole seconds later exactly when k is at least `resetSeconds` |
| RateLimits.RemainingIsExact | src/data-access/api-rate-limits.ts:56 | the `remaining` of a decision is exactly how many requests of cost one are admitted after it at the same instant |
| RateLimits.ForgettingIsUnobservableIff | src/data-access/api-rate-limits.ts:36-51 | a missing row answers and stores the same as the row exactly when the row is full and the clock has not fallen behind it |
| RateLimits.PurgeShowsAfterBackwardClock | src/data-access/api-rate-limits.ts:67-80 | a clock that steps back after a purge shows the difference |
| RateLimits.ConfiguredBucketsRefillWithinRetention | src/config/api-rate-limits.ts:10-11 | buckets whose rate equals their capacity refill within the retention period, so the purge result applies to them |
| RateLimits.PurgeIsUnobservable | src/data-access/api-rate-limits.ts:67-80 | for buckets that refill within the retention period, a purging system and one that keeps every row answer alike from the purge instant on and agree on every row the purging one has |
| RateLimits.RateLimiter.ConsumeRateLimit | src/data-access/api-rate-limits.ts:22-64 | one upsert: refusal of an invalid call, the new row and the decision |
| RateLimits.RateLimiter.PurgeIdleRateLimitBuckets | src/data-access/api-rate-limits.ts:67-80 | the purge loop ends, removes exactly the idle unlocked rows, and counts them |
| Retention.PickOldest | src/data-access/api-rate-limits.ts:72-75 | a batch is the oldest due rows, up to the limit |
| Composition.ChangedIff | src/data-access/biochar-product-composition.ts:142-190 | a composition counts as unchanged if and only if both hold the same canonical facts, as multisets: sort then compare is a normal form |
| Composition.FactsAgreeIff | src/data-access/biochar-product-composition.ts:142-177 | two lines show the same facts exactly when recipe line, material and bin agree, wet and dry mass agree to the gram, and moisture to a millionth of a percent |
| Composition.GetCompositionIngredientDraws | src/data-access/biochar-product-composition.ts:216-238 | one draw per contributing bin with the sum of its wet masses and its dry mass |
| Composition.DrawsConserve | src/data-access/biochar-product-composition.ts:223-234 | the draws conserve the total positive wet mass of binned lines |
| Composition.DryUnknownIff | src/data-access/biochar-product-composition.ts:229-232 | a bin's dry mass is unknown exactly when some line that draws from it has none |
| Composition.FreezeKeepsWetFacts | src/data-access/biochar-product-composition.ts:240-246 | freezing never changes the material, bin or wet mass an operator recorded, and gives every positive line a valid snapshot |
| Composition.FrozenLine | src/data-access/biochar-product-composition.ts:282-319 | a frozen line: nothing for no mass; the snapshot of the last saved line like it; otherwise solids in whole grams that make up the wet mass with the measured water to half a gram, and the estimate of its bin |
| Composition.FreezeRefusedIff | src/data-access/biochar-product-composition.ts:288-313 | freezing is refused exactly for a negative mass, or a positive one with neither a saved snapshot nor a measured moisture |
| Composition.RefreezeIff | src/data-access/biochar-product-composition.ts:258-320 | freezing a frozen composition against itself succeeds, and changes nothing if and only if lines of one material, bin and gram mass were frozen alike |
| Composition.RefreezeCanChange | src/data-access/biochar-product-composition.ts:258-303 | two lines of one material, bin and mass measured at 10 and 20 percent: freezing again gives the first the second's moisture |
| Composition.DistinctLinesRefreeze | src/data-access/biochar-product-composition.ts:347-353 | a composition that names each formulation line once, as validation requires, freezes to itself |
| MassSplit.SplitMassByWeights | src/data-access/biochar-product-application-allocation.ts:17-38 | the loop that gives the last lot the remainder gives every lot its true proportional share, the last included |
| MassSplit.SplitConserves | src/data-access/biochar-product-application-allocation.ts:31-37 | shares add up to the mass exactly, and a non-negative mass has no negative share |
| MassSplit.ProjectionConserves | src/data-access/biochar-product-application-allocation.ts:51-85 | wet and dry mass are conserved independently; an unknown dry mass stays unknown on every lot |
| MassSplit.LotsGetTheirShares | src/data-access/biochar-product-application-allocation.ts:51-85 | every lot gets one part, in the order of the runs: of the wet mass in proportion to its wet mass, of a known dry mass in proportion to its dry mass |
| MassSplit.ProjectionIgnoresOrder | src/data-access/biochar-product-application-allocation.ts:61-63 | with distinct runs the result does not depend on the order of the allocations |
| Sorting.OrderIndependentIff | src/data-access/biochar-product-application-allocation.ts:61-63 | a stable sort forgets the order of its input exactly when no two different elements share a key |
| Keyset.LookupPagesAreSound | src/data-access/api-lookup-filters.ts:33-40 | while rows are inserted and deleted between pages, positions by (creation time, id) never repeat, and a finished walk has shown every row that stayed |
| Keyset.WalkDescends | src/data-access/api-lookup-filters.ts:33-35 | while rows come and go between pages, the rows shown descend strictly in (creation time, id): none is shown twice |
| Keyset.WalkMissesNothing | src/data-access/api-lookup-filters.ts:33-35 | a finished walk has shown every row that was present and matching on every page |
| Keyset.WalkShowsOnlyRows | src/lib/read-models/api-list.ts:16-22 | a row is shown only from a table that had it |
| Keyset.FixedTableIsListed | src/lib/read-models/api-list.ts:11-23 | on a fixed table the pages add up to the sorted list: everything, once, in order |
| Keyset.FixedTableWalkEnds | src/lib/read-models/api-list.ts:19-22 | a walk of a fixed table has no more full pages than fit |
| Keyset.PageFacts | src/lib/read-models/api-list.ts:16-22 | a page reads one row more than it shows; its next position is its last row, nothing above that is left out, and there is one exactly when a row is left out |
| Keyset.MovementHistoryIsComplete | src/data-access/api-output-stock-movements.ts:80-98 | the movement history, whose cursor id is resolved to its posting sequence on an append-only table: no movement twice, and every one present at the start is shown |

## Left out

- SQL text, query builders, pools, time budgets and network calls: a statement is one atomic step, a wait
  is a step that is not enabled, and a timeout or crash may happen at any point.
- The TypeScript parser and checker: `invokedFunction`, `reflectMethod`, `callableSource` and `provenanceTarget`
  match syntax, and the model starts from what they return. Assignability, properties and signatures are oracles.
- `nestedBind`: its bound count is the count of `BoundParameterCount` on the arguments it selects.
- The caches of described types in `server-action-provenance.ts` and the texts of all reasons and messages.
- Floating point: feedstock and application masses are whole grams, as the tables store them, and other masses are
  reals. The overdraw slack of the feedstock checks is any number of grams; the code's is below one gram.
- Hashes and `JSON.stringify` are taken as injective, `localeCompare` as a total order, and advisory lock keys as distinct.
- Correcting or removing feedstock entries: the ledger is append-only here, although the replay itself handles
  reversed and history-only entries. The provenance a replay stores is not read back.
- CreateBinMovement: a write is also refused when the allocations it changes belong to a sent certification record,
  when a try-lock on one fails, or when the bin had to be empty at a change of draw method. None of these posts anything.
- RecordStockTakeMovement: the same further refusals.
- LossRefusedIff: the same further refusals.
- The try-locks on certification artifacts at the end of a rebuild never wait, so they are not in a lock plan; a
  failed one aborts the transaction.
- Other writers that rebuild allocations (product creation, intakes, runs, bins) are not among the writers of `LockOrder`.
- WritersAlwaysEnd: says that attempts end, committed or used up. A deletion from the form has a single attempt,
  and back-off delays between attempts are not modelled.
- Stock planning, output-stock layers and reversals, delivery provenance and run shares, slices' contents,
  certification locks and lineage-artifact guards: they only refuse a write, or are decided by the environment.
- Production-run auto-attachment, which the repository records as taking a row before its artifact.
- Unkeyed API-key creation, which binds its owner outside a transaction and re-checks afterwards.
- Role changes and e-mail verification enter key issuance only as the answer of the re-check under the member lock.
- Expiry inside the saga of `ApiKeys` is a purge of the intent record; the reclaim itself is in `IdempotencyRecords`.
- Product deletion beyond its locks: the liveness check, the reversal and the archiving.
- Bin targets, archived bins and rows, field-lock comparisons and evidence rules of application writes.
- Biochar and product lanes of the stock guards: only the overdraw test and the feedstock lane are modelled.
- Lookup filters and search prefixes: a table is the set of rows that match.
- Application writes are modelled on values under their locks, so the order of the row inserts inside one
  transaction is not captured.
- RefreezeIff: assumes masses at gram precision, as the input schemas and columns keep them.
- AlignmentIsSound: assumes that array literals without spreads are typed as the tuple of their elements.
