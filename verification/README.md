# BettaPay protocols, money arithmetic and codecs in Dafny

This project models the parts of the BettaPay monorepo whose correctness does
not show from reading one function: the protocols in which several callers
interleave (idempotent creation, the per-merchant semaphore, optimistic
locking, the stuck-settlement reaper, the keyset scan, batching, retry chains),
the exact arithmetic of settlement fees and of the checks that later re-derive
them, the FX engine's caches, and the codecs (canonical JSON and its signature,
stroop strings, encryption at rest).

Run `dafny verify dfyconfig.toml` here.

## How it is modelled

- **Protocols.** Each awaited store call, SQL statement or Lua script is one
  step. A state machine gives the steps; its lemmas hold for every run, any
  number of participants and any interleaving. Where the source is a loop or a
  method over shared state, a class holds that state, and between its own store
  calls the method calls an `Interference` (or `Others`) method that stands for
  everybody else. In `Idempotency`, `UniqueGuard` and `OptimisticLock` that is
  any run of the machine itself; the reaper's relation `Evolves` and its growing
  queue are shown to be what every run of its machine keeps
  (`SettlementReaper.RunEvolves`); the keyset scan admits any inserts and
  deletes.
- **Money.** Amounts are digit strings read as exact decimals (`Dec`: units and
  a number of places). BigNumber's division to 20 places and `toFixed` are the
  two floor divisions they are; printing and reading amounts is done on text.
  `AmountValues` restates caps, rates, fees and checks on the numbers the texts denote.
- **Text.** A JavaScript string is a sequence of UTF-16 code units (`Text`).
  The canonical printer is checked against a parser for the grammar of RFC 8259
  (section 4 for objects, 5 for arrays, 6 for numbers, 7 for strings), written
  independently of the printer.
- **FX rates** are positive reals, and one synchronous stretch of the service
  is one step.
- **Proofs** are explicit: lemmas switch automatic induction off
  (`{:induction false}`), which keeps every obligation small and quick.
- **Cryptography** is a value of function type with the law it must satisfy
  (`Lawful`, `PrintsHex`). IVs, tokens, fresh ids, batch ids and clock readings
  are parameters.

## Where code and documentation differ

- `services/settlement-engine/src/redis-semaphore.ts:176-177` says two renewals
  can be missed before a slot is stale. With the interval of line 190 that is
  true exactly when `ttlSeconds` is not a multiple of 3; at the default 60 only
  one can be missed (`RedisSemaphore.MissedRenewals`).
- `services/fx-engine/src/circuit-breaker.ts:12` says a half-open breaker allows
  a single probe. The registry lets any number through until an outcome is
  recorded: exactly the callers that record one before they ask again get one
  probe an opening (`CircuitBreaker.NextProbe`, `CircuitBreaker.TwoProbesAtOnce`).
- `services/settlement-engine/src/prisma-adapter.ts:118-121` promises the same
  entity to winning and losing racers. The clean-up job clears expired keys on
  live rows (`services/api-gateway/src/idempotency-key-cleanup-cron.ts:88-97`),
  and then two lookups of one key may differ and the guard may give up; exactly
  when is `UniqueGuard.LookupsAgree` and `UniqueGuard.GivesUpExactly`.
- `prisma/schema.prisma:118-119` says every state-changing update increments the
  version. The status updates do not, so the lock cannot see them
  (`OptimisticLock.MeetsTheRowRead`, `OptimisticLock.RetryOfCompleted`).
- `services/settlement-engine/src/index.ts:1063` describes the fee as floored to
  whole units while the writer floors to the input's decimals; the tolerance of
  one unit is what makes the two agree (`Reconciliation.ComputedAmountsReconcile`).
  The single-settlement route stores the undiscounted rate beside a discounted
  fee, and the check reports that record exactly when the whole-unit fees at the
  two rates differ by two or more (`Reconciliation.DiscountedSingleIsReported`).
- The fetch-cycle warning at `services/fx-engine/src/index.ts:179-184` cannot fire
  after a refresh or an override, because the guard's result carries every base
  rate, rejected ones included, into the new batch (`FxRates.RefreshJoinsBatches`).
- The settlement cap counts leading zeros as digits
  (`SettlementAmounts.LeadingZerosRefused`). A fee can fall when the larger
  amount is written with fewer decimals; exactly when is
  `SettlementAmounts.FeeMonotoneExactly`.
- The environment schema admits fractional discounts
  (`shared/validation/index.ts:200-205`), which the snapshot schema then refuses:
  `SettlementAmounts.ThrowsExactly`.
- A batching job may count a settlement twice, when two jobs overlap or when a
  marking statement throws; a settlement is counted once for each job that read
  it pending and recorded its group (`BatchingSteps.CountedOncePerRecording`).

## Model

| member | source | states |
|---|---|---|
| CanonicalJson.CanonicalRoundTrip | shared/webhook-delivery/index.ts:230-257 | parsing the canonical text of any value gives its normal form, which means the same as the value |
| CanonicalJson.CanonicalDecides | shared/webhook-delivery/index.ts:211-224 | two values print the same bytes exactly when they are semantically equal: unkept members dropped in objects, null in arrays, keys in any order |
| CanonicalJson.CanonicalFixedPoint | shared/webhook-delivery/index.ts:230-252 | parsing a canonical text and canonicalizing again reproduces it |
| CanonicalJson.CanonicalAfterReserialization | shared/webhook-delivery/index.ts:299-302 | any text that parses to the same meaning has the same canonical form |
| CanonicalJson.KeyOrderIrrelevant | shared/webhook-delivery/index.ts:241-244 | inserting an object's keys in any other order prints the same bytes |
| Text.BeforeExactly | shared/webhook-delivery/index.ts:241-244 | the key order: one key comes before another exactly when it is a proper prefix of it, or has the smaller code unit where they first differ |
| CanonicalJson.CanonicalKeysAscend | shared/webhook-delivery/index.ts:217 | in what the canonical text parses to, the keys of every object, at every depth, ascend in that order |
| ShortestJson.CanonicalShortest | shared/webhook-delivery/index.ts:218 | no text free of lone surrogates that means the same is shorter, so there is no white space and no needless escape; the canonical text is itself free of lone surrogates |
| CanonicalJson.StringifyReparse | shared/webhook-delivery/index.ts:299-300 | `canonicalize(JSON.parse(JSON.stringify(w)))` is `canonicalize(v)` for every w that means the same as v |
| Json.ParsePrint | shared/webhook-delivery/index.ts:234-252 | the RFC 8259 parser reads every printed JSON value back exactly |
| Json.ParsePlain | shared/webhook-delivery/index.ts:299-300 | whatever the parser accepts is plain data with distinct keys and valid number tokens |
| JsonStrings.ReadQuote | shared/webhook-delivery/index.ts:244-251 | reading undoes quoting for every sequence of code units, lone surrogates included |
| WebhookSignature.ReadHeaderMatches | shared/webhook-delivery/index.ts:316-320 | the header reader accepts exactly the texts of the pattern and returns their timestamp and HMAC |
| WebhookSignature.VerifyExactly | shared/webhook-delivery/index.ts:310-331 | a text passes as the header of a body exactly when it is `t=`, digits, `,s=` and 64 lower-case hex digits, not too old, and the hex is the HMAC of the timestamp, a dot and the body |
| WebhookSignature.SignedInjective | shared/webhook-delivery/index.ts:279 | the signed message determines both its timestamp and its body |
| WebhookSignature.HeaderBindsTimestampAndBody | shared/webhook-delivery/index.ts:277-331 | barring an HMAC collision a header naming one second beside the HMAC made for another second or body passes exactly when second and body are the same and the age is inside the window |
| WebhookSignature.SignPayloadPasses | shared/webhook-delivery/index.ts:277-281 | the header printed names the second it was made, carries the HMAC of that second, a dot and the body, and passes exactly inside the window |
| WebhookSignature.VerifySigned | shared/webhook-delivery/index.ts:277-331 | a signed header verifies exactly while it is fresh and the two HMACs agree |
| WebhookSignature.SignatureSurvivesReserialization | shared/webhook-delivery/index.ts:277-331 | the canonical form of any text with the payload's meaning verifies exactly while the age is within the window |
| WebhookSignature.SignatureSurvivesReordering | shared/webhook-delivery/index.ts:277-331 | the same for a payload stringified with its keys in any order at any depth |
| WebhookSignature.SignatureRejectsOtherPayloads | shared/webhook-delivery/index.ts:310-331 | barring an HMAC collision no payload of another meaning passes |
| Idempotency.Agreement | shared/validation/idempotency.ts:137-202 | in every run, with any failures, a call that returned gave the one row in the database, and reports `created` exactly when it inserted it |
| Idempotency.SameRowForAll | shared/validation/idempotency.ts:137-202 | any two calls that return give the same row and at most one reports `created` |
| Idempotency.CreateRunsOnce | shared/validation/idempotency.ts:146-189 | when no store call throws and the claim does not expire, at most one call ever runs `create`, and none when the key was claimed before |
| Idempotency.ExpiredClaimRunsCreateTwice | shared/validation/idempotency.ts:150-156 | one expired claim is enough for two calls to run `create`; the second still returns the first one's row |
| Idempotency.OutageNeverBlocks | shared/validation/idempotency.ts:184-202 | with Redis down throughout, no call that can look up the winner throws |
| Idempotency.EveryStepProgresses | shared/validation/idempotency.ts:110-203 | each store call brings its caller nearer to its end and nobody else's step moves it |
| Idempotency.AloneEnds | shared/validation/idempotency.ts:110-202 | how a call by itself ends: the first creates and leaves its claim; a replay is a lookup hit, or is answered by the resolver under the held claim, or is a conflict when the payload hash differs or nothing resolves it, and never runs `create` under a claim or a lookup |
| Idempotency.Stores.WithIdempotency | shared/validation/idempotency.ts:115-203 | the helper's try/catch control flow ends as the step machine does whatever runs between its store calls, and returns the database's row, `deduped` exactly when it is another caller's |
| Idempotency.Stores.ResolveWinner | shared/validation/idempotency.ts:157-188 | after a lost claim: the winner, a conflict, or the fall-through to the create when a store throws |
| Idempotency.Stores.GuardedCreate | shared/validation/idempotency.ts:191-202 | the guarded create ends with its own row, the winner of a unique violation, or the error |
| RedisSemaphore.NeverTooManyJobs | services/settlement-engine/src/redis-semaphore.ts:33-80 | in every run the set never exceeds the limit and still holds every job whose heartbeat is inside the window, so those never outnumber the limit |
| RedisSemaphore.RunKeeps | services/settlement-engine/src/redis-semaphore.ts:33-80 | what the set records is each token's true last heartbeat, and the key outlives it by the window |
| RedisSemaphore.AcquireExactly | services/settlement-engine/src/redis-semaphore.ts:33-52 | in every run an acquire is granted exactly when fewer than `maxConcurrent` tokens had their last heartbeat inside the window; granted, it leaves those tokens and its own, refused, those alone, all with their true heartbeats |
| RedisSemaphore.CountExactly | services/settlement-engine/src/redis-semaphore.ts:217-229 | counting sees exactly the tokens whose last heartbeat is inside the window |
| RedisSemaphore.RenewAndReleaseExactly | services/settlement-engine/src/redis-semaphore.ts:54-80 | in every run a renewal or release is answered true exactly when the log of calls and answers leaves the slot recorded and the key alive; so a stale slot nobody has pruned can still be renewed |
| RedisSemaphore.FreshSurvives | services/settlement-engine/src/redis-semaphore.ts:42-50 | neither pruning nor the expiry of the whole key drops a job whose heartbeat is inside the window |
| RedisSemaphore.RenewalInTimeSucceeds | services/settlement-engine/src/redis-semaphore.ts:54-68 | a renewal sent inside the window always succeeds, whatever the others did |
| RedisSemaphore.OthersUntouched | services/settlement-engine/src/redis-semaphore.ts:54-80 | no script of one caller changes a fresh slot of another |
| RedisSemaphore.DoubleReleaseIsNoOp | services/settlement-engine/src/redis-semaphore.ts:151-167 | a second release removes nothing and changes nothing |
| RedisSemaphore.MissedRenewals | services/settlement-engine/src/redis-semaphore.ts:174-190 | one renewal may always be missed, two exactly when the TTL is not a multiple of 3, three never |
| RedisSemaphore.MissedRenewalsShort | services/settlement-engine/src/redis-semaphore.ts:189-190 | the one-second minimum leaves no renewal to miss at two seconds and makes even the first too late at one |
| RedisSemaphore.Key.AcquireScript | services/settlement-engine/src/redis-semaphore.ts:33-52 | the acquire script as one step on the sorted set and its TTL: true exactly when fewer than `maxConcurrent` unexpired slots are inside the window |
| RedisSemaphore.Key.RenewScript | services/settlement-engine/src/redis-semaphore.ts:54-68 | the renew script as one step: true exactly when the key is alive and holds the token |
| RedisSemaphore.Key.ReleaseScript | services/settlement-engine/src/redis-semaphore.ts:70-80 | the release script as one step: removes the one token and answers whether the live key held it |
| RedisSemaphore.Key.GetActiveCount | services/settlement-engine/src/redis-semaphore.ts:217-229 | pruning and then, after any scripts of others, counting what the set holds at that moment: never more than the limit |
| SettlementReaper.ReapedExactlyOnce | services/settlement-engine/src/settlement-reaper.ts:26-58 | over any overlapping runs and other lifecycle steps each row is moved by a reaper at most once and enqueued exactly once per move |
| SettlementReaper.ReapersMoveOnlyOverdueRows | services/settlement-engine/src/settlement-reaper.ts:31-47 | at every step of every run a claim moves its row, to failed, exactly when it is processing and initiated before that run's cutoff, and no reaper step changes anything else; a page holds overdue rows only, and all of them when it is not full |
| SettlementReaper.FinishedLeavesNothing | services/settlement-engine/src/settlement-reaper.ts:31-57 | whatever interleaves, once a run has finished every row that was processing and older than its cutoff at its start is completed or failed |
| SettlementReaper.ReapStuckSettlements | services/settlement-engine/src/settlement-reaper.ts:31-57 | the paged loop terminates under interference and leaves every row that was processing and older than the cutoff completed or failed; the rows it moved were all processing and older than the cutoff, they are failed and different, and exactly those are enqueued, once each, in order, and counted |
| SettlementReaper.ReapRow | services/settlement-engine/src/settlement-reaper.ts:42-51 | a claimed row was processing and older than the cutoff when the update found it, is failed now, and its job is queued; a row not claimed is neither changed nor queued by this run |
| SettlementReaper.RunEvolves | services/settlement-engine/src/settlement-reaper.ts:22-24 | what every run of the step machine, of all reapers and all other steps, keeps of the rows and the queue between two statements of a run |
| Lifecycle.PathReaches | shared/validation/schemas.ts:543-558 | along every path of validated updates a status only moves forward; completed and failed are final |
| Lifecycle.ReachesByPath | shared/validation/schemas.ts:543-558 | and every status the order allows is reached by such a path |
| RetryChains.ChainShape | services/settlement-engine/src/index.ts:607-647 | a chain starts at its root, has no repetition, and the retry count is its length less one |
| RetryChains.ChainsOfEveryRun | services/settlement-engine/src/index.ts:741-829 | in every reachable state chains are disjoint, acyclic, at most four long and keep merchant, asset and amounts |
| RetryChains.RetryExactly | services/settlement-engine/src/index.ts:741-829 | in every reachable state a settlement can be retried exactly when it is failed and its whole chain has fewer than four; the retry adds a pending clone of its terms right behind it, one version later, and changes nothing else |
| RetryChains.RetriedIsFailed | services/settlement-engine/src/index.ts:752-759 | whatever has been retried is failed and stays so |
| RetryChains.GetSettlementRetryCount | services/settlement-engine/src/index.ts:615-647 | both walks terminate and return the chain's length less one |
| RetryChains.CountRetryChainDepth | services/settlement-engine/src/superseded-cleanup.ts:90-115 | the walk terminates and returns the number of settlements that follow |
| OptimisticLock.FinalRow | services/settlement-engine/src/prisma-adapter.ts:187-191 | among any plain updates the version counts the effective guarded writes, the k-th carried version start + k, and the row is the patches of all effective updates in order |
| OptimisticLock.OneWinnerPerVersion | services/settlement-engine/src/prisma-adapter.ts:187-195 | at most one write succeeds per id and expected version |
| OptimisticLock.MeetsTheRowRead | services/settlement-engine/src/index.ts:165-189 | a guarded write that takes effect meets the very row its author read exactly when the plain updates in between left every field they wrote as it was |
| OptimisticLock.NoLostUpdate | services/settlement-engine/src/prisma-adapter.ts:165-168 | it always does where every writer in between is guarded |
| OptimisticLock.GuardedFieldNeverLost | services/settlement-engine/src/index.ts:797-804 | a field that no plain update writes, as the retry link, is found as it was read, whatever plain updates came in between |
| OptimisticLock.FailsOnlyOnConflict | services/settlement-engine/src/prisma-adapter.ts:193-195 | a write made against a row read fails exactly when another guarded write to it took effect in between |
| OptimisticLock.VersionTellsRows | services/settlement-engine/src/prisma-adapter.ts:187-191 | versions never fall, and while one stands the row changes at most by what plain updates leave in it |
| OptimisticLock.RetryOfCompleted | services/api-gateway/src/index.ts:3585-3623 | a reachable run: a retry reads a failed settlement, a status update validated earlier completes it, and the retry's guarded link still takes effect |
| OptimisticLock.UpdateWithOptimisticLock | services/settlement-engine/src/prisma-adapter.ts:173-204 | throws exactly when the guarded write did not apply; returns its own row with what plain updates left in it since, or a later version |
| UniqueGuard.Table.CreateSettlementWithUniqueGuard | services/settlement-engine/src/prisma-adapter.ts:125-160 | inserts exactly when neither unique column is taken; else returns the row under its id, else the one under its key, each as found at its own moment among any inserts, updates and key clearings, else gives up |
| UniqueGuard.GivesUpExactly | services/settlement-engine/src/prisma-adapter.ts:152-155 | it gives up exactly when the key alone was in the way, its holder was cleared before the lookup, and nobody took the key or the id in the meantime |
| UniqueGuard.SettlesWithoutClearing | services/settlement-engine/src/prisma-adapter.ts:118-121 | when the row in the way is not cleared the guard returns a row, under the id or that very row |
| UniqueGuard.ExpiryMakesItGiveUp | services/api-gateway/src/idempotency-key-cleanup-cron.ts:88-97 | a reachable run in which the clean-up makes the guard give up |
| UniqueGuard.KeyStays | services/api-gateway/src/idempotency-key-cleanup-cron.ts:88-97 | a row carries its key exactly as long as nobody clears it, and never gets it back |
| UniqueGuard.RunUnique | services/settlement-engine/src/prisma-adapter.ts:114-116 | at every moment of every run at most one row carries a key |
| UniqueGuard.LookupsAgree | services/settlement-engine/src/prisma-adapter.ts:118-121 | two lookups of one key at any two moments find the same settlement exactly when its key was not cleared in between |
| UniqueGuard.ClearedKeyMovesOn | services/api-gateway/src/idempotency-key-cleanup-cron.ts:4-10 | a reachable run in which a cleared key is taken by another settlement |
| BatchScan.ForEachBatch | shared/validation/batch-scan.ts:106-155 | under inserts and deletes no row is handed over twice, every row present throughout is handed over once unless the scan is cut short, a cut-short scan hands over a prefix, and the counts are exact |
| BatchScan.NextPage | shared/validation/batch-scan.ts:69-81 | a page fetched by the id-ascending contract continues exactly where the last one ended |
| SettlementAmounts.FeeUnitsFloor | services/settlement-engine/src/settlement-amounts.ts:191-196 | the two nested round-downs are one floor, at the input's places or the 20th |
| SettlementAmounts.AcceptsAmountExactly | shared/validation/schemas.ts:26-42 | the digit-string comparison accepts exactly amounts of at most 16 integer digits and value at most 10^15 |
| AmountValues.AcceptsByValue | shared/validation/schemas.ts:26-42 | the same on numbers: at most 16 digits before the point and a value of at most 10^15 |
| AmountValues.TextDenotes | services/settlement-engine/src/settlement-amounts.ts:173 | an amount text denotes its digits before the point and a tenth of those after it for each of them, and nothing else is an amount |
| AmountValues.OrderIsNumeric | services/settlement-engine/src/settlement-amounts.ts:178 | comparing decimals of any scales is comparing the numbers they denote |
| AmountValues.CapExactly | services/settlement-engine/src/settlement-amounts.ts:105-117 | the cap is 10^8 x 10^decimals for a known asset and 10^15 otherwise |
| SettlementAmounts.LeadingZerosRefused | shared/validation/schemas.ts:28-31 | leading zeros count against the cap |
| SettlementAmounts.ThrowsExactly | services/settlement-engine/src/settlement-amounts.ts:166-230 | for valid rate, volume and tiers the computation throws exactly above the cap or for a fractional applied discount; the invariant check never rejects its own result |
| SettlementAmounts.NeverThrows | services/settlement-engine/src/settlement-amounts.ts:166-230 | the call without an asset, on a schema-accepted amount, throws exactly for a fractional applied discount, so never with whole tiers |
| SettlementAmounts.StoredAmounts | services/settlement-engine/src/settlement-amounts.ts:148-156 | fee and net texts read back with the input's decimals and add up exactly; the fee is the floor of gross x rate / 10000, less than one last kept place below it |
| AmountValues.StoredByValue | services/settlement-engine/src/settlement-amounts.ts:148-156 | as numbers: fee and net, with the input's decimals, make up the gross, and the fee is gross x rate / 10000 rounded down at the input's last decimal or the 20th |
| AmountValues.RateApplied | services/settlement-engine/src/settlement-amounts.ts:184-206 | the rate stored is the base rate less the winning tier's discount, 0 when that is larger, and the base rate when no tier is reached; the snapshot carries base rate, discount and volume |
| SettlementAmounts.FixedTextReads | services/settlement-engine/src/settlement-amounts.ts:195-197 | an amount printed to d places reads back as the same number with d places |
| SettlementAmounts.FixedTextShape | services/settlement-engine/src/settlement-amounts.ts:196-197 | and has exactly those places and no redundant zero in front |
| SettlementAmounts.FinishAccepts | services/settlement-engine/src/settlement-properties.ts:80-109 | the invariant check accepts every exact split of a gross amount |
| AmountValues.InvariantsExactly | services/settlement-engine/src/settlement-properties.ts:80-109 | the check passes exactly for a rate of 0 to 10000 and three amounts of which fee and net make up the gross |
| SettlementAmounts.AppliedInRange | services/settlement-engine/src/settlement-amounts.ts:184-189 | the applied rate is between 0 and the base rate, and with the discount adds up to it |
| SettlementAmounts.FeeMonotone | services/settlement-engine/src/settlement-amounts.ts:191-196 | at one scale a larger amount or rate never lowers the fee |
| SettlementAmounts.SplittingNeverCostsMore | services/settlement-engine/src/settlement-amounts.ts:191-196 | splitting an amount never raises the total fee |
| SettlementAmounts.FeeMonotoneExactly | services/settlement-engine/src/settlement-amounts.ts:191-196 | between amounts with sa and sb decimals the fee is monotone exactly when the rate is 0 or 10000 bps or the larger amount keeps at least as many places (of at most 20) |
| SettlementAmounts.FeeMonotoneAcrossScales | services/settlement-engine/src/settlement-amounts.ts:194-196 | with at least as many kept places on the larger amount the fee never falls, beyond 20 decimals too |
| SettlementAmounts.FeeFallsWithFewerPlaces | services/settlement-engine/src/settlement-amounts.ts:194-196 | with fewer, at every other rate, one value pays something when written with more decimals and nothing when written with fewer |
| FeeTiers.DiscountOfWinner | services/settlement-engine/src/settlement-amounts.ts:128-142 | sorting and scanning give the discount of the highest reached threshold, the earliest on a tie |
| FeeTiers.NoDiscount | services/settlement-engine/src/settlement-amounts.ts:128-142 | no reached tier, or no volume, gives no discount |
| FeeTiers.TierOrderIrrelevant | services/settlement-engine/src/settlement-amounts.ts:134-135 | with distinct thresholds the order of the tier list is irrelevant |
| Reconciliation.ComputedAmountsReconcile | services/settlement-engine/src/index.ts:1046-1078 | whatever the fee code computed passes the net and the fee check at the rate it applied, at any number of decimals |
| AmountValues.CheckExactly | services/settlement-engine/src/index.ts:1046-1078 | a record is an amount mismatch exactly when fee and net do not make up the gross, and otherwise a wrong fee exactly when it is more than one unit from the expected fee |
| AmountValues.ExpectedFeeIs | services/settlement-engine/src/index.ts:1064 | the expected fee is gross x rate / 10000 floored to whole units |
| Reconciliation.FloorsWithinOne | services/settlement-engine/src/index.ts:1062-1066 | flooring to whole units and flooring to d places differ by less than one unit |
| Reconciliation.DiscountedSingleIsReported | services/settlement-engine/src/index.ts:1516-1583 | the single route's stored texts, checked at the base rate stored beside them, are reported exactly when the whole-unit fees at the two rates differ by two or more |
| Reconciliation.ReportedExample | services/settlement-engine/src/index.ts:1062-1077 | 400 at 100 bps with a 50 bps discount is reported |
| Reconciliation.UndiscountedSingleReconciles | services/settlement-engine/src/index.ts:1062-1066 | without a discount the single path passes too |
| ReconciliationDiff.ComputeReconciliationDiff | services/settlement-engine/src/settlement-amounts.ts:305-370 | exactly the shared ids whose amounts agree are matched, exactly the other shared ids are reported, once each, with the amounts of both records as they are and their differing fields |
| ReconciliationDiff.AgreeIsEquivalence | services/settlement-engine/src/settlement-amounts.ts:337-340 | agreement compares numbers and not texts: it is an equivalence at any numbers of decimals |
| ReconciliationDiff.IndistinguishableExactly | services/settlement-engine/src/settlement-amounts.ts:319-322 | the diff cannot tell two amount texts apart exactly when they are equal up to leading zeros and trailing decimal zeros, absent and unreadable ones counting as 0 |
| ReconciliationDiff.AgreeExactly | services/settlement-engine/src/settlement-amounts.ts:329-340 | two records agree exactly when their gross (or else total), fee and net texts do, up to redundant zeros |
| ReconciliationDiff.DiffsExactly | services/settlement-engine/src/settlement-amounts.ts:343-346 | a report names the gross, the fee, the net exactly when the records' own texts differ there beyond redundant zeros, the total standing in for an absent gross, once each and in that order |
| ReconciliationDiff.LastRecordCounts | services/settlement-engine/src/settlement-amounts.ts:309-317 | of several records with one id the last is compared |
| BulkAcceptance.AcceptItems | services/settlement-engine/src/index.ts:1695-1766 | the loop's lists and running total are those of the specification |
| BulkAcceptance.EveryItemOnce | services/settlement-engine/src/index.ts:1699-1766 | every item is accepted or rejected, never both, and both lists keep the request's order |
| BulkAcceptance.AcceptedExactly | services/settlement-engine/src/index.ts:1699-1766 | an item is accepted, with its own amounts, exactly when its value is positive, within the merchant's bounds, within the daily limit on top of the items accepted before it, and its amounts compute |
| BulkAcceptance.RefusedExactly | services/settlement-engine/src/index.ts:1703-1752 | and refused for a reason exactly when that is the first check it fails |
| BulkAcceptance.RunningTotal | services/settlement-engine/src/index.ts:1765 | the running total before an item is the sum of the values of the items accepted before it |
| BulkAcceptance.AcceptedAreSound | services/settlement-engine/src/index.ts:1709-1765 | each accepted item meets the limits and is recorded with its own computed amounts; the total is the sum over them |
| BulkAcceptance.WithinDailyLimit | services/settlement-engine/src/index.ts:1731-1741 | a batch never takes the merchant over the daily limit |
| BulkAcceptance.OnlyLimitsRefuse | services/settlement-engine/src/index.ts:1743-1752 | schema-accepted amounts are refused only by the merchant's limits, except that a fractional applied discount refuses every one |
| BulkAcceptance.EveryAcceptedItemReconciles | services/settlement-engine/src/index.ts:1753-1764 | what the bulk path stores passes both reconcile checks at the rate stored beside it |
| Batching.RunMovesExactly | services/settlement-engine/src/settlement-batch-processor.ts:164-209 | a run moves exactly the rows of qualifying groups of its page, pending to processing, and counts each once |
| Batching.RunWritesExactly | services/settlement-engine/src/settlement-batch-processor.ts:164-209 | a run writes one batch for each asset of its page that has enough rows or volume and none for the others; each is made of all the page's rows of its asset and states their number and the sums of their gross, fees and net; exactly their members become processing |
| Batching.EachBatchFromOneRun | services/settlement-engine/src/settlement-batch-processor.ts:164-209 | in every run of the system each batch was made by one batching run from the oldest pending rows it read, all those of its asset, with those sums |
| Batching.GroupInPageOrder | services/settlement-engine/src/settlement-batch-processor.ts:153-160 | a group keeps the order of the page |
| Batching.AssetsInPageOrder | services/settlement-engine/src/settlement-batch-processor.ts:223 | assets come in order of first appearance |
| Batching.NeverCountedTwice | services/settlement-engine/src/settlement-batch-processor.ts:120-224 | over any sequence of runs and status updates no settlement is counted in two batches |
| Batching.BatchesStayExact | services/settlement-engine/src/settlement-batch-processor.ts:165-191 | every batch states, for ever, the number of its members, all of its asset, and the sum of their gross, of their fees and of their net |
| Batching.BatchesBalance | services/settlement-engine/src/settlement-batch-processor.ts:166-191 | a batch's gross is its fees plus its net when that holds of its members |
| Batching.CountsMoved | services/settlement-engine/src/settlement-batch-processor.ts:209 | the batches' counts add up to the number of rows moved |
| BatchingSteps.CountedOncePerRecording | services/settlement-engine/src/settlement-batch-processor.ts:140-209 | statement by statement, over every interleaving of jobs, crashes and status updates, a settlement is counted exactly once for each job that read it pending in a qualifying group and recorded that group |
| BatchingSteps.EveryBatchMade | services/settlement-engine/src/settlement-batch-processor.ts:164-191 | in every interleaving of jobs, crashes and status updates each batch states the number and the sums of all rows of its asset in the page its job read, enough of them |
| BatchingSteps.UndisturbedIsOneRun | services/settlement-engine/src/settlement-batch-processor.ts:164-209 | a job nobody disturbs leaves exactly what the one-step run leaves |
| BatchingSteps.OverlappingJobsCountTwice | services/settlement-engine/src/settlement-batch-processor.ts:183-196 | a run, open to any pending settlement, in which two jobs that read one page count it twice |
| BatchingSteps.ThrownMarkingCountsTwice | services/settlement-engine/src/index.ts:177-189 | a run of jobs that never overlap in which a marking that throws leaves a recorded settlement pending, to be counted again |
| Batching.RunSettlementBatching | services/settlement-engine/src/settlement-batch-processor.ts:120-224 | the job takes the oldest pending rows, leaves the store as specified for them, adds only batches made of all the page's rows of their asset with the sums of each amount, and returns the sum of their counts, the number moved |
| Batching.Store.FindPending | services/settlement-engine/src/settlement-batch-processor.ts:140-146 | the page is the pending rows by age and then id, at most `maxBatchSize` of them |
| Batching.GroupByAsset | services/settlement-engine/src/settlement-batch-processor.ts:153-160 | grouping by pushes gives each asset its rows of the page in page order |
| BatchClaims.BatchTable.ClaimBatchForProcessing | services/settlement-engine/src/settlement-batch-processor.ts:33-68 | a call claims a batch exactly when the claim is recorded as its own, and no entry ever changes, so no two calls claim one batch |
| PairKeys.SameKey | services/fx-engine/src/index.ts:161 | two pairs share a cache key exactly when they are one pair or overlap at an underscore |
| FxRates.CacheIsInvisible | services/fx-engine/src/index.ts:159-189 | after any run of quotes, prunes, refreshes, overrides and warm-ups, a resolved pair is the quotient of the base rates that the updates alone produce, and an error exactly when one has no rate |
| FxRates.ServedFromCacheExactly | services/fx-engine/src/index.ts:159-189 | in every run from start-up a pair is served from the cache exactly when its rate was computed less than a minute ago and no base rate was updated since |
| FxRates.SupportedAlwaysAnswered | services/fx-engine/src/index.ts:172-177 | a supported pair is always answered |
| FxRates.OutageKeepsOnlyRecentPairs | services/fx-engine/src/index.ts:121-130 | in every run, after a prune each cached pair was quoted within the last TTL, however long refreshes have failed |
| FxRates.RefreshJoinsBatches | services/fx-engine/src/index.ts:273-285 | a refresh moves every asset into its batch, changes only accepted rates, and restamps only those and the base |
| FxRates.RefreshExactly | services/fx-engine/src/index.ts:207-285 | a refresh replaces a known rate exactly when the fetched one is in the band, takes a new asset as fetched, puts everything in the new batch and stamps the replaced, the new and NGN |
| FxRates.OverrideJoinsBatches | services/fx-engine/src/index.ts:1205-1206 | so does an override |
| FxRates.AcceptedBand | services/fx-engine/src/index.ts:227-241 | the guard accepts a rate exactly when there is no old one, none above zero, or it lies within the band around the old one |
| FxRates.BoundedDrift | services/fx-engine/src/index.ts:207-247 | k guarded refreshes move a rate by at most k compounded bands and keep it positive |
| FxRates.DriftOverRuns | services/fx-engine/src/index.ts:460-501 | the same over runs of the service with quotes and prunes in between |
| FxRates.GuardPartitions | services/fx-engine/src/index.ts:222-244 | every fetched asset is accepted or rejected, never both, as the guard decides on its rate |
| FxRates.ApplyDeviationGuard | services/fx-engine/src/index.ts:207-247 | the loop's merged rates and its two lists are those of the specification |
| FxRates.FxEngine.constructor | services/fx-engine/src/index.ts:97-104 | the service starts with the three fallback rates in one batch, stamped now, and nothing computed |
| FxRates.FxEngine.ResolvePairRate | services/fx-engine/src/index.ts:159-189 | whatever the cache holds the answer is the live quotient or names the missing asset |
| FxRates.FxEngine.PruneExpiredComputedRates | services/fx-engine/src/index.ts:131-137 | the loop leaves exactly the entries younger than a minute |
| FxRates.FxEngine.UpdateBaseRates | services/fx-engine/src/index.ts:273-285 | rates, batches and timestamps are as specified and the computed cache is empty |
| FxRates.FxEngine.Refresh | services/fx-engine/src/index.ts:487-501 | guard and update together keep every reachable state sound |
| FxRates.FxEngine.Override | services/fx-engine/src/index.ts:1205-1206 | the override likewise |
| CircuitBreaker.FunctionOfHistory | services/fx-engine/src/circuit-breaker.ts:35-126 | for thresholds of at least 1 the whole breaker is told by its route's history: the trailing failures; `openedAt`, the reading of the failure that began the current opening, a failed probe beginning a new one; half open exactly when a `getState` since then found the cooldown over; and the reading of the last change of phase |
| CircuitBreaker.ClosedBelowThreshold | services/fx-engine/src/circuit-breaker.ts:115-124 | a route is closed, and `openedAt` null, exactly below the threshold |
| CircuitBreaker.RoutesAreIndependent | services/fx-engine/src/circuit-breaker.ts:4-5 | calls on other routes are as if never made |
| CircuitBreaker.HalfOpensAfterCooldown | services/fx-engine/src/circuit-breaker.ts:93-105 | an open route becomes half open exactly in a `getState` whose cooldown has elapsed since the current opening began |
| CircuitBreaker.HalfOpenUntilOutcome | services/fx-engine/src/circuit-breaker.ts:12-13 | over any calls without a recorded outcome a half-open route stays half open, so every `getState` answers so |
| CircuitBreaker.NextProbe | services/fx-engine/src/circuit-breaker.ts:12-13 | after a probe the next `getState` admits another exactly when no outcome was recorded in between, or the outcomes reopened the route and the new cooldown is over |
| CircuitBreaker.TwoProbesAtOnce | services/fx-engine/src/circuit-breaker.ts:93-105 | a reachable run with two probes of one opening, at any threshold |
| CircuitBreaker.Registry.TakeSnapshot | services/fx-engine/src/circuit-breaker.ts:88-91 | a snapshot returns the breaker as it is and never advances it |
| CircuitBreaker.Registry.State | services/fx-engine/src/circuit-breaker.ts:93-105 | `getState` as one call of the history; its answer is CLOSED exactly below the threshold |
| CircuitBreaker.Registry.Success | services/fx-engine/src/circuit-breaker.ts:107-113 | `recordSuccess` as one call of the history |
| CircuitBreaker.Registry.Failure | services/fx-engine/src/circuit-breaker.ts:115-126 | `recordFailure` as one call of the history |
| CircuitBreaker.Registry.Transition | services/fx-engine/src/circuit-breaker.ts:57-75 | the record a transition leaves, and that a transition to the same phase does nothing |
| StellarAmounts.StroopsRoundTrip | shared/stellar-utils/index.ts:43-77 | stroops to decimal and back returns every digit string without its leading zeros |
| StellarAmounts.AmountRoundTrip | shared/stellar-utils/index.ts:43-77 | decimal to stroops and back truncates, never rounds, and gives the normal form |
| StellarAmounts.StroopsValue | shared/stellar-utils/index.ts:43-56 | the stroops are the amount's digits times ten for each decimal missing, or cut off at the last decimal kept |
| StellarAmounts.Rejections | shared/stellar-utils/index.ts:47-72 | both directions reject exactly the texts outside their patterns |
| AmountStrings.SplitJoin | shared/stellar-utils/index.ts:47-51 | a text matches the amount pattern exactly when it is a join of valid parts, and those are its parts |
| FieldEncryption.PayloadParses | shared/validation/encryption.ts:173-193 | a payload splits into exactly its three parts and each reads back |
| FieldEncryption.FieldRoundTrip | shared/validation/encryption.ts:158-208 | a freshly encrypted field decrypts to what UTF-8 makes of the plaintext |
| FieldEncryption.DecryptFieldExactly | shared/validation/encryption.ts:177-208 | exactly which texts with the prefix decrypt, and to what: three parts without colons, an IV and a tag of 12 and 16 bytes, opened under the hash of the key |
| FieldEncryption.DecryptShortens | shared/validation/encryption.ts:177-208 | a text with the prefix never decrypts to itself |
| FieldEncryption.TreeRoundTrip | shared/validation/encryption.ts:220-272 | with a key, encryption of any nested data succeeds, and decrypting gives the data back exactly when every sensitive string is free of the prefix and of lone surrogates |
| FieldEncryption.WalkAtEveryPlace | shared/validation/encryption.ts:220-272 | at every place, however deep, a string under one of the four sensitive names is encrypted or decrypted and everything else stays, with lengths, order and names kept |
| FieldEncryption.EncryptOnce | shared/validation/encryption.ts:158-245 | encryption fails exactly without a key when some sensitive string lacks the prefix; afterwards none is in the clear, and encrypting again changes nothing |
| FieldEncryption.TransformObject | shared/validation/encryption.ts:233-244 | copying an object and overwriting its values key by key gives the specified result, or its first error |
| FieldEncryption.TransformSensitiveFields | shared/validation/encryption.ts:220-272 | the walks over arrays and objects give the specified result |

## Left out

- HTTP routes, authentication hooks, body validation plumbing, logging, metrics, health probes, start-up and shutdown: they only carry values in and out.
- SHA-256, HMAC, AES-GCM and UTF-8 themselves: abstract functions with a stated law.
- IEEE doubles: amounts are exact decimals, FX rates and bulk totals are reals, and a JSON number is an opaque valid token. The header's timestamp is an exact integer, so `Number()` above 2^53 is not modelled; nor are overflow to infinity and the exponential notation of very large BigNumbers.
- JSON values with `toJSON` (dates, decimals): plain data only.
- Decimals above 22 for stroops, where `10 ** decimals` is no longer exact.
- Per-asset precision: a parameter (`decimals`), not the table of asset codes and its upper-casing; negative and exponential amount texts in reconcile rows read as not a number.
- `withIdempotency` once its key has expired: the key is live throughout, and the clean-up that frees it is in `UniqueGuard` only. Calls with no key, where every guard is skipped; and replay by payload hash across different payloads, as all modelled calls carry one key.
- The validated status update reads and writes in two statements (services/settlement-engine/src/index.ts:165-189); it is one step here. So is the retry handler, hence the pending clone it leaves behind when its optimistic write loses.
- Batching.NeverCountedTwice: each run is one step there; `BatchingSteps` takes the job apart and says exactly how often a settlement is counted otherwise, crashes included. The late-run figures are not modelled.
- A reaper that crashes between claiming a row and enqueueing its job: the row stays failed without a job.
- `startSemaphoreRenewal`: the timer and its `stop` flag; only the interval it uses. The semaphore's limit and window are the same for every caller, and all callers share one clock.
- `UniqueGuard`, `OptimisticLock` and `Batching` keep rows for ever, as no code deletes a settlement; an expiry is the clearing of a key at any moment, as the model has no clock there. The query timeout wrapper is not modelled.
- BulkAcceptance.WithinDailyLimit: totals are exact reals where the source adds doubles, so a limit may be missed by a rounding error.
- Storing and loading rate snapshots, the fetch lock and its polling: a refresh is the answer of `fetchBaseRates` handled in one synchronous stretch, and a warm-up is one update. `computeQuote` only formats.
- `transition` to HALF_OPEN is never called by the registry; its log call is dropped.
- `archiveSupersededChains` and the other clean-up jobs: one bulk update each.
- api-gateway routes, rate-limit keys, CORS, cookies and URL checks: only easy members.
- The iteration order of JavaScript maps in `updateBaseRates`, `pruneExpiredComputedRates` and the reconciliation diff: the loops here visit the keys in any order, so their contracts do not depend on it.
- FieldEncryption.TransformSensitiveFields: objects are values, so that the caller's object stays untouched is built in and not proved.
