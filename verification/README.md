# Lumen: verified core

A Dafny model of the parts of Lumen that hold state across runs and have to stay right under retries,
interleavings, crashes, expiry and rounding, with proofs of what they promise. `dafny verify dfyconfig.toml`
checks everything.

The model has one module per component, and beside most of them one for whole runs of it (`...Runs`) and one
for what its operations mean to a caller (`...Laws`):

- **Money.** `Pricing` turns usage into credits; `Credits` is the double-entry ledger behind the wallets, and
  `CreditLaws` says when its operations go through, what they take from where and how holds are backed; `Rating`
  ingests usage batches and charges them through that ledger, and `RatingLaws` says which batches it takes up;
  `RatingRuns` interleaves any number of raters, replays, price changes and crashes, and `RatingReports` is about
  what they report; `Lifecycle` is the active, warning, grace, suspended machine with versioned saves and its
  retry loop; `LifecycleRuns` interleaves any number of its clients, and `LifecycleTicks` is about whole ticks.
- **Coordination.** `PollingLease` is the Mongo lease that decides which process polls Telegram; `Backpressure`
  counts generations in flight with a check and an increment under separate locks; `SlidingWindow` is the Redis
  rate limiter that trims its own history.
- **Copies that must agree with a simpler form.** `Jobs` is the Redis job store with its `active` index beside
  the plain map, `JobLaws` what its calls and runs leave behind, `JobRuns` its looks and updates command by
  command; `Session` removes or seals secrets before a session is stored, `SessionNames` says which by their
  names, `SessionRuns` interleaves the loads and landings of several savers; `Subscription` keeps a
  copy of the Mongo record in that session, `SubscriptionRuns` interleaves the commands of several readers and
  writers; `SecretInbox` is a locked file used as a one-shot map with expiry.
- **Text.** `TextSplit` cuts messages; `MarkdownV2` and `HtmlEmoji` escape text so that reading it back gives
  what was written.

Objects that the source updates in place are classes, and each method is proved against a function from the old
state to the new one. Whole runs are sequences of events over those functions. In `LifecycleRuns`, `RatingRuns`,
`PollingLease`, `Backpressure`, `JobRuns`, `SessionRuns` and `SubscriptionRuns` an event is one step that the
source really takes at once (a Redis or Mongo command, a locked section), and each has a lemma that whole calls
are such runs or is stated over the steps alone, so a theorem about all event sequences is one about all
interleavings. In `Credits` and `SecretInbox` a whole call is one locked section, and in `SlidingWindow` every
call changes the store with one command. The runs inside `Jobs` and `Subscription` take one call at a time; what
several processes at once do to them is in `JobRuns` and `SubscriptionRuns`. Clocks, environment switches, drawn
identifiers, evictions, failures and the behaviour of other processes are parameters or events. `Prelude` holds
what several modules share.

## What the proofs found

The code behaves differently from what its names and comments suggest in these places. Each is stated as a
lemma, with the exact condition where there is one.

- A suspension is reported, and the bots are stopped, even when the save that should store it lost to a rival
  (`SuspendUnstoredIffRivalSaved`); the calls that save once drop their update silently in the same case
  (`SingleSaveLostIffRivalSaved`).
- The alert cooldown has no effect (`CooldownHasNoEffect`), and a warning is withdrawn by the next evaluation
  (`WarningIffJustAlerted`).
- Two promotions that expire in the same second can leave a wallet and the ledger apart
  (`SameSecondGrantsDrift`), an expiry can leave more reserved than there is (`ReservedCoveredIffExpiryFits`),
  and a promotion that was spent takes the next one with it when its own time comes
  (`SpentPromotionBurnsNextGrant`, exactly when: `GrantSurvivesIff`).
- A batch completed after a crash is recorded at the price of that day, whatever was debited
  (`CrashedBatchIsCompleted`). Two raters of one batch both report its charge, which is recorded once
  (`BothReportOneCharge`; exactly when: `ReportsAreTrueIff`). Idempotency keys are shared by all tenants: who
  reuses another tenant's key gets that tenant's batch and is charged nothing (`IngestReturnsOwnBatchIff`).
- Nothing stops a poller whose lease ran out. Two processes poll together exactly when an attempt reaches the
  store while another process polls that has not renewed for the lease time, or by force while another polls at
  all (`OnePollerIff`, `LapsedPollerIsJoined`).
- `seconds_until_allow` can be too short once the limit was lowered (`LoweredLimitWaitsTooShort`; exactly when:
  `WaitSufficesIff`).
- The two job stores answer a limit below one differently (`ListingsAgreeIff`). A cancel, pause or resume that
  races with the end of a run replaces the outcome, and a resume brings a finished job back for good
  (`StaleControlWrites`; exactly when: `OutcomeStandsIff`); a stale pause, or two updates whose commands cross,
  also leave the index wrong (`CrossedUpdatesExactIff`; exactly when: `IndexExactIff`). A tenant name with
  surrounding blanks has no cap (`PaddedTenantHasNoCap`).
- Two processes that save one user's session at once can drop each other's keys (`OverlapUndoes`; exactly when:
  `YieldsLastSavedIff`). Redaction does not look into tuples, so a secret inside one is stored in the clear
  (`StoreStaysProperIff`). A sealed secret inside a session is sealed again at every load and save
  (`EachCycleAddsALayer`).
- A reader that heals the cache, or any other save of a session loaded before, can bring an older or a refunded
  subscription back (`OvertakenRecordIsServed`; exactly when: `ReadReturnsLastWrittenIff`), and so can a session
  save that carries one (`CarriedCopyIsServed`); a crash between Mongo and Redis leaves the old copy in service
  (`CrashedChangeIsNotSeen`).
- A failed `consume_secret` leaves expired rows in the file, which matters if the clock goes back
  (`ClockGoingBackRevives`; exactly when: `ConsumeSucceedsIffKept`).
- A release without an acquire makes the limits too generous (`StrayReleaseUndercountsIff`).
- The one message that `safe_edit_text` makes of a long text can exceed the limit it is cut for: the note that
  more follows is longer than the room kept for it (`UnbrokenTextDoesNotFit`; exactly when: `EditFitsIff`).
- A custom-emoji tag that is not in lower case survives only beside one that is (`EscapeHtmlIsSegmentwiseIff`),
  and text that contains NUL can spell a tag that was never there (`ForgedPlaceholder`; exactly when:
  `EscapeHtmlExact`).

## Model

| member | source | states |
|---|---|---|
| `Lifecycle.FirstDueMeaning` | lumen/platform/balance_lifecycle.py:409-411 | the threshold loop stops at a threshold that is reached and above the last announced one, and finds none only if there is none |
| `Lifecycle.ApplyKeepsConsistent` | lumen/platform/balance_lifecycle.py:376-504 | every call keeps the shape of a stored state (suspended iff phase is suspended, no timer outside grace, grace ends GRACE_SEC after it started), never touches the version and never lowers the baseline |
| `Lifecycle.PctReached` | lumen/platform/balance_lifecycle.py:388-391 | the rounded percentage reaches th exactly when at most (100 - th)% of a positive baseline is left |
| `Lifecycle.AlertExactlyWhenCrossed` | lumen/platform/balance_lifecycle.py:386-419 | an alert th is raised if and only if an active tenant with credit left has really crossed th, th is above the last alert, and no lower threshold above the last alert was crossed |
| `Lifecycle.CooldownHasNoEffect` | lumen/platform/balance_lifecycle.py:410-411 | no value of the alert cooldown ever changes an outcome: the test stands behind a condition that implies it |
| `Lifecycle.GraceLastsExactly` | lumen/platform/balance_lifecycle.py:437-457 | a call that finds no credit opens a grace period that ends GRACE_SEC later, leaves a tenant in grace before that moment and suspends it from that moment on, and does nothing to a suspended one |
| `Lifecycle.GraceWarningsKeepDistance` | lumen/platform/balance_lifecycle.py:446-453 | the reminder stamp of a running grace period moves to now exactly when it is GRACE_WARN_EVERY_SEC old |
| `Lifecycle.SuspensionRecords` | lumen/platform/balance_lifecycle.py:394-483 | a suspension records when which bots were stopped and the reason it was given or the expired grace period, cut to 300 characters; suspend() suspends any tenant that is not suspended |
| `Lifecycle.RecoveryIsComplete` | lumen/platform/balance_lifecycle.py:400-504 | a tenant recovers exactly when an evaluation finds credit in grace or warning, is unsuspended exactly when credit comes in that its wallet shows or that cannot be read, and is active without a running grace period afterwards |
| `Lifecycle.SavesIff` | lumen/platform/balance_lifecycle.py:376-504 | which calls save at all |
| `Lifecycle.BaselineIsLargest` | lumen/platform/balance_lifecycle.py:346-387 | the baseline a stored call leaves is the largest funded amount it knows of |
| `Lifecycle.MemoryLifecycleStore.Get` | lumen/platform/balance_lifecycle.py:60-67 | a tenant seen for the first time gets the fresh state; nobody else's state changes |
| `Lifecycle.MemoryLifecycleStore.Save` | lumen/platform/balance_lifecycle.py:69-78 | a save is accepted exactly when the stored version is the one it carries, and then raises it by one |
| `Lifecycle.BalanceLifecycle.OnBalanceChanged` | lumen/platform/balance_lifecycle.py:376-425 | store and reply are those of up to three attempts of the sequential decision, with other callers' saves between each read and write |
| `Lifecycle.BalanceLifecycle.OnRatingFailure` | lumen/platform/balance_lifecycle.py:427-435 | one read, one decision, one save whose outcome is ignored; failures other than missing credit change nothing |
| `Lifecycle.BalanceLifecycle.SuspendNow` | lumen/platform/balance_lifecycle.py:479-483 | one read, a forced suspension, one save whose outcome is ignored |
| `Lifecycle.BalanceLifecycle.ClearSuspensionOnCredit` | lumen/platform/balance_lifecycle.py:485-504 | clears phase, timer and announced threshold unless the wallet is readable and empty |
| `Lifecycle.BalanceLifecycle.RaiseBaseline` | lumen/platform/balance_lifecycle.py:346-349 | stores the larger of the recorded and the given baseline |
| `Lifecycle.BalanceLifecycle.Tick` | lumen/platform/balance_lifecycle.py:554-571 | the loop equals a fold of the retry loop over the tenants that are not plainly active, each attempt with its own view and rivals and with any saves of others in between, reporting every action but none and already_suspended |
| `Lifecycle.SingleSaveLostIffRivalSaved` | lumen/platform/balance_lifecycle.py:427-504 | the calls that save once report the sequential action always, and lose their update exactly when a rival saved in between |
| `Lifecycle.ConflictNeedsRivals` | lumen/platform/balance_lifecycle.py:378-425 | concurrency_conflict is reported only after a rival's accepted save in each attempt |
| `Lifecycle.ReportedActionIsStored` | lumen/platform/balance_lifecycle.py:394-425 | every other reported change is the stored one: some attempt decided by exactly the state the store held, after the rivals of that attempt and of all before it, when it saved, and the store afterwards is that one transition of it, one version later |
| `Lifecycle.SuspendUnstoredIffRivalSaved` | lumen/platform/balance_lifecycle.py:394-398 | a reported suspension is missing from the store exactly when a rival saved between read and write |
| `LifecycleRuns.ChainInvariant` | lumen/platform/balance_lifecycle.py:30-46 | in a stored history every state has the consistent shape and carries its position as version |
| `LifecycleRuns.BaselineNeverDecreases` | lumen/platform/balance_lifecycle.py:386-387 | the stored baseline never decreases over a whole run |
| `LifecycleRuns.GraceHasStart` | lumen/platform/balance_lifecycle.py:437-453 | a stored grace state goes back to the call that entered grace, with only that grace period in between |
| `LifecycleRuns.SuspensionFollowsFullGrace` | lumen/platform/balance_lifecycle.py:427-457 | every stored suspension not made by suspend() follows an enter_grace at least GRACE_SEC earlier with no recovery in between |
| `LifecycleRuns.GraceEndsOnTime` | lumen/platform/balance_lifecycle.py:427-457 | and none much later: in a stored history a call that finds no credit in grace suspends if and only if GRACE_SEC have passed since the call that opened the grace period |
| `LifecycleRuns.AnnouncedThresholdMoves` | lumen/platform/balance_lifecycle.py:409-500 | the announced threshold strictly rises with an alert, returns to zero with a clear and otherwise stays |
| `LifecycleRuns.AlertsBetweenClears` | lumen/platform/balance_lifecycle.py:409-500 | between two clears there are at most three stored alerts, no more than the thresholds gained |
| `LifecycleRuns.WarningIffJustAlerted` | lumen/platform/balance_lifecycle.py:401-419 | a tenant is stored as warned exactly when its last stored call, baseline recordings aside, raised an alert: the next evaluation ends the warning even if the threshold is still exceeded |
| `LifecycleRuns.AcceptedSaveIsCurrent` | lumen/platform/balance_lifecycle.py:69-78 | in any reachable state a save passes the version check if and only if it was computed from exactly the state now stored |
| `LifecycleRuns.StepKeepsInv` | lumen/platform/balance_lifecycle.py:60-78 | every step of any client keeps the invariant tying each client's copy to the stored history |
| `LifecycleRuns.EveryRunIsAChain` | lumen/platform/balance_lifecycle.py:60-78 | serialisability: after any interleaving of reads, decisions, saves and crashes of any number of clients, each tenant's stored states form a chain of sequential transitions and the version counts them |
| `LifecycleRuns.CallIsARun` | lumen/platform/balance_lifecycle.py:376-425 | every call of the retry loop, over however many attempts, is one of these runs: with the other clients' decided saves as its rivals it leaves the tenant in the state that the run of single reads, decisions and saves leaves it in |
| `LifecycleRuns.OthersAreRivals` | lumen/platform/balance_lifecycle.py:69-78 | what other clients' steps do to a tenant between two moments is what their decided saves do one after the other |
| `LifecycleRuns.SingleSaveIsARun` | lumen/platform/balance_lifecycle.py:346-504 | so is every call that reads and saves once, whatever the others do between its read and its save |
| `LifecycleRuns.DecisionCommutes` | lumen/platform/balance_lifecycle.py:376-425 | steps of other clients between a read and the decision on it may as well come after the decision |
| `LifecycleRuns.WaitingClientKeepsCopy` | lumen/platform/balance_lifecycle.py:376-425 | while a client waits, nobody changes its copy and its tenant's history only grows |
| `LifecycleRuns.SaveLandsIffNobodyElseSaved` | lumen/platform/balance_lifecycle.py:69-78 | a decided save takes effect if and only if nobody else's save of that tenant did while it waited |
| `LifecycleRuns.DeadClientIsSilent` | lumen/platform/balance_lifecycle.py:376-504 | a client that died between its steps changes nothing until it reads again |
| `LifecycleTicks.TickHandlesEachOnce` | lumen/platform/balance_lifecycle.py:554-571 | a tick that nobody disturbs takes every listed tenant in warning or grace through exactly one evaluation, stores what it decides and reports it once, and leaves active and suspended ones alone |
| `LifecycleTicks.OthersUntouched` | lumen/platform/balance_lifecycle.py:554-571 | tenants that are not listed are neither changed nor reported |
| `LifecycleTicks.TickEndsGrace` | lumen/platform/balance_lifecycle.py:437-571 | so a tick suspends every listed tenant without credit whose grace period is over, and no other in grace |
| `Pricing.UnitsAreExactCeilings` | lumen/platform/rating_engine.py:68-93 | host credits are exactly ceil(uptime*price/3600) and token units exactly ceil(tokens/1000), the max(1, ...) included |
| `Pricing.RamIsExactCeiling` | lumen/platform/rating_engine.py:94-98 | adding 0.9999 before truncating is, in exact arithmetic, the exact ceiling of mb*seconds*price/3600 |
| `Pricing.CostIsExact` | lumen/platform/rating_engine.py:66-99 | the price of a batch, part by part, is messages at their price, the exact ceilings of tokens, uptime and RAM hours, and their sum |
| `Pricing.MoreUsageNeverCheaper` | lumen/platform/rating_engine.py:66-99 | reporting more never costs less, where tokens have a price |
| `Pricing.CeilOfSum` | lumen/platform/rating_engine.py:68-92 | rounding two parts up separately costs at most one unit more than rounding their sum, never less |
| `Pricing.SplittingCostsAtMostOnePerCut` | lumen/platform/rating_engine.py:68-92 | cutting a total into n parts never lowers the rounded sum and raises it by at most n - 1 |
| `Pricing.SplittingBoundIsReached` | lumen/platform/rating_engine.py:68-92 | the bound n - 1 is attained |
| `Pricing.BatchingUsage` | lumen/platform/rating_engine.py:68-93 | the same for the credits the code charges for uptime and tokens reported in n batches |
| `Credits.MemoryCreditsStore.ExpirePromotional` | lumen/platform/credits/memory_store.py:337-376 | burns what is left of a due promotion from the balance, and files an entry unless the second's key is taken |
| `Credits.MemoryCreditsStore.AddCredit` | lumen/platform/credits/memory_store.py:121-158 | state and reply of a credit, replay and the earliest-expiry rule included |
| `Credits.MemoryCreditsStore.Deduct` | lumen/platform/credits/memory_store.py:160-202 | state and reply of a debit: replay, expiry, available balance, promotional credit first |
| `Credits.MemoryCreditsStore.Reserve` | lumen/platform/credits/memory_store.py:204-250 | state and reply of a reservation; what it holds is in `CreditLaws.TakesFromWallet` and `HoldsAreInTheLedger` |
| `Credits.MemoryCreditsStore.ReleaseReservation` | lumen/platform/credits/memory_store.py:252-282 | releases at most what is reserved |
| `Credits.MemoryCreditsStore.CaptureReservation` | lumen/platform/credits/memory_store.py:284-334 | turns reserved credit into revenue with four balanced legs |
| `Credits.MemoryCreditsStore.Reconcile` | lumen/platform/credits/memory_store.py:378-402 | the loop over the entries computes the wallet's balance minus its net in the ledger |
| `Credits.ApplyKeepsSound` | lumen/platform/credits/memory_store.py:75-376 | every operation keeps the books sound: every amount and every leg positive, debits equal to credits, one entry per key, wallets not negative |
| `Credits.FilesOne` | lumen/platform/credits/memory_store.py:75-119 | an operation that reports success anew files exactly one entry, under its own key and tenant, whose legs account for the wallet's change |
| `Credits.DriftUnchangedIffNoCollision` | lumen/platform/credits/memory_store.py:337-367 | an operation leaves every wallet's drift unchanged if and only if its expiry does not meet a taken key |
| `Credits.RunIsSound` | lumen/platform/credits/memory_store.py:75-376 | from an empty ledger every run of operations leaves the books sound |
| `Credits.RunsReconcile` | lumen/platform/credits/memory_store.py:378-402 | over every run no wallet holds more than its ledger accounts for, and all wallets reconcile if and only if no expiry ever met a taken key |
| `Credits.SameSecondGrantsDrift` | lumen/platform/credits/memory_store.py:360-362 | two grants expiring in the same second, one expired before the other is made, leave the second amount unaccounted for |
| `Credits.ReservedCoveredIffExpiryFits` | lumen/platform/credits/memory_store.py:337-359 | an expiry leaves reserved credit covered by the balance if and only if what it burns fits in the available part |
| `Credits.ReservedCoveredByOthers` | lumen/platform/credits/memory_store.py:121-334 | every other operation keeps reserved credit covered by the balance |
| `Credits.GrantMovesExpiryForward` | lumen/platform/credits/memory_store.py:145-151 | a grant moves the one expiry of the wallet to the earlier of the one on file and its own, and nothing but a promotional grant with an expiry moves it |
| `Credits.GrantSurvivesIff` | lumen/platform/credits/memory_store.py:145-151 | no expiry before the grant's own can burn anything if and only if the wallet had no earlier expiry on file when the grant was made |
| `Credits.GrantSurvivesRun` | lumen/platform/credits/memory_store.py:121-376 | then nothing of it lapses early over any run of operations before that moment without a further grant to the tenant |
| `Credits.SpentPromotionBurnsNextGrant` | lumen/platform/credits/memory_store.py:145-195 | a promotion that is spent in full leaves its expiry on file, and the next grant, however long it should last, is burnt in full at that moment |
| `Credits.RetryIsHarmless` | lumen/platform/credits/memory_store.py:60-68 | an operation that succeeded once can be retried after any further run of operations: it changes nothing and reports success |
| `CreditLaws.ExpiryTakesPromotionOnly` | lumen/platform/credits/memory_store.py:337-376 | an expiry takes what is left of a promotion exactly when its time has come, and neither purchased credit nor holds nor another wallet |
| `CreditLaws.GoesThroughIff` | lumen/platform/credits/memory_store.py:121-334 | with a fresh key and a valid amount an operation succeeds if and only if the wallet allows it: credit neither spent nor held for a debit or a hold, something held for a release, the full amount held and owned for a capture |
| `CreditLaws.BadInputIsRefused` | lumen/platform/credits/memory_store.py:127-130 | amounts outside 1 to a million million and keys outside 8 to 200 characters are refused and change nothing |
| `CreditLaws.TakesFromWallet` | lumen/platform/credits/memory_store.py:121-334 | what success changes (`Takes`): balance, hold and promotional part by exactly the amount, promotional credit first, and no other wallet |
| `CreditLaws.EntrySaysWhatHappened` | lumen/platform/credits/memory_store.py:75-119 | the entry filed carries the operation's tenant, key, reference, kind and amount |
| `CreditLaws.HoldsAreInTheLedger` | lumen/platform/credits/memory_store.py:204-334 | over every run what a wallet holds back equals the debits minus the credits of its hold account in the ledger |
| `Rating.MemoryUsageBatchStore.Ingest` | lumen/platform/usage_batches.py:234-264 | a known key answers with the batch it filed before and changes nothing; a new one files one batch under key, id and order |
| `Rating.MemoryUsageBatchStore.ListUnrated` | lumen/platform/usage_batches.py:273-275 | the first batches in arrival order, element by element, as many as the limit allows, whether or not they are rated |
| `Rating.MemoryRatingStore.Record` | lumen/platform/rating_engine.py:112-136 | the first row of a batch stays |
| `Rating.RatingEngine.RateBatch` | lumen/platform/rating_engine.py:232-287 | stores and reply of rating one batch: already rated, zero cost, refused debit, or debit and row |
| `Rating.RatingEngine.RatePending` | lumen/platform/rating_engine.py:289-313 | the loop equals a fold of single ratings over the oldest batches, with its four counters |
| `Rating.RatingEngine.IngestAndRate` | lumen/platform/usage_batches.py:469-489 | a new batch is rated at once, a replay never; a batch that cannot be paid stays accepted and is reported unpaid |
| `RatingLaws.OrderIsArrival` | lumen/platform/usage_batches.py:234-264 | over every run the store keeps exactly the batches that arrived under new keys, in the order of arrival, as they were ingested |
| `RatingLaws.PassCountsItsBatches` | lumen/platform/rating_engine.py:289-313 | a pass adds rows and debits for the batches it is given and no others and changes no existing row; its counters are the batches without a row before, without one after, and neither failed nor newly charged |
| `RatingLaws.PassTakesFirstArrivals` | lumen/platform/rating_engine.py:289-313 | after any run a pass with a limit takes up exactly the first batches to arrive and rates and debits none but those |
| `RatingRuns.StepKeepsInv` | lumen/platform/rating_engine.py:232-313 | every step of any rater at any price, replayed ingest, crash or foreign ledger operation keeps every debit and every row that of a stored batch |
| `RatingRuns.RateIsARun` | lumen/platform/rating_engine.py:232-287 | an uninterrupted rating is one of the interleaved runs, so what holds of all runs holds of it |
| `RatingRuns.EachBatchDebitedAtMostOnce` | lumen/platform/rating_engine.py:253-265 | in every run at most one ledger entry exists under a batch's debit key, with prices that change between attempts and whatever else uses the ledger |
| `RatingRuns.FirstSuccessSetsPrice` | lumen/platform/rating_engine.py:240-265 | that debit is for the batch's tenant, at the price of the moment of the first attempt that succeeded |
| `RatingRuns.OneBatchPerKey` | lumen/platform/usage_batches.py:236-264 | one idempotency key never yields two batches |
| `RatingRuns.KeyBelongsToFirstTenant` | lumen/platform/usage_batches.py:236-264 | in every run a key leads to a batch of the tenant that used the key first |
| `RatingRuns.IngestReturnsOwnBatchIff` | lumen/platform/usage_batches.py:236-264 | an ingest returns a batch of the caller's if and only if no other tenant used the key before: keys are shared by all tenants |
| `RatingRuns.DebitsAreTotal` | lumen/platform/rating_engine.py:253-265 | the ledger's debits for batches add up to the prices of the debited batches |
| `RatingRuns.ChargesMatchDebits` | lumen/platform/rating_engine.py:253-280 | in every run with one tariff, recorded charges equal ledger debits minus those debited but not yet recorded |
| `RatingRuns.CrashedBatchIsCompleted` | lumen/platform/rating_engine.py:240-287 | rating a batch again after a crash between debit and row never debits again; it is recorded at today's price, zero included, and refused where that price is above the largest amount; row and debit agree exactly when the price has not moved |
| `RatingRuns.PassReportsWhatItRecords` | lumen/platform/rating_engine.py:289-313 | the charged_credits of a pass that nobody disturbs are exactly what it added to the rating rows |
| `RatingRuns.CrashedRaterIsSilent` | lumen/platform/rating_engine.py:232-287 | a rater that crashed between its steps changes no book until it looks at a batch again |
| `RatingReports.ReportsAreTrueIff` | lumen/platform/rating_engine.py:112-136 | over any run, whoever else rates meanwhile, raters never add more to the rows than they report as charged, and exactly what they report if and only if nobody else filed a batch's row between the Begin and the Record of one of their reports |
| `RatingReports.RatedIffFiledBetween` | lumen/platform/rating_engine.py:232-287 | while a rater works on a batch, the batch has its row if and only if somebody else filed it since the rater began |
| `RatingReports.AllAdditionsAreGrowth` | lumen/platform/rating_engine.py:112-136 | what all raters add is what the rows grew by, so all reports together are true exactly when no batch was reported twice |
| `RatingReports.PassIsARun` | lumen/platform/rating_engine.py:289-313 | an undisturbed pass is one of these runs, and its charged_credits are what its rater reports in it |
| `RatingReports.BothReportOneCharge` | lumen/platform/rating_engine.py:253-287 | two raters that both saw a batch unrated both report its charge, each at its own price, while the rows grow by the first charge only |
| `PollingLease.LockCollection.FindOneAndUpdate` | lumen/bot/singleton.py:111-135 | an attempt takes the document when forced, missing, expired, without expiry or its own, and otherwise leaves it |
| `PollingLease.LockCollection.Renew` | lumen/bot/singleton.py:54-63 | a renewal extends the lease of its owner only |
| `PollingLease.LockCollection.Release` | lumen/bot/singleton.py:139-153 | a release removes the document of its owner only |
| `PollingLease.TryAcquire` | lumen/bot/singleton.py:105-194 | the loop ends within a bounded number of attempts whatever the others do; a live lease is overwritten only by a forced attempt after the whole wait; giving up means the forced attempt failed with an error |
| `PollingLease.GrantKeepsInv` | lumen/bot/singleton.py:111-137 | granting a lease keeps granted periods disjoint when nobody else holds a live one |
| `PollingLease.GrantsNeverOverlap` | lumen/bot/singleton.py:45-194 | in every run without a theft, periods granted to different owners, cut at release, never overlap |
| `PollingLease.OneGrantAtATime` | lumen/bot/singleton.py:45-194 | so at no instant do granted periods of two processes cover it |
| `PollingLease.StepOrderlyIff` | lumen/bot/singleton.py:45-194 | from an orderly state a step leaves one poller at most if and only if it is not an attempt that reaches the store, by force or after a poller's lease has lapsed, while another process polls |
| `PollingLease.OnePollerIff` | lumen/bot/singleton.py:45-194 | in a run no two processes ever poll together if and only if no attempt reaches the store while another process polls that has not renewed for the lease time, and no forced one while another polls at all |
| `PollingLease.LapsedPollerIsJoined` | lumen/bot/singleton.py:54-66 | no force is needed: a process whose renewals fail for the lease time goes on polling and is joined by the next attempt |
| `PollingLease.OverlapIffStolen` | lumen/bot/singleton.py:112-134 | from a good state a step keeps the periods disjoint if and only if it is not a forced takeover of a live lease |
| `PollingLease.LostLeaseIsHarmless` | lumen/bot/singleton.py:54-153 | a renewal or release by a process that lost the lease changes neither document nor granted periods |
| `PollingLease.ForcedOnlyAfterDeadline` | lumen/bot/singleton.py:168-184 | an acquirer is in forced mode only after its deadline |
| `PollingLease.ForcedAtMostOnce` | lumen/bot/singleton.py:168-193 | every acquirer uses force at most once, and is done with waiting afterwards |
| `PollingLease.ForceTakesPatience` | lumen/bot/singleton.py:103-184 | force is used only after the whole wait, five seconds at least, counted from the process's own call |
| `PollingLease.NewcomerGetsIn` | lumen/bot/singleton.py:90-194 | whatever all others do and whoever holds the lease, a process that has waited its time polls after at most two more attempts, if the second reaches the store |
| `PollingLease.WaiterGetsIn` | lumen/bot/singleton.py:168-194 | the same from any moment of the wait; only an error in the forced attempt makes it give up |
| `PollingLease.EarlyAttemptIff` | lumen/bot/singleton.py:105-135 | before that time an attempt gets the lease if and only if it reaches the store and no live lease of somebody else is there, and changes nothing otherwise |
| `PollingLease.GoneForGood` | lumen/bot/singleton.py:139-160 | a process that died or released the lease never polls again, and nothing is done in its name |
| `PollingLease.DeletionIsInvisible` | lumen/bot/singleton.py:95-99 | the store's own deletion takes expired documents only, and no attempt's outcome depends on it |
| `SlidingWindow.RedisRateLimiter.Allow` | lumen/platform/rate_limit.py:57-85 | the script's effect on the sorted set and its expiry, and its answer |
| `SlidingWindow.RedisRateLimiter.Remaining` | lumen/platform/rate_limit.py:87-95 | two commands with any calls of others in between: trim, then the calls left by the count of that moment |
| `SlidingWindow.RedisRateLimiter.SecondsUntilAllow` | lumen/platform/rate_limit.py:97-111 | three commands with any calls of others in between: trim, oldest score, count, and the wait computed from what each saw |
| `SlidingWindow.UndisturbedLook` | lumen/platform/rate_limit.py:87-111 | with nobody in between, the separate commands answer as one look at the window |
| `SlidingWindow.RemainingIsSafe` | lumen/platform/rate_limit.py:87-95 | whatever others did in between, a positive remaining is reported exactly when fewer than limit scores are held at the count, and then allow would succeed |
| `SlidingWindow.ZeroWaitIsRight` | lumen/platform/rate_limit.py:97-111 | a zero wait is right at the count, unless the set was empty when the oldest score was read and full when it was counted |
| `SlidingWindow.RunTracks` | lumen/platform/rate_limit.py:57-111 | after any run of calls with nondecreasing clock and new members the live part of the sorted set is the tail of the full history |
| `SlidingWindow.AnswersLikeFullHistory` | lumen/platform/rate_limit.py:57-85 | allow answers exactly as a count of the hits in (now - W, now] over the full untrimmed history |
| `SlidingWindow.HoldsExactlyTheWindow` | lumen/platform/rate_limit.py:57-111 | after any call under a positive limit, refusals and looks included, the set holds exactly the hits of the window that ends then |
| `SlidingWindow.KeyLivesFor` | lumen/platform/rate_limit.py:67-81 | the key of an allowed hit lives for the whole seconds of the window and five more, and is gone then |
| `SlidingWindow.NoLimitNoTrace` | lumen/platform/rate_limit.py:74-99 | a limit of zero or less allows everything, reports a thousand million left and no wait, and leaves the key alone |
| `SlidingWindow.NoWindowExceedsLimit` | lumen/platform/rate_limit.py:57-85 | in no window (t - W, t] of any run do more hits than the limit lie |
| `SlidingWindow.RemainingIffAllowed` | lumen/platform/rate_limit.py:74-95 | remaining is positive if and only if allow would succeed now |
| `SlidingWindow.ZeroWaitIffAllowed` | lumen/platform/rate_limit.py:74-111 | the wait is zero if and only if allow would succeed now |
| `SlidingWindow.WaitIsTight` | lumen/platform/rate_limit.py:97-111 | allow is refused at any later time before oldest + W |
| `SlidingWindow.WaitIsSufficient` | lumen/platform/rate_limit.py:97-111 | the wait suffices where the set holds no more hits than the limit asked about and nobody hits the key meanwhile |
| `SlidingWindow.RunWaitIsSufficient` | lumen/platform/rate_limit.py:57-111 | on every run with one limit the wait therefore suffices |
| `SlidingWindow.WaitSufficesIff` | lumen/platform/rate_limit.py:97-111 | the reported wait suffices if and only if more hits leave the window meanwhile than the set holds beyond limit - 1 |
| `SlidingWindow.LoweredLimitWaitsTooShort` | lumen/platform/rate_limit.py:97-111 | once the limit was lowered the wait can be too short: after two hits more than a second apart under limit two, a look under limit one reports a wait at whose end allow is refused |
| `Jobs.RedisJobStore.Create` | lumen/platform/jobs.py:121-147 | hash, index and capped tenant list after a create |
| `Jobs.RedisJobStore.Update` | lumen/platform/jobs.py:149-168 | hash and index after an update: terminal statuses leave the index, queued and running enter it, paused does neither |
| `Jobs.RedisJobStore.ListForTenant` | lumen/platform/jobs.py:213-220 | the loop over the listed ids, with the range end the code asks Redis for |
| `Jobs.MemoryJobStore.Create` | lumen/platform/jobs.py:251-256 | map and capped tenant list after a create |
| `Jobs.MemoryJobStore.Update` | lumen/platform/jobs.py:258-265 | map after an update |
| `Jobs.MemoryJobStore.CountActive` | lumen/platform/jobs.py:293-299 | the scan counts exactly the jobs that are not over |
| `Jobs.JobRunner.CancelJob` | lumen/platform/jobs.py:355-370 | refused, already over, or written as cancelled |
| `Jobs.JobRunner.PauseJob` | lumen/platform/jobs.py:372-388 | refused, over or paused already, or written as paused |
| `Jobs.JobRunner.ResumeJob` | lumen/platform/jobs.py:390-405 | a paused job becomes running if it was ever started and queued if not |
| `Jobs.JobRunner.SteerJob` | lumen/platform/jobs.py:407-440 | keeps the last twenty notes, each cut at 2000 characters |
| `Jobs.JobRunner.CountActiveFor` | lumen/platform/jobs.py:222-234 | the loop counts the queued and running jobs among the tenant's last hundred |
| `Jobs.JobRunner.Enqueue` | lumen/platform/jobs.py:454-532 | refused for an unknown kind, no tenant, a large input, or at the global or the tenant's cap, in that order; otherwise the job is created |
| `Jobs.AdmittedKeepsCaps` | lumen/platform/jobs.py:473-492 | an admitted job takes neither all tenants together nor the tenant, where its name has no surrounding blanks, above the cap |
| `Jobs.PaddedTenantHasNoCap` | lumen/platform/jobs.py:222-234 | in every run a tenant name with surrounding blanks is never refused at its cap: jobs are listed under the stripped name and counted under the given one |
| `Jobs.JobRunner.RunJob` | lumen/platform/jobs.py:566-635 | start and outcome of a run, or the failure for want of a handler; what it leaves is in `JobLaws.RunLeavesItsOutcome` |
| `Jobs.UpdateKeepsIndexIff` | lumen/platform/jobs.py:149-168 | one update keeps the index equal to the jobs not over if and only if it does not write paused over a job that is over |
| `Jobs.StoresAgree` | lumen/platform/jobs.py:121-299 | after any sequence of atomic calls the Redis store and the plain map agree on jobs, active count and listings, and the index is exact |
| `Jobs.ListingsAgreeIff` | lumen/platform/jobs.py:213-291 | the listings of both stores agree if and only if the limit is positive or the newest listed id is unknown |
| `Jobs.OverStaysOver` | lumen/platform/jobs.py:355-440 | one call at a time: nothing but a run changes the status of a job that is over |
| `Jobs.LastRunDecides` | lumen/platform/jobs.py:566-635 | one call at a time: after its last run completes a job stays succeeded or failed, even if it was cancelled meanwhile |
| `Jobs.StaleControlWrites` | lumen/platform/jobs.py:355-405 | any cancel, pause or resume that read the job before its run ended and writes afterwards replaces the outcome; a stale pause leaves the index wrong, and a stale resume leaves a finished job in it as running or queued |
| `JobLaws.CallsRespectOwners` | lumen/platform/jobs.py:355-440 | a call that names another tenant changes nothing, and no call touches a job it does not name, its owner, or a list |
| `JobLaws.ControlLeavesStatus` | lumen/platform/jobs.py:355-405 | the status a cancel, pause or resume leaves from each status, with its message and time, and nothing else of the job changed |
| `JobLaws.ResumeUndoesPause` | lumen/platform/jobs.py:372-405 | a pause followed by a resume gives a job back as it was, running or queued, apart from its message |
| `JobLaws.SteersKeepLastTwenty` | lumen/platform/jobs.py:407-440 | after any sequence of steers a job carries the last twenty notes of all, trimmed, without blank ones, each cut to 2000 characters, and is otherwise as it was |
| `JobLaws.RunLeavesItsOutcome` | lumen/platform/jobs.py:566-635 | after a handled run, and any later calls that are not the job's own run, the job has the result, error and message of its ending and the times of its start and end |
| `JobLaws.OverIsFrozen` | lumen/platform/jobs.py:355-440 | nothing but its own runs changes any field of a job that is over |
| `JobLaws.RunUnderWay` | lumen/platform/jobs.py:566-600 | a job under way is running since its start; without a handler it fails at once; progress touches progress and message only |
| `JobLaws.AdmittedIff` | lumen/platform/jobs.py:454-532 | a job is admitted if and only if its kind is known, its tenant named, its input small enough, and neither cap reached, counting jobs that are not over and those that wait or run among the hundred newest listed |
| `JobLaws.ListIsNewest` | lumen/platform/jobs.py:121-147 | over every run a tenant's list is the hundred jobs created last for it, newest first |
| `JobLaws.ListingShowsNewest` | lumen/platform/jobs.py:213-220 | so a listing shows the newest jobs in order, as many as its limit and the hundred kept allow |
| `JobRuns.UpdateIsARun` | lumen/platform/jobs.py:149-168 | an uninterrupted update is its three commands, EXISTS, HSET and the one on the index |
| `JobRuns.CallIsARun` | lumen/platform/jobs.py:355-440 | an uninterrupted control call is its look and its update, an uninterrupted write of a run its update |
| `JobRuns.IndexExactIff` | lumen/platform/jobs.py:149-168 | over every interleaving of creates and updates cut into their commands, crashes included, the index is exact if and only if for each job the update that touched the index last and the one that wrote the status last agree on whether it is over |
| `JobRuns.OrderlyIndexExactIff` | lumen/platform/jobs.py:149-168 | where no two updates of a job overlap between HSET and the index and none dies there, the settled index is exact if and only if no job that was over is left paused |
| `JobRuns.CrossedUpdatesExactIff` | lumen/platform/jobs.py:149-168 | two updates of a job whose index commands come in the opposite order of their HSETs leave the index exact if and only if both agree on whether the job is over |
| `JobRuns.OverStaysIff` | lumen/platform/jobs.py:355-440 | over every interleaving in which no run of the job writes a status any more, a job that is over keeps its status at every moment if and only if no control call that looked before lands another status |
| `JobRuns.OutcomeStandsIff` | lumen/platform/jobs.py:355-635 | the outcome written by a job's last run is its status in the end if and only if no control call that looked before it lands a status after it |
| `JobRuns.CrashedWriterIsSilent` | lumen/platform/jobs.py:149-168 | a writer that crashed between its commands sends none of the remaining ones |
| `Session.WrittenIsCleanIff` | lumen/bot/session_store.py:93-123 | for any value with tuples anywhere, what is stored of it has no bot-token key and only sealed values under other secret keys, at any depth, if and only if no tuple that redaction keeps holds a secret |
| `Session.WrittenAsIsIff` | lumen/bot/session_store.py:93-123 | a value is stored as it is if and only if no secret-named key and no tuple occurs in it at any depth |
| `Session.Merge` | lumen/bot/session_store.py:311-316 | the merge loop: incoming fields win, no other field is touched |
| `Session.SessionStore.Save` | lumen/bot/session_store.py:309-327 | the stored object after a save |
| `Session.SessionStore.Hydrate` | lumen/bot/session_store.py:363-377 | the loop copies exactly the stored durable keys over the given data |
| `SessionNames.SecretNamesIff` | lumen/bot/session_store.py:73-105 | a field counts as secret if and only if its lower-cased name ends in _token, _secret or _password or is token, password, secret, api_key or authorization, and is dropped if and only if it is one of the four bot-token names |
| `SessionNames.SaveExposesNothing` | lumen/bot/session_store.py:93-327 | a save of a payload without tuples leaves no text in the clear under any such name, at any depth of the stored session |
| `SessionNames.SecretsAreSealed` | lumen/bot/session_store.py:93-123 | under such a name a text is stored sealed, blanks around it removed, where sealing works and it is not blank, and anything else not at all; other fields are stored in their own stored form |
| `SessionRuns.SaveIsARun` | lumen/bot/session_store.py:309-327 | an uninterrupted save is its two commands, GET and SET |
| `SessionRuns.StoreStaysShaped` | lumen/bot/session_store.py:309-336 | however the GETs and SETs of several processes interleave, every stored object holds durable keys only, and no nulls |
| `SessionRuns.StoreStaysProperIff` | lumen/bot/session_store.py:93-336 | at no moment of a run is a secret stored in the clear at any depth if and only if no save lands a payload with a tuple that holds one in a field to be stored |
| `SessionRuns.YieldsLastSavedIff` | lumen/bot/session_store.py:309-327 | with nothing removed, every key of a user holds its last saved value at every moment if and only if no save lands on a copy that is stale in a key it does not mention |
| `SessionRuns.ApartNeverStale` | lumen/bot/session_store.py:309-327 | which is so if no other save of the user lands between the load and the landing of any |
| `SessionRuns.OverlapUndoes` | lumen/bot/session_store.py:309-327 | a landing puts every key it does not mention back to what it was at its load, so another process's save in between is undone |
| `SessionRuns.SavedIsRedacted` | lumen/bot/session_store.py:93-148 | what a save stores under a key is the redacted form of the payload's field with tuples as lists, unless that is null or dropped |
| `SessionRuns.HydrateYieldsLastSaved` | lumen/bot/session_store.py:309-377 | hydrate then yields exactly the last saved values and leaves every other key of the given data alone |
| `SessionRuns.EachCycleAddsALayer` | lumen/bot/session_store.py:93-377 | hydrating and saving n times wraps a sealed secret, at any depth of a stored field, in n more layers |
| `SessionRuns.CrashedSaveLandsNothing` | lumen/bot/session_store.py:309-327 | a save that crashed between its commands stores nothing |
| `SessionRuns.RemovedIsGone` | lumen/bot/session_store.py:329-336 | after a clear or an eviction nothing of the user's session is left, and everybody else's is |
| `Subscription.SubscriptionStore.WriteSubscription` | lumen/platform/subscription_store.py:85-151 | record and session after a write, with evictions at the two points where they can strike |
| `Subscription.SubscriptionStore.ReadSubscription` | lumen/platform/subscription_store.py:154-211 | the cached copy if there is a non-empty one, the record otherwise, healing the cache |
| `Subscription.SubscriptionStore.DeleteSubscription` | lumen/platform/subscription_store.py:214-258 | record gone, copy gone, other session fields saved back |
| `Subscription.RunKeepsInv` | lumen/platform/subscription_store.py:85-258 | one call at a time: in every run the session's copy is absent or the redacted form of the record, whatever is evicted when |
| `Subscription.ReadReturnsLastWritten` | lumen/platform/subscription_store.py:154-211 | one call at a time: a read returns exactly the last record written, nothing after a delete, for records without secret-named fields and tuples |
| `Subscription.ReadHeals` | lumen/platform/subscription_store.py:196-205 | once a read has found a record, the session alone answers the next read with it, whatever has become of Mongo's |
| `Subscription.DeleteLeavesNoEmptySession` | lumen/platform/subscription_store.py:235-258 | after a delete the user has a session if and only if it held something besides the subscription |
| `Subscription.NobodyBelowOne` | lumen/platform/subscription_store.py:85-258 | without a positive user id nothing is written, read or deleted |
| `Subscription.CopyServesRecordIff` | lumen/platform/subscription_store.py:154-171 | a copy in place is served unchanged if and only if the record has no secret-named field and no tuple, or nothing of it survives redaction |
| `Subscription.OtherFieldsKept` | lumen/platform/subscription_store.py:124-258 | write, self-heal and delete keep every other session field that is stored as it is unless an eviction dropped it |
| `Subscription.CarriedCopyIsServed` | lumen/bot/session_store.py:309-327 | a session save that carries a subscription decides what is read next, whatever the record says |
| `SubscriptionRuns.WriteIsARun` | lumen/platform/subscription_store.py:85-151 | an uninterrupted write is its Mongo command and its session commands |
| `SubscriptionRuns.ReadIsARun` | lumen/platform/subscription_store.py:154-211 | an uninterrupted read is its look at the session, its Mongo query and its heal, and answers what those found |
| `SubscriptionRuns.DeleteIsARun` | lumen/platform/subscription_store.py:214-258 | an uninterrupted delete is its Mongo command, its load, its clear and its save of what remains |
| `SubscriptionRuns.BotSaveIsARun` | lumen/bot/session_store.py:309-327 | a save of the bot's, of what it is given or of a session loaded before with changes, is its two commands |
| `SubscriptionRuns.EveryCopyHasASource` | lumen/platform/subscription_store.py:85-258 | in every run of any number of processes, every copy in a session, and every one a process is about to store, stems from a state that Mongo really had |
| `SubscriptionRuns.ReadReturnsLastWrittenIff` | lumen/platform/subscription_store.py:85-258 | once the call that made the user's latest change has finished, a read returns the last record written (nothing after a delete) if and only if the last command that set or removed the session was not the landing of a copy that a write or delete had meanwhile overtaken |
| `SubscriptionRuns.ChangeBegins` | lumen/platform/subscription_store.py:85-258 | the Mongo command of a write or a delete makes the user's next state, which its caller then carries out |
| `SubscriptionRuns.ChangeEndsDoneOrCrashed` | lumen/platform/subscription_store.py:85-258 | the call that made a change has finished it if and only if it is through with it without having crashed |
| `SubscriptionRuns.CrashedClientIsSilent` | lumen/platform/subscription_store.py:85-258 | a process that crashed between its commands sends none of the remaining ones |
| `SubscriptionRuns.CachingLandsStaleIff` | lumen/platform/subscription_store.py:174-205 | a record that a heal found in Mongo, or a write put there, lands stale exactly when Mongo's record has become another one before its session save |
| `SubscriptionRuns.OvertakenRecordIsServed` | lumen/platform/subscription_store.py:196-205 | such a landing is what the next read answers: an older record comes back after a newer one, a refunded subscription after its delete |
| `SubscriptionRuns.LoadedSessionBringsItBack` | lumen/bot/session_store.py:309-377 | a save of a session that was loaded before brings the copy loaded with it back, whatever was written or deleted meanwhile |
| `SubscriptionRuns.CrashedChangeIsNotSeen` | lumen/platform/subscription_store.py:105-141 | a process that dies between its Mongo command and its session commands leaves the old copy in service, after a write as after a delete |
| `SecretInbox.Inbox.PutSecret` | lumen/platform/secret_inbox.py:209-259 | the file after a put: unexpired rows of other keys, then the new row; refused inputs change nothing; how long the row lives is in `SecretLivesAsAsked` |
| `SecretInbox.Inbox.ConsumeSecret` | lumen/platform/secret_inbox.py:262-294 | the loop takes the first live row of the key and keeps the rest; a miss leaves the file as it is |
| `SecretInbox.UniqueMeaning` | lumen/platform/secret_inbox.py:253-257 | uniqueness by recursion is uniqueness of keys over all pairs of rows |
| `SecretInbox.RunRefinesOneShotMap` | lumen/platform/secret_inbox.py:171-294 | every run with a clock that does not go back refines a one-shot map with expiry, and never has two rows under one key |
| `SecretInbox.ConsumeTakesWhatWaits` | lumen/platform/secret_inbox.py:262-294 | a consume hands out exactly what that map holds unexpired under its key |
| `SecretInbox.ConsumeSucceedsIffArmed` | lumen/platform/secret_inbox.py:209-294 | a consume succeeds if and only if an earlier accepted put of the key is unexpired, not replaced and not taken, and hands out that put's secret |
| `SecretInbox.SecretLivesAsAsked` | lumen/platform/secret_inbox.py:209-294 | an accepted secret that is neither replaced nor taken is handed out, without the blanks around it, until the time asked for has passed since it was stamped, and for 60 seconds at least, and not from then on |
| `SecretInbox.FilesOneRow` | lumen/platform/secret_inbox.py:241-259 | an accepted put leaves one row for its user and kind, stamped, with at most 40 characters of purpose, and of the others exactly those that have not expired |
| `SecretInbox.TakesPutIff` | lumen/platform/secret_inbox.py:209-232 | a put is accepted if and only if the user id is positive, the kind is bot, github or pat in any case, the trimmed secret has 1 to 512 characters, and encryption works |
| `SecretInbox.RelabelledRowDoesNotOpen` | lumen/platform/secret_inbox.py:95-125 | a row whose user or kind was changed in the file is taken by a consume of its new label and yields nothing |
| `SecretInbox.EachPutConsumedAtMostOnce` | lumen/platform/secret_inbox.py:262-294 | at most one consume succeeds per put |
| `SecretInbox.ConsumeSucceedsIffKept` | lumen/platform/secret_inbox.py:209-294 | under any clock at all, a consume succeeds if and only if a put of its key is not replaced, not taken, not dropped by a rewrite at or after its expiry, and unexpired by the consume's clock, and it hands out that put's secret |
| `SecretInbox.ClockGoingBackRevives` | lumen/platform/secret_inbox.py:281-282 | a miss does not rewrite the file, so any secret reported as expired is handed out after all once the clock is back before its expiry |
| `Backpressure.Backpressure.CheckEnqueueAllowed` | lumen/platform/queue_backpressure.py:80-85 | which limit is full, the global one first |
| `Backpressure.Backpressure.AcquireSlot` | lumen/platform/queue_backpressure.py:88-112 | check, then count, under two acquisitions of the lock |
| `Backpressure.Backpressure.ReleaseSlot` | lumen/platform/queue_backpressure.py:115-137 | both counters down by one, never below zero |
| `Backpressure.Backpressure.Generate` | lumen/bot/helpers.py:167-312 | a generation gives its slot back exactly when it took one, so the counters end where they were |
| `Backpressure.InflightBound` | lumen/platform/queue_backpressure.py:80-112 | if at most k callers are ever between check and increment, no counter exceeds its limit by more than k - 1 |
| `Backpressure.GlobalBoundIsReached` | lumen/platform/queue_backpressure.py:80-112 | for every k some run with at most k callers between check and increment reaches the global limit plus k - 1 |
| `Backpressure.TenantBoundIsReached` | lumen/platform/queue_backpressure.py:80-112 | the same for a tenant's limit, where the global limit is not smaller |
| `Backpressure.PairedReleasesKeepCounts` | lumen/platform/queue_backpressure.py:108-137 | when every release follows a successful acquire, the global counter equals the sum over tenants and the number of holders, and the floor never fires |
| `Backpressure.StrayReleaseUndercountsIff` | lumen/platform/queue_backpressure.py:134-137 | a release without a slot leaves the counters right if and only if nothing is in flight |
| `Backpressure.BlankNamesCountAsOne` | lumen/platform/queue_backpressure.py:80-135 | tenants count under their names without surrounding blanks, and all blank names as one, anon |
| `TextSplit.RFindIsLast` | lumen/bot/telegram_text.py:393-397 | rfind is the last occurrence, or -1 when there is none |
| `TextSplit.SplitTelegramText` | lumen/bot/telegram_text.py:376-406 | the loop terminates with the chunks of the recursive form, with limits below 100 raised to 100 |
| `TextSplit.SplitIsSlices` | lumen/bot/telegram_text.py:386-406 | the chunks are contiguous slices of the text in order, with only whitespace between and after them |
| `TextSplit.ChunksFit` | lumen/bot/telegram_text.py:386-406 | every chunk is non-empty and at most the limit long |
| `TextSplit.SplitKeepsVisible` | lumen/bot/telegram_text.py:400-406 | the sequence of non-whitespace characters is preserved |
| `TextSplit.FewChunks` | lumen/bot/telegram_text.py:394-405 | n chunks need a text longer than (n - 1) * (limit // 3) |
| `TextSplit.ChunkCount` | lumen/bot/telegram_text.py:386-406 | at most |s| / (limit // 3) + 1 chunks |
| `TextSplit.BreakIsPreferred` | lumen/bot/telegram_text.py:391-399 | the break is the last blank line outside the first third if there is one, else the last line end, else the last space, else the end of the window |
| `TextSplit.WordsCutOnlyWithoutBreak` | lumen/bot/telegram_text.py:391-403 | a word is cut only when there is neither line end nor space outside the first third, or only whitespace before the one found |
| `TextSplit.ChunksAreTrimmed` | lumen/bot/telegram_text.py:400-405 | no chunk but the first begins with a line end, and none but the last ends in a blank unless it is a whole window |
| `TextSplit.EditFitsIff` | lumen/bot/telegram_text.py:422-427 | the one message that safe_edit_text makes of a long text fits Telegram's limit if and only if nothing visible of its first chunk lies beyond character 4069 or no second chunk follows: 20 characters are set aside for a note of 27 |
| `TextSplit.UnbrokenTextDoesNotFit` | lumen/bot/telegram_text.py:422-427 | every longer text without a blank is an input for which it comes out at 4103 characters |
| `MarkdownV2.ReadUndoesEscape` | lumen/bot/telegram_text.py:25-35 | reading escaped text gives back the text, every character literal |
| `MarkdownV2.EscapeLength` | lumen/bot/telegram_text.py:31-35 | escaping adds one character per special one, so the length at most doubles |
| `MarkdownV2.EscapeNeededIff` | lumen/bot/telegram_text.py:31-35 | text reads as itself unescaped, is left alone by escaping, and survives escaping twice, if and only if it has no special character |
| `MarkdownV2.SpecialsAreReserved` | lumen/bot/telegram_text.py:25-35 | the characters escaped are exactly the eighteen the Bot API reserves and the backslash, and all of them may be escaped |
| `MarkdownV2.SplitJoin` | lumen/bot/telegram_text.py:139-147 | splitting undoes joining for non-empty lists of single lines |
| `MarkdownV2.JoinSplit` | lumen/bot/telegram_text.py:139-147 | joining undoes splitting |
| `MarkdownV2.MdvBlockquote` | lumen/bot/telegram_text.py:126-147 | the loop over the lines builds the quote of the recursive form |
| `MarkdownV2.ReadQuoteUndoesBlockquote` | lumen/bot/telegram_text.py:126-147 | taking off the quote marks and reading gives back the lines of the body, followed by two invisible ones where an expandable body has fewer than three; nothing in a body ends the quote or reads as markup |
| `MarkdownV2.QuoteLines` | lumen/bot/telegram_text.py:137-147 | one quoted line per body line, padded to three exactly when an expandable body has fewer |
| `MarkdownV2.StripNewlinesIsMiddle` | lumen/bot/telegram_text.py:134-136 | what is quoted is the text without the line ends around it |
| `HtmlEmoji.ProtectTgEmoji` | lumen/bot/html_emoji.py:102-113 | the loop over the matches equals the scanning form, early exit included |
| `HtmlEmoji.SpelledIsMatched` | lumen/bot/html_emoji.py:71-74 | every text of the pattern's shape, in any letter case, is matched with the shape's id and fallback |
| `HtmlEmoji.MatchedIsSpelled` | lumen/bot/html_emoji.py:71-74 | whatever is matched has the pattern's shape |
| `HtmlEmoji.MatchesUpToCase` | lumen/bot/html_emoji.py:71-74 | a letter of the pattern is matched by its two cases and an i also by U+0130 and U+0131, any other character by itself only |
| `HtmlEmoji.RestoreIsRestored` | lumen/bot/html_emoji.py:116-126 | the early exit of restore never changes its answer |
| `HtmlEmoji.PipelineIsSegmentwise` | lumen/bot/telegram_text.py:49-54 | protect, escape, restore equals escaping segment by segment, for text without NUL |
| `HtmlEmoji.EscapeHtmlIs` | lumen/bot/telegram_text.py:43-56 | escape_html is segment-wise where a lower-case opener occurs and plain escaping where none does |
| `HtmlEmoji.EscapeHtmlIsSegmentwiseIff` | lumen/bot/html_emoji.py:102-105 | escaping is segment-wise if and only if a lower-case opener occurs or there is no tag |
| `HtmlEmoji.UnescapeUndoesEscape` | lumen/bot/telegram_text.py:43-53 | reading the entities undoes escaping |
| `HtmlEmoji.EscapedIsSafe` | lumen/bot/telegram_text.py:43-53 | escaped text has no angle bracket, and every ampersand in it begins one of the three entities |
| `HtmlEmoji.ReadUndoesEscapeHtml` | lumen/bot/telegram_text.py:43-56 | reading the HTML gives back the author's tags with their fallbacks and every other character as itself |
| `HtmlEmoji.RestoreUndoesProtectIff` | lumen/bot/html_emoji.py:102-126 | restore undoes protect if and only if every tag is canonical or there is no lower-case opener |
| `HtmlEmoji.ProtectedSpellsIff` | lumen/bot/html_emoji.py:76-126 | where no tag starts, protecting the rest of a text spells a placeholder there if and only if the text itself spells one with no tag inside |
| `HtmlEmoji.PipelineIsSegmentwiseIff` | lumen/bot/telegram_text.py:49-54 | for any text, NUL included, protect, escape, restore equals escaping segment by segment if and only if outside the tags no placeholder is spelled, except around a tag, and no tag's fallback contains NUL |
| `HtmlEmoji.PlainIsSegmentwiseIff` | lumen/bot/telegram_text.py:49-54 | without protection they agree if and only if neither a tag nor a placeholder starts anywhere in the text |
| `HtmlEmoji.EscapeHtmlExact` | lumen/bot/telegram_text.py:43-56 | so for any text escape_html is segment-wise if and only if the first holds where a lower-case opener occurs, and the second where none does |
| `HtmlEmoji.ForgedPlaceholder` | lumen/bot/html_emoji.py:98-126 | any text spelling a placeholder comes out as a tag that was never there |

## Left out

- Postgres and Mongo driver code: the in-memory stores give the behaviour that is modelled; the Postgres
  version-0 save is not part of this model.
- Floating point: clocks and the RAM-hour term are exact reals, so the rounding of `ram_mb_hours * price` in
  binary floating point is not modelled.
- Model-priced token fallback: the estimate used when tokens carry no price is a parameter.
- Usage validation: `validate_batch_payload`, ownership and the ingest rate limit come before what is modelled.
- Progress of `rate_pending`: every batch keeps status "accepted", so the oldest rows come back on every pass;
  only safety is claimed.
- Caller-chosen ledger keys that spell a promotion-expiry key: the two kinds of key are kept apart.
- Ledger hash chain, timestamps and metadata of ledger entries, pricing tables.
- Clock skew between hosts: the polling lease is proved for one clock; the local file lock, the PID file and the
  webhook calls of singleton.py are not modelled.
- Step and TryAcquire in `PollingLease`: an attempt that meets an error has not changed the document; one whose
  update landed while the answer was lost is not part of this model.
- Redis failures other than eviction and key expiry; the session store's load errors, which read as an empty
  session, and save errors, which raise.
- Session and job time-to-live lengths, job cleanup, RQ and thread-pool dispatch, and the job handlers; the
  Redis pipeline of a job's create is one step, and its list is pushed and cut at once.
- AdmittedKeepsCaps: one enqueue with nobody else writing; two processes can admit past a cap together, because
  the caps are checked under the lock of one process.
- FirstSuccessSetsPrice, like OneBatchPerKey, KeyBelongsToFirstTenant, IngestReturnsOwnBatchIff, StepKeepsInv
  and ChargesMatchDebits in `RatingRuns`: for runs in which no other user of the ledger spells a batch's debit
  key ("rate-" and its id); `EachBatchDebitedAtMostOnce` holds with such users too.
- Mongo being out of reach: writes that reach Redis only, and reads without a fallback, are not part of the
  subscription model; a Redis error in the middle of a write, heal or delete is the crash of its session half.
- JSON text: objects are stored and loaded as they are, with tuples as lists; values that are not JSON at all,
  which `json.dumps` stores as their `str()`, are not modelled, nor is what Mongo makes of a tuple in a record.
- Real cryptography: sealing and encryption are symbolic, decryption opens exactly what was encrypted under the
  same user and kind; the legacy Fernet branch and `peek_meta` are not modelled.
- The Redis branch of queue_backpressure.py, where counters expire after an hour.
- LLM budget counters in rate_limit.py.
- Unicode: lower-casing follows ASCII (plus the two extra letters IGNORECASE gives the letter i in a tag), and
  `\d` is the ten ASCII digits.
- `set_baseline`, `on_rating_failure`, `suspend` and `clear_suspension_on_credit` outside the retry loop: their
  lost updates are stated, not repaired.
- Notifications, stopping bots, status reports and the hosting and generation gates built on the stored phase.
- Telegram handlers, UI cards other than the block quote, hosting, deploys, backups, log shipping, Stripe,
  webhooks and text redaction: input and output, or single-branch checks.
