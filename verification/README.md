# Trading engine: verified model

This project models, in Dafny, the parts of the trading system that keep money or authority over long
runs, and the loops that have to agree with a simpler definition.

| module | what it models |
|---|---|
| `Retention` | the profit-retention ratchet: a peak and a cash floor that only observed net profit can raise |
| `RetentionEngine` | how the engine persists and restores that ratchet through failed reads, failed writes and crashes |
| `StopManagement` | break-even, net-profit lock and trailing stop on the broker's tick grid |
| `OrderExecution` | the retry loop and the reconciliation of accepted orders with positions |
| `RequestGate` | the in-flight guard under concurrent calls, cancellation, shutdown and resume |
| `AnalysisCache` | the LRU-plus-previous-record cache around market analysis, with concurrent callers |
| `EntryAuthorization` | arming, autonomy, restarts and account changes |
| `MarketUniverse` | the rotating discovery cursor |
| `ShadowOutcomes` | the counterfactual evaluators of rejected entries and of early exits |
| `ResearchSimulation` | the forward audit's bar-by-bar simulator and its agreement with the shadow evaluator |
| `ForwardAudit` | one-position scheduling, time folds, purging and the drawdown statistic |
| `TargetExtension` | the take-profit bisection |
| `Reconciliation` | closed positions rebuilt from broker deals |
| `CurrencyContext` | leave-one-out currency strength |
| `Swings` | swing highs and lows |
| `Numbers`, `Sorting` | shared arithmetic and Python's stable sort |

Money, prices and volumes are `real`; broker price levels are whole numbers of the last quoted digit, and
the tick is a whole number of those units. The slacks 1e-8, 1e-9 and 1e-10 of the source are kept. Times are
whole seconds. `Unreadable` stands for anything that is missing, cannot be converted to a number or is not
finite. The broker's profit calculator, the content hash, the market analysis, name normalization, storage
keys and the broker clock are uninterpreted: they are function values or abstract types, so every result
holds for all of them, under the hypotheses written in the lemma. Code that updates state in place is a
class or a method with loops, proved equal to a specification function; the properties are lemmas about
those functions and about whole runs of them.

## Where the code does less than its documentation says

Each of these is a lemma that says exactly when the code does meet the property.

- A restart keeps the stored profit floor only if the inputs of the first cycle are usable and the storage
  read really answers, unless the profit of that moment justifies as much by itself (`RestoreKeepsFloorIff`).
  `get_cache` swallows errors and answers `None` (database/storage.py:677-681), which the engine takes for
  "nothing stored"; the next confirmed write then makes the loss durable.
- The volume can exceed the reference volume when an addition is smaller than 1e-9
  (`VolumeWithinReferenceIff`, `AdvanceSoundIff`).
- A stored state can be rejected when it is read back, because the floor exceeds the peak, exactly when the
  headroom scaled to the remaining size is below 1e-9 (`StateLostIff`). Under the settings that takes a
  partial close down to less than a ten-millionth of the position (`AdmittedPoliciesRoundTrip`,
  `AdmittedPolicyLosesState`).
- A stop can loosen if rounding its least improvement falls behind it and some quote lets the broker place the
  result (`StopsNeverLoosenIff`); in ordinary grids that takes a stop off the tick grid, with the next unit
  towards profit off the grid too and not beyond the entry (`FallsBehindIff`). A target moves only if it is off
  the grid (`TargetNeverMovesIff`).
- A request cancelled by a stop can still be running natively when the executor resumes, since a stop that waits
  30 seconds in vain completes all the same (core/engine.py:3235-3243). The same request is then admitted and
  sent a second time; resuming is safe exactly when the native work had drained (`ResumeIsSafeIff`,
  `UndrainedResumeDuplicates`).
- Enabling autonomy reads the account twice. Entries never transfer exactly when both reads agree or the
  second account was already armed by its own phrase (`EntriesNeverTransferIff`,
  `SecondReadTransfersEntries`); autonomy itself never transfers (`AutonomyNeverTransfers`).
- Disabling autonomy clears the record of the account the terminal shows at that moment, not of the
  authorized one (`DisableHoldsIff`).
- An order can reach only the account that passed the gate exactly when no step before the handover disarmed
  entries, or armed them for another account, and left the executor accepting work; a stop or a core failure
  disarms but shuts the executor too, so the order then goes nowhere (`OrdersReachGateAccountIff`,
  `RearmedOrderChangesAccount`).
- A symbol that spells one currency twice is not left out of its own sample count (`OwnRowIsLeftOutIff`).

## Model

| member | source | states |
|---|---|---|
| `Retention.RatchetIsBatchFormula` | core/profit_retention.py:75-97 | Over any stretch at one size and risk, in any order, with repetitions and unusable observations mixed in, the final state is the one that a single observation of the largest net profit gives |
| `Retention.AdvanceWrittenOut` | core/profit_retention.py:53-97 | One call written out for any input: which ones leave the state alone, and otherwise what is carried over through a partial close or an addition, the new peak, when the floor is armed, the fraction it keeps and the headroom, and that it is the larger of the old floor and the largest whole cent of that amount |
| `Retention.ObserveTwice` | core/profit_retention.py:83-97 | Two observations in a row are worth exactly one observation of the larger |
| `Retention.ReplayKeepsSound` | core/profit_retention.py:53-97 | For volumes on a step grid, every mixture of ticks, partial closes and additions keeps 0 < volume <= reference, floor >= 0, and a set floor at least the scaled headroom (less 1e-9) below the peak |
| `Retention.AdvanceSoundIff` | core/profit_retention.py:53-97 | One call, for every reading and policy, keeps that invariant exactly when it is not an unnoticed addition that lifts the volume over the reference or the floor too near the peak |
| `Retention.VolumeWithinReferenceIff` | core/profit_retention.py:76-82 | The volume stays within the reference exactly when the call is not an addition of at most 1e-9 above the reference |
| `Retention.PerLotNeverFalls` | core/profit_retention.py:75-97 | Without an addition, the floor per remaining lot never falls |
| `Retention.PartialCloseIsProportional` | core/profit_retention.py:77-82 | A partial close keeps peak and floor per lot exactly; an addition resets both and the reference |
| `Retention.ArmedFloorRetains` | core/profit_retention.py:83-97 | An armed floor is at most the larger of its predecessor and the kept share, as far as headroom allows, and within a cent of it; an unarmed floor stays zero |
| `Retention.KeptIsShare` | core/profit_retention.py:92-94 | The kept share is the larger of the cash milestone and a fraction of the peak: the mature one exactly when risk is left and the peak reaches the mature multiple of the risk scaled to the remaining size, the plain one otherwise |
| `Retention.FirstFloorMeetsMilestone` | core/profit_retention.py:84-96 | A floor first appears only at a peak meeting the cash trigger and the R threshold, and at full size it keeps the cash milestone to within a cent |
| `Retention.FloorToCentsIsLargest` | core/profit_retention.py:95-96 | The floor is rounded to the largest whole cent that is not more than 1e-9 above the candidate |
| `Retention.StoredStateIsUsable` | core/profit_retention.py:18-35 | Whatever was stored, only a usable state or the empty one is taken from it; one unreadable field discards it |
| `Retention.StoredStateWrittenOut` | core/profit_retention.py:18-35 | Reading returns the state that the stored fields spell, a missing one counting as zero, if all are readable, none is negative, the floor is not above the peak, there is a volume and the reference is not below it; and the empty state otherwise |
| `Retention.RoundTripIff` | core/profit_retention.py:15-35 | Storing and reading back returns the state exactly when it is usable or empty |
| `Retention.ReachableStatesRoundTrip` | core/profit_retention.py:15-97 | A state reached on a volume grid survives storage if the headroom scaled to its size is at least 1e-9 |
| `Retention.StateLostIff` | core/profit_retention.py:28-97 | Some policy and run on a volume grid end at this size with a state that is discarded on reading exactly when the headroom scaled to that size is below 1e-9 |
| `Retention.AdmittedPoliciesRoundTrip` | app_config/settings.py:692-712 | Under the clamped settings every state of every run on a volume grid survives storage while a ten-millionth of the position is left |
| `Retention.AdmittedPolicyLosesState` | app_config/settings.py:692-712 | Below that a policy the settings allow can lose a state |
| `RetentionEngine.ProfitRetention.UpdateProfitRetention` | core/engine.py:6096-6151 | One cycle changes exactly this ticket of this account, as `Cycle` says, and a size change forgets the applied lock level |
| `RetentionEngine.CycleWrittenOut` | core/engine.py:6107-6150 | One cycle written out: which read brings in the stored state, when the two are combined and how, when a state differs enough to be written, and what each write outcome leaves on disk and as confirmed |
| `RetentionEngine.ProfitRetention.Observe` | core/engine.py:6107-6136 | The in-memory half: ratchet, then merge with the stored record on the first read that does not raise |
| `RetentionEngine.ProfitRetention.Persist` | core/engine.py:6137-6150 | The durable half: write only when loaded and changed, and remember only confirmed writes |
| `RetentionEngine.ProfitRetention.Restart` | core/engine.py:165-167 | A new process keeps the database and nothing else |
| `RetentionEngine.ProfitRetention.ChangeAccount` | core/engine.py:3448-3450 | A change of account carries no ratchet state over and leaves the database alone |
| `RetentionEngine.MergeIsJoin` | core/engine.py:6125-6131 | The restore merge is the least state above the observed and the restored one, and keeps the headroom invariant |
| `RetentionEngine.DurableFloorSurvives` | core/engine.py:6115-6150 | Through any ordinary run of ticks, partial closes, failed writes, raising reads and crashes, durable protection never weakens, and a loaded working floor is never below anything durable before |
| `RetentionEngine.StepKeepsInvariant` | core/engine.py:6115-6150 | One step keeps the protocol invariant behind that result |
| `RetentionEngine.SuccessfulCycleSavesAllButACent` | core/engine.py:6137-6148 | After a cycle with a confirmed write the disk holds the working floor and size and lags the peak by less than a cent |
| `RetentionEngine.RestoreKeepsFloorIff` | core/engine.py:6120-6148 | On the first cycle after a restart, at any profit, the stored protection is in force exactly when the inputs were usable and the read answered, or that profit alone justifies as much; a swallowed read makes the fresh floor durable |
| `RetentionEngine.FreshStart` | core/profit_retention.py:73-97 | A first observation leaves the peak, the floor it justifies by itself, and its own size as reference |
| `RetentionEngine.MissedReadKeepsLittle` | core/engine.py:6120-6135 | After a swallowed read the stored floor survives only if the profit still clears it by the headroom |
| `RetentionEngine.SwallowedReadLosesFloor` | core/engine.py:6120-6148 | A concrete floor that a swallowed read loses in memory and on disk |
| `StopManagement.StopManager.ModifyLevels` | execution/executor.py:851-966 | The position becomes `Modified`, for which `ModifiedIff` gives the exact condition and result |
| `StopManagement.StopManager.ReconcileModify` | execution/executor.py:1069-1156 | The three re-reads after acceptance give `VerdictOf` |
| `StopManagement.VerdictMeaning` | execution/executor.py:1088-1156 | A modification succeeds exactly when some re-read shows the requested levels before any shows the position gone, and what the other verdicts say |
| `StopManagement.MatchesIff` | execution/executor.py:1082-1115 | A re-read matches exactly when each of its levels is within 51 hundredths of a tick, or within 1e-8, of the one that was sent |
| `StopManagement.MatchesExactly` | execution/executor.py:1082-1115 | On the grid the tolerance accepts exactly the levels that were sent |
| `StopManagement.StopManager.MoveToBreakeven` | execution/executor.py:195-248 | Break-even makes the position `Protected`, for which `BreakevenIff` gives the exact condition and result |
| `StopManagement.StopManager.ApplyTrailingStop` | execution/executor.py:394-443 | Trailing makes the position `Protected`, for which `TrailingIff` gives the exact condition and result |
| `StopManagement.StopManager.SolveLock` | execution/executor.py:330-349 | The three-pass loop returns the first corrected price the calculator confirms, or none |
| `StopManagement.StopManager.LockMinimumNetProfit` | execution/executor.py:250-392 | The profit lock makes the position `Protected`, for which `LockIff` gives the exact condition and result |
| `StopManagement.RoundingWrittenOut` | execution/executor.py:1046-1067 | Which level of the grid a price is rounded to: up and down with the slack, to the nearest otherwise and to the even multiple in a tie |
| `StopManagement.ModifiedIff` | execution/executor.py:519-542 | A request takes effect exactly when the broker accepts it, neither rounded level is negative, and either one is unset and need not be set or both lie on their own sides of the live exit at the minimum distance; the position then has exactly these levels, and is unchanged otherwise |
| `StopManagement.BreakevenIff` | execution/executor.py:195-248 | Break-even moves the stop exactly when the distance gained, the old stop and the request allow it, and to where |
| `StopManagement.TrailingIff` | execution/executor.py:394-443 | Trailing moves the stop exactly when the position is in profit, the old stop lags and the request is allowed, and to where |
| `StopManagement.LockIff` | execution/executor.py:250-392 | The lock moves the stop exactly when its probe pays, one of three corrected prices is confirmed, the result is placeable and improves the old stop, and the request is allowed, and to where |
| `StopManagement.NormalizeGrid` | execution/executor.py:1046-1067 | Rounding lands on the grid, leaves grid prices alone and never crosses a grid level |
| `StopManagement.NormalizeReach` | execution/executor.py:1058-1063 | Directional rounding moves a price by less than one tick, and backwards by no more than the slack |
| `StopManagement.ProtectionLoosensIff` | execution/executor.py:195-443 | For levels on the grid, whatever the quotes and distances, a step keeps them on the grid and makes matters worse exactly when it takes away the stop of a sell, because the wanted one rounds to nothing |
| `StopManagement.StopsNeverLoosen` | execution/executor.py:195-443 | Over any interleaving of the three routines that takes no stop away, a buy stop only rises, a sell stop once set only falls and stays set, and the take-profit never changes |
| `StopManagement.NothingRemovedWhenPlausible` | execution/executor.py:195-443 | No run takes a stop away from a buy, nor from a sell whose quotes and trailing stops are at least a tick and a unit |
| `StopManagement.TargetNeverMovesIff` | execution/executor.py:433-436 | No run on any position moves this take-profit exactly when it is on the grid |
| `StopManagement.StopsNeverLoosenIff` | execution/executor.py:195-443 | For any stop, target and tick: no plausible run ever loosens the stop exactly when rounding its least improvement does not fall behind it, or no quote lets the broker place the result |
| `StopManagement.FallsBehindIff` | execution/executor.py:881-894 | For ticks under 10^10 units, that rounding falls behind exactly when the stop and the next unit are off the grid and that unit is not beyond the entry |
| `StopManagement.OffGridStopCanLoosen` | execution/executor.py:881-894 | A concrete stop that can loosen and the step that does it |
| `StopManagement.WantedStopsAreWhereTheyBelong` | execution/executor.py:223-234 | Break-even and trailing stops are asked for within half a unit of entry plus buffer and of the live exit less the trail |
| `StopManagement.StopsRoundTheSafeWay` | execution/executor.py:881-894 | A stop beyond entry is never rounded to less profit and any other is rounded outward, by less than a tick |
| `StopManagement.LevelsInForceAreAllowed` | execution/executor.py:519-542 | After any step that takes effect the broker accepts the levels; when both are set they lie on either side of the live exit, each at least the minimum distance away, and none is missing where the broker demands both; `ModifiedIff` has the converse |
| `StopManagement.LockIsVerifiedEndToEnd` | execution/executor.py:318-373 | A lock that reaches the broker is a grid price for which the calculator gives at least floor + cost - swap within 1e-8, improves the old stop, is short of the live exit, and is sent unchanged |
| `StopManagement.LinearBrokerLocksWithinATick` | execution/executor.py:318-349 | Against a linear calculator the lock always finds a price and overshoots the floor by less than one tick's worth |
| `OrderExecution.OrderExecutor.ReconcileOpen` | execution/executor.py:1157-1305 | Polling and binding give `OpenOutcome` |
| `OrderExecution.OrderExecutor.ReconcileClose` | execution/executor.py:1307-1391 | Polling the remaining volume gives `CloseOutcome` |
| `OrderExecution.OrderExecutor.WithRetry` | execution/executor.py:1397-1445 | The retry loop gives the result and the number of attempts of `Used`, for which `AnotherAttemptIff` says when an attempt is followed by another |
| `OrderExecution.OrderExecutor.BeginShutdown` | execution/executor.py:79-81 | Shutting down refuses further work and leaves the in-flight set alone |
| `OrderExecution.OrderExecutor.Resume` | execution/executor.py:76-77 | Resuming accepts work again |
| `OrderExecution.OrderExecutor.Admit` | execution/executor.py:111-122 | A request is admitted exactly when work is accepted and its lock is free, and then holds it |
| `OrderExecution.OrderExecutor.Release` | execution/executor.py:129-130 | The end of a call frees its lock alone |
| `OrderExecution.OrderExecutor.OpenTrade` | execution/executor.py:98-130 | A call that nothing interleaves with: a refused one makes no attempt, an admitted one runs the retry loop, and the in-flight set is restored |
| `OrderExecution.RetryableMeansQuoteRefusal` | execution/executor.py:787-797 | A result is retryable exactly when an order was sent and answered requote, price changed or price off, and did not succeed |
| `OrderExecution.AnotherAttemptIff` | execution/executor.py:1397-1445 | An attempt is followed by another exactly when one is left, it failed, and its order was answered requote, price changed or price off; never after done, partly done, any other code or no reply |
| `OrderExecution.RetriesOpenAtMostOnce` | execution/executor.py:1397-1445 | If orders answered requote, price changed or price off fill nothing, only the last order of a run can have moved the broker and all orders together open at most the requested lot |
| `OrderExecution.OpenSucceedsIff` | execution/executor.py:1169-1305 | An open succeeds exactly when the broker completed it and the one position it can be bound to grew by more than the tolerance and at most lot + tolerance |
| `OrderExecution.OpenWrittenOut` | execution/executor.py:1157-1305 | What an open reports, from the reply, the earlier positions and the polls: which poll decides, which position the order is bound to, by how much it grew against the volume tolerance, and the ticket, volume and message of each case |
| `OrderExecution.CloseWrittenOut` | execution/executor.py:1307-1391 | What a close reports, from the reply and the polls: which poll decides, what was left of the volume, and what each case says |
| `OrderExecution.ToleranceWrittenOut` | execution/executor.py:1042-1044 | The volume tolerance, from the volume step |
| `OrderExecution.UnsentWrittenOut` | execution/executor.py:738-780 | What an attempt reports when no order reached the broker: a refusal, or the simulated ticket of a dry run |
| `OrderExecution.CloseSucceedsIff` | execution/executor.py:1317-1391 | A close succeeds exactly when completed and the last reading left the expected volume; a read outcome reports a change exactly if volume fell |
| `RequestGate.CallsNeverCollide` | execution/executor.py:111-130 | Over every run, cancellations and restarts included, no two calls hold the same lock and exactly the held locks are in flight |
| `RequestGate.StepWrittenOut` | execution/executor.py:98-130 | One step written out: only a beginning call takes a lock, only an ending call gives its lock back, a submission runs from when its call makes it until it finishes, whatever becomes of the call, and nothing else changes |
| `RequestGate.NothingAdmittedAfterShutdown` | execution/executor.py:79-81 | Between a shutdown and the next resume no call is admitted |
| `RequestGate.SubmissionsNeverCollide` | execution/executor.py:1410-1422 | If calls are cancelled only after a shutdown and work resumes only once native submissions have drained, each request is being sent by at most one call at any time |
| `RequestGate.ResumeIsSafeIff` | core/engine.py:3235-3243 | Resuming keeps every later run free of duplicate submissions exactly when the native work had drained |
| `RequestGate.UndrainedResumeDuplicates` | core/engine.py:3235-3243 | From a fresh executor, a run that sends one request twice at once |
| `AnalysisCache.MarketAnalysisEngine.Lookup` | core/analysis_engine.py:63-68 | The locked lookup answers from the current or previous record and touches the key only on a hit |
| `AnalysisCache.MarketAnalysisEngine.Insert` | core/analysis_engine.py:251-264 | The locked insert, with its eviction loop, gives `Inserted` |
| `AnalysisCache.MarketAnalysisEngine.Analyze` | core/analysis_engine.py:44-265 | One call returns nothing for unusable frames and otherwise exactly the direct analysis of its own frame |
| `AnalysisCache.LookupWrittenOut` | core/analysis_engine.py:63-68 | A lookup answers from the current record or else the previous one, by candle time and content; a hit moves its key last and keeps the order of the others, a miss moves nothing, and neither changes a record |
| `AnalysisCache.InsertionWrittenOut` | core/analysis_engine.py:251-264 | What an insertion leaves: which of the two records a newer, an older or an equally old one replaces, the key last in the order of use, the end of that order kept up to the limit, and every other kept key with its records |
| `AnalysisCache.CacheRefinesDirectComputation` | core/analysis_engine.py:61-68 | In every interleaving of any number of callers each answer equals direct computation on the caller's frame, and the cache stays consistent and bounded |
| `AnalysisCache.EveryCallerIsAnswered` | core/analysis_engine.py:44-265 | A caller that arrives at any moment has its answer after two locked steps of its own, whatever others do in between, and it is direct computation on its own frame |
| `AnalysisCache.MoveKeepsSafe` | core/analysis_engine.py:61-264 | One step of one caller keeps that safety |
| `AnalysisCache.InsertionKeepsConsistency` | core/analysis_engine.py:251-264 | After an insert at most `limit` keys remain, the most recently used; the new key is among them, previous records belong to current keys and are older, other survivors keep both records |
| `AnalysisCache.EvictionKeepsMostRecent` | core/analysis_engine.py:262-264 | Eviction keeps exactly the most recently used keys with their records |
| `AnalysisCache.HitIsDirect` | core/analysis_engine.py:64-68 | With an injective signature a hit is the analysis of the caller's own frame |
| `AnalysisCache.InsertedIsFound` | core/analysis_engine.py:253-260 | What was just computed is found again, newer or older than the current record, and so is the record it replaced |
| `EntryAuthorization.TradingEngine.StartEngine` | core/engine.py:1899-2023 | Starting disarms, lets the executor accept work, and restores only what the read account's own record authorizes |
| `EntryAuthorization.TradingEngine.RestoreAuthorization` | core/engine.py:2251-2326 | Restores autonomy for an exactly matching enabled record and arms only if healthy |
| `EntryAuthorization.TradingEngine.ArmEntries` | core/engine.py:2025-2094 | Takes the step `Arm`, for which `ArmIff` gives the exact condition and result |
| `EntryAuthorization.TradingEngine.EnableAutonomousMode` | core/engine.py:2138-2201 | Takes the step `Enable`, for which `EnableIff` gives the exact condition and result; disarms when the write was not confirmed, durable or not |
| `EntryAuthorization.TradingEngine.DisableAutonomousMode` | core/engine.py:2203-2239 | Disables and disarms whatever becomes of the write |
| `EntryAuthorization.TradingEngine.HealthTick` | core/engine.py:2328-2459 | Disarms on any failure and re-arms only the authorized account |
| `EntryAuthorization.TradingEngine.ObserveAccount` | core/engine.py:3407-3496 | Acts on a changed account before adopting it |
| `EntryAuthorization.TradingEngine.DisarmEntries` | core/engine.py:2880-2888 | Clears arming and its identity |
| `EntryAuthorization.TradingEngine.StopEngine` | core/engine.py:3140-3155 | A running engine disarms and shuts the executor when it stops |
| `EntryAuthorization.TradingEngine.CoreTaskFinished` | core/engine.py:1389-1436 | A core failure disarms and shuts the executor while the engine still counts as running |
| `EntryAuthorization.ArmIff` | core/engine.py:2025-2094 | Arming is accepted exactly when the engine runs and is ready, the trade mode is 0 or 2, and the phrase is the paper one in a dry run, else the demo one for 0 and the live one for 2; it then arms the account read, and changes nothing otherwise |
| `EntryAuthorization.EnableIff` | core/engine.py:2138-2201 | Enabling is accepted exactly under the same conditions on its first read with its own phrases, if the second read is tradable too and, unless in a dry run, of the same mode; and what each write outcome leaves |
| `EntryAuthorization.StartIff` | core/engine.py:1899-2326 | What a start leaves: the executor accepting and entries disarmed in any case, and autonomy and entries exactly by the account's own enabled record |
| `EntryAuthorization.DisableIff` | core/engine.py:2203-2239 | What a disable leaves, and whose record a durable write clears |
| `EntryAuthorization.TickIff` | core/engine.py:2328-2459 | When a health tick disarms, re-arms or does nothing |
| `EntryAuthorization.ObserveIff` | core/engine.py:3407-3496 | What the main loop adopts, and that a change leaves nothing in force |
| `EntryAuthorization.ShutdownsWrittenOut` | core/engine.py:3140-3155 | What a stop leaves, and next to it a core failure and a lock |
| `EntryAuthorization.OtherModesNeverAuthorized` | core/engine.py:2032-2067 | Over every run from an engine that is not running, an account whose trade mode is neither 0 nor 2, without an enabled record, is never given entries or autonomy: by a phrase, a second read, a restart or a health tick |
| `EntryAuthorization.AutonomyNeverTransfers` | core/engine.py:2138-2326 | Over every run, while the engine runs, an account holds autonomy exactly when its own enable phrase was accepted while it was read, or its own record found at the start, and no restart, disable, account change or other enable came after |
| `EntryAuthorization.EntriesNeverTransferIff` | core/engine.py:1899-2459 | Throughout a run entries are armed only for accounts authorized by their own phrase or record exactly when each enable read one account twice, or second an account already armed by its own phrase |
| `EntryAuthorization.ArmedStaysArmed` | core/engine.py:2025-2094 | An arming that no step displaced is still in force for that account |
| `EntryAuthorization.SecondReadTransfersEntries` | core/engine.py:2144-2164 | A run that arms entries for an account nobody authorized, through the second read of an enable |
| `EntryAuthorization.ChangeForcesReauthorization` | core/engine.py:3415-3433 | An observed account change leaves nothing in force, and every later authority was granted after it |
| `EntryAuthorization.EnabledRecordIff` | core/engine.py:2167-2216 | Over every run an account has an enabled record exactly when an accepted enable that read it made the last durable write under its key, or it had one and nothing was written |
| `EntryAuthorization.AuthorityStemsFromTypedPhrase` | core/engine.py:2025-2326 | Across any number of restarts, autonomy of an account without an initial record goes back to its own enable phrase typed while it was read, and armed entries, if enables agree, to that or its arming phrase |
| `EntryAuthorization.DisableHoldsIff` | core/engine.py:2203-2216 | Autonomy stays off through every later run without a new enable, restarts included, exactly when the disable was written durably under the authorized account's key |
| `EntryAuthorization.TicksRecover` | core/engine.py:2359-2423 | Through any run of health ticks entries are armed at the end exactly when the last one was good, and once off they come back for the authorized account alone |
| `EntryAuthorization.OrdersReachGateAccountIff` | core/engine.py:5684-5900 | At every moment up to the handover an order can reach only the account that passed the gate exactly when no step in between disarms entries, or arms them for another account, and leaves the executor accepting |
| `EntryAuthorization.RearmedOrderChangesAccount` | core/engine.py:5684-5900 | A run in which entries are armed again and the order goes out on another account; after a stop or a core failure it goes nowhere |
| `MarketUniverse.DiscoveryBatch` | core/market_universe.py:38-58 | The loop gives `Discovery` |
| `MarketUniverse.DiscoveryWrittenOut` | core/market_universe.py:45-58 | A batch is the priority list followed by the new names met from the cursor on, in that order; the scan ends when it has enough of them, at least one, or has been around, and the next cursor is where it ended |
| `MarketUniverse.NormalizedWrittenOut` | core/market_universe.py:43 | The priority list holds each non-blank name once, in the order in which they first occur |
| `MarketUniverse.BatchShape` | core/market_universe.py:43-58 | A batch has no repetition, begins with the priority list, adds at most the batch size, and contains the whole stretch of the catalog it used up |
| `MarketUniverse.RotationCoversUniverse` | core/market_universe.py:38-58 | Any ceil(n / max(1, b)) consecutive batches offer every non-blank name, from any cursor and with the other lists changing at will |
| `MarketUniverse.NormalizedIsUnique` | core/market_universe.py:43-44 | The priority list holds exactly the normalized non-blank names, once each |
| `ShadowOutcomes.EvaluateShadowCandidate` | core/shadow_outcomes.py:52-142 | Filter, sort and scan give `Evaluation`, for which `CandidateWrittenOut` says what is reported |
| `ShadowOutcomes.EvaluateExitCounterfactual` | core/shadow_outcomes.py:145-244 | The scan after an actual exit gives `Counterfactual`, for which `ExitWrittenOut` says what is reported |
| `ShadowOutcomes.CandidateWrittenOut` | core/shadow_outcomes.py:52-142 | What the evaluation of a rejected signal reports, in any order of the bars: which bar ends it; for a touch the level or, if both are met, the close, with the reward, minus one or no outcome; otherwise, once the deadline has passed, the latest close with the signed move over the risk, a win above 0.02 and a loss below -0.02; and the excursions of exactly the bars up to it |
| `ShadowOutcomes.ExitWrittenOut` | core/shadow_outcomes.py:145-244 | What the evaluation of an actual exit reports in the same way: from bars that begin after it, with excursions that start at its own move, the difference to what was realized, and the status of each ending |
| `ShadowOutcomes.FirstTouchDecides` | core/shadow_outcomes.py:100-127 | The earliest in-window bar that touches a level decides, with the excursions of exactly the bars up to it |
| `ShadowOutcomes.OrderIsIrrelevant` | core/shadow_outcomes.py:84-142 | For distinct times the evaluation does not depend on the order of the bars |
| `ShadowOutcomes.LaterBarsAreIrrelevant` | core/shadow_outcomes.py:102-127 | Bars after the resolving one change nothing, excursions included |
| `ShadowOutcomes.StatusMeaning` | core/shadow_outcomes.py:100-142 | What each status implies for exit, outcome, favorable and adverse excursion, for valid plans; the three timeouts are told apart by an outcome above 0.02, below -0.02 or between |
| `ShadowOutcomes.HoldingEndsAsEvaluated` | core/shadow_outcomes.py:145-234 | If the first touch comes after an actual exit and within its horizon, however far that reaches, the counterfactual tells the evaluation's own resolution: the same exit and outcome, and the ending that belongs to its status |
| `ResearchSimulation.Simulate` | core/research_validation.py:61-116 | The simulator gives `Simulation`, for which `SimulationWrittenOut` says what comes out |
| `ResearchSimulation.PlayOut` | core/research_validation.py:91-116 | The bar loop gives `Play` |
| `ResearchSimulation.SimulationWrittenOut` | core/research_validation.py:61-116 | The whole simulation: which inputs are errors, stale, incomplete or not fillable, with the 120 seconds and the 0.35 of the average range; the minute and price of the entry; and how the trade goes: how many bars pass, whether the next one is missing, off its minute or ends it, by which fill, at which price, and the net result |
| `ResearchSimulation.SimulationTiming` | core/research_validation.py:70-116 | A simulated trade enters at the next whole minute and leaves within the horizon |
| `ResearchSimulation.FillsArePessimistic` | core/research_validation.py:103-115 | With any costs and gaps a stop loses at least one risk unit and a target earns at most the reward |
| `ResearchSimulation.GapFreeTradesResolve` | core/research_validation.py:91-116 | On gap-free bars every trade resolves, and by its horizon exactly when no bar touches a level |
| `ResearchSimulation.EntryIsNeverBetter` | core/research_validation.py:84 | Spread and slippage only move the entry against the trade |
| `ResearchSimulation.SimulatorsAgree` | core/research_validation.py:84-116 | With no costs, target, stop and both-touched results coincide with the shadow evaluator's on the same bar, and the simulated net is never better |
| `ForwardAudit.Schedule` | core/research_validation.py:180-194 | Every group gets the ledger of its own observations in order of time |
| `ForwardAudit.OneRowPerObservation` | core/research_validation.py:181-194 | Each observation gives exactly one row, in order, which is its own simulation unless it was skipped; positions open on their minute and close within the horizon |
| `ForwardAudit.PositionsAreDisjoint` | core/research_validation.py:184-192 | Within a group the intervals of hypothetical positions never overlap |
| `ForwardAudit.SkippedIffStillOpen` | core/research_validation.py:184-192 | An observation is skipped exactly while an earlier position of its group is still open |
| `ForwardAudit.AssignFolds` | core/research_validation.py:200-210 | The fold loop gives each fold's sample and the number purged |
| `ForwardAudit.InFoldIff` | core/research_validation.py:196-210 | A row is counted in a fold exactly when its trade was filled, began within that one of the equal stretches of the audited time, compared without rounding, and ended no later than it |
| `ForwardAudit.EdgeIsExact` | core/research_validation.py:199 | Cutting the edges to whole seconds makes no difference to a whole minute, for up to 60 folds |
| `ForwardAudit.SampleWrittenOut` | core/research_validation.py:200-210 | A fold's sample is the rows counted in it, each once and in order |
| `ForwardAudit.AuditWrittenOut` | core/research_validation.py:196-199 | The audited time runs from the minute of the first observation to a horizon after the minute that follows the last one |
| `ForwardAudit.PurgedIffCrossing` | core/research_validation.py:206-208 | A fold is always found, a trade is purged exactly when it is open across an inner edge, and the last fold purges nothing |
| `ForwardAudit.ResolvedRowsAreAccountedFor` | core/research_validation.py:201-210 | Resolved rows are the purged ones plus those of all folds |
| `ForwardAudit.LedgerFitsItsFolds` | core/research_validation.py:197-200 | The folds of a ledger cover every one of its trades |
| `ForwardAudit.Summarize` | core/research_validation.py:119-132 | Net, gains and losses as sums of the values and of their positive and negative parts, wins as the number of positive values, and the largest fall of the equity |
| `ForwardAudit.MaxDrawdown` | core/research_validation.py:123-127 | The drawdown is the largest fall between any two ordered prefix sums, zero included |
| `TargetExtension.AdjustTakeProfit` | core/trade_planner.py:83-161 | The planner's loop gives `Adjusted` |
| `TargetExtension.AdjustmentWrittenOut` | core/trade_planner.py:73-161 | The whole adjustment: when nothing can be told, when a target is kept or refused and with which ratio, the 48 halvings of the bracket one by one, the level its upper end is rounded to, and whether the result counts |
| `TargetExtension.BisectionBrackets` | core/trade_planner.py:113-123 | The lower end never suffices, the upper end does unless it never moved, and the bracket halves every time |
| `TargetExtension.ExtensionIsBounded` | core/trade_planner.py:89-150 | An extended target reaches the wanted ratio within 1e-9, was short before, and lies less than a grid step beyond the limit, with or without a broker point |
| `TargetExtension.ExtensionIsNearlySmallest` | core/trade_planner.py:113-150 | For a monotone broker the distance is within a grid step and a 2^48th of the extension of every sufficient one, for plans of both sides |
| `TargetExtension.BuyPlanIsExtended` | core/trade_planner.py:73-150 | A buy plan that meets every hypothesis of these results |
| `TargetExtension.KeptAndRefused` | core/trade_planner.py:83-161 | The target is kept exactly when its ratio already suffices; a refusal reports that short ratio, and an extension happens only where allowed and priceable at the furthest distance |
| `Reconciliation.AggregateClosedPositions` | database/reconciliation.py:34-106 | Grouping, filtering, summing and sorting give the report |
| `Reconciliation.ReportableIff` | database/reconciliation.py:48-61 | A position is reported exactly when it has opening deals, one of them of this strategy, and closing deals, is no longer held, and the closing volume covers the opening one up to 1e-9 |
| `Reconciliation.RowWrittenOut` | database/reconciliation.py:50-106 | A row written out: its times, prices, volume, side, symbol, reason and each sum of money, from which deals each comes |
| `Reconciliation.RowsAreReportable` | database/reconciliation.py:48-61 | Exactly the reportable positions are reported, once each, from all of their own deals |
| `Reconciliation.RowSpansItsDeals` | database/reconciliation.py:50-92 | A row opens with the earliest entry and closes with the latest exit, with the symbol of the one and the reason of the other |
| `Reconciliation.NetIsConserved` | database/reconciliation.py:64-68 | The report's net is the profit, commission, swap and fee of exactly the deals of the positions it reports |
| `Reconciliation.AverageIsBetween` | database/reconciliation.py:62-63 | Volume-weighted prices lie between the extremes of their deals |
| `Reconciliation.OrderOfDealsIsIrrelevant` | database/reconciliation.py:42-106 | For distinct times within each position the rows do not depend on deal order, nor does the report when no two rows close at the same second |
| `Reconciliation.ReportOrder` | database/reconciliation.py:106 | The report is in descending order of closing times and names no position twice |
| `CurrencyContext.BuildCurrencyContext` | core/forex_context.py:57-134 | The two loops give `Contexts` |
| `CurrencyContext.ContextWrittenOut` | core/forex_context.py:66-128 | A row's context: the signal with its clamp and regime vote, what each currency earned, its samples, mean strength without the row's own signal, reliability, the bias with its 0.35, and alignment |
| `CurrencyContext.ContextLeavesOwnRowOut` | core/forex_context.py:89-112 | For two different currencies the context equals the one computed with the pair's own row deleted |
| `CurrencyContext.OwnSignalIsIrrelevant` | core/forex_context.py:90-112 | Changing a pair's own impulse or regime changes no strength, sample count, reliability or bias |
| `CurrencyContext.OwnRowIsLeftOutIff` | core/forex_context.py:92-93 | The own row is left out of the sample count exactly when the two currencies differ |
| `CurrencyContext.BiasFollowsTheStrongerCurrency` | core/forex_context.py:104-112 | A bias needs another row for each currency and sides with the one that is stronger among the others |
| `CurrencyContext.TotalsBalance` | core/forex_context.py:81-84 | Currency totals sum to zero and samples to twice the accepted rows |
| `CurrencyContext.LastRowWins` | core/forex_context.py:118 | Each symbol maps to the context of its last accepted row |
| `Swings.DetectSwings` | market_structure/smc.py:16-80 | The scan and relabelling loops give `SwingsOf` for highs and lows |
| `Swings.SwingsAreExactlyDominatingBars` | market_structure/smc.py:30-78 | The reported highs are exactly the bars that no bar within the window exceeds, and the lows those that none undercuts, in order, at their prices, each labelled against the one before |
| `Swings.SwingsDoNotRepaint` | market_structure/smc.py:23-80 | The list on any prefix of the candles, labels included, is a prefix of the list on all |
| `Swings.NearbySwingsAreLevel` | market_structure/smc.py:32-43 | Two swings of one sense within one window of each other have the same price |

## Left out

- IEEE rounding: money and prices are exact; a tick that is not a whole number of quoted digits, and the
  source's reading of a digits value of 0 as 5, do not occur in the model.
- The local checks before an order (spread, lot, margin, final risk and ratio) appear as one refusal; an
  accepted modification takes effect as sent or not at all, and its re-reads may show anything.
- What concurrent calls on the executor do to the broker: `RequestGate` models their admission, submission and
  end, `OrderExecution` the orders of one call, and stop-moving routines are atomic steps.
- `_profit_lock_target`, exit reviews and all scanning and scoring: branch-by-branch thresholds with no
  property over a run.
- Aliasing: cached analyses are values, so deep copies have nothing to protect here.
- Settings that change between hashing a frame and analysing it; the signature covers the settings it hashes.
- The authorization steps treat each control call as atomic except for the second account read of an enable
  and of an order; dashboard texts, signals waiting for a re-arm and the manual override are not modelled.
- Choosing the earliest of duplicate observations, parsing of timestamps and bars, counts by year and by
  direction, and sub-second times in the forward audit.
- Rounding of reported figures to 8, 6 or 3 digits, except where a sign after rounding decides a label.
- Planner levels other than the cost-driven target extension, and the broker calls behind the risk estimate.
- StopManagement.StopsNeverLoosenIff: for sells, quantifies over runs in which neither the ask nor the trailing
  stop behind it is nearer to zero than a tick or a unit, as every quote is.
- StopManagement.FallsBehindIff: for ticks under 10^10 units, where the source's rounding slack is below one unit.
- Reconciliation.OrderOfDealsIsIrrelevant: does not state the order among rows closing at the same second.
