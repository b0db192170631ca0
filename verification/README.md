# Verified model of an addon aggregator's concurrent core

The service collects streams from installed addons. Its difficult parts are small state machines
that many requests share: semaphores, caches, counters, a circuit breaker, a provider registry,
leases, and the arithmetic that picks a file out of a torrent. This project models them in Dafny
and proves what they guarantee over every input, every run and every interleaving, and where a
promise ends.

The program is single-threaded and cooperative, so each stretch of code between two suspension
points is one step, and the clock is an argument. For most components there are three layers:

- a specification, a datatype for the state and one function per step (`Semaphore`, `LruCache`,
  `Streams`, `Circuit`, `Slots`, `Addons`, `SingleFlight`, `Swr`, `Locks`, `Coordinator`);
- theorems about all runs of the specification (the remaining modules of each row below);
- the object as the program has it, fields updated in place by methods with the program's loops,
  each proved to move the fields as the specification does (modules ending in `Object`).

| modules | what they model |
|---|---|
| Semaphore, SemaphoreSafety, SemaphoreRuns, SemaphoreSettings, SemaphoreMissed, SemaphoreOvertaking, SemaphoreObject | the weighted, priority-ordered admission semaphore |
| Coordinator, CoordinatorRuns, CoordinatorUses, CoordinatorPruning, CoordinatorConfigurations, CoordinatorObject | one semaphore per host, made on demand and pruned when idle |
| LruCache, LruCacheRuns, LruCounts, LruSurvival, LruInclusion, LruCacheObject | the in-memory cache with expiry and move-to-end |
| CanonicalJson, CanonicalJsonStrings, CanonicalJsonInjective, CanonicalJsonFaithful, CanonicalJsonText | the canonical printer behind manifest fingerprints |
| Streams, StreamsSafety, StreamsRuns, StreamsIdentity, StreamsCaps, StreamsRefusals, StreamsObject | the caps on concurrent streams |
| Circuit, CircuitRuns, CircuitHistory, CircuitCounts, CircuitObject | circuit breaker and provider quarantine |
| Slots, SlotsSafety, SlotsRuns, SlotsNumbers, SlotsProgress, SlotsObject | the two levels of provider and host slots |
| Priority, FreshId, Addons, AddonsRegistry, AddonsRuns, AddonsProviders, AddonsEffects, AddonsObject | addon order, ids and the provider registry |
| SingleFlight, Swr, SwrRuns, SwrLifetimes, SwrObject | coalesced calls and stale-while-revalidate |
| Locks, LocksLeases, LocksObject | lease locks |
| FileSelection, FileSelectionScores | scoring the files of a torrent |
| Prelude, Counting, StableSort | shared definitions |

Some promises turned out not to hold on all inputs. For each of them the list names first a lemma
with an input or run on which it fails, then a lemma that says exactly when it holds:

- The cache's capacity: the empty key is never evicted. `EmptyKeyUnbounded`;
  `WriteStaysWithinCapacityIff`.
- "Order-independent fingerprint": keys that the collation cannot tell apart leak their order.
  `TiePrintsTwoWays`; `OrderIndependentIff`.
- Survival in the cache depends on insertions alone: hits on other keys age a key as well.
  `InsertionsAloneDoNotDecide`; `SurvivesIff`, and `SurvivesUsesIff` for runs of uses only.
- No waiter is left in the queue of the semaphore while it fits and nobody of higher priority waits:
  only releases pump. `FittingEntryMayWait` and `DepartureMisses`; `NobodyMissedIff`.
- Operational work jumps ahead of user traffic without starving it: there is no bound on how often
  it does. `HigherPriorityStarves`; `PriorityIsServedIff` says which releases serve a priority.
- The caps on streams: they are broken by a counter restarted after its expiry, and, with every
  counter exact, by a check that looks at a counter after its expiry. `ExpiryBreaksCap` and
  `LateCheckBreaksCap`; `CapsHoldIff` for any run, `CheckKeepsCapsIff` for one check.
- Exact stream counters: an expired counter restarts at one, or is purged, while streams still hold
  it. `ExpiryBreaksCap` and `PurgeForgetsAStream`; `CountersHoldIff` for any run, `ReserveExactIff`
  and `PurgeExactIff` for one step.
- A caller is rejected only if admitted streams reach a cap: callers that are only trying count as
  well, and two racers for one slot can both be refused. `RacersCanBothLose`; `RefusedIff` for any
  interleaving, `UncontendedAcquireIff` for a caller that nobody interrupts.
- A successful trial brings the provider back: with a success threshold above one the trial is never
  given back, and with a threshold of one an older request can report its failure first.
  `RecoveredButShutOff` and `LateReportShutsOff`; `ReachableAfterSuccessIff`.
- A quarantine record counts the openings that led to it: it counts none when the lapse of an
  earlier quarantine is noticed at that moment. `LapseForgetsTheOpening`; `AutoQuarantineIff`.
- The registry follows the priorities: start-up and the playback grants follow the stored list.
  `StartUpCanIgnorePriority`; `InitMirrorsIff`. `GrantsCanUndoAReordering`; `GrantsMirrorIff`.
- A reload brings the providers up to date: it can leave one built from an old manifest.
  `ReloadCanLeaveStaleProvider`; `ReloadRefreshesIff`.
- `reorder` moves only what it lists: the unlisted addons go behind the listed ones in the order of
  the stored array, which need not be their previous priority. `EmptyRequestSwaps`;
  `ReorderKeepsUnlistedIff`.
- Single flight, one execution per key: a reset while a function runs lets a second one start.
  `ResetDoublesWork`; `ResetTracksIff`. The cache's `clear` performs such a reset, so the same goes
  for its fetches. `ClearingDoublesTheFetch`; `ResetKeepsOneFetchIff`.
- Single flight keeps no old results: a function that throws before it returns a promise poisons its
  key. `SecondCallGetsTheThrow`; `PoisonedIff`.
- File selection finds a video if there is one: a file with an unknown extension can win and hide
  every video. `UnknownExtensionShadowsVideo`; `NothingChosenIff`, and `MovieNothingChosenIff` in
  terms of the files alone.
- The verdict "exact" means an exact tag: it is also given for a range and, in season 0, for an
  absolute number. `RangeIsCalledExact` and `AbsoluteIsCalledExact`; `GoodVerdictsIff`.
- The limit per host: a caller that keeps a reference to a pruned pool gets past it. `KeptPoolRun`;
  `DirectAcquireExceedsIff`. Callers that look their pool up for every request, as `withHostSlot`
  does, stay within it (`HostLimitHolds`).

`dafny verify dfyconfig.toml` checks the whole project.

## Model

| member | source | states |
|---|---|---|
| SemaphoreRuns.Accounting | src/concurrency/semaphore.ts:132-290 | In every reachable state the weight in flight is the sum of the unreleased admissions and at most the limit, the queue is at most `maxQueue` long, every accepted call is waiting or was settled exactly once, and the four counters are the numbers of settlements of each kind |
| SemaphoreRuns.PrioritySafe | src/concurrency/semaphore.ts:200-276 | At every admission of every run nobody of higher priority was waiting, and an earlier waiter of the same priority did not fit at that moment |
| SemaphoreOvertaking.NoBoundOnOvertaking | src/concurrency/semaphore.ts:248-276 | For every n there is a run in which n later and lighter calls of the same priority are admitted while a heavy one waits |
| SemaphoreOvertaking.HeadIsAdmittedIff | src/concurrency/semaphore.ts:223-276 | A release takes the head out of the queue exactly when it leaves room for it |
| SemaphoreOvertaking.HigherPriorityStarves | src/concurrency/semaphore.ts:200-205 | For every n there is a run in which n later calls of higher priority are admitted while a call of low priority waits |
| SemaphoreOvertaking.PriorityIsServedIff | src/concurrency/semaphore.ts:223-276 | A release admits somebody of a waiting priority exactly when the room it leaves is enough for all waiters of higher priorities together and besides them for one of its own |
| SemaphoreRuns.NoLostWakeup | src/concurrency/semaphore.ts:142-151 | In every reachable state a non-empty queue means that weight is in flight, so a release that will pump is outstanding; with nothing in flight nobody waits |
| SemaphoreRuns.NobodyIsForgotten | src/concurrency/semaphore.ts:153-198 | A waiter that was given a timeout or an abort listener still has it armed, and armed timers and listeners belong to waiters |
| SemaphoreRuns.AcquireDecides | src/concurrency/semaphore.ts:132-151 | A call that is not aborted beforehand is admitted at once, refused or queued, exactly one of them: admitted when nobody waits and its charge fits beside the unreleased weights, refused when not admitted and the queue is full |
| SemaphoreSettings.SettingsAreGiven | src/concurrency/semaphore.ts:117-125 | In every reachable state the limit is the whole part of what was given, at least one; the queue length the whole part of what was given, or eight times the limit; the timeout what was given, or ten seconds |
| SemaphoreSettings.RefusedAtGivenLength | src/concurrency/semaphore.ts:142-151 | With a queue length given, the queue never gets longer, and a call is refused because of it exactly at that length |
| SemaphoreSettings.WaitsAsAsked | src/concurrency/semaphore.ts:153-207 | A call that has to wait is added with its charge, its priority or zero, and its time; it has a timer exactly if its timeout, or the semaphore's if it gave none, is positive, and a listener exactly if it gave a signal |
| SemaphoreSettings.TimeoutTellsTheWait | src/concurrency/semaphore.ts:176-186 | A timeout takes its waiter out and reports the time since it came |
| SemaphoreSettings.ReleasersAreCharges | src/concurrency/semaphore.ts:132-276 | In every run the release functions handed out correspond in order to the admissions, each with the charge of its call |
| SemaphoreRuns.ChargeIsNearest | src/concurrency/semaphore.ts:133-136 | A call is charged the allowed weight nearest to the whole part of what it asks for, and one unit if it asks for none |
| SemaphoreRuns.ReleaseIsIdempotent | src/concurrency/semaphore.ts:223-231 | Calling a release function twice changes nothing the second time |
| SemaphoreRuns.ReleaseLeavesNoFit | src/concurrency/semaphore.ts:248-276 | After a release no waiter of the head's priority fits |
| SemaphoreMissed.NobodyMissedIff | src/concurrency/semaphore.ts:132-290 | At every moment of a run nobody of the top waiting priority would fit, exactly when no call of at least that priority arrives fitting at a queue that is neither empty nor full, and no timeout or abort takes the last of the top priority from before one of the next that fits |
| SemaphoreMissed.ArrivalMissesIff | src/concurrency/semaphore.ts:132-207 | When nobody of the top waiting priority fits, a call leaves somebody who does exactly when it was not aborted beforehand, the queue is neither empty nor full, its priority is at least the head's and its charge fits |
| SemaphoreMissed.DepartureMissesIff | src/concurrency/semaphore.ts:176-198 | When nobody of the top waiting priority fits, a timeout or abort leaves somebody who does exactly when it takes the last of the top priority and somebody of the next one fits |
| SemaphoreMissed.DepartureMisses | src/concurrency/semaphore.ts:176-186 | A run in which a waiter does not fit when it arrives, fits after a release but stands behind a bigger one of higher priority, and is left waiting when the time of that one is up |
| SemaphoreRuns.FittingEntryMayWait | src/concurrency/semaphore.ts:142-186 | A run in which a call that fits waits behind a head of its own priority that does not, and goes on waiting alone after the timeout of the head |
| SemaphoreRuns.ReleaseAdvances | src/concurrency/semaphore.ts:223-276 | Every effective release lowers the number of calls still to be released or admitted |
| SemaphoreRuns.ReleasesDrain | src/concurrency/semaphore.ts:223-276 | No deadlock: in whatever order holders release, the number of effective releases is bounded, and once none is left the queue is empty and nothing is in flight |
| SemaphoreSafety.StepKeeps | src/concurrency/semaphore.ts:132-290 | Acquire, release, timeout, abort and shutdown each keep the whole invariant: bounds, order, armed timers, conservation of calls, counters, fairness and wake-up |
| SemaphoreSafety.InsertKeepsOrder | src/concurrency/semaphore.ts:200-205 | Inserting a newcomer behind everybody of at least its priority keeps the queue in order of priority, then arrival |
| SemaphoreSafety.PumpKeeps | src/concurrency/semaphore.ts:248-276 | The pump keeps the invariant and ends with no fitting waiter of the head's priority |
| SemaphoreObject.WeightedSemaphore.constructor | src/concurrency/semaphore.ts:117-125 | A new semaphore has a limit of at least one and satisfies the invariant |
| SemaphoreObject.WeightedSemaphore.Acquire | src/concurrency/semaphore.ts:132-207 | The method moves the fields exactly as the specified acquire does and keeps the invariant |
| SemaphoreObject.WeightedSemaphore.Insert | src/concurrency/semaphore.ts:200-205 | The backwards scan finds the place behind everybody of at least the newcomer's priority |
| SemaphoreObject.WeightedSemaphore.Release | src/concurrency/semaphore.ts:223-231 | A release function gives its weight back once and pumps |
| SemaphoreObject.WeightedSemaphore.PumpQueue | src/concurrency/semaphore.ts:248-276 | The loop ends and leaves the state the specified pump leaves |
| SemaphoreObject.WeightedSemaphore.Dequeue | src/concurrency/semaphore.ts:233-245 | Removing a waiter that is queued removes it and disarms it; removing another one does nothing |
| SemaphoreObject.WeightedSemaphore.OnTimer | src/concurrency/semaphore.ts:176-186 | A timeout takes exactly its waiter out of the queue and counts it |
| SemaphoreObject.WeightedSemaphore.OnAbort | src/concurrency/semaphore.ts:188-198 | An abort takes exactly its waiter out of the queue and counts it |
| SemaphoreObject.WeightedSemaphore.AbortQueued | src/concurrency/semaphore.ts:282-290 | Shutdown rejects every waiter, reports how many there were, and leaves what is in flight alone |
| CoordinatorRuns.HostLimitHolds | src/concurrency/coordinator.ts:139-194 | Over every run, the weight in flight for a host, summed over every semaphore ever made for it since the last configuration, is at most the limit per host |
| CoordinatorRuns.OldHostLimitHolds | src/concurrency/coordinator.ts:77-102 | Callers that still hold slots of an earlier configuration stay within the limit of that configuration |
| CoordinatorConfigurations.AllConfigurationsBound | src/concurrency/coordinator.ts:77-102 | In every run the weight in flight for a host, over all pools of all configurations, is at most the sum of the limits configured so far |
| CoordinatorConfigurations.ConfigurationsAddUp | src/concurrency/coordinator.ts:77-102 | For any list of limits there is a run that configures them in turn and ends with their sum in flight for one host |
| CoordinatorRuns.DroppedPoolsAreIdle | src/concurrency/coordinator.ts:160-175 | In every reachable state a pool of the present configuration that is not in the table has no holder and no waiter |
| CoordinatorPruning.DroppedPoolsStayIdle | src/concurrency/coordinator.ts:160-175 | A pool that pruning dropped has no holder, no waiter and no place in the table at any later moment, through any further configurations |
| CoordinatorRuns.AccessTableIsExact | src/concurrency/coordinator.ts:139-175 | The hosts in the access table are exactly the hosts with a pool, each once |
| CoordinatorUses.AccessIsLastUse | src/concurrency/coordinator.ts:139-158 | In every reachable state the access table holds for each of its hosts the time of the last request for it |
| CoordinatorUses.TouchKeepsPlaces | src/concurrency/coordinator.ts:139-158 | A use leaves the hosts of the access table in their places and adds a new host at the end |
| CoordinatorUses.SettingsGivenLast | src/concurrency/coordinator.ts:77-158 | In every reachable state a host has at most the whole part of the limit given last, at least one, in flight under the present configuration, and its semaphores have the limit, queue length and timeout given last |
| CoordinatorRuns.PruneDropsIff | src/concurrency/coordinator.ts:160-175 | Pruning drops a pool exactly when it is idle and its host is one of the 128 used least recently |
| CoordinatorRuns.KeptPoolBreaksLimit | src/concurrency/coordinator.ts:139-158 | In any state with two pools of one host, one idle and one full, acquiring directly from the idle one gets past the limit per host |
| CoordinatorPruning.KeptPoolRun | src/concurrency/coordinator.ts:139-175 | A run from the start that reaches such a state: 256 hosts are looked up, the next one drops the pool of the first, the first is looked up again and filled, and a caller that kept the dropped pool gets past the limit |
| CoordinatorPruning.DirectAcquireExceedsIff | src/concurrency/coordinator.ts:139-158 | Acquiring directly from an idle pool of the present configuration gets past the limit of its host exactly when the charge does not fit beside what is in flight in all pools of the host together |
| CoordinatorPruning.DirectAcquireKeepsIff | src/concurrency/coordinator.ts:139-158 | Acquiring directly from an idle pool of the present configuration keeps the bookkeeping exactly when the table still leads to that pool: the guarantee rests on looking the pool up for every request |
| CoordinatorRuns.StepKeeps | src/concurrency/coordinator.ts:77-201 | Configuring, requests, releases, timers, aborts and shutdown keep the invariant: of two pools made for one host under one configuration, one is idle |
| CoordinatorObject.ConcurrencyCoordinator.PruneIdleHostPools | src/concurrency/coordinator.ts:160-175 | The loop over the older half leaves the tables the specified pruning leaves |
| CoordinatorObject.ConcurrencyCoordinator.HostPool | src/concurrency/coordinator.ts:139-158 | Returns the pool of the host under the present configuration, made if there is none |
| CoordinatorObject.ConcurrencyCoordinator.WithHostSlot | src/concurrency/coordinator.ts:187-193 | A request looks its pool up and asks it for a slot in one step |
| CoordinatorObject.ConcurrencyCoordinator.Configure | src/concurrency/coordinator.ts:77-102 | New settings drop every host pool and keep the invariant |
| CoordinatorObject.ConcurrencyCoordinator.AbortAllQueued | src/concurrency/coordinator.ts:196-202 | Shutdown aborts exactly the waiters of the pools in the table and reports their number |
| CoordinatorUses.ShutdownEmptiesTabled | src/concurrency/coordinator.ts:196-202 | Shutdown empties the queue of every semaphore in the table, counting each waiter, and changes nothing else: not what is in flight, nor the semaphores that are no longer in the table |
| LruInclusion.HitsOfSmallAreHitsOfLarge | src/cache/manager.ts:38-85 | For capacities m <= n, any keys, any clock and any operations: whatever the smaller cache answers, the larger one answers with the same value |
| LruInclusion.StepKeepsInclusion | src/cache/manager.ts:38-85 | Every operation keeps the smaller cache an ordered part of the larger one |
| LruCacheRuns.HitIsLastWrite | src/cache/manager.ts:38-66 | A read returns nothing, or the value last written for the key and neither removed nor expired since |
| LruCacheRuns.LostExactlyWhen | src/cache/manager.ts:38-85 | A live entry is lost by an operation exactly when it is removed, read after its expiry, or at the front of a full cache that takes a new key |
| LruCacheRuns.WriteStaysWithinCapacityIff | src/cache/manager.ts:51-66 | A write keeps the cache within its capacity exactly when it replaces, finds room, or the front can be evicted |
| LruCacheRuns.SizeBounded | src/cache/manager.ts:51-66 | With non-empty keys the cache never holds more than its capacity (one, if the capacity is below one) |
| LruCacheRuns.EmptyKeyUnbounded | src/cache/manager.ts:57 | With the empty key at the front the size grows without bound, because the eviction test takes the empty key for no key |
| LruSurvival.SurvivesIff | src/cache/manager.ts:38-85 | After its last use a key that nobody reads, writes or removes is a hit, with the same value, exactly when it has not expired and at no moment as many other keys were fresher as the cache holds; hits and writes make a key fresher, removals and expired reads take it away, reads that find nothing do not count |
| LruSurvival.SurvivesUsesIff | src/cache/manager.ts:38-66 | With neither removals nor expired reads, the key survives exactly when fewer other keys than the cache holds were hit or written since its last use |
| LruCacheRuns.RecentlyUsedIsHit | src/cache/manager.ts:38-66 | In any cache, one with the empty key included, a key survives if fewer than `maxEntries` other keys are read or written after its last use |
| LruCacheRuns.UseMovesToEnd | src/cache/manager.ts:45-48 | A hit and a write put their key at the end |
| LruCounts.RemovalTakes | src/cache/manager.ts:68-85 | A removal by prefix takes exactly the entries whose key is the prefix followed by anything, one by key the entry of that key, and clearing everything |
| LruCounts.EvictionsAreCounted | src/cache/manager.ts:51-66 | The eviction counter counts exactly the writes that lose an entry of another key, and each of them loses one |
| LruCounts.CounterIsEvictingWrites | src/cache/manager.ts:34-61 | In every run from an empty cache the counter is the number of writes that lost an entry of another key |
| LruCacheRuns.InsertionsAloneDoNotDecide | src/cache/manager.ts:45-48 | A run in which a key is lost from a cache of two although only one key was inserted after its last use: hits on other keys age it too |
| LruCacheObject.MemoryLruCache.Get | src/cache/manager.ts:38-49 | The method leaves the specified state and answer; a hit ends at the end of the map |
| LruCacheObject.MemoryLruCache.Set | src/cache/manager.ts:51-66 | The method leaves the specified state |
| LruCacheObject.MemoryLruCache.DeletePrefix | src/cache/manager.ts:72-81 | The loop over a copy of the keys removes exactly the keys with the prefix and counts them |
| LruCacheObject.MemoryLruCache.Del | src/cache/manager.ts:68-70 | Removes the key and says whether it was there |
| LruCacheObject.MemoryLruCache.Clear | src/cache/manager.ts:83-85 | Removes everything |
| CanonicalJsonFaithful.PrintIsFaithful | src/addons/marketplace.ts:37-50 | Two well-formed values that print alike are equal up to the order of members, at every depth; without collation ties they print alike exactly then |
| CanonicalJsonFaithful.OrderIndependentIff | src/addons/marketplace.ts:37-50 | The text is independent of member order exactly when no object in the value has two keys that the collation cannot tell apart |
| CanonicalJsonFaithful.TiePrintsTwoWays | src/addons/marketplace.ts:42-44 | A value with such a pair has a reordered twin, equal up to member order, that prints as a different text |
| CanonicalJsonInjective.PrintIsRender | src/addons/marketplace.ts:37-50 | Sorting printed members is printing sorted members: the printer is a plain renderer after canonicalization |
| CanonicalJsonInjective.RenderIsInjective | src/addons/marketplace.ts:38-49 | The renderer is injective: two canonical values with the same text are the same value |
| CanonicalJsonStrings.QuoteIsUnique | src/addons/marketplace.ts:46 | A quoted string can be read back: the same text, whatever follows it, comes from the same string (section 7 of RFC 8259) |
| CanonicalJsonStrings.ReadEscaped | src/addons/marketplace.ts:46 | Reading the escaped form of any string of UTF-16 units, lone surrogates included, gives the string back |
| CanonicalJsonText.TextsOfLeaves | src/addons/marketplace.ts:37-50 | Null and undefined are printed as `null`, truth values as `true` and `false`, and a number as its own text |
| CanonicalJsonText.TextOfArray | src/addons/marketplace.ts:38-40 | An array is printed as its items in order, with commas between them, in brackets |
| CanonicalJsonText.TextOfObject | src/addons/marketplace.ts:41-48 | An object is printed in braces, each member as quoted key, colon and value, with commas between them; of two members the one whose key collates first comes first |
| CanonicalJsonText.UndefinedLeavesNoTrace | src/addons/marketplace.ts:41-48 | A member whose value is undefined does not change the text |
| CanonicalJsonText.TextOfUnit | src/addons/marketplace.ts:46-49 | In a string a code unit is printed as its two-character escape, as a six-character escape in lower case for the other controls and lone surrogates, or as itself (section 7 of RFC 8259) |
| CanonicalJsonText.TextOfString | src/addons/marketplace.ts:46-49 | Strings are escaped from left to right and a surrogate pair is printed as it is |
| CanonicalJsonText.NumeralsAreTokens | src/addons/marketplace.ts:49 | Every number in the form in which the runtime writes it, with sign, digits, fraction and exponent, is one of the numbers the other theorems are about |
| StreamsRuns.CapsHold | src/capacity/streams.ts:138-204 | Under any interleaving of reserve, check, roll-back, release and purge in time, the streams admitted per address, per user and in all never exceed their caps, and each counter is the number of callers that hold it |
| StreamsIdentity.CapsPerIdentity | src/capacity/streams.ts:119-204 | In every timely run the admitted streams are at most `maxGlobal` in all, those with one user id, not the empty one, at most `maxPerUser`, and those from one address at most `maxPerIp`, for every cap above zero |
| StreamsRuns.GaugesAreExact | src/capacity/streams.ts:186-204 | The gauges are the numbers of admitted streams and of those with a user |
| StreamsIdentity.GaugesPerIdentity | src/capacity/streams.ts:186-204 | In every timely run two gauges are the number of admitted streams and the third is the number of those with a user id that is not empty |
| StreamsRuns.NothingLeaks | src/capacity/streams.ts:181-204 | Once everybody is rejected or has released, no counter is left and all three gauges are zero |
| StreamsRuns.ReleaseIsIdempotent | src/capacity/streams.ts:191-204 | Calling a release function twice changes nothing the second time |
| StreamsRuns.UncontendedAcquireIff | src/capacity/streams.ts:138-184 | An acquisition that nobody interrupts is rejected exactly when one of its caps is already reached by admitted streams |
| StreamsIdentity.UncontendedAnswer | src/capacity/streams.ts:138-184 | An acquisition that nobody interrupts is refused for the deployment if as many streams as `maxGlobal` are admitted, else for its user if that has as many as `maxPerUser`, else for its address if that has as many as `maxPerIp`, and admitted otherwise |
| StreamsRuns.RacersCanBothLose | src/capacity/streams.ts:145-157 | Two callers that race for one free slot can both be rejected |
| StreamsRefusals.CheckFailsIff | src/capacity/streams.ts:145-157 | A caller that looks at a counter is sent to roll back exactly when more callers hold the counter than its cap admits, admitted or not |
| StreamsRefusals.RefusedIff | src/capacity/streams.ts:138-184 | In every timely run, under any interleaving, a caller is refused because of a counter exactly when more callers held that counter than its cap admits at the moment it looked |
| StreamsRefusals.AdmittedIff | src/capacity/streams.ts:138-204 | In every timely run a caller that is through was admitted exactly when none of its checks found more holders than the cap |
| StreamsRefusals.FewCallersAreNeverRefused | src/capacity/streams.ts:138-184 | With no more callers than the cap of a counter, nobody is refused because of it |
| StreamsRuns.ShortRunsAreTimely | src/capacity/streams.ts:218-226 | Runs shorter than the life of a counter meet no expired counter |
| StreamsRuns.ReserveExactIff | src/capacity/streams.ts:218-226 | A reservation keeps its counter equal to its holders exactly when the counter it finds has not expired |
| StreamsRuns.PurgeExactIff | src/capacity/streams.ts:275-285 | A purge keeps every counter equal to its holders exactly when no counter has expired: it drops expired counters that are still held |
| StreamsCaps.CapsHoldIff | src/capacity/streams.ts:138-285 | In any run with any clock the callers past a check of a counter stay within its cap from first to last, exactly when no check lets a caller by while as many as the cap are past it |
| StreamsCaps.CheckKeepsCapsIff | src/capacity/streams.ts:228-243 | While the counters are true, a check breaks the cap exactly when it looks at an expired counter while as many callers as the cap are past it |
| StreamsCaps.CountersHoldIff | src/capacity/streams.ts:138-285 | In any run counters equal their holders, callers past a check stay within its cap and gauges count the streams, from first to last, exactly when no step reserves an expired counter, looks at one at a full cap or purges one |
| StreamsCaps.StepKeepsIff | src/capacity/streams.ts:138-285 | The same for one step from any state in which everything is true |
| StreamsRuns.ExpiryBreaksCap | src/capacity/streams.ts:218-226 | A run in which an expired counter is restarted below the number of its holders and a cap of one admits two streams |
| StreamsCaps.LateCheckBreaksCap | src/capacity/streams.ts:236-243 | A run over the cap in which every counter is exact: a caller reserves at the last moment of a counter and looks at it when it has expired |
| StreamsCaps.PurgeForgetsAStream | src/capacity/streams.ts:275-285 | A run in which a purge drops the counter of a stream that is still admitted |
| StreamsSafety.StepKeeps | src/capacity/streams.ts:138-285 | Every step of every caller keeps counters, caps and gauges exact |
| StreamsObject.StreamConcurrencyTracker.Acquire | src/capacity/streams.ts:138-204 | Run without interruption, an acquire reserves everything or leaves the counters as they were, and says which scope refused |
| StreamsObject.StreamConcurrencyTracker.ReleaseStream | src/capacity/streams.ts:192-203 | The release function lowers the gauges and the counters of the caller |
| StreamsObject.StreamConcurrencyTracker.DecrementKeys | src/capacity/streams.ts:252-272 | The loop decrements every counter that exists and deletes those that reach zero |
| StreamsObject.StreamConcurrencyTracker.ReserveKey | src/capacity/streams.ts:206-226 | A live counter goes up by one and keeps its end, a missing or expired one starts at one; giving the key back undoes the reservation exactly unless it had found an expired counter; no other counter changes |
| SlotsRuns.SlotsAreExact | src/reliability/circuit.ts:363-454 | In every reachable state the count of a provider or host is the number of its holders and within its limit, the queue lists exactly its waiters, and there are waiters only while every slot is taken |
| SlotsNumbers.AtMostLimit | src/reliability/circuit.ts:363-454 | In every reachable state at most `limit` calls have a slot of one provider and at most twice `limit` one of a host, and a call waits for a provider or host only while exactly that many have one |
| SlotsNumbers.ArrivalBecomes | src/reliability/circuit.ts:363-383 | A new call is turned away if its signal has fired, gets a provider slot if fewer than `limit` calls have one, and waits otherwise; no other call changes |
| SlotsNumbers.CallBecomes | src/reliability/circuit.ts:371-389 | A call with its provider slot is through if it has no host or an empty one, or if fewer than twice `limit` calls have its host; otherwise it is refused if its signal has fired and waits if not; no other call changes |
| SlotsNumbers.SignalBecomes | src/reliability/circuit.ts:424-438 | A signal takes a call that waits for its provider out, leaves one that waits for its host with its provider slot to give back, is only remembered by any other call, and means nothing for a call that gave none |
| SlotsRuns.ClampNeverBites | src/reliability/circuit.ts:445 | Whenever a slot is held its count is at least one, so the clamp at zero never takes effect |
| SlotsRuns.NobodyOvertakes | src/reliability/circuit.ts:415-454 | First come, first served: while an earlier waiter still waits, no later one has the slot |
| SlotsProgress.SchedulesAreFinite | src/reliability/circuit.ts:363-454 | Without new calls, no schedule of steps that change something is longer than the work left |
| SlotsProgress.SomebodyCanMove | src/reliability/circuit.ts:363-397 | With a limit of at least one, while any call is unfinished some call can go on or release: taking provider slots before host slots cannot deadlock |
| SlotsProgress.RestMeansFree | src/reliability/circuit.ts:363-454 | When nobody can move, every call is finished, every count is zero and every queue is empty |
| SlotsProgress.LimitZeroStarves | src/reliability/circuit.ts:411-424 | With a limit of zero a caller waits for ever |
| SlotsProgress.AbortReturnsProviderSlot | src/reliability/circuit.ts:376-389 | A caller aborted while it waits for its host leaves that queue and hands its provider slot to the next waiter, or lowers the count |
| SlotsProgress.ReleaseIsIdempotent | src/reliability/circuit.ts:390-396 | The release function gives back once |
| SlotsSafety.StepKeeps | src/reliability/circuit.ts:363-454 | Acquiring, resuming, aborting and releasing keep the counts balanced and the queues exact |
| SlotsSafety.ReleaseSettles | src/reliability/circuit.ts:442-454 | Releasing an owed slot lowers the count by one or hands the slot to the first waiter |
| SlotsSafety.RefusedAtOnce | src/reliability/circuit.ts:424-438 | A caller whose signal fired before it reached a full host is refused, is not in the queue, and leaves the semaphore as it was |
| SlotsObject.SlotRegistry.Splice | src/reliability/circuit.ts:427-428 | The search and splice of the abort listener takes out the caller, or nothing if it is not queued |
| SlotsSafety.AskIsAnswered | src/reliability/circuit.ts:399-440 | Asking for a slot: the caller gets it exactly when the count was below the limit, and is last in the queue exactly when it was not; nobody else and no other semaphore changes |
| SlotsObject.SlotRegistry.ReleaseSemaphore | src/reliability/circuit.ts:442-454 | The method lowers the count and hands the slot to the first waiter as specified |
| SlotsObject.SlotRegistry.Resume | src/reliability/circuit.ts:371-389 | What a caller does after its promise was settled, with the invariant kept |
| SlotsObject.SlotRegistry.Abort | src/reliability/circuit.ts:426-438 | What a signal does to a caller, with the invariant kept |
| SlotsObject.SlotRegistry.Release | src/reliability/circuit.ts:391-396 | Provider first, then host, once, with the invariant kept |
| CircuitRuns.TrialsAreHalfOpen | src/reliability/circuit.ts:158-245 | In every reachable state a provider with a trial in flight is stored half-open |
| CircuitRuns.OneTrialPerPeriod | src/reliability/circuit.ts:158-166 | In any run from any state, between two half-open trials of one provider there is a moment at which its circuit is not half-open: each half-open period grants at most one trial, whatever the clock does |
| CircuitRuns.TrialsAreFarApart | src/reliability/circuit.ts:144-245 | In every run with a clock that does not go back, two half-open trials of one provider are more than the open time apart |
| CircuitRuns.OpenStaysOpen | src/reliability/circuit.ts:147-153 | Whatever happens within the open time, the circuit stays open, its opening time does not move, and nothing is let through |
| CircuitRuns.OpenAllowsIff | src/reliability/circuit.ts:144-166 | An open circuit lets its trial through exactly when more than the open time has passed |
| CircuitRuns.TrialFailureReopens | src/reliability/circuit.ts:215-245 | Any failure of a trial, an empty result included, reopens the circuit from now on and frees the trial |
| CircuitRuns.TrialSuccessClosesIff | src/reliability/circuit.ts:182-195 | A success closes a half-open circuit, with no failures left, exactly when it is the last one the policy asks for |
| CircuitCounts.SuccessesAreStreak | src/reliability/circuit.ts:172-245 | In any run the successes that count towards closing are those reported since the last failure or the last closing, whatever the state was when they were reported |
| CircuitCounts.FailuresAreBalance | src/reliability/circuit.ts:172-245 | In any run the failures of a circuit are those reported, of whatever kind and in whatever state, less one for each success while it was closed, never below none, and none after the success that closed it |
| CircuitCounts.StreakFromNothing | src/reliability/circuit.ts:172-245 | From an empty registry the count of successes is that of the run, and a provider without reports is closed with no failures |
| CircuitRuns.ReachableAfterSuccessIff | src/reliability/circuit.ts:144-196 | After a success reported in any reachable state, as long as nothing else is reported, the provider is reachable exactly when its circuit was closed, or half-open and this was the last success needed or the trial is still free, or open with its time up and the trial still free |
| CircuitRuns.LateReportShutsOff | src/reliability/circuit.ts:198-245 | A run with a success threshold of one in which a trial succeeds and the provider stays shut off, because an older request reported its failure while the trial was in flight |
| CircuitRuns.SuccessfulTrialReopensTrafficIff | src/reliability/circuit.ts:162-195 | When the success of a trial is the next report after its grant, the provider is reachable again exactly when that success was the last one needed; with a higher threshold it stays shut off until somebody reports another outcome |
| CircuitRuns.TrialBlocks | src/reliability/circuit.ts:162-165 | A half-open circuit whose trial is in flight lets nothing through, however long one waits |
| CircuitRuns.RecoveredButShutOff | src/reliability/circuit.ts:162-195 | A run with a success threshold of two in which the first trial succeeds and nothing is let through from then on |
| CircuitRuns.OpensIff | src/reliability/circuit.ts:182-245 | After any row of reports about it, at any times, a closed circuit is open exactly when one of them was a real failure that brought the count up to the threshold; empty results raise the count without opening, successes lower it, and short of the threshold the count is exact |
| CircuitHistory.PrunedListIsWindowOfHistory | src/reliability/circuit.ts:252-260 | The pruned list of openings is the full history since the last release or noticed expiry, filtered to the window that ends at the last opening |
| CircuitHistory.AutoQuarantineIff | src/reliability/circuit.ts:252-288 | An opening puts the provider in quarantine exactly when, by the full history, it opened often enough within the window and no quarantine is active; the record counts those openings, or none if a lapsed quarantine was noticed just then |
| CircuitCounts.QuarantinedByCount | src/reliability/circuit.ts:252-270 | A failure that opens a circuit changes the quarantines exactly when one plus the number of earlier openings less than the window ago reaches the threshold and no quarantine of the provider lasts |
| CircuitCounts.RecentCounts | src/reliability/circuit.ts:256-258 | What is left of a list of openings are exactly those less than the window ago, each as often as before |
| CircuitHistory.LapseForgetsTheOpening | src/reliability/circuit.ts:252-270 | A run that ends with a quarantine whose record counts no opening: the lapse of the earlier one is noticed while the new opening is noted |
| CircuitHistory.QuarantineLastsExactly | src/reliability/circuit.ts:274-304 | A quarantine lasts exactly until its time, whatever failures happen meanwhile |
| CircuitCounts.HandMadeLasts | src/reliability/circuit.ts:274-289 | A quarantine set by hand counts the openings remembered and lasts for the lifetime given, or the one of the policy, exactly, and for ever if that is not positive |
| CircuitCounts.ReleaseEndsIt | src/reliability/circuit.ts:291-294 | A release ends any quarantine of the provider at once and forgets its openings, and concerns no other provider |
| CircuitObject.ReliabilityRegistry.GetState | src/reliability/circuit.ts:144-155 | The answer is half-open exactly when the circuit was stored so, or open for longer than the open time; only the latter changes anything, and looking twice is looking once |
| CircuitObject.ReliabilityRegistry.IsProbeAllowed | src/reliability/circuit.ts:158-166 | The method gives out the trial of a half-open circuit once |
| CircuitObject.ReliabilityRegistry.RecordSuccess | src/reliability/circuit.ts:172-196 | The method leaves the specified circuit and trials |
| CircuitObject.ReliabilityRegistry.RecordFailure | src/reliability/circuit.ts:198-245 | The method leaves the specified circuit, trials, openings and quarantine |
| CircuitObject.ReliabilityRegistry.NoteCircuitOpened | src/reliability/circuit.ts:252-270 | The method prunes, appends and quarantines as specified |
| CircuitObject.ReliabilityRegistry.StillRecent | src/reliability/circuit.ts:256-258 | The filter keeps exactly the openings within the window |
| CircuitObject.ReliabilityRegistry.IsQuarantined | src/reliability/circuit.ts:295-304 | The answer is yes exactly for a quarantine without an end or with one not yet passed; a lapsed one is removed together with the remembered openings, and no other provider is touched |
| CircuitObject.ReliabilityRegistry.ListQuarantined | src/reliability/circuit.ts:311-316 | Listing removes exactly the lapsed quarantines and returns the active ones |
| Priority.RenumberPlaces | src/addons/manager.ts:329 | Renumbering gives the orders 0 to n-1, each once, never putting an addon before one that precedes it, and changes nothing else |
| Priority.RenumberKeepsList | src/addons/manager.ts:329 | Renumbering does not change the list as users see it |
| Priority.PriorityIndexMap | src/priority.ts:23-29 | The loop builds the map from ids to places in the sorted list |
| Priority.PriorityIndexRanks | src/priority.ts:12-29 | Every addon has its own index below n, and a smaller index never goes to an addon that comes later |
| AddonsEffects.ListedInOrder | src/priority.ts:12-20 | The sorted list has the same addons, lower orders first and, of equal orders, names in collation order |
| FreshId.UniqueProviderId | src/addons/manager.ts:1191-1197 | The search ends and returns the first candidate that no addon has |
| FreshId.FreshIsFree | src/addons/manager.ts:1191-1197 | The id found is new, carries the prefix of addons, and is the plain one if that is free |
| FreshId.FreshIsFirst | src/addons/manager.ts:1191-1197 | The id is the prefix and the base if that is free, else with a hyphen and the first decimal number from two on that makes it free |
| FreshId.CandidatesDiffer | src/addons/manager.ts:1192-1196 | The candidates are pairwise different, because decimal numbers can be read back |
| AddonsRuns.StepKeepsWellFormed | src/addons/manager.ts:1014-1122 | Every mutation keeps provider ids and orders pairwise distinct |
| AddonsRuns.ReorderPlaces | src/addons/manager.ts:1108-1117 | A reordering gives the orders 0 to n-1: requested addons by their last place in the request, then the others in the order of the stored list |
| AddonsEffects.ReorderedBefore | src/addons/manager.ts:1108-1117 | After a reordering one addon comes before another exactly if the request lists it and either not the other or the other later, by the last place of each, or if it lists neither and the one is stored first |
| AddonsRuns.ReorderKeepsUnlistedIff | src/addons/manager.ts:1108-1117 | A reordering keeps the relative priority of the addons it does not list exactly when these stand in the stored list by their priority |
| AddonsRuns.EmptyRequestSwaps | src/addons/manager.ts:1108-1117 | An empty request swaps two addons that are stored against their priority |
| AddonsRegistry.ReconcileMirrors | src/addons/manager.ts:449-484 | Whatever the registry was, a reconciliation makes it list exactly the enabled, stream-capable addons, best first, and leaves the other providers alone |
| AddonsRegistry.ReconcileRefreshesIff | src/addons/manager.ts:449-484 | A reconciliation leaves all providers up to date exactly when it rebuilds them or those it keeps were up to date |
| AddonsEffects.InSyncLists | src/addons/manager.ts:449-484 | When registry and addons are in step, a provider id of an addon is registered exactly if the addon with this id is enabled and offers streams |
| AddonsEffects.InSyncAscends | src/addons/manager.ts:449-484 | When they are in step, of two addon providers in the registry the earlier one belongs to the addon with the lower order |
| AddonsRuns.ReconcilingStepMirrors | src/addons/manager.ts:977-1117 | Install, update, enable, disable, timeout, reorder and reload make the registry mirror the addons |
| AddonsRuns.RemoveMirrors | src/addons/manager.ts:1057-1069 | Removing an addon keeps a mirroring registry mirroring although it does not reconcile |
| AddonsEffects.SetEnabledDoes | src/addons/manager.ts:1071-1086 | After switching, the addon has the flag that was asked for and every other field as before, no other addon changes, and its provider is registered exactly if the flag is on and it offers streams |
| AddonsEffects.SetTimeoutDoes | src/addons/manager.ts:1088-1106 | The addon has the timeout asked for if that is between 1000 and 120000, else the nearer of the two, and every other field as before; no other addon changes; its provider is registered exactly if it is enabled and offers streams |
| AddonsEffects.UpdateDoes | src/addons/manager.ts:977-999 | An addon installed again has the new manifest, its name if that is not empty, and the id, flag, order and timeout it had; no other addon changes; its provider is registered exactly if it is enabled and the new manifest offers streams |
| AddonsEffects.InstallDoes | src/addons/manager.ts:1014-1043 | A new addon has a new id with the prefix of addons, the flag asked for, an order above all others by one, a timeout of 20000, and its id for a name if the manifest has none; the others stay; its provider is registered exactly if it is enabled and offers streams |
| AddonsEffects.RemoveDoes | src/addons/manager.ts:1057-1069 | The addon and its provider are gone, the other addons keep their order in the list, and no other provider goes |
| AddonsEffects.UnknownIdDoesNothing | src/addons/manager.ts:1057-1092 | Switching, timeout, update and removal with an id that no addon has change nothing |
| AddonsRuns.RegistryMirrorsPolicy | src/addons/manager.ts:449-484 | After any mutations, one that reconciles, and any further ones that do not set the playback grants, the registry mirrors the addons, with strictly ascending orders |
| AddonsProviders.ProvidersAreUpToDate | src/addons/manager.ts:1156-1179 | From start-up on and as long as nothing is reloaded, every provider in the registry is built from its addon as it is now |
| AddonsEffects.BuiltFromAddon | src/addons/manager.ts:1156-1179 | From start-up on and as long as nothing is reloaded, every addon provider in the registry was built from the name, the manifest and the timeout its addon has now |
| AddonsProviders.OthersAreUntouched | src/addons/manager.ts:457-461 | Providers that do not belong to addons are never touched, in any run |
| AddonsEffects.ForeignStay | src/addons/manager.ts:449-484 | In every run a provider whose id has not the prefix of addons is registered exactly if it was |
| AddonsEffects.ReloadDoes | src/addons/manager.ts:374-406 | A newer stored state is taken over with its revision and renumbered by order and name, and an id is registered exactly if its addon is enabled and offers streams; a state that is not newer changes nothing |
| AddonsEffects.InitDoes | src/addons/manager.ts:329-344 | Start-up renumbers the stored addons by order and name, keeps the revision, and registers exactly the addons that are enabled and offer streams |
| AddonsProviders.InitMirrorsIff | src/addons/manager.ts:329-344 | After start-up the registry follows the priorities exactly when the live addons were stored in that order |
| AddonsProviders.StartUpCanIgnorePriority | src/addons/manager.ts:329-344 | Two live addons stored against their priority: start-up registers the worse one first |
| AddonsProviders.GrantsMirrorIff | src/addons/manager.ts:176-186 | Setting the playback grants keeps a mirroring registry mirroring exactly when the live addons stand in the list by priority |
| AddonsProviders.GrantsCanUndoAReordering | src/addons/manager.ts:176-186 | A run of start-up, a reordering, which the registry follows, and setting the grants, after which the registry is back in list order |
| AddonsProviders.ReloadRefreshesIff | src/addons/manager.ts:374-406 | A reload leaves the providers up to date exactly when the set or order of their ids changed or every live addon is unchanged |
| AddonsProviders.ReloadCanLeaveStaleProvider | src/addons/manager.ts:374-406 | A reload of an addon whose manifest or timeout changed elsewhere goes on with the old provider |
| AddonsProviders.RevisionsAreMonotone | src/addons/manager.ts:205-221 | In no run does the revision go down, and while it stays the addons are unchanged |
| AddonsObject.AddonManager.constructor | src/addons/manager.ts:329-344 | Start-up numbers the addons and registers the live ones in list order |
| AddonsObject.AddonManager.ReconcileRegistry | src/addons/manager.ts:449-484 | The three loops leave the registry the specified reconciliation leaves |
| AddonsObject.AddonManager.InstallNew | src/addons/manager.ts:1014-1043 | A new addon gets an unused id and the last order |
| AddonsObject.AddonManager.UpdateInstalled | src/addons/manager.ts:977-999 | An installed addon is updated in place and its provider built anew |
| AddonsObject.AddonManager.Remove | src/addons/manager.ts:1057-1069 | Removes the addon and its provider, or reports that there is none |
| AddonsObject.AddonManager.SetEnabled | src/addons/manager.ts:1071-1086 | Switches an addon and reconciles |
| AddonsObject.AddonManager.SetTimeout | src/addons/manager.ts:1088-1106 | Clamps the timeout to 1 to 120 seconds and builds the provider anew |
| AddonsObject.AddonManager.RankOf | src/addons/manager.ts:1110 | The map of the request holds the last place of every id |
| AddonsObject.AddonManager.Reorder | src/addons/manager.ts:1108-1122 | The loops leave the specified orders and the registry follows |
| AddonsObject.AddonManager.ReloadFromStorage | src/addons/manager.ts:374-406 | A newer stored state is taken over, an older one ignored |
| AddonsObject.AddonManager.SetPlaybackGrants | src/addons/manager.ts:176-186 | Every enabled provider is built anew in list order |
| SingleFlight.AtMostOneRuns | src/cache/singleFlight.ts:23-46 | Without a reset, at most one execution per key runs at any time |
| SingleFlight.CallGetsRunning | src/cache/singleFlight.ts:23-46 | A call gets the promise of the execution of its key that runs, or of a new one; it never gets an old result |
| SingleFlight.JoinersShareTheOutcome | src/cache/singleFlight.ts:24-29 | Everybody who joined an execution gets the outcome it settled with, for ever |
| SingleFlight.MetricsAreExact | src/cache/singleFlight.ts:48-64 | Calls are executions plus coalesced calls, and the size of the table is the number of functions that run |
| SingleFlight.CountsSinceReset | src/cache/singleFlight.ts:23-71 | After a reset, in whatever state it found the group, the executed ones are the executions started since and the coalesced ones are the other calls since |
| SingleFlight.ResetTracksIff | src/cache/singleFlight.ts:66-71 | A reset keeps the table in step exactly when nothing runs |
| SingleFlight.ResetDoublesWork | src/cache/singleFlight.ts:66-71 | A reset while a function runs lets a second execution of its key start |
| SingleFlight.SettlingRemovesAnothersEntry | src/cache/singleFlight.ts:36-38 | Then the older execution removes the entry of the newer one when it settles, and a third can start |
| SingleFlight.ThrowAtOncePoisons | src/cache/singleFlight.ts:32-44 | After a function has thrown before returning a promise, every later call of the key gets that failure and nothing runs for it until a reset |
| SingleFlight.PoisonedIff | src/cache/singleFlight.ts:32-44 | Without resets, a key is poisoned after a run exactly when it was before or some call of the run started an execution for it whose function threw before it returned a promise |
| SingleFlight.SecondCallGetsTheThrow | src/cache/singleFlight.ts:32-44 | A run of two calls in which the first function throws at once and the second caller gets that failure although nothing runs |
| SwrObject.SingleFlightGroup.Do | src/cache/singleFlight.ts:23-46 | The method joins or starts as specified, a function that throws at once included |
| SwrObject.SingleFlightGroup.Finish | src/cache/singleFlight.ts:33-39 | Settling removes the key, whatever its entry is |
| SwrRuns.LabelsAreTrue | src/cache/swr.ts:36-111 | In every interleaving a value labelled fresh was written for its key at most its lifetime ago, and one labelled stale longer ago than that and at most lifetime plus grace ago |
| SwrRuns.MissIff | src/cache/swr.ts:42-71 | The store never drops an envelope before it is stale: a read that decides at once is a miss exactly when nothing is stored or the envelope is stale |
| SwrRuns.OneFetchPerKey | src/cache/swr.ts:63-87 | In every interleaving in which the flight table is never reset while a fetch runs, at most one fetch per key runs |
| SwrRuns.CallsAreCounted | src/cache/singleFlight.ts:48-64 | Without a reset, every decision that is not fresh started a fetch or was coalesced into one |
| SwrRuns.ResetKeepsOneFetchIff | src/cache/manager.ts:312-325 | A reset, the second half of clearing everything, keeps one fetch per key in all further interleavings exactly when nothing runs at that moment |
| SwrRuns.ClearingDoublesTheFetch | src/cache/manager.ts:312-325 | A run in which everything is cleared while a fetch runs and the next request starts a second fetch of the same key |
| SwrRuns.RefreshIsUnderWay | src/cache/swr.ts:52-71 | A decision that is not fresh leaves a fetch of its key running, and a miss waits for it |
| SwrRuns.WritesComeFromFetches | src/cache/swr.ts:64-87 | Whatever was written for a key was fetched by an execution for that key, which hands its callers the same value |
| SwrLifetimes.StoredOnTerms | src/cache/swr.ts:63-111 | In every interleaving whatever the store holds was written for its key with the lifetime and the grace period of one of the requests for this key, its envelope ends at exactly these times, and the store keeps it for the two together |
| SwrLifetimes.StoreIsLruRun | src/cache/swr.ts:63-111 | In every interleaving the store goes through exactly the run of the cache in which each request looks its key up, each write puts its envelope under its key for both lifetimes together, and each invalidation removes, so that what is proved of runs of the cache holds of it |
| SwrLifetimes.DecidesByAge | src/cache/swr.ts:42-87 | A request is answered fresh up to the end of what it read and stale up to the end of its grace, and otherwise waits for the call it makes; it joins the fetch of its key, or starts one with its own lifetimes, exactly when it is not answered fresh |
| SwrLifetimes.WritesAreFetched | src/cache/swr.ts:73-111 | In every run each write has the value of a fetch of its execution and the moments at which that was fetched and stored |
| SwrLifetimes.OutcomeIs | src/cache/swr.ts:73-87 | An execution that is done returns the value it has written, one that fails throws its error, and the first of the two counts |
| SwrLifetimes.RequestsAreAsked | src/cache/swr.ts:36-62 | The requests of a run are its reads in order, each with the key and the lifetimes it was made with |
| SwrObject.StaleWhileRevalidate.GetOrFetch | src/cache/swr.ts:42-71 | The method decides and joins or starts a fetch as specified |
| SwrObject.StaleWhileRevalidate.WriteEnvelope | src/cache/swr.ts:96-111 | The method writes the envelope and the store keeps it for lifetime plus grace |
| Locks.MutualExclusion | src/jobs/locks.ts:74-87 | In every run with distinct tokens, at most one handle of a resource is unreleased and unexpired at any moment |
| Locks.AcquiresIff | src/jobs/locks.ts:74-87 | An acquire succeeds exactly when no handle of the resource is unreleased and unexpired |
| LocksLeases.AcquiredFor | src/jobs/locks.ts:74-87 | A successful acquire at `now` returns a handle that ends at `now + ttl`; as long as that handle is neither released nor extended and nobody takes over after its end, the lock is taken at x exactly for x before `now + ttl`, through any proper run, and every acquire before that is refused |
| LocksLeases.ExtendedFor | src/jobs/locks.ts:155-161 | A successful extension makes handle and lease end at its own moment plus its lifetime, with the same guarantee from then on |
| Locks.HoldsIff | src/jobs/locks.ts:117-161 | Release and extend succeed exactly for the unreleased handle whose end is the end of the lease |
| Locks.StaleHandleIsHarmless | src/jobs/locks.ts:117-161 | A handle that lost its lease never affects any lease again, whatever is tried with it |
| Locks.TakeoverMakesStale | src/jobs/locks.ts:74-87 | Taking over a lock makes every earlier handle of it stale |
| Locks.WorkMayOutlastLease | src/jobs/locks.ts:74-87 | A holder whose work outlasts its lease works beside the next holder |
| Locks.ReusedTokenReleasesAnothersLease | src/jobs/locks.ts:46-50 | With one token used twice, an expired handle releases the lease of another; equal tokens are the whole cause, because with distinct tokens only the owning handle affects a lease (`HoldsIff`, `StaleHandleIsHarmless`) |
| LocksObject.DistributedLockService.TryAcquire | src/jobs/locks.ts:74-87 | A handle is returned exactly when the lock is free |
| LocksObject.DistributedLockService.TryRelease | src/jobs/locks.ts:117-122 | The lease goes exactly when it carries the handle's token |
| LocksObject.DistributedLockService.TryExtend | src/jobs/locks.ts:155-161 | Lease and handle get the same new end exactly when the token matches |
| FileSelection.ExactTagWins | src/debrid/fileSelection.ts:233-372 | If a video that is no sample is tagged with exactly the episode, the chosen file is a video, no sample, tagged with or in a range that covers the episode |
| FileSelection.MovieGetsProperVideo | src/debrid/fileSelection.ts:233-372 | For a movie, if there is a video that is no sample, the chosen file is one |
| FileSelection.WinnerIsFirstBest | src/debrid/fileSelection.ts:326-329 | The winner has the highest score and is the first file of those that share it |
| FileSelectionScores.ScoredOutcome | src/debrid/fileSelection.ts:326-362 | Without a valid index the first file with the highest score decides: nothing is chosen if its container is not one of the known ones, else it is chosen, and the verdict is exact above 1500, multi-episode or anime above 1000, best scoring above 0, and low confidence otherwise |
| FileSelectionScores.CandidatesAreBest | src/debrid/fileSelection.ts:326-372 | The candidates reported with a choice are the five best files, or all if there are fewer, best first, each once and with its score, and no file left out has a higher score |
| FileSelectionScores.SmallerTwinIsNotChosen | src/debrid/fileSelection.ts:239-343 | Of two files of at least 30 MB that agree in extension, sample flag, tag and range, one that is smaller by more than a fiftieth of the largest file is never chosen |
| FileSelectionScores.SizeIsRounded | src/debrid/fileSelection.ts:268-269 | The points for a size are the whole number nearest to fifty times its share of the largest, halves upwards: 0 for an empty file, 50 for the largest |
| FileSelectionScores.SizeIsMonotone | src/debrid/fileSelection.ts:268-269 | A larger file never gets fewer points for its size, and gets more if it is larger by more than a fiftieth of the largest |
| FileSelectionScores.ScoreInNumbers | src/debrid/fileSelection.ts:239-323 | The score is the size points plus the worth of the container (50 down to 5, -500 if unknown, -10000 if it is known not to be a video), -5000 for a sample, -300 for a file below 30 MB that is not empty, and for an episode 2000, 1800, 1500, -4000 or -100 by its tag |
| FileSelection.NothingChosenIff | src/debrid/fileSelection.ts:329-343 | No file is chosen exactly when the winner is not a video |
| FileSelection.MovieNothingChosenIff | src/debrid/fileSelection.ts:233-343 | For a movie no file is chosen exactly when there is no proper video and either some non-sample with an unknown extension or no video at all |
| FileSelection.UnknownExtensionShadowsVideo | src/debrid/fileSelection.ts:329-343 | A file with an unknown extension can win and then nothing is chosen although there is a video |
| FileSelection.GoodVerdictsIff | src/debrid/fileSelection.ts:345-362 | The verdict exact is given exactly for a winner that is a proper video covering the episode by tag or range, or by its absolute number alone when it is not tiny; the multi-episode or anime verdict exactly for a tiny one counted by its absolute number, so never for a range |
| FileSelection.GoodVerdictMeansCovered | src/debrid/fileSelection.ts:345-362 | A good verdict is only given for an episode request and a proper video whose tag, range or absolute number is the episode |
| FileSelection.RangeIsCalledExact | src/debrid/fileSelection.ts:350-352 | The verdict exact is also given for a range that merely covers the episode |
| FileSelection.AbsoluteIsCalledExact | src/debrid/fileSelection.ts:350-352 | The verdict exact is also given in season 0 for an absolute number, although neither tag nor range covers the episode |
| FileSelection.ExplicitIndexIsFinal | src/debrid/fileSelection.ts:196-231 | A valid explicit index is obeyed exactly when it names a video, and nothing else is tried |
| FileSelectionScores.ExplicitOutcome | src/debrid/fileSelection.ts:196-231 | An index that is a place in the list is obeyed when the file there has a known container; otherwise nothing is chosen and no candidates are reported |
| FileSelection.TotalIsPoints | src/debrid/fileSelection.ts:239-323 | The score is explained by its reasons: apart from the size it is the sum of their weights |
| FileSelection.ScoreFile | src/debrid/fileSelection.ts:236-323 | One turn of the loop computes the specified score and reasons |
| FileSelection.ScoreAndSelectFile | src/debrid/fileSelection.ts:180-372 | The loop, the sort and the thresholds give the specified selection |

## Left out

- Redis paths of the stream counters, the cache and the locks: foreign calls with no visible semantics; the model is the in-memory mode.
- Promises and timers: a step runs to its next suspension point, and a timer or a signal is a step that may happen at any time while it is armed; that a timer fires in the end is not modelled.
- Integers are unbounded and times are exact; NaN, infinities and the rounding of floating point are not modelled. The size score of a file is rounded from the exact quotient.
- Text: lower-casing of host names and file extensions, regular expressions of episode tags, and the collation of names are inputs. The collation is any total preorder given by a place on the real line.
- CanonicalJson: a number is represented by the text the runtime prints for it, objects by their enumerable members in the order of enumeration, and values with their own `toJSON` are not part of this model; the hash is left out.
- CanonicalJson: the language enumerates integer-like keys first and in numeric order, so a reordered twin whose tied keys are integer-like may not be constructible; OrderIndependentIff and TiePrintsTwoWays range over all orders of members.
- FileSelection: MovieNothingChosenIff has no counterpart for episodes, where the scores of samples, unknown extensions and far-off tags overlap; there NothingChosenIff decides by the file that wins.
- Slots: a provider whose id starts with `host:` would share a semaphore with that host; the model keeps the two kinds of keys apart. Changing the concurrency limit while calls are in flight is not modelled.
- Circuit: metrics, the negative cache, the kind and time of the last failure and the reconfiguration of quarantine at run time are left out; they do not decide whether a request goes through.
- Streams: the life of a counter is an input in milliseconds; the program rounds the configured one up to whole seconds.
- StreamsObject.StreamConcurrencyTracker.Acquire: runs the three scopes in one loop over the caller's plan and without interruption; interleavings are covered by the specification, where each reserve, check and roll-back is its own step.
- Coordinator: the named pools are single semaphores under fixed names and are left out; the semaphores of hosts are values in an arena whose positions stand for object identity, so CoordinatorObject does not hold WeightedSemaphore objects.
- Addons: fetching, validating and classifying a manifest, sealing of URLs, debrid settings and persistence are left out; a manifest and its URLs are one opaque value, and whether it offers streams is an input. Stored ids are taken to be distinct and to carry the prefix of addons, as every id the program makes is.
- Addons: finding the installed addon that an import updates compares URL fingerprints; the model is given its id.
- FileSelection: an extension that names a member of the runtime's object prototype (`constructor`) is looked up in the extension table like any other; in the model it is unknown. The confidence is a function of the verdict and is left out.
- Swr: text in the cache that is not an envelope counts as a miss and is not modelled, and neither is the callback after a revalidation.
- LocksObject: `withLock` is an acquire, the steps of the function and a release; the theorems about runs cover it, there is no method for it.
- Semaphore: `withSlot` is an acquire and a release; names and error texts are left out.
- Job engine, cluster bus, health status, budgets, catalog normalization, routing and the user interface: they would add only easy members or rest on code that is not part of this model.
