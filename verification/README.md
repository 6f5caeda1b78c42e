# Verified models of the data hub and the data platform

Dafny models of the parts of this repository whose guarantees span several functions, with proofs of
those guarantees for every input, every run or every reachable state.  `dafny verify dfyconfig.toml`
checks the whole project.

What the source changes in place is a class here, and each method is proved to compute a function of
the old state; the laws are then proved of those functions, and the modules whose names end in `Laws`
say in terms of the fields themselves what each operation does.  Threads, processes and failures are
modelled as steps or as arbitrary parameters, so that a law over runs holds for every interleaving
and every fault.  Days and instants are integers; money, rates and times of the limiter are reals.

| files | what they model |
|---|---|
| `Models`, `RunStore`, `MetaRepository`, `RunLaws`, `CallLaws` | job runs and the in-memory repository: creation, claiming, outcomes, retries, the dependency gate, watermarks |
| `Runtime`, `RuntimeLaws`, `StepLaws`, `WatermarkLaws`, `RuntimeApp` | scheduler, dispatcher and workers as a step relation, its invariants over all runs, and the role methods themselves |
| `TaskGraph` | the task registry and its depth-first cycle check |
| `CacheModel`, `MemoryCache`, `CacheLaws`, `SingleFlight` | the hub's cache with expiry, least-recent eviction and byte budget, and its protocol between threads |
| `EntityTimeline`, `CodeIndex`, `EntityRegistry`, `RegistryService` | the append-only entity log read as a timeline, and its code index |
| `BarStore`, `BarSync`, `BarLaws` | point-in-time storage of daily bars |
| `CacheCodec`, `LeaseLocks`, `LayeredCache`, `CrossProcess`, `Generations` | the two-layer fail-open cache, its codec, its locks, its single flight across processes and its domain generations |
| `RateLimiter`, `BaostockSession`, `Factors`, `FactorLaws`, `Arrangement` | the token bucket, the shared BaoStock login, step factors, price adjustment and the sorting it uses |
| `Executions`, `Options` | induction over runs; the optional value |

## Where the code falls short of its description

Each of these is kept as the code has it, with an input that shows it and a condition that says exactly
when the promise is met.

- A name change whose end lies more than a day before its start is accepted and rewrites the past
  (`EntityTimeline.InvertedWindowRewritesPast`, `PastIsKeptExactlyWhenOrdered`).
- A name change dated before a code change gives earlier days the later code, which the code index does
  not; rows and index stay together exactly when every day rewritten already tells the current code
  (`EntityRegistry.BackdatedRenameDisagrees`, `RenameAgreesExactlyWhen`).
- `put` runs outside the `try` of `get_or_load`, so a size estimate that raises leaves the flight open
  and every later caller of the key that does not force waits; exactly a forced caller that finishes
  ends it (`SingleFlight.SizeErrorStrandsFollower`, `RaisingSizeStrands`, `StrandedForGood`,
  `OrphanLeavesExactlyByForcedCaller`).
- The layered cache promises that unreadable bytes count as a miss.  `decode` lets an error out for an
  infinite version number, for JSON nested too deep and for an Arrow stream cut short, and a tuple or a
  key that is not a text comes back as something else (`CacheCodec.DecodesExactly`,
  `RoundTripsExactlyWhenPlain`, `LayeredCache.TransparentExactlyWhen`).
- The lookup is not repeated once the L2 lock is held, so a second process can load again right after the
  first has stored the value.  A process that is not loading when the value is stored never will exactly
  when it is outside the call then (`CrossProcess.SecondLoadWithoutWaiting`, `NeverLoadsExactlyWhenOutside`).
- Generations are described as monotone.  Two threads of one process that bump at once can lower the
  shared counter although L2 never fails; it never falls exactly when each process bumps from one thread
  (`Generations.TwoBumpersCanLowerIt`, `MonotoneExactlyWhenOneBumperEach`).
- A request for a negative number of tokens can overfill the bucket; a request keeps every bucket within
  its bounds exactly when it is not negative (`RateLimiter.NegativeRequestOverfills`,
  `KeepsEveryBucketExactlyWhen`).
- An adapter used after `close` holds a login that nothing gives back.  A schedule that closes all its
  adapters leaves no holder, whatever the service does, exactly when none is tried after its close
  (`BaostockSession.UseAfterCloseLeaks`, `LeavesNoHolderExactlyWhen`).
- A login lost to a connection failure is logged out only by way of a later one; all adapters closed, the
  server is left without a login exactly when every lost login was followed by a new one
  (`BaostockSession.LostLoginIsNeverLoggedOut`, `AllClosedMeansLoggedOut`).
- A restatement written while the stored version is dated in the future does not become the latest
  version (`BarStore.EarlyRestatementIsHidden`, `RestatementShowsIff`).

## Model

| member | source | states |
|---|---|---|
| MetaRepository.InMemoryMetaRepository.Create | src/fin_data_platform/runtime/repository.py:175-213 | refuses a malformed key, refuses a key that a live or succeeded run has, and otherwise adds one queued run under the next id |
| MetaRepository.InMemoryMetaRepository.ClaimNext | src/fin_data_platform/runtime/repository.py:215-247 | claims nothing exactly when no run is due in a free scope; otherwise the candidate that comes first by priority and id, and changes only that run |
| MetaRepository.InMemoryMetaRepository.FinishRun | src/fin_data_platform/runtime/repository.py:249-275 | the whole new table; a run that is no longer running is returned unchanged |
| MetaRepository.InMemoryMetaRepository.FailRun | src/fin_data_platform/runtime/repository.py:282-294 | back to the queue with the next attempt and a back-off while attempts remain, dead after the last one |
| MetaRepository.InMemoryMetaRepository.InterruptAll | src/fin_data_platform/runtime/repository.py:299-310 | exactly the running runs whose worker label starts with the prefix become interrupted, and their number is returned |
| MetaRepository.InMemoryMetaRepository.CountQueued | src/fin_data_platform/runtime/repository.py:339-345 | the number of queued and retrying runs |
| MetaRepository.InMemoryMetaRepository.Ready | src/fin_data_platform/runtime/repository.py:347-381 | every declared parent has a run of the same scope and window that meets the condition |
| MetaRepository.InMemoryMetaRepository.AdvanceWatermark | src/fin_data_platform/runtime/repository.py:401-415 | the watermark never goes back and is at least the time given |
| RunLaws.EveryCallKeepsTable | src/fin_data_platform/runtime/repository.py:145-310 | every call keeps the table invariant: one running run per dataset and scope, one live or succeeded run per key, attempts within budget |
| RunLaws.EveryCallEvolves | src/fin_data_platform/runtime/repository.py:145-310 | no call removes a run, changes its identity, or leaves a final status |
| RunLaws.OnlyClaimStarts | src/fin_data_platform/runtime/repository.py:215-247 | only a claim makes a run running and only a creation adds one |
| RunLaws.SettledRunsKeepTheirRecord | src/fin_data_platform/runtime/repository.py:249-297 | a run that left the running state for good keeps its record under every later call |
| RunLaws.LateCallsChangeNothing | src/fin_data_platform/runtime/repository.py:249-297 | a succeed, fail or interrupt changes nothing at all exactly when its run is not running, queued and retrying runs included |
| RunLaws.KeyIsIdempotent | src/fin_data_platform/runtime/repository.py:175-213 | in a sound table two live or succeeded runs of one key are the same run, and none follows a success |
| RunLaws.CreationIsIdempotent | src/fin_data_platform/runtime/repository.py:175-213 | refused exactly for a malformed or taken key; after a creation every repetition of the intent is a duplicate |
| RunLaws.ReadyStays | src/fin_data_platform/runtime/repository.py:347-381 | a gate that was open stays open whatever the workers do, so checking first and creating later is safe |
| RunLaws.ExecutionUsesAttempt | src/fin_data_platform/runtime/repository.py:215-294 | one claim and its outcome strictly lower the attempts left over all claimable runs |
| CallLaws.CreationIs | src/fin_data_platform/runtime/repository.py:175-213 | refused exactly when kind and version misfit, a duplicate exactly when a queued, retrying, running or succeeded run has the same kind, job, scope, window and version; otherwise one queued run with every field of the intent |
| CallLaws.ClaimIs | src/fin_data_platform/runtime/repository.py:215-247 | a claimed run waits, is due, has nothing running in its dataset and scope, and no such run has a smaller priority number or, on a par, a smaller id |
| CallLaws.SettlingIs | src/fin_data_platform/runtime/repository.py:249-297 | every field of a run after a success, a failure with or without attempts left, and an interrupt; a run that is not running is left alone |
| CallLaws.BackoffDoubles | src/fin_data_platform/runtime/repository.py:286-292 | the pause before a retry starts at five seconds and doubles with each attempt |
| CallLaws.StopIs | src/fin_data_platform/runtime/repository.py:299-310 | exactly the running runs whose worker name starts with the prefix are interrupted, as stopped by timeout |
| CallLaws.GateIs | src/fin_data_platform/runtime/repository.py:347-381 | the gate is open exactly when each declared parent has a run of the scope and window: any, a finished or a succeeded one, as the edge asks |
| CallLaws.AdvanceIs | src/fin_data_platform/runtime/repository.py:401-415 | after an advance the marked days of its track are those marked before and those up to its time |
| RuntimeLaws.InvOverRuns | src/fin_data_platform/runtime/roles.py:113-268 | the invariant of the whole system holds in every state that scheduler, dispatcher, workers, interrupts and pool stops can reach, step by step |
| RuntimeLaws.ScopesAreExclusive | src/fin_data_platform/runtime/repository.py:215-247 | in every reachable state at most one run is running per dataset and scope, and exactly one worker thread holds it |
| RuntimeLaws.KeysAreIdempotent | src/fin_data_platform/runtime/repository.py:175-213 | over whole runs: one live or succeeded run per key, and once a key has succeeded it never gets another run |
| RuntimeLaws.SettledOverRuns | src/fin_data_platform/runtime/repository.py:249-310 | a run that has succeeded, died or been interrupted has the same record in every later state |
| RuntimeLaws.RetriesAreBudgeted | src/fin_data_platform/runtime/repository.py:215-294 | in every reachable state 1 <= attempt <= max(1, max_attempts), and a run has been claimed no more often than that |
| RuntimeLaws.BackPressureHolds | src/fin_data_platform/runtime/roles.py:129-152 | queued, retrying and running runs together never exceed the queue limit plus the number of worker threads, though count, gate and creation are separate steps |
| RuntimeLaws.ParentsComeFirst | src/fin_data_platform/runtime/roles.py:129-152 | every run has, for each declared parent, a matching run with a smaller id that meets the condition in the same state |
| RuntimeLaws.TrappedJobsNeverRun | src/fin_data_platform/runtime/repository.py:347-381 | jobs of a group in which each has a parent inside the group have no runs |
| RuntimeLaws.CyclesNeverRun | src/fin_data_platform/runtime/registry.py:202-220 | no job on a dependency cycle ever gets a run, in any reachable state |
| RuntimeLaws.NoDeadlock | src/fin_data_platform/runtime/repository.py:347-381 | in an acyclic registry, while some job has not succeeded for a scope and window, some unsucceeded job passes the gate, and its creation is refused only because it is already live |
| WatermarkLaws.DueWindowStartsInTime | src/fin_data_platform/runtime/windows.py:35-52 | a window offered for a dataset and scope starts no later than the day after its watermark and ends on the last closed day |
| WatermarkLaws.CallbackCovers | src/fin_data_platform/ingestion/tasks.py:58-71 | every day that a success callback adds below the watermark lies in the window of a run whose executor returned |
| StepLaws.CallbackMarks | src/fin_data_platform/ingestion/tasks.py:58-71 | after a success callback the marked days of its track are those marked before, the run's days before its last, and its last one exactly when there were rows or the day is over; nothing else ever moves a watermark |
| StepLaws.ProviderOffers | src/fin_data_platform/runtime/windows.py:35-52 | a window is offered exactly when some day up to the last closed one is after the watermark, or without one from the configured start on; it holds exactly those days, and the intent carries the task's own fields |
| StepLaws.TickingIs | src/fin_data_platform/runtime/roles.py:56-77 | a scheduling step hands over exactly what the provider offers |
| StepLaws.HeldBackIsOfferedAgain | src/fin_data_platform/ingestion/tasks.py:63-71 | over any run: a last day that a success without rows leaves unmarked lies in the window of every later round from its close on, until it is marked |
| StepLaws.CountingIs | src/fin_data_platform/runtime/roles.py:131-135 | an intent passes back-pressure exactly while fewer runs wait than the limit |
| StepLaws.CheckingIs | src/fin_data_platform/runtime/roles.py:136-145 | an intent passes the gate exactly when each declared parent has a run as its edge asks |
| StepLaws.CreatingIs | src/fin_data_platform/runtime/roles.py:146-152 | what passed both becomes one new queued run unless its version misfits or its work is live or done |
| StepLaws.ClaimingIs | src/fin_data_platform/runtime/roles.py:185-192 | a thread starts a due run of smallest priority number and then id, and holds it as started |
| StepLaws.ReportingIs | src/fin_data_platform/runtime/roles.py:193-233 | a report settles the thread's own run, if that still runs, with every field given |
| StepLaws.ReturningIs | src/fin_data_platform/ingestion/tasks.py:41-56 | an executor can return exactly for a registered job and, where it keeps a watermark, with a full window and its own scope |
| WatermarkLaws.CoverOverRuns | src/fin_data_platform/runtime/roles.py:185-233 | the coverage invariant holds in every state reached with windows from the provider |
| WatermarkLaws.WatermarkIsCovered | src/fin_data_platform/ingestion/tasks.py:41-74 | in every reachable state every day from the configured start to the watermark lies in the window of a run whose executor returned, and every run of the scope starts by the frontier, whatever retries, interrupts and late callbacks happen |
| MetaRepository.InMemoryMetaRepository.SyncDefs | src/fin_data_platform/runtime/repository.py:158-161 | definitions are added or replaced one by one, and those not declared stay |
| TaskGraph.TaskRegistry.Defs | src/fin_data_platform/runtime/registry.py:143-154 | the definition of each task in registration order |
| RuntimeApp.SyncMetadata | src/fin_data_platform/runtime/app.py:82-88 | start-up is refused, changing nothing, exactly when a task is badly declared or the graph is cyclic; otherwise the stored edges and definitions mirror the registry |
| RuntimeApp.ValidatedStartCannotDeadlock | src/fin_data_platform/runtime/app.py:82-88 | after a start that was not refused, a scope and window in which no unsucceeded job passes the gate is one in which all have succeeded |
| RuntimeApp.Tick | src/fin_data_platform/runtime/roles.py:56-77 | one intent for each selected job that has wanted days, in registration order, over exactly those days and with the task's own fields |
| RuntimeApp.Dispatcher.Submit | src/fin_data_platform/runtime/roles.py:129-152 | which of the five outcomes is given, in the order of the checks and in terms of waiting runs, parents and live twins; only a creation changes the table, by one queued run with the intent's fields |
| RuntimeApp.WorkerPool.Execute | src/fin_data_platform/runtime/roles.py:193-233 | every field of the settled run for a success, a failure and an unregistered job; a callback that does not raise marks exactly the days the run has done, and one that raises does not undo the success |
| RuntimeApp.WorkerPool.ExecuteOnce | src/fin_data_platform/runtime/roles.py:185-233 | idle exactly when nothing is due; otherwise a due run of smallest priority and id has been claimed and settled, and no other run changed |
| RuntimeApp.WorkerPool.RunPending | src/fin_data_platform/runtime/app.py:211-216 | terminates with nothing due whatever the executors do, and executes at most as many runs as attempts were left |
| RuntimeApp.ExecutionKeepsTable | src/fin_data_platform/runtime/roles.py:185-233 | one execution keeps the table sound and strictly lowers the attempts left |
| RuntimeApp.ExecutionIs | src/fin_data_platform/runtime/roles.py:185-233 | one execution takes the first due run, settles it, marks the days it has done and touches nothing else |
| TaskGraph.DepthFirst.Visit | src/fin_data_platform/runtime/registry.py:206-215 | the node and whatever it newly reaches are finished, earlier colours and reports stay, grey nodes are exactly the path, and while nothing was reported the finished nodes stay in parents-first order |
| TaskGraph.DepthFirst.Follow | src/fin_data_platform/runtime/registry.py:208-214 | an edge to a grey parent is reported and one to a new parent followed; while nothing was reported the parent is finished afterwards |
| TaskGraph.DepthFirst.Search | src/fin_data_platform/runtime/registry.py:202-220 | terminates, and reports no error exactly when the graph of registered tasks is acyclic |
| TaskGraph.ReportedPathHoldsCycle | src/fin_data_platform/runtime/registry.py:211-212 | every reported path ends in a real cycle of declared edges |
| TaskGraph.OrderedIsAcyclic | src/fin_data_platform/runtime/registry.py:202-220 | an order of all tasks with parents first leaves no cycle |
| TaskGraph.MinimalMember | src/fin_data_platform/runtime/registry.py:202-220 | every non-empty group of an acyclic graph has a member without a parent in the group |
| TaskGraph.TaskRegistry.Register | src/fin_data_platform/runtime/registry.py:88-92 | a second registration of a job is refused and changes nothing |
| TaskGraph.TaskRegistry.Dependencies | src/fin_data_platform/runtime/registry.py:156-165 | exactly the declared edges |
| TaskGraph.TaskRegistry.Validate | src/fin_data_platform/runtime/registry.py:167-185 | silent exactly when every task is well declared and the graph is acyclic; each missing parent is reported, and each reported cycle is real |
| MemoryCache.MemoryCache.Lookup | src/fin_data_hub/cache.py:104-116 | a hit becomes the most recent key, an expired entry is removed, and the counters say which |
| MemoryCache.MemoryCache.Contains | src/fin_data_hub/cache.py:118-127 | answers like a lookup but leaves order and counters alone |
| MemoryCache.MemoryCache.Store | src/fin_data_hub/cache.py:129-146 | refused exactly when oversized, and then nothing changes; otherwise inserted, evicted and, every 128th time, swept; the byte total stays the sum of the sizes and the evictions are counted |
| MemoryCache.MemoryCache.Evict | src/fin_data_hub/cache.py:211-217 | the popping loop stops at exactly the longest most-recent suffix that fits both limits |
| MemoryCache.MemoryCache.Sweep | src/fin_data_hub/cache.py:219-227 | removes exactly the expired keys |
| MemoryCache.PoppedIsEvicted | src/fin_data_hub/cache.py:211-217 | popping one at a time gives the longest fitting suffix |
| CacheModel.AcceptedPutKeepsLongestSuffix | src/fin_data_hub/cache.py:129-146 | an accepted put leaves exactly the longest most-recent suffix of the use order, new key last, that fits both limits, with kept entries untouched |
| CacheModel.EvictionKeepsLongestSuffix | src/fin_data_hub/cache.py:211-217 | what eviction keeps is a suffix of the order that fits, with its entries |
| CacheModel.LimitsAlwaysHold | src/fin_data_hub/cache.py:65-227 | after any operations both limits hold and order, entries and sizes list the same keys |
| CacheLaws.HitIsLastAccepted | src/fin_data_hub/cache.py:104-116 | a hit answers the value of the last accepted put that nothing removed since, at a time before that put's own time to live is over, or the default one if it gave none |
| CacheLaws.FoundWhileItLives | src/fin_data_hub/cache.py:129-146 | while its entry is kept, a stored value is found at t exactly when t < put time + own time to live, without one t < put time + default, with neither always |
| CacheLaws.StoredIsLastAccepted | src/fin_data_hub/cache.py:129-146 | after any operations every stored entry is the last accepted put of its key since its removal, with its value, size and end of life |
| CacheLaws.RemovalIs | src/fin_data_hub/cache.py:104-189 | what each operation but an accepted put removes: an entry seen to be over, an invalidated one, or all |
| CacheLaws.SweepIs | src/fin_data_hub/cache.py:142-146 | every 128th accepted put also removes exactly what is over, the others nothing more |
| CacheLaws.RoomIsKept | src/fin_data_hub/cache.py:129-146 | an accepted put leaves as many of the most recent keys, itself last, as number and bytes allow |
| CacheLaws.RoomAlwaysHolds | src/fin_data_hub/cache.py:129-217 | after any operations no more keys and bytes are kept than the limits say, and order, entries and sizes list the same keys |
| CacheModel.RefusedPutChangesNothing | src/fin_data_hub/cache.py:129-134 | after a refused put every key is found exactly as before it |
| CacheModel.NothingIsLostSilently | src/fin_data_hub/cache.py:104-227 | an entry disappears only by removal, expiry, or because it and the newer keys no longer fit |
| CacheModel.OrderIsByLastUse | src/fin_data_hub/cache.py:104-146 | after any operations the stored keys are ordered by their last use, so eviction takes the longest unused |
| SingleFlight.SoundOverRuns | src/fin_data_hub/cache.py:148-179 | in every interleaving every open flight still has its creator on the way to finishing it |
| SingleFlight.NoWaiterIsStranded | src/fin_data_hub/cache.py:229-247 | unless a size estimate raises, a waiting thread either can wake or waits for a thread that is not waiting and will finish its flight |
| SingleFlight.OneLeader | src/fin_data_hub/cache.py:148-179 | among callers that do not force, at most one thread is between becoming leader of a key and finishing |
| SingleFlight.SingleLeaderOverRuns | src/fin_data_hub/cache.py:148-179 | the same over every interleaving |
| SingleFlight.FollowersGetTheirLeadersAnswer | src/fin_data_hub/cache.py:158-179 | all who took part in a flight come back with its leader's value or error |
| SingleFlight.LoaderDecides | src/fin_data_hub/cache.py:168-179 | over any run, forced callers included: a call whose loader returned a value comes back with that value, and one whose loader raised with that error |
| SingleFlight.HitDecides | src/fin_data_hub/cache.py:158-171 | a call whose first or second lookup hits comes back with the value cached at that moment |
| SingleFlight.ForcedCallLoads | src/fin_data_hub/cache.py:148-179 | a forced call comes back only after a loader run of its own |
| SingleFlight.StoredIsLoaded | src/fin_data_hub/cache.py:177-179 | an accepted store leaves in the cache what that call's loader returned, and a refused one leaves the cache alone |
| SingleFlight.FollowersGetWhatWasLoaded | src/fin_data_hub/cache.py:158-179 | whoever took part in a flight comes back with the value or error of its creator's loader step, or with what its creator's second lookup found |
| SingleFlight.WaitersTakePart | src/fin_data_hub/cache.py:163-166 | a thread that waits takes part in the flight it waits for |
| SingleFlight.WaitersGetTheSettersOutcome | src/fin_data_hub/cache.py:163-166 | over any run, forced callers included: a waiter comes back with the outcome with which the thread that set its flight comes back |
| SingleFlight.LoaderReturnsOnce | src/fin_data_hub/cache.py:148-179 | without forcing and removal, the loader of a key returns at most once over any interleaving |
| SingleFlight.RaisingSizeStrands | src/fin_data_hub/cache.py:172-179 | a size estimate that raises breaks the promise exactly when its thread leads an open flight |
| SingleFlight.RaisingSizeLeavesItsFlight | src/fin_data_hub/cache.py:168-179 | and then its flight stays on the table with nobody left to finish it |
| SingleFlight.SizeErrorStrandsFollower | src/fin_data_hub/cache.py:148-179 | a run from the start that reaches this: a leader, a waiting follower, and the estimate that raises |
| SingleFlight.StrandedForGood | src/fin_data_hub/cache.py:229-247 | from then on, over any run without forced callers, the flight stays open and its followers keep waiting |
| SingleFlight.OrphanLeavesExactlyByForcedCaller | src/fin_data_hub/cache.py:238-247 | over any run, such a flight leaves the table exactly when a forced caller of the key finishes, and then for good |
| SingleFlight.ForcedCallerWakesFollowers | src/fin_data_hub/cache.py:238-247 | that caller then wakes the followers |
| EntityTimeline.NameChangeLaw | src/fin_data_platform/registry/service.py:337-373 | the answer for every day after any name change: inside the window the new name; after it the name told for the day before the start, or the current one when none was; both only where no later row wins, and the old answer otherwise |
| EntityTimeline.NamesResumeOverHistory | src/fin_data_platform/registry/service.py:352-373 | from the entity's creation on and after any history: a day after an ended name change is told the name that was told for the day before its start, unless a later row wins there |
| EntityTimeline.NameChangeIntervals | src/fin_data_platform/registry/service.py:360-373 | the interval of the row that answers each day after a name change |
| EntityTimeline.NameChangeCloses | src/fin_data_platform/registry/service.py:356-359 | the row valid on the day before the start now ends on that day |
| EntityTimeline.ChangesAreAppended | src/fin_data_platform/registry/service.py:375-409 | any change keeps the old rows and appends some, known from its moment and each with the next version |
| EntityTimeline.ReadersGetTheGreatest | src/fin_data_platform/registry/service.py:423-432 | the row of a day covers it, and no covering row has a greater start and version; there is none exactly when no row covers the day |
| EntityTimeline.PastIsKept | src/fin_data_platform/registry/service.py:337-373 | with start at most one day after end, days before start keep their answer |
| EntityTimeline.PastIsKeptExactlyWhenOrdered | src/fin_data_platform/registry/service.py:347-373 | for a name change, every past is kept exactly when end is absent or start is at most end plus one day |
| EntityTimeline.InvertedWindowRewritesPast | src/fin_data_platform/registry/service.py:347-373 | a window that ends before it starts gives an entity an answer for a day before it existed |
| EntityTimeline.RefreshLaw | src/fin_data_platform/registry/service.py:293-335 | a refresh changes the answer exactly from the current row's start on |
| EntityTimeline.CodeChangeLaw | src/fin_data_platform/registry/service.py:480-506 | a code change tells the new code from its start on, except on days whose row starts later still |
| EntityTimeline.CodeChangeCloses | src/fin_data_platform/registry/service.py:496-506 | the row that was current ends on the day before the new code starts |
| EntityTimeline.CurrentIsLast | src/fin_data_platform/registry/service.py:411-432 | the current row is the covering row of every day from its start on, and no covering row starts later |
| EntityTimeline.CloseBeforeTellsTheSame | src/fin_data_platform/registry/service.py:352-359 | closing the row valid on the day before changes the answer of no day, as the shorter copy only replaces its original |
| EntityTimeline.LogOverHistory | src/fin_data_platform/registry/service.py:293-506 | the log is sound after any changes in any order, windows that end before they start left out |
| EntityTimeline.NameChangesKeepThePast | src/fin_data_platform/registry/service.py:337-373 | from its creation on and after any such history, a name change leaves every earlier day as it was |
| EntityTimeline.CreationIsLog | src/fin_data_platform/registry/service.py:238-291 | a new entity's log is sound |
| EntityTimeline.CreationTells | src/fin_data_platform/registry/service.py:238-291 | a new entity tells what it was created with from its start on, and nothing before |
| EntityTimeline.RefreshKeepsLog | src/fin_data_platform/registry/service.py:293-335 | a refresh keeps the log sound |
| EntityTimeline.RenameKeepsLog | src/fin_data_platform/registry/service.py:337-373 | a name change keeps the log sound: each bounded row is succeeded, the day after its end, by one that starts later |
| EntityTimeline.CodeChangeKeepsLog | src/fin_data_platform/registry/service.py:480-506 | a code change keeps the log sound |
| CodeIndex.LatestAfterClosing | src/fin_data_platform/registry/service.py:486-495 | closing again what was closed before adds a copy of equal version that loses to the first, so only entries still open are closed |
| CodeIndex.LatestAfterChange | src/fin_data_platform/registry/service.py:480-506 | what the latest entry of every key is after a code change |
| CodeIndex.ChangeKeepsIndex | src/fin_data_platform/registry/service.py:480-506 | a code change after the last code keeps the index sound |
| CodeIndex.HoldsAfterChange | src/fin_data_platform/registry/service.py:440-465 | from the change on only the new code holds; before it the same codes as ever |
| EntityRegistry.RecordOverHistory | src/fin_data_platform/registry/service.py:337-506 | rows and index stay sound together over any history of forward changes |
| EntityRegistry.CodeIndexAgreesWithRows | src/fin_data_platform/registry/service.py:440-506 | after a creation and any number of code and name changes, each starting after the current row's start, on every day: the row tells a code exactly when the index lists it, the entity is resolved only from a code it tells, a told code resolves to a holder, and to the entity itself when nobody else holds it |
| EntityRegistry.RenameAgreesExactlyWhen | src/fin_data_platform/registry/service.py:337-373 | a name change keeps rows and index together exactly when every day it rewrites already tells the current code |
| EntityRegistry.BackdatedRenameDisagrees | src/fin_data_platform/registry/service.py:360-367 | a name change dated before a code change tells the later code on an earlier day, which the index does not |
| RegistryService.Registry.Create | src/fin_data_platform/registry/service.py:238-291 | the next id gets one row and one code entry |
| RegistryService.Registry.AddNameChange | src/fin_data_platform/registry/service.py:337-409 | append by append the log becomes the one the timeline law speaks of; an unknown entity is refused |
| RegistryService.Registry.AddCodeChange | src/fin_data_platform/registry/service.py:480-506 | append by append rows and index become the ones the index law speaks of |
| RegistryService.Registry.RefreshEntity | src/fin_data_platform/registry/service.py:293-335 | a row is appended exactly when something differs |
| RegistryService.RefreshTells | src/fin_data_platform/registry/service.py:293-335 | from the current row's start on the given name, unless empty, and the given attributes are told, the others as they were; earlier days, codes and other entities are untouched |
| RegistryService.Registry.EntityAsOf | src/fin_data_platform/registry/service.py:423-432 | the row of the entity that covers the day and has the greatest start and version among those that do, nothing exactly when none covers it, and without a day the current row |
| RegistryService.Registry.LatestByKey | src/fin_data_platform/registry/service.py:447-451 | the scan finds the first entry of the greatest version of each key |
| RegistryService.Registry.ResolveCode | src/fin_data_platform/registry/service.py:440-465 | the entity of a latest entry that covers the day, than which none has a greater start and version, and nothing exactly when there is none |
| RegistryService.Registry.Register | src/fin_data_platform/registry/service.py:185-236 | creates exactly when nobody ever held the code, and otherwise refreshes a topmost holder |
| BarSync.BarTable.AppendRows | src/fin_data_platform/storage/writers.py:14-46 | inserts row by row what is not there yet and returns how many |
| BarSync.BarTable.LatestRows | src/fin_data_platform/ingestion/daily_bar.py:89-117 | the newest version of each day of the window |
| BarSync.BarTable.SyncDailyBar | src/fin_data_platform/ingestion/daily_bar.py:120-198 | appends the first versions and restatements, judged by the table before the batch, and counts what was inserted |
| BarStore.HistoryAfterSync | src/fin_data_platform/ingestion/daily_bar.py:151-188 | a sync extends the history of a bar by at most one version, the first fetched row that differs, unless its key is taken |
| BarStore.SyncKeepsTable | src/fin_data_platform/ingestion/daily_bar.py:151-188 | versions stay 1..n with knowledge in order, whatever the frame repeats |
| BarStore.ChainsOverRuns | src/fin_data_platform/ingestion/daily_bar.py:120-198 | the same over any run of syncs with a clock that does not go back |
| BarStore.PastReadsAreStable | src/fin_data_platform/storage/readers.py:19-57 | a sync at a moment leaves every earlier as-of answer of a stored bar unchanged |
| BarStore.PastReadsAreFrozen | src/fin_data_platform/storage/readers.py:19-57 | the same over any run of later syncs |
| BarLaws.ReadIs | src/fin_data_platform/storage/readers.py:37-57 | an as-of read answers exactly when a stored row of the bar has a knowledge time not after the moment, and then with such a row than which none has a greater knowledge time and version |
| BarLaws.FetchedDaysAreAnswered | src/fin_data_platform/storage/readers.py:37-57 | over any run of syncs a day fetched in any of them is answered exactly from the close of that day on |
| BarLaws.ReadersGetWhatWasFetched | src/fin_data_platform/storage/readers.py:37-57 | over any run, a reader at a moment gets the values fetched by the last sync of the day before that moment, up to tolerance, whatever was fetched later |
| BarLaws.BackfillIsKnownFromClose | src/fin_data_platform/ingestion/daily_bar.py:177-180 | a day filled in late is known as from its close: until it is restated readers get exactly that row, and before the close none |
| BarLaws.FetchedBarIs | src/fin_data_platform/ingestion/daily_bar.py:160-188 | the history of a fetched bar after a sync, every field: a first version known from the close, a restatement known from now and numbered one higher exactly when the values differ, else nothing new |
| BarLaws.OthersStay | src/fin_data_platform/ingestion/daily_bar.py:151-188 | bars that are not fetched keep their versions |
| BarLaws.SameValuesIs | src/fin_data_platform/ingestion/daily_bar.py:77-86 | values count as unchanged exactly when all six fields are both absent or within a millionth, or a billionth of their size |
| BarStore.HistoryOnlyGrows | src/fin_data_platform/storage/writers.py:14-46 | no stored version is changed or removed |
| BarStore.LatestIsFetched | src/fin_data_platform/ingestion/daily_bar.py:77-117 | after a sync the latest version of each fetched bar has the fetched values up to tolerance |
| BarStore.RepeatWritesNothing | src/fin_data_platform/ingestion/daily_bar.py:120-198 | repeating a sync at any later moment writes nothing |
| BarStore.RestatementShowsIff | src/fin_data_platform/storage/readers.py:19-34 | a restatement becomes the latest version exactly when the stored one was known by now |
| BarStore.EarlyRestatementIsHidden | src/fin_data_platform/ingestion/daily_bar.py:179-186 | a bar stored before its close and restated a second later: the first version is still the latest |
| BarStore.ClosedWindowsAreKnownExactlyWhen | src/fin_data_platform/runtime/calendar.py:68-77 | windows up to the last closed day hold only sessions whose close has passed exactly when the configured cutoff is not before the close |
| CacheCodec.DecodesExactly | src/fin_data_platform/cache/serialize.py:64-88 | which bytes let an error out: an infinite version, JSON nested too deep, or an Arrow stream cut short under a good header; and which bytes hold a value |
| CacheCodec.RoundTripsExactlyWhenPlain | src/fin_data_platform/cache/serialize.py:39-88 | decoding undoes encoding exactly for frames and for values of lists, scalars and dictionaries with distinct text keys |
| CacheCodec.WrittenIsReadable | src/fin_data_platform/cache/serialize.py:39-88 | an encoder's bytes always decode to a value |
| CacheCodec.ReadIsPlain | src/fin_data_platform/cache/serialize.py:64-88 | whatever is read from a JSON text is such a value |
| CacheCodec.ReadBackIsStable | src/fin_data_platform/cache/serialize.py:39-88 | a value that was read back survives being written again |
| LayeredCache.Backend.AcquireLock | src/fin_data_platform/cache/backend.py:207-214 | granted when there is no live lease; a call that fails may still have taken it |
| LayeredCache.Backend.ReleaseLock | src/fin_data_platform/cache/backend.py:216-220 | only the holder's token removes a lease |
| LayeredCache.LayeredCache.LookUp | src/fin_data_platform/cache/layered.py:261-278 | L1 before L2; absent, failing and unreadable entries fall through |
| LayeredCache.LookupIs | src/fin_data_platform/cache/layered.py:261-278 | a lookup hits exactly with what L1 decodes to or, where L1 fails, is empty or unreadable, with what L2 decodes to; it lets an error out likewise, and misses exactly when both pass |
| LayeredCache.FirstToGiveDecides | src/fin_data_platform/cache/layered.py:168-190 | the first lookup at which a layer gives a value or an error decides the answer, and the loader does when both pass at all of them |
| LayeredCache.LayeredCache.Acquire | src/fin_data_platform/cache/layered.py:304-311 | held by the caller's token for the time to live of locks, refused beside a live lease, which stays |
| LayeredCache.LayeredCache.TtlOf | src/fin_data_platform/cache/layered.py:120-127 | the domain's time to live, or the default when there is none or the resolver raises |
| LayeredCache.LayeredCache.Store | src/fin_data_platform/cache/layered.py:280-294 | both layers are asked to keep the bytes for the time to live; an unwritable value is not cached |
| LayeredCache.LayeredCache.WaitForOther | src/fin_data_platform/cache/layered.py:180-188 | polls until a lookup decides or the wait is over, and terminates |
| LayeredCache.LayeredCache.GetOrLoad | src/fin_data_platform/cache/layered.py:154-195 | the loader runs exactly when both layers pass at every lookup; a third lookup is made only beside a live lease, and the loader then runs only when the wait is over; a lock that was held is given back; exactly the loader's encoded value is written, for the caller's, the domain's or the default time to live |
| LayeredCache.FailsOpen | src/fin_data_platform/cache/layered.py:154-195 | no pattern of misses, garbage, refused locks and failing calls changes the answer |
| LayeredCache.TransparentExactlyWhen | src/fin_data_platform/cache/layered.py:154-195 | the answer is the loader's for every such pattern exactly when the loader's value survives its round trip, no garbage bytes are of the escaping kinds, and those that hold a value hold the loader's |
| LayeredCache.OverflowEscapes | src/fin_data_platform/cache/serialize.py:69-74 | any bytes whose header has an infinite version number raise an error that the cache lets through |
| LayeredCache.TruncatedStreamEscapes | src/fin_data_platform/cache/serialize.py:79-85 | so does an Arrow stream that was cut short |
| LayeredCache.TuplesAreNotTransparent | src/fin_data_platform/cache/serialize.py:58-60 | a loader that returns a tuple is answered with a list on the next hit |
| LayeredCache.WritesKeepSound | src/fin_data_platform/cache/layered.py:280-294 | what one process writes keeps the layers sound for the others |
| LeaseLocks.HolderIsAlone | src/fin_data_platform/cache/backend.py:207-220 | over any run, nobody else is granted a held key, and it can be had again exactly from the end of the lease |
| LeaseLocks.LateReleaseIsHarmless | src/fin_data_platform/cache/backend.py:216-220 | a former holder cannot give back its successor's lease |
| LeaseLocks.ReleaseFrees | src/fin_data_platform/cache/backend.py:216-220 | giving back lets the next caller in at once |
| CrossProcess.LoadersOverlapOnlyOverdue | src/fin_data_platform/cache/layered.py:172-195 | over any interleaving of processes with a reliable L2, two load at the same time only when a lease has run out or a wait was over |
| CrossProcess.StartsBesideExactlyByGivingUp | src/fin_data_platform/cache/layered.py:176-188 | beside a loader that is within its lease another starts exactly by giving up its wait |
| CrossProcess.GivesUpAfterItsWait | src/fin_data_platform/cache/layered.py:176-190 | a process loads without the lock only when a live lease refused it and the whole time to wait has passed since |
| CrossProcess.PollsUntilStored | src/fin_data_platform/cache/layered.py:180-188 | a waiting process that polls leaves without loading exactly when the value is stored |
| CrossProcess.LateComersNeverLoad | src/fin_data_platform/cache/layered.py:168-175 | a process that looks after the value was stored never loads |
| CrossProcess.InsidersMayLoad | src/fin_data_platform/cache/layered.py:173-190 | one whose last lookup missed, or that is waiting, loads once the time it has to wait has passed |
| CrossProcess.NeverLoadsExactlyWhenOutside | src/fin_data_platform/cache/layered.py:168-190 | once the value is stored, a process not loading yet never will, in any continuation, exactly when it is outside |
| CrossProcess.SecondLoadWithoutWaiting | src/fin_data_platform/cache/layered.py:173-190 | a process whose last lookup missed loads again after the first has stored and released, without waiting |
| Generations.DomainCounter.Read | src/fin_data_platform/cache/layered.py:81-91 | the larger counter of the layers that can be read |
| Generations.DomainCounter.Bump | src/fin_data_platform/cache/layered.py:93-118 | the new counters and the returned generation for every pattern of L2 failures, always above the old L1 |
| Generations.UndisturbedBump | src/fin_data_platform/cache/layered.py:93-118 | a bump that nothing disturbs leaves both counters one past the larger of them, and returns that |
| Generations.KeysTellApart | src/fin_data_platform/cache/keys.py:87-102 | a key is built exactly for a domain, a panel and one time axis, and equal keys come from one generation and equal requests |
| Generations.OneBumperCounts | src/fin_data_platform/cache/layered.py:81-118 | with one bumping process L2 never exceeds L1 and the generation read, L2 available or not, counts the bumps |
| Generations.BumpRetiresKeys | src/fin_data_platform/cache/keys.py:87-102 | a key built after a bump differs from every key built before it, whatever failed |
| Generations.FirstGoodBumpCatchesUp | src/fin_data_platform/cache/layered.py:106-118 | after a restart behind L2, the first bump that both layers take exceeds both counters and restores the order |
| Generations.OutageFallsBackExactlyWhenBehind | src/fin_data_platform/cache/layered.py:81-91 | an unreadable L2 lowers the generation exactly while L1 is behind it |
| Generations.InvOverRuns | src/fin_data_platform/cache/layered.py:93-118 | with one bumping thread per process, L1 is ahead of L2 by at most the increment still to come, in every interleaving |
| Generations.SharedCounterCounts | src/fin_data_platform/cache/keys.py:52-59 | the shared counter rises by exactly the increments made, so levelling never lowers it |
| Generations.ReadersAgree | src/fin_data_platform/cache/layered.py:81-91 | threads outside a bump all read the shared counter, and those inside at most one more |
| Generations.LevelledKnowsItsBump | src/fin_data_platform/cache/layered.py:106-112 | at the end of a bump its process reads that bump's value even when L2 does not answer |
| Generations.IncrementRetiresKeys | src/fin_data_platform/cache/layered.py:93-118 | what was read before another increment is never read by anyone after it |
| Generations.TwoBumpersCanLowerIt | src/fin_data_platform/cache/layered.py:106-112 | any two bumping threads of one process have an interleaving that lowers the shared counter though L2 never fails |
| Generations.MonotoneExactlyWhenOneBumperEach | src/fin_data_platform/cache/layered.py:93-118 | the shared counter never falls in any interleaving exactly when each process bumps from one thread |
| RateLimiter.RateLimiter.TryAcquire | src/fin_data_hub/ratelimit.py:70-77 | granted exactly when the refilled bucket has the tokens, and then they are taken |
| RateLimiter.RateLimiter.Acquire | src/fin_data_hub/ratelimit.py:51-68 | refused outright exactly above capacity; a lone waiter sleeps at most once and no longer than its tokens take, is granted at its first wake-up if its wait fits the timeout, and times out only past its deadline |
| RateLimiter.RateLimiter.Refill | src/fin_data_hub/ratelimit.py:85-90 | the bucket as refilled by the time elapsed, capped; a clock that went back changes nothing |
| RateLimiter.ServiceIs | src/fin_data_hub/ratelimit.py:70-90 | a request is granted exactly when min(capacity, tokens + elapsed x rate) covers it, and takes exactly its tokens |
| RateLimiter.LimitsArePositive | src/fin_data_hub/ratelimit.py:40-45 | the limits a limiter gets from rate and burst: the burst, or the larger of one and the rate; refused exactly when one is not positive |
| RateLimiter.StaysWithinExactlyWhen | src/fin_data_hub/ratelimit.py:70-90 | a request keeps 0 <= tokens <= capacity of a bucket exactly when it is not negative enough to overfill it |
| RateLimiter.KeepsEveryBucketExactlyWhen | src/fin_data_hub/ratelimit.py:70-90 | and keeps them of every bucket exactly when it is not negative |
| RateLimiter.NegativeRequestOverfills | src/fin_data_hub/ratelimit.py:70-77 | a full bucket asked for minus one token |
| RateLimiter.RateLimiter.AcquireAmong | src/fin_data_hub/ratelimit.py:51-68 | a waiter among others, followed for any number of passes: the bucket is what all requests in their order leave, the last pass decides, and only a waiter with a timeout times out |
| RateLimiter.FairRunsStayWithin | src/fin_data_hub/ratelimit.py:51-90 | over any run of non-negative requests the bounds hold |
| RateLimiter.WindowsAreBounded | src/fin_data_hub/ratelimit.py:51-90 | for any supply, what is given between two instants is at most the capacity and what was produced between them |
| RateLimiter.GivesAtMostCapacityAndRate | src/fin_data_hub/ratelimit.py:51-90 | at most capacity + rate x elapsed tokens between any two instants of any run |
| RateLimiter.GrantsExactlyWhenBoundAllows | src/fin_data_hub/ratelimit.py:51-90 | a request is granted exactly when no window ending with it would then exceed its bound |
| RateLimiter.WaitIsEnough | src/fin_data_hub/ratelimit.py:62-68 | a lone waiter has the tokens exactly from the computed time on |
| BaostockSession.BaoStock.EnsureLogin | src/fin_data_hub/sources/baostock.py:304-319 | logs in only when nobody holds the session, and joins it otherwise |
| BaostockSession.BaoStock.Attempt | src/fin_data_hub/sources/baostock.py:326-349 | one attempt: rows and source errors keep the session, a reported connection failure moves the generation twice, any other failure once |
| BaostockSession.BaoStock.CloseAdapter | src/fin_data_hub/sources/baostock.py:112-128 | gives the login back once and logs out with the last holder |
| BaostockSession.BaoStock.Query | src/fin_data_hub/sources/baostock.py:321-354 | the retry loop with anything happening between attempts |
| BaostockSession.AttemptIs | src/fin_data_hub/sources/baostock.py:304-349 | every field after an attempt: one that decides joins the session, with a login of the service only when nobody holds one; a reported connection failure moves the generation by two, any other failure by one |
| BaostockSession.CloseIs | src/fin_data_hub/sources/baostock.py:112-128 | every field after a close |
| BaostockSession.FirstDecisionAnswers | src/fin_data_hub/sources/baostock.py:321-354 | the first attempt that decides answers the query with the rows or the message of its own reply; the query gives up exactly when none of its attempts decides |
| BaostockSession.CountsOverRuns | src/fin_data_hub/sources/baostock.py:304-354 | over any interleaving the login count is the number of adapters that hold the current generation, and there is a live login exactly when it is positive |
| BaostockSession.CallsRunLoggedIn | src/fin_data_hub/sources/baostock.py:304-331 | every call of the service is made by a holder of the current login |
| BaostockSession.LogoutExactlyWithLastHolder | src/fin_data_hub/sources/baostock.py:112-128 | closing logs out exactly when the last holder closes |
| BaostockSession.GenerationOnlyRises | src/fin_data_hub/sources/baostock.py:64-69 | the generation never goes back |
| BaostockSession.StaleExactlyWhenLost | src/fin_data_hub/sources/baostock.py:64-69 | the server is left with an ended generation's login exactly when the last lost login was not followed by a new one |
| BaostockSession.AllClosedMeansLoggedOut | src/fin_data_hub/sources/baostock.py:112-128 | once every adapter is closed, and none was used after that, nobody holds the session, and the server knows no login at all exactly when every lost login was followed by a new one |
| BaostockSession.LostLoginIsNeverLoggedOut | src/fin_data_hub/sources/baostock.py:112-128 | one call that raises, then close: that login is never logged out |
| BaostockSession.UseAfterCloseHoldsExactlyWhen | src/fin_data_hub/sources/baostock.py:304-349 | trying a closed adapter leaves it holding nothing exactly when it cannot log in or fails on the connection |
| BaostockSession.LeavesNoHolderExactlyWhen | src/fin_data_hub/sources/baostock.py:112-128 | a schedule that closes all its adapters leaves no holder, whatever the service does, exactly when no adapter is tried after its close |
| BaostockSession.UseAfterCloseLeaks | src/fin_data_hub/sources/baostock.py:112-128 | closing a closed adapter again gives nothing back |
| BaostockSession.GoodRoundSucceeds | src/fin_data_hub/sources/baostock.py:321-354 | a query succeeds if one of its attempts meets a service that is well, and no source error came first |
| BaostockSession.QueryKeepsInv | src/fin_data_hub/sources/baostock.py:321-354 | after a query the count is right; a query that was answered holds the session, one that gave up moved the generation once per attempt at least |
| Factors.BaseIsInForce | src/fin_data_hub/sources/baostock.py:394-395 | the base row's factor is the one in force the day before the window |
| Factors.WindowAgreesWithHistory | src/fin_data_hub/sources/baostock.py:384-420 | the windowed frame answers each day from its start on as the whole history does, up to its last day, and no day before |
| Factors.JoinFindsLatestRow | src/fin_data_hub/routing.py:115-124 | the join gives the usable row of the code with the latest day that is not later, wherever it stands in the table |
| Factors.ScalePrices | src/fin_data_hub/routing.py:132-134 | exactly the price columns are multiplied by the ratios |
| Factors.ApplyAdjustment | src/fin_data_hub/routing.py:98-139 | which errors are raised when; otherwise every row comes out once, its prices times its own ratio, ordered by code and date |
| FactorLaws.RowsAreAdjusted | src/fin_data_hub/routing.py:118-139 | each row of the result is its row of the bars, with open, high, low and close times the factor in force on its day, for qfq over that of its code's last day, and the other columns as they were |
| FactorLaws.FailsExactlyWhenUncovered | src/fin_data_hub/routing.py:115-126 | the join has a gap exactly when for some bar all usable factor rows of its code come later |
| FactorLaws.ResultIsInOrder | src/fin_data_hub/routing.py:135-139 | codes in the order of their texts, each code's rows in the order of their days |
| Factors.RatioIsUnique | src/fin_data_hub/routing.py:127-131 | a row has one ratio whatever the order of the frames |
| Arrangement.OrderIsSorted | src/fin_data_hub/routing.py:119-137 | the sorting used for both orders is sorted |
| Factors.LastFactorIsLatest | src/fin_data_hub/routing.py:127-129 | the last factor of a code is that of its latest day |
| Factors.LastBarKeepsItsPrice | src/fin_data_hub/routing.py:127-134 | the last bar of a code keeps its raw price under qfq |
| Factors.QfqIsHfqOverConstant | src/fin_data_hub/routing.py:127-134 | per code qfq prices are hfq prices over one constant |
| Factors.WindowGivesSameFactors | src/fin_data_hub/routing.py:118-126 | prices of the window are the same from the windowed frames as from the whole histories |
| Factors.FailsExactlyBeforeStart | src/fin_data_hub/routing.py:118-126 | with windowed frames the join fails exactly when a bar lies before the start |

## Left out

- `SqlMetaRepository`, `RedisCache` and all SQL: database behaviour is not part of this model; in particular nothing is claimed about the SQL `claim_next`, which tests the scope before it takes the scope lock.
- Network calls of the source adapters, HTTP and MCP interfaces, cron parsing, command line and deployment: input and output.
- Manual synchronisation through the API: it creates runs directly, past gate and back-pressure, so the laws about gate, queue and coverage are about dispatched runs.
- Statistics, health fields other than the dispatcher's and the cache's hit counts, logging: no other behaviour depends on them.
- Job keys, cache keys and parameter hashes are injective tuples; hash collisions are not modelled.
- One repository call reads the clock once; several threads see their clock readings in the order of their calls.
- Executors return or raise and do not call the repository themselves; the only success callback modelled is the watermark's.
- Recursion depth: the depth-first search is modelled without Python's recursion limit.
- `RuntimeApp.WorkerPool.RunPending`: executors that create runs themselves are outside it, as the answers of executors are parameters.
- Entity attributes are one map; validation of their allowed values, issuers, relations and external ids add only easy members. An unparsable date is refused before any modelled step.
- Cached frames, copies on return and the size estimate of the memory cache: sizes are given by the caller, after the safety factor.
- The bar table is a sequence of rows with its physical key checked on insertion; a synchronisation is one transaction. The provider name and the entity lookup are given.
- Floating point: prices, factors and tokens are reals; a missing number is an absent value. Dividing by a zero factor gives an absent price, where pandas gives an infinity or no number.
- CacheCodec.RoundTripsExactlyWhenPlain: bytes are classed by how far parsing gets with them; a frame that Arrow can hold is taken to come back from its stream as it was, and finite floats as the reals they print.
- Text version numbers in a cache header are read as an optional sign and decimal digits with blanks, tabs and line ends around; underscores, digits of other scripts and other kinds of space, which `int` also takes, are not modelled. Dictionary keys that are floats, which JSON turns into texts, and texts with lone surrogates, which cannot be encoded, are left out. Neither is a deployment without pyarrow.
- That a layered entry expires after its time to live is part of what a moment finds in a backend, as are eviction and other processes. `InMemoryCache` repeats the eviction proved for `MemoryCache`; the expiry rule of its `incr`, and the eviction of an L1 counter, are not modelled.
- `CrossProcess` takes one thread per process inside `get_or_load`, an L2 that neither fails nor forgets, the process as its own lock token, and the lookup that decides as one step.
- The in-process lock of `get_or_load` only orders the threads of a process; the laws allow any order. Usage counters of the layers are not specified in full.
- Sleeping takes at least the polling interval, which is taken to be positive.
- RateLimiter.RateLimiter.Acquire: nobody competes with its waiter; `AcquireAmong` is the same loop among others, followed for a given number of passes, since a waiter without a timeout may be passed over for ever.
- The sorts of price adjustment are stable here; of several factor rows of one code and day the last in the table counts, where the library's sort leaves that open.
- `retry_call`, back-off delays of the hub, `fill_missing_fields`, code splitting, windows of dates and unit tables: easy members.
