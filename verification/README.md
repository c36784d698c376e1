# Verified protocols of the AviationWX bridge

A Dafny model of the bridge's stateful protocols, with proofs about every run and every interleaving.
Each protocol is a specification (states, steps, runs, and what they keep) and, where the bridge
updates fields in place, a class whose methods are proved to take exactly those steps.

- **Weather catch-up** (`Ring.dfy`, `Uplink.dfy`, `Catchup.dfy`, `WeatherLaws.dfy`, `WeatherBridge.dfy`): the ring of failed
  weather POSTs, the circuit breaker, the flush, live posts and configuration syncs. The ring is filtered
  and shifted inside its own buffer.
- **Camera image queue** (`FileNames.dfy`, `Directory.dfy`, `Thinning.dfy`, `QueueSpec.dfy`, `QueueRuns.dfy`,
  `QueueCuts.dfy`, `QueueLaws.dfy`, `ImageQueue.dfy`, `QueueManager.dfy`): counters beside a directory, even thinning,
  emergency thinning, space recovery, expiry, the duplicate-timestamp loop, the pause latch, and global memory pressure.
- **Interceptor hand-off** (`Interceptor.dfy`, `InterceptorHub.dfy`): request handlers, a latest-wins map and a
  one-slot wake channel in front of one posting worker.
- **Uploads in flight** (`InFlight.dfy`, `UploadPool.dfy`): one coordinator, a bounded channel, a worker pool.
- **Host key pins** (`Splitting.dfy`, `KnownHosts.dfy`, `PinEdits.dfy`, `HostKeys.dfy`): the pin file as text, what
  appending and replacing do to any such text, and verifications whose lock is dropped while the roster is fetched.
- **Discovery events** (`Sse.dfy`): printing and consuming a subset of the event stream format (sections 9.2.5
  and 9.2.6 of the WHATWG HTML Living Standard).
- **Clock health** (`TimeHealth.dfy`): time-server checks summed up in one flag.

Reading the model:

- Times are integers in nanoseconds; Go's zero time is `None`. Every clock reading, POST result, remove or write
  outcome and free-space reading is an input of the step that uses it. Clock readings may
  jump; only the pacing and outage results ask that the clock does not run back within one operation
  (`CatchupSpec.Clocked`).
- What an operation does is stated twice: as the step the class follows, and as a law in plain terms (an error's
  fields, seconds, limits times thresholds, which files of the listing stay) that names none of the step's own
  functions: `WeatherLaws`, `QueueLaws`, and the lemmas whose names end in Fate.
- Goroutines are steps between two lock or channel operations. Readers of the ring's length prune it without the
  post mutex; their clock readings are inputs of the POST they run beside (`PostInput.lens`).
- History (`History`, `uploaded`, `origin`, `kept`) records what happened and no step reads it.
- Floating-point ratios are exact: thinning targets are rounded-down fractions, the i-th of r images removed from
  n candidates is number floor(i * n / r), capacity is a real quotient.
- The queue directory is listed in the byte order of the file names, as the bridge lists it. On names of one
  length (thirteen digits from September 2001 to November 2286) that is time order, `Directory.Aligned`; the
  exact law for any two times is `FileNames.NameOrderIff`. A clock that starts at 1970 and is set later leaves it.
- Where the code and what it is described as doing differ, the model follows the code, and each difference comes
  with its exact condition:
  - `IsTransientErr` denies that a status below 400 is transient, but the breaker counts it
    (`HandledVersusTransient`).
  - A resume threshold above the critical one lets a critical reading pass without a pause
    (`OrderedIff`, `DisorderedRunGoesOn`; with ordered ones, `PausedIsCriticalSince`).
  - A file limit of two can empty the queue (`NewestThinnedIff`, `TinyLimitThinsNewest`).
  - A reused file name makes an upload or a drop miscount bytes (`UploadCountsIff`, `DropCountsIff`,
    `ReusedNameMiscounts`).
  - Where name order is not time order, the cached oldest and newest can be wrong, even swapped
    (`EndsAreRightIff`, `RestartSwapsEnds`), expiry can leave stale images, a dequeue can hand out the wrong end, and
    the newest image can be thinned (`ExpiryLeavesNoStaleIff`, `DequeueIsOldestIff`, `NewestSurvivesIff`,
    `EarlyImageIsReached`).
  - A pin appended to a file whose last line has no newline goes on where that line stopped. It pins its label
    after a blank line or a host field that takes it in, and not otherwise (`AppendPinsIff`); it can spoil another
    host's pin (`AppendDisturbsIff`, `UnterminatedFileLosesPin`).
  - Replacing one host's pin takes away another's exactly when the other's pin line names both
    (`ReplaceKeepsIff`, `SharedLineLosesPin`).

## Model

| member | source | states |
|---|---|---|
| RingSpec.SelectSplits | internal/station/ring.go:126-136 | a ring filter neither loses nor duplicates a request |
| RingSpec.SelectIsSub | internal/station/ring.go:99-136 | what a filter keeps stays in FIFO order |
| RingSpec.SelectMembers | internal/station/ring.go:113-136 | a filter keeps exactly the requests its test accepts |
| RingSpec.PopSplits | internal/station/ring.go:55-81 | a pop splits the ring in two; the batch has distinct sources, all due |
| RingSpec.PopKeepsSourceOrder | internal/station/ring.go:52-81 | a due source with queued work is served, with exactly its oldest request; batch before rest is the source's order |
| OutboundRings.OutboundRing.Filter | internal/station/ring.go:99-144 | the in-place filter leaves the accepted requests in order and clears the slots it gives up |
| OutboundRings.OutboundRing.Push | internal/station/ring.go:40-50 | a good request joins the pruned ring at the back, trimmed to the cap from the front; another only prunes |
| OutboundRings.OutboundRing.PopReady | internal/station/ring.go:55-81 | the in-place pop leaves and returns exactly the two halves of the specified split, and no slot past the items still holds a request |
| OutboundRings.OutboundRing.PushFront | internal/station/ring.go:84-97 | the batch goes back in front, then prune and trim |
| OutboundRings.OutboundRing.RetainSources | internal/station/ring.go:100-111 | only configured sources stay, and the slots given up are cleared |
| OutboundRings.OutboundRing.EnforceSoftMaxLocked | internal/station/ring.go:146-159 | the in-place shift keeps exactly the newest entries up to the cap, clears the rest and reports how many went |
| UplinkSpec.BackoffDoubles | internal/station/uplink.go:128-136 | the closed-form backoff starts at 5 s, doubles, stops at 60 s |
| UplinkSpec.BreakerFollowsPosts | internal/station/uplink.go:93-138 | a granted attempt and its result keep the breaker an exact summary of the POSTs so far |
| UplinkSpec.OutageSchedule | internal/station/uplink.go:93-138 | in an outage the k-th further POST starts no earlier than the sum of the first k backoffs |
| UplinkSpec.OutageBound | internal/station/uplink.go:93-138 | within D seconds of the breaker opening, while all fail transiently, no POST beyond the floor((D+165)/60)-th starts |
| UplinkSpec.OpenGate | internal/station/uplink.go:93-138 | while the breaker is open an attempt waits the backoff after the one before it, however that one failed |
| UplinkSpec.UndeliveredBound | internal/station/uplink.go:93-138 | while nothing is delivered, whatever the failures, no POST beyond the floor((D+5)/10)-th starts |
| WeatherUplinks.WeatherUplink.Allow | internal/station/uplink.go:93-106 | grants an attempt exactly when a probe is due, and takes the slot |
| WeatherUplinks.WeatherUplink.IsProbeDue | internal/station/uplink.go:83-91 | asking whether a probe is due consumes nothing |
| WeatherUplinks.WeatherUplink.Success | internal/station/uplink.go:108-117 | a success closes the breaker and resets it; tells whether it was open |
| WeatherUplinks.WeatherUplink.TransientFailure | internal/station/uplink.go:119-138 | counts a failure, opens from the second on, waits the old backoff, doubles it |
| CatchupSpec.FlushRoundKeeps | internal/station/manager.go:549-573 | each round of the flush loop keeps every invariant, its request settled or the whole rest put back |
| CatchupSpec.FlushKeeps | internal/station/manager.go:532-574 | a flush keeps every invariant and drops nothing to the soft cap |
| CatchupSpec.StepKeeps | internal/station/manager.go:496-697 | live posts, ticks, syncs and length reads each keep every invariant |
| CatchupSpec.RunKeeps | internal/station/manager.go:496-697 | conservation, source order, cap and breaker hold after every run with any clock readings; timing and pacing when they are ordered |
| CatchupSpec.Conservation | internal/station/manager.go:496-574 | every accepted request is in exactly one place after any run, whatever the clock readings; the ring is within its cap |
| CatchupSpec.CatchupOrder | internal/station/manager.go:541-573 | per source, settled then queued requests are a subsequence of the accepted ones: catch-up completes in push order |
| CatchupSpec.FlushNeverOverflows | internal/station/manager.go:532-574 | no flush in a reachable state causes a soft-cap drop |
| CatchupSpec.CatchupPacing | internal/station/manager.go:540-558 | two catch-up POSTs of a source that stayed configured start at least a second apart |
| CatchupSpec.BreakerShape | internal/station/uplink.go:22-138 | in every reachable state: open iff at least two failures, and the backoff has its closed form |
| CatchupSpec.OutageLimitsPosts | internal/station/manager.go:508-550 | the outage bound for live and catch-up POSTs together, over every run |
| CatchupSpec.UndeliveredLimitsPosts | internal/station/manager.go:508-550 | that bound for live and catch-up POSTs together, over every run |
| CatchupSpec.LiveFate | internal/station/manager.go:496-528 | a live observation enters the ring, at the back, exactly when refused or failed transiently with a good station time |
| CatchupSpec.FlushServesEverySource | internal/station/manager.go:532-574 | when POSTs succeed, one flush delivers the oldest good request of each due source and no more |
| WeatherLaws.PrunedAreGood | internal/station/ring.go:113-136 | pruning keeps exactly the requests at most ten minutes old and at most one minute ahead |
| WeatherLaws.RoundFate | internal/station/manager.go:549-573 | one catch-up POST by its error: delivered or a 4xx other than 429 settles the request and the next is tried; canceled or anything else settles nothing and the rest goes back, at the front; only the last counts a failure |
| WeatherLaws.BatchFate | internal/station/manager.go:549-573 | how far a flush gets: all before its stop settled in order, all from there on back in the ring if still good |
| WeatherLaws.FlushFate | internal/station/manager.go:532-574 | a flush takes exactly the oldest good request of each source rested for a second, and settles or puts back that batch |
| WeatherLaws.FlushIdle | internal/station/manager.go:532-540 | without a service nothing happens; before the breaker grants a probe a flush does nothing |
| WeatherLaws.PushFate | internal/station/ring.go:40-50 | a good request joins at the back of the pruned ring, of which the newest 1200 stay |
| WeatherLaws.LiveFateByError | internal/station/manager.go:496-528 | a live observation by its error: posted iff granted, queued iff not granted or an outage and still good, a failure only for an outage |
| WeatherLaws.SyncFate | internal/station/manager.go:181-192 | a kept station keeps every request and its stamp; a removed one keeps nothing |
| WeatherLaws.TickServesEverySource | internal/station/manager.go:679-696 | when POSTs succeed one tick delivers the oldest good request of each rested source |
| WeatherLaws.TicksDrain | internal/station/manager.go:679-696 | once the service answers, as many spread ticks as the busiest source has requests empty the ring |
| WeatherLaws.GrantedIff | internal/station/uplink.go:83-138 | in every reachable state exactly when an attempt is granted, read off the POSTs: fewer than two failures, or 5, 10, 20, 40, 60 s over |
| WeatherLaws.RestedIff | internal/station/ring.go:66-77 | in every reachable state a source is due exactly when each of its catch-up POSTs since it was last removed ended a second ago |
| WeatherManagers.WeatherManager.FlushRing | internal/station/manager.go:532-574 | the flush loop with its early returns takes exactly the specified step |
| WeatherManagers.WeatherManager.PostObservation | internal/station/manager.go:496-528 | the live post takes exactly the specified step; no error iff granted and delivered |
| WeatherManagers.WeatherManager.TickCatchup | internal/station/manager.go:679-696 | the ticker takes exactly the specified step |
| WeatherManagers.WeatherManager.SyncFromConfig | internal/station/manager.go:181-192 | queued requests and pacing stamps of removed stations go, nothing else |
| FileNames.NameRoundTrip | internal/queue/queue.go:115-125 | formatting a timestamp as a file name and parsing it back is the identity, also before 1970 |
| FileNames.NameExamples | internal/queue/queue.go:115-116 | zero, a two-digit and a negative millisecond as file names |
| FileNames.NameOrderIsTimeOrder | internal/queue/queue.go:820-823 | for names of one length, name order is time order |
| FileNames.NameOrderIff | internal/queue/queue.go:820-823 | exactly: the earlier of two times sorts first iff it is at most what the later one's first digits, as many as its own, make |
| FileNames.NegativeOrder | internal/queue/queue.go:820-823 | times before 1970 sort first, and among themselves by their distance from 1970 |
| FileNames.EarlyClockSortsLate | internal/queue/queue.go:820-823 | an image from 500 to 1000 seconds after the start of 1970 sorts after every one from September 2001 to 2128 |
| Directory.FirstIsOldestIff | internal/queue/queue.go:820-823 | the listing starts with the oldest image iff no longer name's first digits are below its time |
| Directory.LastIsNewestIff | internal/queue/queue.go:820-823 | the listing ends with the newest image iff no shorter name's time is above its first digits |
| Thinning.ThinningIsExact | internal/queue/queue.go:602-660 | distinct positions, exactly as many as needed, outside both protected ends, leaving max(target, protected) |
| Thinning.ThinningIsEven | internal/queue/queue.go:640-648 | gaps between consecutive removed images differ by at most one |
| Thinning.NewestThinnedIff | internal/queue/queue.go:606-648 | the newest image is selected iff none of the newest is protected and the whole middle goes |
| Thinning.NewestSpared | internal/queue/queue.go:606-648 | with a file limit of at least 3 and one protected newest, thinning never selects the newest image |
| Thinning.TinyLimitThinsNewest | internal/queue/queue.go:591-648 | with a file limit of 2 a critical queue of two loses its newest image |
| QueueRuns.SlotStaysFree | internal/queue/queue.go:114-126 | the name chosen is the first free millisecond and stays free through the cleanup between the writes |
| QueueRuns.EnqueueAddsOnlyItsSlot | internal/queue/queue.go:78-223 | every file after an enqueue was there unchanged, or is the image under a name no file had when it was written |
| QueueRuns.OfferOutcome | internal/queue/queue.go:78-223 | which offers are refused unchanged, and, for the others, how the deciding write alone makes them stored, an error or a pause |
| QueueRuns.StepKeeps | internal/queue/queue.go:78-717 | every operation keeps counters, timestamps, ledger, latch and bound, whatever removes and writes fail |
| QueueRuns.CountersAgree | internal/queue/queue.go:45-171 | after any run count and bytes are those of the directory; the cached ends are times of queued images, none when it is empty, and the oldest and newest while name order is time order |
| QueueRuns.EndsAreRightIff | internal/queue/queue.go:151-156 | after any run, exactly when each cached end is right: stored since the last listing, or, by first digits, at its end of that listing |
| QueueRuns.RebuiltEndsIff | internal/queue/queue.go:909-919 | reading the ends back gives the oldest and the newest exactly under the digit conditions of the listing |
| QueueRuns.StoredEndsIff | internal/queue/queue.go:151-156 | a store keeps a right end right, and rights a wrong one exactly when it goes beyond every image |
| QueueRuns.RestartSwapsEnds | internal/queue/queue.go:45-66 | a restart over an image from before the clock was set and a later one caches the later as oldest and the earlier as newest |
| QueueRuns.RemovalLedger | internal/queue/queue.go:146-573 | scanned plus queued is held plus thinned, expired, dropped and taken down; uploads split into taken down and already gone |
| QueueRuns.PauseLatch | internal/queue/queue.go:828-907 | for any thresholds, capture is paused iff a pausing reading has not been cleared since |
| QueueRuns.PausedIsCriticalSince | internal/queue/queue.go:833-907 | with pausing on and resume at most critical, paused iff a critical reading or failed recovery came after the last one below resume |
| QueueRuns.OrderedIff | internal/queue/queue.go:833-907 | resume at most critical is exactly what makes pausing and critical readings agree on every history |
| QueueRuns.DisorderedRunGoesOn | internal/queue/queue.go:833-882 | a restart at six images of ten, critical at 0.5 and resume at 0.9, is critical and not paused |
| QueueRuns.CapacityBound | internal/queue/queue.go:133-163 | with pausing on, no run holds more images than at start or than the rounded-up threshold |
| QueueRuns.UploadCountsIff | internal/queue/queue.go:497-531 | exactly when an upload keeps the byte counter right |
| QueueRuns.DropCountsIff | internal/queue/queue.go:370-408 | exactly when a drop keeps the byte counter right |
| QueueRuns.ReusedNameMiscounts | internal/queue/queue.go:497-531 | a run that ends with a wrong byte counter: dequeue, drop, store in the same millisecond, report the upload |
| QueueRuns.ClampsNeverFire | internal/queue/queue.go:515-522 | for a genuine image the clamps to zero do nothing |
| QueueRuns.HandedOutRunsAreGenuine | internal/queue/queue.go:313-531 | a run is genuine when each image uploaded or dropped was read from the queue earlier in it and its name not written since |
| QueueRuns.DequeuedRunsAreGenuine | internal/queue/queue.go:313-531 | so is one whose uploads and drops are of images a dequeue returned |
| QueueCuts.ThinIsExact | internal/queue/queue.go:576-671 | with working removes, thinning leaves max(target, protected) images, both protected ends whole |
| QueueCuts.EmergencyIsExact | internal/queue/queue.go:674-717 | with working removes, exactly the newest share stays, at least one image |
| QueueCuts.AttemptsStopInTime | internal/queue/queue.go:242-258 | the attempts counted stop at the first sufficient reading or with the newest file left |
| QueueCuts.LastSurvives | internal/queue/queue.go:236-303 | the image listed last survives any mix of thinning, emergency thinning and space recovery |
| QueueCuts.NewestSurvivesIff | internal/queue/queue.go:236-303 | the newest image survives every such mix iff it is listed last, as it is while name order is time order |
| QueueCuts.ExpiryIsExact | internal/queue/queue.go:534-573 | while name order is time order and removes work, expiry removes exactly the images older than the cutoff |
| QueueCuts.ExpiryLeavesNoStaleIff | internal/queue/queue.go:534-573 | with working removes expiry takes nothing young, and leaves nothing stale iff no young image is listed before a stale one |
| QueueCuts.StaleFirstIff | internal/queue/queue.go:534-573 | that condition in digits |
| QueueCuts.DequeueIsOldestIff | internal/queue/queue.go:313-343 | a dequeue hands out the true oldest, or newest, exactly under the digit condition for that end of the listing |
| QueueCuts.EarlyImageIsReached | internal/queue/queue.go:534-573 | a run in which an image from before the clock was set is stale, is not expired, and is not the one handed out as oldest |
| QueueLaws.HealthFate | internal/queue/queue.go:828-902 | a health check in counts and bytes: the level is the highest threshold reached, critical pauses, below resume ends the pause |
| QueueLaws.ResumeFate | internal/queue/queue.go:345-352 | a resume check ends the pause of a queue below resume and does nothing else |
| QueueLaws.RefusalFate | internal/queue/queue.go:82-101 | each refusal and its condition: paused, under 100 bytes, more than 5 s ahead, over age; the first that applies |
| QueueLaws.ThinFate | internal/queue/queue.go:576-671 | with working removes a queue over eight, six or four tenths of its limit keeps exactly that or its protected ends; any other keeps all |
| QueueLaws.ThinPicks | internal/queue/queue.go:602-660 | which images go: the i-th of r at position i * l / r of the l between the ends |
| QueueLaws.EmergencyFate | internal/queue/queue.go:269-304 | with working removes exactly the newest share of the listing stays |
| QueueLaws.RecoveryFate | internal/queue/queue.go:236-267 | with working removes space recovery leaves exactly the files after the first sufficient reading, or the last one |
| QueueLaws.EnqueueFate | internal/queue/queue.go:78-223 | the whole directory after an accepted offer: recovery, then the newest three tenths if the write ran out of space, then the image in the first free millisecond |
| QueueLaws.DequeueFate | internal/queue/queue.go:313-343 | a dequeue hands out one end of the listing with its size, none when the count is zero or no file is there |
| QueueLaws.UploadFate | internal/queue/queue.go:497-531 | an upload takes its file down, one image and its bytes off the counters, and is counted once |
| QueueLaws.DropFate | internal/queue/queue.go:370-408 | a drop does the same and is counted as a drop, not an upload |
| QueueLaws.GoneFate | internal/queue/queue.go:376-390 | when the file is gone already the counters are rebuilt, and an upload is counted as already gone |
| QueueLaws.StuckFate | internal/queue/queue.go:501-511 | a file that cannot be removed leaves everything as it was |
| QueueLaws.ThinnedFate | internal/queue/queue.go:576-671 | whatever fails, what thinning removes is counted as thinned and nothing else |
| QueueLaws.EmergencyCounted | internal/queue/queue.go:269-304 | so is what an emergency thin removes |
| QueueLaws.RecoveryCounted | internal/queue/queue.go:236-267 | so is what space recovery removes |
| QueueLaws.ExpiredFate | internal/queue/queue.go:534-573 | what expiry removes is counted as expired and nothing else |
| QueueLaws.LevelIsCurrent | internal/queue/queue.go:828-882 | after any run the health level is the one the counters stand for, unless an enqueue was short of space and then failed |
| ImageQueues.ImageQueue.constructor | internal/queue/queue.go:45-75 | the scan restores counters, timestamps and health from the files found |
| ImageQueues.ImageQueue.ListFilesSorted | internal/queue/queue.go:792-826 | sorting by file name yields the one listing in name order |
| ImageQueues.ImageQueue.UpdateHealthLevel | internal/queue/queue.go:828-882 | one health check: level, pause and resume as specified |
| ImageQueues.ImageQueue.Offering | internal/queue/queue.go:78-171 | the enqueue takes exactly the specified step on every path |
| ImageQueues.ImageQueue.FindSlot | internal/queue/queue.go:118-126 | the duplicate loop ends at the first free millisecond from the observation time on |
| ImageQueues.ImageQueue.TryWrite | internal/queue/queue.go:174-223 | one retry after a cleanup, as specified |
| ImageQueues.ImageQueue.ThinQueue | internal/queue/queue.go:576-671 | the thinning loop, in any order over its set of positions, takes exactly the specified step |
| ImageQueues.ImageQueue.PlanThinning | internal/queue/queue.go:589-648 | the loop that picks positions computes exactly the specified set |
| ImageQueues.ImageQueue.EmergencyThinOldest | internal/queue/queue.go:269-304 | both emergency thinners take exactly the specified step and report the files removed |
| ImageQueues.ImageQueue.EmergencyThinForSpace | internal/queue/queue.go:236-267 | the recovery loop with its early exit takes exactly the specified step |
| ImageQueues.ImageQueue.DequeueNext | internal/queue/queue.go:313-343 | hands out the first or the last image of the listing, or none |
| ImageQueues.ImageQueue.Uploaded | internal/queue/queue.go:497-531 | marking an upload takes exactly the specified step, with its resync when the file is gone |
| ImageQueues.ImageQueue.DropQueuedImage | internal/queue/queue.go:370-408 | dropping an image takes exactly the specified step |
| ImageQueues.ImageQueue.ExpireOldImages | internal/queue/queue.go:534-573 | the loop with its early break tries exactly the stale images listed before the first young one |
| QueueManagers.PressureKeeps | internal/queue/manager.go:195-261 | a pressure check of up to three passes keeps a queue's invariants and the image listed last, for any configuration |
| QueueManagers.PressureFate | internal/queue/manager.go:195-261 | with working removes a check keeps exactly the newest images: a share by the ratio when over, then 0.3 below 10 % free or 0.5 below 20 %, then 0.3 when the heap is high |
| QueueManagers.RoomFate | internal/queue/manager.go:241-261 | with a fifth of the filesystem free a paused queue below its resume threshold is resumed, and nothing goes |
| QueueManagers.QueueManager.CheckMemoryPressure | internal/queue/manager.go:178-261 | every queue goes through exactly the passes its readings call for; the recorded total is the sum of the counters |
| InterceptorSpec.StepKeeps | internal/station/interceptor.go:174-414 | every step of handlers, worker and configuration keeps the hub's invariants |
| InterceptorSpec.WakeUpsAreNotLost | internal/station/interceptor.go:206-285 | a quiescent hub has nothing pending, and each station's latest job, unless pruned, was posted last |
| InterceptorSpec.PostedInOrder | internal/station/interceptor.go:206-285 | at any moment a station's posted jobs are a subsequence of its enqueued ones |
| InterceptorSpec.EmissionsSpaced | internal/station/interceptor.go:395-406 | accepted requests of a station that stayed routed are at least a second apart |
| InterceptorSpec.EmittedIff | internal/station/interceptor.go:395-412 | in every reachable hub a request goes through exactly when each recorded emission of its station since the routes last dropped it is a second older |
| InterceptorSpec.PendingFate | internal/station/interceptor.go:174-214 | the latest job replaces its station's pending one; new routes take away exactly the dropped stations' jobs and stamps |
| InterceptorSpec.WorkerNeverStuck | internal/station/interceptor.go:254-285 | a running hub without half-done enqueues is quiescent or its worker can move |
| InterceptorSpec.WorkerProgresses | internal/station/interceptor.go:254-285 | each worker step strictly lowers a bound on the steps left |
| InterceptorSpec.WorkerRunEnds | internal/station/interceptor.go:254-285 | however the worker goes on alone, it takes at most Rank steps |
| InterceptorSpec.WorkerDrains | internal/station/interceptor.go:254-285 | left alone, the worker of a running hub reaches quiescence within Rank steps, with the latest job of every station posted |
| InterceptorHubs.InterceptorHub.InstallRoutes | internal/station/interceptor.go:174-192 | new routes prune rate stamps and pending jobs as specified |
| InterceptorHubs.InterceptorHub.CheckRate | internal/station/interceptor.go:395-406 | the rate check takes exactly the specified step |
| InterceptorHubs.InterceptorHub.TakePending | internal/station/interceptor.go:216-228 | hands out every pending job once, in any order, and empties the map |
| InterceptorHubs.InterceptorHub.LookForJobs | internal/station/interceptor.go:262-272 | the woken worker takes a batch or goes back to waiting |
| InFlightSpec.InFlightIsExact | internal/scheduler/upload.go:518-667 | in every interleaving no path is held twice and the in-flight set is what is held; the active count is exact |
| InFlightSpec.UploadedAtMostOnce | internal/scheduler/upload.go:518-667 | when removals succeed and no upload panics after success, no stored image is uploaded twice |
| InFlightSpec.LeavesOnlyMarked | internal/scheduler/upload.go:528-562 | a path leaves the set for want of room, or by its one holder after the mark, a failure or a panic; never while a successful upload of it is still to be marked |
| InFlightSpec.UploadedStaysInFlight | internal/scheduler/upload.go:528-562 | an uploaded image still on disk is in flight, unless its removal failed or its worker panicked |
| InFlightSpec.PlacingFate | internal/scheduler/upload.go:618-667 | the coordinator with an image: nothing if in flight, given up if there is no room, else sent and in flight |
| InFlightSpec.TakingFate | internal/scheduler/upload.go:518-524 | a worker takes the oldest task and is counted; nothing else changes |
| InFlightSpec.TaskFate | internal/scheduler/upload.go:528-562 | one task to its end: a success is on record and its file taken down, a failure leaves both alone, and the path is given back |
| InFlightSpec.PanicFate | internal/scheduler/upload.go:528-548 | a panic ends an upload like a failure; after a success the unmarked file is on record |
| UploadPools.RoundIsSafe | internal/scheduler/upload.go:588-667 | a scheduling round stays within slots and channel room and sends nothing in flight, nothing twice |
| UploadPools.RoundIsComplete | internal/scheduler/upload.go:588-667 | a round leaves out a free image only when slots or room ran out |
| UploadPools.EarlierFirst | internal/scheduler/upload.go:588-667 | earlier cameras first: when an offer is sent, every earlier one is in flight |
| UploadPools.UploadPool.CheckInFlight | internal/scheduler/upload.go:637-645 | the in-flight check takes exactly the protocol's step |
| UploadPools.UploadPool.SendOrGiveUp | internal/scheduler/upload.go:650-666 | the non-blocking send takes exactly the protocol's step |
| UploadPools.UploadPool.ScheduleUploads | internal/scheduler/upload.go:577-667 | the scheduling loop sends exactly the specified round |
| KnownHosts.LineRoundTrip | internal/upload/hostkey.go:329-331 | a formatted line reads back as the pin it was made from, for its own label only, whatever the key decoder |
| PinEdits.AppendReads | internal/upload/hostkey.go:199-254 | the whole effect of an append on every host's lookup, for any file and label |
| PinEdits.AppendPinsIff | internal/upload/hostkey.go:199-254 | appending pins a missing label iff the file's last line, by its words and ending, takes the pin; for any file |
| PinEdits.AppendDisturbsIff | internal/upload/hostkey.go:199-254 | exactly when an append changes a host's lookup, for any file, label and host |
| PinEdits.UnterminatedFileLosesPin | internal/upload/hostkey.go:243-254 | after a full pin without newline the appended pin is lost and the first host's key text has the label at its end |
| PinEdits.ReplacePinsIff | internal/upload/hostkey.go:256-302 | replacing leaves the new key pinned iff the label can stand alone in the host field |
| PinEdits.ReplaceKeeps | internal/upload/hostkey.go:256-302 | the whole effect of a replace on every host's lookup in a file with unique pins, for any label |
| PinEdits.ReplaceKeepsIff | internal/upload/hostkey.go:256-302 | so a host the label does not name keeps its lookup iff its pin line does not name the label; else it has none |
| PinEdits.SharedLineLosesPin | internal/upload/hostkey.go:262-273 | replacing one host of a shared line takes the other's pin away |
| PinEdits.ReplaceUniqueIff | internal/upload/hostkey.go:256-276 | a rewrite leaves two pins for no label iff no label its new line pins has one on a kept line; for any file and label |
| PinEdits.AppendUniqueIff | internal/upload/hostkey.go:243-254 | an append leaves two pins for no label iff no label the appended-to line pins was pinned before it; for any file and label |
| PinEdits.AppendText | internal/upload/hostkey.go:243-254 | an append leaves the text in place and adds one line's text at its end |
| PinEdits.ReplaceText | internal/upload/hostkey.go:256-302 | a replace keeps every line that does not name the label, comments too, in order, and ends in the new one |
| HostKeyProtocol.PinsStayUnique | internal/upload/hostkey.go:86-180 | no interleaving of verifications leaves two pins for one label, from any file with unique pins whose torn last line is a comment or a whole pin |
| HostKeyProtocol.SectionUniqueIff | internal/upload/hostkey.go:86-180 | for any label, exactly when a section leaves at most one pin per label |
| HostKeyProtocol.SectionChangesIff | internal/upload/hostkey.go:86-180 | for any label, exactly when a section changes a host's lookup |
| HostKeyProtocol.SuccessPinsIff | internal/upload/hostkey.go:86-144 | for any file and label, exactly when a section that succeeds leaves its own key pinned |
| HostKeyProtocol.SuccessMeansPinned | internal/upload/hostkey.go:86-144 | in every interleaving, over any file and for any labels, exactly when a success leaves its own key pinned |
| HostKeyProtocol.SuccessAlwaysPins | internal/upload/hostkey.go:86-144 | from a file ending in a newline or blanks there is no exception |
| HostKeyProtocol.SectionIsLawful | internal/upload/hostkey.go:86-180 | whatever the other labels: a section changes its own label's pin only to its own key and by the roster just read, save on a torn line too short for a pin; another host's exactly on a shared or torn line |
| HostKeyProtocol.OthersNeverChange | internal/upload/hostkey.go:86-180 | from a newline-terminated file with one host per line no interleaving changes another label's pin |
| HostKeyProtocol.AcceptsIff | internal/upload/hostkey.go:86-144 | exactly which keys an undisturbed verification accepts, and that it leaves the file alone when it does not |
| HostKeyProtocol.AcceptedAgain | internal/upload/hostkey.go:86-144 | an accepted key is accepted again at once, whatever the roster says then |
| HostKeyStores.HostKeyStore.LookupPin | internal/upload/hostkey.go:199-232 | the scan returns the first pin for the label |
| HostKeyStores.HostKeyStore.ReplacePin | internal/upload/hostkey.go:256-302 | the rewriting loop produces exactly the specified file |
| HostKeyStores.HostKeyStore.VerifyFirst | internal/upload/hostkey.go:94-135 | the section up to the fetch takes exactly the specified step |
| HostKeyStores.HostKeyStore.VerifySecond | internal/upload/hostkey.go:107-143 | the section after the fetch takes exactly the specified step |
| Sse.ConsumeInParts | internal/web/static/js/weather-display.js:58-84 | consuming a, then its rest followed by b, is consuming a + b |
| Sse.FeedIsConsume | internal/web/static/js/app.js:905-920 | feeding chunks with the rest carried over consumes the whole text, however it is cut |
| Sse.RoundTrip | internal/web/server.go:936-943 | newline-free payloads, printed, cut anywhere and fed, come out all, in order, with nothing left |
| Sse.RoundTripIff | internal/web/static/js/weather-display.js:58-84 | a payload survives printing and consuming iff it has no newline |
| Sse.TwoLineFrame | internal/web/static/js/weather-display.js:68-77 | the values of a frame's data lines are joined by newlines, other lines ignored; a frame without any is no event |
| Sse.ParseFate | internal/web/static/js/weather-display.js:74-80 | texts that do not parse are skipped and make no difference to the others |
| Sse.ReceivedIsConsume | internal/web/static/js/app.js:905-926 | a stream, however cut and however it ends, yields exactly what its text and a blank line yield |
| Sse.TornStream | internal/web/static/js/app.js:905-926 | a stream that breaks off yields its whole events and then the torn line's text, if the field name is complete |
| Sse.LastBlankIsOptional | internal/web/static/js/app.js:921-926 | without the last blank line, or with half of it, no event is lost |
| Sse.ConsumeBuffer | internal/web/static/js/weather-display.js:58-84 | the loop computes exactly the specified events and rest |
| Sse.ReadStream | internal/web/static/js/app.js:905-926 | the reading loop and its end-of-stream parse compute exactly those events |
| TimeHealths.HealthyIff | internal/time/types.go:146-185 | healthy iff the most recent response was in bounds and within the grace period at the latest check |
| TimeHealths.ResponseIsFirst | internal/time/types.go:146-170 | the first server that answers decides |
| TimeHealths.RecordIsLast | internal/time/types.go:146-185 | the offset on record is that of the most recent response, the last check the last one |
| TimeHealths.TimeHealth.constructor | internal/time/types.go:50-86 | starts unhealthy, with the defaults for unset settings |
| TimeHealths.TimeHealth.Sync | internal/time/types.go:146-185 | the server loop takes exactly the specified step |

## Left out

- HTTP, SFTP, NTP, mDNS, capture and image tools: only their outcome is an input.
- Status texts, payload log, healing of stale error texts, log lines: no protocol depends on them.
- Directory listings that fail: the queue's listing always succeeds here; a failed one would blank the cached timestamps.
- Temporary files of the image writer, and foreign files in the queue directory: only images under the names the queue writes are modelled, not other spellings of a number.
- Batch dequeue and peek: copies of the single dequeue's reading.
- QueueLaws.LevelIsCurrent: says nothing of the health level after an enqueue that thinned for space and then failed to write.
- RemoveQueue: a camera's whole directory going away is not modelled.
- Hub replacement on a changed listen address: one hub's lifetime is modelled, not the hand-over to the next.
- Capture gate and upload back-off times: counters and timers without a cross-step property here.
- Upload fairness: the scheduling loop always starts at the first camera, so none holds.
- Transfers that outlive their timeout: in-flight safety is about tasks.
- UploadPools.UploadPool.ScheduleUploads: states a round no worker interrupts; the interrupted one is covered by the steps of InFlightSpec.
- QueueManagers.QueueManager.CheckMemoryPressure: states a check that no other queue operation interrupts between its passes; each pass alone is a step of every run in QueueRuns.
- Key decoding and fingerprints: functions of the model's caller; of a presented key it is asked that the store's text for it decodes to it and that its type word does not decode. Roster entries are taken as trimmed.
- HostKeyProtocol.PinsStayUnique: over a whole run it asks for labels that can stand alone and a last line that is whole; HostKeyProtocol.SectionUniqueIff is the exact law of each section without either.
- HostKeyProtocol.SectionIsLawful: asks for a file with unique pins and a label that can stand alone; HostKeyProtocol.SectionChangesIff is the exact law of a section for any label.
- Labels with a line feed in them.
- A write to the pin file that fails half-way: a failed append or replace leaves the file as it was.
- Over-long lines of the pin file, and white space beyond blank, tab, line feed and carriage return.
- JSON: parsing is a function parameter, and the browser's decoding of bytes to text is not modelled.
