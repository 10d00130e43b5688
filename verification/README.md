# poligon: a verified model of the stateful core

poligon is a control plane for a farm of phones. This project models the parts of it that keep
state under concurrency, crashes or time, and the parsers and arithmetic those parts rest on, and
proves what they promise. `dafny verify dfyconfig.toml` checks everything.

| area | files |
|---|---|
| shared iOS screen reader | `Stream`, `JpegScan`, `JpegReads`, `ScreenController`, `ScreenRegistry`, `ScreenDelivery` |
| reservations and leases | `Farm`, `Reservations`, `ReservationSafety`, `BatchOwnership`, `Leases` |
| device poller | `Window`, `Poller`, `Outages`, `FarmPolls` |
| test runs | `Runs`, `RunMachine`, `RunHistories`, `Submit`, `RunFarm` |
| time-window limiters | `Limiter`, `AdbGuard` |
| parsers and framing | `Texts`, `Base64`, `Plist`, `Entitlements`, `AdbFilter` |
| coordinates | `Divisors`, `Coordinates` |

Each operation the program carries out step by step on fields, buffers or tables is a class method
or a loop here, proved equal to a function of the old state; the theorems are about those functions
over every input, every run or every interleaving. Concurrency is a state machine whose steps are
the stretches between lock sections (screen), store transactions (reservations) or store writes
(runs, with a crash possible between any two). Time is an integer that each step is given.

## What the model says beyond the happy path

Where a property one would expect fails, the project keeps the code as it is, gives a run that
breaks the property and proves exactly which steps keep it.

- The JPEG splitter gives the same frames for every way of reading a stream, a bounded number of bytes
  at a time, if and only if every frame is at most one byte over `maxFrame` and no gap in front of a
  frame, together with the frame's first byte, can be read as stretches that are each dropped for being
  over `maxFrame` (`JpegReads.ReadsDoNotMatterIffFits`). For the program's 32 KiB reads, gaps below
  `maxFrame` are harmless, the next 32768 lengths are not, those beyond are again up to 2 `maxFrame`, and
  from 257 (`maxFrame` + 1) on no gap is (`JpegReads.ProgramGaps`).
- `Subscribe` checks that a stream is open and attaches to it in two lock sections. A fired idle timer
  in between leaves a viewer on a closed stream (`ScreenRegistry.ViewerOnClosedStream`). An endpoint
  that changes after `Subscribe` read it starts a reader of the old one (`ScreenRegistry.StaleReader`).
- The broadcast of an ended context takes no lock, so a cancellation that lands between the context
  check and the wait is not heard (`ScreenDelivery.LostCancellation`). It is lost exactly when that
  broadcast runs while the viewer is past the check with nothing to return
  (`ScreenDelivery.RunCancelHeard`).
- A status written from data read before a release leaves a device marked as held that nobody can
  book, release or reap (`Poller.StalePollSticks`, `ReservationSafety.StuckDevice`).
- The memory of an absence survives the demotion it caused: the next outage can get no grace at all
  (`Outages.SecondOutageGetsNoGrace`). The next outage gets its full grace exactly when every missed
  poll so far was followed by a healthy one (`Outages.GraceIffHealed`).
- A batch release is a query followed by forced releases. A device that changes hands in between is
  taken from its new holder (`BatchOwnership.StaleListTakesNewHold`).
- A process that dies between a run's final status and the release of its batch never releases that
  batch (`RunMachine.CrashLosesBatch`). That is the only way a finished run's own batch stays unreleased
  (`RunMachine.ReleasedIffNeverDiedOwing`, and with the tables `RunFarm.FinishedRunIsEnded`).
- A run whose device timed out on its own counts as passed (`Runs.TimedOutRunPasses`), and so does one
  whose rows cannot be read back (`Runs.UnreadableRunPasses`). `Runs.PassedInVain` gives all runs that
  pass although some device neither passed nor was skipped.
- A device list of 65535 bytes without its final newline grows by one byte when filtered and no
  longer fits its frame (`AdbFilter.UnterminatedOverflows`). That happens exactly when all its lines are
  visible and none loses a carriage return (`AdbFilter.StaysSendableUnlessFull`).
- An entitlements dict written as `<dict/>` is not the text that is cut out
  (`Entitlements.CutsExactlyTheDict`).
- A small element can be missed by its own centre tap. `Coordinates.AlwaysHitIff` gives, for every screen,
  the extents at which none is: with half extent h, far side f, long edge E above 1280 and g the greatest
  common divisor of 1280 and E, exactly those with 2560 f > E and 2560 h + 2 g >= E.

## Model

| member | source | states |
|---|---|---|
| JpegScan.BoundedScanIsSplit | internal/iosscreen/stream.go:364-401 | For every sequence of bounded reads of a stream without deadly gaps or oversized frames, the frames published are those of the simple left-to-right split |
| JpegScan.ScanIsSplit | internal/iosscreen/stream.go:364-401 | For every sequence of reads, of whatever sizes, whose concatenation has short gaps and short enough frames, the frames published are those of the simple left-to-right split, markers cut across reads included |
| JpegScan.SameFramesForEveryChunking | internal/iosscreen/stream.go:364-401 | Two ways of cutting the same fitting stream into reads publish the same frames |
| JpegReads.ReadsDoNotMatterIffFits | internal/iosscreen/stream.go:364-401 | For every bound on the size of a read: all ways of reading a stream within that bound give the split's frames exactly when every frame is at most one byte over the cap and no gap g has g + 1 between k (cap + 1) and k (cap + bound) for some k of at least one |
| JpegReads.ProgramGaps | internal/iosscreen/stream.go:366-377 | Which gap lengths are deadly for reads of at most 32 KiB: none below the cap, all for one read's length from there, none again up to twice the cap, and all from 257 (cap + 1) on |
| JpegReads.LostForGood | internal/iosscreen/stream.go:371-377 | Once the first byte of the first frame is dropped, no way of reading the rest publishes what the split gives |
| JpegReads.SplitIsLargest | internal/iosscreen/stream.go:370-396 | No cut of a stream into disjoint pictures has more of them than the left-to-right split |
| JpegReads.OversizedFrameIsLost | internal/iosscreen/stream.go:382-390 | A frame more than one byte over the cap does not survive reads of one byte |
| JpegScan.BufferBounded | internal/iosscreen/stream.go:373-390 | Whatever is read, at most the cap stays buffered between reads |
| JpegScan.PublishedFramesAreSlices | internal/iosscreen/stream.go:391-395 | Even when data is dropped: the buffer is a suffix of the bytes read; the frames are disjoint in-order slices of them, in front of the buffer, each starting with SOI and holding EOI at its end and nowhere before |
| JpegScan.LeftoverHasNoFrame | internal/iosscreen/stream.go:370-396 | What stays buffered never holds a complete frame |
| JpegScan.FirstInPrefix | internal/iosscreen/stream.go:371-392 | Bytes that arrive later never change the first complete frame |
| JpegScan.NextFrame | internal/iosscreen/stream.go:370-396 | One turn of the inner loop cuts out the first frame in place, or keeps from the first SOI on, or drops what is over the cap |
| JpegScan.DrainBuffer | internal/iosscreen/stream.go:370-396 | The inner loop publishes the frames of the buffer in order and leaves exactly the remainder |
| JpegScan.Consume | internal/iosscreen/stream.go:368-396 | One read: never more than the cap plus one read buffered, and the stream sees the frames it completed |
| JpegScan.ScanJPEGs | internal/iosscreen/stream.go:364-401 | The scanner publishes on its stream exactly the frames of the bytes delivered up to and including the first failing read |
| JpegScan.DeliveredIs | internal/iosscreen/stream.go:366-399 | What is scanned is the data of every read before the first failing one, and that one's own |
| JpegScan.Connection | internal/iosscreen/stream.go:260-296 | One connection appends its frames, and sets the error when it broke, unless the reader was stopped; nothing else on the stream changes |
| Stream.Stream.PublishFrame | internal/iosscreen/stream.go:59-66 | A publish appends one numbered frame and clears the error; viewers, timer and closing are untouched |
| Stream.Stream.StopSection | internal/iosscreen/stream.go:214-225 | A fired timer backs off when somebody watches and closes the stream otherwise, and tells its caller which |
| ScreenController.Controller.Subscribe | internal/iosscreen/stream.go:139-164 | Fails only without an endpoint; otherwise the viewer is counted on the device's registered stream, a new one only when there was none, and the idle timer is gone |
| ScreenController.Controller.Release | internal/iosscreen/stream.go:196-212 | One viewer fewer on the stream now registered for the device; the last one arms the timer |
| ScreenController.Controller.StopIfIdle | internal/iosscreen/stream.go:214-233 | Unregisters the timer's own stream and never another one |
| ScreenController.Controller.SetEndpoint | internal/iosscreen/iosscreen.go:76-82 | The endpoint is replaced, the device's reader is torn down and unregistered, no other reader changes |
| ScreenController.Controller.Unset | internal/iosscreen/iosscreen.go:87-93 | The endpoint is gone, the device's reader is torn down and unregistered |
| ScreenRegistry.ReachableInv | internal/iosscreen/stream.go:139-255 | In every interleaving, whenever the registry's lock is free, each open stream is the registered one of its device, a watched stream has no timer, and a pending clean-up belongs to a closed stream |
| ScreenRegistry.OneOpenStreamPerDevice | internal/iosscreen/stream.go:145-153 | No reachable state has two open streams for a device |
| ScreenRegistry.LateStopRemovesNothingOpen | internal/iosscreen/stream.go:214-233 | A timer that runs late never unregisters or closes another open stream |
| ScreenRegistry.NoDeadRegistration | internal/iosscreen/stream.go:214-255 | A registered reader is open or its clean-up is still to come |
| ScreenRegistry.EndpointsFollowSteps | internal/iosscreen/iosscreen.go:76-101 | A device has exactly the endpoint last set for it and not unset since |
| ScreenRegistry.StreamsFollowSteps | internal/iosscreen/stream.go:59-80 | Each reader's stream holds the frames read for it in order, and an error exactly when it failed since the last |
| ScreenRegistry.StepAccounted | internal/iosscreen/stream.go:145-233 | A step keeps exact viewer counts, no viewer on a closed stream and no leaked reader exactly when it tears down no watched reader and attaches to no stream a timer closed in between |
| ScreenRegistry.RunAccounted | internal/iosscreen/stream.go:145-233 | Over whole runs: the three accounts hold in every state if and only if every step was of that kind |
| ScreenRegistry.UndisturbedAccounted | internal/iosscreen/stream.go:139-233 | In runs where Subscribe takes effect in one go and no endpoint changes while the device is watched, refs is the number of viewers, nobody watches a closed stream and no reader leaks, in every state |
| ScreenRegistry.ViewerOnClosedStream | internal/iosscreen/stream.go:145-160 | A run without endpoint changes in which a viewer ends up on a closed stream |
| ScreenRegistry.StepReadsCurrentEndpoint | internal/iosscreen/stream.go:140-153 | Every open stream reads its device's current endpoint after a step exactly when no reader was started from an endpoint read before a change |
| ScreenRegistry.RunReadsCurrentEndpoint | internal/iosscreen/stream.go:140-153 | Over whole runs: open streams read their device's current endpoint in every state if and only if no reader was ever started from an endpoint changed since |
| ScreenRegistry.StaleReader | internal/iosscreen/stream.go:140-153 | A run that leaves an open reader of an endpoint the device no longer has |
| ScreenDelivery.StreamFollowsSteps | internal/iosscreen/stream.go:59-80 | In every state the stream holds the frames published in order, an error exactly while a failure is newer than the newest frame, and is closed exactly once somebody closed it |
| ScreenDelivery.NoLostWakeUp | internal/iosscreen/stream.go:60-117 | A viewer blocked in Next with no broadcast pending has seen every frame published, no failure came since the last one, and nobody closed the stream |
| ScreenDelivery.EndArrives | internal/iosscreen/stream.go:75-114 | A failure or a close reaches a blocked viewer that has seen every frame: after the broadcast its next turn ends Next without a frame |
| ScreenDelivery.CancelledLeaves | internal/iosscreen/stream.go:101-104 | A viewer whose context has ended leaves Next at its next turn without a frame |
| ScreenDelivery.ContextFollowsSteps | internal/iosscreen/stream.go:96-104 | A viewer counts as ended exactly when its current Next was called with an ended context or it ended since |
| ScreenDelivery.FramesInOrder | internal/iosscreen/stream.go:92-117 | The sequence numbers a viewer receives strictly increase and each names the published frame it came with |
| ScreenDelivery.NewestFrameArrives | internal/iosscreen/stream.go:92-117 | A blocked viewer behind the newest frame has a broadcast pending, and after it its next turn returns exactly the newest frame |
| ScreenDelivery.RunCancelHeard | internal/iosscreen/stream.go:96-116 | Over any run, a viewer is left asleep with its context ended and announced exactly when that broadcast ran while it was past the context check with no newer frame, error or close to return, and it had a further turn |
| ScreenDelivery.DoomedAfter | internal/iosscreen/stream.go:96-116 | The loss is decided by that broadcast alone: no other step dooms a viewer, and none but its own turn ends that |
| ScreenDelivery.LostCancellation | internal/iosscreen/stream.go:96-116 | A run in which a viewer sleeps although its context has ended and nothing is left to wake it |
| Reservations.BookAllSucceeds | internal/reserve/reserve.go:87-142 | Booking a list succeeds exactly when no device is repeated and none has an active row |
| Reservations.BookAllAdds | internal/reserve/reserve.go:87-142 | It then adds one active row per device in order, marks exactly those devices reserved and changes no other device |
| Reservations.ReleaseEachRows | internal/reserve/reserve.go:230-248 | Forced releases device by device end exactly the active rows of these devices |
| Reservations.ReleaseSelected | internal/reserve/reserve.go:230-248 | With one active row per device, releasing the devices of selected rows ends those rows and no other |
| Reservations.ReleaseOwnBatch | internal/reserve/reserve.go:230-248 | A user's own batch release ends exactly the user's active rows of the batch |
| ReservationSafety.BatchReleaseEnds | internal/reserve/reserve.go:230-248 | A batch release ends the caller's active rows of the batch, or, forced and without any of these, all active rows of the batch |
| Reservations.Store.Reserve | internal/reserve/reserve.go:43-83 | Succeeds exactly for an adopted, free device without an active row; adds one row of the user that runs out the maximal lease from now and marks the device reserved; a refusal says why and changes nothing |
| Reservations.Store.ReserveMany | internal/reserve/reserve.go:87-142 | All or nothing, repeated ids included: succeeds exactly for distinct bookable devices, then adds one such row per device in order; otherwise leaves both tables as they were and names the first device in the way |
| Reservations.HeartbeatThenReap | internal/reserve/reserve.go:257-270 | After a heartbeat, a reap ends the caller's rows exactly when it comes later than the idle timeout from then or past their cap, and treats every other row as it would have without the heartbeat |
| Reservations.ReleaseUndoesBooking | internal/reserve/reserve.go:273-299 | A booked device cannot be booked again; its holder's release restores every device and leaves only the released row behind; anyone else's release does nothing |
| Reservations.Store.Release | internal/reserve/reserve.go:273-299 | Succeeds exactly when the device has an active row the caller may end; ends those rows and no other, and frees a held device and no other; otherwise changes nothing |
| Reservations.Store.ReleaseBatch | internal/reserve/reserve.go:230-248 | Releases the caller's devices of the batch, an admin's empty selection falling back to the whole batch; fails only for a non-admin with none |
| Reservations.Store.ReapExpired | internal/reserve/reserve.go:341-369 | Ends what is idle past the timeout or past its cap, and returns the number of those rows |
| ReservationSafety.StepGood | internal/devices/devices.go:261-298 | One booking, release, heartbeat, reap or status write keeps one active row per device and held status only under a hold, exactly when a written held status had a hold behind it |
| ReservationSafety.RunGood | internal/reserve/reserve.go:43-369 | Over any mix of steps both invariants hold in every state if and only if every status write was backed by a hold |
| FarmPolls.PolledFarmGood | internal/devices/devices.go:131-151 | Over any mix of bookings, releases, reaps, heartbeats, status writes and polls, at most one hold per device and no device stuck as held in every state, if and only if every status not written by a poll was backed |
| FarmPolls.WatchFollowsPolls | internal/devices/devices.go:261-341 | In such a run, what is remembered of a device is what its own polls amount to |
| FarmPolls.PollDemotesIff | internal/devices/devices.go:261-311 | In such a run, a poll takes a held device offline exactly when it misses it, is not flapping, and comes more than 90 s after a missed poll no healthy one followed |
| FarmPolls.PollAnswers | internal/devices/devices.go:261-298 | In such a run, for each of the eight statuses exactly when a poll leaves a device in it, by its status before, what the poll sees, whether it is held, and its history: three changes in the last 60 s, an unhealed miss more than 90 s old; maintenance is only left by flapping; no row and no other device changes |
| ReservationSafety.OneActiveAlways | internal/store/schema.sql:76-77 | At most one unreleased row per device after any step, backed or not |
| ReservationSafety.StuckDevice | internal/reserve/reserve.go:273-299 | A held status without a hold cannot be left by booking, releasing or reaping |
| BatchOwnership.ReleaseWholeExact | internal/reserve/reserve.go:230-248 | A forced batch release ends exactly the still-active rows of the batch |
| BatchOwnership.RunReleasesItsOwn | internal/runner/runner.go:296-298 | Whatever happens to the tables meanwhile, a run that booked under a fresh batch finally releases exactly its own still-active reservations |
| BatchOwnership.ListSparesOthers | internal/reserve/reserve.go:230-248 | Releasing from a list fetched earlier spares all other batches exactly when no active row of another batch is on a listed device |
| BatchOwnership.StaleListTakesNewHold | internal/reserve/reserve.go:230-248 | A device released and booked by another user in between is taken from that user |
| Leases.StepRow | internal/reserve/reserve.go:341-369 | What any step not releasing it does to one lease depends on that row alone, although the reaper goes by device |
| Leases.LeaseEndsExactly | internal/reserve/reserve.go:341-369 | Over any run without a release, a lease has ended exactly when some reaper pass came later than its last renewal plus the idle timeout, or past its cap |
| Leases.RunRow | internal/reserve/reserve.go:214-369 | The row in the tables after a whole run is the one computed from that row and the steps |
| Leases.BookedDeviceIsKept | internal/reserve/reserve.go:257-270 | A device booked at an instant whose holder renews at gaps of at most the idle timeout is still that user's at any time up to the maximal lease after that instant |
| Leases.RegularHolderKeeps | internal/reserve/reserve.go:257-270 | The same for one row up to its own cap |
| Leases.NoLeaseOutlivesTheCap | internal/reserve/reserve.go:341-369 | In every run, a reservation has ended for good with the first reaper pass more than the maximal lease after it was made |
| Leases.RunCapped | internal/reserve/reserve.go:58-64 | In every state of every run, each reservation runs out exactly the maximal lease after it was made |
| Leases.CapIsHard | internal/reserve/reserve.go:341-369 | No heartbeat pattern outlives the first reaper pass after a row's own cap |
| Poller.FlappingIffHistory | internal/devices/devices.go:320-341 | A poll is judged flapping exactly when the full history holds at least three connectivity changes in the last minute, although only a pruned list is kept |
| Poller.FlapIsRecentHistory | internal/devices/devices.go:320-341 | The kept list is the full history's last minute, nothing lost and nothing older |
| Outages.DemotedOnlyAfterGrace | internal/devices/devices.go:261-317 | When a poll moves a held device to offline, no non-flapping online poll of it in a held status came in the 90 s before |
| Outages.DemotedIffMissed | internal/devices/devices.go:261-317 | Over any history: a held device is moved to offline exactly by a non-flapping offline poll more than 90 s after a missed poll which no healthy poll followed |
| Outages.SinceIsOldestMiss | internal/devices/devices.go:302-317 | The remembered start of an absence is the oldest missed poll that no healthy poll followed |
| Outages.GraceIffHealed | internal/devices/devices.go:302-317 | The next outage gets its full 90 s however its polls fall exactly when every missed poll before it was followed by a healthy one |
| Outages.SecondOutageGetsNoGrace | internal/devices/devices.go:302-317 | A history in which a device that was back online is demoted by the first poll of its next outage |
| Poller.AtomicPollIsBacked | internal/devices/devices.go:131-151 | A poll that reads and writes in one step never marks a device as held that nobody holds |
| Poller.StalePollSticks | internal/devices/devices.go:131-151 | A poll that writes after a release what it read before it leaves the device held by nobody |
| Poller.Manager.IsFlapping | internal/devices/devices.go:320-341 | Prunes the device's list in place, records a change and answers from it; no other device's list changes |
| FarmPolls.NextAnswers | internal/devices/devices.go:261-298 | The same for the manager's memory of one device, as an equivalence for each answer |
| Poller.Manager.Reconcile | internal/devices/devices.go:261-298 | Decides the next status and updates what is remembered about this device only |
| Window.Prune | internal/devices/devices.go:330-337 | In-place filtering keeps exactly the instants after the cutoff, in order |
| Window.AddAfter | internal/devices/devices.go:330-337 | Pruning earlier and adding loses nothing for a later cutoff |
| Runs.RunStore.CreateRun | internal/store/runs.go:15-41 | The new run is last in the queue with all its devices pending; earlier runs, the rest of the queue and the orphans are untouched |
| Runs.RunStore.QueuedRunIDs | internal/store/runs.go:200-216 | Returns the queued runs, oldest first |
| Runs.RunStore.OrphanRuns | internal/store/runs.go:244-260 | Returns exactly the runs still marked running |
| Runs.RunStore.Execute | internal/runner/runner.go:209-306 | A queued run ends with every device's verdict and the tally's status; a run no longer queued and all other runs are left alone |
| Runs.RunStore.DrainQueue | internal/runner/runner.go:188-200 | Terminates; runs a prefix of the queue, oldest first, all of it unless stopped, and the queue loses exactly the runs executed |
| Runs.FinishedLeavesQueue | internal/runner/runner.go:188-200 | Executing the oldest queued run takes exactly that one off the queue |
| Runs.Tally | internal/runner/runner.go:266-295 | The counting loop reaches the verdict defined by which statuses occur |
| Runs.VerdictIs | internal/runner/runner.go:266-295 | Canceled, Errored, Failed and Passed each as an equivalence over the rows |
| Runs.PassedInVain | internal/runner/runner.go:266-295 | Exactly which runs pass although some device neither passed nor was skipped: unreadable ones, and readable, uncanceled ones with an overlooked row, no failed or errored one, and a passed one unless none was skipped |
| Runs.PassedMeans | internal/runner/runner.go:266-295 | With rows read back and finished, a passed run has all devices passed or skipped exactly when none was canceled |
| Runs.UnreadableRunPasses | internal/runner/runner.go:266-270 | A run whose rows cannot be read back passes although its device failed |
| Runs.TimedOutRunPasses | internal/runner/runner.go:401-406 | A run whose only device is canceled by its own timeout is passed |
| RunMachine.FinishedForGood | internal/runner/runner.go:155-366 | With crashes between any two store writes: a finished run has only finished device rows, and neither they nor its status ever change again |
| RunHistories.InterruptedRunIsError | internal/runner/runner.go:155-170 | A run that is running when the process dies, and is running no longer later, is recorded as an error, with every unfinished device an error and every finished one as it was |
| RunHistories.VerdictIsKept | internal/runner/runner.go:308-366 | The verdict a device ends with is what its row says from then on, crashes or not |
| RunHistories.StatusFollowsRows | internal/runner/runner.go:262-295 | A run executed to its end gets the status its finished rows call for, and no row and no other run changes |
| RunHistories.PicksOldest | internal/runner/runner.go:188-200 | The scheduler picks the oldest queued run |
| RunHistories.SubmitRecords | internal/store/runs.go:15-41 | A submitted run is recorded last, queued, with all its devices pending |
| RunMachine.NoOrphansAfterRecovery | internal/runner/runner.go:155-170 | Once recovery is over, only the run being executed is marked running |
| RunMachine.BatchesReleasedOnce | internal/runner/runner.go:161-167 | The scheduler releases a run's own batch at most once, after the run has finished, never a borrowed hold; a finished run's batch is released, about to be, or lost to a crash |
| RunMachine.CrashLosesBatch | internal/runner/runner.go:288-298 | A batch owed when the process dies after the final status is never released |
| RunMachine.LostIffDiedOwing | internal/runner/runner.go:288-298 | A batch is lost if and only if some crash came between its run's final status and its release |
| RunMachine.ReleasedIffNeverDiedOwing | internal/runner/runner.go:155-298 | Once the scheduler is past a finished run, the run's own batch has been released if and only if no such crash came |
| RunFarm.RunOwnsItsRows | internal/runner/runner.go:102-135 | With the tables, in every state of every run, crashes included: the rows of a run's own batch are exactly those its submission booked, and no other run shares them |
| RunFarm.SchedulerGivesBackItsOwn | internal/runner/runner.go:155-298 | A scheduler step either leaves both tables alone or ends exactly the still-active rows of one run's own batch; for a borrowed hold it does nothing |
| RunFarm.GivenBackIsEnded | internal/runner/runner.go:126-135 | A submission whose run cannot be recorded ends every reservation it booked, and no other |
| RunFarm.FinishedRunIsEnded | internal/runner/runner.go:155-298 | Once the scheduler is past a finished run, every reservation of its own batch has ended, unless the process died right between final status and release |
| Submit.Runner.Submit | internal/runner/runner.go:76-140 | Accepted exactly when all devices are known and either the caller's already or all bookable; then one run is recorded, a borrowed hold leaves every reservation untouched and otherwise exactly the run's devices are booked; a refusal gives the first reason that applies, records nothing and gives back whatever it booked |
| Submit.GivenBack | internal/runner/runner.go:126-135 | Booking under a fresh batch and force-releasing it restores every device and every earlier row |
| Submit.Dedup | internal/runner/runner.go:80-95 | Every device once, none lost |
| Limiter.AtMostFivePerWindow | internal/auth/auth.go:483-522 | No span shorter than 15 minutes holds more than five failures that passed the check, wherever the sweeper runs |
| Limiter.IdleKeyStartsAfresh | internal/auth/auth.go:512-522 | After a sweep more than 15 minutes past the last failure and past the lock, fewer than five attempts never get the key locked |
| Limiter.SweepForgets | internal/auth/auth.go:512-522 | A sweep forgets a key exactly when its last failure is more than the window back and no lock reaches the sweep |
| Limiter.SweepKeepsLocks | internal/auth/auth.go:512-522 | Sweeping never lifts a lock early |
| Limiter.BucketSummarizes | internal/auth/auth.go:490-504 | While no sweep finds the key idle, the counter is the number of all failures modulo five and the lock is that of the last fifth one |
| Limiter.BlockedIffLocked | internal/auth/auth.go:483-504 | Under that condition a key is blocked exactly within the lock window after the last fifth failure |
| Limiter.Limiter.Login | internal/auth/auth.go:226-239 | A blocked attempt changes nothing, a success forgets the key, a failure counts; no other key is touched |
| Limiter.Limiter.Gc | internal/auth/auth.go:512-522 | Forgets exactly the idle, unlocked keys |
| AdbGuard.FourRestartsSpan | cmd/poligon/adbguard.go:188-217 | Any four successive restarts in the full history span at least half an hour, although only a pruned list is kept and the restart is dated after the check |
| AdbGuard.RestartIff | cmd/poligon/adbguard.go:54-107 | Over any history: a listening server is restarted exactly when it is managed, fewer than three restarts came in the last half hour, and more than one server is up, or the probe is the second in a row without answer, or two answers in a row have missed a phone |
| AdbGuard.CountersSummarize | cmd/poligon/adbguard.go:72-93 | What the two counters stand for in the history since the last restart |
| AdbGuard.SidecarFollowsServer | cmd/poligon/adbguard.go:109-119 | The sidecar is restarted exactly when the single server is not the one seen last, over any history |
| AdbGuard.WedgedMeansSilent | cmd/poligon/adbguard.go:72-93 | A wedged count of k stands for k unanswered probes in a row |
| AdbGuard.OneMissedProbeIsForgiven | cmd/poligon/adbguard.go:96-107 | With one server and no phone missing, a restart takes two unanswered probes in a row |
| AdbGuard.AdbServerGuard.Check | cmd/poligon/adbguard.go:54-121 | One tick updates counters, last server and restart list, and restarts as decided from them |
| AdbFilter.MessageRoundTrip | internal/adbfilter/adbfilter.go:163-182 | Reading after writing returns the message and leaves the rest unread exactly for messages of up to 65535 bytes |
| AdbFilter.ClientSeesVisibleLines | internal/adbfilter/adbfilter.go:226-271 | For OKAY, any newline-terminated lists, any allow-lists in between and any broken end, the client decodes OKAY and then exactly the allowed lines of each list, in order |
| AdbFilter.ClientSeesItsPhones | internal/adbfilter/adbfilter.go:226-271 | From a tracking stream of phone lists the client decodes, list by list and in order, exactly the phones whose serial is allowed at that moment |
| AdbFilter.PhoneSurvives | internal/adbfilter/adbfilter.go:262-268 | In a list, a line with leading white space, a serial and what follows behind white space survives exactly when the serial is allowed |
| AdbFilter.ListedPhoneSurvives | internal/adbfilter/adbfilter.go:262-268 | The lines adb prints, serial, tab and state, survive exactly for the allowed serials |
| AdbFilter.BlankVanishes | internal/adbfilter/adbfilter.go:262-268 | A line of white space never survives |
| AdbFilter.FailureIsRelayed | internal/adbfilter/adbfilter.go:193-208 | A failure status is passed on with its message and nothing behind it |
| AdbFilter.CutShort | internal/adbfilter/adbfilter.go:193-208 | A response cut short is passed on as far as it is understood |
| AdbFilter.TrackFilters | internal/adbfilter/adbfilter.go:226-249 | What is relayed is byte for byte the OKAY and one frame per filtered list |
| AdbFilter.SelectShrinks | internal/adbfilter/adbfilter.go:255-271 | Exactly the allowed lines survive and the text never grows, so filtered lists still fit their frames |
| AdbFilter.FilteredLength | internal/adbfilter/adbfilter.go:255-271 | Filtering any payload adds at most the missing final newline, and reaches that length exactly when all lines are visible and none loses a carriage return |
| AdbFilter.StaysSendableUnlessFull | internal/adbfilter/adbfilter.go:255-271 | A payload that fits its frame is readable after filtering unless, exactly, it has 65535 bytes, no final newline, only visible lines and no carriage return to lose |
| AdbFilter.UnterminatedOverflows | internal/adbfilter/adbfilter.go:255-271 | Such payloads exist: a single visible line of 65535 bytes |
| AdbFilter.ReadMessage | internal/adbfilter/adbfilter.go:163-177 | Consumes exactly one message, or fails on a short or ill-formed one |
| AdbFilter.FilterDeviceList | internal/adbfilter/adbfilter.go:255-271 | The line loop produces the allowed lines, each newline-terminated |
| AdbFilter.FilterTrack | internal/adbfilter/adbfilter.go:226-249 | The relay writes exactly what the specification makes of the upstream bytes, with the allow-list of each moment |
| AdbFilter.FilterOnce | internal/adbfilter/adbfilter.go:212-221 | One response: a failure status is relayed with its message, an OKAY with its filtered list, a broken one with nothing |
| Base64.RoundTrip | internal/install/signing.go:289-291 | Decoding undoes RFC 4648 section 4 encoding for all byte strings |
| Base64.AcceptsExactlyPadded | internal/install/signing.go:289-291 | Exactly groups of four letters, the last with at most two padding signs at its end, are decoded, to three bytes a group less the padding |
| Plist.ReadBody | internal/install/signing.go:222-287 | Reading the tokens of any printed value gives back that value and stops right behind its end element, whatever follows |
| Plist.ReadDocument | internal/install/signing.go:204-220 | The first dict of a document is read back, whatever is before and after |
| Plist.ReadIndentedDocument | internal/install/signing.go:204-220 | So is one indented with blanks, tabs and line ends |
| Plist.NestedIsLeftOut | internal/install/signing.go:222-287 | The text of an element is its own text only: a nested element, whatever it holds, is left out |
| Plist.FlagIgnoresContent | internal/install/signing.go:222-287 | A boolean is read off its tag, whatever the element holds |
| Plist.OtherIsIgnored | internal/install/signing.go:204-287 | Comments, directives and instructions count for nothing, wherever they are |
| Plist.BadDataFails | internal/install/signing.go:222-291 | Data that is not padded base64 is an error |
| Plist.NoDictNoPlist | internal/install/signing.go:204-220 | A document without a dict is an error |
| Plist.EntriesKept | internal/install/signing.go:228-249 | With distinct keys every printed entry is in the result under its key |
| Plist.OthersKept | internal/install/signing.go:228-249 | Reading a dict's entries changes no key that is not among them |
| Plist.PlistValue | internal/install/signing.go:222-287 | The recursive reader over a consuming decoder returns what the specification reads and leaves the decoder right behind it |
| Plist.DictLoop | internal/install/signing.go:224-249 | The loop over keys and values builds the specified map |
| Plist.PlistDict | internal/install/signing.go:204-220 | Finds the first dict start and reads it |
| Entitlements.CutsExactlyTheDict | internal/install/install.go:232-265 | For every printed profile that has the key at any nesting, the scan cuts out exactly the text of the first key's value if and only if that value is a dict not written self-closed |
| Entitlements.NoKeyNoEntitlements | internal/install/install.go:234-237 | A profile without the key at any depth gives the empty entitlements |
| Entitlements.NoDictNoResult | internal/install/install.go:238-262 | With the key but without an open dict, or without a close tag, behind it there is no result |
| Entitlements.SplitEntries | internal/install/install.go:234-238 | In any printed entries with the key, no earlier text looks like it, and its value follows it directly |
| Entitlements.PrintBalanced | internal/install/install.go:243-259 | Inside a dict, the depth count passes over any printed value and is the same behind it |
| Entitlements.PrintQuiet | internal/install/install.go:234-234 | The key is never found inside a printed value that does not have it, however its strings and keys are spelled |
| Entitlements.ExtractEntitlements | internal/install/install.go:232-265 | Terminates on every text and returns what the recursive specification cuts out |
| Entitlements.DictEnd | internal/install/install.go:242-262 | The depth loop finds the end of the tag that brings the count to zero, or reports that there is none |
| Coordinates.CentreTapHitsElement | internal/uitree/uitree.go:285-307 | Tapping the printed centre lands inside the element on both axes: always when the scale is one, else when both extents are wide enough for the long edge |
| Coordinates.TapLands | internal/api/mcp_tools.go:517-521 | The same along one axis, before and after truncation to whole pixels |
| Coordinates.AlwaysHitIff | internal/api/mcp_tools.go:517-521 | For every screen and extent: all elements of that extent on the screen are hit if and only if the screen is not scaled, or 2560 times the far side exceeds the long edge and 2560 times the half extent plus twice the greatest common divisor of 1280 and the edge reaches it |
| Coordinates.ErrorOccurs | internal/uitree/uitree.go:307-307 | Every multiple of that divisor up to half an edge either way is the rounding error of coordinates arbitrarily far out |
| Coordinates.ErrorIsMultiple | internal/uitree/uitree.go:307-307 | No other rounding error occurs |
| Coordinates.RoundTripError | internal/uitree/uitree.go:307-307 | Rounding to the image grid and scaling back moves a coordinate by at most half an image pixel |
| Coordinates.UnscaledIsExactOnScreen | internal/uitree/uitree.go:307-307 | At scale one a coordinate is printed unchanged exactly when it is not negative |
| Coordinates.ImageFitsAndCovers | internal/api/mcp.go:201-203 | The screenshot fits the cap and every pixel of it maps onto the screen |
| Coordinates.RotationKeepsScale | internal/api/mcp.go:129-134 | The scale is the same in both orientations |

## Left out

- External processes and devices (adb, go-ios, codesign, Maestro, WebDriverAgent, launchctl): their
  results are inputs of the steps that use them.
- HTTP and MCP handlers, web UI, WebSocket bridges, uploads, logging, configuration, CLI, health endpoints.
- SQLite: tables are sequences and maps, the partial unique index is the check on insert, a transaction
  is one all-or-nothing step. Store errors are not modelled, except a run that cannot be recorded and
  device rows that cannot be read at the end of a run.
- The XML decoder, bcrypt, hashes, tokens: the property-list reader starts at the token stream, and batch
  ids are assumed fresh where a theorem says so.
- float64: coordinates are exact reals; Unicode white space: text is trimmed of ASCII white space only.
- Frame timestamps, `StreamDead`, `FrameAge`, WDA sessions, the back-off of the reconnect loop: no claim here
  depends on them. An endpoint without an MJPEG address counts as no endpoint.
- Session expiry, tunnel dispatch and splicing, `matchProfile`, `pickProfiles`, `UniqueID`, `Slug`, the
  `uitree` search and numbering: decisions without state of their own.
- iOS taps: they keep the fraction that Android taps truncate, which `Coordinates.TapLands` covers by its
  first clause; holds and swipes are not modelled.
- ScreenRegistry.ReachableInv: streams are values named by ids, so real object identity is not captured in the
  machine; `ScreenController` has the objects, without interleavings.
- ScreenDelivery.NoLostWakeUp: each viewer runs one Next at a time, as the callers in the repository do.
- Limiter.AtMostFivePerWindow: attempts on a key are sequential and none succeeds; two concurrent attempts can
  both pass the check before either counts.
- BatchOwnership.RunReleasesItsOwn: a batch release is one step; what goes wrong when it is not is
  `BatchOwnership.StaleListTakesNewHold`, and the exact condition `BatchOwnership.ListSparesOthers`.
- Leases.LeaseEndsExactly: a reaper pass is one step as well.
- Poller.AtomicPollIsBacked: a poll is one step; `Poller.StalePollSticks` shows what happens otherwise.
- Reservations.Store.BatchDevices: lists devices in table order, not sorted by device id.
- Runs.RunStore.Execute: the devices of a run go one after the other in some order; their interleaving is in
  `RunMachine`.
- Entitlements.CutsExactlyTheDict: no tag of the text in front of the profile's dict may start with the letter k.
