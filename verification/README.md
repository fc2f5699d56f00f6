# A verified model of the RIL adapter's service layer

This project models the parts of the OpenHarmony telephony RIL adapter in which state, time and text formats
interact, and proves what they guarantee:

- **The timer and descriptor loop** (`hril_event.cpp`, `hril_timer_callback.cpp`): a deadline-ordered timer list,
  a first-in first-out pending list, a fixed table of listened messages whose entries point back into the table,
  and a pipe through which other threads wake the loop.
- **The running lock** (`hril_manager.cpp`): a 32-bit count, a 32-bit serial number and 200 ms timers decide when
  the power service is told to hold and to let go.
- **The outstanding requests** (`hril_manager.cpp`): records per request code with explicit allocation and release.
- **The SMS text formats** (`hril_sms.cpp`, `hril_base.cpp`): hexadecimal PDUs, cell-broadcast range lists
  (+CSCB, section 3.3.4 of 3GPP TS 27.005) and the two-pass CDMA message reader.

## How it is laid out

| file | content |
|---|---|
| `Wrappers`, `MachineInts`, `Timeval` | Option, fixed-width integers, `struct timeval` arithmetic |
| `EventQueue`, `ListenTable` | the loop's lists and table as values: insertion, expiry, registration, readiness |
| `HRilEvent`, `HRilTimerCallback`, `HRilManager` | the three classes with their fields updated in place, each method proved against those values |
| `Scheduler` | the timer lists with their history: conservation and dispatch order |
| `RunningLock` | the lock's bookkeeping and laws about every sequence of its operations |
| `RequestRegistry` | the request table and laws about every sequence of its operations |
| `HrilSystem` | all threads, the pipe, the mutex and the destructor as interleaved steps; the invariant of every run |
| `SystemGuarantees` | what follows for every reachable state: the lock's lease, the timers, the wake-up |
| `ShutdownGuarantees` | when the destructor's byte ends the loop |
| `LoopProgress` | that the loop gets on: returns of select and batches, due timers, release of lock and mutex |
| `Hex`, `CText`, `CellBroadcast`, `CellBroadcastRoundTrip`, `CdmaPdu`, `CdmaRoundTrip` | the text formats and their round trips |

The classes and the interleaved system use the same functions: `AddTimerEvent` and the system's arming steps both
insert with `EventQueue.Insert`, `ProcessTimerList` and the system's batch step both cut at
`EventQueue.ExpiredCount`, and the manager's lock methods and the system's lock steps both are the functions of
`RunningLock`. A class method therefore shows that the code computes that function, and the system shows what
follows when the functions are interleaved. On the timers the service arms, `ProcessTimerList` is
`Scheduler.Expire` and `HRilSetTimerCallbackInfo` is `Scheduler.Add`, by their own contracts. One step of the system is one critical section, one system call or one
read of a flag.

## Where the code falls short of what one would like

Each of these is kept as the code has it, with an input or a run that shows it and the condition under which the
property does hold.

- `nfds_` has no initial value (`services/hril/include/hril_event.h:68`). It is above every registered descriptor
  from any start value; it is also tight after start-up if and only if the start value is at most one more than
  the pipe's descriptor (`HRilTimerCallback.StartLoop`).
- Registering a second message with a registered descriptor, or unregistering with an index that belongs to
  another message, breaks the table: `AddEventMessage` and `RemoveEventMessage` state exactly when it stays coherent.
- Delays are taken as they come (`services/hril/src/hril_manager.cpp:1271-1278`); a caller computes
  `{0, milliseconds * 1000}` (`services/vendor/src/at_data.c:776`), which is normalized only below a second.
  Deadlines are compared seconds first, so a delay of 1500000 microseconds can fire 0.4 s early
  (`UnnormalizedDelayFiresEarly`). A delay is never cut short if and only if its microseconds are at most 1000000,
  and never overrun by the comparison if and only if they are at least -1 (`DelayIsKeptIff`). Everything said about
  order, expiry and conservation holds for every delay, in the order the code compares; only statements about
  elapsed time ask for normalized deadlines. A deadline whose microseconds are far below zero makes `select` refuse
  the wait, and the loop returns (`WaitIsUntilDue`).
- A timer with a negative delay can run after one it was due before (`NegativeDelayCanOvertake`). Timers run in order
  if and only if none of those that ran was armed behind one already moved (`GlobalDispatchOrder`). The delays that
  never lead to that are exactly the forward ones and that of -1 microsecond (`NeverBehindIff`,
  `InTurnRunsAreOrdered`); among normalized deadlines they are exactly the ones of at least -1 microsecond
  (`NeverBehindNormalizedIff`).
- `select` counts its wait from when it is entered, so a timer can be late by the time between the computation of
  the wait and that moment (`SelectTimesOutIff`, `DueTimerWakesTheLoop`).
- Serial numbers are compared modulo 2^32 (`FireReleasesIff`, `UndispatchedSerialsDiffer`), and the count wraps
  (`BurstWraps`): the lock is held exactly while counted if and only if no apply wraps the count (`HeldIffCounted`).
  The timer of the last apply still ends the lease after the count has wrapped (`LeaseEndsWithItsBatch`).
- Once the manager is marked destroyed, its callbacks return at their validity check: a lock still held then, as in
  `LockCanOutliveItsManager`, is never released by a timer, only by an acknowledgement
  (`NoTimerReleasesAfterDestruction`). `HeldLockHasItsTimer` and `LeaseEndsWithItsBatch` therefore speak of managers
  that are not destroyed.
- The destroy flag is read only after `select`. Whether the destructor's wake-up byte is still there when the loop
  next sleeps is settled when it is written: if and only if no drain of the pipe is ahead (`SignalSurvivesIff`). With
  no caller left the loop can return uninterrupted if and only if that is so or some timer stays queued
  (`ShutdownEndsIff`); otherwise it can come to sleep with nothing to wake it but a signal (`LostSignalOversleeps`,
  `OversleptForever`), and such runs exist (`SignalCanBeLost`).
- A response is trusted to name a live record: its fields are read before any lookup
  (`services/hril/src/hril_manager.cpp:286-299`), so a vendor that answers a request twice makes the service read
  freed memory. `ReportResponse` and, for a response to a known slot, `OnReport` require a live record; after one
  answer there never is one again (`SecondAnswerIsNotAllowed`).
- The printed service ids end with a comma, which the parser refuses (`PrintedIsRefused`). Without it a printed
  configuration reads back if and only if no range starts below zero and all entries agree on coding schemes and
  selection (`ConfigRoundTripIff`).

## Model

| member | source | states |
|---|---|---|
| Timeval.FromTimespec | services/hril/src/hril_event.cpp:30-36 | the clock reading is normalized and is the monotonic time cut to whole microseconds |
| Timeval.ComparesInTime | services/hril/src/hril_event.cpp:51 | on normalized times the field-wise comparison is the comparison of microseconds |
| Timeval.ArmedComparesInTimeIff | services/hril/src/hril_event.cpp:161-166 | a timer armed at a given moment is compared as it is due if and only if the sum of the microsecond fields is from -1 to below two seconds |
| Timeval.DelayIsKeptIff | services/hril/src/hril_event.cpp:161-166 | a delay is never cut short, or overrun, whenever it is armed, if and only if its microseconds are at most 1000000, or at least -1 |
| Timeval.UnnormalizedDelayFiresEarly | services/hril/src/hril_event.cpp:155-166 | a concrete delay of 1500000 microseconds counts as passed 0.4 s early |
| Timeval.ForwardIff | services/hril/src/hril_event.cpp:161-162 | exactly the forward delays, the non-negative ones among the normalized, never lead to a deadline before the moment of arming |
| Timeval.InTurnIff | services/hril/src/hril_event.cpp:161-166 | exactly the forward delays and that of -1 microsecond never leave room for another deadline before the moment of arming |
| Timeval.NearlyForwardIff | services/hril/src/hril_event.cpp:161-166 | exactly which delays leave no room for a normalized one: among the normalized, those of at least -1 microsecond |
| Timeval.TimerAdd | services/hril/src/hril_event.cpp:162 | adding with one carry adds microseconds and keeps normalized times normalized |
| Timeval.TimerSub | services/hril/src/hril_event.cpp:52 | subtracting with one borrow subtracts microseconds and keeps normalized times normalized |
| EventQueue.ExpiredIsExact | services/hril/src/hril_event.cpp:68-77 | in a sorted list the removed prefix is exactly the timers strictly earlier than the clock reading |
| EventQueue.InsertKeepsOrder | services/hril/src/hril_event.cpp:164-173 | ordered insertion keeps the list sorted by deadline |
| EventQueue.InsertKeepsEntries | services/hril/src/hril_event.cpp:164-173 | insertion adds the new timer and loses none |
| EventQueue.AddedTimer | services/hril/src/hril_event.cpp:164-173 | what the contracts that arm a timer say: exactly one entry more, with its callback and parameter, due in so many microseconds |
| EventQueue.WaitIsUntilDue | services/hril/src/hril_event.cpp:51-56 | for any deadline: how long the wait lasts, and exactly when select refuses it |
| ListenTable.AddKeepsTable | services/hril/src/hril_event.cpp:191-200 | filling an empty slot keeps the table coherent if and only if the descriptor is not registered |
| ListenTable.EraseKeepsTable | services/hril/src/hril_event.cpp:108-111 | clearing a slot and a descriptor keeps the table coherent if and only if they belong together |
| ListenTable.EraseKeepsNfds | services/hril/src/hril_event.cpp:113-122 | looking for the highest descriptor only when the highest went away keeps the bound right and tight |
| ListenTable.ReadyExactlyOnce | services/hril/src/hril_event.cpp:130-140 | a batch queues each registered ready message exactly once and nothing else |
| ListenTable.ReadyInTurn | services/hril/src/hril_event.cpp:130-133 | the ready messages are queued in the order of their slots, and a slot gives its own message or none |
| ListenTable.CountExhausted | services/hril/src/hril_event.cpp:132-138 | when as many slots matched as descriptors are ready, no later slot is ready, so stopping early misses nothing |
| HRilEvents.HRilEvent.GetNextTimeOut | services/hril/src/hril_event.cpp:38-58 | no wait without timers; otherwise, for any deadline, now plus the wait is the first deadline or now; it oversleeps no queued timer among normalized ones |
| HRilEvents.HRilEvent.ProcessTimerList | services/hril/src/hril_event.cpp:60-78 | the expired prefix leaves the timer list and is appended to the pending list in order, each timer with all it carries; on the timers the service arms this is the scheduler's step |
| HRilEvents.MovedIsExpired | services/hril/src/hril_event.cpp:68-77 | for every scheduler state with its timers, the move is the expiry there |
| HRilEvents.HRilEvent.HasEventMessageFromPendingList | services/hril/src/hril_event.cpp:80-94 | takes the first pending entry, all fields but isHolding, or reports that there is none |
| HRilEvents.HRilEvent.ProcessPendingList | services/hril/src/hril_event.cpp:96-104 | ends with an empty pending list, having invoked every entry with a callback in order, whatever timers each invocation arms |
| HRilEvents.InvocableAt | services/hril/src/hril_event.cpp:96-104 | each entry with a callback is invoked in its turn with its own descriptor and parameter, and no other is |
| HRilEvents.RearmedInTurn | services/hril/src/hril_event.cpp:96-104 | what the callbacks arm comes in the order of their entries, each by its own invocation |
| HRilEvents.InsertAllKeepsEntries | services/hril/src/hril_event.cpp:155-174 | each timer armed by a callback is added and none is lost |
| HRilEvents.InsertAllKeepsOrder | services/hril/src/hril_event.cpp:96-104 | the timers armed by callbacks leave the timer list sorted |
| HRilEvents.HRilEvent.EraseListenEvent | services/hril/src/hril_event.cpp:106-123 | clears exactly the slot and the descriptor, resets the message's index and recomputes the bound when needed |
| HRilEvents.HRilEvent.ProcessEvents | services/hril/src/hril_event.cpp:125-141 | queues the ready messages in slot order, unregisters exactly those that do not hold and resets their index, keeps the table coherent |
| HRilEvents.HRilEvent.TimerEventInit | services/hril/src/hril_event.cpp:143-153 | empties lists and table, and leaves the descriptor bound as it was |
| HRilEvents.HRilEvent.AddTimerEvent | services/hril/src/hril_event.cpp:155-174 | stores a copy due at now plus the delay, whatever the delay, after every timer that is not later |
| HRilEvents.HRilEvent.SetTimerEvent | services/hril/src/hril_event.cpp:176-186 | the message is reset to the given fields with no slot |
| HRilEvents.HRilEvent.AddEventMessage | services/hril/src/hril_event.cpp:188-202 | registers in the first empty slot or ignores the message when full; coherent afterwards if and only if the descriptor was new |
| HRilEvents.HRilEvent.RemoveEventMessage | services/hril/src/hril_event.cpp:204-212 | unregisters by slot, does nothing for a slot out of range as after a first removal; coherent if and only if slot and descriptor belong together |
| HRilEvents.HRilEvent.CopyReadFds | services/hril/src/hril_event.cpp:214-218 | the set handed to select is exactly the registered descriptors |
| HRilEvents.HRilEvent.LoopRound | services/hril/src/hril_event.cpp:220-255 | a round does nothing once the destroy flag is set or select failed; otherwise it invokes leftovers, each expired timer in list order with its own parameter, and each ready message, and leaves nothing pending |
| Scheduler.InsertIntoHistory | services/hril/src/hril_event.cpp:155-174 | in the history of moved and queued timers exactly the late ones, armed behind a moved timer, come after one with a later deadline |
| Scheduler.ExactlyOnePlace | services/hril/src/hril_event.cpp:60-104 | each armed timer is finished, running, pending or queued, once in all |
| Scheduler.DispatchOrder | services/hril/src/hril_event.cpp:60-104 | finished timers are the first of the moved ones, and ran in (deadline, arming) order if and only if none of them was late |
| Scheduler.NeverBehindIff | services/hril/src/hril_event.cpp:155-162 | the delays that never land behind a moved timer, whatever has been moved, are exactly the forward ones and that of -1 microsecond |
| Scheduler.NeverBehindNormalizedIff | services/hril/src/hril_event.cpp:155-162 | the same for moved timers with normalized deadlines: among normalized delays exactly those of at least -1 microsecond |
| Scheduler.NegativeDelayCanOvertake | services/hril/src/hril_event.cpp:60-174 | a concrete negative delay with which the second timer to run was due before the first |
| HRilTimerCallbacks.HRilTimerCallback.FdTriggerCallback | services/hril/src/hril_timer_callback.cpp:31-39 | reading ends and leaves the pipe empty |
| HRilTimerCallbacks.HRilTimerCallback.OnTriggerEvent | services/hril/src/hril_timer_callback.cpp:55-66 | one byte is written unless the caller is the loop's own thread |
| HRilTimerCallbacks.HRilTimerCallback.HRilSetTimerCallbackInfo | services/hril/src/hril_timer_callback.cpp:68-93 | without a loop nothing happens; otherwise exactly one timer for the callback is added, due the delay, or nothing, after now, as in the scheduler, and the loop is woken |
| HRilTimerCallbacks.ArmedIs | services/hril/src/hril_timer_callback.cpp:80-90 | the entry is the scheduler's new timer, due the delay after now |
| HRilTimerCallbacks.HRilTimerCallback.StartLoop | services/hril/src/hril_timer_callback.cpp:95-116 | after start-up the table listens to the pipe only; the bound is right, and tight if and only if its start value allows |
| HRilTimerCallbacks.PipeIsTheOnlyEntry | services/hril/src/hril_timer_callback.cpp:112-116 | a batch on that table queues the pipe entry or nothing and keeps it registered |
| RunningLock.SameSerialIff | services/hril/src/hril_manager.cpp:192 | two counters show the same serial number if and only if they differ by a multiple of 2^32 |
| RunningLock.SerialCountsApplies | services/hril/src/hril_manager.cpp:219-221 | the serial number is the number of applies modulo 2^32, after any operations |
| RunningLock.FireReleasesIff | services/hril/src/hril_manager.cpp:179-200 | the callback of the k-th apply clears count and lock if and only if it belongs to the last apply, modulo 2^32; otherwise it changes nothing |
| RunningLock.HeldIffCounted | services/hril/src/hril_manager.cpp:203-257 | after every operation of a log the lock is held exactly while the count is positive, if and only if no apply was made at the highest count |
| RunningLock.HeldMeansApplied | services/hril/src/hril_manager.cpp:203-257 | the lock is held only after an apply, however often the count has wrapped |
| RunningLock.FewDoNotWrap | services/hril/src/hril_manager.cpp:213-219 | fewer than 2^32 applies never wrap the count |
| RunningLock.ApplyKeepsHeldIff | services/hril/src/hril_manager.cpp:213-219 | an apply keeps that equivalence if and only if it is not the one that wraps the count |
| RunningLock.BurstWraps | services/hril/src/hril_manager.cpp:213-219 | 2^32 unacknowledged reports leave the lock held with a count of zero |
| RunningLock.CountIsPeak | services/hril/src/hril_manager.cpp:203-257 | the count is the largest balance of reports minus acknowledgements over all final stretches since the last clearing callback |
| RunningLock.CountSinceZero | services/hril/src/hril_manager.cpp:203-257 | since the count was last zero it equals applies minus acknowledgements and is at most the number of must-ack reports |
| HRilManagers.HRilManager.CreateHRilRequest | services/hril/src/hril_manager.cpp:64-88 | a new live record is filed last under its code, or nothing changes when memory is short |
| HRilManagers.HRilManager.ReleaseHRilRequest | services/hril/src/hril_manager.cpp:90-107 | a filed pair is freed once and removed, with its key when it was the last; any other pair changes nothing |
| HRilManagers.HRilManager.RunningLockCallback | services/hril/src/hril_manager.cpp:179-200 | acts only for a valid manager with a matching serial number, and then clears count and lock |
| HRilManagers.HRilManager.ApplyRunningLock | services/hril/src/hril_manager.cpp:203-236 | counts, numbers, holds, adds exactly one lock timer with the new serial due in 200000 microseconds, and wakes the loop; without a power interface it only tries to obtain one |
| HRilManagers.HRilManager.ReleaseRunningLock | services/hril/src/hril_manager.cpp:238-257 | one acknowledgement: counts down, and lets go at the last |
| HRilManagers.HRilManager.OnReport | services/hril/src/hril_manager.cpp:259-281 | unknown slots, types and missing records change nothing; other reports reach their slot with the effects of their kind |
| HRilManagers.HRilManager.ReportResponse | services/hril/src/hril_manager.cpp:283-310 | the response carries the record's own serial and code, the record is freed; if it must be acknowledged the lock takes one apply and one lock timer is added, otherwise lock, timers and pipe stay as they are |
| HRilManagers.HRilManager.ReportNotification | services/hril/src/hril_manager.cpp:312-334 | must-ack exactly when both maps know the notification and it needs the lock; then the lock takes one apply and one lock timer is added, otherwise lock, timers and pipe stay as they are |
| HRilManagers.HRilManager.SendRilAck | services/hril/src/hril_manager.cpp:1088-1092 | success, with the effect of one release |
| HRilManagers.HRilManager.InitPower | services/hril/src/hril_manager.cpp:1157-1170 | obtains the power interface if there is none and the manager is valid |
| HRilManagers.HRilManager.Destroy | services/hril/src/hril_manager.cpp:1094-1108 | both flags end up set, and one byte is written unless the loop was already told or the caller is the loop |
| RequestRegistry.StepInv | services/hril/src/hril_manager.cpp:64-107 | every operation keeps: the table files exactly the live records, once, under their code, in order of creation |
| RequestRegistry.RunIsSafe | services/hril/src/hril_manager.cpp:64-107 | over every run the table is exact, records do not change, each is freed once, and responses carry what the record was created with |
| RequestRegistry.SecondAnswerIsNotAllowed | services/hril/src/hril_manager.cpp:283-310 | once a record has been answered no run makes it one that may be answered |
| RequestRegistry.CreatedIsOutstandingOrReleased | services/hril/src/hril_manager.cpp:64-107 | a created record is outstanding, under its own code only, if and only if it has not been freed |
| RequestRegistry.ReleaseFreesOne | services/hril/src/hril_manager.cpp:90-107 | a release frees one record, keeps the order of the others and the other codes; an unknown pair is a no-op |
| RequestRegistry.AnyAnswerOrder | services/hril/src/hril_manager.cpp:283-310 | for every order of answers each response carries its own request's serial, and the table ends empty |
| HrilSystem.StepKeepsInv | services/hril/src/hril_event.cpp:220-255 | every step of every thread keeps the invariant of queue, loop, threads, wake-up, lock and shutdown |
| HrilSystem.RunKeepsInv | services/hril/src/hril_event.cpp:220-255 | so does every run |
| HrilSystem.CallbackSerials | services/hril/src/hril_manager.cpp:185-221 | callback and lock carry the numbers of their applies in 32 bits, which are the same if and only if the callback is that of the last apply |
| SystemGuarantees.CallbackMatches | services/hril/src/hril_manager.cpp:185-198 | a lock callback carries the current serial if and only if its apply is the last, modulo 2^32 |
| SystemGuarantees.LockIsReplayed | services/hril/src/hril_manager.cpp:179-257 | in every reachable state the lock is the replay of its operations |
| SystemGuarantees.HeldLockHasItsTimer | services/hril/src/hril_manager.cpp:203-236 | while the lock is held, in a manager that is not destroyed and outside the moment between counting and arming, the timer of the last apply is still undispatched and carries the current serial; until the count wraps, held if and only if counted |
| SystemGuarantees.UndispatchedSerialsDiffer | services/hril/src/hril_manager.cpp:219-222 | undispatched lock timers belong to different applies, none beyond the last, and share a serial if and only if these differ by a multiple of 2^32 |
| SystemGuarantees.StaleCallbackIsHarmless | services/hril/src/hril_manager.cpp:185-194 | a callback of an earlier apply, fewer than 2^32 applies ago, changes neither count nor lock |
| SystemGuarantees.LeaseIsNeverCutShort | services/hril/src/hril_manager.cpp:179-200 | a timer ends the hold only after the clock was read later than 200 ms after the last apply armed its timer |
| SystemGuarantees.LeaseEndsWithItsBatch | services/hril/src/hril_event.cpp:220-255 | after a batch that read the clock, a lock still held, in a manager that is not destroyed and outside the moment between counting and arming, was applied no more than 200 ms before that reading |
| SystemGuarantees.NoTimerReleasesAfterDestruction | services/hril/src/hril_manager.cpp:179-184 | after the manager is marked destroyed a held lock stays held on every run without acknowledgements |
| SystemGuarantees.LockCanOutliveItsManager | services/hril/src/hril_manager.cpp:203-221 | a run leads to a destroyed manager with a held lock |
| SystemGuarantees.TimersAreConserved | services/hril/src/hril_event.cpp:60-104 | no reachable state has lost or doubled a timer |
| SystemGuarantees.GlobalDispatchOrder | services/hril/src/hril_event.cpp:60-104 | over a whole run the dispatched timers ran by deadline, ties in arming order, if and only if none of them was late |
| SystemGuarantees.InTurnRunsAreOrdered | services/hril/src/hril_event.cpp:155-174 | every run in which all delays asked for are forward or -1 microsecond dispatches in order |
| SystemGuarantees.BatchMovesTheExpired | services/hril/src/hril_event.cpp:60-78 | a batch moves a queued timer if and only if its clock reading compares later than the deadline, which in normalized time means strictly later |
| SystemGuarantees.NoLostWakeup | services/hril/src/hril_timer_callback.cpp:55-92 | from the moment the wait is computed each queued timer is no earlier than the one it was computed for, or the pipe has a byte, or its adder is before the write |
| SystemGuarantees.LoopTimersAreSeen | services/hril/src/hril_timer_callback.cpp:57-61 | a timer armed on the loop's own thread, which writes no byte, is never earlier than the one the wait was computed for |
| SystemGuarantees.NextWaitSeesEveryTimer | services/hril/src/hril_event.cpp:38-58 | the next computation of the wait takes every queued timer into account, whoever armed it |
| SystemGuarantees.AdderIsUnique | services/hril/src/hril_timer_callback.cpp:88-91 | a thread before its write is the one that armed the timer it stands for, and no other thread stands for it |
| SystemGuarantees.SelectTimesOutIff | services/hril/src/hril_event.cpp:230-239 | exactly when select can time out: the awaited moment plus the gap between computing the wait and entering select |
| SystemGuarantees.DueTimerWakesTheLoop | services/hril/src/hril_event.cpp:228-239 | select can return once a queued timer is due, its adder has finished, and that gap has passed, if the timer and the awaited one have normalized deadlines or nearly so |
| LoopProgress.EveryReturnHasItsBatch | services/hril/src/hril_event.cpp:237-253 | on every run with the flag clear there are as many batches as returns of select without an error, but for one under way |
| LoopProgress.SelectReturnStartsBatch | services/hril/src/hril_event.cpp:237-253 | such a return leads through the flag check into a batch of the expired timers in order, then the pipe's entry if a byte was there |
| LoopProgress.NothingSkipsTheBatch | services/hril/src/hril_event.cpp:237-253 | no other step of the loop comes in between |
| LoopProgress.ErrorsOfSelect | services/hril/src/hril_event.cpp:244-250 | an interrupted select makes the loop compute a new wait, a refused one ends it |
| LoopProgress.DueTimerIsDispatched | services/hril/src/hril_event.cpp:220-255 | a queued timer that is due by that bound is dispatched on some run of the loop alone, if flag and mutex are free |
| LoopProgress.HeldLockCanBeReleased | services/hril/src/hril_manager.cpp:179-200 | a held lock is released on some run of the loop alone once 200 ms and the gap have passed since the last apply |
| LoopProgress.MutexCanBeReleased | services/hril/src/hril_manager.cpp:211-235 | the thread that has the mutex gives it back by at most three steps of its own |
| LoopProgress.TimerIsTaken | services/hril/src/hril_timer_callback.cpp:68-93 | a thread outside a call can arm a timer while the manager is there: it is added and one byte written |
| LoopProgress.ReportIsTaken | services/hril/src/hril_manager.cpp:203-235 | such a thread's must-ack report, with the mutex free and the power interface there, applies the lock once, arms the lease with the new serial, writes one byte and gives the mutex back |
| LoopProgress.CallsAreLogged | services/hril/src/hril_manager.cpp:203-257 | on every run the lock sees each acknowledgement and, with the power interface there, each must-ack report |
| SystemGuarantees.DrainShrinks | services/hril/src/hril_event.cpp:96-104 | during a drain no step of any thread adds pending entries, each pop removes one, and the drain ends only when empty |
| ShutdownGuarantees.AtMostOneLateBatch | services/hril/src/hril_event.cpp:239-253 | after the destroy flag is set at most one batch starts, one whose check had passed before |
| ShutdownGuarantees.SignalSurvivesIff | services/hril/src/hril_manager.cpp:1094-1108 | on every run after the destructor's write, whenever no drain is ahead, its byte is unread if and only if no drain was ahead at the write |
| ShutdownGuarantees.DrainEmptiesThePipe | services/hril/src/hril_timer_callback.cpp:31-39 | on every run a drain that is ahead is over only after the pipe has been empty |
| ShutdownGuarantees.KeptSignalEndsTheLoop | services/hril/src/hril_event.cpp:237-243 | if no drain is ahead at the write and nobody is in a call, every run takes a bounded number of loop steps and can take one until the loop has returned |
| ShutdownGuarantees.ShutdownEndsIff | services/hril/src/hril_event.cpp:220-255 | without callers, the loop can return uninterrupted if and only if no drain was ahead at the write or some timer stays queued |
| ShutdownGuarantees.LostSignalOversleeps | services/hril/src/hril_event.cpp:220-255 | otherwise it can come to sleep without timeout, pipe byte or timer |
| ShutdownGuarantees.SignalCanBeLost | services/hril/src/hril_event.cpp:239-253 | a run leads to the destructor's write with a drain ahead, no caller and no timer that stays queued |
| ShutdownGuarantees.OversleptForever | services/hril/src/hril_event.cpp:239-253 | from then on no run wakes the loop without an interruption, which ends it |
| Hex.ConvertHexCharToInt | services/hril/src/hril_base.cpp:43-52 | a value below 16 exactly for the hexadecimal characters, 16 for all others |
| Hex.ConvertHexStringToBytes | services/hril/src/hril_base.cpp:54-89 | a buffer with the decoded bytes exactly for non-empty, even, at most 512 long, hexadecimal input |
| Hex.StringToHex | services/hril/src/hril_base.cpp:162-170 | two upper-case digits per byte |
| Hex.DecodeAll | services/hril/src/hril_base.cpp:70-86 | byte k is spelled by characters 2k and 2k + 1, the high half first |
| Hex.RoundTrip | services/hril/src/hril_base.cpp:54-170 | 1 to 256 bytes survive encoding and decoding |
| Hex.EncodeDecode | services/hril/src/hril_base.cpp:54-170 | encoding a decoded text gives its upper-case form |
| Hex.SameBytesIff | services/hril/src/hril_base.cpp:54-89 | two texts decode alike if and only if they differ in letter case only |
| Hex.DecodePdu | services/hril/src/hril_sms.cpp:702-723 | the PDU handed on is the decoded text, or the report is refused |
| CText.StrtolOfToString | services/hril/src/hril_sms.cpp:290-293 | reading inverts printing for every value of long, whatever non-digit follows |
| CText.StrtolReads | services/hril/src/hril_sms.cpp:290-293 | space, a sign or none, digits and what is no digit are read as the signed value, cut to a long |
| CText.NatTextGrows | services/hril/src/hril_sms.cpp:612-641 | numbers are printed in decimal, most significant digit first |
| CText.JoinSplit | services/hril/src/hril_sms.cpp:300-312 | rejoining the parts with the delimiter gives the input back |
| CText.PartsAreClean | services/hril/src/hril_sms.cpp:300-312 | no part contains the delimiter |
| CText.SplitJoin | services/hril/src/hril_sms.cpp:300-312 | splitting inverts joining parts that avoid the delimiter |
| CText.PartCount | services/hril/src/hril_sms.cpp:300-312 | there is one part more than there are delimiters |
| CellBroadcast.SplitMids | services/hril/src/hril_sms.cpp:300-312 | the erasing loop ends and yields the parts from the left, none for an empty text |
| CellBroadcast.SplitValueIff | services/hril/src/hril_sms.cpp:314-330 | a text is accepted exactly as a number's text without '-', for both ends, or as two texts that are not empty around its first '-' |
| CellBroadcast.GetHRilCBConfigInfo | services/hril/src/hril_sms.cpp:271-298 | accepts exactly when every part and the coding schemes are ranges, and yields one entry per part |
| CellBroadcast.AcceptedIff | services/hril/src/hril_sms.cpp:271-298 | service ids that are not empty are accepted exactly if they are ranges joined by commas and the coding schemes are a range |
| CellBroadcast.EntriesAre | services/hril/src/hril_sms.cpp:284-296 | each part gives the entry of its own ends, the ends of the coding schemes and the mode's low byte |
| CellBroadcast.AcceptedIsSmall | services/hril/src/hril_sms.cpp:233-251 | an accepted list of L characters has at most (L + 1) / 2 entries |
| CellBroadcast.SetCBConfig | services/hril/src/hril_sms.cpp:233-269 | the exact conditions of each result, in terms of texts joined by commas and dashes; the vendor sees the entries those texts stand for, at most 25000, with a length that does not wrap |
| CellBroadcast.GetCBConfigInfo | services/hril/src/hril_sms.cpp:612-641 | prints every range when all ascend, joined by commas and with one at the end, and only the mode otherwise |
| CellBroadcast.TextsAre | services/hril/src/hril_sms.cpp:616-636 | a range is printed as both ends around a dash, or as the number they share |
| CellBroadcastRoundTrip.RangeRoundTrip | services/hril/src/hril_sms.cpp:314-330 | a printed int32 range reads back if it does not start below zero and is refused if it does |
| CellBroadcastRoundTrip.ServiceIdsRoundTrip | services/hril/src/hril_sms.cpp:612-641 | printed service ids without the final comma read back in order if and only if none starts below zero |
| CellBroadcastRoundTrip.PrintedIsRefused | services/hril/src/hril_sms.cpp:622-627 | the printed service ids with their final comma are always refused |
| CellBroadcastRoundTrip.ConfigRoundTripIff | services/hril/src/hril_sms.cpp:271-330 | the exact condition under which parsing inverts printing for a whole configuration |
| CdmaPdu.CheckCdmaPduLength | services/hril/src/hril_sms.cpp:447-480 | accepts exactly the hexadecimal texts at least 21 + a + s + n long and reports the three length digits |
| CdmaPdu.CreateCdmaMessageInfo | services/hril/src/hril_sms.cpp:401-445 | succeeds exactly on those texts, every read in range, and fills every field and buffer from the same offsets |
| CdmaPdu.FieldsAreAt | services/hril/src/hril_sms.cpp:401-445 | the offset of every field, from the three length digits |
| CdmaRoundTrip.ParseEncode | services/hril/src/hril_sms.cpp:401-445 | the reader recovers every field of every record, whatever filler and trailing digits |
| CdmaRoundTrip.EncodeParse | services/hril/src/hril_sms.cpp:401-445 | writing what was read gives the text back up to letter case, without what trails it |
| CdmaRoundTrip.EncodeInjective | services/hril/src/hril_sms.cpp:401-445 | different records never share a text |
| CdmaRoundTrip.ParsedIsWritable | services/hril/src/hril_sms.cpp:416-443 | every field read is in range and fits its buffer |
| CdmaRoundTrip.ParseReadsOnly | services/hril/src/hril_sms.cpp:401-480 | texts that agree on the characters read are accepted alike and give the same record |

## Left out

- The restart of the event loop after a `select` error, which replaces the loop and drops its timers, and the window before the pipe exists: one started loop is modelled.
- Fairness: which thread runs when is not modelled, so what the loop can do is stated as steps that are enabled and as runs that exist.
- A full pipe: writes always succeed, and interrupted reads and writes are retried inside the pipe's contract.
- Descriptors other than the pipe in the interleaved system; the table with any descriptors is covered by the class and by `ListenTable`.
- HRilEvents.HRilEvent.ProcessPendingList: a callback may arm any timers but not register or unregister descriptors, which none of the repository's does.
- HRilEvents.HRilEvent.LoopRound: no other thread acts during the round; `HrilSystem` interleaves them.
- HRilManagers.HRilManager.ReportResponse: requires a live record, because the code reads the record before it looks it up.
- HRilManagers.HRilManager.OnReport: requires a live record for a response to a known slot, as `ReportResponse` does.
- Overflow of `tv_sec` and `tv_usec`: both are unbounded, as the monotonic clock stays far below 64 bits and no caller asks for more.
- RequestRegistry.RunIsSafe: numbers allocations, so that an address reused by malloc counts as a new record.
- SystemGuarantees.HeldLockHasItsTimer: says nothing of a destroyed manager, where no timer releases the lock any more.
- SystemGuarantees.LeaseEndsWithItsBatch: says nothing of a destroyed manager either.
- SystemGuarantees.DueTimerWakesTheLoop: asks for microseconds below a second in the awaited deadline and not below zero in the timer's, because the kernel counts time where the list compares fields; `SelectTimesOutIff` covers the others.
- ShutdownGuarantees.ShutdownEndsIff: says nothing of threads still inside a call, which may write a later byte or arm a timer; `SignalSurvivesIff` covers them as far as the destructor's byte goes.
- The contents of the power service call, the pthread mutex around requests, and the vendor's own code.
- Vendor library loading, slot counting, handler and event-name tables, the per-request forwarding methods and the field-by-field copies of the call, data, modem, network and SIM modules: they would add only easy members.
- The messages logged, and `TimerCallback`, which only forwards to the stored function.
