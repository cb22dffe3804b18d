# A verified model of the printer's motion, timing and link layers

The printer is driven by a C++ host (`elegoo/`) and C micro-controller firmware (`src/`). This
project models the parts of both whose correctness depends on whole runs rather than on single
calls, and proves what they are there to guarantee.

- **Motion planning.** `LookAheadPlan` gives the velocity plan as functions on values;
  `LookAheadQueue` is the queue as it runs, with its backward pass, delayed list and lazy flushes.
  Moves planned bit by bit get exactly the speeds that planning the whole sequence at once would
  give them, and those speeds are continuous, within every limit, and at rest at both ends.
- **Flush clock.** `FlushClock` is the tool head's print time, flush time and restart time. No run
  of calls, timers and clock estimates ever queues a move where steps have already been generated.
- **Timer scheduler.** `Scheduler` is the firmware's linked timer list (`TimerList`) over a wrapping
  32-bit clock (`Ticks`), against true, unbounded times, with callbacks that change the list while
  their timer is being dispatched.
- **Output pin and move arena.** `DigitalOut` is a software-PWM pin with its safety timeout;
  `MoveArena` is the block of move nodes shared by a free list and many queues.
- **Host protocol.** `Crc` and `Bytes` are the checksum, `Framing` the block receiver, `Messages`
  the parameter coding of both sides.
- **Bootloader link.** `RingBuffer` is the receive FIFO, `BootLink` the frame parser and its task,
  `Flashing` the erase and program handlers under the host's update loop.
- **Clocks and mutex.** `ClockExtension` builds 64-bit time from 32-bit counters on both sides;
  `Mutex` is the hand-over mutex of the host's reactor.

Code that updates state is modelled by classes whose methods are proved against specification
functions on values; the laws are then proved about those functions. Speeds and times of the planner
are exact reals, and speeds stay squared. 32-bit wrap-around, truncation to 16 bits and unsigned
masks are written out wherever they occur. Ghost fields hold the true, unbounded times and counters
that the 32-bit fields stand for.

Where the code does not do what one would expect of it, the model follows the code and a lemma says
exactly when the expectation holds:

- The host's `encode_msgblock` shifts the low checksum byte away, so its blocks are valid only when
  that byte happens to be zero (`Framing.EncodedBlockValidIff`).
- The bootloader merges the last one to three bytes of an image with masks that shift by bits instead
  of bytes, so only a few byte patterns survive (`Flashing.FinalIsImageIff`).
- The bootloader parser does not restart on a second `A5`, so a run of them hides a frame when it is
  of odd length (`BootLink.FrameAfterRun`).
- The bootloader task leaves up to six bytes in the ring after some wake-ups, so a frame of such a length
  waits for more bytes (`BootLink.Device.ReceiveFrame`).
- A timer that a callback adds for a time before its own is lost when the callback's dispatch goes on
  behind it (`Scheduler.LostIff`); while the machine is not shut down such an addition stops it instead
  (`Scheduler.EarlyCallsStop`).
- A callback that has deleted its own timer and then deletes the one behind it, or adds its own again, leaves
  a list with a deleted timer back in it, or without the timers in front (`Scheduler.Scheduler.DeleteBehindOwn`,
  `Scheduler.Scheduler.ReaddOwn`); no other callback brings anything back (`Scheduler.NothingComesBack`).
- A pin configured with a timeout and started away from its default is not covered by the timeout
  (`DigitalOut.Pin.constructor`); the host refuses such a configuration (`elegoo/mcu.cpp:720-723`).
- The firmware's uptime loses a wrap if nothing is reported for a whole one
  (`ClockExtension.ExtendedIff`), and the host's conversion to 64 bits wraps near zero
  (`ClockExtension.Clock64Iff`).

## Model

| member | source | states |
|---|---|---|
| LookAheadPlan.BatchPlanGood | elegoo/toolhead.cpp:1061-1114 | the plan of a batch is feasible for every move, each move ends at the speed the next one starts at, and the first start and last end are at rest |
| LookAheadPlan.PlanGood | elegoo/toolhead.cpp:1070-1114 | the same for any suffix of a queue, given a ceiling that covers a run of delayed moves at its front |
| LookAheadPlan.NeighboursMeet | elegoo/toolhead.cpp:1078-1113 | two neighbouring moves agree on their common speed in all four combinations of limited and delayed moves |
| LookAheadPlan.HeadGood | elegoo/toolhead.cpp:1078-1113 | the first move of a suffix gets a profile within its own limits, and hands on a ceiling that covers what follows |
| LookAheadPlan.LimitedProfileFeasible | elegoo/toolhead.cpp:1102-1106 | the profile of a move that can still accelerate respects its cruise, start and acceleration limits |
| LookAheadPlan.PeakCovers | elegoo/toolhead.cpp:1080-1089 | behind every move that is not smoothing-bound there is a peak, at a positive ceiling no lower than its smoothed speed |
| LookAheadPlan.PeakZero | elegoo/toolhead.cpp:1082-1086 | testing the peak ceiling against zero tells exactly whether a peak has been seen |
| LookAheadPlan.BehindPeakIsJunctionBound | elegoo/toolhead.cpp:189-191 | the relation calc_junction sets up: right behind a peak or a delayed move the junction limit alone decides the speed |
| LookAheadPlan.DistancesFit | elegoo/toolhead.cpp:200-203 | for every feasible profile the accelerating, cruising and braking distances are non-negative and add up to the length of the move |
| LookAheadPlan.DurationsFit | elegoo/toolhead.cpp:194-218 | for every feasible profile the durations are non-negative, the speed changes by the acceleration over time, and the cruise covers its distance; a duration is dropped only if its distance takes less than a nanosecond |
| LookAheadPlan.CruiseIsSmooth | elegoo/toolhead.cpp:1072-1090 | smoothing: no move cruises faster than the smoothed acceleration allows when it gains speed over the whole way there and loses it over the whole way back |
| LookAheadPlan.AppendRaises | elegoo/toolhead.cpp:1072-1076 | queueing one more move never lowers a smoothed speed, and never makes a limited move a delayed one |
| LookAheadPlan.SmoothedSettles | elegoo/toolhead.cpp:1072-1078 | smoothed speeds up to any limited move no longer change when a move is queued |
| LookAheadPlan.StartSettles | elegoo/toolhead.cpp:1072-1076 | behind a peak with a limited move further back, the unsmoothed start speed no longer changes either |
| LookAheadPlan.PrefixSettles | elegoo/toolhead.cpp:1061-1114 | profiles in front of a settled point are the same before and after another move is queued |
| LookAheadPlan.SettledStays | elegoo/toolhead.cpp:1153-1168 | the run invariant: a point up to which moves may be handed over stays one, and the profiles up to it stay final |
| LookAheadPlan.LazyPointIsSecondPeak | elegoo/toolhead.cpp:1080-1086 | a lazy flush goes as far as the last peak that has another one behind it, and nowhere if there is none |
| LookAheadPlan.LazyPointSettled | elegoo/toolhead.cpp:1080-1086 | the point a lazy flush chooses is a peak with a limited move behind it |
| LookAheadPlan.SettledFurther | elegoo/toolhead.cpp:1080-1086 | a later lazy flush over the remaining queue moves the settled point on, for the whole batch |
| LookAheadPlan.PlanSplits | elegoo/toolhead.cpp:1078-1107 | a move that is not delayed starts a fresh plan: nothing queued before it matters |
| LookAheadPlan.StreamingEqualsBatch | elegoo/toolhead.cpp:1061-1151 | handing over a settled prefix now and planning the rest later, after any further moves, gives the plan of the whole batch |
| LookAheadPlan.PlanByViews | elegoo/toolhead.cpp:1070-1114 | the plan can be computed by one backward pass that carries only the values of the move behind |
| LookAheadQueue.UnjoinedSane | elegoo/toolhead.cpp:123-130 | every new move satisfies the assumptions of the planner |
| LookAheadQueue.Move.constructor | elegoo/toolhead.cpp:78-131 | the limits of a kinematic and of an extrude-only move, and that they satisfy the planner's assumptions |
| LookAheadQueue.Move.LimitSpeed | elegoo/toolhead.cpp:137-148 | the new limits, still consistent: smoothing never exceeds what the acceleration allows |
| LookAheadQueue.Move.LimitNextJunctionSpeed | elegoo/toolhead.cpp:150-153 | the next junction is capped and nothing else changes |
| LookAheadQueue.JunctionMeans | elegoo/toolhead.cpp:163-192 | which of its limits a junction takes, for the unsmoothed and the smoothed speed |
| LookAheadQueue.Move.CalcJunction | elegoo/toolhead.cpp:163-192 | two kinematic moves meet at the least of five limits (the cap of extruder and corner, both cruise limits, the limit set for the junction, and what the one before can reach), any others at standstill; and the relation between neighbours that the planner needs |
| LookAheadQueue.Move.SetJunction | elegoo/toolhead.cpp:194-204 | the move carries the given profile |
| LookAheadQueue.LookAheadQueue.PropagatePeak | elegoo/toolhead.cpp:1088-1100 | every delayed move gets the profile of the specification once the peak before it is known |
| LookAheadQueue.LookAheadQueue.PlanLimited | elegoo/toolhead.cpp:1102-1106 | a limited move gets the profile of the specification |
| LookAheadQueue.LookAheadQueue.PassLimited | elegoo/toolhead.cpp:1078-1107 | one step of the pass keeps peak, flush count and planned profiles as specified |
| LookAheadQueue.LookAheadQueue.PlanByPass | elegoo/toolhead.cpp:1061-1114 | the whole backward pass, with its delayed list, computes the specified plan for the moves to be handed over |
| LookAheadQueue.LookAheadQueue.PlanQueue | elegoo/toolhead.cpp:1061-1119 | a lazy flush stops at the second peak from the end or not at all, a full one takes everything, and the profiles are those of the batch plan |
| LookAheadQueue.LookAheadQueue.HandOver | elegoo/toolhead.cpp:1116-1151 | exactly the planned prefix leaves the queue, in order, with its profiles |
| LookAheadQueue.LookAheadQueue.Flush | elegoo/toolhead.cpp:1061-1151 | after any lazy flushes the output is a prefix of the batch plan; after a full flush it is all of it |
| LookAheadQueue.LookAheadQueue.AddMove | elegoo/toolhead.cpp:1153-1168 | the move joins the queue with its junction speeds; a lazy flush happens exactly when the flush time is used up, and what it hands over is final for the whole batch |
| LookAheadQueue.LookAheadQueue.SetFlushTime | elegoo/toolhead.cpp:1047-1050 | the time to the next lazy flush changes, the plan does not |
| LookAheadQueue.LazyFlushAdvances | elegoo/toolhead.cpp:1116-1151 | planning only what is queued gives the same profiles as planning the whole batch again |
| LookAheadQueue.FullFlushAdvances | elegoo/toolhead.cpp:1116-1151 | a full flush completes the batch plan that lazy flushes began |
| LookAheadQueue.LedgerGrows | elegoo/toolhead.cpp:1153-1158 | queueing a move keeps everything already handed over equal to the plan of the longer batch |
| LookAheadQueue.RequestMeans | elegoo/toolhead.cpp:78-148 | the limits of a requested move are the greatest that its speed, its limits and those of the tool head allow |
| LookAheadQueue.JoinedMeans | elegoo/toolhead.cpp:163-192 | each move of a sequence has its own limits, joined to the one before it |
| LookAheadQueue.FeasibleRespects | elegoo/toolhead.cpp:163-218 | a feasible profile keeps to the speeds and accelerations of its request, and starts slowly enough for the corner in front of it |
| LookAheadQueue.GainIsHalfway | elegoo/toolhead.cpp:128-130 | the smoothed acceleration gains at most what max_accel_to_decel allows over the requested lengths |
| LookAheadQueue.FeasibleDrives | elegoo/toolhead.cpp:200-203 | a feasible profile of a requested move drives its whole length in three non-negative parts |
| LookAheadQueue.LimitNext | elegoo/toolhead.cpp:641-648 | limiting the junction behind the last queued move leaves the plan so far intact |
| LookAheadQueue.PlanStream | elegoo/toolhead.cpp:650-681 | for every sequence of moves with any limits, any flush times set on the way and any extra lazy flushes: the profiles are those of one full flush over the sequence, continuous, feasible, driveable and at rest at both ends; said of the requests alone, each keeps to its speed and acceleration limits, starts no faster than the corner and the junction limit before it allow, and cruises within the smoothing limit |
| FlushClock.SafeLogMeans | elegoo/toolhead.cpp:355-419 | the meaning of a safe history, pair by pair: no move starts less than the scan delay after a time up to which steps exist, or before an earlier move has ended |
| FlushClock.LatestEndBounds | elegoo/toolhead.cpp:384-401 | every queued move that was not discarded ends, and must be stepped out, by the recorded times |
| FlushClock.ToolHead.AdvanceFlushTime | elegoo/toolhead.cpp:355-382 | steps are generated up to the stated time and no clock runs backwards |
| FlushClock.ToolHead.FlushInBatches | elegoo/toolhead.cpp:391-400 | the loop itself: it ends exactly at the wanted time, batch by batch |
| FlushClock.ToolHead.AdvanceMoveTime | elegoo/toolhead.cpp:384-401 | the batch loop ends, generates steps at most half a second further each time, and leaves flushing exactly the two delays behind the print time unless it was further already |
| FlushClock.ToolHead.CalcPrintTime | elegoo/toolhead.cpp:403-419 | the print time is the latest of what it was, 250 ms after the estimate, 100 ms and the scan delay after it, and the scan delay after the steps already generated |
| FlushClock.ToolHead.AppendMoves | elegoo/toolhead.cpp:433-463 | the moves are queued back to back from the print time on, each for its accelerating, cruising and braking time, and each where no steps exist yet |
| FlushClock.PlaceOne | elegoo/toolhead.cpp:433-463 | a move starts where the one before it ends, and ends after its three phases |
| FlushClock.ToolHead.ProcessMoves | elegoo/toolhead.cpp:421-470 | from every state exactly the given moves are queued, back to back for as long as each takes: from the print time in the main state, from a time that leaves room for the micro-controller and for generated steps in any other; in a drip move, how far it got and how it ended |
| FlushClock.DripsAreBounded | elegoo/toolhead.cpp:735-756 | the pace of a drip move, from the single polls |
| FlushClock.ToolHead.DripLoop | elegoo/toolhead.cpp:738-755 | each poll waits when the print time is far enough ahead, and moves it on by one segment otherwise |
| FlushClock.ToolHead.UpdateDripMoveTime | elegoo/toolhead.cpp:735-756 | the drip loop moves the print time on by 50 ms a poll at most, never past the target and never far ahead of the micro-controller if the host can wait; it falls behind that pace only when it is far enough ahead; it finishes exactly at the target, and aborts exactly when a completion is seen before |
| FlushClock.ToolHead.Wait | elegoo/toolhead.cpp:746-750 | whatever other parts of the host do during the wait of a drip move, no clock moves and no background flush is started |
| FlushClock.ToolHead.FlushLookahead | elegoo/toolhead.cpp:472-479 | the pending moves are queued, the print time is where the last of them ends, and the tool head needs priming again |
| FlushClock.ToolHead.FlushStepGeneration | elegoo/toolhead.cpp:481-486 | steps now exist past the end of every queued move and no further than asked for, and a restart can begin neither before the print time nor needlessly late |
| FlushClock.ToolHead.GetLastMoveTime | elegoo/toolhead.cpp:488-500 | the returned time is where the last move ends or, outside the main state, the latest of that and what the micro-controller and generated steps need; it is safe to queue at |
| FlushClock.ToolHead.CheckPause | elegoo/toolhead.cpp:502-555 | outside the main state the tool head starts priming |
| FlushClock.ToolHead.PrimingHandler | elegoo/toolhead.cpp:557-579 | priming flushes what is pending; in any other state, also in the middle of a drip move, nothing changes |
| FlushClock.ToolHead.FlushHandler | elegoo/toolhead.cpp:581-623 | the background loop ends; it sleeps only when enough is buffered, stops only when everything needed is flushed, and never flushes more than 400 ms ahead of the estimate |
| FlushClock.ToolHead.Dwell | elegoo/toolhead.cpp:697-702 | the print time moves on by exactly the delay from the last move time |
| FlushClock.ToolHead.DripMove | elegoo/toolhead.cpp:758-795 | a homing move is safe to the end, from its dwell on, with any moves queued by others in the pause of the dwell; exactly the pending, the later and its own moves are queued; finished or aborted, all steps are generated and the tool head is as after a flush |
| FlushClock.ToolHead.DripAfterDwell | elegoo/toolhead.cpp:761-794 | the same for what follows the dwell, from any state that others may have left behind in its pause |
| FlushClock.RemoveFirstDropsOne | elegoo/toolhead.cpp:880-886 | exactly one window of the old length is dropped |
| FlushClock.ToolHead.NoteScanTime | elegoo/toolhead.cpp:876-897 | changing the scan window is safe because everything is flushed first; one old window goes, the new one comes, and the delay covers every registered window |
| FlushClock.ToolHead.NoteActivity | elegoo/toolhead.cpp:910-924 | the needed flush times only grow, and the background flush is started exactly if it was idle |
| FlushClock.AllHanded | elegoo/toolhead.cpp:421-500 | the moves on the motion queue after a run are the batches that its operations hand over, one behind the other, each back to back |
| FlushClock.RunSafely | elegoo/toolhead.cpp:355-795 | over every sequence of operations, also between the dwell of a drip move and the move itself, of clock estimates and of drip completions: each operation does what is stated for it from where the one before left off, exactly the moves they hand over are queued, in their order and for as long as each takes, at least 250 ms after the estimate whenever the tool head was not in the main state, and none where steps exist or before an earlier one has ended, except after a discarding abort; a drip move goes on by at most 50 ms a poll |
| Ticks.IsBeforeIsEarlier | src/generic/timer_irq.c:26-30 | the signed 32-bit comparison agrees with true time exactly within half a wrap |
| TimerList.Search | src/sched.c:70-85 | the insert walk ends, and finds the slot of the true time from any starting point that is early enough, also from the timer being put back |
| TimerList.InsertTimer | src/sched.c:70-85 | the linked list afterwards is the sorted list with the timer at its slot |
| TimerList.SlotIsLocal | src/sched.c:155-188 | the slot does not depend on where the search starts, so the hint is as good as the head |
| TimerList.ClockInsert | src/sched.c:89-116 | inserting keeps the list sorted, within half a wrap, and ending in a sentinel half a wrap behind the periodic timer |
| TimerList.ClockPeriodic | src/sched.c:37-57 | moving the periodic timer and the sentinel together keeps that order |
| Scheduler.Scheduler.Reset | src/sched.c:190-199 | no user timer is left and the list is valid |
| Scheduler.Scheduler.PutBack | src/sched.c:179-185 | reinsertion from the hint yields the list that insertion from the head would |
| Scheduler.Scheduler.Leave | src/sched.c:171-176 | a finished timer leaves: the list goes on behind the node it links to, and the hint still points into it |
| Scheduler.Scheduler.Requeue | src/sched.c:177-185 | a timer that is not next again is back at the slot of its new time |
| Scheduler.Scheduler.Retime | src/sched.c:177-185 | a timer that is next again stays where it is, if it still is in the list |
| Scheduler.Scheduler.CallbackAdd | src/sched.c:88-116 | an addition in the middle of a callback: where the running timer links to then, and that only added timers can be in front of that |
| Scheduler.Scheduler.CallbackDelete | src/sched.c:129-152 | the same for a deletion, also of the running timer itself |
| Scheduler.Scheduler.Dispatch | src/sched.c:154-188 | the list that any sequence of additions and deletions by the callback, and its result, leave behind; after a clean callback exactly the named user timers are added and removed, and nothing pending is due before what ran |
| Scheduler.LostIff | src/sched.c:171-185 | a dispatch loses exactly the timers its callback added for a time before the node the running timer links to; while that timer is in the list, exactly those due before it |
| Scheduler.EarlyAddIsLost | src/sched.c:171-176 | a callback that adds a timer due before its own and then finishes loses it |
| Scheduler.LateCallsAreClean | src/sched.c:154-188 | a callback that adds nothing due before its own timer, and does not delete its own, loses nothing |
| Scheduler.EarlyCallsStop | src/sched.c:95-103 | while the machine runs, a callback of a due timer that does not delete its own either loses nothing or stops the machine, whatever it adds |
| Scheduler.Scheduler.DeleteBehindOwn | src/sched.c:129-176 | a callback that deletes its own timer, then the one behind it, and finishes: the second one is back in the list, with everything behind it |
| Scheduler.Scheduler.ReaddOwn | src/sched.c:88-176 | a callback that deletes its own timer, adds it again and finishes: the list is what is due later than the new time, and everything due before is lost |
| Scheduler.NothingComesBack | src/sched.c:171-185 | after every other callback the list holds only what was in it when the callback returned, and the running timer if it goes on |
| Scheduler.Scheduler.PeriodicEvent | src/sched.c:37-46 | the periodic timer moves on by one period, with the sentinel half a wrap behind it |
| Scheduler.Scheduler.DispatchPeriodic | src/sched.c:37-46 | the same, back in order in the list |
| Scheduler.Scheduler.AddFirst | src/sched.c:95-112 | a timer before all others goes to the front behind the placeholder |
| Scheduler.Scheduler.Add | src/sched.c:88-116 | exactly one user timer is added, at its slot, unless it is too late and that stops the machine |
| Scheduler.Scheduler.Delete | src/sched.c:129-152 | exactly the given user timer disappears; a deleted head leaves the placeholder, which is never elsewhere |
| Scheduler.Scheduler.Unlink | src/sched.c:141-147 | the search of the list finds the timer exactly if it is there |
| Scheduler.AddedAsAsked | src/sched.c:88-116 | a timer that is added is due when it was asked to be, and no other timer moves |
| Scheduler.RemovedAsAsked | src/sched.c:129-152 | a deletion moves no other timer |
| Scheduler.ConcludedAsAsked | src/sched.c:171-185 | a timer that is to run again is due when its callback says, and all others as before |
| Scheduler.PeriodicAsAsked | src/sched.c:37-46 | the periodic timer moves by exactly its period, the sentinel with it, and no user timer moves |
| Scheduler.StepAsAsked | src/sched.c:37-199 | every operation leaves the pending timers due when they were last asked to be |
| Scheduler.Scheduler.Run | src/sched.c:37-199 | any sequence of additions, deletions, dispatches with callbacks, periodic events and resets on the linked list: it stays valid and is the list those operations make, the wake times found at its front at each dispatch are in the order of true time across any number of wraps, the user timers are exactly those the operations leave, and each is due when it was last asked to be; an addition from outside may be for any time if the clock test of the code applies to it |
| DigitalOut.Pin.constructor | src/gpiocmds.c:116-126 | the timeout invariant holds initially exactly when there is no timeout or the pin starts at its default |
| DigitalOut.ToggleKeepsSound | src/gpiocmds.c:34-53 | an edge keeps the timer leading to the load and the timeout |
| DigitalOut.LoadKeepsSound | src/gpiocmds.c:55-114 | so does the load of an update that is not too late |
| DigitalOut.EnqueueKeepsSound | src/gpiocmds.c:144-173 | so does an update that is not refused |
| DigitalOut.SetIsSound | src/gpiocmds.c:177-194 | a level set at once is covered by the timeout from the start |
| DigitalOut.PulseTrain | src/gpiocmds.c:34-53 | the pulses: high for the on-time and low for the rest of each cycle, for any number of edges |
| DigitalOut.LoadMeans | src/gpiocmds.c:55-114 | a load applies the oldest update, at the time it asked for, and lasts until the next one or the timeout |
| DigitalOut.EnqueueMeans | src/gpiocmds.c:144-173 | a queued update waits behind the others, and the first one is loaded when it asks to be |
| DigitalOut.RefusedMeans | src/gpiocmds.c:152-171 | an update is refused exactly when it is the first and exceeds the timeout, or is late itself |
| DigitalOut.TooLateMeans | src/gpiocmds.c:84-92 | a load stops the machine exactly when the update needs a refresh and the next one is beyond the timeout |
| DigitalOut.SetMeans | src/gpiocmds.c:177-194 | a level set at once, and when its timeout ends |
| DigitalOut.Pin.Toggle | src/gpiocmds.c:34-53 | the level flips, and the next event is the next edge or, at the end of the pulses, the load |
| DigitalOut.Pin.Load | src/gpiocmds.c:55-114 | the next update is applied or the machine stops; it stops exactly when there is none, or when it needs a refresh and the one behind it comes too late |
| DigitalOut.Pin.NextEnd | src/gpiocmds.c:68-92 | when the new output runs out, never later than the timeout allows |
| DigitalOut.Pin.ScheduleNext | src/gpiocmds.c:97-113 | the timer always leads to the next load at the end time |
| DigitalOut.Pin.SetCycle | src/gpiocmds.c:131-139 | a pending update forbids a change of cycle |
| DigitalOut.Pin.Enqueue | src/gpiocmds.c:144-173 | the update is queued, or the machine stops because it would exceed the timeout or is too late |
| DigitalOut.Pin.Set | src/gpiocmds.c:177-194 | the pin is set at once, with its timeout armed if it needs one |
| DigitalOut.Pin.Shutdown | src/gpiocmds.c:197-207 | the pin is at its default, with nothing queued or armed |
| DigitalOut.RunPin | src/gpiocmds.c:34-207 | over every run of operations, each with the effect stated for it: at every moment a pulsing or non-default pin was set no longer than the timeout ago and has its timer armed so that a load follows within the timeout; a run ends early only at an operation that is not allowed |
| MoveArena.AllocChunks | src/basecmd.c:42-55 | as many nodes as fit, up to the limit, and not one less |
| MoveArena.AllocKeepsPartition | src/basecmd.c:84-94 | taking a node from the free list keeps free list, queues and held nodes a partition |
| MoveArena.FreeKeepsPartition | src/basecmd.c:75-81 | so does returning one |
| MoveArena.PushKeepsPartition | src/basecmd.c:111-122 | so does queueing one |
| MoveArena.PopKeepsPartition | src/basecmd.c:125-131 | so does taking the first one off a queue |
| MoveArena.Arena.Alloc | src/basecmd.c:84-94 | the first free node becomes held, or there is none |
| MoveArena.Arena.Free | src/basecmd.c:75-81 | the node is free and nothing else moved |
| MoveArena.Arena.Push | src/basecmd.c:111-122 | the node is last in its queue, and the result tells whether it was empty |
| MoveArena.Arena.Pop | src/basecmd.c:125-131 | the first node of the queue becomes held |
| MoveArena.Arena.Peek | src/basecmd.c:97-108 | the first node of the queue, if any |
| MoveArena.Arena.Reset | src/basecmd.c:152-166 | the free list holds every node once |
| MoveArena.Arena.Finalize | src/basecmd.c:169-178 | succeeds once, if a node fits, and leaves all nodes free |
| MoveArena.NextMeans | src/basecmd.c:75-131 | each operation moves one node: to or from the free list, to the end of a queue, or from its front |
| MoveArena.RunArena | src/basecmd.c:75-131 | over any run of operations on the linked nodes, every queue gives out its nodes in the order they were put in |
| MoveArena.Arena.RunShutdown | src/gpiocmds.c:197-207 | after all shutdown handlers, in any order and whatever the links were before, every node is free exactly once and all queues are empty |
| Crc.UpdateIsEightShifts | src/bootloader_com.c:33-36 | one update is eight shifts of the register of appendix C.2 of RFC 1662 |
| Crc.HostUpdateAgrees | elegoo/msgproto.cpp:49-53 | the host's update is the same |
| Crc.FoldsAgree | elegoo/msgproto.cpp:43-58 | host, firmware and reference agree on every byte string |
| Crc.Compute | src/generic/crc16_ccitt.c:10-22 | the loop computes the reference checksum |
| Crc.HostCompute | elegoo/msgproto.cpp:43-58 | so does the host's |
| Crc.DetectsTwoBytes | src/bootloader_com.c:28-39 | strings that differ only inside two adjacent bytes never share a checksum |
| Framing.StepBounds | src/command.c:267-325 | a step pops at most the buffer, and nothing exactly when it needs more data |
| Framing.DrainInParts | src/command.c:267-325 | for any bytes, taking a first part and then the rest gives the same blocks, refusals and state as taking all at once |
| Framing.FeedIsDrain | src/command.c:267-325 | so does any cutting of the stream |
| Framing.FrameIsValid | src/command.c:197-206 | a built frame is recognised whatever follows it |
| Framing.AcceptsInOrder | src/command.c:288-294 | of frames numbered modulo 16 within 15 of the expected one, exactly those that continue the count are accepted |
| Framing.AcceptsInOrderInChunks | src/command.c:267-325 | the same however the stream is cut |
| Framing.CleanStreamInChunks | src/command.c:267-325 | a clean stream is accepted whole and in order under any chunking |
| Framing.ValidBlockIsFrame | src/command.c:275-288 | only a frame, with its length, checksum and sync byte, is a valid block |
| Framing.OnlyFramesInOrder | src/command.c:267-325 | whatever bytes arrive, the blocks that are accepted are frames, numbered one after the other |
| Framing.BrokenBlockIsNaked | src/command.c:303-324 | a broken block is answered by a nak, unless one was sent since the last valid block |
| Framing.ValidBlockRearms | src/command.c:290-298 | a valid block is refused exactly when it is out of sequence, and behind it broken bytes are answered again |
| Framing.BrokenIsDropped | src/command.c:267-325 | broken bytes are dropped up to the next sync byte, and what follows is read afresh |
| Framing.NoiseIsNakedOnce | src/command.c:267-325 | any amount of noise is answered exactly once |
| Framing.FrameAfterNoise | src/command.c:267-325 | the frame behind the noise is accepted, however the stream is cut into chunks |
| Framing.ExtraSyncIsSkipped | src/command.c:303-308 | a sync byte between frames does not matter |
| Framing.FirstBlock | src/command.c:197-206 | the first block of a session, byte for byte |
| Framing.Receiver.NextBlock | src/command.c:267-325 | the receiver, with all its error branches, is the step that these laws are about |
| Framing.AddFrame | src/command.c:197-206 | header, checksum and sync go around a payload in place, and nothing behind it changes |
| Framing.CheckPacket | elegoo/msgproto.cpp:613-654 | the host tells incomplete, valid and broken blocks apart as the firmware does |
| Framing.EncodedBlockValidIff | elegoo/msgproto.cpp:729-752 | a block of the host's own encoder is valid exactly when its checksum has a zero low byte |
| Framing.EmptyEncodedBlockIsInvalid | elegoo/msgproto.cpp:729-752 | the empty block with sequence number zero is one that breaks |
| Messages.HostEncodeIsGroups | elegoo/msgproto.cpp:72-95 | the host sends just enough seven-bit groups for the sign to be recovered |
| Messages.HostEncodeIsShortest | elegoo/msgproto.cpp:72-95 | no shorter encoding would do |
| Messages.McuEncodeIsGroups | src/command.c:40-54 | so does the firmware, for a number equal modulo 2^32 though sometimes of another length |
| Messages.McuEncodeIsShortest | src/command.c:40-54 | the firmware sends no more groups than the signed number needs |
| Messages.IntegerRoundTrips | src/command.c:40-70 | every integer in [-2^31, 2^32) arrives modulo 2^32 in both directions, and exactly its bytes are consumed |
| Messages.ParseEnds | src/command.c:56-70 | a quantity ends at its first byte without the continuation bit, and runs out exactly when there is none |
| Messages.ParseInt | src/command.c:56-70 | the decoding loop, including the running out of bytes |
| Messages.MessageRoundTrip | elegoo/msgproto.cpp:424-482 | any list of integers, buffers and strings survives the trip in both directions, whatever surrounds it and wherever the block ends behind it, and exactly its bytes are consumed |
| Messages.McuDecodesInside | src/command.c:94-129 | the firmware takes a buffer exactly when all of it lies inside the block, and fails otherwise |
| Messages.CommandParse | src/command.c:94-129 | the firmware's parser loop, with its refusals |
| Messages.HostDecodesInside | elegoo/msgproto.cpp:451-482 | the host takes a buffer or string that is all there, and reads one that is not as empty at position 0 |
| Messages.FormatParse | elegoo/msgproto.cpp:451-482 | the host's parser loop |
| Messages.FormatEncode | elegoo/msgproto.cpp:424-434 | what the host encodes, the firmware decodes to the same parameters |
| Messages.FittingMessageIsWhole | src/command.c:131-194 | when a message fits, the firmware's encoder cuts nothing |
| Messages.TrimmedIsLongest | src/command.c:160-183 | as much of a buffer is sent as there is room for, and of a string one byte less |
| Messages.EncodeFailsIff | src/command.c:144-146 | encoding fails exactly when the room is used up in front of some parameter |
| Messages.EncodeIntoTrims | src/command.c:131-194 | an encoded message is the encoding of its parameters, each cut to the room left when its turn comes |
| Messages.FittingIsNotTrimmed | src/command.c:131-194 | no parameter of a message that fits is cut |
| Messages.SentIsReadBack | src/command.c:131-194 | whatever the firmware sends, also a message cut to the room in its transmit buffer, is decoded by the host to the parameters as cut |
| Messages.CommandEncode | src/command.c:131-194 | the firmware's encoder loop, which trims buffers and strings to the room left and fails when there is none |
| Messages.PairIsOr | src/command.c:81-92 | the two bytes of an identifier are or-ed together, with one bit in common |
| Messages.MsgidLength | src/command.c:81-92 | the first byte tells how long an identifier is |
| Messages.MsgidRoundTrip | src/command.c:72-92 | message identifiers of up to 14 bits survive |
| RingBuffer.CounterDifference | src/ringbuffer.h:39-67 | free-running 32-bit counters give the true fill level and room across any number of wraps |
| RingBuffer.PutAppends | src/ringbuffer.h:39-48 | the two-part copy appends to the stored bytes and disturbs none |
| RingBuffer.GetTakes | src/ringbuffer.h:50-59 | the two-part copy out takes the oldest bytes |
| RingBuffer.Ring.Put | src/ringbuffer.h:39-48 | a bounded FIFO: as much of the data as there is room for is appended |
| RingBuffer.Ring.Get | src/ringbuffer.h:50-59 | the oldest bytes, as many as wanted and present, are removed and returned |
| RingBuffer.Ring.Available | src/ringbuffer.h:61-64 | the number of stored bytes |
| RingBuffer.StepIsSafe | src/ringbuffer.h:39-59 | each atomic step of a producer or a consumer keeps the shared buffer consistent |
| RingBuffer.EveryInterleavingIsFifo | src/ringbuffer.h:39-59 | under every interleaving of one producer and one consumer the bytes got are a prefix of the bytes put, at most `size` behind |
| BootLink.PackageData | src/bootloader_com.c:53-68 | the frame is written, or nothing if it does not fit |
| BootLink.EatPayload | src/bootloader_com.c:119-133 | copying a run of payload bytes at once is the same as receiving them one by one |
| BootLink.FrameIsHandled | src/bootloader_com.c:74-154 | a frame of any command with any payload up to 4096 bytes, also empty, calls the handler once with exactly that and leaves the parser idle |
| BootLink.FramesAreHandled | src/bootloader_com.c:74-154 | frames in a row are handled in order, once each |
| BootLink.NoiseIsSkipped | src/bootloader_com.c:86-91 | noise without the first magic byte leaves the parser idle |
| BootLink.FrameAfterRun | src/bootloader_com.c:86-97 | after a run of first magic bytes a frame is handled exactly if the run is of even length |
| BootLink.DoubledMagicHidesFrame | src/bootloader_com.c:86-97 | one extra magic byte hides a frame |
| BootLink.EatGoesOn | src/bootloader_com.c:84-148 | every byte goes on with the frame, gives it up, or completes it with the right checksum; only then the handler is called |
| BootLink.OnlyFramesAreHandled | src/bootloader_com.c:74-154 | whatever bytes arrive, the handler is only called for frames that are among them, in their order |
| BootLink.CallNeedsFrame | src/bootloader_com.c:84-148 | from idle, the first call of the handler takes at least the bytes of a frame with its payload |
| BootLink.PartialFrameIsQuiet | src/bootloader_com.c:84-148 | as long as a byte of a frame is missing the handler is not called |
| BootLink.Parser.Step | src/bootloader_com.c:84-148 | every phase but the payload copy is one step of the reference parser |
| BootLink.Parser.Copy | src/bootloader_com.c:119-132 | the payload phase writes inside the buffer, and its copy is that many steps of the reference parser |
| BootLink.Parser.Feed | src/bootloader_com.c:79-153 | the parse loop ends, although the payload phase may consume nothing, and does what the reference parser does |
| BootLink.DrainsIff | src/bootloader_com.c:74-154 | exactly which fill levels one wake-up empties |
| BootLink.ShortTailIsLeft | src/bootloader_com.c:74-154 | 131 waiting bytes are not emptied by one wake-up |
| BootLink.Device.Commit | src/bootloader_com.c:46-51 | what fits is taken in, and a whole frame never waits without the handler task having been woken |
| BootLink.DrainedAlone | src/bootloader_com.c:70-155 | undisturbed rounds of the loop consume the oldest bytes, as many as stated, and nothing else |
| BootLink.Device.Task | src/bootloader_com.c:70-155 | with receptions after any of its pulls, the bytes taken in and consumed are exactly those of the rounds of the loop, which goes on while a shortest frame waits; without receptions exactly the oldest bytes, as many as stated |
| BootLink.Device.ReceiveFrame | src/bootloader_com.c:46-155 | a frame received at once by an idle device is handled by the wake-up it causes exactly if its length is a fill level that one wake-up empties |
| BootLink.PartialFrameIsBusy | src/bootloader_com.c:84-148 | in the middle of a frame the parser is never idle |
| BootLink.Device.ReceiveRest | src/bootloader_com.c:46-155 | the rest of a frame, however short, wakes the handler task, and is handled exactly if its length is a fill level that one wake-up empties |
| BootLink.RunDevice | src/bootloader_com.c:46-155 | under any receptions and task runs, also receptions inside a task run, the device takes in of each reception as much as there is room for, and consumes what the handler task pulls; whatever the bytes, the handler is only called for frames among them, in order; when they are the beginning of some frames, for a prefix of these, and for all of them once they are complete and the ring is empty |
| Flashing.MergeOnBlank | src/bootloader.c:107-119 | what each of the three masks leaves of a byte in an erased word |
| Flashing.TailReadsBackIff | src/bootloader.c:107-119 | exactly which trailing bytes read back as sent |
| Flashing.FinalIsImageIff | src/bootloader.c:85-119 | the device ends up with the image exactly if its trailing bytes are such |
| Flashing.OddImageIsLost | src/bootloader.c:107-119 | an image of one zero byte does not read back |
| Flashing.Flash.Erase | src/bootloader.c:35-57 | exactly the pages needed to cover the request are blank, the rest is untouched, and an impossible size erases nothing |
| Flashing.AcceptedMeans | src/bootloader.c:90-91 | a request is taken exactly when it ends within the image size it names, as long as the sum does not wrap |
| Flashing.Flash.Program | src/bootloader.c:85-122 | the words written and acknowledged for every request that ends within the image, and nothing for one that does not |
| Flashing.WordHoldsBytes | src/bootloader.c:107-119 | the word read from flash holds its four bytes, lowest first |
| Flashing.Flash.ProgramTail | src/bootloader.c:107-119 | read, merge and write back of the last word |
| Flashing.FinalOfPacket | elegoo/serial_bootloader.cpp:314-341 | packets at their offsets make up the words of the image |
| Flashing.PacketAdvances | elegoo/serial_bootloader.cpp:399-420 | programming the next packet extends the programmed prefix and leaves the rest blank |
| Flashing.Host.EraseFlash | elegoo/serial_bootloader.cpp:295-312 | success means the area is blank and large enough |
| Flashing.Host.ProgramFlash | elegoo/serial_bootloader.cpp:314-341 | success advances the programmed prefix by the acknowledged words; failure leaves it before or after the packet |
| Flashing.Host.WriteChunk | elegoo/serial_bootloader.cpp:404-420 | the inner loop ends and keeps the programmed prefix |
| Flashing.Host.Update | elegoo/serial_bootloader.cpp:369-427 | success means flash holds the image, exactly if its odd bytes survive; at any failure every whole-word byte is right or blank; over a reliable link it succeeds exactly for images that are not empty and fit |
| ClockExtension.ExtendedIff | src/basecmd.c:296-302 | the extended time is the true one exactly if less than a wrap passed since the last report |
| ClockExtension.LostWrap | src/basecmd.c:296-302 | a whole wrap without a report is lost |
| ClockExtension.Uptime.Update | src/basecmd.c:308-335 | a report is sent exactly when the period is over, and the high word counts the wraps |
| ClockExtension.Uptime.Read | src/basecmd.c:296-302 | the answer is the true time modulo 2^64 |
| ClockExtension.ClockSync.constructor | elegoo/clocksync.cpp:38-41 | the host starts from the true time |
| ClockExtension.ClockSync.HandleClock | elegoo/clocksync.cpp:179-185 | after each sample less than a wrap later the host again holds the true time |
| ClockExtension.Clock64IsNearest | elegoo/clocksync.cpp:110-116 | the conversion returns the one time with that counter value within half a wrap of the last clock |
| ClockExtension.Clock64Iff | elegoo/clocksync.cpp:110-116 | it always has that counter value, and is within half a wrap exactly if that stays inside 64 bits |
| ClockExtension.WrapsBelowZero | elegoo/clocksync.cpp:110-116 | just after start-up a counter half a wrap ahead is taken for a time before zero |
| ClockExtension.RunClocks | src/basecmd.c:296-335 | over every run of the firmware with timely reports, and of hosts that connect and connect again at any time and then sample in time, each clock a host holds is the true time of its connection or sample, and each uptime answer is the true time of the question, modulo 2^64 |
| Mutex.TakeTurn | elegoo/reactor.cpp:178-184 | an acquisition while nobody holds the lock keeps holders taking turns |
| Mutex.EndTurn | elegoo/reactor.cpp:209-223 | so does the holder's release |
| Mutex.ReactorMutex.Lock | elegoo/reactor.cpp:178-193 | the lock is taken at once exactly if it is free and not promised; otherwise the caller is last in the queue |
| Mutex.ReactorMutex.Resume | elegoo/reactor.cpp:194-206 | a woken waiter gets the lock exactly if it is promised and the waiter is first |
| Mutex.ReactorMutex.Unlock | elegoo/reactor.cpp:209-223 | the lock becomes free, or is promised to the first waiter, which is woken |
| Mutex.RunMutex | elegoo/reactor.cpp:178-223 | for any number of greenlets, calls and spurious wake-ups: the mutex is where the events lead, one holder at a time, locks are granted in the order in which the events ask for them, and no hand-over is lost |

## Left out

- Floating-point rounding, square roots, junction angles and the extruder's junction rule: the planner works on exact squared speeds, and the junction limits of corner and extruder are one arbitrary non-negative cap.
- LookAheadQueue.Move.SetJunction: keeps the three squared speeds only; what follows from them for distances and durations is stated beside it (LookAheadPlan.DistancesFit, LookAheadPlan.DurationsFit), with the square roots given.
- LookAheadQueue.PlanStream: the limits set on a move before it is queued are one call of limit_speed, which covers several, since only their minima matter.
- FlushClock.ToolHead.UpdateDripMoveTime: the polls of the drip completion are a finite sequence of inputs, and running out of them is reported as still dripping.
- FlushClock.ToolHead.NoteScanTime: for an empty list of scan windows, where the code takes the maximum of nothing, the model uses the fixed minimum.
- FlushClock.ToolHead.CheckPause: the waiting loop and the stall counters are not modelled; the loop changes neither the clocks nor the queuing state.
- Timing callbacks of moves, trapq and extruder history, and the reporting of print stalls.
- Scheduler.Scheduler.Add: callers keep pending times within half a wrap of each other, which the firmware relies on without checking.
- Scheduler.Scheduler.Dispatch: a callback sets the new wake time of its timer last; that it does not add its own timer to the list, and once it has deleted its own does not delete the one behind, are conditions whose failure is stated by Scheduler.Scheduler.ReaddOwn and Scheduler.Scheduler.DeleteBehindOwn.
- Scheduler.Scheduler.CallbackAdd: the running timer itself is not added, see Scheduler.Scheduler.ReaddOwn.
- Scheduler.Scheduler.CallbackDelete: the timer behind a deleted running timer is not deleted, see Scheduler.Scheduler.DeleteBehindOwn.
- Scheduler.Scheduler.Run: ends at the first operation that stops the machine.
- DigitalOut.RunPin: due timers are run before the clock moves on, and compared clocks are within half a wrap; a run ends at the first step that breaks this.
- Hardware PWM, steppers, endstops, sensors and the remaining firmware commands, which would only repeat the queue and timeout pattern.
- MoveArena.Arena.Finalize: node sizes are one number; memory alignment and the zeroing of memory are not modelled.
- Messages.ParseInt: the decoders read past their buffer without a check; the model reports that as an overrun.
- Conversion of signed and unsigned parameters to text, enumerations and the data dictionary of the host protocol.
- Retransmission, windowing and round-trip estimation of the host's serial queue, which is C code outside both core parts.
- RingBuffer.EveryInterleavingIsFifo: memory accesses are sequentially consistent; compiler and bus reordering are not modelled.
- BootLink.Device.Task: a reception inside a run of the handler task comes between two of its pulls; the interleavings of a reception with a pull are those of RingBuffer.EveryInterleavingIsFifo.
- BootLink.FrameIsHandled: a handler is installed, as the bootloader's start-up does.
- The host's copy of the bootloader parser inside send_and_wait_ack, which is the same state machine, and its time-outs.
- Flashing.Flash.Program: offsets are multiples of four and words stay inside the application area, as the host sends them; what the flash controller does with other addresses is not modelled.
- Flashing.Host.Update: the link delivers a request or an answer whole or not at all; the unused bytes the host sends behind a short packet are not modelled.
- The sector erase of the STM32F401, and the device's start-up, jump and ping commands.
- ClockExtension.Uptime.Update: the statistics in the report are not modelled, and the reporting period is at most half a wrap.
- The regression that estimates the clock frequency, and the secondary clock synchronisation.
- Mutex.ReactorMutex.Lock: greenlets switch only at pauses, so the host-thread mutex inside adds nothing to the model.
- Coroutine switching, timers and file descriptors of the reactor.
