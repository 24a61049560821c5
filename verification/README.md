# A verified model of the coroutine gateway

The repository is a C++ HTTP gateway on its own coroutine runtime. This project models four parts of it
in Dafny and proves what they are for:

1. **The coroutine runtime.** Fibers, workers, the task queue, the event table mirrored by epoll, and the
   timer set form one state machine (`Runtime`); a step is one critical section (queue lock, fd mutex,
   timer lock, fiber mutex) or one local move of one worker, and runs are arbitrary interleavings of
   steps. The parts are also written as the objects the program has (`IOManager`, `Scheduler`,
   `Manager` and `Timer`, `Fiber`), each method proved to do exactly what the step functions do, and
   `do_io` as its retry loop (`DoIo`). What the steps come to for those who wait, wake and run is stated in
   `RuntimeEffects`, and that no worker is ever stuck in `RuntimeProgress`.
2. **The timer manager.** The deadline-ordered set with cancel, refresh, reset, recurring timers, clock
   rollback and the once-only front notification (`Timers`, `TimerRuns`, `TimerHistory`).
3. **The gateway's fast structures** against simple specifications: route trie against a search of the
   list (`Routes`), token cache against full verification (`Auth`), LRU list and map against a recency trace
   (`Lru`), memory pool against disjoint slots (`Slots`), upstream map against addresses (`Upstreams`),
   rate limiter against counting (`RateLimit`).
4. **Codecs and framing.** HS256 tokens with base64url (`Base64`, `Jwt`, `JwtRoundTrip`; for tokens and payloads
   that anybody may have written, `JwtVerdicts`), header values
   (`Bearer`, `Framing`), reading a request from a stream that the network cuts at will (`Framing`), and the
   printed form of addresses (`Addresses`).

Where the program changes state in place there is a class, and the `ensures` of its methods equate the new
abstract value with a function of the old one; the lemmas are about those functions and about runs.

## Premises and what the code decides

* The timer comparator compares deadlines only, so a second timer with a taken deadline is not inserted.
  Whether a timer keeps its place is decided exactly by that (`AddCbIff`, `RefreshCbIff`, `InsertCbIff`,
  `ExpireCbIff`, `SleepNeedsFreeDeadline`, over runs `BalancedRunIff`). The claims about callbacks need free
  deadlines; for wake tokens only those of sleeps matter.
* `listExpiredCb` ends exactly when every due timer that would come back due finds its next deadline taken by
  a later entry (`LoopEndsIff`); without such collisions, exactly when no recurring timer meets a clock
  rollback and no due one has period zero (`LoopEndsWithoutClash`). It reads the clock twice, once to decide
  what is due and once for the rollback; the model keeps the two readings apart.
* `reset` releases the lock in the middle and updates the timer's fields without it. Runs take its first
  section, the updates and its second section as three events between which anything may happen. A `cancel`
  that comes between reports success and still leaves the timer in the set, without a callback
  (`CancelledYetPending`); after the updates it looks under the new deadline and takes out another timer that
  stands there (`CancelTakesOther`). Everything stays in step exactly when no operation cancels or moves a timer
  that a reset is moving (`OrderlyRunIff`, `BalancedRunIff`); when nothing is inserted at the deadlines such
  timers have, only a cancel can do that (`OnlyCancelsMatter`). A refresh or a second reset that puts such a
  timer back lets the first reset change a key inside the set; the set stays ordered exactly as long as that
  does not happen (`OrderedRunIff`), and all claims about runs stop there.
* `idle` triggers every reported READ/WRITE bit without masking. A report is handled correctly exactly when
  its bits are still registered, or none is (`ReportNeedsRegisteredBits`); runs take such reports, and
  `IOManager.HandleReport` says when the assertion fails on the others.
* Closing a descriptor keeps the mirror of epoll exactly when no event is registered on it at the moment of
  the system call (`CloseKeepsMirrorIff`): a failed `cancelAll`, a registration made after it, and a descriptor
  that never went through `cancelAll` can each leave one. Runs close a descriptor once nothing is registered.
* `addEvent` finds the vector too short under one lock and resizes it under another; a resize that comes after
  a larger one truncates. That does no harm exactly when nothing is registered on what it cuts off
  (`LateResizeIff`). Runs take look and resize as one step.
* Wake tokens are exact in every state of a run if and only if every step spares the sleepers (`StepParkedIff`,
  `RunParkedIff`, `TokensExactIff`): user code schedules no existing fiber (`RescheduleBreaksParking`) and does
  not yield with nothing to wake it (`BareYieldBreaksParking`), no sleep meets a taken deadline
  (`SleepNeedsFreeDeadline`), and no cancel, refresh or reset of a user timer finds a sleeper's entry under that
  timer's deadline (`UserTimerParkedIff`). None of these ever lets a fiber run twice (`NoFiberRunsTwice` has no
  such premise).
* Timers are looked up by deadline, and code can use the handles of the timers it added; the sleep hooks keep
  none. Free deadlines alone therefore do not protect sleepers: a fiber that falls asleep at the deadline which
  a timer had before its reset is lost when that timer is cancelled between the sections
  (`CancelTakesSleeper`). Free deadlines together with undisturbed resets do (`BalancedSpares`,
  `UndisturbedIsDisciplined`).
* The timeout of an I/O wait is pending, queued, in a worker's hand or about to run, in exactly one of these
  places, until its callback has run or a timer operation has taken its entry (`TimeoutIff`). A callback that
  runs between `addConditionTimer` and `addEvent` finds nothing to cancel (`EarlyTimeoutIsLost`), and the wait
  registered after it has no timeout (`LateWaitHasNone`); so has one whose timer met a taken deadline.
* A readiness report wakes whoever waits on its bits, an error report whoever waits on any (`ReportWakes`), and a
  close whoever waits on the descriptor (`CloseWakes`), with a willing kernel; the woken are queued for any worker.
* `IOManager::stopping()` is three reads, and so it is in the runtime: the timers, the pending count, the
  queue. At the last of them every fiber has terminated exactly when none sleeps and none waits for an event
  (`LastReadIff`, `StoppingExact`); `TornStopping` is a run in which all three succeed with a fiber asleep.
* A worker whose idle fiber has ended still takes tasks, and exits when it finds none. What it leaves behind is
  exact (`ExitedIff`): nothing is, if all of stopping() held at some moment and nothing was submitted from then
  on (`StoppedForGood`, `StoppedStays`); `LateSubmit` is a run that leaves a fiber asleep with every worker gone.
* `resume` saves into the context of the home fiber (the scheduler's or the main one), whoever calls it. The
  thread's pointers and contexts stay straight exactly when the home fiber is the caller (`SwitchIff`,
  `ResumeYieldIff`).
* The claims are searched, not parsed: the value is what stands between the next two quotes, or the digits after
  blanks, behind the first colon after the first occurrence of the quoted key (`StringExact`, `NumberExact`). A
  token without a readable expiry never expires; a demanded issuer or audience must be there (`VerifyExact`).
* An issuer called `exp` hides the expiry from `get_exp` and from the expiry check, and a negative expiry
  cannot be read back; both are exact (`SignVerify`, `SignGetExp`).
* The first slot of a pool block is not checked. With memory in units of some alignment it fits in every block
  exactly when header, worst padding and one slot fit (`FirstSlotFitsIff`); the static assertion does not give
  that (`StaticAssertionTooWeak`). In any geometry a run is sound exactly when every new block takes its own
  first slot (`AllocateIff`, `RunInvIff`).
* LRU capacity is -1 or at least 1, the values the callers pass. A successful load always installs a token
  cache of 10000 entries, so a configured capacity lasts only until the end of a successful load, and after
  a failed one until the next.
* `verify_hs256` accepts a token in the second of its expiry, which section 4.1.4 of RFC 7519 forbids; the
  cache does not (`LastSecondMissesCache`).
* A second keeps to every limit exactly when its counted requests stand together, with none of another second
  handled in between (`LimitHoldsIff`); a clock that never goes back is enough (`ForwardHolds`), one that goes
  back and returns is not (`ClockBackPassesMore`). In any case exactly the first `limit` requests of each of its
  unbroken runs pass (`PassedIsSumOfRuns`). The limit is read anew for every request.
* `connect_with_timeout` treats any resumption, and a wait that could not be registered, as the end of the
  attempt (`ConnectWithTimeout`).
* Clocks, epoll reports, `epoll_ctl` failures, addresses of new memory, sizes returned by `recv` and `send`,
  and the answers of system calls are parameters or nondeterministic. HMAC is any function to nonempty
  bytes.

## Model

| member | source | states |
|---|---|---|
| RuntimeRuns.NoFiberRunsTwice | src/CoroutineLibrary/scheduler.cpp:133-154 | in every interleaving a RUNNING fiber is on exactly one worker, which holds its mutex; whoever finds the mutex free finds the fiber not RUNNING, so resume's assertion holds; counters never underflow and epoll mirrors the bits |
| RuntimeRuns.OneWakeToken | src/CoroutineLibrary/hook.cpp:89-241 | in every reachable state of a run whose steps all spare the sleepers a suspended fiber has exactly one wake token (queue entry, task in hand, event context, sleep timer or running wake-up), a terminated one none |
| RuntimeRuns.RunParkedIff | src/CoroutineLibrary/hook.cpp:89-241 | over every run whose resets change no key inside the set, tokens are exact in every state if and only if every step spares the sleepers: no existing fiber scheduled, no bare yield, no sleep at a taken deadline, no sleeper's entry found by a cancel, refresh or reset of another timer |
| RuntimeRuns.TokensExactIff | src/CoroutineLibrary/hook.cpp:89-241 | the same for every run from the start |
| RuntimeRuns.StepParkedIff | src/CoroutineLibrary/timer.cpp:5-77 | each step keeps tokens exact if and only if it spares the sleepers |
| RuntimeRuns.UserTimerParkedIff | src/CoroutineLibrary/timer.cpp:5-77 | an operation on a user timer keeps tokens exact if and only if it takes out no sleeper's entry, whatever other deadlines it meets |
| RuntimeWitnesses.CancelTakesSleeper | src/CoroutineLibrary/timer.cpp:5-77 | a run with free deadlines, hooked suspension and no refresh or second reset of a moved timer after which a cancel between the sections of a reset takes a sleeper's entry and leaves it without a token |
| RuntimeRuns.UndisturbedIsDisciplined | src/CoroutineLibrary/timer.cpp:5-209 | with free deadlines and resets that nobody disturbs between their sections every step spares the sleepers |
| RuntimeShutdown.LastReadIff | src/CoroutineLibrary/ioscheduler.cpp:345-350 | when the last read of stopping() succeeds every fiber ever submitted has terminated exactly when no sleep timer is pending and no fiber waits in the event table |
| RuntimeShutdown.StoppingExact | src/CoroutineLibrary/ioscheduler.cpp:345-350 | over any disciplined run in which the timers are gone at one moment, the pending count zero at a second and the queue done at a third: all fibers have terminated exactly when none sleeps or waits then, in particular when none slept since the first and none registered since the second |
| RuntimeShutdown.CleanShutdown | src/CoroutineLibrary/ioscheduler.cpp:345-350 | whenever all of stopping() holds at one moment every fiber ever submitted has terminated, no mutex is held and epoll watches nothing |
| RuntimeShutdown.StepNoSleeper | src/CoroutineLibrary/hook.cpp:193-241 | only a sleep makes a timer that reschedules a fiber |
| RuntimeShutdown.StoppedForGood | src/CoroutineLibrary/scheduler.cpp:99-168 | once all of stopping() holds with every fiber terminated and nothing is submitted any more, both hold ever after, whatever the run was before |
| RuntimeShutdown.StoppedStays | src/CoroutineLibrary/scheduler.cpp:99-168 | so it is from any moment at which a disciplined run has all of stopping() hold |
| RuntimeShutdown.ExitedIff | src/CoroutineLibrary/scheduler.cpp:154-168 | when every worker has exited all fibers have terminated exactly when none is queued, asleep or waiting |
| RuntimeWitnesses.LateSubmit | src/CoroutineLibrary/scheduler.cpp:154-168 | a run in which a task submitted after the idle fiber ended leaves a suspended fiber with every worker exited |
| RuntimeRuns.SleepNeedsFreeDeadline | src/CoroutineLibrary/hook.cpp:193-241 | a sleeping fiber keeps the token balance exactly when its deadline is not taken |
| RuntimeRuns.RescheduleBreaksParking | src/CoroutineLibrary/scheduler.h:32-52 | scheduling an existing fiber from user code always leaves one token too many |
| RuntimeWitnesses.TornStopping | src/CoroutineLibrary/ioscheduler.cpp:345-350 | a run in which the three reads of stopping(), with other steps between them, all succeed and the idle fiber ends with a fiber asleep |
| RuntimeRuns.BareYieldBreaksParking | src/CoroutineLibrary/fiber.cpp:152-179 | a fiber that yields from user code with nothing to wake it always lacks its token |
| RuntimeRuns.RunSafe | src/CoroutineLibrary/scheduler.cpp:99-168 | every run keeps the lock discipline, the event table invariant and the active count |
| RuntimeRuns.RunSound | src/CoroutineLibrary/hook.cpp:89-241 | every run whose steps spare the sleepers keeps tokens equal to what each fiber's state calls for, and sleep timers in the set and out of everybody's reach |
| RuntimeSafety.StepLocked | src/CoroutineLibrary/fiber.cpp:126-194 | each step keeps mutex owner, fiber state and worker position consistent |
| RuntimeSafety.StepTable | src/CoroutineLibrary/ioscheduler.cpp:123-332 | each step keeps the event table's invariant |
| RuntimeSafety.StepActive | src/CoroutineLibrary/scheduler.cpp:117-153 | each step keeps the active count equal to the workers with a task |
| RuntimeTimers.IdleSchedules | src/CoroutineLibrary/ioscheduler.cpp:389-398 | the idle step schedules the collected callbacks in deadline order after what was queued, and leaves no deadline that has come, and none at all after a clock set back by over an hour |
| RuntimeTimers.IdleCollectsDue | src/CoroutineLibrary/ioscheduler.cpp:389-398 | what it collects is exactly the timers whose deadline has come, all of them after such a rollback, each with its callback |
| RuntimeTimers.TimerOpTokens | src/CoroutineLibrary/timer.cpp:5-77 | whatever code does with its own timers costs a sleeper its entry exactly when a cancel, refresh or reset finds that entry under its own timer's deadline, and touches no other sleeper |
| RuntimeTimers.BalancedSpares | src/CoroutineLibrary/timer.cpp:5-77 | while callbacks and membership are in step only an operation on a timer that a reset is moving can do that |
| RuntimeTimers.StepBalancedIff | src/CoroutineLibrary/timer.cpp:5-209 | each step of the runtime keeps callbacks and membership of all timers in step exactly when its deadlines are free and it disturbs no reset |
| RuntimeTimers.StepLean | src/CoroutineLibrary/timer.cpp:5-209 | whatever user code does, short of changing a key inside the set, sleep timers stay one-shot, unmoved and without handle |
| RuntimeTimers.StepTimely | src/CoroutineLibrary/timer.cpp:5-209 | every step that spares the sleepers keeps each sleep timer with a callback in the set as well |
| RuntimeTimers.SleepAdds | src/CoroutineLibrary/hook.cpp:193-241 | a sleep adds its wake token exactly when the deadline is free |
| RuntimeTokens.StepTokens | src/CoroutineLibrary/hook.cpp:117-178 | each sparing step moves the token of each fiber and neither makes nor loses one |
| RuntimeWaits.TimeoutIff | src/CoroutineLibrary/hook.cpp:133-173 | over every run that adds the timer of a wait once its timeout is in exactly one place, pending, queued, in hand or about to run, exactly when its callback has not run and no timer operation has taken its entry |
| RuntimeWaits.StepAlarm | src/CoroutineLibrary/hook.cpp:133-173 | each step moves a timeout on, makes it or loses it, and nothing else |
| RuntimeWaits.TimeoutEndsWait | src/CoroutineLibrary/hook.cpp:140-149 | the callback run while the wait stands removes the registration and queues the waiting fiber |
| RuntimeWaits.EarlyTimeoutIsLost | src/CoroutineLibrary/hook.cpp:137-151 | run before the registration it changes nothing, and the timeout is spent |
| RuntimeWaits.LateWaitHasNone | src/CoroutineLibrary/hook.cpp:137-151 | a wait registered after that has no timeout, however long it lasts |
| RuntimeTokens.HeldIsReady | src/CoroutineLibrary/scheduler.cpp:133-143 | a fiber in a worker's hand has not terminated: it is READY, or still about to yield on the worker that holds its mutex, so READY once the mutex is free |
| RuntimeEffects.ReportWakes | src/CoroutineLibrary/ioscheduler.cpp:401-462 | in any safe state a report of registered bits takes away exactly those bits, all registered ones for an error, and queues one task per waiter, READ first; the bits not reported keep their waiters |
| RuntimeEffects.ReportWakesFiber | src/CoroutineLibrary/ioscheduler.cpp:440-461 | a fiber parked on a reported bit is queued and no longer stands in the table |
| RuntimeEffects.CloseWakes | src/CoroutineLibrary/ioscheduler.cpp:280-332 | a close queues every waiter of the descriptor and leaves nothing registered on it |
| RuntimeEffects.AwaitParks | src/CoroutineLibrary/ioscheduler.cpp:123-183 | a wait that can be registered puts the current fiber at its bit, and the fiber then yields |
| RuntimeEffects.ListenRegisters | src/CoroutineLibrary/ioscheduler.cpp:123-183 | a callback that can be registered stands at its bit, and the fiber goes on |
| RuntimeEffects.SleepParks | src/CoroutineLibrary/hook.cpp:193-241 | a sleep at a free deadline puts a one-shot wake-up of the fiber there, and the fiber then yields |
| RuntimeEffects.SubmittedIsTaken | src/CoroutineLibrary/scheduler.h:32-52 | a submitted fiber is READY and queued last, for its thread, which takes it when nothing else is queued |
| RuntimeEffects.CallbackIsTaken | src/CoroutineLibrary/scheduler.h:32-52 | so is a submitted callback |
| RuntimeEffects.PinnedStays | src/CoroutineLibrary/scheduler.cpp:104-113 | a task pinned to another thread stays queued |
| RuntimeEffects.TakesFirst | src/CoroutineLibrary/scheduler.cpp:101-125 | the first task a worker may take is in its hand, counted, and no longer queued |
| RuntimeEffects.HeldRuns | src/CoroutineLibrary/scheduler.cpp:133-143 | a fiber in hand is resumed exactly when its mutex is free, and then runs on this worker |
| RuntimeEffects.TerminatedIsSkipped | src/CoroutineLibrary/scheduler.cpp:133-143 | a terminated one is not resumed |
| RuntimeEffects.CallbackStarts | src/CoroutineLibrary/scheduler.cpp:144-153 | a callback in hand runs in a new fiber, at what it is there to do |
| RuntimeEffects.WakesSleeper | src/CoroutineLibrary/hook.cpp:193-241 | the wake-up of a sleep queues the sleeper for any worker |
| RuntimeEffects.LeavesFiber | src/CoroutineLibrary/fiber.cpp:152-194 | after a yield the fiber is READY, after its end TERM, and its worker still holds the mutex |
| RuntimeEffects.ReleasesAndLooks | src/CoroutineLibrary/scheduler.cpp:133-154 | the worker then frees the mutex, counts the task off and looks for the next |
| RuntimeEffects.IdleQueuesDue | src/CoroutineLibrary/ioscheduler.cpp:389-398 | where callbacks and membership are in step the queue grows by the callbacks of exactly the collected timers, in order |
| RuntimeEffects.ReadsExact | src/CoroutineLibrary/ioscheduler.cpp:345-350 | each read of stopping() goes on exactly when no timer is pending, no bit is set, and stop was requested with no task queued or under way |
| RuntimeEffects.ReadIsGetNextTimer | src/CoroutineLibrary/ioscheduler.cpp:345-350 | the first read is getNextTimer answering that there is none, at whatever time |
| RuntimeEffects.NoTaskLeft | src/CoroutineLibrary/scheduler.cpp:154-168 | a worker without a task idles, or exits once its idle fiber has ended |
| RuntimeProgress.WorkerMoves | src/CoroutineLibrary/scheduler.cpp:99-168 | where tokens are exact a worker that has not exited has a step to take, or waits for the mutex of a worker that has one |
| RuntimeProgress.NoDeadlock | src/CoroutineLibrary/scheduler.cpp:99-168 | so no worker is ever stuck in a run whose steps spare the sleepers, however the mutexes are held |
| Reactor.AddEventStep | src/CoroutineLibrary/ioscheduler.cpp:123-183 | the chosen control operation is legal, the context was empty, success is exactly a free bit and a willing kernel, and exactly the new waiter joins |
| Reactor.TakeBitsStep | src/CoroutineLibrary/ioscheduler.cpp:40-63 | taking registered bits away is a legal operation, hands out one waiter per bit and keeps the invariant |
| Reactor.CancelEventStep | src/CoroutineLibrary/ioscheduler.cpp:235-278 | the waiter is scheduled exactly when the bit was set and the kernel agreed; registrations are conserved |
| Reactor.CancelAllStep | src/CoroutineLibrary/ioscheduler.cpp:280-332 | all bits go and each waiter is scheduled once, unless the kernel refuses and nothing changes |
| Reactor.HandleReportStep | src/CoroutineLibrary/ioscheduler.cpp:401-462 | handling a fresh report schedules one waiter per reported bit and keeps the mirror |
| Reactor.ReportEffect | src/CoroutineLibrary/ioscheduler.cpp:415-461 | a report of registered bits takes exactly those it names, all registered ones for an error, and hands out their waiters, READ first |
| Reactor.ReportIgnored | src/CoroutineLibrary/ioscheduler.cpp:424-438 | a report that meets no registered bit, or a kernel that refuses, changes nothing |
| Reactor.CancelAllEffect | src/CoroutineLibrary/ioscheduler.cpp:280-332 | cancelAll takes all bits and hands out all waiters, READ first |
| Reactor.CancelEventEffect | src/CoroutineLibrary/ioscheduler.cpp:235-278 | cancelEvent takes its bit and waiter, and no other |
| Reactor.DelEventEffect | src/CoroutineLibrary/ioscheduler.cpp:185-233 | delEvent takes its bit and drops the waiter |
| Reactor.AddEventEffect | src/CoroutineLibrary/ioscheduler.cpp:123-183 | addEvent puts the waiter at its free bit, adds one to the pending count and has the kernel watch it, or changes no context |
| Reactor.ReportNeedsRegisteredBits | src/CoroutineLibrary/ioscheduler.cpp:440-461 | a report with a registered bit is handled correctly exactly when all its bits are registered |
| Reactor.CloseKeepsMirrorIff | src/CoroutineLibrary/hook.cpp:429-449 | closing a descriptor keeps the mirror exactly when no event is registered on it |
| Reactor.RunBalanced | src/CoroutineLibrary/ioscheduler.cpp:123-332 | over every run registrations made are those standing, triggered and deleted, a set bit always has a filled context, and pending equals the set bits |
| Reactor.ScheduledAtMostOnce | src/CoroutineLibrary/ioscheduler.cpp:40-63 | a registration is scheduled at most once, and exactly once when it is neither standing nor deleted |
| IOManager.FdContext.TriggerEvent | src/CoroutineLibrary/ioscheduler.cpp:40-63 | clears the bit, empties the context and hands out its waiter |
| IOManager.IOManager.Resize | src/CoroutineLibrary/ioscheduler.cpp:109-121 | cuts the vector off at the size, or fills it up with numbered empty contexts; the contexts below both sizes stay |
| Reactor.LateResizeIff | src/CoroutineLibrary/ioscheduler.cpp:128-142 | a resize that comes after the vector has grown further keeps the invariant exactly when nothing is registered on what it cuts off |
| IOManager.IOManager.AddEvent | src/CoroutineLibrary/ioscheduler.cpp:123-183 | the object changes as Reactor.AddEvent says and keeps the invariant |
| IOManager.IOManager.CancelEvent | src/CoroutineLibrary/ioscheduler.cpp:235-278 | the object changes as Reactor.CancelEvent says |
| IOManager.IOManager.DelEvent | src/CoroutineLibrary/ioscheduler.cpp:185-233 | like cancelEvent, with the waiter dropped |
| IOManager.IOManager.CancelAll | src/CoroutineLibrary/ioscheduler.cpp:280-332 | the object changes as Reactor.CancelAll says |
| IOManager.IOManager.HandleReport | src/CoroutineLibrary/ioscheduler.cpp:415-461 | on any report the assertion in triggerEvent holds exactly when the report is fresh or epoll_ctl fails; then the object changes as Reactor.HandleReport says |
| TaskQueue.RunAccounted | src/CoroutineLibrary/scheduler.cpp:99-168 | over every run submitted tasks are queued, in hand or finished, each as often; the active count is the tasks in hand; each affinity is served in submission order; a pinned task is taken by its thread only |
| TaskQueue.ScanTakesOldest | src/CoroutineLibrary/scheduler.cpp:104-123 | the scan takes the oldest task of its affinity and leaves the other affinities as they are |
| TaskQueue.Scheduler.ScheduleLock | src/CoroutineLibrary/scheduler.h:32-52 | a nonempty task goes to the end of the vector, an empty one nowhere; a tickle is asked for exactly when the queue was empty; the history takes the Submit step of RunAccounted |
| TaskQueue.Scheduler.FinishTask | src/CoroutineLibrary/scheduler.cpp:142 | one task fewer is counted, the worker's hand is empty, the task is among the finished, and the count, never negative, is still the number of tasks in hand |
| TaskQueue.Scheduler.TakeTask | src/CoroutineLibrary/scheduler.cpp:101-125 | takes the first task that is for any worker or for this one out of the vector and counts it, or nothing when there is none; tickle_me is true exactly when tasks remain; the history takes the Take step of RunAccounted |
| DoIo.DoIO | src/CoroutineLibrary/hook.cpp:113-181 | for every system behaviour the answer is that of a blocking call with timeout; a wait that finds the timer fired or fails is the last and decides the answer; at most one attempt gave a result and that one is returned; still blocked only when a list of answers ran out; every timer armed is cancelled |
| DoIo.TimersCancelled | src/CoroutineLibrary/hook.cpp:133-173 | the timers of a call are armed one by one, each cancelled before the next |
| DoIo.InterruptionInvisible | src/CoroutineLibrary/hook.cpp:119-123 | an interrupted attempt anywhere changes nothing |
| DoIo.StrayWakeInvisible | src/CoroutineLibrary/hook.cpp:157-176 | a wake-up without readiness and within the time only causes another attempt |
| DoIo.UntimedNeverTimesOut | src/CoroutineLibrary/hook.cpp:134-150 | without a timeout the call never times out |
| DoIo.ConnectWithTimeout | src/CoroutineLibrary/hook.cpp:260-359 | success is exactly an immediate connect, or one wait that did not time out and no pending error then |
| Fibers.EachCallbackOnce | src/CoroutineLibrary/fiber.cpp:72-194 | over any reuse of a fiber every installed callback ends once and in order; it has a callback exactly when it has not terminated |
| Fibers.SwitchIff | src/CoroutineLibrary/fiber.cpp:126-179 | current pointer, executing code and saved contexts stay straight exactly when the context saved into is the current fiber's |
| Fibers.ResumeYieldIff | src/CoroutineLibrary/fiber.cpp:126-179 | after a resume by anyone and the fiber's yield the resumer goes on under the home fiber's name; the thread is straight again exactly when the resumer was the home fiber |
| Fibers.Fiber.Resume | src/CoroutineLibrary/fiber.cpp:126-150 | a READY fiber becomes RUNNING and current, whoever resumes it; the executing code is saved in the context of the home fiber (scheduler's or main), and contexts stay straight exactly when that is the caller |
| Fibers.Fiber.Yield | src/CoroutineLibrary/fiber.cpp:152-179 | READY, or TERM if it was, and the home fiber is current and its context continued |
| Fibers.Fiber.MainFunc | src/CoroutineLibrary/fiber.cpp:181-194 | the ended callback is dropped and recorded, the fiber is TERM and control goes home |
| Fibers.Fiber.Reset | src/CoroutineLibrary/fiber.cpp:107-124 | a terminated fiber is READY with the new callback |
| TimerRuns.ExpireExact | src/CoroutineLibrary/timer.cpp:151-180 | collects exactly the callbacks of the due timers (all of them under rollover), in deadline order |
| TimerRuns.ListExpiredExact | src/CoroutineLibrary/timer.cpp:151-221 | with its two clock readings it collects exactly the timers whose deadline has come, all after a rollback of over an hour, leaves the others where they are and remembers the later reading |
| TimerRuns.ExpireLeaves | src/CoroutineLibrary/timer.cpp:151-180 | leaves nothing due, every other entry where it was, and new entries later than now only |
| TimerRuns.ExpireReenters | src/CoroutineLibrary/timer.cpp:160-179 | every new entry belongs to a timer that recurs and was due, one period after now |
| TimerRuns.ExpireTimers | src/CoroutineLibrary/timer.cpp:160-179 | collected timers change as one-shot or recurring expiry says, no other timer changes |
| TimerRuns.LoopEndsIff | src/CoroutineLibrary/timer.cpp:160-179 | the loop ends exactly when every due timer that would come back due finds its next deadline taken by a later entry |
| TimerRuns.LoopEndsWithoutClash | src/CoroutineLibrary/timer.cpp:160-179 | where re-entries meet no other deadline: exactly when no recurring timer meets a rollover and no due one has period zero |
| TimerRuns.AddCbIff | src/CoroutineLibrary/timer.cpp:189-209 | callback-iff-pending survives addTimer exactly when the deadline is free |
| TimerRuns.CancelCbIff | src/CoroutineLibrary/timer.cpp:5-24 | cancel succeeds exactly on a pending timer and takes it out |
| TimerRuns.RefreshCbIff | src/CoroutineLibrary/timer.cpp:27-46 | refresh succeeds exactly on a pending timer and keeps the balance exactly when the new deadline is free |
| TimerRuns.ResetCbIff | src/CoroutineLibrary/timer.cpp:48-77 | likewise for reset with a new period |
| TimerRuns.ExpireCbIff | src/CoroutineLibrary/timer.cpp:151-180 | expiry keeps callbacks and membership in step exactly when re-entered timers meet no other deadline |
| TimerRuns.ResetCancelIff | src/CoroutineLibrary/timer.cpp:54-77 | a cancel between the two sections of reset succeeds; all is in step afterwards exactly when it cancelled another timer |
| TimerRuns.EraseCbIff | src/CoroutineLibrary/timer.cpp:54-68 | the first section of reset takes the timer out with its callback |
| TimerRuns.InsertCbIff | src/CoroutineLibrary/timer.cpp:71-76 | the field updates and the second put it back in step exactly when the new deadline is free |
| TimerSteps.ResetInThree | src/CoroutineLibrary/timer.cpp:48-77 | an uninterrupted reset is its first section, the unlocked field updates and its second section, one after the other |
| TimerSteps.OrderlyIff | src/CoroutineLibrary/timer.cpp:5-180 | an operation leaves timers between the sections with their callback and out of the set exactly when it does not cancel or move one of them |
| TimerSteps.BalancedIff | src/CoroutineLibrary/timer.cpp:5-180 | an operation keeps callbacks and membership in step exactly when its deadlines are free and it does not cancel or move a timer that a reset is moving |
| TimerSteps.OthersKept | src/CoroutineLibrary/timer.cpp:5-77 | in step and at free deadlines, an operation that erases by deadline touches its own timer only |
| TimerHistory.OrderlyRunIff | src/CoroutineLibrary/timer.cpp:5-209 | the same as OrderlyIff over whole runs |
| TimerHistory.BalancedRunIff | src/CoroutineLibrary/timer.cpp:5-209 | over any run callbacks and membership stay in step exactly when no insertion meets a taken deadline and nobody disturbs a reset between its sections |
| TimerHistory.OnlyCancelsMatter | src/CoroutineLibrary/timer.cpp:5-77 | with free deadlines, those of moved timers included, exactly when no cancel succeeds on a timer between the sections |
| TimerHistory.CancelledYetPending | src/CoroutineLibrary/timer.cpp:54-77 | such a cancel before the field updates ends with a cancelled timer in the set without callback |
| TimerHistory.CancelTakesOther | src/CoroutineLibrary/timer.cpp:71-76 | such a cancel after them takes out the timer that stands at the new deadline, and the cancelled one takes its place |
| TimerHistory.CollectedAtMostOnce | src/CoroutineLibrary/timer.cpp:5-209 | in every run whose resets nobody disturbs between their sections a one-shot timer is collected at most once, and one that was cancelled or collected is never collected in any continuation |
| TimerHistory.RefreshNotEarlier | src/CoroutineLibrary/timer.cpp:27-46 | with a forward clock refresh never moves a deadline earlier |
| TimerHistory.OrderedRunIff | src/CoroutineLibrary/timer.cpp:5-209 | over every run the set stays ordered by its timers' deadlines exactly when no reset changes the deadline of a timer in the set, which undisturbed resets never do |
| TimerHistory.NoMissedDeadline | src/CoroutineLibrary/timer.cpp:123-209 | with a forward clock, in every run in which the set stays ordered, resets interrupted by cancels, refreshes and resets included, the earliest deadline is no earlier than the one last seen by getNextTimer, or exactly one front notification is out since; never more than one |
| TimerHistory.CallbackIffPending | src/CoroutineLibrary/timer.cpp:5-209 | over every run with free deadlines and undisturbed resets a timer has a callback exactly when it is pending or between the sections of its reset |
| Timers.PopEnds | src/CoroutineLibrary/timer.cpp:160-179 | each turn of the loop lowers the number of due timers |
| Timers.WaitMeans | src/CoroutineLibrary/timer.cpp:123-149 | the wait is none exactly without timers, zero with a due one, and otherwise ends less than a millisecond before the earliest deadline |
| TimerManager.Timer.Cancel | src/CoroutineLibrary/timer.cpp:5-24 | succeeds exactly with a callback, which goes, and takes out the entry at the timer's deadline; as Timers.Cancel says |
| TimerManager.Timer.Refresh | src/CoroutineLibrary/timer.cpp:27-46 | succeeds exactly with a callback and an entry at its deadline, and moves the timer to one period after now unless that deadline is taken; as Timers.Refresh says |
| TimerManager.Timer.Detach | src/CoroutineLibrary/timer.cpp:48-68 | the first section: for another period or start, takes out the entry at the deadline of a timer with a callback; as Timers.ResetErase says |
| TimerManager.Timer.Shift | src/CoroutineLibrary/timer.cpp:71-75 | the unlocked field updates: the new period, counted from now or from the old start, whatever happened between |
| TimerManager.Timer.Reset | src/CoroutineLibrary/timer.cpp:48-77 | all of it without anything between: success, new period, new deadline and new place in the set, or nothing changed; as Timers.Reset says |
| TimerManager.Manager.AddTimer | src/CoroutineLibrary/timer.cpp:101-107 | a new timer one period after now, in the set unless its deadline is taken; notified when none is earlier and no notification is out |
| TimerManager.Manager.InsertTimer | src/CoroutineLibrary/timer.cpp:189-209 | inserts unless the deadline is taken, and notifies exactly when no deadline is earlier and no notification is out |
| TimerManager.Manager.GetNextTimer | src/CoroutineLibrary/timer.cpp:123-149 | none exactly when no timer is pending, zero when one is due, otherwise whole milliseconds that end at the earliest deadline or less than one before it; the notification is re-armed |
| TimerManager.Manager.ListExpiredCb | src/CoroutineLibrary/timer.cpp:151-180 | the objects and the collected callbacks are those of Timers.ListExpired |
| TimerManager.Manager.DetectClockRollover | src/CoroutineLibrary/timer.cpp:211-221 | more than an hour back is a rollover, and the reading is remembered |
| Routes.MatchAnswers | src/gateway/gateway_config.cpp:84-105 | exact map and trie give the last exact route for the path, failing that the last of the longest nonempty covering prefixes, or nothing when none covers |
| Routes.AnswerUnique | src/gateway/gateway_config.cpp:84-105 | that answer is unique |
| Routes.BuildTrieMeans | src/gateway/gateway_config.cpp:307-324 | the node of every text holds the last prefix route with that text, and nodes are closed under prefixes |
| Routes.BuildExactMeans | src/gateway/gateway_config.cpp:311-315 | the exact map holds the last exact route of every path |
| Routes.WalkFindsBest | src/gateway/gateway_config.cpp:95-104 | the walk ends with the route of the longest prefix that has one |
| Routes.DefaultCovers | src/gateway/gateway_config.cpp:250-259 | with a default route every path from the root has a route |
| Routes.LoadsKeepDefault | src/gateway/gateway_config.cpp:247-304 | once one load succeeded, after any further loads, usable or not, every path from the root has a route |
| Routes.LoadMeans | src/gateway/gateway_config.cpp:247-304 | a file takes effect exactly when one of its routes is a prefix route for the root |
| GatewayConfigs.GatewayConfig.BuildTrie | src/gateway/gateway_config.cpp:307-324 | the heap of nodes and the exact map become those of the configured list |
| GatewayConfigs.GatewayConfig.InsertPrefix | src/gateway/gateway_config.cpp:316-322 | one prefix enters the heap of nodes as it enters the table |
| GatewayConfigs.GatewayConfig.MatchRoute | src/gateway/gateway_config.cpp:84-105 | the walk over the heap returns the answer of a search of the list |
| GatewayConfigs.GatewayConfig.Load | src/gateway/gateway_config.cpp:247-297 | succeeds exactly with a prefix route for the root, then holds the file's routes in order, each with the token given for its prefix; otherwise changes nothing |
| Auth.CacheTransparent | src/gateway/gateway_filter_chain.cpp:95-119 | over every run of requests, clock readings and loads the answers with the cache are those of the full check under the settings in force |
| Auth.AdmitIsFullCheck | src/gateway/gateway_filter_chain.cpp:95-119 | with two clock readings in one request an acceptance is right at the first and a rejection at the second |
| Auth.AdmitKeepsTrusted | src/util/jwt_cache.cpp:14-34 | every cached token carries its own expiry and passes the full check up to it |
| Auth.ReloadKeepsTrusted | src/gateway/gateway_config.cpp:238-293 | loads, failed ones with capacity lines included, keep that |
| Auth.LastSecondMissesCache | src/util/jwt_cache.cpp:22 | a cached token is served from the cache exactly before its expiry and passes the full check exactly up to it |
| Auth.CachedIsServed | src/gateway/gateway_filter_chain.cpp:95-103 | a cached token before its expiry is accepted without the full check and becomes the most recent; nothing else changes |
| Auth.OthersAreChecked | src/gateway/gateway_filter_chain.cpp:104-111 | any other token gets the answer of the full check |
| Auth.AcceptedIsCached | src/gateway/gateway_filter_chain.cpp:104-119 | accepted with a positive expiry to read it is the most recent entry, served exactly before that expiry |
| Auth.RefusedIsNotCached | src/gateway/gateway_filter_chain.cpp:104-119 | a refused token, or one without expiry, changes nothing that is cached |
| Auth.FailedLoad | src/gateway/gateway_config.cpp:238-293 | a failed load leaves the settings, and leaves an empty cache of the last positive capacity exactly when it has one |
| AuthFilters.JwtCache.IsValidCached | src/util/jwt_cache.cpp:14-27 | true exactly for a cached token with a later expiry; the lookup moves the token to the front |
| AuthFilters.JwtCache.PutValid | src/util/jwt_cache.cpp:29-34 | the cache changes as an LRU push says |
| AuthFilters.JwtCache.Clear | src/util/jwt_cache.cpp:36-41 | empty, with capacity 10000 |
| AuthFilters.JwtCache.SetCapacity | src/util/jwt_cache.cpp:43-48 | empty, with the given capacity |
| AuthFilters.AuthFilter.Apply | src/gateway/gateway_filter_chain.cpp:95-119 | state and answer are those of Auth.Admit |
| AuthFilters.AuthFilter.Load | src/gateway/gateway_config.cpp:238-293 | capacity lines act at once; a successful load replaces the settings and leaves an empty cache for 10000 tokens |
| Bearer.TokenRead | src/gateway/gateway_filter_chain.cpp:72-94 | a token written after the scheme in the first Authorization header, with blanks around it, is the token read |
| Bearer.BareTokenRead | src/gateway/gateway_filter_chain.cpp:84-94 | a bare token is the token read exactly when it does not begin with the scheme |
| Bearer.NoToken | src/gateway/gateway_filter_chain.cpp:72-83 | headers without the key present no token |
| RateLimit.CountsThisSecond | src/gateway/gateway_filter_chain.cpp:47-51 | the counter is at most the number of counted requests of its second, and that number exactly when they stand together |
| RateLimit.LimitHoldsIff | src/gateway/gateway_filter_chain.cpp:41-59 | a second keeps to every limit exactly when its requests stand together |
| RateLimit.PassesByRank | src/gateway/gateway_filter_chain.cpp:41-59 | with the limit read per request, one within its limit by rank in its second always passes, and where requests stand together only such a one |
| RateLimit.PassedAtMost | src/gateway/gateway_filter_chain.cpp:41-59 | where they stand together no more pass than the largest of their limits |
| RateLimit.PassedIsLimited | src/gateway/gateway_filter_chain.cpp:41-59 | ... and under one limit exactly min(limit, requests) |
| RateLimit.PassedIsSumOfRuns | src/gateway/gateway_filter_chain.cpp:41-59 | under one limit, whatever the clock does, the sum over the maximal runs of a second's requests of min(limit, length) |
| RateLimit.RunsAreAll | src/gateway/gateway_filter_chain.cpp:41-59 | those runs are all the requests of the second, and there is at most one exactly when they stand together |
| RateLimit.ClockBackPassesMore | src/gateway/gateway_filter_chain.cpp:47-51 | an instance of LimitHoldsIff: a clock that goes back and returns |
| RateLimit.RateLimitFilter.Apply | src/gateway/gateway_filter_chain.cpp:41-59 | a request without limit passes uncounted; any other is counted and passes exactly when the counter for the counted times is within its limit |
| Jwt.ExtractNumber | src/util/jwt_utils.cpp:70-83 | the scanning loops compute the number after the key, saturated at 64 bits |
| Jwt.NextSegment | src/util/jwt_utils.cpp:56-62 | a quoted key matches exactly a whole segment between quotes; otherwise the search goes on from there |
| Base64.B64UrlToB64 | src/util/jwt_utils.cpp:10-18 | the loop restores the two characters and the padding |
| Base64.B64ToB64Url | src/util/jwt_utils.cpp:46-54 | the loop replaces the two characters and strips the padding |
| Base64.EncodeRoundTrip | src/util/jwt_utils.cpp:20-44 | decoding an encoding gives the bytes back (section 4 of RFC 4648) |
| Base64.GroupMeans | src/util/jwt_utils.cpp:32-44 | the letters of a group are the digits to base 64 of its bytes, with zero bits after a short one (section 4 of RFC 4648) |
| Base64.EncodeMeans | src/util/jwt_utils.cpp:32-44 | an encoding is group after group of three bytes, the last padded |
| Base64.Vectors | src/util/jwt_utils.cpp:32-44 | test vectors of section 10 of RFC 4648 |
| Base64.OnlyGroupsDecode | src/util/jwt_utils.cpp:20-30 | of any text only letters decode, with padding nowhere but in the last two places |
| Base64.DecodedLength | src/util/jwt_utils.cpp:20-30 | and only whole groups of four, each but the last to three bytes |
| Base64.ToUrlMeans | src/util/jwt_utils.cpp:46-54 | exactly the padding goes and the two characters are replaced |
| Base64.FromUrlMeans | src/util/jwt_utils.cpp:10-18 | they are replaced back and the text is filled up to a multiple of four |
| Base64.UrlRoundTrip | src/util/jwt_utils.cpp:10-54 | so does the way through the URL form without padding (section 5 of RFC 4648) |
| Base64.UrlOfEncoding | src/util/jwt_utils.cpp:46-54 | the URL form has no padding and no dot, and is not empty unless the input is |
| JwtRoundTrip.SignVerify | src/util/jwt_utils.cpp:87-164 | for issuer and audience without quotes a signed token is accepted exactly when the secret gives the same code, the expiry is not past (or is unreadable: issuer exp, or negative), and expected issuer and audience are empty or the signed ones |
| JwtRoundTrip.SignGetExp | src/util/jwt_utils.cpp:130-164 | the signed expiry is read back exactly when it is not negative and the issuer is not exp |
| JwtRoundTrip.ExpClaim | src/util/jwt_utils.cpp:70-83 | the same for the payload alone |
| JwtRoundTrip.IssClaim | src/util/jwt_utils.cpp:56-68 | the issuer is read back from the payload |
| JwtRoundTrip.AudClaim | src/util/jwt_utils.cpp:56-68 | the audience is read back, also when the issuer is named like its key |
| JwtRoundTrip.SignedParts | src/util/jwt_utils.cpp:92-103 | the parts of a signed token are found and decode to what was signed |
| JwtRoundTrip.ExpDecides | src/util/jwt_utils.cpp:114-142 | for an accepted token, acceptance at any other time depends on the expiry that get_exp reads, and on nothing else |
| JwtVerdicts.VerifyExact | src/util/jwt_utils.cpp:87-128 | every token text, whoever wrote it: accepted exactly when it has two dots, its parts decode to nonempty text, the header contains the algorithm, the signature is the code of the first two parts, a readable expiry is not past, and a demanded issuer or audience is the one in the payload; a format error exactly without two dots |
| JwtVerdicts.ErrorNames | src/util/jwt_utils.cpp:92-127 | the reported error names the first demand not met |
| JwtVerdicts.GetExpExact | src/util/jwt_utils.cpp:130-142 | the expiry read from any token with two dots is that of its second part |
| JwtVerdicts.StringExact | src/util/jwt_utils.cpp:56-68 | a claim of text is exactly what stands between the next two quotes after the first colon after the quoted key |
| JwtVerdicts.NumberExact | src/util/jwt_utils.cpp:70-83 | a claim of a number is there exactly when blanks and at least one digit follow that colon |
| JwtVerdicts.BlanksThenNumber | src/util/jwt_utils.cpp:76-81 | and is the number of all the digits there, at most the largest 64-bit one |
| JwtVerdicts.NoKeyNoClaim | src/util/jwt_utils.cpp:57-59 | a payload without the quoted key has neither |
| Lru.RunFaithful | src/my_stl/my_stl.hpp:228-264 | after any pushes and gets the list is the capacity most recently used distinct keys in order of use; a key is found exactly when it is among them, with the value last pushed |
| Lru.PushKeepsFaithful | src/my_stl/my_stl.hpp:228-254 | a push keeps that |
| Lru.GetKeepsFaithful | src/my_stl/my_stl.hpp:256-264 | a get keeps that |
| Lru.UseOfListed | src/my_stl/my_stl.hpp:228-264 | a use of a listed key takes its entry to the front, with the new value for a push, and leaves the order of the others |
| Lru.UseOfUnlisted | src/my_stl/my_stl.hpp:235-264 | a new key is put first and the last entry goes exactly when the limit is reached; a get of it changes nothing |
| LruCache.LRUCache.Push | src/my_stl/my_stl.hpp:228-254 | list cells and map change as Lru.Push says, and the map indexes exactly the listed cells |
| LruCache.LRUCache.Get | src/my_stl/my_stl.hpp:256-264 | list cells change as Lru.Touch says and the answer is that of a lookup |
| LruCache.LRUCache.Splice | src/my_stl/my_stl.hpp:231-233 | moves one cell to the front and leaves the order of the others |
| Slots.RunSafe | src/memorypool/memorypool.hpp:96-132 | after any allocations, frees and writes by owners in which each new block takes its first slot: every slot in use is aligned, inside one block past its header, apart from every other and not on the free list; in use plus free is carved |
| Slots.RunInvIff | src/memorypool/memorypool.hpp:96-132 | in any geometry that compiles the pool stays intact throughout a run exactly when each new block takes its first slot |
| Slots.GivenIsNew | src/memorypool/memorypool.hpp:106-132 | the slot handed out was not in use, and comes from the free list while there is one |
| Slots.FreeThenAllocate | src/memorypool/memorypool.hpp:96-113 | a slot freed and asked for again comes back, with everything else as before |
| Slots.TakesFreed | src/memorypool/memorypool.hpp:106-113 | the slot freed last is given first |
| Slots.TakesNext | src/memorypool/memorypool.hpp:106-116 | without free slots the next one is given while it fits in the current block |
| Slots.TakesBlock | src/memorypool/memorypool.hpp:106-132 | only then a new block is taken, and its first slot is the first multiple of the alignment after the header |
| Slots.FirstSlotFitsIff | src/memorypool/memorypool.hpp:117-128 | with memory in units of an alignment that divides the slot's or is divided by it, the unchecked first slot fits in every block exactly when header, worst padding and slot fit |
| Slots.RoomyAllFit | src/memorypool/memorypool.hpp:117-128 | with that much room every new block of every run takes its first slot |
| Slots.StaticAssertionTooWeak | src/memorypool/memorypool.hpp:83 | a geometry that passes the static assertion and whose first slot ends past its block |
| Slots.AllocateIff | src/memorypool/memorypool.hpp:106-132 | in any geometry that compiles an allocation leaves the pool intact exactly when the slot it takes fits in its block |
| MemoryPools.MemoryPool.AllocateSlot | src/memorypool/memorypool.hpp:106-132 | in any geometry that compiles fields and memory change as Slots.Allocate says; the pool stays valid exactly when the slot fits, and the slot then was not in use |
| MemoryPools.MemoryPool.DeallocateSlot | src/memorypool/memorypool.hpp:96-104 | fields and memory change as Slots.Deallocate says |
| MemoryPools.MemoryPool.Destroy | src/memorypool/memorypool.hpp:27-35 | following the headers releases every block once, newest first |
| Framing.GatewayConn.ReadOnce | src/server/gateway_conn.cpp:41-112 | result, content length and oversize flag depend on the stream alone, however recv cuts it: refused when the headers are cut off or too long; otherwise the length announced before the blank line, flagged when over the limit, and complete exactly when that many bytes follow; headers without the key give a request without body; what was read is a prefix of the stream with the end of the headers and, unless refused, the whole body; the index stays in the buffer |
| Framing.GatewayConn.ReadHeaders | src/server/gateway_conn.cpp:46-61 | succeeds exactly when the headers end within the buffer size |
| Framing.GatewayConn.ReadBody | src/server/gateway_conn.cpp:96-110 | succeeds exactly when the stream holds the announced bytes |
| Framing.HeadersSettle | src/server/gateway_conn.cpp:66-94 | complete headers settle the outcome for every continuation of the stream |
| Framing.HeaderRead | src/server/gateway_conn.cpp:70-82 | a value written after the first occurrence of its key is read back without blanks |
| Framing.AnnouncedLength | src/server/gateway_conn.cpp:68-84 | a length written in decimal is read as the 64-bit number nearest to it |
| Framing.NegativeLength | src/server/gateway_conn.cpp:68-84 | a negative length is read as negative, so no body is awaited |
| Framing.NothingAnnounced | src/server/gateway_conn.cpp:64-71 | headers without the key announce nothing |
| Framing.BlankAnnouncesNothing | src/server/gateway_conn.cpp:72-79 | neither does a value that is empty or all blanks |
| Framing.StrtolUnsigned | src/server/gateway_conn.cpp:78 | spaces and digits are read as the nearest 64-bit number, whatever follows |
| Framing.StrtolSigned | src/server/gateway_conn.cpp:78 | so are a sign and digits, and a sign alone as zero |
| Framing.StrtolNothing | src/server/gateway_conn.cpp:78 | any other text is zero |
| Framing.GatewayConn.Forward | src/server/gateway_conn.cpp:283-301 | the upstream receives the whole request, or a prefix exactly when a send fails |
| Framing.GatewayConn.Relay | src/server/gateway_conn.cpp:303-321 | the client receives the upstream's bytes in order without loss or repetition, all of them unless a send fails, and a failure is reported exactly then |
| Addresses.PrintInjective | src/util/address.cc:321-436 | different addresses print differently, within and across the two families |
| Addresses.PrintDenotes | src/util/address.cc:412-436 | the IPv6 text denotes the same eight groups (section 2.2 of RFC 4291) |
| Addresses.DenotesUnique | src/util/address.cc:412-436 | a text denotes one list of groups only |
| Addresses.CompressesFirstRun | src/util/address.cc:416-432 | the two colons stand for the first run of zeros, all of it, however short |
| Addresses.NoZeroNoCompression | src/util/address.cc:430-432 | there are no two colons exactly when no group is zero |
| Addresses.DottedRead | src/util/address.cc:321-329 | cut at its dots and colon the key of an IPv4 address is its octets in order and its port |
| Addresses.BracketRead | src/util/address.cc:412-436 | the key of an IPv6 address is its groups in brackets, a colon and its port |
| Addresses.ColonsHead | src/util/address.cc:412-436 | cut at its first colon a printed list of groups is the first group and the rest |
| Addresses.InsertIPv4 | src/util/address.cc:321-329 | prints the address |
| Addresses.InsertIPv6 | src/util/address.cc:412-436 | the loop with its flag prints the address |
| Upstreams.Connections.GetUpstreamSocket | src/server/gateway_conn.cpp:147-193 | returns a connected socket of exactly the address asked for, kept or new, and leaves the sockets of all other addresses |

## Left out

- Real context switching, stacks, `dlsym`, threads and system calls: steps, parameters or nondeterminism stand for them.
- Liveness through the tickle pipe and the idle count: `tickle` does nothing when the idle count reads zero, so only safety and the absence of deadlock are decided by the code.
- Worker threads as objects: the control points of `Scheduler::run` and the fibers they resume are steps on values in `Runtime`, since they interleave; aliasing of fiber pointers is not captured there. `Fibers` has the fiber as an object, on one thread.
- `delEvent` in the wake-token theorem: it drops a waiter without scheduling it and has no caller.
- DoIo.DoIO: takes it from the environment whether one of the call's timers fired; where such a timer is at every moment, and when it is lost, is proved over the runtime in `RuntimeWaits`, apart from the retry loop.
- Timeout callbacks in the runtime: that a timeout finds its wait over is a free choice of the step, which covers more behaviours than the flag allows.
- TimerManager.Manager.ListExpiredCb: proved on the sets on which the source's loop ends, which LoopEndsIff characterizes; on the others the source does not return.
- TimerHistory.NoMissedDeadline: nothing is claimed once a reset has changed the deadline of a timer that stands in the set, since an ordered set with a changed key has no defined behaviour.
- The wake-up pipe and the other reports of one epoll_wait are not kept between steps: each report is a step of its own.
- Data races on unlocked configuration fields and on the tickled flag; the token cache, its LRU list and the rate limiter have no lock, and their classes are for one thread at a time.
- The lifetime of a matched route: `match_route` returns a pointer into the list of routes (src/gateway/gateway_config.cpp:88), which a later successful load replaces (line 277); the model answers with the route's number.
- The iterator the worker compares with `end` after the `erase` it went into (src/CoroutineLibrary/scheduler.cpp:120-124): the model takes the test to mean that tasks remain.
- Overflow of time arithmetic, of the pending count and of the rate limiter's counter.
- OpenSSL internals: HMAC is unknown, and base64 on text outside section 4 of RFC 4648 decodes to nothing.
- Text parsing in `load_from_file` and name resolution of targets: a load starts from a parsed list of routes, tokens, settings and cache capacities; the part about routes and the part about the token cache are two methods.
- The route-token branch of the auth filter, the blacklist and the filter chain's loop: easy members beside those modelled.
- LRUCache assignment leaks the old nodes: cells are collected in the model.
- Element construction and destruction in the memory pool, and bytes other than the pointer stored in a slot.
- The 64 KiB test in `read_once`: it cannot fire, the buffer is smaller; the model asserts that instead.
- The pass-through checks of the hooked calls, socket wrappers, servers, metrics, logging, subnet helpers and FindCache.
