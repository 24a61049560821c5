/** The coroutine runtime as a state machine: fibers, workers, the task queue, the event table and
    the timer set. One step is one critical section or one purely local move of one worker. */
module Runtime {
  import opened Options
  import opened TaskQueue
  import R = Reactor
  import Timers
  import TimerSteps

  /** What a timer or a callback task runs: user code, the rescheduling of a sleeper, or the
      timeout of an I/O wait, which cancels the event it waited for. */
  datatype Callback = UserCb | WakeCb(f: nat) | TimeoutCb(wait: nat, fd: nat, ev: R.Event)

  datatype Job = FiberJob(f: nat) | CbJob(cb: Callback)

  /** Who sits in an event context: the fiber that called addEvent, or a user callback. */
  datatype Waiter = FiberWaiter(f: nat) | CbWaiter

  datatype FiberState = Ready | Running | Term

  /** Where a running fiber is: in user code, between a successful registration and the yield that
      follows it, or at the start of a timer callback. */
  datatype Position = InCode | AboutToYield | AtWake(f: nat) | AtCancel(wait: nat, fd: nat, ev: R.Event)

  /** `owner` is the worker holding the fiber's mutex. */
  datatype Fiber = Fiber(st: FiberState, owner: Option<nat>, pos: Position)

  /** How far an idle worker's stopping() got: it reads the timers, then the pending count, then the queue,
      each in a section of its own. */
  datatype Reads = Unread | NoTimers | NothingPending

  datatype Worker =
    | Looking(idleDone: bool)
    | Holding(task: Task<Job>, idleDone: bool)
    | InFiber(f: nat, idleDone: bool)
    | Returned(f: nat, idleDone: bool)
    | Finishing(idleDone: bool)
    | Idling(seen: Reads)
    | Exited

  /** `handles` are the timers whose shared pointers code outside the manager keeps; the sleep hooks
      drop theirs. */
  datatype State = State(fibers: seq<Fiber>, workers: seq<Worker>, queue: seq<Task<Job>>, active: int,
                         table: R.State<Waiter>, timers: TimerSteps.Store<Callback>, handles: set<nat>, stopFlag: bool)

  /** `start` is the clock when the manager is made. */
  function Init(workers: nat, start: int): State {
    State([], seq(workers, _ => Looking(false)), [], 0, R.Init(), TimerSteps.Empty(start), {}, false)
  }

  /** What the idle fiber does: stopping(), failing that the timers and the reports, then the yield. */
  datatype Turn =
    | ReadTimers                                        // stopping(): getNextTimer
    | ReadPending                                       // ... m_pendingEventCount
    | ReadQueue                                         // ... Scheduler::stopping(); if all held, the fiber ends
    | Expire(at: int, now: int)                         // collect expired timers and schedule them
    | Report(fd: nat, rep: R.Report, up: bool)          // one descriptor of epoll_wait
    | GiveBack                                          // yield

  datatype Step =
    | Submit(thread: int)                               // scheduleLock of a new fiber, from anywhere
    | SubmitCb(thread: int)                             // scheduleLock of a callback, from anywhere
    | Reschedule(f: nat, thread: int)                   // scheduleLock of an existing fiber by user code
    | RequestStop                                       // stop() sets the flag
    | Take(w: nat)                                      // the queue scan
    | Enter(w: nat)                                     // lock the fiber's mutex and resume
    | Await(w: nat, fd: nat, ev: R.Event, up: bool)     // addEvent for the current fiber
    | Listen(w: nat, fd: nat, ev: R.Event, up: bool)    // addEvent with a callback
    | UserTimer(w: nat, op: TimerSteps.Op<Callback>, now: int)
                                                        // add, cancel, refresh or reset a user or timeout timer
    | Sleep(w: nat, ms: nat, now: int)                  // sleep/usleep/nanosleep: addTimer
    | Close(w: nat, fd: nat, up: bool)                  // close: cancelAll
    | CloseFd(w: nat, fd: nat)                          // ... then the system call, nothing being registered
    | WakeSleeper(w: nat)                               // a sleeper's timer callback schedules it
    | CancelWait(w: nat, up: bool)                      // an I/O timeout callback calls cancelEvent
    | SkipCancel(w: nat)                                // ... or finds its wait over
    | Yield(w: nat)
    | BareYield(w: nat)                                 // user code yields with nothing to wake it
    | Terminate(w: nat)
    | Unlock(w: nat)                                    // resume returned: release the fiber's mutex
    | Finish(w: nat)                                    // m_activeThreadCount--
    | Idle(w: nat, turn: Turn)                          // the idle fiber of worker w

  /** What stopping() reads, taken at one moment. */
  predicate Stopping(s: State) {
    s.timers.s.pending == map[] && s.table.pending == 0 && QueueDone(s)
  }

  function Push(s: State, job: Job, thread: int): State {
    s.(queue := s.queue + [Task(job, thread)])
  }

  function JobOf(w: Waiter): Job {
    if w.FiberWaiter? then FiberJob(w.f) else CbJob(UserCb)
  }

  /** scheduleLock for each woken waiter, in order. */
  function PushAll(queue: seq<Task<Job>>, woken: seq<Waiter>): seq<Task<Job>>
    decreases woken
  {
    if woken == [] then queue else PushAll(queue + [Task(JobOf(woken[0]), -1)], woken[1..])
  }

  function Woken(s: State, e: R.Effect<Waiter>): State {
    s.(table := e.state, queue := PushAll(s.queue, e.woken))
  }

  /** scheduleLock for each collected callback, in order; an empty one is dropped. */
  function PushFired(queue: seq<Task<Job>>, fired: seq<Timers.Fired<Callback>>): seq<Task<Job>>
    decreases |fired|
  {
    if fired == [] then queue
    else PushFired(match fired[0].cb case None => queue case Some(cb) => queue + [Task(CbJob(cb), -1)], fired[1..])
  }

  /** What code running in fiber `f` can do with timers: it adds its own, and acts on those it has a
      handle to. */
  predicate MayUse(s: State, f: nat, op: TimerSteps.Op<Callback>) {
    match op
    case AddOp(_, cb, _) => !cb.WakeCb?
    case CancelOp(id) => id in s.handles
    case RefreshOp(id) => id in s.handles
    case EraseOp(caller, id, _, _) => caller == f && id in s.handles
    case RetimeOp(caller) => caller == f
    case InsertOp(caller) => caller == f
    case _ => false
  }

  /** addTimer of the callback that reschedules fiber `f`. */
  function SleepOp(f: nat, ms: nat): TimerSteps.Op<Callback> {
    TimerSteps.AddOp(ms, WakeCb(f), false)
  }

  /** Worker `w` is executing user code, or standing at `pos`, inside its fiber. */
  predicate At(s: State, w: nat, pos: Position) {
    w < |s.workers| && s.workers[w].InFiber? && s.workers[w].f < |s.fibers| && s.fibers[s.workers[w].f].pos == pos
  }

  predicate InFiberNow(s: State, w: nat) {
    w < |s.workers| && s.workers[w].InFiber? && s.workers[w].f < |s.fibers|
  }

  ghost predicate TurnEnabled(s: State, w: nat, turn: Turn) {
    w < |s.workers| &&
    match turn
    case ReadTimers => s.workers[w] == Idling(Unread)
    case ReadPending => s.workers[w] == Idling(NoTimers)
    case ReadQueue => s.workers[w] == Idling(NothingPending)
    case Expire(at, now) =>
      s.workers[w] == Idling(Unread) && TimerSteps.Enabled(s.timers, TimerSteps.ExpireOp(at), now)
    case Report(fd, rep, _) => s.workers[w] == Idling(Unread) && R.ReportFresh(s.table, fd, rep)
    case GiveBack => s.workers[w] == Idling(Unread)
  }

  ghost predicate Enabled(s: State, step: Step) {
    match step
    case Submit(_) => true
    case SubmitCb(_) => true
    case Reschedule(f, _) => f < |s.fibers|
    case RequestStop => true
    case Take(w) => w < |s.workers| && s.workers[w].Looking?
    case Enter(w) =>
      w < |s.workers| && s.workers[w].Holding? &&
      (s.workers[w].task.job.FiberJob? ==>
        s.workers[w].task.job.f < |s.fibers| && s.fibers[s.workers[w].task.job.f].owner == None)
    case Await(w, _, _, _) => At(s, w, InCode)
    case Listen(w, _, _, _) => At(s, w, InCode)
    case UserTimer(w, op, now) =>
      At(s, w, InCode) && MayUse(s, s.workers[w].f, op) && TimerSteps.Enabled(s.timers, op, now)
    case Sleep(w, _, _) => At(s, w, InCode)
    case Close(w, _, _) => At(s, w, InCode)
    case CloseFd(w, fd) => At(s, w, InCode) && (fd < |s.table.fds| ==> !s.table.fds[fd].events.Any())
    case WakeSleeper(w) => InFiberNow(s, w) && s.fibers[s.workers[w].f].pos.AtWake?
    case CancelWait(w, _) => InFiberNow(s, w) && s.fibers[s.workers[w].f].pos.AtCancel?
    case SkipCancel(w) => InFiberNow(s, w) && s.fibers[s.workers[w].f].pos.AtCancel?
    case Yield(w) => At(s, w, AboutToYield)
    case BareYield(w) => At(s, w, InCode)
    case Terminate(w) => At(s, w, InCode)
    case Unlock(w) => w < |s.workers| && s.workers[w].Returned? && s.workers[w].f < |s.fibers|
    case Finish(w) => w < |s.workers| && s.workers[w].Finishing?
    case Idle(w, turn) => TurnEnabled(s, w, turn)
  }

  function SetWorker(s: State, w: nat, k: Worker): State
    requires w < |s.workers|
  {
    s.(workers := s.workers[w := k])
  }

  function SetFiber(s: State, f: nat, x: Fiber): State
    requires f < |s.fibers|
  {
    s.(fibers := s.fibers[f := x])
  }

  function SetPos(s: State, w: nat, pos: Position): State
    requires InFiberNow(s, w)
  {
    SetFiber(s, s.workers[w].f, s.fibers[s.workers[w].f].(pos := pos))
  }

  function StartOf(cb: Callback): Position {
    match cb
    case UserCb => InCode
    case WakeCb(f) => AtWake(f)
    case TimeoutCb(wait, fd, ev) => AtCancel(wait, fd, ev)
  }

  /** A task fiber locked and resumed: a terminated one is skipped, a callback gets a new fiber. */
  ghost function DoEnter(s: State, w: nat): State
    requires Enabled(s, Step.Enter(w))
  {
    var k := s.workers[w];
    match k.task.job
    case FiberJob(f) =>
      if s.fibers[f].st == Term then SetWorker(s, w, Finishing(k.idleDone))
      else SetWorker(SetFiber(s, f, Fiber(Running, Some(w), InCode)), w, InFiber(f, k.idleDone))
    case CbJob(cb) =>
      SetWorker(s.(fibers := s.fibers + [Fiber(Running, Some(w), StartOf(cb))]), w, InFiber(|s.fibers|, k.idleDone))
  }

  ghost function DoTake(s: State, w: nat): State
    requires Enabled(s, Step.Take(w))
  {
    var i := Scan(s.queue, w);
    var idleDone := s.workers[w].idleDone;
    if i < |s.queue| then
      SetWorker(s.(queue := Without(s.queue, i), active := s.active + 1), w, Holding(s.queue[i], idleDone))
    else SetWorker(s, w, if idleDone then Exited else Idling(Unread))
  }

  /** The fiber gives control back to its worker, which still holds the mutex. */
  function LeaveFiber(s: State, w: nat, st: FiberState): State
    requires InFiberNow(s, w)
  {
    var f := s.workers[w].f;
    SetWorker(SetFiber(s, f, Fiber(st, s.fibers[f].owner, InCode)), w, Returned(f, s.workers[w].idleDone))
  }

  /** A new timer of user code comes with a handle. */
  ghost function DoTimer(s: State, op: TimerSteps.Op<Callback>, now: int): State
    requires TimerSteps.Enabled(s.timers, op, now)
  {
    s.(timers := TimerSteps.Act(s.timers, op, now).store,
       handles := if op.AddOp? then s.handles + {|s.timers.s.all|} else s.handles)
  }

  ghost function DoSleep(s: State, f: nat, ms: nat, now: int): State {
    s.(timers := TimerSteps.Act(s.timers, SleepOp(f, ms), now).store)
  }

  /** The idle fiber's collect-and-schedule block. */
  ghost function DoExpire(s: State, at: int, now: int): State
    requires TimerSteps.Enabled(s.timers, TimerSteps.ExpireOp(at), now)
  {
    var o := TimerSteps.Act(s.timers, TimerSteps.ExpireOp(at), now);
    s.(queue := PushFired(s.queue, o.fired), timers := o.store)
  }

  /** Scheduler::stopping(). */
  predicate QueueDone(s: State) {
    s.stopFlag && s.queue == [] && s.active == 0
  }

  /** getNextTimer clears the tickle flag. */
  function DoReadTimers(s: State, w: nat): State
    requires w < |s.workers|
  {
    var next := Idling(if s.timers.s.pending == map[] then NoTimers else Unread);
    SetWorker(s.(timers := s.timers.(s := Timers.ClearTickle(s.timers.s))), w, next)
  }

  ghost function DoTurn(s: State, w: nat, turn: Turn): State
    requires TurnEnabled(s, w, turn)
  {
    match turn
    case ReadTimers => DoReadTimers(s, w)
    case ReadPending => SetWorker(s, w, Idling(if s.table.pending == 0 then NothingPending else Unread))
    case ReadQueue => SetWorker(s, w, if QueueDone(s) then Looking(true) else Idling(Unread))
    case Expire(at, now) => DoExpire(s, at, now)
    case Report(fd, rep, up) => Woken(s, R.HandleReport(s.table, fd, rep, up))
    case GiveBack => SetWorker(s, w, Looking(false))
  }

  ghost function Do(s: State, step: Step): State
    requires Enabled(s, step)
  {
    match step
    case Submit(thread) => Push(s.(fibers := s.fibers + [Fiber(Ready, None, InCode)]), FiberJob(|s.fibers|), thread)
    case SubmitCb(thread) => Push(s, CbJob(UserCb), thread)
    case Reschedule(f, thread) => Push(s, FiberJob(f), thread)
    case RequestStop => s.(stopFlag := true)
    case Take(w) => DoTake(s, w)
    case Enter(w) => DoEnter(s, w)
    case Await(w, fd, ev, up) =>
      var e := R.AddEvent(s.table, fd, ev, FiberWaiter(s.workers[w].f), up);
      if e.rc == 0 then SetPos(s, w, AboutToYield).(table := e.state) else s.(table := e.state)
    case Listen(w, fd, ev, up) => s.(table := R.AddEvent(s.table, fd, ev, CbWaiter, up).state)
    case UserTimer(_, op, now) => DoTimer(s, op, now)
    case Sleep(w, ms, now) => SetPos(DoSleep(s, s.workers[w].f, ms, now), w, AboutToYield)
    case Close(w, fd, up) => Woken(s, R.CancelAll(s.table, fd, up))
    case CloseFd(w, fd) => s.(table := R.CloseFd(s.table, fd))
    case WakeSleeper(w) => Push(SetPos(s, w, InCode), FiberJob(s.fibers[s.workers[w].f].pos.f), -1)
    case CancelWait(w, up) =>
      var pos := s.fibers[s.workers[w].f].pos;
      Woken(SetPos(s, w, InCode), R.CancelEvent(s.table, pos.fd, pos.ev, up))
    case SkipCancel(w) => SetPos(s, w, InCode)
    case Yield(w) => LeaveFiber(s, w, Ready)
    case BareYield(w) => LeaveFiber(s, w, Ready)
    case Terminate(w) => LeaveFiber(s, w, Term)
    case Unlock(w) =>
      var f := s.workers[w].f;
      SetWorker(SetFiber(s, f, s.fibers[f].(owner := None)), w, Finishing(s.workers[w].idleDone))
    case Finish(w) => SetWorker(s.(active := s.active - 1), w, Looking(s.workers[w].idleDone))
    case Idle(w, turn) => DoTurn(s, w, turn)
  }
}
