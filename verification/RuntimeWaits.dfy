/** The timeout of an I/O wait: the timer that do_io adds before it registers, the task the expiry makes of
    it, and the callback that cancels the wait. Where it is at every moment, and exactly how it is lost. */
module RuntimeWaits {
  import opened Options
  import opened Sums
  import opened Runtime
  import opened RuntimeRuns
  import opened RuntimeSafety
  import opened RuntimeTimers
  import opened TimerRuns
  import DeadlineSet
  import Q = TaskQueue
  import R = Reactor
  import S = TimerSteps
  import T = Timers

  // ---------- Where a timeout is ----------

  /** The pending timers with this callback. */
  ghost function Armed(t: T.State<Callback>, cb: Callback): set<nat> {
    set id: nat | id < |t.all| && T.InSet(t, id) && t.all[id].cb == Some(cb)
  }

  ghost function Queued(t: Q.Task<Job>, cb: Callback): nat {
    if t.job == CbJob(cb) then 1 else 0
  }

  ghost function InHand(w: Worker, cb: Callback): nat {
    if w.Holding? then Queued(w.task, cb) else 0
  }

  /** A fiber at the start of this callback. */
  ghost function Starting(x: Fiber, cb: Callback): nat {
    if cb.TimeoutCb? && x.pos == StartOf(cb) then 1 else 0
  }

  /** In how many places the timeout still is: pending, queued, in a worker's hand, or about to run. */
  ghost function Alarm(s: State, cb: Callback): nat {
    Tally(s.queue, Queued, cb) + Tally(s.workers, InHand, cb) + Tally(s.fibers, Starting, cb)
    + |Armed(s.timers.s, cb)|
  }

  /** Timers with this callback are one-shot and no reset is moving them. */
  ghost predicate Plain(s: State, cb: Callback) {
    forall id :: 0 <= id < |s.timers.s.all| && s.timers.s.all[id].cb == Some(cb) ==>
      !s.timers.s.all[id].recurring && !S.Moving(s.timers, id)
  }

  /** The operation treats timers with this callback as do_io does: they are one-shot, and nothing is done to
      them but a cancel. Other timers may be used at will. */
  predicate LeavesTimers(t: T.State<Callback>, op: S.Op<Callback>, cb: Callback) {
    match op
    case AddOp(_, c, recurring) => c == cb ==> !recurring
    case RefreshOp(id) => id < |t.all| ==> t.all[id].cb != Some(cb)
    case EraseOp(_, id, _, _) => id < |t.all| ==> t.all[id].cb != Some(cb)
    case _ => true
  }

  ghost predicate Leaves(s: State, step: Step, cb: Callback) {
    step.UserTimer? ==> LeavesTimers(s.timers.s, step.op, cb)
  }

  // ---------- How it is made and lost ----------

  /** A timer with this callback is added and its deadline is free. */
  predicate AddsTimeout(t: T.State<Callback>, op: S.Op<Callback>, now: int, cb: Callback) {
    op.AddOp? && op.cb == cb && T.Later(now, op.ms) !in t.pending
  }

  ghost function Made(s: State, step: Step, cb: Callback): nat {
    if step.UserTimer? && AddsTimeout(s.timers.s, step.op, step.now, cb) then 1 else 0
  }

  /** An operation takes out the entry of a timer with this callback: its own cancel, or an operation on
      another timer that finds this one under its deadline. */
  predicate TakesTimeout(t: T.State<Callback>, op: S.Op<Callback>, cb: Callback) {
    Erases(t, op) &&
    var id := t.pending[t.all[op.id].next];
    id < |t.all| && t.all[id].cb == Some(cb)
  }

  /** The callback runs to its end. */
  predicate Runs(s: State, step: Step, cb: Callback) {
    (step.CancelWait? || step.SkipCancel?) && InFiberNow(s, step.w) && cb.TimeoutCb?
    && s.fibers[s.workers[step.w].f].pos == StartOf(cb)
  }

  ghost function Lost(s: State, step: Step, cb: Callback): nat {
    if Runs(s, step, cb) || (step.UserTimer? && TakesTimeout(s.timers.s, step.op, cb)) then 1 else 0
  }

  // ---------- One step ----------

  lemma WorkerAlarm(s: State, w: nat, k: Worker, cb: Callback)
    requires w < |s.workers|
    ensures Alarm(SetWorker(s, w, k), cb) + InHand(s.workers[w], cb) == Alarm(s, cb) + InHand(k, cb)
  {
    TallyUpdate(s.workers, w, k, InHand, cb);
  }

  lemma FiberAlarm(s: State, f: nat, x: Fiber, cb: Callback)
    requires f < |s.fibers|
    ensures Alarm(SetFiber(s, f, x), cb) + Starting(s.fibers[f], cb) == Alarm(s, cb) + Starting(x, cb)
  {
    TallyUpdate(s.fibers, f, x, Starting, cb);
  }

  lemma NewFiberAlarm(s: State, x: Fiber, cb: Callback)
    ensures Alarm(s.(fibers := s.fibers + [x]), cb) == Alarm(s, cb) + Starting(x, cb)
  {
    TallyPush(s.fibers, x, Starting, cb);
  }

  lemma PushAlarm(s: State, job: Job, thread: int, cb: Callback)
    ensures Alarm(Push(s, job, thread), cb) == Alarm(s, cb) + if job == CbJob(cb) then 1 else 0
  {
    TallyPush(s.queue, Q.Task(job, thread), Queued, cb);
  }

  lemma {:induction false} PushAllAlarm(queue: seq<Q.Task<Job>>, woken: seq<Waiter>, cb: Callback)
    requires cb.TimeoutCb?
    ensures Tally(PushAll(queue, woken), Queued, cb) == Tally(queue, Queued, cb)
    decreases woken
  {
    if woken != [] {
      PushAllAlarm(queue + [Q.Task(JobOf(woken[0]), -1)], woken[1..], cb);
      TallyPush(queue, Q.Task(JobOf(woken[0]), -1), Queued, cb);
    }
  }

  /** Timer `id` is among the pending ones after the operation if it was and was not taken out, or is new. */
  ghost predicate Carried(t: T.State<Callback>, t': T.State<Callback>, op: S.Op<Callback>, now: int, cb: Callback,
                          id: nat)
  {
    id in Armed(t', cb) <==>
      || (id in Armed(t, cb) && !(Erases(t, op) && t.pending[t.all[op.id].next] == id))
      || (id == |t.all| && AddsTimeout(t, op, now, cb))
  }

  lemma Cardinality(a: set<nat>, b: set<nat>, taken: set<nat>, made: set<nat>)
    requires taken <= a && made !! a && forall id: nat :: id in b <==> (id in a && id !in taken) || id in made
    ensures |b| + |taken| == |a| + |made|
  {
    assert b == (a - taken) + made;
  }

  lemma ArmedCount(t: T.State<Callback>, t': T.State<Callback>, op: S.Op<Callback>, now: int, cb: Callback)
    requires T.WF(t) && forall id: nat :: Carried(t, t', op, now, cb, id)
    ensures |Armed(t', cb)| + (if TakesTimeout(t, op, cb) then 1 else 0)
         == |Armed(t, cb)| + (if AddsTimeout(t, op, now, cb) then 1 else 0)
  {
    var taken := if TakesTimeout(t, op, cb) then {t.pending[t.all[op.id].next]} else {};
    var made := if AddsTimeout(t, op, now, cb) then {|t.all|} else {};
    forall id: nat
      ensures id in Armed(t', cb) <==> (id in Armed(t, cb) && id !in taken) || id in made
    {
      assert Carried(t, t', op, now, cb, id);
    }
    Cardinality(Armed(t, cb), Armed(t', cb), taken, made);
  }

  /** What an operation of user code does to the pending ones. */
  lemma TimerOpAlarm(s: State, op: S.Op<Callback>, now: int, cb: Callback)
    requires T.WF(s.timers.s) && Plain(s, cb) && S.Enabled(s.timers, op, now) && !op.ExpireOp?
    requires LeavesTimers(s.timers.s, op, cb)
    ensures var t, t' := s.timers.s, DoTimer(s, op, now).timers.s;
      |Armed(t', cb)| + (if TakesTimeout(t, op, cb) then 1 else 0)
      == |Armed(t, cb)| + (if AddsTimeout(t, op, now, cb) then 1 else 0)
  {
    forall id: nat
      ensures Carried(s.timers.s, DoTimer(s, op, now).timers.s, op, now, cb, id)
    {
      if |s.timers.s.all| <= id {
        ArmedNew(s, op, now, cb, id);
      } else if id == S.Subject(s.timers, op) {
        ArmedSubject(s, op, now, cb);
      } else {
        OtherUnder(s.timers, op, now, id);
      }
    }
    ArmedCount(s.timers.s, DoTimer(s, op, now).timers.s, op, now, cb);
  }

  /** Of the timers with this callback only a cancel is about. */
  lemma ArmedSubject(s: State, op: S.Op<Callback>, now: int, cb: Callback)
    requires T.WF(s.timers.s) && Plain(s, cb) && S.Enabled(s.timers, op, now) && !op.ExpireOp?
    requires LeavesTimers(s.timers.s, op, cb) && S.Subject(s.timers, op) < |s.timers.s.all|
    ensures Carried(s.timers.s, DoTimer(s, op, now).timers.s, op, now, cb, S.Subject(s.timers, op))
  {
    var id := S.Subject(s.timers, op);
    CallbackKept(s.timers, op, now, id);
    if op.RetimeOp? || op.InsertOp? {
      assert S.Moving(s.timers, id);
    }
  }

  lemma ArmedNew(s: State, op: S.Op<Callback>, now: int, cb: Callback, id: nat)
    requires T.WF(s.timers.s) && S.Enabled(s.timers, op, now) && !op.ExpireOp? && |s.timers.s.all| <= id
    ensures Carried(s.timers.s, DoTimer(s, op, now).timers.s, op, now, cb, id)
  {
  }

  lemma PlainAfter(s: State, step: Step, cb: Callback)
    requires Lean(s) && Plain(s, cb) && Enabled(s, step) && Leaves(s, step, cb)
    ensures Plain(Do(s, step), cb)
  {
    if step.UserTimer? {
      TimerOpPlain(s, step.w, step.op, step.now, cb);
    } else if step.Sleep? {
      SleepPlain(s, s.workers[step.w].f, step.ms, step.now, cb);
    } else if step.Idle? {
      TurnPlain(s, step.w, step.turn, cb);
    } else {
      OtherSteps(s, step);
    }
  }

  lemma TimerOpPlain(s: State, w: nat, op: S.Op<Callback>, now: int, cb: Callback)
    requires Lean(s) && Plain(s, cb) && Enabled(s, UserTimer(w, op, now)) && Leaves(s, UserTimer(w, op, now), cb)
    ensures Plain(DoTimer(s, op, now), cb)
  {
    var s' := DoTimer(s, op, now);
    forall id | 0 <= id < |s'.timers.s.all| && s'.timers.s.all[id].cb == Some(cb)
      ensures !s'.timers.s.all[id].recurring && !S.Moving(s'.timers, id)
    {
      if id < |s.timers.s.all| {
        CallbackKept(s.timers, op, now, id);
        MovingAfter(s.timers, op, now, id);
      } else {
        NewNotMoving(s, op, now);
      }
    }
  }

  lemma NewNotMoving(s: State, op: S.Op<Callback>, now: int)
    requires Lean(s) && S.Enabled(s.timers, op, now) && op.AddOp?
    ensures !S.Moving(DoTimer(s, op, now).timers, |s.timers.s.all|)
  {
  }

  lemma SleepPlain(s: State, f: nat, ms: nat, now: int, cb: Callback)
    requires Lean(s) && Plain(s, cb)
    ensures Plain(DoSleep(s, f, ms, now), cb)
  {
    var s' := DoSleep(s, f, ms, now);
    forall id | 0 <= id < |s'.timers.s.all| && s'.timers.s.all[id].cb == Some(cb)
      ensures !s'.timers.s.all[id].recurring && !S.Moving(s'.timers, id)
    {
      if id < |s.timers.s.all| {
        assert S.Moving(s'.timers, id) ==> S.Moving(s.timers, id);
      } else {
        NewNotMoving(s, SleepOp(f, ms), now);
      }
    }
  }

  lemma TurnPlain(s: State, w: nat, turn: Turn, cb: Callback)
    requires Lean(s) && Plain(s, cb) && TurnEnabled(s, w, turn)
    ensures Plain(DoTurn(s, w, turn), cb)
  {
    if turn.Expire? {
      var t, r := s.timers.s.(previous := turn.now), T.RolledOver(s.timers.s, turn.now);
      var s' := DoTurn(s, w, turn);
      ExpireLeaves(t, turn.at, r);
      forall id | 0 <= id < |s'.timers.s.all| && s'.timers.s.all[id].cb == Some(cb)
        ensures !s'.timers.s.all[id].recurring && !S.Moving(s'.timers, id)
      {
        ExpireTimers(t, turn.at, r, id);
      }
    } else {
      TurnTimers(s, w, turn);
    }
  }

  /** One turn of the expiry turns the timer into its task. */
  lemma PopAlarm(queue: seq<Q.Task<Job>>, t: T.State<Callback>, d: int, at: int, cb: Callback)
    requires T.WF(t) && d in t.pending
    requires forall id :: 0 <= id < |t.all| && t.all[id].cb == Some(cb) ==> !t.all[id].recurring
    ensures Tally(Fire(queue, t.all[t.pending[d]].cb), Queued, cb) + |Armed(T.Pop(t, d, at), cb)|
         == Tally(queue, Queued, cb) + |Armed(t, cb)|
  {
    T.PopWF(t, d, at);
    var id, t' := t.pending[d], T.Pop(t, d, at);
    assert T.InSet(t, id);
    assert Armed(t', cb) == Armed(t, cb) - {id};
    if t.all[id].cb.Some? {
      TallyPush(queue, Q.Task(CbJob(t.all[id].cb.value), -1), Queued, cb);
    }
  }

  lemma {:induction false} ExpireAlarm(queue: seq<Q.Task<Job>>, t: T.State<Callback>, at: int, rollover: bool,
                                       cb: Callback)
    requires T.WF(t) && T.LoopEnds(t, at, rollover)
    requires forall id :: 0 <= id < |t.all| && t.all[id].cb == Some(cb) ==> !t.all[id].recurring
    ensures var (t', fired) := T.Expire(t, at, rollover);
      Tally(PushFired(queue, fired), Queued, cb) + |Armed(t', cb)| == Tally(queue, Queued, cb) + |Armed(t, cb)|
    decreases |T.DueSet(t, at, rollover)|
  {
    if T.LoopGuard(t, at, rollover) {
      OneFewer(t, at, rollover);
      var d := DeadlineSet.Front(t.pending);
      PopAlarm(queue, t, d, at, cb);
      ExpireAlarm(Fire(queue, t.all[t.pending[d]].cb), T.Pop(t, d, at), at, rollover, cb);
      assert T.Expire(t, at, rollover).1[1..] == T.Expire(T.Pop(t, d, at), at, rollover).1;
    }
  }

  lemma TurnAlarm(s: State, w: nat, turn: Turn, cb: Callback)
    requires cb.TimeoutCb? && Lean(s) && Plain(s, cb) && TurnEnabled(s, w, turn)
    ensures Alarm(DoTurn(s, w, turn), cb) == Alarm(s, cb)
  {
    if turn.Expire? {
      var t, r := s.timers.s.(previous := turn.now), T.RolledOver(s.timers.s, turn.now);
      DoExpireIs(s, turn.at, turn.now);
      ExpireAlarm(s.queue, t, turn.at, r, cb);
      assert Armed(t, cb) == Armed(s.timers.s, cb);
    } else if turn.Report? {
      PushAllAlarm(s.queue, R.HandleReport(s.table, turn.fd, turn.rep, turn.up).woken, cb);
    } else {
      TurnTimers(s, w, turn);
      assert Armed(DoTurn(s, w, turn).timers.s, cb) == Armed(s.timers.s, cb);
      TallyUpdate(s.workers, w, DoTurn(s, w, turn).workers[w], InHand, cb);
    }
  }

  lemma TakeAlarm(s: State, w: nat, cb: Callback)
    requires Enabled(s, Step.Take(w))
    ensures Alarm(DoTake(s, w), cb) == Alarm(s, cb)
  {
    var i := Q.Scan(s.queue, w);
    TallyUpdate(s.workers, w, DoTake(s, w).workers[w], InHand, cb);
    if i < |s.queue| {
      TallyRemove(s.queue, i, Queued, cb);
    }
  }

  lemma EnterAlarm(s: State, w: nat, cb: Callback)
    requires cb.TimeoutCb? && Safe(s) && Enabled(s, Step.Enter(w))
    ensures Alarm(DoEnter(s, w), cb) == Alarm(s, cb)
  {
    var k := s.workers[w];
    match k.task.job
    case FiberJob(g) =>
      assert FiberOk(s.fibers, s.workers, g);
      if s.fibers[g].st == Term {
        WorkerAlarm(s, w, Finishing(k.idleDone), cb);
      } else {
        var x := Fiber(Running, Some(w), InCode);
        FiberAlarm(s, g, x, cb);
        WorkerAlarm(SetFiber(s, g, x), w, InFiber(g, k.idleDone), cb);
      }
    case CbJob(c) =>
      var x := Fiber(Running, Some(w), StartOf(c));
      NewFiberAlarm(s, x, cb);
      WorkerAlarm(s.(fibers := s.fibers + [x]), w, InFiber(|s.fibers|, k.idleDone), cb);
  }

  lemma PosAlarm(s: State, w: nat, pos: Position, cb: Callback)
    requires InFiberNow(s, w) && !pos.AtCancel?
    ensures Alarm(SetPos(s, w, pos), cb) + Starting(s.fibers[s.workers[w].f], cb) == Alarm(s, cb)
  {
    FiberAlarm(s, s.workers[w].f, s.fibers[s.workers[w].f].(pos := pos), cb);
  }

  lemma LeaveAlarm(s: State, w: nat, st: FiberState, cb: Callback)
    requires InFiberNow(s, w) && !s.fibers[s.workers[w].f].pos.AtCancel?
    ensures Alarm(LeaveFiber(s, w, st), cb) == Alarm(s, cb)
  {
    var g := s.workers[w].f;
    var x := Fiber(st, s.fibers[g].owner, InCode);
    FiberAlarm(s, g, x, cb);
    WorkerAlarm(SetFiber(s, g, x), w, Returned(g, s.workers[w].idleDone), cb);
  }

  lemma UnlockAlarm(s: State, w: nat, cb: Callback)
    requires Enabled(s, Unlock(w))
    ensures Alarm(Do(s, Unlock(w)), cb) == Alarm(s, cb)
  {
    var g := s.workers[w].f;
    FiberAlarm(s, g, s.fibers[g].(owner := None), cb);
    WorkerAlarm(SetFiber(s, g, s.fibers[g].(owner := None)), w, Finishing(s.workers[w].idleDone), cb);
  }

  lemma AwaitAlarm(s: State, w: nat, fd: nat, ev: R.Event, up: bool, cb: Callback)
    requires Enabled(s, Await(w, fd, ev, up))
    ensures Alarm(Do(s, Await(w, fd, ev, up)), cb) == Alarm(s, cb)
  {
    PosAlarm(s, w, AboutToYield, cb);
  }

  lemma SleepAlarm(s: State, w: nat, ms: nat, now: int, cb: Callback)
    requires cb.TimeoutCb? && T.WF(s.timers.s) && Enabled(s, Sleep(w, ms, now))
    ensures Alarm(Do(s, Sleep(w, ms, now)), cb) == Alarm(s, cb)
  {
    var m := DoSleep(s, s.workers[w].f, ms, now);
    assert Armed(m.timers.s, cb) == Armed(s.timers.s, cb);
    PosAlarm(m, w, AboutToYield, cb);
  }

  /** The callback's own step: it is over, whatever it finds. */
  lemma CancelWaitAlarm(s: State, w: nat, up: bool, cb: Callback)
    requires cb.TimeoutCb? && Enabled(s, CancelWait(w, up))
    ensures Alarm(Do(s, CancelWait(w, up)), cb) + Lost(s, CancelWait(w, up), cb) == Alarm(s, cb)
  {
    var pos := s.fibers[s.workers[w].f].pos;
    PosAlarm(s, w, InCode, cb);
    PushAllAlarm(s.queue, R.CancelEvent(s.table, pos.fd, pos.ev, up).woken, cb);
  }

  lemma WakeAlarm(s: State, w: nat, cb: Callback)
    requires cb.TimeoutCb? && Enabled(s, WakeSleeper(w))
    ensures Alarm(Do(s, WakeSleeper(w)), cb) == Alarm(s, cb)
  {
    PosAlarm(s, w, InCode, cb);
    PushAlarm(SetPos(s, w, InCode), FiberJob(s.fibers[s.workers[w].f].pos.f), -1, cb);
  }

  predicate FiberMoves(step: Step) {
    step.Enter? || step.Await? || step.Sleep? || step.WakeSleeper? || step.CancelWait? || step.SkipCancel?
  }

  lemma FiberStepAlarm(s: State, step: Step, cb: Callback)
    requires cb.TimeoutCb? && Safe(s) && Lean(s) && Enabled(s, step) && FiberMoves(step)
    ensures Alarm(Do(s, step), cb) + Lost(s, step, cb) == Alarm(s, cb)
  {
    match step
    case Enter(w) => EnterAlarm(s, w, cb);
    case Await(w, fd, ev, up) => AwaitAlarm(s, w, fd, ev, up, cb);
    case Sleep(w, ms, now) => SleepAlarm(s, w, ms, now, cb);
    case WakeSleeper(w) => WakeAlarm(s, w, cb);
    case CancelWait(w, up) => CancelWaitAlarm(s, w, up, cb);
    case SkipCancel(w) => PosAlarm(s, w, InCode, cb);
  }

  lemma RestAlarm(s: State, step: Step, cb: Callback)
    requires cb.TimeoutCb? && Enabled(s, step) && !FiberMoves(step) && !step.UserTimer? && !step.Idle?
    ensures Alarm(Do(s, step), cb) == Alarm(s, cb)
  {
    if step.Take? {
      TakeAlarm(s, step.w, cb);
    } else if step.Unlock? {
      UnlockAlarm(s, step.w, cb);
    } else if step.Yield? || step.BareYield? {
      LeaveAlarm(s, step.w, Ready, cb);
    } else if step.Terminate? {
      LeaveAlarm(s, step.w, Term, cb);
    } else if step.Finish? {
      WorkerAlarm(s.(active := s.active - 1), step.w, Looking(s.workers[step.w].idleDone), cb);
    } else if step.Close? {
      PushAllAlarm(s.queue, R.CancelAll(s.table, step.fd, step.up).woken, cb);
    } else if step.Submit? {
      NewFiberAlarm(s, Fiber(Ready, None, InCode), cb);
      PushAlarm(s.(fibers := s.fibers + [Fiber(Ready, None, InCode)]), FiberJob(|s.fibers|), step.thread, cb);
    } else if step.SubmitCb? {
      PushAlarm(s, CbJob(UserCb), step.thread, cb);
    } else if step.Reschedule? {
      PushAlarm(s, FiberJob(step.f), step.thread, cb);
    }
  }

  /** Every step moves a timeout from one place to the next, makes it or loses it, and nothing else. */
  lemma StepAlarm(s: State, step: Step, cb: Callback)
    requires cb.TimeoutCb? && Safe(s) && Lean(s) && Plain(s, cb) && Enabled(s, step) && Leaves(s, step, cb)
    ensures Alarm(Do(s, step), cb) + Lost(s, step, cb) == Alarm(s, cb) + Made(s, step, cb)
  {
    if step.UserTimer? {
      TimerOpAlarm(s, step.op, step.now, cb);
    } else if step.Idle? {
      TurnAlarm(s, step.w, step.turn, cb);
    } else if FiberMoves(step) {
      FiberStepAlarm(s, step, cb);
    } else {
      RestAlarm(s, step, cb);
    }
  }

  // ---------- Whole runs ----------

  ghost predicate AllLeave(s: State, steps: seq<Step>, cb: Callback)
    requires Admits(s, steps)
    decreases steps
  {
    steps == [] || (Leaves(s, steps[0], cb) && AllLeave(Do(s, steps[0]), steps[1..], cb))
  }

  ghost function AllMade(s: State, steps: seq<Step>, cb: Callback): nat
    requires Admits(s, steps)
    decreases steps
  {
    if steps == [] then 0 else Made(s, steps[0], cb) + AllMade(Do(s, steps[0]), steps[1..], cb)
  }

  ghost function AllLost(s: State, steps: seq<Step>, cb: Callback): nat
    requires Admits(s, steps)
    decreases steps
  {
    if steps == [] then 0 else Lost(s, steps[0], cb) + AllLost(Do(s, steps[0]), steps[1..], cb)
  }

  lemma {:induction false} RunAlarm(s: State, steps: seq<Step>, cb: Callback)
    requires cb.TimeoutCb? && Safe(s) && Lean(s) && Plain(s, cb)
    requires Admits(s, steps) && AllKeyed(s, steps) && AllLeave(s, steps, cb)
    ensures Alarm(Run(s, steps), cb) + AllLost(s, steps, cb) == Alarm(s, cb) + AllMade(s, steps, cb)
    decreases steps
  {
    if steps != [] {
      StepSafe(s, steps[0]);
      StepLean(s, steps[0]);
      PlainAfter(s, steps[0], cb);
      StepAlarm(s, steps[0], cb);
      RunAlarm(Do(s, steps[0]), steps[1..], cb);
    }
  }

  lemma InitAlarm(workers: nat, start: int, cb: Callback)
    ensures Plain(Init(workers, start), cb) && Alarm(Init(workers, start), cb) == 0
  {
    var s := Init(workers, start);
    TallyZero(s.workers, InHand, cb);
    assert Armed(s.timers.s, cb) == {};
  }

  /** Over every run in which do_io has added the timer of a wait once: its timeout is in exactly one place,
      pending, queued, in a worker's hand or about to run, if and only if its callback has not run and no
      cancel, refresh or reset has taken its entry out; otherwise it is nowhere. So a fiber parked with a
      timeout has it still coming unless, since the timer was added, the callback has run, before the
      registration included, or a timer operation has found it. */
  lemma TimeoutIff(workers: nat, start: int, steps: seq<Step>, cb: Callback)
    requires cb.TimeoutCb? && Admits(Init(workers, start), steps) && AllKeyed(Init(workers, start), steps)
    requires AllLeave(Init(workers, start), steps, cb) && AllMade(Init(workers, start), steps, cb) == 1
    ensures var s := Run(Init(workers, start), steps); var lost := AllLost(Init(workers, start), steps, cb);
      Alarm(s, cb) == (if lost == 0 then 1 else 0) && lost <= 1
  {
    InitSafe(workers, start);
    InitTimely(workers, start);
    InitAlarm(workers, start, cb);
    RunAlarm(Init(workers, start), steps, cb);
  }

  // ---------- What the callback does ----------

  /** Run while the wait stands, and with a willing kernel, it ends the wait: the bit is gone and the parked
      fiber queued. */
  lemma TimeoutEndsWait(s: State, w: nat, f: nat)
    requires Safe(s) && Enabled(s, CancelWait(w, true))
    requires var pos := s.fibers[s.workers[w].f].pos;
      pos.fd < |s.table.fds| && s.table.fds[pos.fd].Context(pos.ev) == Some(FiberWaiter(f))
    ensures var pos, s' := s.fibers[s.workers[w].f].pos, Do(s, CancelWait(w, true));
      && pos.fd < |s'.table.fds| && !s'.table.fds[pos.fd].events.Has(pos.ev)
      && s'.queue == s.queue + [Q.Task(FiberJob(f), -1)]
  {
    var pos := s.fibers[s.workers[w].f].pos;
    assert R.Filled(s.table.fds[pos.fd]);
    var e := R.CancelEvent(s.table, pos.fd, pos.ev, true);
    R.CancelEventStep(s.table, pos.fd, pos.ev, true, FiberWaiter(f));
    assert e.woken == [FiberWaiter(f)];
    assert PushAll(s.queue, e.woken) == PushAll(s.queue + [Q.Task(FiberJob(f), -1)], []);
  }

  /** Run before the registration, it finds nothing and wakes nobody; the timeout is spent. With TimeoutIff:
      the wait registered afterwards has none for as long as it lasts. */
  lemma EarlyTimeoutIsLost(s: State, w: nat, up: bool, cb: Callback)
    requires Safe(s) && cb.TimeoutCb? && Enabled(s, CancelWait(w, up)) && Alarm(s, cb) == 1
    requires s.fibers[s.workers[w].f].pos == StartOf(cb)
    requires cb.fd < |s.table.fds| ==> !s.table.fds[cb.fd].events.Has(cb.ev)
    ensures var s' := Do(s, CancelWait(w, up)); s'.table == s.table && s'.queue == s.queue && Alarm(s', cb) == 0
  {
    CancelWaitAlarm(s, w, up, cb);
  }

  /** A timeout that is nowhere does not run. */
  lemma NoAlarmNoRun(s: State, step: Step, cb: Callback)
    requires Alarm(s, cb) == 0
    ensures !Runs(s, step, cb)
  {
    if Runs(s, step, cb) {
      TallySplit(s.fibers, s.workers[step.w].f, Starting, cb);
    }
  }

  /** A wait registered after its timeout ran has none, however long it lasts: nothing of the callback runs
      any more unless the timer is added again. */
  lemma LateWaitHasNone(s: State, steps: seq<Step>, cb: Callback)
    requires cb.TimeoutCb? && Safe(s) && Lean(s) && Plain(s, cb) && Alarm(s, cb) == 0
    requires Admits(s, steps) && AllKeyed(s, steps) && AllLeave(s, steps, cb) && AllMade(s, steps, cb) == 0
    ensures Alarm(Run(s, steps), cb) == 0 && AllLost(s, steps, cb) == 0
  {
    RunAlarm(s, steps, cb);
  }
}
