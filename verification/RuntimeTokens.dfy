/** Conservation of wake tokens, step by step: a disciplined step moves tokens between queue, hands,
    callbacks, event contexts and timers so that each fiber keeps exactly the one it needs. */
module RuntimeTokens {
  import opened Options
  import opened Sums
  import opened Runtime
  import opened RuntimeSafety
  import opened RuntimeTimers
  import Q = TaskQueue
  import R = Reactor
  import S = TimerSteps
  import T = Timers

  /** A worker's share changes. */
  lemma WorkerShare(s: State, w: nat, k: Worker, f: nat)
    requires w < |s.workers|
    ensures Tokens(SetWorker(s, w, k), f) + HandToken(s.workers[w], f) == Tokens(s, f) + HandToken(k, f)
    ensures Owed(SetWorker(s, w, k), f) == Owed(s, f)
  {
    TallyUpdate(s.workers, w, k, HandToken, f);
  }

  /** A fiber's share changes. */
  lemma FiberShare(s: State, g: nat, x: Fiber, f: nat)
    requires g < |s.fibers|
    ensures Tokens(SetFiber(s, g, x), f) + PosToken(s.fibers[g], f) == Tokens(s, f) + PosToken(x, f)
    ensures Owed(SetFiber(s, g, x), f) == if f == g then Need(x) else Owed(s, f)
  {
    TallyUpdate(s.fibers, g, x, PosToken, f);
  }

  lemma PushShare(s: State, job: Job, thread: int, f: nat)
    ensures Tokens(Push(s, job, thread), f) == Tokens(s, f) + JobToken(job, f)
    ensures Owed(Push(s, job, thread), f) == Owed(s, f)
  {
    TallyPush(s.queue, Q.Task(job, thread), TaskToken, f);
  }

  lemma NewFiberShare(s: State, x: Fiber, f: nat)
    ensures var s' := s.(fibers := s.fibers + [x]);
            && Tokens(s', f) == Tokens(s, f) + PosToken(x, f)
            && Owed(s', f) == if f == |s.fibers| then Need(x) else Owed(s, f)
  {
    TallyPush(s.fibers, x, PosToken, f);
  }

  /** Waiters leave their event contexts for the queue, one for one. */
  lemma WokenShare(s: State, e: R.Effect<Waiter>, f: nat)
    requires R.Standing(s.table, FiberWaiter(f)) == R.Standing(e.state, FiberWaiter(f)) + Times(e.woken, FiberWaiter(f))
    ensures Tokens(Woken(s, e), f) == Tokens(s, f) && Owed(Woken(s, e), f) == Owed(s, f)
  {
    WokenTokens(s.queue, e.woken, f);
  }

  lemma TakeTokens(s: State, w: nat, f: nat)
    requires Enabled(s, Step.Take(w))
    ensures Tokens(DoTake(s, w), f) == Tokens(s, f) && Owed(DoTake(s, w), f) == Owed(s, f)
  {
    var i := Q.Scan(s.queue, w);
    var done := s.workers[w].idleDone;
    if i < |s.queue| {
      TallyRemove(s.queue, i, TaskToken, f);
      WorkerShare(s.(queue := Q.Without(s.queue, i), active := s.active + 1), w, Holding(s.queue[i], done), f);
    } else {
      WorkerShare(s, w, if done then Exited else Idling(Unread), f);
    }
  }

  /** A held task is a token, so its fiber exists and is waiting for it. */
  lemma HeldIsReady(s: State, w: nat, g: nat)
    requires Safe(s) && Parked(s) && w < |s.workers| && s.workers[w].Holding? && s.workers[w].task.job == FiberJob(g)
    ensures g < |s.fibers| && Need(s.fibers[g]) == 1
    ensures s.fibers[g].owner == None ==> s.fibers[g].st == Ready
  {
    TallySplit(s.workers, w, HandToken, g);
    assert Tokens(s, g) == Owed(s, g);
    assert FiberOk(s.fibers, s.workers, g);
  }

  lemma EnterTokens(s: State, w: nat, f: nat)
    requires Safe(s) && Parked(s) && Enabled(s, Step.Enter(w))
    ensures Tokens(DoEnter(s, w), f) == Owed(DoEnter(s, w), f)
  {
    assert Tokens(s, f) == Owed(s, f);
    var k := s.workers[w];
    match k.task.job
    case FiberJob(g) =>
      HeldIsReady(s, w, g);
      var x := Fiber(Running, Some(w), InCode);
      assert FiberOk(s.fibers, s.workers, g);
      FiberShare(s, g, x, f);
      WorkerShare(SetFiber(s, g, x), w, InFiber(g, k.idleDone), f);
    case CbJob(cb) =>
      var x := Fiber(Running, Some(w), StartOf(cb));
      NewFiberShare(s, x, f);
      WorkerShare(s.(fibers := s.fibers + [x]), w, InFiber(|s.fibers|, k.idleDone), f);
  }

  /** The fiber worker `w` is in, which is running and held by `w`. */
  lemma Inside(s: State, w: nat)
    requires Safe(s) && InFiberNow(s, w)
    ensures s.fibers[s.workers[w].f].st == Running
  {
    assert WorkerOk(s.fibers, s.workers, w);
  }

  lemma PosTokens(s: State, w: nat, pos: Position, f: nat)
    requires Safe(s) && InFiberNow(s, w)
    ensures var x := s.fibers[s.workers[w].f]; var s' := SetPos(s, w, pos);
            && Tokens(s', f) + PosToken(x, f) == Tokens(s, f) + (if pos == AtWake(f) then 1 else 0)
            && Owed(s', f) == if f == s.workers[w].f then (if pos == AboutToYield then 1 else 0) else Owed(s, f)
  {
    Inside(s, w);
    FiberShare(s, s.workers[w].f, s.fibers[s.workers[w].f].(pos := pos), f);
  }

  lemma AwaitTokens(s: State, w: nat, fd: nat, ev: R.Event, up: bool, f: nat)
    requires Safe(s) && Parked(s) && Enabled(s, Await(w, fd, ev, up))
    ensures Tokens(Do(s, Await(w, fd, ev, up)), f) == Owed(Do(s, Await(w, fd, ev, up)), f)
  {
    assert Tokens(s, f) == Owed(s, f);
    var g := s.workers[w].f;
    Inside(s, w);
    R.AddEventStep(s.table, fd, ev, FiberWaiter(g), up, FiberWaiter(f));
    PosTokens(s, w, AboutToYield, f);
  }

  lemma SleepTokens(s: State, w: nat, ms: nat, now: int, f: nat)
    requires Safe(s) && T.WF(s.timers.s) && Enabled(s, Sleep(w, ms, now))
    ensures var s', g := Do(s, Sleep(w, ms, now)), s.workers[w].f;
            && Tokens(s', f) == Tokens(s, f) + (if f == g && T.Later(now, ms) !in s.timers.s.pending then 1 else 0)
            && Owed(s', f) == (if f == g then 1 else Owed(s, f))
            && s.fibers[g].st == Running && Owed(s, g) == 0
  {
    var g := s.workers[w].f;
    Inside(s, w);
    SleepAdds(s, g, ms, now, f);
    PosTokens(DoSleep(s, g, ms, now), w, AboutToYield, f);
  }

  lemma CancelWaitTokens(s: State, w: nat, up: bool, f: nat)
    requires Safe(s) && Parked(s) && Enabled(s, CancelWait(w, up))
    ensures Tokens(Do(s, CancelWait(w, up)), f) == Owed(Do(s, CancelWait(w, up)), f)
  {
    assert Tokens(s, f) == Owed(s, f);
    var pos := s.fibers[s.workers[w].f].pos;
    Inside(s, w);
    PosTokens(s, w, InCode, f);
    R.CancelEventStep(s.table, pos.fd, pos.ev, up, FiberWaiter(f));
    WokenShare(SetPos(s, w, InCode), R.CancelEvent(s.table, pos.fd, pos.ev, up), f);
  }

  lemma WakeSleeperTokens(s: State, w: nat, f: nat)
    requires Safe(s) && Parked(s) && Enabled(s, WakeSleeper(w))
    ensures Tokens(Do(s, WakeSleeper(w)), f) == Owed(Do(s, WakeSleeper(w)), f)
  {
    assert Tokens(s, f) == Owed(s, f);
    Inside(s, w);
    PosTokens(s, w, InCode, f);
    PushShare(SetPos(s, w, InCode), FiberJob(s.fibers[s.workers[w].f].pos.f), -1, f);
  }

  lemma LeaveShare(s: State, w: nat, st: FiberState, f: nat)
    requires Safe(s) && InFiberNow(s, w)
    ensures var g, s' := s.workers[w].f, LeaveFiber(s, w, st);
            && Tokens(s', f) + PosToken(s.fibers[g], f) == Tokens(s, f)
            && Owed(s', f) == (if f == g then if st == Ready then 1 else 0 else Owed(s, f))
  {
    var g := s.workers[w].f;
    var x := Fiber(st, s.fibers[g].owner, InCode);
    FiberShare(s, g, x, f);
    WorkerShare(SetFiber(s, g, x), w, Returned(g, s.workers[w].idleDone), f);
  }

  lemma LeaveTokens(s: State, w: nat, st: FiberState, f: nat)
    requires Safe(s) && Parked(s)
    requires (st == Ready && At(s, w, AboutToYield)) || (st == Term && At(s, w, InCode))
    ensures Tokens(LeaveFiber(s, w, st), f) == Owed(LeaveFiber(s, w, st), f)
  {
    assert Tokens(s, f) == Owed(s, f);
    Inside(s, w);
    LeaveShare(s, w, st, f);
  }

  lemma UnlockTokens(s: State, w: nat, f: nat)
    requires Enabled(s, Unlock(w)) && Tokens(s, f) == Owed(s, f)
    ensures Tokens(Do(s, Unlock(w)), f) == Owed(Do(s, Unlock(w)), f)
  {
    var g := s.workers[w].f;
    FiberShare(s, g, s.fibers[g].(owner := None), f);
    WorkerShare(SetFiber(s, g, s.fibers[g].(owner := None)), w, Finishing(s.workers[w].idleDone), f);
  }

  /** Steps outside fibers and tasks. */
  lemma TableTokens(s: State, step: Step, f: nat)
    requires Safe(s) && Tokens(s, f) == Owed(s, f) && Enabled(s, step)
    requires step.Listen? || step.Close?
    ensures Tokens(Do(s, step), f) == Owed(Do(s, step), f)
  {
    match step
    case Listen(w, fd, ev, up) => R.AddEventStep(s.table, fd, ev, CbWaiter, up, FiberWaiter(f));
    case Close(w, fd, up) =>
      R.CancelAllStep(s.table, fd, up, FiberWaiter(f));
      WokenShare(s, R.CancelAll(s.table, fd, up), f);
  }

  lemma UserTimerTokens(s: State, g: nat, op: S.Op<Callback>, now: int, f: nat)
    requires Lean(s) && MayUse(s, g, op) && S.Enabled(s.timers, op, now)
    ensures var s' := DoTimer(s, op, now);
      && Tokens(s', f) + (if TakesSleeperOf(s.timers.s, op, f) then 1 else 0) == Tokens(s, f)
      && Owed(s', f) == Owed(s, f)
  {
    TimerOpTokens(s, g, op, now, f);
  }

  lemma IdleExpireTokens(s: State, at: int, now: int, f: nat)
    requires Lean(s) && S.Enabled(s.timers, S.ExpireOp(at), now)
    ensures Tokens(DoExpire(s, at, now), f) == Tokens(s, f) && Owed(DoExpire(s, at, now), f) == Owed(s, f)
  {
    var t, r := s.timers.s.(previous := now), T.RolledOver(s.timers.s, now);
    DoExpireIs(s, at, now);
    SleepersOnce(s, f);
    ExpireTokens(s.queue, t, at, r, f);
    assert Sleeping(t, f) == Sleeping(s.timers.s, f);
  }

  lemma SleepersOnce(s: State, f: nat)
    requires Lean(s)
    ensures forall id :: 0 <= id < |s.timers.s.all| && s.timers.s.all[id].cb == Some(WakeCb(f)) ==>
              !s.timers.s.all[id].recurring
  {
    forall id | 0 <= id < |s.timers.s.all| && s.timers.s.all[id].cb == Some(WakeCb(f))
      ensures !s.timers.s.all[id].recurring
    {
      assert SleeperOk(s, id);
    }
  }

  lemma SubmitTokens(s: State, thread: int, f: nat)
    requires Tokens(s, f) == Owed(s, f)
    ensures Tokens(Do(s, Submit(thread)), f) == Owed(Do(s, Submit(thread)), f)
  {
    var x := Fiber(Ready, None, InCode);
    NewFiberShare(s, x, f);
    PushShare(s.(fibers := s.fibers + [x]), FiberJob(|s.fibers|), thread, f);
  }

  lemma ReadTokens(s: State, w: nat, f: nat)
    requires w < |s.workers| && s.workers[w].Idling?
    ensures Tokens(DoReadTimers(s, w), f) == Tokens(s, f) && Owed(DoReadTimers(s, w), f) == Owed(s, f)
  {
    var read := s.(timers := s.timers.(s := T.ClearTickle(s.timers.s)));
    assert Sleeping(read.timers.s, f) == Sleeping(s.timers.s, f);
    WorkerShare(read, w, DoReadTimers(s, w).workers[w], f);
  }

  /** Steps that only move workers or the queue. */
  predicate MovesWorker(step: Step) {
    step.Take? || step.Unlock? || step.Finish?
  }

  lemma WorkerTokens(s: State, step: Step, f: nat)
    requires Tokens(s, f) == Owed(s, f) && Enabled(s, step) && MovesWorker(step)
    ensures Tokens(Do(s, step), f) == Owed(Do(s, step), f)
  {
    match step
    case Take(w) => TakeTokens(s, w, f);
    case Unlock(w) => UnlockTokens(s, w, f);
    case Finish(w) => WorkerShare(s.(active := s.active - 1), w, Looking(s.workers[w].idleDone), f);
  }

  /** Steps a fiber takes, and its being entered. */
  predicate MovesFiber(step: Step) {
    || step.Enter? || step.Await? || step.Sleep? || step.WakeSleeper?
    || step.CancelWait? || step.SkipCancel? || step.Yield? || step.Terminate?
  }

  lemma FiberTokens(s: State, step: Step, f: nat)
    requires Safe(s) && Parked(s) && Lean(s) && Enabled(s, step) && Spares(s, step) && MovesFiber(step)
    ensures Tokens(Do(s, step), f) == Owed(Do(s, step), f)
  {
    match step
    case Enter(w) => EnterTokens(s, w, f);
    case Await(w, fd, ev, up) => AwaitTokens(s, w, fd, ev, up, f);
    case Sleep(w, ms, now) => SleepTokens(s, w, ms, now, f);
    case WakeSleeper(w) => WakeSleeperTokens(s, w, f);
    case CancelWait(w, up) => CancelWaitTokens(s, w, up, f);
    case SkipCancel(w) => SkipTokens(s, w, f);
    case Yield(w) => LeaveTokens(s, w, Ready, f);
    case Terminate(w) => LeaveTokens(s, w, Term, f);
  }

  lemma SkipTokens(s: State, w: nat, f: nat)
    requires Safe(s) && Parked(s) && Enabled(s, SkipCancel(w))
    ensures Tokens(Do(s, SkipCancel(w)), f) == Owed(Do(s, SkipCancel(w)), f)
  {
    assert Tokens(s, f) == Owed(s, f);
    Inside(s, w);
    PosTokens(s, w, InCode, f);
  }

  lemma TurnTokens(s: State, w: nat, turn: Turn, f: nat)
    requires Safe(s) && Lean(s) && TurnEnabled(s, w, turn)
    ensures Tokens(DoTurn(s, w, turn), f) == Tokens(s, f) && Owed(DoTurn(s, w, turn), f) == Owed(s, f)
  {
    if turn.Expire? {
      IdleExpireTokens(s, turn.at, turn.now, f);
    } else if turn.Report? {
      R.HandleReportStep(s.table, turn.fd, turn.rep, turn.up, FiberWaiter(f));
      WokenShare(s, R.HandleReport(s.table, turn.fd, turn.rep, turn.up), f);
    } else if turn.ReadTimers? {
      ReadTokens(s, w, f);
    } else {
      WorkerShare(s, w, DoTurn(s, w, turn).workers[w], f);
    }
  }

  /** Steps that only touch the queue, the event table or the timers. */
  lemma RestTokens(s: State, step: Step, f: nat)
    requires Safe(s) && Lean(s) && Tokens(s, f) == Owed(s, f) && Enabled(s, step) && Spares(s, step)
    requires !MovesWorker(step) && !MovesFiber(step)
    ensures Tokens(Do(s, step), f) == Owed(Do(s, step), f)
  {
    if step.UserTimer? {
      UserTimerTokens(s, s.workers[step.w].f, step.op, step.now, f);
    } else if step.Idle? {
      TurnTokens(s, step.w, step.turn, f);
    } else if step.Submit? {
      SubmitTokens(s, step.thread, f);
    } else if step.SubmitCb? {
      PushShare(s, CbJob(UserCb), step.thread, f);
    } else if step.Listen? || step.Close? {
      TableTokens(s, step, f);
    }
  }

  /** Every disciplined step keeps exactly one token per suspended fiber and none for the others. */
  lemma StepTokens(s: State, step: Step, f: nat)
    requires Safe(s) && Parked(s) && Lean(s) && Enabled(s, step) && Spares(s, step)
    ensures Tokens(Do(s, step), f) == Owed(Do(s, step), f)
  {
    assert Tokens(s, f) == Owed(s, f);
    if MovesWorker(step) {
      WorkerTokens(s, step, f);
    } else if MovesFiber(step) {
      FiberTokens(s, step, f);
    } else {
      RestTokens(s, step, f);
    }
  }
}
