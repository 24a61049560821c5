/** What every step of the runtime keeps: the mutex discipline that makes a fiber run on at most one
    worker, the active count, the event table, and exactly one wake token per suspended fiber. */
module RuntimeSafety {
  import opened Options
  import opened Sums
  import opened Runtime
  import opened RuntimeTimers
  import opened TimerRuns
  import DeadlineSet
  import Q = TaskQueue
  import R = Reactor
  import S = TimerSteps
  import T = Timers

  // ---------- Mutual exclusion ----------

  predicate HoldsMutex(w: Worker) {
    w.InFiber? || w.Returned?
  }

  /** A worker inside a fiber, or just returned from it, holds its mutex; the fiber runs meanwhile. */
  ghost predicate WorkerOk(fs: seq<Fiber>, ws: seq<Worker>, w: nat)
    requires w < |ws|
  {
    HoldsMutex(ws[w]) ==>
      var f := ws[w].f;
      f < |fs| && fs[f].owner == Some(w) && (fs[f].st == Running <==> ws[w].InFiber?)
  }

  /** A fiber runs only while its mutex is held, and only by a worker that is at it. */
  ghost predicate FiberOk(fs: seq<Fiber>, ws: seq<Worker>, f: nat)
    requires f < |fs|
  {
    && (fs[f].owner.Some? ==>
          fs[f].owner.value < |ws| && HoldsMutex(ws[fs[f].owner.value]) && ws[fs[f].owner.value].f == f)
    && (fs[f].st == Running ==> fs[f].owner.Some?)
    && (fs[f].st != Running ==> fs[f].pos == InCode)
  }

  ghost predicate Locked(fs: seq<Fiber>, ws: seq<Worker>) {
    (forall w :: 0 <= w < |ws| ==> WorkerOk(fs, ws, w)) && (forall f :: 0 <= f < |fs| ==> FiberOk(fs, ws, f))
  }

  /** A worker that holds no mutex changes what it does. */
  lemma LockedMove(fs: seq<Fiber>, ws: seq<Worker>, w: nat, k: Worker)
    requires Locked(fs, ws) && w < |ws| && !HoldsMutex(ws[w]) && !HoldsMutex(k)
    ensures Locked(fs, ws[w := k])
  {
    var ws' := ws[w := k];
    forall f | 0 <= f < |fs| ensures FiberOk(fs, ws', f) {
      assert FiberOk(fs, ws, f);
    }
    forall v | 0 <= v < |ws'| ensures WorkerOk(fs, ws', v) {
      assert WorkerOk(fs, ws, v);
    }
  }

  /** A fiber changes while the same worker keeps holding it. */
  lemma LockedHeld(fs: seq<Fiber>, ws: seq<Worker>, w: nat, x: Fiber, k: Worker)
    requires Locked(fs, ws) && w < |ws| && HoldsMutex(ws[w]) && ws[w].f < |fs|
    requires HoldsMutex(k) && k.f == ws[w].f && x.owner == Some(w) && (x.st == Running <==> k.InFiber?)
    requires x.st != Running ==> x.pos == InCode
    ensures Locked(fs[ws[w].f := x], ws[w := k])
  {
    var fs', ws' := fs[ws[w].f := x], ws[w := k];
    assert WorkerOk(fs, ws, w);
    forall f | 0 <= f < |fs'| ensures FiberOk(fs', ws', f) {
      assert FiberOk(fs, ws, f);
    }
    forall v | 0 <= v < |ws'| ensures WorkerOk(fs', ws', v) {
      assert WorkerOk(fs, ws, v);
    }
  }

  /** A free fiber is entered. */
  lemma LockedEnter(fs: seq<Fiber>, ws: seq<Worker>, w: nat, f: nat, k: Worker)
    requires Locked(fs, ws) && w < |ws| && !HoldsMutex(ws[w]) && f < |fs| && fs[f].owner == None
    requires k.InFiber? && k.f == f
    ensures Locked(fs[f := Fiber(Running, Some(w), InCode)], ws[w := k])
  {
    var fs', ws' := fs[f := Fiber(Running, Some(w), InCode)], ws[w := k];
    forall g | 0 <= g < |fs'| ensures FiberOk(fs', ws', g) {
      assert FiberOk(fs, ws, g);
    }
    forall v | 0 <= v < |ws'| ensures WorkerOk(fs', ws', v) {
      assert WorkerOk(fs, ws, v);
    }
  }

  /** The mutex of a fiber that stopped running is released. */
  lemma LockedRelease(fs: seq<Fiber>, ws: seq<Worker>, w: nat, k: Worker)
    requires Locked(fs, ws) && w < |ws| && ws[w].Returned? && !HoldsMutex(k)
    ensures ws[w].f < |fs|
    ensures Locked(fs[ws[w].f := fs[ws[w].f].(owner := None)], ws[w := k])
  {
    assert WorkerOk(fs, ws, w);
    var fs', ws' := fs[ws[w].f := fs[ws[w].f].(owner := None)], ws[w := k];
    forall g | 0 <= g < |fs'| ensures FiberOk(fs', ws', g) {
      assert FiberOk(fs, ws, g);
    }
    forall v | 0 <= v < |ws'| ensures WorkerOk(fs', ws', v) {
      assert WorkerOk(fs, ws, v);
    }
  }

  /** A new fiber that nobody holds. */
  lemma LockedNew(fs: seq<Fiber>, ws: seq<Worker>)
    requires Locked(fs, ws)
    ensures Locked(fs + [Fiber(Ready, None, InCode)], ws)
  {
    var fs' := fs + [Fiber(Ready, None, InCode)];
    forall g | 0 <= g < |fs'| ensures FiberOk(fs', ws, g) {
      assert g < |fs| ==> FiberOk(fs, ws, g);
    }
    forall v | 0 <= v < |ws| ensures WorkerOk(fs', ws, v) {
      assert WorkerOk(fs, ws, v);
    }
  }

  /** A new fiber entered at once. */
  lemma LockedSpawn(fs: seq<Fiber>, ws: seq<Worker>, w: nat, pos: Position, k: Worker)
    requires Locked(fs, ws) && w < |ws| && !HoldsMutex(ws[w]) && k.InFiber? && k.f == |fs|
    ensures Locked(fs + [Fiber(Running, Some(w), pos)], ws[w := k])
  {
    var fs', ws' := fs + [Fiber(Running, Some(w), pos)], ws[w := k];
    forall g | 0 <= g < |fs'| ensures FiberOk(fs', ws', g) {
      assert g < |fs| ==> FiberOk(fs, ws, g);
    }
    forall v | 0 <= v < |ws'| ensures WorkerOk(fs', ws', v) {
      assert WorkerOk(fs, ws, v);
    }
  }

  /** Every step of every worker keeps the discipline, user code rescheduling a fiber included. */
  lemma StepLocked(s: State, step: Step)
    requires Locked(s.fibers, s.workers) && Enabled(s, step)
    ensures var s' := Do(s, step); Locked(s'.fibers, s'.workers)
  {
    match step
    case Submit(_) => LockedNew(s.fibers, s.workers);
    case Take(w) =>
      var i, done := Q.Scan(s.queue, w), s.workers[w].idleDone;
      LockedMove(s.fibers, s.workers, w,
        if i < |s.queue| then Holding(s.queue[i], done) else if done then Exited else Idling(Unread));
    case Enter(w) => EnterLocked(s, w);
    case Await(w, fd, ev, up) => PosLocked(s, w, AboutToYield);
    case Sleep(w, ms, now) => PosLocked(DoSleep(s, s.workers[w].f, ms, now), w, AboutToYield);
    case WakeSleeper(w) => PosLocked(s, w, InCode);
    case CancelWait(w, up) => PosLocked(s, w, InCode);
    case SkipCancel(w) => PosLocked(s, w, InCode);
    case Yield(w) => LeaveLocked(s, w, Ready);
    case BareYield(w) => LeaveLocked(s, w, Ready);
    case Terminate(w) => LeaveLocked(s, w, Term);
    case Unlock(w) => LockedRelease(s.fibers, s.workers, w, Finishing(s.workers[w].idleDone));
    case Finish(w) => LockedMove(s.fibers, s.workers, w, Looking(s.workers[w].idleDone));
    case Idle(w, turn) => TurnLocked(s, w, turn);
    case _ =>
  }

  lemma TurnLocked(s: State, w: nat, turn: Turn)
    requires Locked(s.fibers, s.workers) && TurnEnabled(s, w, turn)
    ensures var s' := DoTurn(s, w, turn); Locked(s'.fibers, s'.workers)
  {
    var s' := DoTurn(s, w, turn);
    LockedMove(s.fibers, s.workers, w, s'.workers[w]);
    assert s'.workers == s.workers[w := s'.workers[w]];
  }

  lemma EnterLocked(s: State, w: nat)
    requires Locked(s.fibers, s.workers) && Enabled(s, Enter(w))
    ensures var s' := DoEnter(s, w); Locked(s'.fibers, s'.workers)
  {
    var k := s.workers[w];
    match k.task.job
    case FiberJob(f) =>
      if s.fibers[f].st == Term {
        LockedMove(s.fibers, s.workers, w, Finishing(k.idleDone));
      } else {
        LockedEnter(s.fibers, s.workers, w, f, InFiber(f, k.idleDone));
      }
    case CbJob(cb) => LockedSpawn(s.fibers, s.workers, w, StartOf(cb), InFiber(|s.fibers|, k.idleDone));
  }

  lemma PosLocked(s: State, w: nat, pos: Position)
    requires Locked(s.fibers, s.workers) && InFiberNow(s, w)
    ensures Locked(SetPos(s, w, pos).fibers, s.workers)
  {
    assert WorkerOk(s.fibers, s.workers, w);
    LockedHeld(s.fibers, s.workers, w, s.fibers[s.workers[w].f].(pos := pos), s.workers[w]);
    assert s.workers[w := s.workers[w]] == s.workers;
  }

  lemma LeaveLocked(s: State, w: nat, st: FiberState)
    requires Locked(s.fibers, s.workers) && InFiberNow(s, w) && st != Running
    ensures var s' := LeaveFiber(s, w, st); Locked(s'.fibers, s'.workers)
  {
    assert WorkerOk(s.fibers, s.workers, w);
    var f := s.workers[w].f;
    LockedHeld(s.fibers, s.workers, w, Fiber(st, s.fibers[f].owner, InCode), Returned(f, s.workers[w].idleDone));
  }

  // ---------- Wake tokens ----------

  ghost function JobToken(j: Job, f: nat): nat {
    if j == FiberJob(f) || j == CbJob(WakeCb(f)) then 1 else 0
  }

  ghost function TaskToken(t: Q.Task<Job>, f: nat): nat {
    JobToken(t.job, f)
  }

  ghost function HandToken(w: Worker, f: nat): nat {
    if w.Holding? then JobToken(w.task.job, f) else 0
  }

  ghost function PosToken(x: Fiber, f: nat): nat {
    if x.pos == AtWake(f) then 1 else 0
  }

  /** Everything that will put fiber `f` back on a worker: queue entries, tasks in hand, timer callbacks
      under way, event contexts and sleep timers. */
  ghost function Tokens(s: State, f: nat): nat {
    Tally(s.queue, TaskToken, f) + Tally(s.workers, HandToken, f) + Tally(s.fibers, PosToken, f)
    + R.Standing(s.table, FiberWaiter(f)) + TimerToken(s.timers, f)
  }

  /** A suspended fiber needs one token, and so does one that has parked but not yet yielded. */
  function Need(x: Fiber): nat {
    if x.st == Ready || (x.st == Running && x.pos == AboutToYield) then 1 else 0
  }

  ghost function Owed(s: State, f: nat): nat {
    if f < |s.fibers| then Need(s.fibers[f]) else 0
  }

  // ---------- Where tokens move ----------

  function Fire(queue: seq<Q.Task<Job>>, cb: Option<Callback>): seq<Q.Task<Job>> {
    if cb.None? then queue else queue + [Q.Task(CbJob(cb.value), -1)]
  }

  /** One turn turns a sleeper's timer into its task. */
  lemma TurnMovesToken(queue: seq<Q.Task<Job>>, t: T.State<Callback>, d: int, at: int, g: nat)
    requires T.WF(t) && d in t.pending
    requires forall id :: 0 <= id < |t.all| && t.all[id].cb == Some(WakeCb(g)) ==> !t.all[id].recurring
    ensures Tally(Fire(queue, t.all[t.pending[d]].cb), TaskToken, g) + |Sleeping(T.Pop(t, d, at), g)|
         == Tally(queue, TaskToken, g) + |Sleeping(t, g)|
  {
    var cb := t.all[t.pending[d]].cb;
    PopTokens(t, d, at, g);
    if cb.Some? {
      TallyPush(queue, Q.Task(CbJob(cb.value), -1), TaskToken, g);
    }
  }

  lemma {:induction false} ExpireTokens(queue: seq<Q.Task<Job>>, t: T.State<Callback>, at: int, rollover: bool, g: nat)
    requires T.WF(t) && T.LoopEnds(t, at, rollover)
    requires forall id :: 0 <= id < |t.all| && t.all[id].cb == Some(WakeCb(g)) ==> !t.all[id].recurring
    ensures var (t', fired) := T.Expire(t, at, rollover);
      Tally(PushFired(queue, fired), TaskToken, g) + |Sleeping(t', g)| == Tally(queue, TaskToken, g) + |Sleeping(t, g)|
    decreases |T.DueSet(t, at, rollover)|
  {
    if T.LoopGuard(t, at, rollover) {
      OneFewer(t, at, rollover);
      var d := DeadlineSet.Front(t.pending);
      TurnMovesToken(queue, t, d, at, g);
      ExpireTokens(Fire(queue, t.all[t.pending[d]].cb), T.Pop(t, d, at), at, rollover, g);
      assert T.Expire(t, at, rollover).1[1..] == T.Expire(T.Pop(t, d, at), at, rollover).1;
    }
  }

  /** Scheduling woken waiters turns their event contexts into queued tasks. */
  lemma {:induction false} WokenTokens(queue: seq<Q.Task<Job>>, woken: seq<Waiter>, f: nat)
    ensures Tally(PushAll(queue, woken), TaskToken, f) == Tally(queue, TaskToken, f) + Times(woken, FiberWaiter(f))
    decreases woken
  {
    if woken != [] {
      var t := Q.Task(JobOf(woken[0]), -1);
      WokenTokens(queue + [t], woken[1..], f);
      TallyPush(queue, t, TaskToken, f);
    }
  }

  // ---------- The invariant ----------

  ghost function Busy(w: Worker, u: ()): nat {
    if w.Holding? || w.InFiber? || w.Returned? || w.Finishing? then 1 else 0
  }

  /** Holds whatever user code does. */
  ghost predicate Safe(s: State) {
    Locked(s.fibers, s.workers) && R.Inv(s.table) && s.active == Tally(s.workers, Busy, ())
  }

  /** Every fiber has exactly the token it needs. */
  ghost predicate Parked(s: State) {
    forall f: nat :: Tokens(s, f) == Owed(s, f)
  }

  lemma StepSafe(s: State, step: Step)
    requires Safe(s) && Enabled(s, step)
    ensures Safe(Do(s, step))
  {
    StepLocked(s, step);
    StepTable(s, step);
    StepActive(s, step);
  }

  lemma StepTable(s: State, step: Step)
    requires R.Inv(s.table) && Enabled(s, step)
    ensures R.Inv(Do(s, step).table)
  {
    match step
    case Await(w, fd, ev, up) => R.AddEventStep(s.table, fd, ev, FiberWaiter(s.workers[w].f), up, CbWaiter);
    case Listen(w, fd, ev, up) => R.AddEventStep(s.table, fd, ev, CbWaiter, up, CbWaiter);
    case Close(w, fd, up) => R.CancelAllStep(s.table, fd, up, CbWaiter);
    case CloseFd(w, fd) => R.CloseKeepsMirrorIff(s.table, fd);
    case CancelWait(w, up) =>
      var pos := s.fibers[s.workers[w].f].pos;
      R.CancelEventStep(s.table, pos.fd, pos.ev, up, CbWaiter);
    case Idle(w, turn) =>
      if turn.Report? {
        R.HandleReportStep(s.table, turn.fd, turn.rep, turn.up, CbWaiter);
      }
    case _ =>
  }

  /** Changing what worker `w` does moves the count by its share. */
  lemma MoveBusy(ws: seq<Worker>, w: nat, k: Worker, active: int)
    requires w < |ws| && active == Tally(ws, Busy, ())
    ensures active + Busy(k, ()) - Busy(ws[w], ()) == Tally(ws[w := k], Busy, ())
  {
    TallyUpdate(ws, w, k, Busy, ());
  }

  lemma TakeActive(s: State, w: nat)
    requires s.active == Tally(s.workers, Busy, ()) && Enabled(s, Step.Take(w))
    ensures DoTake(s, w).active == Tally(DoTake(s, w).workers, Busy, ())
  {
    MoveBusy(s.workers, w, DoTake(s, w).workers[w], s.active);
  }

  lemma EnterActive(s: State, w: nat)
    requires s.active == Tally(s.workers, Busy, ()) && Enabled(s, Step.Enter(w))
    ensures DoEnter(s, w).active == Tally(DoEnter(s, w).workers, Busy, ())
  {
    MoveBusy(s.workers, w, DoEnter(s, w).workers[w], s.active);
  }

  lemma TurnActive(s: State, w: nat, turn: Turn)
    requires s.active == Tally(s.workers, Busy, ()) && TurnEnabled(s, w, turn)
    ensures DoTurn(s, w, turn).active == Tally(DoTurn(s, w, turn).workers, Busy, ())
  {
    var s' := DoTurn(s, w, turn);
    MoveBusy(s.workers, w, s'.workers[w], s.active);
    assert s'.workers == s.workers[w := s'.workers[w]];
  }

  lemma StepActive(s: State, step: Step)
    requires s.active == Tally(s.workers, Busy, ()) && Enabled(s, step)
    ensures Do(s, step).active == Tally(Do(s, step).workers, Busy, ())
  {
    match step
    case Take(w) => TakeActive(s, w);
    case Enter(w) => EnterActive(s, w);
    case Yield(w) => MoveBusy(s.workers, w, Returned(s.workers[w].f, s.workers[w].idleDone), s.active);
    case BareYield(w) => MoveBusy(s.workers, w, Returned(s.workers[w].f, s.workers[w].idleDone), s.active);
    case Terminate(w) => MoveBusy(s.workers, w, Returned(s.workers[w].f, s.workers[w].idleDone), s.active);
    case Unlock(w) => MoveBusy(s.workers, w, Finishing(s.workers[w].idleDone), s.active);
    case Finish(w) => MoveBusy(s.workers, w, Looking(s.workers[w].idleDone), s.active);
    case Idle(w, turn) => TurnActive(s, w, turn);
    case _ =>
  }
}
