/** The workers never block one another for good: a mutex is only ever held by a worker that can go on. */
module RuntimeProgress {
  import opened Options
  import opened Runtime
  import opened RuntimeSafety
  import opened RuntimeTimers
  import opened RuntimeTokens
  import opened RuntimeRuns

  /** The steps of worker `w`; the others come from outside the workers. */
  predicate StepOf(step: Step, w: nat) {
    match step
    case Submit(_) => false
    case SubmitCb(_) => false
    case Reschedule(_, _) => false
    case RequestStop => false
    case _ => step.w == w
  }

  ghost predicate CanMove(s: State, w: nat) {
    exists step :: StepOf(step, w) && Enabled(s, step)
  }

  /** `w` has taken a fiber whose mutex `v` holds. */
  predicate WaitsFor(s: State, w: nat, v: nat) {
    && w < |s.workers| && v < |s.workers| && v != w
    && s.workers[w].Holding? && s.workers[w].task.job.FiberJob?
    && s.workers[w].task.job.f < |s.fibers| && s.fibers[s.workers[w].task.job.f].owner == Some(v)
  }

  /** A worker in a fiber, or just out of one, can go on: every place a fiber can stand at has a way on. */
  lemma HolderMoves(s: State, w: nat)
    requires Safe(s) && w < |s.workers| && HoldsMutex(s.workers[w])
    ensures CanMove(s, w)
  {
    assert WorkerOk(s.fibers, s.workers, w);
    if s.workers[w].Returned? {
      assert StepOf(Unlock(w), w) && Enabled(s, Unlock(w));
    } else {
      var step := match s.fibers[s.workers[w].f].pos
        case InCode => Terminate(w)
        case AboutToYield => Step.Yield(w)
        case AtWake(_) => WakeSleeper(w)
        case AtCancel(_, _, _) => SkipCancel(w);
      assert StepOf(step, w) && Enabled(s, step);
    }
  }

  /** A worker outside the fibers can go on unless it waits for a mutex. */
  lemma OthersMove(s: State, w: nat)
    requires Safe(s) && w < |s.workers| && !HoldsMutex(s.workers[w]) && !s.workers[w].Exited?
    requires s.workers[w].Holding? && s.workers[w].task.job.FiberJob? ==>
      s.workers[w].task.job.f < |s.fibers| && s.fibers[s.workers[w].task.job.f].owner == None
    ensures CanMove(s, w)
  {
    var step := match s.workers[w]
      case Looking(_) => Step.Take(w)
      case Holding(_, _) => Enter(w)
      case Finishing(_) => Step.Finish(w)
      case Idling(NoTimers) => Idle(w, ReadPending)
      case Idling(NothingPending) => Idle(w, ReadQueue)
      case _ => Idle(w, ReadTimers);
    assert StepOf(step, w) && Enabled(s, step);
  }

  /** Where every fiber has the tokens it needs, a worker that has not exited can go on, or waits for the mutex
      of a worker that can. */
  lemma WorkerMoves(s: State, w: nat)
    requires Safe(s) && Parked(s) && w < |s.workers| && !s.workers[w].Exited?
    ensures CanMove(s, w) || exists v :: WaitsFor(s, w, v) && CanMove(s, v)
  {
    var k := s.workers[w];
    if HoldsMutex(k) {
      HolderMoves(s, w);
    } else if k.Holding? && k.task.job.FiberJob? {
      var f := k.task.job.f;
      HeldIsReady(s, w, f);
      assert FiberOk(s.fibers, s.workers, f);
      if s.fibers[f].owner.Some? {
        var v := s.fibers[f].owner.value;
        HolderMoves(s, v);
        assert WaitsFor(s, w, v);
      } else {
        OthersMove(s, w);
      }
    } else {
      OthersMove(s, w);
    }
  }

  /** No deadlock: in a disciplined run no worker is ever stuck, however the mutexes are held. */
  lemma NoDeadlock(workers: nat, start: int, steps: seq<Step>, w: nat)
    requires Admits(Init(workers, start), steps) && AllDisciplined(Init(workers, start), steps)
    requires w < |Run(Init(workers, start), steps).workers|
    requires !Run(Init(workers, start), steps).workers[w].Exited?
    ensures var s := Run(Init(workers, start), steps);
      CanMove(s, w) || exists v :: WaitsFor(s, w, v) && CanMove(s, v)
  {
    FromInit(workers, start, steps);
    WorkerMoves(Run(Init(workers, start), steps), w);
  }
}
