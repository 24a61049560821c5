/** Shutdown: what stopping() says when it is read at one moment and when it is read piece by piece, and
    what is left when every worker is gone. */
module RuntimeShutdown {
  import opened Options
  import opened Sums
  import opened Runtime
  import opened RuntimeRuns
  import opened RuntimeSafety
  import opened RuntimeTimers
  import opened TimerRuns
  import R = Reactor
  import S = TimerSteps
  import T = Timers

  ghost predicate AllTerminated(s: State) {
    forall f :: 0 <= f < |s.fibers| ==> s.fibers[f].st == Term
  }

  /** Fiber `f` is suspended outside the queue: asleep, or waiting for an event. */
  ghost predicate Waits(s: State, f: nat) {
    Sleeping(s.timers.s, f) != {} || 0 < R.Standing(s.table, FiberWaiter(f))
  }

  ghost predicate NobodyWaits(s: State) {
    forall f: nat :: !Waits(s, f)
  }

  // ---------- The last read ----------

  /** With no task in anyone's hands, tokens are in the queue, in the event table or in the timer set. */
  lemma IdleTokens(s: State, f: nat)
    requires Safe(s) && s.active == 0
    ensures Tokens(s, f) == Tally(s.queue, TaskToken, f) + R.Standing(s.table, FiberWaiter(f)) + TimerToken(s.timers, f)
  {
    forall w | 0 <= w < |s.workers| ensures HandToken(s.workers[w], f) == 0 {
      TallySplit(s.workers, w, Busy, ());
    }
    TallyZero(s.workers, HandToken, f);
    forall g | 0 <= g < |s.fibers| ensures PosToken(s.fibers[g], f) == 0 {
      NobodyRuns(s, g);
    }
    TallyZero(s.fibers, PosToken, f);
  }

  /** A fiber is READY or TERM, and READY exactly while something is left that will wake it. */
  lemma IdleFiber(s: State, f: nat)
    requires Safe(s) && Parked(s) && s.active == 0 && f < |s.fibers|
    ensures s.fibers[f].st == Term || s.fibers[f].st == Ready
    ensures s.fibers[f].st == Term <==> Tally(s.queue, TaskToken, f) == 0 && !Waits(s, f)
  {
    NobodyRuns(s, f);
    IdleTokens(s, f);
    assert Tokens(s, f) == Owed(s, f);
  }

  /** Nothing waits for a fiber that does not exist. */
  lemma NoStranger(s: State, f: nat)
    requires Parked(s) && |s.fibers| <= f
    ensures !Waits(s, f)
  {
    assert Tokens(s, f) == Owed(s, f);
  }

  /** When stopping()'s last read succeeds, every fiber ever submitted has terminated if and only if no
      sleep timer is pending and no fiber waits in the event table, whatever the earlier reads saw. */
  lemma LastReadIff(s: State)
    requires Safe(s) && Parked(s) && s.queue == [] && s.active == 0
    ensures AllTerminated(s) <==> NobodyWaits(s)
  {
    forall f: nat
      ensures f < |s.fibers| ==> (s.fibers[f].st == Term <==> !Waits(s, f))
      ensures |s.fibers| <= f ==> !Waits(s, f)
    {
      if f < |s.fibers| {
        IdleFiber(s, f);
      } else {
        NoStranger(s, f);
      }
    }
  }

  // ---------- The reads at one moment ----------

  lemma NoTimersNoSleeper(s: State, f: nat)
    requires s.timers.s.pending == map[]
    ensures Sleeping(s.timers.s, f) == {}
  {
  }

  lemma NonePendingNoneStands(r: R.State<Waiter>, v: Waiter)
    requires R.Inv(r) && r.pending == 0
    ensures R.Standing(r, v) == 0
  {
    if 0 < R.Standing(r, v) {
      var i := TallyWitness(r.fds, R.Holds, v);
      assert R.Filled(r.fds[i]);
      TallySplit(r.fds, i, R.Bits, ());
    }
  }

  lemma NonePendingNoBits(r: R.State<Waiter>, fd: nat)
    requires R.Inv(r) && r.pending == 0
    ensures fd !in r.kernel && (fd < |r.fds| ==> !r.fds[fd].events.Any())
  {
    if fd < |r.fds| {
      TallySplit(r.fds, fd, R.Bits, ());
    }
  }

  /** If all of stopping() holds at one moment, every fiber ever submitted has terminated, no mutex is
      held and the kernel watches nothing. */
  lemma CleanShutdown(workers: nat, start: int, steps: seq<Step>)
    requires Admits(Init(workers, start), steps) && AllDisciplined(Init(workers, start), steps)
    requires Stopping(Run(Init(workers, start), steps))
    ensures var s := Run(Init(workers, start), steps);
            && AllTerminated(s) && (forall f :: 0 <= f < |s.fibers| ==> s.fibers[f].owner == None)
            && s.table.kernel == map[]
  {
    FromInit(workers, start, steps);
    var s := Run(Init(workers, start), steps);
    StoppingClean(s);
    forall f | 0 <= f < |s.fibers| ensures s.fibers[f].owner == None {
      NobodyHolds(s, f);
    }
    forall fd: nat ensures fd !in s.table.kernel {
      NonePendingNoBits(s.table, fd);
    }
  }

  lemma StoppingClean(s: State)
    requires Safe(s) && Parked(s) && Stopping(s)
    ensures AllTerminated(s)
  {
    forall f: nat ensures !Waits(s, f) {
      NoTimersNoSleeper(s, f);
      NonePendingNoneStands(s.table, FiberWaiter(f));
    }
    LastReadIff(s);
  }

  // ---------- The reads one after the other ----------

  /** No timer, pending or not, would reschedule a fiber. */
  ghost predicate NoSleeper(s: State) {
    forall id :: 0 <= id < |s.timers.s.all| ==> !IsSleeper(s.timers.s, id)
  }

  ghost predicate NoFiberRegistered(s: State) {
    forall f: nat :: R.Standing(s.table, FiberWaiter(f)) == 0
  }

  /** An empty set leaves no sleep timer anywhere. */
  lemma EmptySetNoSleeper(s: State)
    requires Timely(s) && s.timers.s.pending == map[]
    ensures NoSleeper(s)
  {
    forall id | 0 <= id < |s.timers.s.all|
      ensures !IsSleeper(s.timers.s, id)
    {
      assert !T.InSet(s.timers.s, id);
    }
  }

  lemma TimerOpNoSleeper(s: State, f: nat, op: S.Op<Callback>, now: int)
    requires NoSleeper(s) && MayUse(s, f, op) && S.Enabled(s.timers, op, now)
    ensures NoSleeper(DoTimer(s, op, now))
  {
    var s' := DoTimer(s, op, now);
    forall id | 0 <= id < |s'.timers.s.all|
      ensures !IsSleeper(s'.timers.s, id)
    {
      if id < |s.timers.s.all| {
        assert !IsSleeper(s.timers.s, id);
        CallbackKept(s.timers, op, now, id);
      }
    }
  }

  lemma ExpireNoSleeper(s: State, at: int, now: int)
    requires NoSleeper(s) && S.Enabled(s.timers, S.ExpireOp(at), now)
    ensures NoSleeper(DoExpire(s, at, now))
  {
    var t, r := s.timers.s.(previous := now), T.RolledOver(s.timers.s, now);
    var s' := DoExpire(s, at, now);
    DoExpireIs(s, at, now);
    ExpireLeaves(t, at, r);
    forall id | 0 <= id < |s'.timers.s.all|
      ensures !IsSleeper(s'.timers.s, id)
    {
      assert !IsSleeper(s.timers.s, id);
      ExpireTimers(t, at, r, id);
    }
  }

  /** Only a sleep makes a sleep timer. */
  lemma StepNoSleeper(s: State, step: Step)
    requires NoSleeper(s) && Enabled(s, step) && !step.Sleep?
    ensures NoSleeper(Do(s, step))
  {
    if step.UserTimer? {
      TimerOpNoSleeper(s, s.workers[step.w].f, step.op, step.now);
    } else if step.Idle? && step.turn.Expire? {
      ExpireNoSleeper(s, step.turn.at, step.turn.now);
    } else {
      OtherNoSleeper(s, step);
    }
  }

  lemma OtherNoSleeper(s: State, step: Step)
    requires NoSleeper(s) && Enabled(s, step)
    requires !step.Sleep? && !step.UserTimer? && !(step.Idle? && step.turn.Expire?)
    ensures NoSleeper(Do(s, step))
  {
    assert Do(s, step).timers.s.all == s.timers.s.all;
    forall id | 0 <= id < |s.timers.s.all|
      ensures !IsSleeper(Do(s, step).timers.s, id)
    {
      assert !IsSleeper(s.timers.s, id);
    }
  }

  /** Only addEvent for the running fiber registers a fiber. */
  lemma StepNoFiberRegistered(s: State, step: Step)
    requires Safe(s) && NoFiberRegistered(s) && Enabled(s, step) && !step.Await?
    ensures NoFiberRegistered(Do(s, step))
  {
    forall f: nat
      ensures R.Standing(Do(s, step).table, FiberWaiter(f)) == 0
    {
      assert R.Standing(s.table, FiberWaiter(f)) == 0;
      StandingFalls(s, step, f);
    }
  }

  lemma StandingFalls(s: State, step: Step, f: nat)
    requires Safe(s) && Enabled(s, step) && !step.Await?
    ensures R.Standing(Do(s, step).table, FiberWaiter(f)) <= R.Standing(s.table, FiberWaiter(f))
  {
    if step.Listen? {
      R.AddEventStep(s.table, step.fd, step.ev, CbWaiter, step.up, FiberWaiter(f));
    } else if step.Close? {
      R.CancelAllStep(s.table, step.fd, step.up, FiberWaiter(f));
    } else if step.CancelWait? {
      var pos := s.fibers[s.workers[step.w].f].pos;
      R.CancelEventStep(s.table, pos.fd, pos.ev, step.up, FiberWaiter(f));
    } else if step.Idle? && step.turn.Report? {
      R.HandleReportStep(s.table, step.turn.fd, step.turn.rep, step.turn.up, FiberWaiter(f));
    }
  }

  ghost predicate NoSleep(steps: seq<Step>) {
    forall i :: 0 <= i < |steps| ==> !steps[i].Sleep?
  }

  ghost predicate NoAwait(steps: seq<Step>) {
    forall i :: 0 <= i < |steps| ==> !steps[i].Await?
  }

  lemma {:induction false} RunNoSleeper(s: State, steps: seq<Step>)
    requires NoSleeper(s) && Admits(s, steps) && NoSleep(steps)
    ensures NoSleeper(Run(s, steps))
    decreases steps
  {
    if steps != [] {
      StepNoSleeper(s, steps[0]);
      RunNoSleeper(Do(s, steps[0]), steps[1..]);
    }
  }

  lemma {:induction false} RunNoFiberRegistered(s: State, steps: seq<Step>)
    requires Safe(s) && NoFiberRegistered(s) && Admits(s, steps) && NoAwait(steps)
    ensures NoFiberRegistered(Run(s, steps))
    decreases steps
  {
    if steps != [] {
      StepSafe(s, steps[0]);
      StepNoFiberRegistered(s, steps[0]);
      RunNoFiberRegistered(Do(s, steps[0]), steps[1..]);
    }
  }

  /** A run read at three moments: it passes stopping() when the timers were gone at the first, the
      pending count zero at the second and the queue done at the third. */
  ghost predicate PassesStopping(s: State, first: seq<Step>, second: seq<Step>) {
    && s.timers.s.pending == map[]
    && Admits(s, first) && AllDisciplined(s, first) && Run(s, first).table.pending == 0
    && Admits(Run(s, first), second) && AllDisciplined(Run(s, first), second)
    && QueueDone(Run(Run(s, first), second))
  }

  /** stopping() as the code reads it, over any disciplined run: the answer is right, every fiber having
      terminated, if and only if at the last read nobody sleeps and nobody waits for an event. It is right
      whenever no fiber went to sleep since the timers were read and none registered since the count was. */
  lemma StoppingExact(workers: nat, start: int, before: seq<Step>, first: seq<Step>, second: seq<Step>)
    requires Admits(Init(workers, start), before) && AllDisciplined(Init(workers, start), before)
    requires PassesStopping(Run(Init(workers, start), before), first, second)
    ensures var c := Run(Run(Run(Init(workers, start), before), first), second);
            && (AllTerminated(c) <==> NobodyWaits(c))
            && (NoSleep(first) && NoSleep(second) && NoAwait(second) ==> AllTerminated(c))
  {
    FromInit(workers, start, before);
    var a := Run(Init(workers, start), before);
    var b := Run(a, first);
    RunSound(a, first);
    var c := Run(b, second);
    RunSound(b, second);
    LastReadIff(c);
    if NoSleep(first) && NoSleep(second) && NoAwait(second) {
      NobodySince(a, first, second);
    }
  }

  lemma NobodySleeps(s: State, f: nat)
    requires NoSleeper(s)
    ensures Sleeping(s.timers.s, f) == {}
  {
    forall id: nat
      ensures id !in Sleeping(s.timers.s, f)
    {
      assert id < |s.timers.s.all| ==> !IsSleeper(s.timers.s, id);
    }
  }

  lemma NobodySince(a: State, first: seq<Step>, second: seq<Step>)
    requires Sound(a) && PassesStopping(a, first, second) && Safe(Run(a, first))
    requires NoSleep(first) && NoSleep(second) && NoAwait(second)
    ensures NobodyWaits(Run(Run(a, first), second))
  {
    var b := Run(a, first);
    var c := Run(b, second);
    EmptySetNoSleeper(a);
    RunNoSleeper(a, first);
    RunNoSleeper(b, second);
    forall f: nat ensures R.Standing(b.table, FiberWaiter(f)) == 0 {
      NonePendingNoneStands(b.table, FiberWaiter(f));
    }
    RunNoFiberRegistered(b, second);
    forall f: nat
      ensures !Waits(c, f)
    {
      assert R.Standing(c.table, FiberWaiter(f)) == 0;
      NobodySleeps(c, f);
    }
  }

  // ---------- After shutdown ----------

  /** Something is left that would put fiber `f` on a worker. */
  ghost predicate Awaited(s: State, f: nat) {
    0 < Tally(s.queue, TaskToken, f) || Waits(s, f)
  }

  predicate AllExited(s: State) {
    forall w :: 0 <= w < |s.workers| ==> s.workers[w] == Exited
  }

  /** What is left when every worker is gone: a fiber that has not terminated is queued with nobody to take
      it, asleep with nobody to collect its timer, or waiting with nobody to poll. */
  lemma ExitedIff(workers: nat, start: int, steps: seq<Step>)
    requires Admits(Init(workers, start), steps) && AllDisciplined(Init(workers, start), steps)
    ensures var s := Run(Init(workers, start), steps);
            AllExited(s) ==> s.active == 0 && (AllTerminated(s) <==> forall f: nat :: !Awaited(s, f))
  {
    FromInit(workers, start, steps);
    if AllExited(Run(Init(workers, start), steps)) {
      ExitedMeans(Run(Init(workers, start), steps));
    }
  }

  lemma ExitedMeans(s: State)
    requires Safe(s) && Parked(s) && AllExited(s)
    ensures s.active == 0 && (AllTerminated(s) <==> forall f: nat :: !Awaited(s, f))
  {
    TallyZero(s.workers, Busy, ());
    NothingLeft(s);
  }

  lemma NothingLeft(s: State)
    requires Safe(s) && Parked(s) && s.active == 0
    ensures AllTerminated(s) <==> forall f: nat :: !Awaited(s, f)
  {
    forall f: nat
      ensures f < |s.fibers| ==> (s.fibers[f].st == Term <==> !Awaited(s, f))
      ensures |s.fibers| <= f ==> !Awaited(s, f)
    {
      if f < |s.fibers| {
        IdleFiber(s, f);
      } else {
        assert Tokens(s, f) == Owed(s, f);
      }
    }
  }

  /** A task comes from outside, or from code that schedules an existing fiber. */
  predicate Submits(step: Step) {
    step.Submit? || step.SubmitCb? || step.Reschedule?
  }

  /** Once nothing is left, only a submission can change that. */
  lemma StepStaysStopped(s: State, step: Step)
    requires Safe(s) && Stopping(s) && Enabled(s, step) && !Submits(step)
    ensures Stopping(Do(s, step)) && Do(s, step).fibers == s.fibers
  {
    NobodyBusy(s);
    if step.Idle? {
      TurnStaysStopped(s, step.w, step.turn);
    }
  }

  lemma NobodyBusy(s: State)
    requires Safe(s) && s.active == 0
    ensures forall w :: 0 <= w < |s.workers| ==> Busy(s.workers[w], ()) == 0
  {
    forall w | 0 <= w < |s.workers| ensures Busy(s.workers[w], ()) == 0 {
      TallySplit(s.workers, w, Busy, ());
    }
  }

  lemma TurnStaysStopped(s: State, w: nat, turn: Turn)
    requires Safe(s) && Stopping(s) && TurnEnabled(s, w, turn)
    ensures Stopping(DoTurn(s, w, turn)) && DoTurn(s, w, turn).fibers == s.fibers
  {
    if turn.Report? {
      NonePendingNoBits(s.table, turn.fd);
    }
  }

  ghost predicate NoSubmit(steps: seq<Step>) {
    forall i :: 0 <= i < |steps| ==> !Submits(steps[i])
  }

  /** When all of stopping() holds at some moment and nothing is submitted from then on, it holds ever after
      and every fiber has terminated: no worker that goes on or exits later finds anything to do. */
  lemma {:induction false} StoppedForGood(s: State, steps: seq<Step>)
    requires Safe(s) && AllTerminated(s) && Stopping(s) && Admits(s, steps) && NoSubmit(steps)
    ensures Stopping(Run(s, steps)) && AllTerminated(Run(s, steps))
    decreases steps
  {
    if steps != [] {
      StepStaysStopped(s, steps[0]);
      StepSafe(s, steps[0]);
      StoppedForGood(Do(s, steps[0]), steps[1..]);
    }
  }

  /** ... in particular from where a disciplined run first gets there. */
  lemma StoppedStays(workers: nat, start: int, before: seq<Step>, steps: seq<Step>)
    requires Admits(Init(workers, start), before) && AllDisciplined(Init(workers, start), before)
    requires var s := Run(Init(workers, start), before); Stopping(s) && Admits(s, steps) && NoSubmit(steps)
    ensures var t := Run(Run(Init(workers, start), before), steps); Stopping(t) && AllTerminated(t)
  {
    FromInit(workers, start, before);
    var s := Run(Init(workers, start), before);
    StoppingClean(s);
    StoppedForGood(s, steps);
  }
}
