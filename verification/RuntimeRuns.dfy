/** The runtime over whole runs and every interleaving: no fiber on two workers, exactly one wake
    token per suspended fiber, and where each premise is needed. */
module RuntimeRuns {
  import opened Options
  import opened Sums
  import opened Runtime
  import opened RuntimeSafety
  import opened RuntimeTimers
  import opened RuntimeTokens
  import R = Reactor
  import S = TimerSteps
  import T = Timers

  /** Each step is enabled when it is taken. */
  ghost predicate Admits(s: State, steps: seq<Step>)
    decreases steps
  {
    steps == [] || (Enabled(s, steps[0]) && Admits(Do(s, steps[0]), steps[1..]))
  }

  ghost function Run(s: State, steps: seq<Step>): State
    requires Admits(s, steps)
    decreases steps
  {
    if steps == [] then s else Run(Do(s, steps[0]), steps[1..])
  }

  ghost predicate AllDisciplined(s: State, steps: seq<Step>)
    requires Admits(s, steps)
    decreases steps
  {
    steps == [] || (Disciplined(s, steps[0]) && AllDisciplined(Do(s, steps[0]), steps[1..]))
  }

  /** What a disciplined run keeps. */
  ghost predicate Sound(s: State) {
    Safe(s) && Timely(s) && Parked(s)
  }

  lemma InitSafe(workers: nat, start: int)
    ensures Safe(Init(workers, start))
  {
    var s := Init(workers, start);
    R.InitInv<Waiter>();
    TallyZero(s.workers, Busy, ());
    assert forall w :: 0 <= w < |s.workers| ==> WorkerOk(s.fibers, s.workers, w);
  }

  lemma InitTimely(workers: nat, start: int)
    ensures Timely(Init(workers, start)) && S.Balanced(Init(workers, start).timers)
  {
  }

  lemma InitTokens(workers: nat, start: int, f: nat)
    ensures var s := Init(workers, start); Tokens(s, f) == Owed(s, f)
  {
    var s := Init(workers, start);
    TallyZero(s.workers, HandToken, f);
    R.InitStanding(FiberWaiter(f));
    assert Sleeping(s.timers.s, f) == {};
  }

  lemma InitSound(workers: nat, start: int)
    ensures Sound(Init(workers, start))
  {
    InitSafe(workers, start);
    InitTimely(workers, start);
    forall f: nat ensures Tokens(Init(workers, start), f) == Owed(Init(workers, start), f) {
      InitTokens(workers, start, f);
    }
  }

  lemma {:induction false} RunSafe(s: State, steps: seq<Step>)
    requires Safe(s) && Admits(s, steps)
    ensures Safe(Run(s, steps))
    decreases steps
  {
    if steps != [] {
      StepSafe(s, steps[0]);
      RunSafe(Do(s, steps[0]), steps[1..]);
    }
  }

  lemma StepSound(s: State, step: Step)
    requires Sound(s) && Enabled(s, step) && Disciplined(s, step)
    ensures Sound(Do(s, step))
  {
    StepSafe(s, step);
    StepTimely(s, step);
    forall f: nat ensures Tokens(Do(s, step), f) == Owed(Do(s, step), f) {
      StepTokens(s, step, f);
    }
  }

  lemma {:induction false} RunSound(s: State, steps: seq<Step>)
    requires Sound(s) && Admits(s, steps) && AllDisciplined(s, steps)
    ensures Sound(Run(s, steps))
    decreases steps
  {
    if steps != [] {
      StepSound(s, steps[0]);
      RunSound(Do(s, steps[0]), steps[1..]);
    }
  }

  /** Worker `w` is inside fiber `f` and holds its mutex. */
  predicate RunsOn(s: State, f: int, w: int) {
    && 0 <= f < |s.fibers| && 0 <= w < |s.workers|
    && s.workers[w].InFiber? && s.workers[w].f == f && s.fibers[f].owner == Some(w)
  }

  /** A fiber runs on at most one worker, that worker holds its mutex, and whoever locks a fiber's mutex
      finds it READY or TERM. */
  ghost predicate Exclusive(s: State) {
    && (forall f :: 0 <= f < |s.fibers| && s.fibers[f].st == Running ==> exists w :: RunsOn(s, f, w))
    && (forall v, w :: 0 <= v < w < |s.workers| && s.workers[v].InFiber? && s.workers[w].InFiber? ==>
          s.workers[v].f != s.workers[w].f)
    && (forall f :: 0 <= f < |s.fibers| && s.fibers[f].owner == None ==> s.fibers[f].st != Running)
  }

  lemma SafeExclusive(s: State)
    requires Locked(s.fibers, s.workers)
    ensures Exclusive(s)
  {
    forall f | 0 <= f < |s.fibers| && s.fibers[f].st == Running
      ensures exists w :: RunsOn(s, f, w)
    {
      assert FiberOk(s.fibers, s.workers, f);
      var w := s.fibers[f].owner.value;
      assert WorkerOk(s.fibers, s.workers, w);
      assert RunsOn(s, f, w);
    }
    forall f | 0 <= f < |s.fibers| && s.fibers[f].owner == None ensures s.fibers[f].st != Running {
      assert FiberOk(s.fibers, s.workers, f);
    }
    forall v, w | 0 <= v < w < |s.workers| && s.workers[v].InFiber? && s.workers[w].InFiber?
      ensures s.workers[v].f != s.workers[w].f
    {
      assert WorkerOk(s.fibers, s.workers, v) && WorkerOk(s.fibers, s.workers, w);
    }
  }

  lemma SafeCounts(s: State)
    requires Safe(s)
    ensures 0 <= s.active && 0 <= s.table.pending && R.Mirror(s.table.fds, s.table.kernel)
  {
  }

  /** In every interleaving, user code that reschedules fibers or yields at will included: a fiber runs on at
      most one worker, which holds its mutex, and resume's assertion holds. The counters never underflow and
      the kernel mirrors the event bits. */
  lemma NoFiberRunsTwice(workers: nat, start: int, steps: seq<Step>)
    requires Admits(Init(workers, start), steps)
    ensures var s := Run(Init(workers, start), steps);
            Exclusive(s) && 0 <= s.active && 0 <= s.table.pending && R.Mirror(s.table.fds, s.table.kernel)
  {
    InitSafe(workers, start);
    RunSafe(Init(workers, start), steps);
    SafeExclusive(Run(Init(workers, start), steps));
    SafeCounts(Run(Init(workers, start), steps));
  }

  lemma FromInit(workers: nat, start: int, steps: seq<Step>)
    requires Admits(Init(workers, start), steps) && AllDisciplined(Init(workers, start), steps)
    ensures Sound(Run(Init(workers, start), steps))
  {
    InitSound(workers, start);
    RunSound(Init(workers, start), steps);
  }

  /** In a run whose user code suspends by the hooked calls only, whose sleeps meet no taken deadline, and
      whose operations on user timers take out no sleeper's entry, every suspended fiber has exactly one wake
      token in every reachable state, and a terminated one has none. */
  lemma OneWakeToken(workers: nat, start: int, steps: seq<Step>, f: nat)
    requires Admits(Init(workers, start), steps) && AllDisciplined(Init(workers, start), steps)
    ensures var s := Run(Init(workers, start), steps);
            && (f < |s.fibers| && s.fibers[f].st == Ready ==> Tokens(s, f) == 1)
            && (f < |s.fibers| && s.fibers[f].st == Term ==> Tokens(s, f) == 0)
            && Tokens(s, f) <= 1
  {
    FromInit(workers, start, steps);
    ParkedMeans(Run(Init(workers, start), steps), f);
  }

  lemma ParkedMeans(s: State, f: nat)
    requires Parked(s)
    ensures f < |s.fibers| && s.fibers[f].st == Ready ==> Tokens(s, f) == 1
    ensures f < |s.fibers| && s.fibers[f].st == Term ==> Tokens(s, f) == 0
    ensures Tokens(s, f) <= 1
  {
    assert Tokens(s, f) == Owed(s, f);
  }

  lemma NobodyRuns(s: State, g: nat)
    requires Safe(s) && s.active == 0 && g < |s.fibers|
    ensures s.fibers[g].st != Running && s.fibers[g].pos == InCode
  {
    assert FiberOk(s.fibers, s.workers, g);
    if s.fibers[g].st == Running {
      var w := s.fibers[g].owner.value;
      assert WorkerOk(s.fibers, s.workers, w);
      TallySplit(s.workers, w, Busy, ());
    }
  }

  lemma NobodyHolds(s: State, g: nat)
    requires Safe(s) && s.active == 0 && g < |s.fibers|
    ensures s.fibers[g].owner == None
  {
    assert FiberOk(s.fibers, s.workers, g);
    if s.fibers[g].owner.Some? {
      TallySplit(s.workers, s.fibers[g].owner.value, Busy, ());
    }
  }

  // ---------- Exactly when ----------

  /** A sleeper keeps its token exactly when its deadline is not already in the timer set. */
  lemma SleepNeedsFreeDeadline(s: State, w: nat, ms: nat, now: int)
    requires Safe(s) && T.WF(s.timers.s) && Parked(s) && Enabled(s, Sleep(w, ms, now))
    ensures Parked(Do(s, Sleep(w, ms, now))) <==> T.Later(now, ms) !in s.timers.s.pending
  {
    var s' := Do(s, Sleep(w, ms, now));
    forall g: nat
      ensures Tokens(s', g) == Owed(s', g) <==> (g != s.workers[w].f || T.Later(now, ms) !in s.timers.s.pending)
    {
      assert Tokens(s, g) == Owed(s, g);
      SleepTokens(s, w, ms, now, g);
    }
    assert Tokens(s', s.workers[w].f) == Owed(s', s.workers[w].f) <==> T.Later(now, ms) !in s.timers.s.pending;
  }

  /** An operation on a user timer keeps the balance exactly when it takes out no sleeper's entry, whatever
      deadlines it meets or leaves. */
  lemma UserTimerParkedIff(s: State, w: nat, op: S.Op<Callback>, now: int)
    requires Lean(s) && Parked(s) && Enabled(s, UserTimer(w, op, now))
    ensures Parked(Do(s, UserTimer(w, op, now))) <==> !TakesSleeper(s.timers.s, op)
  {
    var s', t := DoTimer(s, op, now), s.timers.s;
    forall g: nat
      ensures Tokens(s', g) == Owed(s', g) <==> !TakesSleeperOf(t, op, g)
    {
      assert Tokens(s, g) == Owed(s, g);
      UserTimerTokens(s, s.workers[w].f, op, now, g);
    }
    if TakesSleeper(t, op) {
      var g := t.all[t.pending[t.all[op.id].next]].cb.value.f;
      assert TakesSleeperOf(t, op, g);
      assert Tokens(s', g) != Owed(s', g);
    }
  }

  /** User code that schedules a fiber a second time always leaves one token too many. */
  lemma RescheduleBreaksParking(s: State, f: nat, thread: int)
    requires Parked(s) && f < |s.fibers|
    ensures !Parked(Do(s, Reschedule(f, thread)))
  {
    assert Tokens(s, f) == Owed(s, f);
    PushShare(s, FiberJob(f), thread, f);
    assert Tokens(Do(s, Reschedule(f, thread)), f) == Owed(s, f) + 1;
  }

  /** ... and a fiber that yields with nothing to wake it always one too few. */
  lemma BareYieldBreaksParking(s: State, w: nat)
    requires Safe(s) && Parked(s) && Enabled(s, BareYield(w))
    ensures !Parked(Do(s, BareYield(w)))
  {
    var f := s.workers[w].f;
    assert Tokens(s, f) == Owed(s, f);
    Inside(s, w);
    LeaveShare(s, w, Ready, f);
    assert Tokens(Do(s, BareYield(w)), f) != Owed(Do(s, BareYield(w)), f);
  }

  /** Every step: the balance of tokens survives exactly the steps that spare it. */
  lemma StepParkedIff(s: State, step: Step)
    requires Safe(s) && Lean(s) && Parked(s) && Enabled(s, step)
    ensures Parked(Do(s, step)) <==> Spares(s, step)
  {
    if step.Reschedule? {
      RescheduleBreaksParking(s, step.f, step.thread);
    } else if step.BareYield? {
      BareYieldBreaksParking(s, step.w);
    } else if step.UserTimer? {
      UserTimerParkedIff(s, step.w, step.op, step.now);
    } else if step.Sleep? {
      SleepNeedsFreeDeadline(s, step.w, step.ms, step.now);
    } else {
      forall f: nat ensures Tokens(Do(s, step), f) == Owed(Do(s, step), f) {
        StepTokens(s, step, f);
      }
    }
  }

  ghost predicate AllKeyed(s: State, steps: seq<Step>)
    requires Admits(s, steps)
    decreases steps
  {
    steps == [] || (Keyed(s, steps[0]) && AllKeyed(Do(s, steps[0]), steps[1..]))
  }

  ghost predicate AllSpare(s: State, steps: seq<Step>)
    requires Admits(s, steps)
    decreases steps
  {
    steps == [] || (Spares(s, steps[0]) && AllSpare(Do(s, steps[0]), steps[1..]))
  }

  /** In every state of the run each fiber has exactly the tokens it needs. */
  ghost predicate ParkedThroughout(s: State, steps: seq<Step>)
    requires Admits(s, steps)
    decreases steps
  {
    Parked(s) && (steps == [] || ParkedThroughout(Do(s, steps[0]), steps[1..]))
  }

  /** Over any run whose resets change no deadline inside the set, every fiber has exactly the tokens it needs
      in every state if and only if every step spares the sleepers: no existing fiber is scheduled by user
      code, none yields with nothing to wake it, no sleep meets a taken deadline, and no cancel, refresh or
      reset finds a sleeper's entry under the deadline of another timer. */
  lemma {:induction false} RunParkedIff(s: State, steps: seq<Step>)
    requires Safe(s) && Lean(s) && Parked(s) && Admits(s, steps) && AllKeyed(s, steps)
    ensures ParkedThroughout(s, steps) <==> AllSpare(s, steps)
    decreases steps
  {
    if steps != [] {
      StepSafe(s, steps[0]);
      StepLean(s, steps[0]);
      StepParkedIff(s, steps[0]);
      if Spares(s, steps[0]) {
        RunParkedIff(Do(s, steps[0]), steps[1..]);
      } else {
        assert !ParkedThroughout(Do(s, steps[0]), steps[1..]);
      }
    }
  }

  /** The same from the start. */
  lemma TokensExactIff(workers: nat, start: int, steps: seq<Step>)
    requires Admits(Init(workers, start), steps) && AllKeyed(Init(workers, start), steps)
    ensures ParkedThroughout(Init(workers, start), steps) <==> AllSpare(Init(workers, start), steps)
  {
    InitSound(workers, start);
    RunParkedIff(Init(workers, start), steps);
  }

  // ---------- Free deadlines and undisturbed resets are enough ----------

  ghost predicate Hooked(step: Step) {
    !step.Reschedule? && !step.BareYield?
  }

  ghost predicate AllUndisturbed(s: State, steps: seq<Step>)
    requires Admits(s, steps)
    decreases steps
  {
    steps == []
    || (T.WF(s.timers.s) && Undisturbed(s, steps[0]) && Hooked(steps[0])
        && AllUndisturbed(Do(s, steps[0]), steps[1..]))
  }

  lemma UndisturbedStep(s: State, step: Step)
    requires Lean(s) && S.Balanced(s.timers) && Enabled(s, step) && Undisturbed(s, step) && Hooked(step)
    ensures Disciplined(s, step)
  {
    if step.UserTimer? {
      S.TidyNeverRekeys(s.timers, step.op, step.now);
      BalancedSpares(s, step.op);
    }
  }

  /** When every insertion finds its deadline free and nobody cancels or moves a timer between the sections of
      its reset, no operation takes a sleeper out. */
  lemma {:induction false} UndisturbedIsDisciplined(s: State, steps: seq<Step>)
    requires Lean(s) && S.Balanced(s.timers) && Admits(s, steps) && AllUndisturbed(s, steps)
    ensures AllDisciplined(s, steps)
    decreases steps
  {
    if steps != [] {
      UndisturbedStep(s, steps[0]);
      StepLean(s, steps[0]);
      StepBalancedIff(s, steps[0]);
      UndisturbedIsDisciplined(Do(s, steps[0]), steps[1..]);
    }
  }
}
