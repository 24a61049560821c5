/** Runs that show where a premise of the runtime's theorems is needed. */
module RuntimeWitnesses {
  import opened Options
  import opened Runtime
  import opened RuntimeRuns
  import opened RuntimeSafety
  import opened RuntimeShutdown
  import opened RuntimeTimers
  import opened RuntimeTokens
  import Q = TaskQueue
  import R = Reactor
  import S = TimerSteps
  import T = Timers

  /** One step of a run of hooked calls that finds its deadlines free and disturbs no reset. */
  ghost predicate Leads(s: State, step: Step, t: State) {
    && Enabled(s, step) && T.WF(s.timers.s) && Undisturbed(s, step) && Hooked(step)
    && Do(s, step) == t
  }

  ghost predicate Path(states: seq<State>, steps: seq<Step>) {
    |states| == |steps| + 1 && forall i :: 0 <= i < |steps| ==> Leads(states[i], steps[i], states[i + 1])
  }

  /** Such a run from `s` to `t`. */
  ghost predicate Goes(s: State, steps: seq<Step>, t: State) {
    exists states :: Path(states, steps) && states[0] == s && states[|steps|] == t
  }

  lemma GoesNowhere(s: State)
    ensures Goes(s, [], s)
  {
    assert Path([s], []) && [s][0] == s;
  }

  lemma GoesOn(s: State, steps: seq<Step>, m: State, step: Step, t: State)
    requires Goes(s, steps, m) && Leads(m, step, t)
    ensures Goes(s, steps + [step], t)
  {
    var states :| Path(states, steps) && states[0] == s && states[|steps|] == m;
    var more := states + [t];
    forall i | 0 <= i < |steps + [step]|
      ensures Leads(more[i], (steps + [step])[i], more[i + 1])
    {
      if i < |steps| {
        assert Leads(states[i], steps[i], states[i + 1]);
      }
    }
    assert Path(more, steps + [step]) && more[0] == s && more[|steps + [step]|] == t;
  }

  lemma {:induction false} PathRuns(states: seq<State>, steps: seq<Step>)
    requires Path(states, steps)
    ensures Admits(states[0], steps) && AllUndisturbed(states[0], steps)
    ensures Run(states[0], steps) == states[|steps|]
    decreases steps
  {
    if steps != [] {
      assert Leads(states[0], steps[0], states[1]);
      var rest := states[1..];
      forall i | 0 <= i < |steps[1..]|
        ensures Leads(rest[i], steps[1..][i], rest[i + 1])
      {
        assert Leads(states[i + 1], steps[i + 1], states[i + 2]);
      }
      PathRuns(rest, steps[1..]);
    }
  }

  lemma GoesRuns(s: State, steps: seq<Step>, t: State)
    requires Goes(s, steps, t) && Lean(s) && S.Balanced(s.timers)
    ensures Admits(s, steps) && AllUndisturbed(s, steps) && AllDisciplined(s, steps) && Run(s, steps) == t
  {
    var states :| Path(states, steps) && states[0] == s && states[|steps|] == t;
    PathRuns(states, steps);
    UndisturbedIsDisciplined(s, steps);
  }

  lemma FromStart(workers: nat, start: int, steps: seq<Step>, t: State)
    requires Goes(Init(workers, start), steps, t)
    ensures var s := Init(workers, start);
      Admits(s, steps) && AllUndisturbed(s, steps) && AllDisciplined(s, steps) && Run(s, steps) == t
  {
    InitTimely(workers, start);
    GoesRuns(Init(workers, start), steps, t);
  }

  // ---------- Pieces of runs ----------

  function TaskOf(f: nat): Q.Task<Job> {
    Q.Task(FiberJob(f), -1)
  }

  const FRESH := Fiber(Ready, None, InCode)

  /** Worker `w` looks for work and finds the task of fiber `f`, which is new. */
  predicate Waiting(m: State, w: nat, f: nat, rest: seq<Q.Task<Job>>) {
    && w < |m.workers| && m.workers[w].Looking? && f < |m.fibers| && m.fibers[f] == FRESH
    && m.queue == [TaskOf(f)] + rest
  }

  function Started(m: State, w: nat, f: nat, rest: seq<Q.Task<Job>>): State
    requires Waiting(m, w, f, rest)
  {
    m.(fibers := m.fibers[f := Fiber(Running, Some(w), InCode)], queue := rest, active := m.active + 1,
       workers := m.workers[w := InFiber(f, m.workers[w].idleDone)])
  }

  /** It takes the task and enters the fiber. */
  lemma StartFiber(s: State, before: seq<Step>, m: State, w: nat, f: nat, rest: seq<Q.Task<Job>>)
    requires Goes(s, before, m) && T.WF(m.timers.s) && Waiting(m, w, f, rest)
    ensures Goes(s, before + [Step.Take(w)] + [Enter(w)], Started(m, w, f, rest))
  {
    var k := Holding(TaskOf(f), m.workers[w].idleDone);
    var held := m.(queue := rest, active := m.active + 1, workers := m.workers[w := k]);
    assert Q.Without([TaskOf(f)] + rest, 0) == rest;
    GoesOn(s, before, m, Step.Take(w), held);
    var x := InFiber(f, k.idleDone);
    assert m.workers[w := k][w := x] == m.workers[w := x];
    GoesOn(s, before + [Step.Take(w)], held, Enter(w), Started(m, w, f, rest));
  }

  /** Worker `w` is in fiber `f`. */
  predicate IsIn(m: State, w: nat, f: nat) {
    && w < |m.workers| && m.workers[w].InFiber? && m.workers[w].f == f
    && f < |m.fibers| && m.fibers[f] == Fiber(Running, Some(w), InCode)
  }

  ghost function Slept(m: State, w: nat, f: nat, ms: nat, now: int): State
    requires IsIn(m, w, f)
  {
    m.(timers := DoSleep(m, f, ms, now).timers, fibers := m.fibers[f := Fiber(Ready, Some(w), InCode)],
       workers := m.workers[w := Returned(f, m.workers[w].idleDone)])
  }

  /** The fiber goes to sleep at a free deadline and yields. */
  lemma SleepIn(s: State, before: seq<Step>, m: State, w: nat, f: nat, ms: nat, now: int)
    requires Goes(s, before, m) && T.WF(m.timers.s) && IsIn(m, w, f)
    requires T.Later(now, ms) !in m.timers.s.pending
    ensures Goes(s, before + [Sleep(w, ms, now)] + [Yield(w)], Slept(m, w, f, ms, now))
    ensures T.WF(Slept(m, w, f, ms, now).timers.s)
  {
    var parking := SetPos(DoSleep(m, f, ms, now), w, AboutToYield);
    GoesOn(s, before, m, Sleep(w, ms, now), parking);
    var x := Fiber(Ready, Some(w), InCode);
    assert parking.fibers[f := x] == m.fibers[f := x];
    S.WFIff(m.timers, SleepOp(f, ms), now);
    GoesOn(s, before + [Sleep(w, ms, now)], parking, Yield(w), Slept(m, w, f, ms, now));
  }

  function Left(m: State, w: nat, f: nat): State
    requires w < |m.workers| && m.workers[w].Returned? && f < |m.fibers|
  {
    m.(fibers := m.fibers[f := FRESH], active := m.active - 1,
       workers := m.workers[w := Looking(m.workers[w].idleDone)])
  }

  /** The worker releases the fiber's mutex and finishes the task. */
  lemma LeaveFrom(s: State, before: seq<Step>, m: State, w: nat, f: nat)
    requires Goes(s, before, m) && T.WF(m.timers.s) && w < |m.workers| && f < |m.fibers|
    requires m.workers[w].Returned? && m.workers[w].f == f && m.fibers[f] == Fiber(Ready, Some(w), InCode)
    ensures Goes(s, before + [Unlock(w)] + [Step.Finish(w)], Left(m, w, f))
  {
    var k := Finishing(m.workers[w].idleDone);
    var freed := m.(fibers := m.fibers[f := FRESH], workers := m.workers[w := k]);
    GoesOn(s, before, m, Unlock(w), freed);
    var x := Looking(k.idleDone);
    assert m.workers[w := k][w := x] == m.workers[w := x];
    GoesOn(s, before + [Unlock(w)], freed, Step.Finish(w), Left(m, w, f));
  }

  ghost function SleptAndLeft(m: State, w: nat, f: nat, rest: seq<Q.Task<Job>>, ms: nat, now: int): State {
    m.(queue := rest, timers := DoSleep(m, f, ms, now).timers)
  }

  /** All of it: the fiber is run up to its sleep, and its worker looks for work again. */
  lemma RunToSleep(s: State, before: seq<Step>, m: State, w: nat, f: nat, rest: seq<Q.Task<Job>>, ms: nat, now: int)
    returns (steps: seq<Step>)
    requires Goes(s, before, m) && T.WF(m.timers.s) && Waiting(m, w, f, rest)
    requires T.Later(now, ms) !in m.timers.s.pending
    ensures Goes(s, steps, SleptAndLeft(m, w, f, rest, ms, now))
    ensures T.WF(SleptAndLeft(m, w, f, rest, ms, now).timers.s)
    ensures Waits(SleptAndLeft(m, w, f, rest, ms, now), f)
  {
    StartFiber(s, before, m, w, f, rest);
    var m1 := Started(m, w, f, rest);
    steps := before + [Step.Take(w)] + [Enter(w)];
    SleepIn(s, steps, m1, w, f, ms, now);
    var m2 := Slept(m1, w, f, ms, now);
    steps := steps + [Sleep(w, ms, now)] + [Yield(w)];
    LeaveFrom(s, steps, m2, w, f);
    steps := steps + [Unlock(w)] + [Step.Finish(w)];
    assert m2.fibers[f := FRESH] == m.fibers && m2.workers[w := m.workers[w]] == m.workers;
    SleepAdds(m, f, ms, now, f);
    assert Left(m2, w, f) == SleptAndLeft(m, w, f, rest, ms, now);
  }

  /** stopping()'s reads when nothing keeps them from succeeding. */
  lemma ReadsTimers(s: State, w: nat)
    requires w < |s.workers| && s.workers[w] == Idling(Unread) && s.timers.s.pending == map[] && !s.timers.s.tickled
    ensures Leads(s, Idle(w, ReadTimers), SetWorker(s, w, Idling(NoTimers)))
  {
  }

  lemma ReadsPending(s: State, w: nat)
    requires w < |s.workers| && s.workers[w] == Idling(NoTimers) && s.table.pending == 0 && T.WF(s.timers.s)
    ensures Leads(s, Idle(w, ReadPending), SetWorker(s, w, Idling(NothingPending)))
  {
  }

  lemma ReadsQueue(s: State, w: nat)
    requires w < |s.workers| && s.workers[w] == Idling(NothingPending) && QueueDone(s) && T.WF(s.timers.s)
    ensures Leads(s, Idle(w, ReadQueue), SetWorker(s, w, Looking(true)))
  {
  }

  /** The last two of them. */
  lemma ReadsOn(s: State, before: seq<Step>, m: State, w: nat) returns (steps: seq<Step>)
    requires Goes(s, before, m) && w < |m.workers| && m.workers[w] == Idling(NoTimers)
    requires m.table.pending == 0 && QueueDone(m) && T.WF(m.timers.s)
    ensures Goes(s, steps, SetWorker(m, w, Looking(true)))
  {
    var m1 := SetWorker(m, w, Idling(NothingPending));
    ReadsPending(m, w);
    GoesOn(s, before, m, Idle(w, ReadPending), m1);
    steps := before + [Idle(w, ReadPending)];
    ReadsQueue(m1, w);
    assert SetWorker(m1, w, Looking(true)) == SetWorker(m, w, Looking(true)) by {
      assert m.workers[w := Idling(NothingPending)][w := Looking(true)] == m.workers[w := Looking(true)];
    }
    GoesOn(s, steps, m1, Idle(w, ReadQueue), SetWorker(m, w, Looking(true)));
    steps := steps + [Idle(w, ReadQueue)];
  }

  /** Stop is requested, and worker `w` finds no task and then no timer. */
  lemma StopAndRead(workers: nat, start: int, w: nat) returns (steps: seq<Step>, m: State)
    requires w < workers
    ensures Goes(Init(workers, start), steps, m)
    ensures var s := Init(workers, start);
      m == s.(stopFlag := true, workers := s.workers[w := Idling(NoTimers)])
  {
    var s := Init(workers, start);
    GoesNowhere(s);
    var m1 := s.(stopFlag := true);
    GoesOn(s, [], s, RequestStop, m1);
    steps := [] + [RequestStop];
    var m2 := SetWorker(m1, w, Idling(Unread));
    GoesOn(s, steps, m1, Step.Take(w), m2);
    steps := steps + [Step.Take(w)];
    ReadsTimers(m2, w);
    m := SetWorker(m2, w, Idling(NoTimers));
    GoesOn(s, steps, m2, Idle(w, ReadTimers), m);
    steps := steps + [Idle(w, ReadTimers)];
    assert m.workers == s.workers[w := Idling(NoTimers)];
  }

  /** A fiber is submitted for any worker. */
  lemma Submitted(s: State, before: seq<Step>, m: State)
    requires Goes(s, before, m) && T.WF(m.timers.s)
    ensures Goes(s, before + [Step.Submit(-1)],
                 m.(fibers := m.fibers + [FRESH], queue := m.queue + [TaskOf(|m.fibers|)]))
  {
    GoesOn(s, before, m, Step.Submit(-1), m.(fibers := m.fibers + [FRESH], queue := m.queue + [TaskOf(|m.fibers|)]));
  }

  // ---------- Fibers left behind ----------

  /** The separate reads can succeed although the code is not done: worker 1 finds no timer while the fiber
      is queued, worker 0 then runs the fiber up to its sleep, the other two reads succeed as well, and
      worker 1's idle fiber ends. */
  lemma TornStopping(start: int, ms: nat, now: int) returns (steps: seq<Step>)
    ensures Admits(Init(2, start), steps) && AllDisciplined(Init(2, start), steps)
    ensures var s := Run(Init(2, start), steps);
      && s.workers == [Looking(false), Looking(true)] && s.queue == [] && s.active == 0 && s.table.pending == 0
      && |s.fibers| == 1 && s.fibers[0].st == Ready && Waits(s, 0)
  {
    var s, m := Init(2, start), Init(2, start);
    steps, m := StopAndRead(2, start, 1);
    Submitted(s, steps, m);
    var m1 := m.(fibers := [FRESH], queue := [TaskOf(0)]);
    assert m1 == m.(fibers := m.fibers + [FRESH], queue := m.queue + [TaskOf(|m.fibers|)]);
    steps := RunToSleep(s, steps + [Step.Submit(-1)], m1, 0, 0, [], ms, now);
    var m2 := SleptAndLeft(m1, 0, 0, [], ms, now);
    steps := ReadsOn(s, steps, m2, 1);
    FromStart(2, start, steps, SetWorker(m2, 1, Looking(true)));
  }

  /** A submission after the idle fiber has ended can leave a fiber suspended with every worker gone: the
      worker takes the task, and once the fiber sleeps it finds the queue empty and exits. */
  lemma LateSubmit(start: int, ms: nat, now: int) returns (before: seq<Step>, after: seq<Step>)
    ensures Admits(Init(1, start), before) && AllDisciplined(Init(1, start), before)
    ensures var s := Run(Init(1, start), before);
      && Stopping(s) && Admits(s, after) && AllDisciplined(s, after)
      && var t := Run(s, after); AllExited(t) && |t.fibers| == 1 && t.fibers[0].st == Ready && Waits(t, 0)
  {
    var m;
    before, m := StopAndRead(1, start, 0);
    before := ReadsOn(Init(1, start), before, m, 0);
    var s := SetWorker(m, 0, Looking(true));
    FromStart(1, start, before, s);
    var t;
    after, t := SubmitLate(s, ms, now);
    GoesRuns(s, after, t);
  }

  lemma SubmitLate(s: State, ms: nat, now: int) returns (steps: seq<Step>, t: State)
    requires s.fibers == [] && s.queue == [] && s.workers == [Looking(true)] && s.timers.s.pending == map[]
    ensures Goes(s, steps, t) && AllExited(t) && |t.fibers| == 1 && t.fibers[0].st == Ready && Waits(t, 0)
  {
    GoesNowhere(s);
    Submitted(s, [], s);
    var m := s.(fibers := [FRESH], queue := [TaskOf(0)]);
    assert m == s.(fibers := s.fibers + [FRESH], queue := s.queue + [TaskOf(|s.fibers|)]);
    steps := RunToSleep(s, [] + [Step.Submit(-1)], m, 0, 0, [], ms, now);
    var m1 := SleptAndLeft(m, 0, 0, [], ms, now);
    t := SetWorker(m1, 0, Exited);
    GoesOn(s, steps, m1, Step.Take(0), t);
    steps := steps + [Step.Take(0)];
  }

  // ---------- A sleeper's entry taken by a cancel of another timer ----------

  /** Three fibers are submitted, and three workers enter them. */
  lemma ThreeInside(start: int) returns (steps: seq<Step>, m: State)
    ensures Goes(Init(3, start), steps, m) && m.timers == S.Empty(start) && m.handles == {}
    ensures |m.workers| == |m.fibers| == 3
    ensures forall k: nat :: k < 3 ==> IsIn(m, k, k)
  {
    var s := Init(3, start);
    var look := [Looking(false), Looking(false), Looking(false)];
    GoesNowhere(s);
    Submitted(s, [], s);
    var a := State([FRESH], look, [TaskOf(0)], 0, s.table, s.timers, {}, false);
    assert a == s.(fibers := s.fibers + [FRESH], queue := s.queue + [TaskOf(|s.fibers|)]);
    steps := [] + [Step.Submit(-1)];
    Submitted(s, steps, a);
    var b := a.(fibers := [FRESH, FRESH], queue := [TaskOf(0), TaskOf(1)]);
    assert b == a.(fibers := a.fibers + [FRESH], queue := a.queue + [TaskOf(|a.fibers|)]);
    steps := steps + [Step.Submit(-1)];
    Submitted(s, steps, b);
    m := b.(fibers := [FRESH, FRESH, FRESH], queue := [TaskOf(0), TaskOf(1), TaskOf(2)]);
    assert m == b.(fibers := b.fibers + [FRESH], queue := b.queue + [TaskOf(|b.fibers|)]);
    steps := steps + [Step.Submit(-1)];
    steps, m := AllEnter(s, steps, m);
  }

  lemma AllEnter(s: State, before: seq<Step>, a: State) returns (steps: seq<Step>, m: State)
    requires Goes(s, before, a) && T.WF(a.timers.s) && |a.workers| == |a.fibers| == 3
    requires forall k: nat :: k < 3 ==> a.workers[k].Looking? && a.fibers[k] == FRESH
    requires a.queue == [TaskOf(0), TaskOf(1), TaskOf(2)]
    ensures Goes(s, steps, m) && m.timers == a.timers && m.handles == a.handles && |m.workers| == |m.fibers| == 3
    ensures forall k: nat :: k < 3 ==> IsIn(m, k, k)
  {
    assert a.queue == [TaskOf(0)] + [TaskOf(1), TaskOf(2)];
    StartFiber(s, before, a, 0, 0, [TaskOf(1), TaskOf(2)]);
    var b := Started(a, 0, 0, [TaskOf(1), TaskOf(2)]);
    steps := before + [Step.Take(0)] + [Enter(0)];
    assert b.queue == [TaskOf(1)] + [TaskOf(2)];
    StartFiber(s, steps, b, 1, 1, [TaskOf(2)]);
    var c := Started(b, 1, 1, [TaskOf(2)]);
    steps := steps + [Step.Take(1)] + [Enter(1)];
    assert c.queue == [TaskOf(2)] + [];
    StartFiber(s, steps, c, 2, 2, []);
    m := Started(c, 2, 2, []);
    steps := steps + [Step.Take(2)] + [Enter(2)];
  }

  ghost function Added(st: S.Store<Callback>, ms: nat, now: int): S.Store<Callback> {
    S.Act(st, S.AddOp(ms, UserCb, false), now).store
  }

  ghost function Detached(start: int, ms: nat, now: int): S.Store<Callback> {
    var d := T.Later(now, ms);
    S.Store(T.State([T.Timer(d, ms, false, Some(UserCb))], map[], true, start),
            map[0 := S.Ticket(0, ms + 1, false, d, false)])
  }

  /** Fiber 0 has added timer 0 and taken the first section of its reset to one millisecond more. */
  lemma AddAndDetach(s: State, before: seq<Step>, m: State, start: int, ms: nat, now: int) returns (steps: seq<Step>)
    requires Goes(s, before, m) && m.timers == S.Empty(start) && IsIn(m, 0, 0) && m.handles == {}
    ensures Goes(s, steps, m.(timers := Detached(start, ms, now), handles := {0}))
  {
    var d := T.Later(now, ms);
    var added := m.(timers := Added(m.timers, ms, now), handles := {0});
    GoesOn(s, before, m, UserTimer(0, S.AddOp(ms, UserCb, false), now), added);
    steps := before + [UserTimer(0, S.AddOp(ms, UserCb, false), now)];
    var op: S.Op<Callback> := S.EraseOp(0, 0, ms + 1, false);
    assert added.timers.s.pending == map[d := 0];
    assert S.Act(added.timers, op, now).store == Detached(start, ms, now);
    GoesOn(s, steps, added, UserTimer(0, op, now), m.(timers := Detached(start, ms, now), handles := {0}));
    steps := steps + [UserTimer(0, op, now)];
  }

  /** Fiber 1 sleeps where timer 0 stood: a cancel of that timer by fiber 2 takes its entry. */
  lemma TakenAt(s: State, start: int, ms: nat, now: int)
    requires Safe(s) && Lean(s) && Parked(s) && IsIn(s, 2, 2) && s.handles == {0}
    requires 1 < |s.fibers| && s.fibers[1].st == Ready
    requires exists m: State :: m.timers == Detached(start, ms, now) && s.timers == DoSleep(m, 1, ms, now).timers
    ensures var step := UserTimer(2, S.CancelOp(0), now);
      && Enabled(s, step) && !S.Overlaps(s.timers, step.op) && S.CancelsMoving(s.timers, step.op)
      && TakesSleeper(s.timers.s, step.op)
      && var s' := Do(s, step); 1 < |s'.fibers| && s'.fibers[1].st == Ready && Tokens(s', 1) == 0
  {
    UserTimerTokens(s, 2, S.CancelOp(0), now, 1);
    assert Tokens(s, 1) == Owed(s, 1);
    assert 0 in s.timers.moving && s.timers.moving[0].id == 0;
  }

  /** Free deadlines alone do not keep the sleepers. While fiber 0 is between the sections of a reset, fiber 1
      goes to sleep at the deadline its timer had; the cancel of that timer by fiber 2 then finds the sleeper's
      entry. No insertion of the run meets a taken deadline, nobody refreshes or resets the moved timer, and
      the sleeper is left without a token. */
  lemma CancelTakesSleeper(start: int, ms: nat, now: int) returns (steps: seq<Step>)
    ensures Admits(Init(3, start), steps) && AllUndisturbed(Init(3, start), steps)
    ensures
      var s := Run(Init(3, start), steps); var step := UserTimer(2, S.CancelOp(0), now);
      && Enabled(s, step) && !S.Overlaps(s.timers, step.op) && S.CancelsMoving(s.timers, step.op)
      && TakesSleeper(s.timers.s, step.op)
      && var s' := Do(s, step);
         1 < |s'.fibers| && s'.fibers[1].st == Ready && Tokens(s', 1) == 0
  {
    var m;
    steps, m := ThreeInside(start);
    assert IsIn(m, 0, 0) && IsIn(m, 1, 1) && IsIn(m, 2, 2);
    steps := AddAndDetach(Init(3, start), steps, m, start, ms, now);
    m := m.(timers := Detached(start, ms, now), handles := {0});
    assert IsIn(m, 0, 0) && IsIn(m, 1, 1) && IsIn(m, 2, 2);
    SleepIn(Init(3, start), steps, m, 1, 1, ms, now);
    steps := steps + [Sleep(1, ms, now)] + [Yield(1)];
    var s := Slept(m, 1, 1, ms, now);
    FromStart(3, start, steps, s);
    FromInit(3, start, steps);
    TakenAt(s, start, ms, now);
  }
}
