/** The timers of the runtime: sleep timers belong to the manager alone, everything else that code does
    with timers leaves them as they are, and an expiry turns them into tasks. */
module RuntimeTimers {
  import opened Options
  import opened Runtime
  import opened TimerRuns
  import DeadlineSet
  import Q = TaskQueue
  import S = TimerSteps
  import T = Timers

  /** The pending timers that will reschedule fiber `f`. */
  ghost function Sleeping(t: T.State<Callback>, f: nat): set<nat> {
    set id: nat | id < |t.all| && T.InSet(t, id) && t.all[id].cb == Some(WakeCb(f))
  }

  ghost function TimerToken(timers: S.Store<Callback>, f: nat): nat {
    |Sleeping(timers.s, f)|
  }

  ghost predicate IsSleeper(t: T.State<Callback>, id: nat)
    requires id < |t.all|
  {
    t.all[id].cb.Some? && t.all[id].cb.value.WakeCb?
  }

  /** A sleep timer is one-shot, and no handle and no reset leads to it. */
  ghost predicate SleeperOk(s: State, id: nat)
    requires id < |s.timers.s.all|
  {
    IsSleeper(s.timers.s, id) ==>
      !s.timers.s.all[id].recurring && id !in s.handles && !S.Moving(s.timers, id)
  }

  /** The set is ordered by its timers' deadlines, handles and tickets are of timers that exist, and sleep
      timers belong to nobody but the manager. */
  ghost predicate Lean(s: State) {
    && T.WF(s.timers.s)
    && (forall id :: id in s.handles ==> id < |s.timers.s.all|)
    && (forall k :: k in s.timers.moving ==> s.timers.moving[k].id < |s.timers.s.all|)
    && (forall id :: 0 <= id < |s.timers.s.all| ==> SleeperOk(s, id))
  }

  /** ... and every sleep timer with a callback is in the set. */
  ghost predicate Timely(s: State) {
    Lean(s) && forall id :: 0 <= id < |s.timers.s.all| && IsSleeper(s.timers.s, id) ==> T.InSet(s.timers.s, id)
  }

  /** The operation erases the entry it finds under its timer's deadline. */
  predicate Erases(t: T.State<Callback>, op: S.Op<Callback>) {
    match op
    case CancelOp(id) => id < |t.all| && T.Found(t, id)
    case RefreshOp(id) => id < |t.all| && T.Found(t, id)
    case EraseOp(_, id, ms, fromNow) => id < |t.all| && T.Found(t, id) && (ms != t.all[id].ms || fromNow)
    case _ => false
  }

  /** ... and that entry is the timer of fiber `g`'s sleep. */
  predicate TakesSleeperOf(t: T.State<Callback>, op: S.Op<Callback>, g: nat) {
    Erases(t, op) &&
    var id := t.pending[t.all[op.id].next];
    id < |t.all| && t.all[id].cb == Some(WakeCb(g))
  }

  /** ... or of anybody's. */
  predicate TakesSleeper(t: T.State<Callback>, op: S.Op<Callback>) {
    Erases(t, op) &&
    var id := t.pending[t.all[op.id].next];
    id < |t.all| && t.all[id].cb.Some? && t.all[id].cb.value.WakeCb?
  }

  // ---------- Sleep timers stay the manager's own ----------

  lemma MovingAfter(st: S.Store<Callback>, op: S.Op<Callback>, now: int, id: nat)
    requires S.Enabled(st, op, now) && !S.Moving(st, id)
    requires op.EraseOp? ==> op.id != id
    ensures !S.Moving(S.Act(st, op, now).store, id)
  {
  }

  /** User code never reaches a sleep timer itself. */
  lemma NotAbout(s: State, f: nat, op: S.Op<Callback>, now: int, id: nat)
    requires Lean(s) && MayUse(s, f, op) && S.Enabled(s.timers, op, now)
    requires id < |s.timers.s.all| && IsSleeper(s.timers.s, id)
    ensures id != S.Subject(s.timers, op) && (op.EraseOp? ==> op.id != id)
  {
    assert SleeperOk(s, id);
  }

  /** An operation leaves the fields of every other timer as they are, and its place too, unless it is what a
      cancel, refresh or reset finds under its own timer's deadline. */
  lemma OtherUnder(st: S.Store<Callback>, op: S.Op<Callback>, now: int, id: nat)
    requires T.WF(st.s) && S.Enabled(st, op, now) && !op.ExpireOp? && id < |st.s.all| && id != S.Subject(st, op)
    ensures
      var t, t' := st.s, S.Act(st, op, now).store.s;
      && id < |t'.all| && t'.all[id] == t.all[id]
      && (T.InSet(t', id) <==> T.InSet(t, id) && !(Erases(t, op) && t.pending[t.all[op.id].next] == id))
  {
  }

  /** No operation gives an existing timer another callback. */
  lemma CallbackKept(st: S.Store<Callback>, op: S.Op<Callback>, now: int, id: nat)
    requires S.Enabled(st, op, now) && !op.ExpireOp? && id < |st.s.all|
    ensures var s' := S.Act(st, op, now).store.s;
      id < |s'.all| && (s'.all[id].cb == st.s.all[id].cb || s'.all[id].cb == None)
  {
  }

  lemma TimerOpSleeper(s: State, f: nat, op: S.Op<Callback>, now: int, id: nat)
    requires Lean(s) && MayUse(s, f, op) && S.Enabled(s.timers, op, now) && id < |s.timers.s.all|
    ensures var s' := DoTimer(s, op, now); id < |s'.timers.s.all| && SleeperOk(s', id)
  {
    assert SleeperOk(s, id);
    CallbackKept(s.timers, op, now, id);
    if IsSleeper(s.timers.s, id) {
      NotAbout(s, f, op, now, id);
      OtherUnder(s.timers, op, now, id);
      MovingAfter(s.timers, op, now, id);
    }
  }

  lemma TimerOpRange(s: State, f: nat, op: S.Op<Callback>, now: int)
    requires Lean(s) && MayUse(s, f, op) && S.Enabled(s.timers, op, now)
    ensures var s' := DoTimer(s, op, now);
      && |s.timers.s.all| <= |s'.timers.s.all|
      && (forall id :: id in s'.handles ==> id < |s'.timers.s.all|)
      && (forall k :: k in s'.timers.moving ==> s'.timers.moving[k].id < |s'.timers.s.all|)
      && (|s.timers.s.all| < |s'.timers.s.all| ==> op.AddOp? && |s'.timers.s.all| == |s.timers.s.all| + 1)
  {
  }

  lemma TimerOpLean(s: State, f: nat, op: S.Op<Callback>, now: int)
    requires Lean(s) && MayUse(s, f, op) && S.Enabled(s.timers, op, now) && !S.Rekeys(s.timers, op, now)
    ensures Lean(DoTimer(s, op, now))
  {
    S.WFIff(s.timers, op, now);
    TimerOpRange(s, f, op, now);
    var s' := DoTimer(s, op, now);
    forall id | 0 <= id < |s'.timers.s.all|
      ensures SleeperOk(s', id)
    {
      if id < |s.timers.s.all| {
        TimerOpSleeper(s, f, op, now, id);
      }
    }
  }

  lemma TimerOpTimely(s: State, f: nat, op: S.Op<Callback>, now: int)
    requires Timely(s) && MayUse(s, f, op) && S.Enabled(s.timers, op, now)
    requires !S.Rekeys(s.timers, op, now) && !TakesSleeper(s.timers.s, op)
    ensures Timely(DoTimer(s, op, now))
  {
    TimerOpLean(s, f, op, now);
    TimerOpRange(s, f, op, now);
    var s' := DoTimer(s, op, now);
    forall id | 0 <= id < |s'.timers.s.all| && IsSleeper(s'.timers.s, id)
      ensures T.InSet(s'.timers.s, id)
    {
      if id < |s.timers.s.all| {
        CallbackKept(s.timers, op, now, id);
        NotAbout(s, f, op, now, id);
        OtherUnder(s.timers, op, now, id);
      }
    }
  }

  /** A new timer with no handle. */
  lemma SleepLean(s: State, f: nat, ms: nat, now: int)
    requires Lean(s)
    ensures Lean(DoSleep(s, f, ms, now))
  {
    var s' := DoSleep(s, f, ms, now);
    S.WFIff(s.timers, SleepOp(f, ms), now);
    forall id | 0 <= id < |s'.timers.s.all|
      ensures SleeperOk(s', id)
    {
      if id < |s.timers.s.all| {
        assert SleeperOk(s, id) && s'.timers.s.all[id] == s.timers.s.all[id];
        assert S.Moving(s'.timers, id) ==> S.Moving(s.timers, id);
      } else {
        assert !S.Moving(s'.timers, id);
      }
    }
  }

  lemma SleepTimely(s: State, f: nat, ms: nat, now: int)
    requires Timely(s) && T.Later(now, ms) !in s.timers.s.pending
    ensures Timely(DoSleep(s, f, ms, now))
  {
    SleepLean(s, f, ms, now);
    var t, t' := s.timers.s, DoSleep(s, f, ms, now).timers.s;
    assert forall id :: 0 <= id < |t.all| ==> t'.all[id] == t.all[id] && (T.InSet(t, id) ==> T.InSet(t', id));
  }

  lemma ExpireLean(s: State, at: int, now: int)
    requires Lean(s) && S.Enabled(s.timers, S.ExpireOp(at), now)
    ensures Lean(DoExpire(s, at, now))
  {
    var s' := DoExpire(s, at, now);
    var t := s.timers.s.(previous := now);
    ExpireLeaves(t, at, T.RolledOver(s.timers.s, now));
    forall id | 0 <= id < |s'.timers.s.all|
      ensures SleeperOk(s', id)
    {
      assert SleeperOk(s, id);
      ExpireTimers(t, at, T.RolledOver(s.timers.s, now), id);
    }
  }

  /** A sleep timer that still has its callback was not due, so it is where it was. */
  lemma ExpireTimely(s: State, at: int, now: int)
    requires Timely(s) && S.Enabled(s.timers, S.ExpireOp(at), now)
    ensures Timely(DoExpire(s, at, now))
  {
    ExpireLean(s, at, now);
    var t, r := s.timers.s.(previous := now), T.RolledOver(s.timers.s, now);
    var t' := DoExpire(s, at, now).timers.s;
    ExpireLeaves(t, at, r);
    forall id | 0 <= id < |t'.all| && IsSleeper(t', id)
      ensures T.InSet(t', id)
    {
      SleeperStays(s, at, now, id);
    }
  }

  lemma SleeperStays(s: State, at: int, now: int, id: nat)
    requires Timely(s) && S.Enabled(s.timers, S.ExpireOp(at), now) && id < |s.timers.s.all|
    requires id < |DoExpire(s, at, now).timers.s.all| && IsSleeper(DoExpire(s, at, now).timers.s, id)
    ensures T.InSet(DoExpire(s, at, now).timers.s, id)
  {
    var t, r := s.timers.s.(previous := now), T.RolledOver(s.timers.s, now);
    ExpireTimers(t, at, r, id);
    ExpireLeaves(t, at, r);
    assert IsSleeper(t, id) && SleeperOk(s, id) && T.InSet(s.timers.s, id);
    ExpireWanted(t, at, r, T.Fired(t.all[id].next, id, t.all[id].cb));
  }

  // ---------- Steps ----------

  /** The step does not change the deadline of a timer that stands in the set. */
  ghost predicate Keyed(s: State, step: Step) {
    step.UserTimer? ==> !S.Rekeys(s.timers, step.op, step.now)
  }

  /** The step leaves no suspended fiber with a token too many or too few: user code suspends by the hooked
      calls only, no sleep meets a taken deadline, and what it does to its own timers takes out no sleeper. */
  ghost predicate Spares(s: State, step: Step) {
    match step
    case Reschedule(_, _) => false
    case BareYield(_) => false
    case UserTimer(_, op, _) => !TakesSleeper(s.timers.s, op)
    case Sleep(_, ms, now) => T.Later(now, ms) !in s.timers.s.pending
    case _ => true
  }

  ghost predicate Disciplined(s: State, step: Step) {
    Keyed(s, step) && Spares(s, step)
  }

  /** Whatever user code does, sleep timers stay one-shot, unmoved and without handle. */
  lemma StepLean(s: State, step: Step)
    requires Lean(s) && Enabled(s, step) && Keyed(s, step)
    ensures Lean(Do(s, step))
  {
    if step.UserTimer? {
      TimerOpLean(s, s.workers[step.w].f, step.op, step.now);
    } else if step.Sleep? {
      SleepLean(s, s.workers[step.w].f, step.ms, step.now);
      SameLean(DoSleep(s, s.workers[step.w].f, step.ms, step.now), Do(s, step));
    } else if step.Idle? {
      TurnLean(s, step.w, step.turn);
    } else {
      OtherSteps(s, step);
      SameLean(s, Do(s, step));
    }
  }

  lemma TurnLean(s: State, w: nat, turn: Turn)
    requires Lean(s) && TurnEnabled(s, w, turn)
    ensures Lean(DoTurn(s, w, turn))
  {
    if turn.Expire? {
      ExpireLean(s, turn.at, turn.now);
    } else {
      TurnTimers(s, w, turn);
      SameLean(s, DoTurn(s, w, turn));
    }
  }

  /** Timers and handles change in these steps alone. */
  lemma OtherSteps(s: State, step: Step)
    requires Enabled(s, step) && !step.UserTimer? && !step.Sleep? && !step.Idle?
    ensures Do(s, step).timers == s.timers && Do(s, step).handles == s.handles
  {
  }

  lemma TurnTimers(s: State, w: nat, turn: Turn)
    requires TurnEnabled(s, w, turn) && !turn.Expire?
    ensures SameTimers(s, DoTurn(s, w, turn))
  {
  }

  /** All but the tickle flag. */
  ghost predicate SameTimers(s: State, s': State) {
    && s'.timers.s.all == s.timers.s.all && s'.timers.s.pending == s.timers.s.pending
    && s'.timers.moving == s.timers.moving && s'.handles == s.handles
  }

  lemma SameLean(s: State, s': State)
    requires Lean(s) && SameTimers(s, s')
    ensures Lean(s')
  {
    forall id | 0 <= id < |s'.timers.s.all|
      ensures SleeperOk(s', id)
    {
      assert SleeperOk(s, id);
    }
  }

  /** Every disciplined step keeps sleep timers in the set as well. */
  lemma StepTimely(s: State, step: Step)
    requires Timely(s) && Enabled(s, step) && Disciplined(s, step)
    ensures Timely(Do(s, step))
  {
    if step.UserTimer? {
      TimerOpTimely(s, s.workers[step.w].f, step.op, step.now);
    } else if step.Sleep? {
      SleepTimely(s, s.workers[step.w].f, step.ms, step.now);
      SameTimely(DoSleep(s, s.workers[step.w].f, step.ms, step.now), Do(s, step));
    } else if step.Idle? {
      TurnTimely(s, step.w, step.turn);
    } else {
      OtherSteps(s, step);
      SameTimely(s, Do(s, step));
    }
  }

  lemma TurnTimely(s: State, w: nat, turn: Turn)
    requires Timely(s) && TurnEnabled(s, w, turn)
    ensures Timely(DoTurn(s, w, turn))
  {
    if turn.Expire? {
      ExpireTimely(s, turn.at, turn.now);
    } else {
      TurnTimers(s, w, turn);
      SameTimely(s, DoTurn(s, w, turn));
    }
  }

  lemma SameTimely(s: State, s': State)
    requires Timely(s) && SameTimers(s, s')
    ensures Timely(s')
  {
    SameLean(s, s');
    forall id | 0 <= id < |s'.timers.s.all| && IsSleeper(s'.timers.s, id)
      ensures T.InSet(s'.timers.s, id)
    {
      assert IsSleeper(s.timers.s, id);
    }
  }

  // ---------- Callbacks and membership in the runtime ----------

  ghost predicate FreeAndClean(st: S.Store<Callback>, op: S.Op<Callback>, now: int)
    requires S.Enabled(st, op, now) && T.WF(st.s)
  {
    S.Free(st, op, now) && !S.Overlaps(st, op) && !S.CancelsMoving(st, op)
  }

  /** Every deadline the step inserts is free, and it neither cancels nor moves a timer that a reset moves. */
  ghost predicate Undisturbed(s: State, step: Step)
    requires Enabled(s, step) && T.WF(s.timers.s)
  {
    match step
    case UserTimer(_, op, now) => FreeAndClean(s.timers, op, now)
    case Sleep(_, ms, now) => T.Later(now, ms) !in s.timers.s.pending
    case Idle(_, turn) => turn.Expire? ==> FreeAndClean(s.timers, S.ExpireOp(turn.at), turn.now)
    case _ => true
  }

  /** A step keeps callbacks and membership of all timers in step exactly when it is undisturbed. */
  lemma StepBalancedIff(s: State, step: Step)
    requires S.Balanced(s.timers) && Enabled(s, step)
    ensures S.Balanced(Do(s, step).timers) <==> Undisturbed(s, step)
  {
    if step.UserTimer? {
      S.BalancedIff(s.timers, step.op, step.now);
    } else if step.Sleep? {
      S.BalancedIff(s.timers, SleepOp(s.workers[step.w].f, step.ms), step.now);
    } else if step.Idle? {
      TurnBalancedIff(s, step.w, step.turn);
    } else {
      OtherSteps(s, step);
    }
  }

  lemma TurnBalancedIff(s: State, w: nat, turn: Turn)
    requires S.Balanced(s.timers) && TurnEnabled(s, w, turn)
    ensures S.Balanced(DoTurn(s, w, turn).timers) <==> Undisturbed(s, Idle(w, turn))
  {
    if turn.Expire? {
      S.BalancedIff(s.timers, S.ExpireOp(turn.at), turn.now);
    } else if turn.ReadTimers? {
      S.BalancedIff(s.timers, S.NextOp, 0);
    }
  }

  /** While callbacks and membership are in step, only an operation on a timer that a reset is moving can take
      a sleeper's entry: free deadlines and undisturbed resets are enough. */
  lemma BalancedSpares(s: State, op: S.Op<Callback>)
    requires Lean(s) && S.Balanced(s.timers) && (Erases(s.timers.s, op) ==> op.id in s.handles)
    requires !S.Overlaps(s.timers, op) && !S.CancelsMoving(s.timers, op)
    ensures !TakesSleeper(s.timers.s, op)
  {
    if Erases(s.timers.s, op) {
      S.OutMoving(s.timers, op.id);
      assert T.InSet(s.timers.s, op.id);
      assert SleeperOk(s, op.id);
    }
  }

  // ---------- Sleep timers under each operation ----------

  /** Timer `id` is among those that will wake `g` after the operation if it was and was not taken out. */
  ghost predicate Remains(t: T.State<Callback>, t': T.State<Callback>, op: S.Op<Callback>, g: nat, id: nat) {
    id in Sleeping(t', g) <==> id in Sleeping(t, g) && !(Erases(t, op) && t.pending[t.all[op.id].next] == id)
  }

  lemma SleepingCount(t: T.State<Callback>, t': T.State<Callback>, op: S.Op<Callback>, g: nat)
    requires T.WF(t) && forall id: nat :: Remains(t, t', op, g, id)
    ensures |Sleeping(t', g)| + (if TakesSleeperOf(t, op, g) then 1 else 0) == |Sleeping(t, g)|
  {
    var taken := if TakesSleeperOf(t, op, g) then {t.pending[t.all[op.id].next]} else {};
    forall id: nat
      ensures id in Sleeping(t', g) <==> id in Sleeping(t, g) - taken
    {
      assert Remains(t, t', op, g, id);
    }
    assert Sleeping(t', g) == Sleeping(t, g) - taken;
  }

  lemma SleeperRemains(s: State, f: nat, op: S.Op<Callback>, now: int, g: nat, id: nat)
    requires Lean(s) && MayUse(s, f, op) && S.Enabled(s.timers, op, now)
    ensures Remains(s.timers.s, DoTimer(s, op, now).timers.s, op, g, id)
  {
    if id < |s.timers.s.all| {
      CallbackKept(s.timers, op, now, id);
      if s.timers.s.all[id].cb == Some(WakeCb(g)) {
        NotAbout(s, f, op, now, id);
        OtherUnder(s.timers, op, now, id);
      }
    }
  }

  /** What user code does with its own timers wakes nobody, and costs a sleeper its entry exactly when a
      cancel, refresh or reset finds that entry under the deadline of its own timer. */
  lemma TimerOpTokens(s: State, f: nat, op: S.Op<Callback>, now: int, g: nat)
    requires Lean(s) && MayUse(s, f, op) && S.Enabled(s.timers, op, now)
    ensures TimerToken(DoTimer(s, op, now).timers, g) + (if TakesSleeperOf(s.timers.s, op, g) then 1 else 0)
         == TimerToken(s.timers, g)
  {
    forall id: nat
      ensures Remains(s.timers.s, DoTimer(s, op, now).timers.s, op, g, id)
    {
      SleeperRemains(s, f, op, now, g, id);
    }
    SleepingCount(s.timers.s, DoTimer(s, op, now).timers.s, op, g);
  }

  /** A sleep adds its token exactly when the deadline is free. */
  lemma SleepAdds(s: State, f: nat, ms: nat, now: int, g: nat)
    requires T.WF(s.timers.s)
    ensures TimerToken(DoSleep(s, f, ms, now).timers, g) == TimerToken(s.timers, g)
      + if f == g && T.Later(now, ms) !in s.timers.s.pending then 1 else 0
  {
    var t, t' := s.timers.s, DoSleep(s, f, ms, now).timers.s;
    var n := |t.all|;
    var added := if f == g && T.Later(now, ms) !in t.pending then {n} else {};
    assert forall id: nat :: id < n ==> t'.all[id] == t.all[id] && (T.InSet(t', id) <==> T.InSet(t, id));
    assert Sleeping(t', g) == Sleeping(t, g) + added;
  }

  /** Taking a due timer out turns a sleeper's timer into a queued task. */
  lemma PopTokens(t: T.State<Callback>, d: int, now: int, g: nat)
    requires T.WF(t) && d in t.pending
    requires forall id :: 0 <= id < |t.all| && t.all[id].cb == Some(WakeCb(g)) ==> !t.all[id].recurring
    ensures |Sleeping(t, g)|
         == |Sleeping(T.Pop(t, d, now), g)| + if t.all[t.pending[d]].cb == Some(WakeCb(g)) then 1 else 0
  {
    T.PopWF(t, d, now);
    var id, t' := t.pending[d], T.Pop(t, d, now);
    assert T.InSet(t, id);
    assert Sleeping(t', g) == Sleeping(t, g) - {id};
  }

  /** The tasks of collected callbacks, in order. */
  function TasksOf(fired: seq<T.Fired<Callback>>): seq<Q.Task<Job>> {
    if fired == [] then []
    else (match fired[0].cb case None => [] case Some(cb) => [Q.Task(CbJob(cb), -1)]) + TasksOf(fired[1..])
  }

  lemma {:induction false} PushFiredIs(queue: seq<Q.Task<Job>>, fired: seq<T.Fired<Callback>>)
    ensures PushFired(queue, fired) == queue + TasksOf(fired)
    decreases |fired|
  {
    if fired != [] {
      var first := match fired[0].cb case None => [] case Some(cb) => [Q.Task(CbJob(cb), -1)];
      PushFiredIs(queue + first, fired[1..]);
      assert fired[0].cb.None? ==> queue + first == queue;
      assert queue + first + TasksOf(fired[1..]) == queue + (first + TasksOf(fired[1..]));
    }
  }

  /** What an expiry collects, and what it leaves. */
  lemma DoExpireIs(s: State, at: int, now: int)
    requires S.Enabled(s.timers, S.ExpireOp(at), now)
    ensures var (left, fired) := T.Expire(s.timers.s.(previous := now), at, T.RolledOver(s.timers.s, now));
      DoExpire(s, at, now) == s.(queue := PushFired(s.queue, fired), timers := s.timers.(s := left))
  {
  }

  /** The idle step schedules the callbacks of the collected timers after what was queued, in the order
      of their deadlines, and leaves nothing due. */
  lemma IdleSchedules(s: State, w: nat, at: int, now: int)
    requires TurnEnabled(s, w, Expire(at, now))
    ensures
      var t, back := s.timers.s.(previous := now), 3_600_000_000_000 < s.timers.s.previous - now;
      var s', fired := DoTurn(s, w, Expire(at, now)), T.Expire(t, at, back).1;
      && InDeadlineOrder(fired) && s'.queue == s.queue + TasksOf(fired)
      && (forall d :: d in s'.timers.s.pending ==> !back && at < d)
  {
    var t, r := s.timers.s.(previous := now), T.RolledOver(s.timers.s, now);
    DoExpireIs(s, at, now);
    ExpireOrdered(t, at, r);
    ExpireLeaves(t, at, r);
    PushFiredIs(s.queue, T.Expire(t, at, r).1);
  }

  /** ... and what is collected is exactly the due timers, each with its callback. */
  lemma IdleCollectsDue(s: State, w: nat, at: int, now: int, f: T.Fired<Callback>)
    requires TurnEnabled(s, w, Expire(at, now))
    ensures var t, back := s.timers.s.(previous := now), 3_600_000_000_000 < s.timers.s.previous - now;
      f in T.Expire(t, at, back).1 <==>
        && f.at in s.timers.s.pending && (back || f.at <= at)
        && s.timers.s.pending[f.at] == f.id && s.timers.s.all[f.id].cb == f.cb
  {
    ExpireWanted(s.timers.s.(previous := now), at, T.RolledOver(s.timers.s, now), f);
  }
}
