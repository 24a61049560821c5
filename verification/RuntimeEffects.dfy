/** What steps of the runtime come to for a caller: who is woken, who is queued and who then runs, and what
    the idle worker's reads let through. */
module RuntimeEffects {
  import opened Options
  import opened Runtime
  import opened RuntimeSafety
  import opened RuntimeTimers
  import opened TimerRuns
  import Q = TaskQueue
  import R = Reactor
  import S = TimerSteps
  import T = Timers

  // ---------- Who is woken ----------

  /** The task that resumes a waiter: its fiber, or a callback, on any thread. */
  function WakeOf(x: Waiter): Q.Task<Job> {
    match x
    case FiberWaiter(f) => Q.Task(FiberJob(f), -1)
    case CbWaiter => Q.Task(CbJob(UserCb), -1)
  }

  /** One task for each waiter of these bits, READ first. */
  function WakesAt(c: R.FdState<Waiter>, read: bool, write: bool): seq<Q.Task<Job>> {
    (if read && c.read.Some? then [WakeOf(c.read.value)] else [])
    + (if write && c.write.Some? then [WakeOf(c.write.value)] else [])
  }

  lemma PushWaiters(queue: seq<Q.Task<Job>>, c: R.FdState<Waiter>, read: bool, write: bool)
    ensures PushAll(queue, R.WaitersAt(c, read, write)) == queue + WakesAt(c, read, write)
  {
    var woken := R.WaitersAt(c, read, write);
    assert PushAll(queue, []) == queue;
    if |woken| == 1 {
      assert woken[1..] == [] && PushAll(queue, woken) == queue + [WakeOf(woken[0])];
    } else if |woken| == 2 {
      var more := queue + [WakeOf(woken[0])];
      assert woken[1..] == [woken[1]] && PushAll(more, [woken[1]]) == more + [WakeOf(woken[1])];
      assert PushAll(queue, woken) == PushAll(more, [woken[1]]);
      assert more + [WakeOf(woken[1])] == queue + [WakeOf(woken[0]), WakeOf(woken[1])];
    }
  }

  /** Only table and queue change: the named bits of `fd` go, and their waiters are queued. */
  ghost predicate Wakes(s: State, s': State, fd: nat, read: bool, write: bool)
    requires fd < |s.table.fds|
  {
    && R.Withdrawn(s.table, s'.table, fd, read, write)
    && s'.queue == s.queue + WakesAt(s.table.fds[fd], read, write)
  }

  /** A readiness report wakes those who wait for it: every reported bit is gone, an error standing for all
      registered ones, its waiter is queued, READ first, and the bits not reported keep theirs. */
  lemma ReportWakes(s: State, w: nat, fd: nat, rep: R.Report)
    requires Safe(s) && w < |s.workers| && s.workers[w] == Idling(Unread) && fd < |s.table.fds|
    requires var ev := s.table.fds[fd].events; (rep.in_ ==> ev.read) && (rep.out ==> ev.write)
    ensures Enabled(s, Idle(w, Report(fd, rep, true)))
    ensures
      var ev, s' := s.table.fds[fd].events, Do(s, Idle(w, Report(fd, rep, true)));
      && Wakes(s, s', fd, rep.in_ || (rep.err && ev.read), rep.out || (rep.err && ev.write))
      && s'.fibers == s.fibers && s'.workers == s.workers && s'.timers == s.timers && s'.active == s.active
  {
    var c := s.table.fds[fd];
    R.ReportEffect(s.table, fd, rep);
    PushWaiters(s.queue, c, rep.in_ || (rep.err && c.events.read), rep.out || (rep.err && c.events.write));
  }

  /** The parked fiber of the report is queued, and nobody waits on that bit any more. */
  lemma ReportWakesFiber(s: State, w: nat, fd: nat, ev: R.Event, rep: R.Report, f: nat)
    requires Safe(s) && w < |s.workers| && s.workers[w] == Idling(Unread) && fd < |s.table.fds|
    requires var e := s.table.fds[fd].events; (rep.in_ ==> e.read) && (rep.out ==> e.write)
    requires rep.err || (if ev == R.Read then rep.in_ else rep.out)
    requires (if ev == R.Read then s.table.fds[fd].read else s.table.fds[fd].write) == Some(FiberWaiter(f))
    ensures
      && Enabled(s, Idle(w, Report(fd, rep, true)))
      && var s' := Do(s, Idle(w, Report(fd, rep, true)));
         && Q.Task(FiberJob(f), -1) in s'.queue && fd < |s'.table.fds|
         && (if ev == R.Read then s'.table.fds[fd].read else s'.table.fds[fd].write) == None
  {
    ReportWakes(s, w, fd, rep);
    assert R.Filled(s.table.fds[fd]);
    var c, s' := s.table.fds[fd], Do(s, Idle(w, Report(fd, rep, true)));
    var read, write := rep.in_ || (rep.err && c.events.read), rep.out || (rep.err && c.events.write);
    assert WakesAt(c, read, write) == s'.queue[|s.queue|..];
    assert WakeOf(FiberWaiter(f)) in WakesAt(c, read, write) by {
      if ev == R.Read {
        assert WakesAt(c, read, write)[0] == WakeOf(FiberWaiter(f));
      } else {
        assert WakesAt(c, read, write)[|WakesAt(c, read, write)| - 1] == WakeOf(FiberWaiter(f));
      }
    }
  }

  /** close wakes every waiter of the descriptor, with a willing kernel. */
  lemma CloseWakes(s: State, w: nat, fd: nat)
    requires Safe(s) && At(s, w, InCode) && fd < |s.table.fds|
    ensures Enabled(s, Close(w, fd, true))
    ensures
      var ev, s' := s.table.fds[fd].events, Do(s, Close(w, fd, true));
      && Wakes(s, s', fd, ev.read, ev.write) && s'.table.fds[fd] == R.FdState(R.NONE, None, None)
      && s'.fibers == s.fibers && s'.workers == s.workers && s'.timers == s.timers && s'.active == s.active
  {
    var c := s.table.fds[fd];
    assert R.Filled(c);
    R.CancelAllEffect(s.table, fd);
    PushWaiters(s.queue, c, c.events.read, c.events.write);
  }

  // ---------- Who is registered ----------

  /** addEvent for the running fiber: when it succeeds the fiber waits at that bit and is about to yield, else
      it goes on. */
  lemma AwaitParks(s: State, w: nat, fd: nat, ev: R.Event, up: bool)
    requires Safe(s) && At(s, w, InCode)
    ensures
      var f, s' := s.workers[w].f, Do(s, Await(w, fd, ev, up));
      var free := up && (fd < |s.table.fds| ==>
                           !(if ev == R.Read then s.table.fds[fd].events.read else s.table.fds[fd].events.write));
      && fd < |s'.table.fds| && s'.workers == s.workers && s'.queue == s.queue
      && s'.fibers == (if free then s.fibers[f := s.fibers[f].(pos := AboutToYield)] else s.fibers)
      && (free ==> (if ev == R.Read then s'.table.fds[fd].read else s'.table.fds[fd].write) == Some(FiberWaiter(f)))
      && (!free ==> s'.table.kernel == s.table.kernel && s'.table.pending == s.table.pending)
  {
    R.AddEventEffect(s.table, fd, ev, FiberWaiter(s.workers[w].f), up);
  }

  /** addEvent with a callback registers the callback, and the fiber goes on. */
  lemma ListenRegisters(s: State, w: nat, fd: nat, ev: R.Event)
    requires Safe(s) && At(s, w, InCode)
    requires fd < |s.table.fds| ==>
      !(if ev == R.Read then s.table.fds[fd].events.read else s.table.fds[fd].events.write)
    ensures
      var s' := Do(s, Listen(w, fd, ev, true));
      && fd < |s'.table.fds| && s'.fibers == s.fibers && s'.workers == s.workers
      && (if ev == R.Read then s'.table.fds[fd].read else s'.table.fds[fd].write) == Some(CbWaiter)
  {
    R.AddEventEffect(s.table, fd, ev, CbWaiter, true);
  }

  /** A sleep adds a one-shot timer for the fiber, that many milliseconds from now, and parks it. */
  lemma SleepParks(s: State, w: nat, ms: nat, now: int)
    requires At(s, w, InCode)
    ensures
      var f, n, d, s' := s.workers[w].f, |s.timers.s.all|, now + ms * 1_000_000, Do(s, Sleep(w, ms, now));
      && s'.timers.s.all == s.timers.s.all + [T.Timer(d, ms, false, Some(WakeCb(f)))]
      && s'.fibers == s.fibers[f := s.fibers[f].(pos := AboutToYield)]
      && s'.timers.s.pending == (if d in s.timers.s.pending then s.timers.s.pending else s.timers.s.pending[d := n])
  {
  }

  // ---------- Who runs ----------

  /** A submitted fiber is new and READY, and its task goes to the first worker that is entitled to it and
      finds none before it. */
  lemma SubmittedIsTaken(s: State, thread: int, w: nat)
    requires w < |s.workers| && s.workers[w].Looking? && s.queue == [] && (thread == -1 || thread == w)
    ensures
      var f, m := |s.fibers|, Do(s, Step.Submit(thread));
      && m.queue == [Q.Task(FiberJob(f), thread)] && m.fibers == s.fibers + [Fiber(Ready, None, InCode)]
      && var h := Do(m, Step.Take(w));
         && h.queue == [] && h.active == s.active + 1 && h.fibers == m.fibers
         && h.workers[w] == Holding(Q.Task(FiberJob(f), thread), s.workers[w].idleDone)
  {
  }

  /** So does a submitted callback. */
  lemma CallbackIsTaken(s: State, thread: int, w: nat)
    requires w < |s.workers| && s.workers[w].Looking? && s.queue == [] && (thread == -1 || thread == w)
    ensures
      var m := Do(s, Step.SubmitCb(thread));
      && m.queue == [Q.Task(CbJob(UserCb), thread)] && m.fibers == s.fibers
      && var h := Do(m, Step.Take(w));
         && h.queue == [] && h.active == s.active + 1
         && h.workers[w] == Holding(Q.Task(CbJob(UserCb), thread), s.workers[w].idleDone)
  {
  }

  /** The worker that holds a fiber's task locks its mutex and runs it, once the mutex is free. */
  lemma HeldRuns(s: State, w: nat, f: nat)
    requires w < |s.workers| && s.workers[w].Holding? && s.workers[w].task.job == FiberJob(f)
    requires f < |s.fibers|
    ensures Enabled(s, Enter(w)) <==> s.fibers[f].owner == None
    ensures s.fibers[f].owner == None && s.fibers[f].st != Term ==>
      var s' := Do(s, Enter(w));
      && s'.workers == s.workers[w := InFiber(f, s.workers[w].idleDone)]
      && s'.fibers == s.fibers[f := Fiber(Running, Some(w), InCode)] && s'.queue == s.queue
  {
  }

  /** Submissions go behind what is queued, and a worker leaves alone what is pinned to other threads. */
  lemma PinnedStays(s: State, thread: int, w: nat)
    requires w < |s.workers| && s.workers[w].Looking? && thread != -1 && thread != w
    requires forall i :: 0 <= i < |s.queue| ==> s.queue[i].thread != -1 && s.queue[i].thread != w
    ensures
      var m := Do(s, Step.SubmitCb(thread)); var h := Do(m, Step.Take(w));
      && m.queue == s.queue + [Q.Task(CbJob(UserCb), thread)] && h.queue == m.queue && h.active == s.active
      && h.workers[w] == if s.workers[w].idleDone then Exited else Idling(Unread)
  {
  }

  /** A worker takes the first task it is entitled to. */
  lemma TakesFirst(s: State, w: nat, i: nat)
    requires w < |s.workers| && s.workers[w].Looking? && i < |s.queue|
    requires s.queue[i].thread == -1 || s.queue[i].thread == w
    requires forall j :: 0 <= j < i ==> s.queue[j].thread != -1 && s.queue[j].thread != w
    ensures
      var h := Do(s, Step.Take(w));
      && h.queue == s.queue[..i] + s.queue[i + 1..] && h.active == s.active + 1
      && h.workers == s.workers[w := Holding(s.queue[i], s.workers[w].idleDone)]
  {
    assert Q.Scan(s.queue, w) == i;
  }

  /** A task whose fiber has terminated meanwhile is only counted off. */
  lemma TerminatedIsSkipped(s: State, w: nat, f: nat)
    requires w < |s.workers| && s.workers[w].Holding? && s.workers[w].task.job == FiberJob(f)
    requires f < |s.fibers| && s.fibers[f].owner == None && s.fibers[f].st == Term
    ensures var s' := Do(s, Enter(w));
      s'.fibers == s.fibers && s'.workers == s.workers[w := Finishing(s.workers[w].idleDone)]
  {
  }

  /** A fiber that yields is READY and one that ends TERM; its worker still holds the mutex. */
  lemma LeavesFiber(s: State, w: nat)
    requires Safe(s) && InFiberNow(s, w)
    ensures var f, done := s.workers[w].f, s.workers[w].idleDone;
      && (At(s, w, AboutToYield) ==>
            var s' := Do(s, Yield(w));
            && s'.workers == s.workers[w := Returned(f, done)]
            && s'.fibers == s.fibers[f := Fiber(Ready, Some(w), InCode)])
      && (At(s, w, InCode) ==>
            var s' := Do(s, Terminate(w));
            && s'.workers == s.workers[w := Returned(f, done)]
            && s'.fibers == s.fibers[f := Fiber(Term, Some(w), InCode)])
  {
    assert WorkerOk(s.fibers, s.workers, w);
  }

  /** Back from the fiber, the worker frees its mutex, counts the task off and looks for the next. */
  lemma ReleasesAndLooks(s: State, w: nat)
    requires Enabled(s, Unlock(w))
    ensures
      var f, done := s.workers[w].f, s.workers[w].idleDone;
      var s1 := Do(s, Unlock(w));
      && s1.fibers == s.fibers[f := s.fibers[f].(owner := None)] && Enabled(s1, Step.Finish(w))
      && var s2 := Do(s1, Step.Finish(w));
         s2.workers == s.workers[w := Looking(done)] && s2.active == s.active - 1 && s2.queue == s.queue
  {
    var done := s.workers[w].idleDone;
    assert s.workers[w := Finishing(done)][w := Looking(done)] == s.workers[w := Looking(done)];
  }

  /** What an expired callback starts with: a sleeper's wakes its fiber, a timeout's cancels its wait. */
  lemma CallbackStarts(s: State, w: nat, cb: Callback)
    requires w < |s.workers| && s.workers[w].Holding? && s.workers[w].task.job == CbJob(cb)
    ensures Enabled(s, Enter(w))
    ensures
      var n, s' := |s.fibers|, Do(s, Enter(w));
      && |s'.fibers| == n + 1 && s'.fibers[..n] == s.fibers && s'.workers[w] == InFiber(n, s.workers[w].idleDone)
      && s'.fibers[n].st == Running && s'.fibers[n].owner == Some(w)
      && (cb == UserCb ==> At(s', w, InCode))
      && (cb.TimeoutCb? ==> Enabled(s', CancelWait(w, true)) && Enabled(s', SkipCancel(w)))
      && (cb.WakeCb? ==> At(s', w, AtWake(cb.f)))
  {
  }

  /** A sleeper's callback queues its fiber, for any thread. */
  lemma WakesSleeper(s: State, w: nat, f: nat)
    requires At(s, w, AtWake(f))
    ensures Enabled(s, WakeSleeper(w))
    ensures var s' := Do(s, WakeSleeper(w)); s'.queue == s.queue + [Q.Task(FiberJob(f), -1)] && At(s', w, InCode)
  {
  }

  /** One task for each collected timer that has a callback: in a balanced set, for each. */
  lemma {:induction false} TasksOfAll(fired: seq<T.Fired<Callback>>)
    requires forall i :: 0 <= i < |fired| ==> fired[i].cb.Some?
    ensures |TasksOf(fired)| == |fired|
    ensures forall i :: 0 <= i < |fired| ==> TasksOf(fired)[i] == Q.Task(CbJob(fired[i].cb.value), -1)
  {
    if fired != [] {
      TasksOfAll(fired[1..]);
    }
  }

  /** The idle step on a balanced set: the queue grows by the callbacks of exactly the due timers. */
  lemma IdleQueuesDue(s: State, w: nat, at: int, now: int)
    requires S.Balanced(s.timers) && TurnEnabled(s, w, Expire(at, now))
    ensures
      var t, r := s.timers.s.(previous := now), T.RolledOver(s.timers.s, now);
      var fired, s' := T.Expire(t, at, r).1, DoTurn(s, w, Expire(at, now));
      && |s'.queue| == |s.queue| + |fired| && s'.queue[..|s.queue|] == s.queue
      && forall i :: 0 <= i < |fired| ==>
           fired[i].cb.Some? && s'.queue[|s.queue| + i] == Q.Task(CbJob(fired[i].cb.value), -1)
  {
    var t, r := s.timers.s.(previous := now), T.RolledOver(s.timers.s, now);
    var fired := T.Expire(t, at, r).1;
    DoExpireIs(s, at, now);
    PushFiredIs(s.queue, fired);
    forall i | 0 <= i < |fired|
      ensures fired[i].cb.Some?
    {
      ExpireWanted(t, at, r, fired[i]);
      assert fired[i] in fired && T.InSet(s.timers.s, fired[i].id);
    }
    TasksOfAll(fired);
  }

  // ---------- What stopping() lets through ----------

  /** The three reads go on exactly when no timer is pending, nothing is registered, and stop was requested
      with no task queued or under way; after the third the idle fiber ends. */
  lemma ReadsExact(s: State, w: nat)
    requires Safe(s) && w < |s.workers|
    ensures s.workers[w] == Idling(Unread) ==>
      DoTurn(s, w, ReadTimers).workers[w] == Idling(if s.timers.s.pending == map[] then NoTimers else Unread)
    ensures s.workers[w] == Idling(NoTimers) ==>
      DoTurn(s, w, ReadPending).workers[w] == Idling(if R.SetBits(s.table) == 0 then NothingPending else Unread)
    ensures s.workers[w] == Idling(NothingPending) ==>
      DoTurn(s, w, ReadQueue).workers[w]
        == if s.stopFlag && s.queue == [] && s.active == 0 then Looking(true) else Idling(Unread)
    ensures s.workers[w] == Idling(Unread) ==> DoTurn(s, w, GiveBack).workers[w] == Looking(false)
  {
  }

  /** A worker that finds no task idles, or exits when its idle fiber has ended; stop only sets the flag. */
  lemma NoTaskLeft(s: State, w: nat)
    requires w < |s.workers| && s.queue == []
    ensures s.workers[w] == Looking(true) ==> Do(s, Step.Take(w)).workers[w] == Exited
    ensures s.workers[w] == Looking(false) ==> Do(s, Step.Take(w)).workers[w] == Idling(Unread)
    ensures Do(s, RequestStop) == s.(stopFlag := true)
  {
  }

  /** Reading the timers is asking getNextTimer for a wait and finding none, at whatever time. */
  lemma ReadIsGetNextTimer(s: State, w: nat, now: int)
    requires w < |s.workers| && s.workers[w] == Idling(Unread)
    ensures DoTurn(s, w, ReadTimers).workers[w] == Idling(NoTimers) <==> T.Wait(s.timers.s, now) == None
    ensures DoTurn(s, w, ReadTimers).timers.s == s.timers.s.(tickled := false)
  {
    T.WaitMeans(s.timers.s, now);
  }
}
