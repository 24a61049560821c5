/** Whole runs of the timer manager with their history: what was collected, what was cancelled,
    what the last getNextTimer saw and how many front notifications came after it. */
module TimerHistory {
  import opened Options
  import opened Sums
  import opened DeadlineSet
  import opened Timers
  import opened TimerRuns
  import opened TimerSteps

  /** `now` is the clock reading inside the operation's critical section. */
  datatype Event<C> = Event(op: Op<C>, now: int)

  datatype World<C> = World(st: Store<C>, clock: int, seen: Option<int>, notes: nat,
                            collected: seq<nat>, cancelled: set<nat>)

  function Ids<C>(fired: seq<Fired<C>>): seq<nat> {
    if fired == [] then [] else [fired[0].id] + Ids(fired[1..])
  }

  ghost predicate Takes<C>(w: World<C>, e: Event<C>) {
    Enabled(w.st, e.op, e.now)
  }

  ghost function Step<C>(w: World<C>, e: Event<C>): World<C>
    requires Takes(w, e)
  {
    var o := Act(w.st, e.op, e.now);
    var v := w.(st := o.store, clock := e.now, notes := if o.notify then w.notes + 1 else w.notes,
                collected := w.collected + Ids(o.fired));
    match e.op
    case CancelOp(id) => if o.ok then v.(cancelled := w.cancelled + {id}) else v
    case NextOp =>
      v.(notes := 0, seen := if w.st.s.pending == map[] then None else Some(Front(w.st.s.pending)))
    case _ => v
  }

  ghost predicate Admits<C>(w: World<C>, es: seq<Event<C>>)
    decreases es
  {
    es == [] || (Takes(w, es[0]) && Admits(Step(w, es[0]), es[1..]))
  }

  ghost function Run<C>(w: World<C>, es: seq<Event<C>>): World<C>
    requires Admits(w, es)
    decreases es
  {
    if es == [] then w else Run(Step(w, es[0]), es[1..])
  }

  ghost function Start<C>(now: int): World<C> {
    World(Empty(now), now, None, 0, [], {})
  }

  // ---------- Resets under way ----------

  /** Nothing but its own reset moves or cancels a timer between the sections. */
  ghost predicate Clean<C>(w: World<C>, e: Event<C>) {
    !Overlaps(w.st, e.op) && !CancelsMoving(w.st, e.op)
  }

  ghost predicate AllClean<C>(w: World<C>, es: seq<Event<C>>)
    requires Admits(w, es)
    decreases es
  {
    es == [] || (Clean(w, es[0]) && AllClean(Step(w, es[0]), es[1..]))
  }

  /** Every state of the run is orderly. */
  ghost predicate OrderlyThroughout<C>(w: World<C>, es: seq<Event<C>>)
    requires Admits(w, es)
    decreases es
  {
    Orderly(w.st) && (es == [] || OrderlyThroughout(Step(w, es[0]), es[1..]))
  }

  /** In every run, timers between the sections of a reset keep their callback and stay out of the set
      exactly when nobody cancels one of them, and no refresh or second reset finds one of them. */
  lemma {:induction false} OrderlyRunIff<C>(w: World<C>, es: seq<Event<C>>)
    requires Orderly(w.st) && Admits(w, es)
    ensures OrderlyThroughout(w, es) <==> AllClean(w, es)
    decreases es
  {
    if es != [] {
      OrderlyIff(w.st, es[0].op, es[0].now);
      if Clean(w, es[0]) {
        OrderlyRunIff(Step(w, es[0]), es[1..]);
      } else {
        assert !OrderlyThroughout(Step(w, es[0]), es[1..]);
      }
    }
  }

  // ---------- Collected at most once, never after a cancel ----------

  /** Without callback and out of the set; nothing brings such a timer back. */
  ghost predicate Dead<C>(s: State<C>, id: nat) {
    id < |s.all| && s.all[id].cb == None && !InSet(s, id)
  }

  /** The share of timer `id` in what an expiry collects: one when it was due, else nothing. */
  lemma {:induction false} IdsTimes<C>(fired: seq<Fired<C>>, id: nat)
    requires forall i, j :: 0 <= i < j < |fired| ==> fired[i].id != fired[j].id
    ensures Times(Ids(fired), id) == if exists f :: f in fired && f.id == id then 1 else 0
  {
    if fired != [] {
      var rest := fired[1..];
      IdsTimes(rest, id);
      assert fired == [fired[0]] + rest;
      assert Ids(fired)[1..] == Ids(rest);
      assert forall f :: f in rest ==> f.id != fired[0].id;
      assert fired[0] in fired;
    }
  }

  lemma ExpireTimes<C>(s: State<C>, now: int, rollover: bool, id: nat)
    requires WF(s) && LoopEnds(s, now, rollover) && id < |s.all|
    ensures var (s', fired) := Expire(s, now, rollover);
            && |s'.all| == |s.all|
            && Times(Ids(fired), id) <= 1
            && (Times(Ids(fired), id) == 1 ==> InSet(s, id) && s'.all[id] == AfterExpiry(s.all[id], now))
            && (Times(Ids(fired), id) == 0 ==> s'.all[id] == s.all[id])
            && (Dead(s, id) ==> Dead(s', id) && Times(Ids(fired), id) == 0)
            && (Times(Ids(fired), id) == 1 && !s.all[id].recurring ==> Dead(s', id))
  {
    ExpireExact(s, now, rollover);
    ExpireTimers(s, now, rollover, id);
    ExpireInSet(s, now, rollover, id);
    var (s', fired) := Expire(s, now, rollover);
    assert forall i :: 0 <= i < |fired| ==> fired[i] in fired;
    IdsTimes(fired, id);
  }

  lemma {:induction false} IdsForeign<C>(fired: seq<Fired<C>>, id: nat)
    requires forall f :: f in fired ==> f.id != id
    ensures Times(Ids(fired), id) == 0
  {
    if fired != [] {
      assert fired == [fired[0]] + fired[1..];
      assert Ids(fired)[1..] == Ids(fired[1..]);
      IdsForeign(fired[1..], id);
    }
  }

  /** What holds of every timer number along a run. */
  ghost predicate Settled<C>(w: World<C>, id: nat) {
    var s := w.st.s;
    && Orderly(w.st)
    && (id in w.cancelled ==> Dead(s, id))
    && (if id < |s.all| then
          s.all[id].recurring || Times(w.collected, id) == 0 || (Times(w.collected, id) == 1 && Dead(s, id))
        else Times(w.collected, id) == 0)
  }

  /** A dead timer is out of every later collection. */
  ghost predicate StaysDead<C>(w: World<C>, v: World<C>, id: nat) {
    Dead(w.st.s, id) ==> Dead(v.st.s, id) && Times(v.collected, id) == Times(w.collected, id)
  }

  lemma ExpireSettled<C>(w: World<C>, at: int, now: int, id: nat)
    requires Settled(w, id) && Takes(w, Event(ExpireOp(at), now))
    ensures Settled(Step(w, Event(ExpireOp(at), now)), id)
    ensures StaysDead(w, Step(w, Event(ExpireOp(at), now)), id)
  {
    var r := RolledOver(w.st.s, now);
    var s := w.st.s.(previous := now);
    var fired := Expire(s, at, r).1;
    OrderlyIff(w.st, ExpireOp(at), now);
    TallyAppend(w.collected, Ids(fired), Is, id);
    if id < |s.all| {
      ExpireTimes(s, at, r, id);
    } else {
      ExpireExact(s, at, r);
      IdsForeign(fired, id);
      ExpireLeaves(s, at, r);
    }
  }

  /** A timer that no reset moves is not the one being changed and put back. */
  lemma InsertSettled<C>(w: World<C>, e: Event<C>, id: nat)
    requires Settled(w, id) && Takes(w, e) && (e.op.InsertOp? || e.op.RetimeOp?)
    ensures Settled(Step(w, e), id) && StaysDead(w, Step(w, e), id)
  {
    OrderlyIff(w.st, e.op, e.now);
    assert TicketOk(w.st, e.op.caller) && w.st.s.all[w.st.moving[e.op.caller].id].cb.Some?;
    assert w.collected + [] == w.collected;
  }

  lemma StepSettled<C>(w: World<C>, e: Event<C>, id: nat)
    requires Settled(w, id) && Takes(w, e) && Clean(w, e)
    ensures Settled(Step(w, e), id) && StaysDead(w, Step(w, e), id)
  {
    if e.op.ExpireOp? {
      ExpireSettled(w, e.op.at, e.now, id);
    } else if e.op.InsertOp? || e.op.RetimeOp? {
      InsertSettled(w, e, id);
    } else {
      OrderlyIff(w.st, e.op, e.now);
      assert w.collected + [] == w.collected;
    }
  }

  lemma {:induction false} RunSettled<C>(w: World<C>, es: seq<Event<C>>, id: nat)
    requires Settled(w, id) && Admits(w, es) && AllClean(w, es)
    ensures Settled(Run(w, es), id) && StaysDead(w, Run(w, es), id)
    decreases es
  {
    if es != [] {
      StepSettled(w, es[0], id);
      RunSettled(Step(w, es[0]), es[1..], id);
    }
  }

  /** In every run in which nobody disturbs a reset between its sections, whatever the clock does and
      whatever deadlines collide: a one-shot timer is collected at most once, and a timer that was
      collected once or whose cancel returned true has no callback, is in no set, and is not collected
      in any continuation of the run. */
  lemma CollectedAtMostOnce<C>(start: int, es: seq<Event<C>>, more: seq<Event<C>>, id: nat)
    requires Admits(Start<C>(start), es) && Admits(Run(Start<C>(start), es), more)
    requires AllClean(Start<C>(start), es) && AllClean(Run(Start<C>(start), es), more)
    ensures var w := Run(Start<C>(start), es); var w' := Run(w, more); var s := w.st.s;
            && (id < |s.all| && !s.all[id].recurring ==> Times(w.collected, id) <= 1)
            && (id in w.cancelled || (id < |s.all| && !s.all[id].recurring && Times(w.collected, id) == 1) ==>
                  Dead(w'.st.s, id) && Times(w'.collected, id) == Times(w.collected, id))
  {
    RunSettled(Start<C>(start), es, id);
    RunSettled(Run(Start<C>(start), es), more, id);
  }

  /** A cancel that hits a timer between the sections of its reset is exactly what breaks this. Here the
      reset has yet to update the fields: the cancel reports success, and the rest of the reset, at a free
      deadline, makes the timer one that the next expiry there collects. */
  lemma CancelledYetPending<C>(w: World<C>, caller: nat, between: int, now: int, last: int)
    requires Orderly(w.st) && Takes(w, Event(RetimeOp(caller), now))
    requires var t := w.st.moving[caller]; ResetDeadline(w.st.s.all[t.id], t.ms, t.fromNow, now) !in w.st.s.pending
    ensures
      var id := w.st.moving[caller].id;
      && Takes(w, Event(CancelOp(id), between)) && !Clean(w, Event(CancelOp(id), between))
      && var v := Step(w, Event(CancelOp(id), between));
         && id in v.cancelled && Takes(v, Event(RetimeOp(caller), now))
         && var u := Step(v, Event(RetimeOp(caller), now));
            && Takes(u, Event(InsertOp(caller), last))
            && var x := Step(u, Event(InsertOp(caller), last));
               id in x.cancelled && InSet(x.st.s, id) && x.st.s.all[id].cb == None
  {
    assert TicketOk(w.st, caller) && w.st.s.all[w.st.moving[caller].id].cb.Some?;
  }

  /** Once the fields are updated such a cancel does more: it looks under the new deadline, takes out whatever
      other timer stands there, and so makes room for the cancelled one. */
  lemma CancelTakesOther<C>(w: World<C>, caller: nat, between: int, last: int)
    requires Orderly(w.st) && Takes(w, Event(InsertOp(caller), last)) && !Free(w.st, InsertOp(caller), last)
    ensures
      var id := w.st.moving[caller].id;
      var other := w.st.s.pending[w.st.s.all[id].next];
      var v := Step(w, Event(CancelOp(id), between));
      && other != id && InSet(w.st.s, other) && !InSet(v.st.s, other) && v.st.s.all[other] == w.st.s.all[other]
      && Takes(v, Event(InsertOp(caller), last))
      && InSet(Step(v, Event(InsertOp(caller), last)).st.s, id)
  {
    assert TicketOk(w.st, caller) && w.st.s.all[w.st.moving[caller].id].cb.Some?;
  }

  // ---------- No missed earlier deadline ----------

  /** The clock never runs backwards along these events. */
  predicate Forward<C>(clock: int, es: seq<Event<C>>)
    decreases es
  {
    es == [] || (clock <= es[0].now && (es[0].op.ExpireOp? ==> es[0].op.at <= es[0].now) && Forward(es[0].now, es[1..]))
  }

  /** No reset changes the deadline of a timer in the set. */
  ghost predicate AllKeyed<C>(w: World<C>, es: seq<Event<C>>)
    requires Admits(w, es)
    decreases es
  {
    es == [] || (!Rekeys(w.st, es[0].op, es[0].now) && AllKeyed(Step(w, es[0]), es[1..]))
  }

  /** Over any run the set stays ordered exactly as long as that holds, which it does in particular while
      nobody moves a timer between the sections of its reset. */
  lemma {:induction false} OrderedRunIff<C>(w: World<C>, es: seq<Event<C>>)
    requires WF(w.st.s) && Admits(w, es)
    ensures OrderedThroughout(w, es) <==> AllKeyed(w, es)
    ensures Orderly(w.st) && AllClean(w, es) ==> AllKeyed(w, es)
    decreases es
  {
    if es != [] {
      WFIff(w.st, es[0].op, es[0].now);
      if Orderly(w.st) && Clean(w, es[0]) {
        OrderlyIff(w.st, es[0].op, es[0].now);
        TidyNeverRekeys(w.st, es[0].op, es[0].now);
      }
      if !Rekeys(w.st, es[0].op, es[0].now) {
        OrderedRunIff(Step(w, es[0]), es[1..]);
      } else {
        assert !OrderedThroughout(Step(w, es[0]), es[1..]);
      }
    }
  }

  ghost predicate OrderedThroughout<C>(w: World<C>, es: seq<Event<C>>)
    requires Admits(w, es)
    decreases es
  {
    WF(w.st.s) && (es == [] || OrderedThroughout(Step(w, es[0]), es[1..]))
  }

  /** Every pending deadline is one the last getNextTimer already waited for, or a notification is out. */
  ghost predicate Watched<C>(w: World<C>) {
    w.st.s.tickled || forall d :: d in w.st.s.pending ==> w.seen.Some? && w.seen.value <= d
  }

  ghost predicate FrontInv<C>(w: World<C>) {
    && WF(w.st.s) && Watched(w)
    && w.notes == (if w.st.s.tickled then 1 else 0)
    && w.st.s.previous <= w.clock
    && forall id :: 0 <= id < |w.st.s.all| ==> w.st.s.all[id].next <= Later(w.clock, w.st.s.all[id].ms)
  }

  /** With a forward clock refresh never moves a deadline earlier. */
  lemma RefreshNotEarlier<C>(w: World<C>, id: nat, now: int)
    requires FrontInv(w) && id < |w.st.s.all| && w.clock <= now
    ensures w.st.s.all[id].next <= Refresh(w.st.s, id, now).state.all[id].next
  {
  }

  lemma ExpireFrontInv<C>(w: World<C>, at: int, now: int)
    requires FrontInv(w) && at <= now && w.clock <= now && Takes(w, Event(ExpireOp(at), now))
    ensures FrontInv(Step(w, Event(ExpireOp(at), now)))
  {
    var s := w.st.s.(previous := now);
    WFIff(w.st, ExpireOp(at), now);
    ExpireLeaves(s, at, false);
    var s' := Expire(s, at, false).0;
    forall id | 0 <= id < |s'.all| ensures s'.all[id].next <= Later(now, s'.all[id].ms) {
      ExpireTimers(s, at, false, id);
    }
    if !s.tickled {
      forall d | d in s'.pending ensures w.seen.Some? && w.seen.value <= d {
        if d !in s.pending {
          ExpireReenters(s, at, false, d);
        }
      }
    }
  }

  lemma InsertFrontInv<C>(w: World<C>, caller: nat, now: int)
    requires FrontInv(w) && w.clock <= now && Takes(w, Event(InsertOp(caller), now))
    ensures FrontInv(Step(w, Event(InsertOp(caller), now)))
  {
    WFIff(w.st, InsertOp(caller), now);
  }

  lemma RetimeFrontInv<C>(w: World<C>, caller: nat, now: int)
    requires FrontInv(w) && w.clock <= now && Takes(w, Event(RetimeOp(caller), now))
    requires !Rekeys(w.st, RetimeOp(caller), now)
    ensures FrontInv(Step(w, Event(RetimeOp(caller), now)))
  {
    WFIff(w.st, RetimeOp(caller), now);
  }

  lemma AddFrontInv<C>(w: World<C>, e: Event<C>)
    requires FrontInv(w) && Takes(w, e) && w.clock <= e.now && e.op.AddOp?
    ensures FrontInv(Step(w, e))
  {
    WFIff(w.st, e.op, e.now);
  }

  lemma RefreshFrontInv<C>(w: World<C>, e: Event<C>)
    requires FrontInv(w) && Takes(w, e) && !Rekeys(w.st, e.op, e.now) && w.clock <= e.now && e.op.RefreshOp?
    ensures FrontInv(Step(w, e))
  {
    WFIff(w.st, e.op, e.now);
  }

  lemma StepFrontInv<C>(w: World<C>, e: Event<C>)
    requires FrontInv(w) && Takes(w, e) && !Rekeys(w.st, e.op, e.now)
    requires w.clock <= e.now && (e.op.ExpireOp? ==> e.op.at <= e.now)
    ensures FrontInv(Step(w, e))
  {
    if e.op.ExpireOp? {
      ExpireFrontInv(w, e.op.at, e.now);
    } else if e.op.InsertOp? {
      InsertFrontInv(w, e.op.caller, e.now);
    } else if e.op.RetimeOp? {
      RetimeFrontInv(w, e.op.caller, e.now);
    } else if e.op.AddOp? {
      AddFrontInv(w, e);
    } else if e.op.RefreshOp? {
      RefreshFrontInv(w, e);
    } else {
      WFIff(w.st, e.op, e.now);
    }
  }

  lemma {:induction false} RunFrontInv<C>(w: World<C>, es: seq<Event<C>>)
    requires FrontInv(w) && Admits(w, es) && Forward(w.clock, es) && AllKeyed(w, es)
    ensures FrontInv(Run(w, es))
    decreases es
  {
    if es != [] {
      StepFrontInv(w, es[0]);
      RunFrontInv(Step(w, es[0]), es[1..]);
    }
  }

  /** In every reachable state of a forward-clock run the earliest pending deadline is no earlier than
      the one the latest getNextTimer saw, or exactly one front notification was issued since. Resets may
      be interrupted between their sections, by cancels, refreshes and resets of their timers too, as long as
      none of them changes the deadline of a timer that stands in the set. */
  lemma NoMissedDeadline<C>(start: int, es: seq<Event<C>>)
    requires Admits(Start<C>(start), es) && Forward(start, es) && AllKeyed(Start<C>(start), es)
    ensures var w := Run(Start<C>(start), es); var pending := w.st.s.pending;
            && w.notes <= 1
            && (w.notes == 1 || pending == map[] || (w.seen.Some? && w.seen.value <= Front(pending)))
  {
    RunFrontInv(Start<C>(start), es);
    var w := Run(Start<C>(start), es);
    if w.st.s.pending != map[] {
      assert Front(w.st.s.pending) in w.st.s.pending;
    }
  }

  // ---------- Callbacks and membership over runs ----------

  /** Every state of the run has each callback in the set or with the reset that moves its timer. */
  ghost predicate BalancedThroughout<C>(w: World<C>, es: seq<Event<C>>)
    requires Admits(w, es)
    decreases es
  {
    Balanced(w.st) && (es == [] || BalancedThroughout(Step(w, es[0]), es[1..]))
  }

  /** No operation inserts at a taken deadline. */
  ghost predicate AllFree<C>(w: World<C>, es: seq<Event<C>>)
    requires Admits(w, es)
    decreases es
  {
    es == [] || (WF(w.st.s) && Free(w.st, es[0].op, es[0].now) && AllFree(Step(w, es[0]), es[1..]))
  }

  /** Over any run callbacks and membership stay in step exactly when no insertion meets a taken deadline
      and nobody disturbs a reset between its sections. */
  lemma {:induction false} BalancedRunIff<C>(w: World<C>, es: seq<Event<C>>)
    requires Balanced(w.st) && Admits(w, es)
    ensures BalancedThroughout(w, es) <==> AllFree(w, es) && AllClean(w, es)
    decreases es
  {
    if es != [] {
      BalancedIff(w.st, es[0].op, es[0].now);
      if Balanced(Step(w, es[0]).st) {
        BalancedRunIff(Step(w, es[0]), es[1..]);
      } else {
        assert !BalancedThroughout(Step(w, es[0]), es[1..]);
      }
    }
  }

  lemma {:induction false} BalancedAtEnd<C>(w: World<C>, es: seq<Event<C>>)
    requires Admits(w, es) && BalancedThroughout(w, es)
    ensures Balanced(Run(w, es).st)
    decreases es
  {
    if es != [] {
      BalancedAtEnd(Step(w, es[0]), es[1..]);
    }
  }

  /** Over any run whose insertions meet no taken deadline and whose resets nobody disturbs, a timer has a
      callback exactly when it is in the set or between the sections of a reset; with no reset under way,
      exactly when it is in the set. */
  lemma CallbackIffPending<C>(start: int, es: seq<Event<C>>, id: nat)
    requires Admits(Start<C>(start), es) && AllFree(Start<C>(start), es) && AllClean(Start<C>(start), es)
    requires id < |Run(Start<C>(start), es).st.s.all|
    ensures var st := Run(Start<C>(start), es).st;
            && (st.s.all[id].cb.Some? <==> InSet(st.s, id) || Moving(st, id))
            && !(InSet(st.s, id) && Moving(st, id))
            && (st.moving == map[] ==> CbIff(st.s))
  {
    assert Out(Empty<C>(start)) == {};
    BalancedRunIff(Start<C>(start), es);
    BalancedAtEnd(Start<C>(start), es);
    OutMoving(Run(Start<C>(start), es).st, id);
  }

  /** Every state of the run has nothing at the deadlines that moved timers have. */
  ghost predicate ClearThroughout<C>(w: World<C>, es: seq<Event<C>>)
    requires Admits(w, es)
    decreases es
  {
    && (forall k :: k in w.st.moving ==> w.st.moving[k].from !in w.st.s.pending)
    && (es == [] || ClearThroughout(Step(w, es[0]), es[1..]))
  }

  ghost predicate NoCancelMoving<C>(w: World<C>, es: seq<Event<C>>)
    requires Admits(w, es)
    decreases es
  {
    es == [] || (!CancelsMoving(w.st, es[0].op) && NoCancelMoving(Step(w, es[0]), es[1..]))
  }

  /** With free deadlines, those of moved timers included, everything stays in step exactly when no cancel
      succeeds on a timer between the sections of its reset. */
  lemma {:induction false} OnlyCancelsMatter<C>(w: World<C>, es: seq<Event<C>>)
    requires Balanced(w.st) && Admits(w, es) && AllFree(w, es) && ClearThroughout(w, es)
    ensures BalancedThroughout(w, es) <==> NoCancelMoving(w, es)
    decreases es
  {
    if es != [] {
      BalancedIff(w.st, es[0].op, es[0].now);
      OnlyCancelsDisturb(w.st, es[0].op);
      if Balanced(Step(w, es[0]).st) {
        OnlyCancelsMatter(Step(w, es[0]), es[1..]);
      } else {
        assert !BalancedThroughout(Step(w, es[0]), es[1..]);
      }
    }
  }
}
