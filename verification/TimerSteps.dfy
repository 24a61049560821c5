/** The timer manager one critical section at a time. reset has two of them, with unlocked field updates in
    between; meanwhile its timer is in no set, and a ticket remembers what the caller is about to do. */
module TimerSteps {
  import opened Options
  import opened DeadlineSet
  import opened Timers
  import opened TimerRuns

  /** A reset between its two sections: the timer, its new period, the deadline it now has, and whether that
      is the new one already. */
  datatype Ticket = Ticket(id: nat, ms: nat, fromNow: bool, from: int, retimed: bool)

  /** The manager and the resets under way, by caller. */
  datatype Store<C> = Store(s: State<C>, moving: map<nat, Ticket>)

  datatype Op<C> =
    | AddOp(ms: nat, cb: C, recurring: bool)
    | CancelOp(id: nat)
    | RefreshOp(id: nat)
    | EraseOp(caller: nat, id: nat, ms: nat, fromNow: bool)   // reset up to the end of its first section
    | RetimeOp(caller: nat)                                   // that reset's unlocked field updates
    | InsertOp(caller: nat)                                   // its second section
    | NextOp
    | ExpireOp(at: int)                                       // `at` is the earlier of its two clock readings

  /** The new store, the C++ return value, the front notification, and what an expiry collected. */
  datatype Outcome<C> = Outcome(store: Store<C>, ok: bool, notify: bool, fired: seq<Fired<C>>)

  function Empty<C>(now: int): Store<C> {
    Store(Init(now), map[])
  }

  ghost predicate Enabled<C>(st: Store<C>, op: Op<C>, now: int) {
    match op
    case CancelOp(id) => id < |st.s.all|
    case RefreshOp(id) => id < |st.s.all|
    case EraseOp(caller, id, _, _) => id < |st.s.all| && caller !in st.moving
    case RetimeOp(caller) => caller in st.moving && st.moving[caller].id < |st.s.all| && !st.moving[caller].retimed
    case InsertOp(caller) => caller in st.moving && st.moving[caller].id < |st.s.all| && st.moving[caller].retimed
    case ExpireOp(at) => WF(st.s) && LoopEnds(st.s, at, RolledOver(st.s, now))
    case _ => true
  }

  /** `now` is the clock reading taken inside the section. */
  ghost function Act<C>(st: Store<C>, op: Op<C>, now: int): Outcome<C>
    requires Enabled(st, op, now)
  {
    var s := st.s;
    match op
    case AddOp(ms, cb, recurring) => Of(st, Add(s, ms, Some(cb), recurring, now))
    case CancelOp(id) => Of(st, Cancel(s, id))
    case RefreshOp(id) => Of(st, Refresh(s, id, now))
    case EraseOp(caller, id, ms, fromNow) =>
      if ms == s.all[id].ms && !fromNow then Outcome(st, true, false, [])
      else if !Found(s, id) then Outcome(st, false, false, [])
      else
        var t := Ticket(id, ms, fromNow, s.all[id].next, false);
        Outcome(Store(ResetErase(s, id), st.moving[caller := t]), true, false, [])
    case RetimeOp(caller) =>
      var t := st.moving[caller];
      var s' := Retimed(s, t.id, t.ms, t.fromNow, now);
      Outcome(Store(s', st.moving[caller := t.(retimed := true, from := s'.all[t.id].next)]), true, false, [])
    case InsertOp(caller) => Of(st.(moving := st.moving - {caller}), InsertTimer(s, st.moving[caller].id))
    case NextOp => Outcome(st.(s := ClearTickle(s)), true, false, [])
    case ExpireOp(at) =>
      var (s', fired) := ListExpired(s, at, now);
      Outcome(st.(s := s'), true, false, fired)
  }

  function Of<C>(st: Store<C>, e: Effect<C>): Outcome<C> {
    Outcome(st.(s := e.state), e.ok, e.notify, [])
  }

  /** An uninterrupted reset is its two sections with the field updates between them. */
  lemma ResetInThree<C>(st: Store<C>, caller: nat, id: nat, ms: nat, fromNow: bool, first: int, now: int, last: int)
    requires id < |st.s.all| && caller !in st.moving
    ensures
      var e := Reset(st.s, id, ms, fromNow, now);
      var a := Act(st, EraseOp(caller, id, ms, fromNow), first);
      && a.ok == e.ok
      && if caller !in a.store.moving then a.store == st && e == Effect(st.s, e.ok, false)
         else
           var b := Act(a.store, RetimeOp(caller), now);
           var c := Act(b.store, InsertOp(caller), last);
           c.store == Store(e.state, st.moving) && c.notify == e.notify
  {
    var a := Act(st, EraseOp(caller, id, ms, fromNow), first).store;
    if caller in a.moving {
      var b := Act(a, RetimeOp(caller), now).store;
      assert b.moving - {caller} == st.moving;
    }
  }

  // ---------- Timers between the sections ----------

  ghost predicate Moving<C>(st: Store<C>, id: nat) {
    exists k :: k in st.moving && st.moving[k].id == id
  }

  /** A timer between the sections keeps its fields, is in no set and is moved by one caller. */
  ghost predicate TicketOk<C>(st: Store<C>, k: nat)
    requires k in st.moving
  {
    var t := st.moving[k];
    t.id < |st.s.all| && st.s.all[t.id].next == t.from && !InSet(st.s, t.id)
  }

  ghost predicate Tidy<C>(st: Store<C>) {
    && WF(st.s)
    && (forall k :: k in st.moving ==> TicketOk(st, k))
    && (forall j, k :: j in st.moving && k in st.moving && j != k ==> st.moving[j].id != st.moving[k].id)
  }

  /** ... and it still has its callback. */
  ghost predicate Orderly<C>(st: Store<C>) {
    Tidy(st) && forall k :: k in st.moving ==> st.s.all[st.moving[k].id].cb.Some?
  }

  /** The operation moves a timer that a reset is moving: it found another timer at the old deadline. */
  ghost predicate Overlaps<C>(st: Store<C>, op: Op<C>) {
    match op
    case RefreshOp(id) => id < |st.s.all| && Moving(st, id) && Found(st.s, id)
    case EraseOp(_, id, ms, fromNow) =>
      id < |st.s.all| && Moving(st, id) && Found(st.s, id) && (ms != st.s.all[id].ms || fromNow)
    case _ => false
  }

  /** The operation cancels, with success, a timer that a reset is moving. */
  ghost predicate CancelsMoving<C>(st: Store<C>, op: Op<C>) {
    op.CancelOp? && op.id < |st.s.all| && Moving(st, op.id) && st.s.all[op.id].cb.Some?
  }

  lemma OverlapBreaksTidy<C>(st: Store<C>, op: Op<C>, now: int)
    requires Tidy(st) && Enabled(st, op, now) && Overlaps(st, op)
    ensures !Tidy(Act(st, op, now).store)
  {
    var k :| k in st.moving && st.moving[k].id == op.id;
    var st' := Act(st, op, now).store;
    assert TicketOk(st, k);
    if op.EraseOp? {
      assert st'.moving[k].id == st'.moving[op.caller].id;
    } else {
      assert k in st'.moving && !TicketOk(st', k);
    }
  }

  /** No ticket moves this timer: what happens to it leaves every ticket as it is. */
  lemma TicketKept<C>(st: Store<C>, s': State<C>, k: nat)
    requires k in st.moving && TicketOk(st, k)
    requires |st.s.all| <= |s'.all| && s'.all[st.moving[k].id].next == st.s.all[st.moving[k].id].next
    requires InSet(s', st.moving[k].id) ==> InSet(st.s, st.moving[k].id)
    ensures TicketOk(Store(s', st.moving), k)
  {
  }

  lemma AddTidy<C>(st: Store<C>, ms: nat, cb: Option<C>, recurring: bool, now: int)
    requires Tidy(st)
    ensures Tidy(st.(s := Add(st.s, ms, cb, recurring, now).state))
  {
    forall k | k in st.moving
      ensures TicketOk(st.(s := Add(st.s, ms, cb, recurring, now).state), k)
    {
      assert TicketOk(st, k);
      TicketKept(st, Add(st.s, ms, cb, recurring, now).state, k);
    }
  }

  lemma CancelTidy<C>(st: Store<C>, id: nat)
    requires Tidy(st) && id < |st.s.all|
    ensures Tidy(st.(s := Cancel(st.s, id).state))
  {
    forall k | k in st.moving
      ensures TicketOk(st.(s := Cancel(st.s, id).state), k)
    {
      assert TicketOk(st, k);
      TicketKept(st, Cancel(st.s, id).state, k);
    }
  }

  lemma RefreshTidy<C>(st: Store<C>, id: nat, now: int)
    requires Tidy(st) && id < |st.s.all| && !Overlaps(st, RefreshOp(id))
    ensures Tidy(st.(s := Refresh(st.s, id, now).state))
  {
    var s' := Refresh(st.s, id, now).state;
    forall k | k in st.moving
      ensures TicketOk(st.(s := s'), k)
    {
      assert TicketOk(st, k);
      if Found(st.s, id) {
        assert st.moving[k].id != id;
      }
      TicketKept(st, s', k);
    }
  }

  lemma EraseTidy<C>(st: Store<C>, caller: nat, id: nat, ms: nat, fromNow: bool, now: int)
    requires Tidy(st) && Enabled(st, EraseOp(caller, id, ms, fromNow), now)
    requires !Overlaps(st, EraseOp(caller, id, ms, fromNow))
    ensures Tidy(Act(st, EraseOp(caller, id, ms, fromNow), now).store)
  {
    var st' := Act(st, EraseOp(caller, id, ms, fromNow), now).store;
    if caller in st'.moving {
      forall k | k in st'.moving
        ensures TicketOk(st', k)
        ensures k != caller ==> st'.moving[k].id != id
      {
        if k != caller {
          assert TicketOk(st, k);
          TicketKept(st, st'.s, k);
        }
      }
    }
  }

  /** A timer in no set changes its deadline: the set and the other tickets do not see it. */
  lemma RetimeTidy<C>(st: Store<C>, caller: nat, now: int)
    requires Tidy(st) && Enabled(st, RetimeOp(caller), now)
    ensures Tidy(Act(st, RetimeOp(caller), now).store)
  {
    assert TicketOk(st, caller);
    var t := st.moving[caller];
    var st' := Act(st, RetimeOp(caller), now).store;
    assert forall d :: d in st.s.pending ==> st.s.pending[d] != t.id;
    forall k | k in st'.moving
      ensures TicketOk(st', k)
    {
      if k != caller {
        assert TicketOk(st, k) && st.moving[k].id != t.id;
      }
    }
  }

  lemma InsertTidy<C>(st: Store<C>, caller: nat, now: int)
    requires Tidy(st) && Enabled(st, InsertOp(caller), now)
    ensures Tidy(Act(st, InsertOp(caller), now).store)
  {
    assert TicketOk(st, caller);
    var t := st.moving[caller];
    var st' := Act(st, InsertOp(caller), now).store;
    forall k | k in st'.moving
      ensures TicketOk(st', k)
    {
      assert TicketOk(st, k) && st.moving[k].id != t.id;
    }
  }

  lemma ExpireKeepsMoving<C>(s: State<C>, at: int, rollover: bool, id: nat)
    requires WF(s) && LoopEnds(s, at, rollover) && id < |s.all| && !InSet(s, id)
    ensures var s' := Expire(s, at, rollover).0;
      |s'.all| == |s.all| && s'.all[id] == s.all[id] && !InSet(s', id)
  {
    ExpireTimers(s, at, rollover, id);
    ExpireInSet(s, at, rollover, id);
    forall f | f in Expire(s, at, rollover).1
      ensures f.id != id
    {
      ExpireWanted(s, at, rollover, f);
    }
  }

  lemma ExpireTidy<C>(st: Store<C>, at: int, now: int)
    requires Tidy(st) && Enabled(st, ExpireOp(at), now)
    ensures Tidy(Act(st, ExpireOp(at), now).store)
    ensures forall k :: k in st.moving ==>
      Act(st, ExpireOp(at), now).store.s.all[st.moving[k].id] == st.s.all[st.moving[k].id]
  {
    var s := st.s.(previous := now);
    var r := RolledOver(st.s, now);
    var st' := Act(st, ExpireOp(at), now).store;
    ExpireLeaves(s, at, r);
    forall k | k in st.moving
      ensures TicketOk(st', k) && st'.s.all[st.moving[k].id] == st.s.all[st.moving[k].id]
    {
      assert TicketOk(st, k);
      ExpireKeepsMoving(s, at, r, st.moving[k].id);
    }
  }

  /** Resets under way stay apart from the rest exactly as long as no other operation moves their timers. */
  lemma TidyIff<C>(st: Store<C>, op: Op<C>, now: int)
    requires Tidy(st) && Enabled(st, op, now)
    ensures Tidy(Act(st, op, now).store) <==> !Overlaps(st, op)
  {
    if Overlaps(st, op) {
      OverlapBreaksTidy(st, op, now);
    } else {
      match op
      case AddOp(ms, cb, recurring) => AddTidy(st, ms, Some(cb), recurring, now);
      case CancelOp(id) => CancelTidy(st, id);
      case RefreshOp(id) => RefreshTidy(st, id, now);
      case EraseOp(caller, id, ms, fromNow) => EraseTidy(st, caller, id, ms, fromNow, now);
      case RetimeOp(caller) => RetimeTidy(st, caller, now);
      case InsertOp(caller) => InsertTidy(st, caller, now);
      case NextOp =>
        forall k | k in st.moving
          ensures TicketOk(st.(s := ClearTickle(st.s)), k)
        {
          assert TicketOk(st, k);
        }
      case ExpireOp(at) => ExpireTidy(st, at, now);
    }
  }

  /** Moved timers keep their callbacks as well exactly as long as none of them is cancelled. */
  lemma OrderlyIff<C>(st: Store<C>, op: Op<C>, now: int)
    requires Orderly(st) && Enabled(st, op, now)
    ensures Orderly(Act(st, op, now).store) <==> !Overlaps(st, op) && !CancelsMoving(st, op)
  {
    TidyIff(st, op, now);
    var st' := Act(st, op, now).store;
    if CancelsMoving(st, op) {
      var k :| k in st.moving && st.moving[k].id == op.id;
      assert k in st'.moving && st'.s.all[st'.moving[k].id].cb.None?;
    } else if !Overlaps(st, op) {
      if op.ExpireOp? {
        ExpireTidy(st, op.at, now);
      }
      forall k | k in st'.moving
        ensures st'.s.all[st'.moving[k].id].cb.Some?
      {
        assert k in st.moving ==> TicketOk(st, k) && st.s.all[st.moving[k].id].cb.Some?;
      }
    }
  }

  /** The operation changes the deadline of a timer that stands in the set: a reset whose timer another
      operation has put back meanwhile. */
  ghost predicate Rekeys<C>(st: Store<C>, op: Op<C>, now: int) {
    && op.RetimeOp? && Enabled(st, op, now)
    && var t := st.moving[op.caller];
       InSet(st.s, t.id) && Retimed(st.s, t.id, t.ms, t.fromNow, now).all[t.id].next != st.s.all[t.id].next
  }

  /** The set stays ordered by its timers' deadlines exactly when no such thing happens. */
  lemma WFIff<C>(st: Store<C>, op: Op<C>, now: int)
    requires WF(st.s) && Enabled(st, op, now)
    ensures WF(Act(st, op, now).store.s) <==> !Rekeys(st, op, now)
  {
    if op.ExpireOp? {
      ExpireLeaves(st.s.(previous := now), op.at, RolledOver(st.s, now));
    } else if Rekeys(st, op, now) {
      var id, s' := st.moving[op.caller].id, Act(st, op, now).store.s;
      assert st.s.all[id].next in s'.pending && s'.pending[st.s.all[id].next] == id;
    }
  }

  /** A tidy store has no timer in the set whose reset is under way. */
  lemma TidyNeverRekeys<C>(st: Store<C>, op: Op<C>, now: int)
    requires Tidy(st)
    ensures !Rekeys(st, op, now)
  {
    if op.RetimeOp? && op.caller in st.moving {
      assert TicketOk(st, op.caller);
    }
  }

  // ---------- Callbacks and membership ----------

  ghost function Out<C>(st: Store<C>): set<nat> {
    set k | k in st.moving :: st.moving[k].id
  }

  /** A timer has a callback exactly when it is in the set or being moved by one reset. */
  ghost predicate Balanced<C>(st: Store<C>) {
    Orderly(st) && InStep(st.s, Out(st))
  }

  /** No deadline the operation inserts is taken. */
  ghost predicate Free<C>(st: Store<C>, op: Op<C>, now: int)
    requires Enabled(st, op, now) && WF(st.s)
  {
    var s := st.s;
    match op
    case AddOp(ms, _, _) => Later(now, ms) !in s.pending
    case RefreshOp(id) => InSet(s, id) ==> Later(now, s.all[id].ms) !in s.pending - {s.all[id].next}
    case InsertOp(caller) => s.all[st.moving[caller].id].next !in s.pending
    case ExpireOp(at) => NoClash(s, at, RolledOver(s, now))
    case _ => true
  }

  lemma OutMoving<C>(st: Store<C>, id: nat)
    ensures id in Out(st) <==> Moving(st, id)
  {
  }

  lemma OutRemove<C>(st: Store<C>, caller: nat, s': State<C>)
    requires Tidy(st) && caller in st.moving
    ensures Out(Store(s', st.moving - {caller})) == Out(st) - {st.moving[caller].id}
  {
    var st' := Store(s', st.moving - {caller});
    forall id | id in Out(st) && id != st.moving[caller].id
      ensures id in Out(st')
    {
      var k :| k in st.moving && st.moving[k].id == id;
      assert k in st'.moving && st'.moving[k].id == id;
    }
  }

  lemma EraseBalanced<C>(st: Store<C>, op: Op<C>, now: int)
    requires Balanced(st) && Enabled(st, op, now) && op.EraseOp? && !Overlaps(st, op)
    ensures InStep(Act(st, op, now).store.s, Out(Act(st, op, now).store))
  {
    var st' := Act(st, op, now).store;
    OutMoving(st, op.id);
    if op.caller in st'.moving {
      EraseCbIff(st.s, Out(st), op.id);
      assert Out(st') == Out(st) + {op.id} by {
        assert st'.moving[op.caller].id == op.id;
        assert forall k :: k in st.moving ==> k in st'.moving && st'.moving[k] == st.moving[k];
      }
    }
  }

  lemma OutRetimed<C>(st: Store<C>, caller: nat, now: int)
    requires Enabled(st, RetimeOp(caller), now)
    ensures Out(Act(st, RetimeOp(caller), now).store) == Out(st)
  {
    var st' := Act(st, RetimeOp(caller), now).store;
    assert forall k :: k in st.moving <==> k in st'.moving;
    assert forall k :: k in st.moving ==> st'.moving[k].id == st.moving[k].id;
  }

  lemma RetimeBalanced<C>(st: Store<C>, caller: nat, now: int)
    requires Balanced(st) && Enabled(st, RetimeOp(caller), now)
    ensures InStep(Act(st, RetimeOp(caller), now).store.s, Out(st))
  {
    assert TicketOk(st, caller);
    var t, s' := st.moving[caller], Act(st, RetimeOp(caller), now).store.s;
    assert t.id in Out(st);
    assert forall d :: d in st.s.pending ==> st.s.pending[d] != t.id;
    assert forall id: nat :: InSet(s', id) <==> InSet(st.s, id);
  }

  lemma InsertBalanced<C>(st: Store<C>, caller: nat, now: int)
    requires Balanced(st) && Enabled(st, InsertOp(caller), now)
    ensures var st' := Act(st, InsertOp(caller), now).store;
      InStep(st'.s, Out(st')) <==> Free(st, InsertOp(caller), now)
  {
    assert TicketOk(st, caller);
    var t := st.moving[caller];
    var st' := Act(st, InsertOp(caller), now).store;
    PutCbIff(st.s, Out(st), t.id);
    OutRemove(st, caller, st'.s);
  }

  lemma CancelBalanced<C>(st: Store<C>, id: nat)
    requires Balanced(st) && id < |st.s.all| && !CancelsMoving(st, CancelOp(id))
    ensures InStep(Cancel(st.s, id).state, Out(st))
  {
    OutMoving(st, id);
    if !Moving(st, id) {
      CancelCbIff(st.s, Out(st), id);
    }
  }

  /** Callbacks and membership after an operation that leaves moved timers alone. */
  lemma InStepIff<C>(st: Store<C>, op: Op<C>, now: int)
    requires Balanced(st) && Enabled(st, op, now) && !Overlaps(st, op) && !CancelsMoving(st, op)
    ensures InStep(Act(st, op, now).store.s, Out(Act(st, op, now).store)) <==> Free(st, op, now)
  {
    match op
    case AddOp(ms, cb, recurring) => AddCbIff(st.s, Out(st), ms, cb, recurring, now);
    case CancelOp(id) => CancelBalanced(st, id);
    case RefreshOp(id) => RefreshBalanced(st, id, now);
    case EraseOp(_, _, _, _) => EraseBalanced(st, op, now);
    case RetimeOp(caller) =>
      OutRetimed(st, caller, now);
      RetimeBalanced(st, caller, now);
    case InsertOp(caller) => InsertBalanced(st, caller, now);
    case NextOp =>
    case ExpireOp(at) => ExpireBalanced(st, at, now);
  }

  lemma ExpireBalanced<C>(st: Store<C>, at: int, now: int)
    requires Balanced(st) && Enabled(st, ExpireOp(at), now)
    ensures InStep(Act(st, ExpireOp(at), now).store.s, Out(st)) <==> Free(st, ExpireOp(at), now)
  {
    var s := st.s.(previous := now);
    ExpireCbIff(s, Out(st), at, RolledOver(st.s, now));
    assert NoClash(s, at, RolledOver(st.s, now)) <==> NoClash(st.s, at, RolledOver(st.s, now)) by {
      assert forall d, e :: d in s.pending && e in s.pending ==>
        Meets(s, d, e, at, RolledOver(st.s, now)) == Meets(st.s, d, e, at, RolledOver(st.s, now));
    }
  }

  /** One operation keeps callbacks and membership in step exactly when the deadlines it inserts are
      free, and it neither cancels nor otherwise moves a timer that a reset is moving. */
  lemma BalancedIff<C>(st: Store<C>, op: Op<C>, now: int)
    requires Balanced(st) && Enabled(st, op, now)
    ensures Balanced(Act(st, op, now).store) <==>
      Free(st, op, now) && !Overlaps(st, op) && !CancelsMoving(st, op)
  {
    OrderlyIff(st, op, now);
    if !Overlaps(st, op) && !CancelsMoving(st, op) {
      InStepIff(st, op, now);
    }
  }

  lemma RefreshBalanced<C>(st: Store<C>, id: nat, now: int)
    requires Balanced(st) && id < |st.s.all| && !Overlaps(st, RefreshOp(id))
    ensures InStep(Act(st, RefreshOp(id), now).store.s, Out(st)) <==> Free(st, RefreshOp(id), now)
  {
    OutMoving(st, id);
    if !Moving(st, id) {
      RefreshCbIff(st.s, Out(st), id, now);
    }
  }

  /** The timer an operation is about. */
  function Subject<C>(st: Store<C>, op: Op<C>): nat
    requires op.InsertOp? || op.RetimeOp? ==> op.caller in st.moving
  {
    match op
    case CancelOp(id) => id
    case RefreshOp(id) => id
    case EraseOp(_, id, _, _) => id
    case RetimeOp(caller) => st.moving[caller].id
    case InsertOp(caller) => st.moving[caller].id
    case _ => |st.s.all|
  }

  /** In step and at free deadlines an operation touches its own timer only: that cancel, refresh and reset
      erase by deadline does no harm to any other. */
  lemma OthersKept<C>(st: Store<C>, op: Op<C>, now: int, id: nat)
    requires Balanced(st) && Enabled(st, op, now) && !op.ExpireOp?
    requires Free(st, op, now) && !Overlaps(st, op) && !CancelsMoving(st, op)
    requires id < |st.s.all| && id != Subject(st, op)
    ensures var s' := Act(st, op, now).store.s;
      id < |s'.all| && s'.all[id] == st.s.all[id] && (InSet(s', id) <==> InSet(st.s, id))
  {
    if op.CancelOp? || op.RefreshOp? || op.EraseOp? {
      OutMoving(st, op.id);
    }
    if op.InsertOp? || op.RetimeOp? {
      assert TicketOk(st, op.caller);
    }
  }

  /** While nothing stands at the deadline a moved timer has, no refresh and no reset finds it:
      only a cancel can then disturb a reset. */
  lemma OnlyCancelsDisturb<C>(st: Store<C>, op: Op<C>)
    requires Orderly(st) && forall k :: k in st.moving ==> st.moving[k].from !in st.s.pending
    ensures !Overlaps(st, op)
  {
    forall id: nat | Moving(st, id)
      ensures !(id < |st.s.all| && Found(st.s, id))
    {
      var k :| k in st.moving && st.moving[k].id == id;
      assert TicketOk(st, k);
    }
  }
}
