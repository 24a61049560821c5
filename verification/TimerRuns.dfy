/** What the timer manager keeps over whole runs: exact expiry, callbacks and set membership in
    step, at-most-once collection, and no missed earlier deadline. */
module TimerRuns {
  import opened Options
  import opened DeadlineSet
  import opened Timers

  // ---------- Exact expiry ----------

  ghost predicate InDeadlineOrder<C>(fired: seq<Fired<C>>) {
    forall i, j :: 0 <= i < j < |fired| ==> fired[i].at < fired[j].at
  }

  /** `f` is a due entry of the set with its timer's callback. */
  ghost predicate Wanted<C>(s: State<C>, now: int, rollover: bool, f: Fired<C>)
    requires WF(s)
  {
    f.at in s.pending && IsDue(f.at, now, rollover) && s.pending[f.at] == f.id && s.all[f.id].cb == f.cb
  }

  lemma PopWanted<C>(s: State<C>, d: int, now: int, rollover: bool, f: Fired<C>)
    requires WF(s) && LoopGuard(s, now, rollover) && d == Front(s.pending) && LoopEnds(s, now, rollover)
    ensures WF(Pop(s, d, now))
    ensures Wanted(Pop(s, d, now), now, rollover, f) <==> Wanted(s, now, rollover, f) && f.at != d
    ensures Wanted(Pop(s, d, now), now, rollover, f) ==> f.id != s.pending[d]
  {
    PopEnds(s, d, now, rollover);
  }

  lemma {:induction false} ExpireWanted<C>(s: State<C>, now: int, rollover: bool, f: Fired<C>)
    requires WF(s) && LoopEnds(s, now, rollover)
    ensures f in Expire(s, now, rollover).1 <==> Wanted(s, now, rollover, f)
    decreases |DueSet(s, now, rollover)|
  {
    if LoopGuard(s, now, rollover) {
      var d := Front(s.pending);
      PopEnds(s, d, now, rollover);
      assert d in DueSet(s, now, rollover);
      ExpireWanted(Pop(s, d, now), now, rollover, f);
      PopWanted(s, d, now, rollover, f);
    }
  }

  lemma {:induction false} ExpireOrdered<C>(s: State<C>, now: int, rollover: bool)
    requires WF(s) && LoopEnds(s, now, rollover)
    ensures InDeadlineOrder(Expire(s, now, rollover).1)
    decreases |DueSet(s, now, rollover)|
  {
    if LoopGuard(s, now, rollover) {
      var d := Front(s.pending);
      PopEnds(s, d, now, rollover);
      assert d in DueSet(s, now, rollover);
      var s1 := Pop(s, d, now);
      ExpireOrdered(s1, now, rollover);
      var rest := Expire(s1, now, rollover).1;
      forall i | 0 <= i < |rest| ensures d < rest[i].at {
        assert rest[i] in rest;
        ExpireWanted(s1, now, rollover, rest[i]);
        PopWanted(s, d, now, rollover, rest[i]);
      }
    }
  }

  /** listExpiredCb collects exactly the callbacks of the due timers, in deadline order. */
  lemma ExpireExact<C>(s: State<C>, now: int, rollover: bool)
    requires WF(s) && LoopEnds(s, now, rollover)
    ensures var fired := Expire(s, now, rollover).1;
            && InDeadlineOrder(fired)
            && forall f :: f in fired <==> Wanted(s, now, rollover, f)
  {
    ExpireOrdered(s, now, rollover);
    forall f ensures f in Expire(s, now, rollover).1 <==> Wanted(s, now, rollover, f) {
      ExpireWanted(s, now, rollover, f);
    }
  }

  /** What is due: every deadline that has come, and after a clock set back by over an hour every timer. The
      first reading decides the former, the second the latter, and it is kept. */
  lemma ListExpiredExact<C>(s: State<C>, at: int, seen: int)
    requires WF(s) && LoopEnds(s, at, RolledOver(s, seen))
    ensures var (left, fired) := ListExpired(s, at, seen);
            var back := 3_600_000_000_000 < s.previous - seen;
            && left.previous == seen && InDeadlineOrder(fired)
            && (forall f :: f in fired <==>
                  (f.at in s.pending && (back || f.at <= at) && s.pending[f.at] == f.id && s.all[f.id].cb == f.cb))
            && (forall d :: d in left.pending ==> !back && at < d)
            && (forall d :: d in s.pending && !back && at < d ==> d in left.pending && left.pending[d] == s.pending[d])
  {
    var t, back := s.(previous := seen), RolledOver(s, seen);
    assert WF(t) && LoopEnds(t, at, back);
    ExpireOrdered(t, at, back);
    ExpireLeaves(t, at, back);
    forall f ensures f in Expire(t, at, back).1 <==> Wanted(t, at, back, f) {
      ExpireWanted(t, at, back, f);
    }
  }

  /** The timer's fields after the loop. */
  function AfterExpiry<C>(t: Timer<C>, now: int): Timer<C> {
    if t.recurring then t.(next := Later(now, t.ms)) else t.(cb := None)
  }

  /** What the loop leaves in the set: nothing due, every other entry where it was, and otherwise only
      recurring timers that were due, one period after now. */
  lemma {:induction false} ExpireLeaves<C>(s: State<C>, now: int, rollover: bool)
    requires WF(s) && LoopEnds(s, now, rollover)
    ensures var s' := Expire(s, now, rollover).0;
            && WF(s') && |s'.all| == |s.all| && s'.tickled == s.tickled && s'.previous == s.previous
            && (forall d :: d in s'.pending ==> !IsDue(d, now, rollover))
            && (forall d :: d in s.pending && !IsDue(d, now, rollover) ==>
                  d in s'.pending && s'.pending[d] == s.pending[d])
            && (forall d :: d in s'.pending && d !in s.pending ==> now < d)
    decreases |DueSet(s, now, rollover)|
  {
    if LoopGuard(s, now, rollover) {
      var d := Front(s.pending);
      PopEnds(s, d, now, rollover);
      assert d in DueSet(s, now, rollover);
      ExpireLeaves(Pop(s, d, now), now, rollover);
    }
  }

  /** Every entry that is new belongs to a timer that recurs and was due, and stands one period after now. */
  ghost predicate Reentered<C>(s: State<C>, now: int, rollover: bool, d: int, id: nat) {
    && id < |s.all| && InSet(s, id) && s.all[id].recurring
    && (rollover || s.all[id].next <= now) && d == now + s.all[id].ms * 1_000_000
  }

  lemma {:induction false} ExpireReenters<C>(s: State<C>, now: int, rollover: bool, d: int)
    requires WF(s) && LoopEnds(s, now, rollover)
    requires d in Expire(s, now, rollover).0.pending && d !in s.pending
    ensures Reentered(s, now, rollover, d, Expire(s, now, rollover).0.pending[d])
    decreases |DueSet(s, now, rollover)|
  {
    assert LoopGuard(s, now, rollover);
    var f := Front(s.pending);
    PopEnds(s, f, now, rollover);
    assert f in DueSet(s, now, rollover);
    var s1 := Pop(s, f, now);
    if d !in s1.pending {
      ExpireReenters(s1, now, rollover, d);
      ReenteredBefore(s, now, rollover, d, Expire(s1, now, rollover).0.pending[d]);
    } else {
      ExpireLeaves(s1, now, rollover);
      assert d == Later(now, s.all[s.pending[f]].ms) && s1.pending[d] == s.pending[f];
    }
  }

  lemma ReenteredBefore<C>(s: State<C>, now: int, rollover: bool, d: int, id: nat)
    requires WF(s) && LoopGuard(s, now, rollover) && LoopEnds(s, now, rollover)
    requires Reentered(Pop(s, Front(s.pending), now), now, rollover, d, id)
    ensures Reentered(s, now, rollover, d, id)
  {
    PopEnds(s, Front(s.pending), now, rollover);
  }

  /** A timer popped once is not popped again. */
  lemma NotAgain<C>(s: State<C>, d: int, now: int, rollover: bool)
    requires WF(s) && LoopGuard(s, now, rollover) && d == Front(s.pending) && LoopEnds(s, now, rollover)
    ensures WF(Pop(s, d, now)) && LoopEnds(Pop(s, d, now), now, rollover)
    ensures forall f :: f in Expire(Pop(s, d, now), now, rollover).1 ==> f.id != s.pending[d]
  {
    PopEnds(s, d, now, rollover);
    forall f | f in Expire(Pop(s, d, now), now, rollover).1 ensures f.id != s.pending[d] {
      ExpireWanted(Pop(s, d, now), now, rollover, f);
      PopWanted(s, d, now, rollover, f);
    }
  }

  /** The collected timers change exactly as a one-shot or recurring expiry says, the rest not at all. */
  lemma {:induction false} ExpireTimers<C>(s: State<C>, now: int, rollover: bool, id: nat)
    requires WF(s) && LoopEnds(s, now, rollover) && id < |s.all|
    ensures var (s', fired) := Expire(s, now, rollover);
            && |s'.all| == |s.all|
            && s'.all[id] == if exists f :: f in fired && f.id == id then AfterExpiry(s.all[id], now) else s.all[id]
    decreases |DueSet(s, now, rollover)|
  {
    if LoopGuard(s, now, rollover) {
      var d := Front(s.pending);
      NotAgain(s, d, now, rollover);
      PopEnds(s, d, now, rollover);
      assert d in DueSet(s, now, rollover);
      var s1 := Pop(s, d, now);
      ExpireTimers(s1, now, rollover, id);
      var fired, rest := Expire(s, now, rollover).1, Expire(s1, now, rollover).1;
      assert fired == [Fired(d, s.pending[d], s.all[s.pending[d]].cb)] + rest;
      assert fired[0] in fired;
    }
  }

  /** The set only keeps timers it had, and of the due ones only the recurring. */
  lemma {:induction false} ExpireInSet<C>(s: State<C>, now: int, rollover: bool, id: nat)
    requires WF(s) && LoopEnds(s, now, rollover)
    ensures InSet(Expire(s, now, rollover).0, id) ==>
              InSet(s, id) && (IsDue(s.all[id].next, now, rollover) ==> s.all[id].recurring)
    decreases |DueSet(s, now, rollover)|
  {
    if LoopGuard(s, now, rollover) {
      var d := Front(s.pending);
      PopEnds(s, d, now, rollover);
      assert d in DueSet(s, now, rollover);
      ExpireInSet(Pop(s, d, now), now, rollover, id);
    }
  }

  // ---------- When the loop ends ----------

  /** The state after up to `n` turns of the loop. */
  ghost function Turns<C>(s: State<C>, now: int, rollover: bool, n: nat): State<C>
    requires WF(s)
    decreases n
  {
    if n == 0 || !LoopGuard(s, now, rollover) then s
    else
      PopWF(s, Front(s.pending), now);
      Turns(Pop(s, Front(s.pending), now), now, rollover, n - 1)
  }

  lemma {:induction false} TurnsWF<C>(s: State<C>, now: int, rollover: bool, n: nat)
    requires WF(s)
    ensures WF(Turns(s, now, rollover, n))
    decreases n
  {
    if n > 0 && LoopGuard(s, now, rollover) {
      PopWF(s, Front(s.pending), now);
      TurnsWF(Pop(s, Front(s.pending), now), now, rollover, n - 1);
    }
  }

  /** A timer that comes back due and finds its next deadline free, or not after its own. */
  ghost predicate Stays<C>(s: State<C>, d: int, now: int, rollover: bool)
    requires WF(s)
  {
    && d in s.pending && ComesBack(s, d, now, rollover)
    && var back := Later(now, s.all[s.pending[d]].ms);
       back <= d || back !in s.pending
  }

  /** Such a timer is still there after a turn, or the one that took its next deadline is. */
  lemma StaysOn<C>(s: State<C>, d: int, now: int, rollover: bool)
    requires WF(s) && Stays(s, d, now, rollover)
    ensures LoopGuard(s, now, rollover)
    ensures var s' := Pop(s, Front(s.pending), now);
      WF(s') && (Stays(s', d, now, rollover) || Stays(s', Later(now, s.all[s.pending[d]].ms), now, rollover))
  {
    PopWF(s, Front(s.pending), now);
  }

  lemma {:induction false} StaysForever<C>(s: State<C>, d: int, now: int, rollover: bool, n: nat)
    requires WF(s) && Stays(s, d, now, rollover)
    ensures WF(Turns(s, now, rollover, n)) && LoopGuard(Turns(s, now, rollover, n), now, rollover)
    decreases n
  {
    StaysOn(s, d, now, rollover);
    if n > 0 {
      var s' := Pop(s, Front(s.pending), now);
      var back := Later(now, s.all[s.pending[d]].ms);
      StaysForever(s', if Stays(s', d, now, rollover) then d else back, now, rollover, n - 1);
    }
  }

  /** Each turn leaves one due entry fewer. */
  lemma OneFewer<C>(s: State<C>, now: int, rollover: bool)
    requires WF(s) && LoopEnds(s, now, rollover) && LoopGuard(s, now, rollover)
    ensures var s' := Pop(s, Front(s.pending), now);
      && WF(s') && LoopEnds(s', now, rollover)
      && |DueSet(s, now, rollover)| == |DueSet(s', now, rollover)| + 1
      && Expire(s, now, rollover).0 == Expire(s', now, rollover).0
  {
    PopEnds(s, Front(s.pending), now, rollover);
    assert Front(s.pending) in DueSet(s, now, rollover);
  }

  lemma {:induction false} TurnsExpire<C>(s: State<C>, now: int, rollover: bool, n: nat)
    requires WF(s) && LoopEnds(s, now, rollover) && n == |DueSet(s, now, rollover)|
    ensures Turns(s, now, rollover, n) == Expire(s, now, rollover).0
    decreases n
  {
    if LoopGuard(s, now, rollover) {
      OneFewer(s, now, rollover);
      TurnsExpire(Pop(s, Front(s.pending), now), now, rollover, n - 1);
    }
  }

  /** listExpiredCb ends exactly when every timer that would come back due finds its next deadline taken
      by a later entry; it then takes as many turns as timers are due. */
  lemma LoopEndsIff<C>(s: State<C>, now: int, rollover: bool)
    requires WF(s)
    ensures LoopEnds(s, now, rollover) <==> exists n :: !LoopGuard(Turns(s, now, rollover, n), now, rollover)
  {
    if LoopEnds(s, now, rollover) {
      TurnsExpire(s, now, rollover, |DueSet(s, now, rollover)|);
      ExpireLeaves(s, now, rollover);
      assert !LoopGuard(Turns(s, now, rollover, |DueSet(s, now, rollover)|), now, rollover);
    } else {
      var d :| d in s.pending && ComesBack(s, d, now, rollover)
        && var back := Later(now, s.all[s.pending[d]].ms); !(d < back && back in s.pending);
      forall n: nat
        ensures LoopGuard(Turns(s, now, rollover, n), now, rollover)
      {
        StaysForever(s, d, now, rollover, n);
      }
    }
  }

  /** Without a rollover only a due timer of period zero comes back due; under one every recurring timer does. */
  lemma ComesBackWhen<C>(s: State<C>, d: int, now: int, rollover: bool)
    requires d in s.pending && s.pending[d] < |s.all|
    ensures var t := s.all[s.pending[d]];
      ComesBack(s, d, now, rollover) <==> t.recurring && (rollover || (d <= now && t.ms == 0))
  {
  }

  /** Where re-entries meet no other deadline, the loop ends exactly when no recurring timer meets a
      rollover and no due one has period zero. */
  lemma LoopEndsWithoutClash<C>(s: State<C>, now: int, rollover: bool)
    requires WF(s) && NoClash(s, now, rollover)
    ensures LoopEnds(s, now, rollover) <==>
      forall d :: d in s.pending && s.all[s.pending[d]].recurring ==>
        !rollover && (d <= now ==> s.all[s.pending[d]].ms > 0)
  {
    forall d | d in s.pending
      ensures var back := Later(now, s.all[s.pending[d]].ms);
        ComesBack(s, d, now, rollover) ==> !(d < back && back in s.pending)
    {
      var back := Later(now, s.all[s.pending[d]].ms);
      assert back in s.pending ==> !Meets(s, d, back, now, rollover);
      ComesBackWhen(s, d, now, rollover);
    }
    forall d | d in s.pending
      ensures ComesBack(s, d, now, rollover) <==>
        s.all[s.pending[d]].recurring && (rollover || (d <= now && s.all[s.pending[d]].ms == 0))
    {
      ComesBackWhen(s, d, now, rollover);
    }
  }

  // ---------- Callbacks and membership ----------

  /** A timer has a callback exactly when it is in the set, or one of `out`, which are not. */
  ghost predicate InStep<C>(s: State<C>, out: set<nat>) {
    && WF(s)
    && (forall id :: id in out ==> id < |s.all| && s.all[id].cb.Some? && !InSet(s, id))
    && (forall id :: 0 <= id < |s.all| && s.all[id].cb.Some? ==> InSet(s, id) || id in out)
    && (forall id: nat :: InSet(s, id) ==> s.all[id].cb.Some?)
  }

  /** ... and with none out: exactly when it is in the set. */
  ghost predicate CbIff<C>(s: State<C>) {
    InStep(s, {})
  }

  /** addTimer keeps the two in step exactly when no pending timer has the new deadline. */
  lemma AddCbIff<C>(s: State<C>, out: set<nat>, ms: nat, cb: C, recurring: bool, now: int)
    requires InStep(s, out)
    ensures WF(Add(s, ms, Some(cb), recurring, now).state)
    ensures InStep(Add(s, ms, Some(cb), recurring, now).state, out) <==> Later(now, ms) !in s.pending
  {
    var s' := Add(s, ms, Some(cb), recurring, now).state;
    assert forall id :: 0 <= id < |s.all| ==> s'.all[id] == s.all[id];
    if Later(now, ms) in s.pending {
      assert !InSet(s', |s.all|);
      assert s'.all[|s.all|].cb.Some?;
    }
  }

  lemma CancelCbIff<C>(s: State<C>, out: set<nat>, id: nat)
    requires InStep(s, out) && id < |s.all| && id !in out
    ensures InStep(Cancel(s, id).state, out)
    ensures Cancel(s, id).ok <==> InSet(s, id)
    ensures !InSet(Cancel(s, id).state, id)
  {
  }

  /** A re-insertion keeps them in step exactly when the new deadline is free once the old one is gone. */
  lemma RefreshCbIff<C>(s: State<C>, out: set<nat>, id: nat, now: int)
    requires InStep(s, out) && id < |s.all| && id !in out
    ensures Refresh(s, id, now).ok <==> InSet(s, id)
    ensures InStep(Refresh(s, id, now).state, out) <==>
            (InSet(s, id) ==> Later(now, s.all[id].ms) !in s.pending - {s.all[id].next})
  {
    var s' := Refresh(s, id, now).state;
    if InSet(s, id) && Later(now, s.all[id].ms) in s.pending - {s.all[id].next} {
      assert !InSet(s', id);
    }
  }

  /** The first section of reset takes the timer out, with its callback. */
  lemma EraseCbIff<C>(s: State<C>, out: set<nat>, id: nat)
    requires InStep(s, out) && InSet(s, id)
    ensures Found(s, id) && InStep(ResetErase(s, id), out + {id})
  {
  }

  function ResetDeadline<C>(t: Timer<C>, ms: nat, fromNow: bool, now: int): int {
    Later(if fromNow then now else t.next - t.ms * NS_PER_MS, ms)
  }

  /** The second section puts it back in step exactly when its deadline is free. */
  lemma PutCbIff<C>(s: State<C>, out: set<nat>, id: nat)
    requires InStep(s, out) && id in out
    ensures InStep(InsertTimer(s, id).state, out - {id}) <==> s.all[id].next !in s.pending
  {
    var s' := InsertTimer(s, id).state;
    if s.all[id].next in s.pending {
      assert !InSet(s', id);
    }
  }

  /** ... with the field updates before it: exactly when the new deadline is free. */
  lemma InsertCbIff<C>(s: State<C>, out: set<nat>, id: nat, ms: nat, fromNow: bool, now: int)
    requires InStep(s, out) && id in out
    ensures InStep(ResetInsert(s, id, ms, fromNow, now).state, out - {id}) <==>
            ResetDeadline(s.all[id], ms, fromNow, now) !in s.pending
  {
    var s' := ResetInsert(s, id, ms, fromNow, now).state;
    if ResetDeadline(s.all[id], ms, fromNow, now) in s.pending {
      assert !InSet(s', id);
    }
  }

  lemma ResetCbIff<C>(s: State<C>, id: nat, ms: nat, fromNow: bool, now: int)
    requires CbIff(s) && id < |s.all| && (ms != s.all[id].ms || fromNow)
    ensures Reset(s, id, ms, fromNow, now).ok <==> InSet(s, id)
    ensures CbIff(Reset(s, id, ms, fromNow, now).state) <==>
            (InSet(s, id) ==> ResetDeadline(s.all[id], ms, fromNow, now) !in s.pending - {s.all[id].next})
  {
    if InSet(s, id) {
      EraseCbIff(s, {}, id);
      InsertCbIff(ResetErase(s, id), {id}, id, ms, fromNow, now);
      assert {id} - {id} == {};
    }
  }

  /** The timer at `d` comes back where `e` stands, or where the timer at `e` comes back too. */
  predicate Meets<C>(s: State<C>, d: int, e: int, now: int, rollover: bool)
    requires d in s.pending && e in s.pending && s.pending[d] < |s.all| && s.pending[e] < |s.all|
  {
    var t, u := s.all[s.pending[d]], s.all[s.pending[e]];
    && d != e && IsDue(d, now, rollover) && t.recurring
    && (e == Later(now, t.ms) || (IsDue(e, now, rollover) && u.recurring && u.ms == t.ms))
  }

  /** Re-inserting the due recurring timers meets no other deadline. */
  ghost predicate NoClash<C>(s: State<C>, now: int, rollover: bool)
    requires WF(s)
  {
    forall d, e :: d in s.pending && e in s.pending ==> !Meets(s, d, e, now, rollover)
  }

  /** An expiry keeps callbacks and membership in step exactly when no re-entry meets another deadline. */
  lemma ExpireCbIff<C>(s: State<C>, out: set<nat>, now: int, rollover: bool)
    requires InStep(s, out) && LoopEnds(s, now, rollover)
    ensures InStep(Expire(s, now, rollover).0, out) <==> NoClash(s, now, rollover)
  {
    if NoClash(s, now, rollover) {
      ExpireKeepsCbIff(s, out, now, rollover);
    } else {
      var d, e :| d in s.pending && e in s.pending && Meets(s, d, e, now, rollover);
      ClashLosesTimer(s, out, d, e, now, rollover);
    }
  }

  lemma {:induction false} ExpireKeepsCbIff<C>(s: State<C>, out: set<nat>, now: int, rollover: bool)
    requires InStep(s, out) && LoopEnds(s, now, rollover) && NoClash(s, now, rollover)
    ensures InStep(Expire(s, now, rollover).0, out)
    decreases |DueSet(s, now, rollover)|
  {
    if LoopGuard(s, now, rollover) {
      var d := Front(s.pending);
      PopEnds(s, d, now, rollover);
      assert d in DueSet(s, now, rollover);
      PopCbIff(s, out, d, now, rollover);
      ExpireKeepsCbIff(Pop(s, d, now), out, now, rollover);
    }
  }

  lemma PopCbIff<C>(s: State<C>, out: set<nat>, d: int, now: int, rollover: bool)
    requires InStep(s, out) && LoopGuard(s, now, rollover) && d == Front(s.pending)
    requires LoopEnds(s, now, rollover) && NoClash(s, now, rollover)
    ensures InStep(Pop(s, d, now), out) && NoClash(Pop(s, d, now), now, rollover)
  {
    PopKeepsNoClash(s, d, now, rollover);
    var back := Later(now, s.all[s.pending[d]].ms);
    assert back in s.pending && back != d && s.all[s.pending[d]].recurring ==> Meets(s, d, back, now, rollover);
    PopKeepsCbIff(s, out, d, now);
  }

  lemma PopKeepsCbIff<C>(s: State<C>, out: set<nat>, d: int, now: int)
    requires InStep(s, out) && d in s.pending
    requires s.all[s.pending[d]].recurring ==> Later(now, s.all[s.pending[d]].ms) !in s.pending - {d}
    ensures InStep(Pop(s, d, now), out)
  {
    PopWF(s, d, now);
    assert InSet(s, s.pending[d]);
  }

  lemma PopKeepsNoClash<C>(s: State<C>, d: int, now: int, rollover: bool)
    requires WF(s) && LoopGuard(s, now, rollover) && d == Front(s.pending)
    requires LoopEnds(s, now, rollover) && NoClash(s, now, rollover)
    ensures WF(Pop(s, d, now)) && NoClash(Pop(s, d, now), now, rollover)
  {
    PopEnds(s, d, now, rollover);
    var s' := Pop(s, d, now);
    forall a, b | a in s'.pending && b in s'.pending
      ensures !Meets(s', a, b, now, rollover)
    {
      if a in s.pending && a != d {
        assert !Meets(s, d, a, now, rollover);
        assert b in s.pending ==> !Meets(s, a, b, now, rollover);
      }
    }
  }

  /** Of two timers that should end up at one deadline one is lost, with its callback. */
  lemma ClashLosesTimer<C>(s: State<C>, out: set<nat>, d: int, e: int, now: int, rollover: bool)
    requires InStep(s, out) && LoopEnds(s, now, rollover)
    requires d in s.pending && e in s.pending && Meets(s, d, e, now, rollover)
    ensures !InStep(Expire(s, now, rollover).0, out)
  {
    var i, j := s.pending[d], s.pending[e];
    var (s', fired) := Expire(s, now, rollover);
    ExpireLeaves(s, now, rollover);
    ExpireTimers(s, now, rollover, i);
    ExpireTimers(s, now, rollover, j);
    var f, g := Fired(d, i, s.all[i].cb), Fired(e, j, s.all[j].cb);
    ExpireWanted(s, now, rollover, f);
    ExpireWanted(s, now, rollover, g);
    assert InSet(s, i) && InSet(s, j) && i !in out && j !in out;
    assert f in fired && s'.all[i] == AfterExpiry(s.all[i], now) && s'.all[i].cb.Some?;
    if IsDue(e, now, rollover) {
      assert g in fired && s'.all[j] == AfterExpiry(s.all[j], now);
    }
    assert !InSet(s', i) || (!InSet(s', j) && s'.all[j].cb.Some?);
  }

  /** reset is two critical sections. When the cancel of a pending timer comes between them, everything
      is in step afterwards exactly when the cancelled timer is another one: a cancel of the timer being
      reset reports success too, and yet the timer goes back into the set, without a callback. */
  lemma ResetCancelIff<C>(s: State<C>, id: nat, j: nat, ms: nat, fromNow: bool, now: int)
    requires CbIff(s) && InSet(s, id) && InSet(s, j)
    requires ResetDeadline(s.all[id], ms, fromNow, now) !in s.pending - {s.all[id].next} - {s.all[j].next}
    ensures var c := Cancel(ResetErase(s, id), j);
            var after := ResetInsert(c.state, id, ms, fromNow, now).state;
            && c.ok && (CbIff(after) <==> j != id)
            && (j == id ==> InSet(after, id) && after.all[id].cb == None)
  {
    var c := Cancel(ResetErase(s, id), j);
    var after := ResetInsert(c.state, id, ms, fromNow, now).state;
    assert after.all[id].next in after.pending && after.pending[after.all[id].next] == id;
  }
}
