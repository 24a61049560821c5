/** The Timer and TimerManager objects. Every method is proved to do to the object's abstract
    value exactly what the corresponding function of module Timers does. */
module TimerManager {
  import opened Options
  import opened DeadlineSet
  import T = Timers

  class Timer<C> {
    var next: int
    var ms: nat
    var cb: Option<C>
    const recurring: bool
    ghost const id: nat

    constructor (ms: nat, cb: Option<C>, recurring: bool, now: int, ghost id: nat)
      ensures this.next == now + ms * 1_000_000 && this.ms == ms && this.cb == cb
      ensures this.recurring == recurring && this.id == id
    {
      this.next, this.ms, this.cb, this.recurring, this.id := T.Later(now, ms), ms, cb, recurring, id;
    }

    ghost function Value(): T.Timer<C>
      reads this
    {
      T.Timer(next, ms, recurring, cb)
    }

    /** Timer::cancel. */
    method Cancel(m: Manager<C>) returns (ok: bool)
      requires m.Valid() && m.Owns(this)
      modifies this, m
      ensures m.Valid() && m.all == old(m.all)
      ensures T.Effect(m.Abs(), ok, false) == T.Cancel(old(m.Abs()), id)
      ensures ok <==> old(cb) != None
      ensures cb == None && next == old(next) && ms == old(ms)
      ensures m.timers == if ok then old(m.timers) - {next} else old(m.timers)
    {
      ok := cb != None;
      if ok {
        Silence(m);
        m.EraseAt(next);
      }
    }

    /** The field updates of refresh and reset; reset makes them without the lock, between its sections. */
    method Retime(m: Manager<C>, newMs: nat, newNext: int)
      requires m.Valid() && m.Owns(this)
      modifies this`ms, this`next
      ensures next == newNext && ms == newMs
      ensures m.Abs() == old(m.Abs()).(all := old(m.Abs()).all[id := old(Value()).(ms := newMs, next := newNext)])
    {
      ms, next := newMs, newNext;
    }

    method Silence(m: Manager<C>)
      requires m.Valid() && m.Owns(this)
      modifies this`cb
      ensures m.Abs() == old(m.Abs()).(all := old(m.Abs()).all[id := old(Value()).(cb := None)])
    {
      cb := None;
    }

    /** Timer::refresh. */
    method Refresh(m: Manager<C>, now: int) returns (ok: bool)
      requires m.Valid() && m.Owns(this)
      modifies this, m
      ensures m.Valid() && m.all == old(m.all)
      ensures T.Effect(m.Abs(), ok, false) == T.Refresh(old(m.Abs()), id, now)
      ensures ok <==> cb != None && old(next) in old(m.timers)
      ensures cb == old(cb) && ms == old(ms) && next == if ok then now + ms * 1_000_000 else old(next)
      ensures m.timers == if ok then Placed(old(m.timers) - {old(next)}, this) else old(m.timers)
    {
      ok := cb != None && next in m.timers;
      if ok {
        m.EraseAt(next);
        Retime(m, ms, T.Later(now, ms));
        m.Place(this);
      }
    }

    /** Timer::reset up to the end of its first critical section: `moving` tells whether the timer was
        taken out; Shift and InsertTimer then put it back, whatever happens in between. */
    method Detach(m: Manager<C>, newMs: nat, fromNow: bool) returns (ok: bool, moving: bool)
      requires m.Valid() && m.Owns(this)
      modifies m`timers
      ensures m.Valid()
      ensures moving <==> (newMs != ms || fromNow) && cb != None && next in old(m.timers)
      ensures m.timers == if moving then old(m.timers) - {next} else old(m.timers)
      ensures ok <==> moving || (newMs == ms && !fromNow)
      ensures m.Abs() == if moving then T.ResetErase(old(m.Abs()), id) else old(m.Abs())
    {
      if newMs == ms && !fromNow {
        return true, false;
      }
      if cb == None || next !in m.timers {
        return false, false;
      }
      m.EraseAt(next);
      return true, true;
    }

    /** The new deadline of Timer::reset. */
    method Shift(m: Manager<C>, newMs: nat, fromNow: bool, now: int)
      requires m.Valid() && m.Owns(this)
      modifies this`ms, this`next
      ensures m.Abs() == T.Retimed(old(m.Abs()), id, newMs, fromNow, now)
      ensures ms == newMs
      ensures next == (if fromNow then now else old(next) - old(ms) * 1_000_000) + newMs * 1_000_000
    {
      var start := if fromNow then now else next - ms * T.NS_PER_MS;
      Retime(m, newMs, T.Later(start, newMs));
    }

    /** Timer::reset when nothing comes between its sections. */
    method Reset(m: Manager<C>, newMs: nat, fromNow: bool, now: int) returns (ok: bool, notify: bool)
      requires m.Valid() && m.Owns(this)
      modifies this, m
      ensures m.Valid() && m.all == old(m.all)
      ensures T.Effect(m.Abs(), ok, notify) == T.Reset(old(m.Abs()), id, newMs, fromNow, now)
      ensures ok <==> (newMs == old(ms) && !fromNow) || (cb != None && old(next) in old(m.timers))
      ensures cb == old(cb) && ms == if ok then newMs else old(ms)
      ensures !ok || (newMs == old(ms) && !fromNow) ==> next == old(next) && m.timers == old(m.timers)
      ensures ok && (newMs != old(ms) || fromNow) ==>
        && next == (if fromNow then now else old(next) - old(ms) * 1_000_000) + newMs * 1_000_000
        && m.timers == Placed(old(m.timers) - {old(next)}, this)
    {
      var moving;
      ok, moving := Detach(m, newMs, fromNow);
      notify := false;
      if moving {
        Shift(m, newMs, fromNow, now);
        notify := m.InsertTimer(this);
      }
    }
  }

  class Manager<C> {
    var timers: DeadlineSet<Timer<C>>
    var tickled: bool
    var previous: int
    /** Every timer ever created, by creation number. */
    ghost var all: seq<Timer<C>>

    ghost predicate Valid()
      reads this
    {
      && (forall i :: 0 <= i < |all| ==> all[i].id == i)
      && (forall d :: d in timers ==> timers[d].id < |all| && all[timers[d].id] == timers[d])
    }

    ghost predicate Owns(t: Timer<C>)
      reads this
    {
      t.id < |all| && all[t.id] == t
    }

    ghost function Abs(): T.State<C>
      reads this, all
    {
      T.State(Values(all), map d | d in timers :: timers[d].id, tickled, previous)
    }

    constructor (now: int)
      ensures Valid() && fresh(this) && all == [] && Abs() == T.Init(now)
    {
      timers, tickled, previous, all := map[], false, now, [];
    }

    /** std::set::erase of whatever sits at this deadline. */
    method EraseAt(d: int)
      requires Valid()
      modifies this`timers
      ensures Valid() && Abs() == old(Abs()).(pending := old(Abs()).pending - {d})
      ensures timers == old(timers) - {d}
    {
      timers := timers - {d};
    }

    /** std::set::insert: a taken deadline wins. */
    method Place(t: Timer<C>)
      requires Valid() && Owns(t)
      modifies this`timers
      ensures Valid() && Abs() == old(Abs()).(pending := Insert(old(Abs()).pending, t.next, t.id))
      ensures timers.Keys == old(timers.Keys) + {t.next} && timers == Placed(old(timers), t)
    {
      if t.next !in timers {
        timers := timers[t.next := t];
      }
    }

    /** addTimer(shared_ptr): the caller reports the notification to the IO manager. */
    method InsertTimer(t: Timer<C>) returns (notify: bool)
      requires Valid() && Owns(t)
      modifies this`timers, this`tickled
      ensures Valid()
      ensures T.Effect(Abs(), true, notify) == T.InsertTimer(old(Abs()), t.id)
      ensures timers == Placed(old(timers), t)
      ensures notify <==> !old(tickled) && forall d :: d in old(timers) ==> t.next <= d
      ensures tickled <==> old(tickled) || notify
    {
      Place(t);
      FrontSame(old(Abs()).pending, timers, t.next);
      notify := AtFront(timers, t.next) && !tickled;
      if notify {
        tickled := true;
      }
    }

    method AddTimer(ms: nat, cb: Option<C>, recurring: bool, now: int) returns (t: Timer<C>, notify: bool)
      requires Valid()
      modifies this
      ensures Valid() && fresh(t) && all == old(all) + [t] && t.id == |old(all)|
      ensures T.Effect(Abs(), true, notify) == T.Add(old(Abs()), ms, cb, recurring, now)
      ensures t.next == now + ms * 1_000_000 && t.ms == ms && t.cb == cb && t.recurring == recurring
      ensures timers == Placed(old(timers), t)
      ensures notify <==> !old(tickled) && forall d :: d in old(timers) ==> t.next <= d
    {
      t := Create(ms, cb, recurring, now);
      notify := InsertTimer(t);
    }

    /** A new timer, not yet in the set. */
    method Create(ms: nat, cb: Option<C>, recurring: bool, now: int) returns (t: Timer<C>)
      requires Valid()
      modifies this`all
      ensures Valid() && fresh(t) && all == old(all) + [t] && t.id == |old(all)|
      ensures t.next == now + ms * 1_000_000 && t.ms == ms && t.cb == cb && t.recurring == recurring
      ensures Abs() == old(Abs()).(all := old(Abs()).all + [t.Value()])
    {
      t := new Timer(ms, cb, recurring, now, |all|);
      all := all + [t];
      assert Values(all) == old(Values(all)) + [t.Value()];
    }

    /** begin(): the set is ordered by deadline. */
    method First() returns (d: int)
      requires timers != map[]
      ensures d == Front(timers) && d == Front(Abs().pending)
    {
      LeastExists(timers.Keys);
      d :| d in timers.Keys && forall j :: j in timers.Keys ==> d <= j;
      assert Abs().pending.Keys == timers.Keys;
    }

    method GetNextTimer(now: int) returns (wait: Option<nat>)
      requires Valid()
      modifies this`tickled
      ensures Valid() && Abs() == T.ClearTickle(old(Abs()))
      ensures wait == T.Wait(old(Abs()), now)
      ensures T.WaitsFor(old(Abs()).pending.Keys, now, wait)
    {
      T.WaitMeans(Abs(), now);
      wait := UntilFirst(now);
      tickled := false;
    }

    /** The milliseconds until the front of the set. */
    method UntilFirst(now: int) returns (wait: Option<nat>)
      requires Valid()
      ensures wait == T.Wait(Abs(), now)
    {
      if timers == map[] {
        return None;
      }
      var time := First();
      if now >= time {
        return Some(0);
      }
      return Some((time - now) / T.NS_PER_MS);
    }

    /** One turn of the loop in listExpiredCb. */
    method PopFront(now: int) returns (cb: Option<C>)
      requires Valid() && T.WF(Abs()) && timers != map[]
      modifies this`timers, all
      ensures Valid()
      ensures var d := Front(old(Abs()).pending);
              Abs() == T.Pop(old(Abs()), d, now) && cb == old(Abs()).all[old(Abs()).pending[d]].cb
    {
      var d := First();
      var t := timers[d];
      EraseAt(d);
      cb := t.cb;
      if t.recurring {
        t.Retime(this, t.ms, T.Later(now, t.ms));
        Place(t);
      } else {
        t.Silence(this);
      }
    }

    /** detectClockRollover. */
    method DetectClockRollover(now: int) returns (rollover: bool)
      requires Valid()
      modifies this`previous
      ensures Valid() && rollover == T.RolledOver(old(Abs()), now) && Abs() == old(Abs()).(previous := now)
      ensures rollover <==> 3_600_000_000_000 < old(previous) - now
      ensures previous == now
    {
      rollover := now < previous - T.ROLLOVER_NS;
      previous := now;
    }

    /** Required is exactly that the loop ends. */
    method ListExpiredCb(at: int, seen: int) returns (cbs: seq<Option<C>>)
      requires Valid() && T.WF(Abs()) && T.LoopEnds(Abs(), at, T.RolledOver(Abs(), seen))
      modifies this, all
      ensures Valid() && all == old(all) && previous == seen
      ensures var (after, fired) := T.ListExpired(old(Abs()), at, seen);
              Abs() == after && cbs == Callbacks(fired)
    {
      var rollover := DetectClockRollover(seen);
      cbs := Drain(at, rollover);
    }

    method Drain(now: int, rollover: bool) returns (cbs: seq<Option<C>>)
      requires Valid() && T.WF(Abs()) && T.LoopEnds(Abs(), now, rollover)
      modifies this`timers, all
      ensures Valid()
      ensures var (after, fired) := T.Expire(old(Abs()), now, rollover);
              Abs() == after && cbs == Callbacks(fired)
    {
      cbs := [];
      ghost var goal := T.Expire(Abs(), now, rollover);
      ghost var left: nat := |T.DueSet(Abs(), now, rollover)|;
      var due := Guard(now, rollover);
      while due
        invariant Looping(now, rollover, goal, cbs, left) && due == T.LoopGuard(Abs(), now, rollover)
        decreases left
      {
        cbs, due, left := Turn(now, rollover, goal, cbs, left);
      }
      ExpireDone(Abs(), now, rollover, goal, cbs);
    }

    /** The loop started towards `goal`, has collected `done`, and `left` timers are still due. */
    ghost predicate Looping(now: int, rollover: bool, goal: (T.State<C>, seq<T.Fired<C>>),
                            done: seq<Option<C>>, left: nat)
      reads this, all
    {
      Valid() && OnCourse(Abs(), now, rollover, goal, done) && left == |T.DueSet(Abs(), now, rollover)|
    }

    /** The loop body. */
    method Turn(now: int, rollover: bool, ghost goal: (T.State<C>, seq<T.Fired<C>>),
                done: seq<Option<C>>, ghost left: nat)
      returns (cbs: seq<Option<C>>, due: bool, ghost left': nat)
      requires Looping(now, rollover, goal, done, left) && T.LoopGuard(Abs(), now, rollover)
      modifies this`timers, all
      ensures Looping(now, rollover, goal, cbs, left') && left' < left && due == T.LoopGuard(Abs(), now, rollover)
    {
      ExpireTurn(Abs(), now, rollover, goal, done);
      var cb := PopFront(now);
      cbs := done + [cb];
      left' := |T.DueSet(Abs(), now, rollover)|;
      due := Guard(now, rollover);
    }

    /** The loop guard. */
    method Guard(now: int, rollover: bool) returns (due: bool)
      requires Valid()
      ensures due == T.LoopGuard(Abs(), now, rollover)
    {
      if timers == map[] {
        return false;
      }
      var d := First();
      due := rollover || d <= now;
    }
  }

  /** The timer stands at its deadline, unless another was there before. */
  function Placed<C>(timers: DeadlineSet<Timer<C>>, t: Timer<C>): (placed: DeadlineSet<Timer<C>>)
    reads t
    ensures t.next in placed && (forall d :: d in placed <==> d in timers || d == t.next)
    ensures forall d :: d in timers ==> placed[d] == timers[d]
    ensures t.next !in timers ==> placed[t.next] == t
  {
    if t.next in timers then timers else timers[t.next := t]
  }

  ghost function Callbacks<C>(fired: seq<T.Fired<C>>): seq<Option<C>> {
    if fired == [] then [] else [fired[0].cb] + Callbacks(fired[1..])
  }

  /** The loop started towards `goal`, has collected `done` and is now at `s`. */
  ghost predicate OnCourse<C>(s: T.State<C>, now: int, rollover: bool,
                              goal: (T.State<C>, seq<T.Fired<C>>), done: seq<Option<C>>)
  {
    && T.WF(s) && T.LoopEnds(s, now, rollover)
    && T.Expire(s, now, rollover).0 == goal.0
    && done + Callbacks(T.Expire(s, now, rollover).1) == Callbacks(goal.1)
  }

  lemma ExpireTurn<C>(s: T.State<C>, now: int, rollover: bool,
                      goal: (T.State<C>, seq<T.Fired<C>>), done: seq<Option<C>>)
    requires OnCourse(s, now, rollover, goal, done) && T.LoopGuard(s, now, rollover)
    ensures var d := Front(s.pending); var s' := T.Pop(s, d, now);
            && OnCourse(s', now, rollover, goal, done + [s.all[s.pending[d]].cb])
            && |T.DueSet(s', now, rollover)| < |T.DueSet(s, now, rollover)|
  {
    var d := Front(s.pending);
    T.PopEnds(s, d, now, rollover);
    assert d in T.DueSet(s, now, rollover);
    var cb, rest := s.all[s.pending[d]].cb, T.Expire(T.Pop(s, d, now), now, rollover).1;
    assert T.Expire(s, now, rollover).1[1..] == rest;
    assert done + ([cb] + Callbacks(rest)) == done + [cb] + Callbacks(rest);
  }

  lemma ExpireDone<C>(s: T.State<C>, now: int, rollover: bool,
                      goal: (T.State<C>, seq<T.Fired<C>>), done: seq<Option<C>>)
    requires OnCourse(s, now, rollover, goal, done) && !T.LoopGuard(s, now, rollover)
    ensures s == goal.0 && done == Callbacks(goal.1)
  {
  }

  ghost function Values<C>(ts: seq<Timer<C>>): (r: seq<T.Timer<C>>)
    reads ts
    ensures |r| == |ts| && forall i :: 0 <= i < |ts| ==> r[i] == ts[i].Value()
  {
    if ts == [] then [] else Values(ts[..|ts| - 1]) + [ts[|ts| - 1].Value()]
  }
}
