/** The timer manager as a value. A timer is named by its creation number; `pending` is the
    deadline-ordered set. Times are nanoseconds of the system clock. */
module Timers {
  import opened Options
  import opened DeadlineSet

  const NS_PER_MS := 1_000_000
  const ROLLOVER_NS := 60 * 60 * 1000 * NS_PER_MS

  datatype Timer<C> = Timer(next: int, ms: nat, recurring: bool, cb: Option<C>)

  datatype State<C> = State(all: seq<Timer<C>>, pending: DeadlineSet<nat>, tickled: bool, previous: int)

  /** New state, C++ return value, and whether onTimerInsertedAtFront was called. */
  datatype Effect<C> = Effect(state: State<C>, ok: bool, notify: bool)

  function Later(now: int, ms: nat): int {
    now + ms * NS_PER_MS
  }

  function Init<C>(now: int): State<C> {
    State([], map[], false, now)
  }

  /** addTimer(shared_ptr): insert, and notify once when the position is the front. */
  function InsertTimer<C>(s: State<C>, id: nat): Effect<C>
    requires id < |s.all|
  {
    var d := s.all[id].next;
    var front := AtFront(s.pending, d) && !s.tickled;
    Effect(s.(pending := Insert(s.pending, d, id), tickled := s.tickled || front), true, front)
  }

  function Add<C>(s: State<C>, ms: nat, cb: Option<C>, recurring: bool, now: int): Effect<C> {
    InsertTimer(s.(all := s.all + [Timer(Later(now, ms), ms, recurring, cb)]), |s.all|)
  }

  function Cancel<C>(s: State<C>, id: nat): Effect<C>
    requires id < |s.all|
  {
    if s.all[id].cb == None then Effect(s, false, false)
    else Effect(s.(all := s.all[id := s.all[id].(cb := None)], pending := s.pending - {s.all[id].next}), true, false)
  }

  /** The test refresh and reset share: a live timer whose deadline is found in the set. */
  predicate Found<C>(s: State<C>, id: nat)
    requires id < |s.all|
  {
    s.all[id].cb != None && s.all[id].next in s.pending
  }

  function Refresh<C>(s: State<C>, id: nat, now: int): Effect<C>
    requires id < |s.all|
  {
    var t := s.all[id];
    if !Found(s, id) then Effect(s, false, false)
    else
      var t' := t.(next := Later(now, t.ms));
      Effect(s.(all := s.all[id := t'], pending := Insert(s.pending - {t.next}, t'.next, id)), true, false)
  }

  /** reset's first critical section. */
  function ResetErase<C>(s: State<C>, id: nat): State<C>
    requires id < |s.all|
  {
    s.(pending := s.pending - {s.all[id].next})
  }

  /** The field updates between reset's two critical sections, made without the lock. */
  function Retimed<C>(s: State<C>, id: nat, ms: nat, fromNow: bool, now: int): State<C>
    requires id < |s.all|
  {
    var t := s.all[id];
    var start := if fromNow then now else t.next - t.ms * NS_PER_MS;
    s.(all := s.all[id := t.(ms := ms, next := Later(start, ms))])
  }

  /** ... and with the second section. */
  function ResetInsert<C>(s: State<C>, id: nat, ms: nat, fromNow: bool, now: int): Effect<C>
    requires id < |s.all|
  {
    InsertTimer(Retimed(s, id, ms, fromNow, now), id)
  }

  function Reset<C>(s: State<C>, id: nat, ms: nat, fromNow: bool, now: int): Effect<C>
    requires id < |s.all|
  {
    if ms == s.all[id].ms && !fromNow then Effect(s, true, false)
    else if !Found(s, id) then Effect(s, false, false)
    else ResetInsert(ResetErase(s, id), id, ms, fromNow, now)
  }

  /** getNextTimer: clears the tickle flag. */
  function ClearTickle<C>(s: State<C>): State<C> {
    s.(tickled := false)
  }

  /** The milliseconds getNextTimer returns, None for ~0ull. */
  ghost function Wait<C>(s: State<C>, now: int): Option<nat> {
    if s.pending == map[] then None
    else if now >= Front(s.pending) then Some(0)
    else Some((Front(s.pending) - now) / NS_PER_MS)
  }

  /** A wait for the earliest of these deadlines: none when there are none, no time when one is due, and
      otherwise whole milliseconds that end at it or less than one before it. */
  ghost predicate WaitsFor(deadlines: set<int>, now: int, wait: Option<nat>) {
    && (wait == None <==> deadlines == {})
    && ((exists d :: d in deadlines && d <= now) ==> wait == Some(0))
    && (wait.Some? && (forall d :: d in deadlines ==> now < d) ==> EndsBefore(deadlines, now, wait.value))
  }

  /** So many milliseconds from now pass no deadline, and one more passes one. */
  ghost predicate EndsBefore(deadlines: set<int>, now: int, ms: nat) {
    && (forall d :: d in deadlines ==> now + ms * 1_000_000 <= d)
    && exists d :: d in deadlines && d < now + (ms + 1) * 1_000_000
  }

  lemma WaitMeans<C>(s: State<C>, now: int)
    ensures WaitsFor(s.pending.Keys, now, Wait(s, now))
  {
    if s.pending != map[] {
      var front := Front(s.pending);
      assert front in s.pending.Keys;
      if now < front {
        WholeMilliseconds(front - now);
      }
    }
  }

  lemma WholeMilliseconds(gap: int)
    requires 0 < gap
    ensures 0 <= gap / NS_PER_MS && gap / NS_PER_MS * 1_000_000 <= gap < (gap / NS_PER_MS + 1) * 1_000_000
  {
  }

  predicate RolledOver<C>(s: State<C>, now: int) {
    now < s.previous - ROLLOVER_NS
  }

  // ---------- Well-formedness ----------

  /** The set stores each timer under its own deadline. */
  ghost predicate WF<C>(s: State<C>) {
    forall d :: d in s.pending ==> s.pending[d] < |s.all| && s.all[s.pending[d]].next == d
  }

  predicate InSet<C>(s: State<C>, id: nat) {
    id < |s.all| && s.all[id].next in s.pending && s.pending[s.all[id].next] == id
  }

  // ---------- listExpiredCb ----------

  predicate IsDue(next: int, now: int, rollover: bool) {
    rollover || next <= now
  }

  /** The loop guard of listExpiredCb. */
  ghost predicate LoopGuard<C>(s: State<C>, now: int, rollover: bool) {
    s.pending != map[] && IsDue(Front(s.pending), now, rollover)
  }

  /** Taking the entry at `d` out of the set: a recurring timer comes back later, a one-shot loses its callback. */
  function Pop<C>(s: State<C>, d: int, now: int): State<C>
    requires d in s.pending && s.pending[d] < |s.all|
  {
    var id := s.pending[d];
    var t := s.all[id];
    if t.recurring then
      var t' := t.(next := Later(now, t.ms));
      s.(all := s.all[id := t'], pending := Insert(s.pending - {d}, t'.next, id))
    else s.(all := s.all[id := t.(cb := None)], pending := s.pending - {d})
  }

  /** A due timer that comes back due: one that recurs and whose next deadline is due as well. */
  predicate ComesBack<C>(s: State<C>, d: int, now: int, rollover: bool)
    requires d in s.pending && s.pending[d] < |s.all|
  {
    var t := s.all[s.pending[d]];
    IsDue(d, now, rollover) && t.recurring && IsDue(Later(now, t.ms), now, rollover)
  }

  /** Every timer that would come back due finds its next deadline taken by a later entry. Without
      collisions: no recurring timer meets a rollover or, being due, has period zero. */
  ghost predicate LoopEnds<C>(s: State<C>, now: int, rollover: bool)
    requires WF(s)
  {
    forall d :: d in s.pending && ComesBack(s, d, now, rollover) ==>
      var back := Later(now, s.all[s.pending[d]].ms);
      d < back && back in s.pending
  }

  ghost function DueSet<C>(s: State<C>, now: int, rollover: bool): set<int> {
    set d | d in s.pending && IsDue(d, now, rollover)
  }

  lemma PopWF<C>(s: State<C>, d: int, now: int)
    requires WF(s) && d in s.pending
    ensures WF(Pop(s, d, now))
    ensures forall id :: id != s.pending[d] ==> (InSet(Pop(s, d, now), id) <==> InSet(s, id))
  {
  }

  /** What a turn does to the due entries. */
  lemma PopDue<C>(s: State<C>, d: int, now: int, rollover: bool)
    requires WF(s) && LoopGuard(s, now, rollover) && d == Front(s.pending) && LoopEnds(s, now, rollover)
    ensures var s' := Pop(s, d, now);
            && (forall k :: k in s'.pending && IsDue(k, now, rollover)
                  <==> k in s.pending && IsDue(k, now, rollover) && k != d)
            && (forall k :: k in s'.pending && k in s.pending ==> s'.pending[k] == s.pending[k])
  {
    assert d in s.pending && IsDue(d, now, rollover);
    assert ComesBack(s, d, now, rollover) ==> Later(now, s.all[s.pending[d]].ms) in s.pending - {d};
  }

  /** One turn of the loop: the popped deadline leaves the due ones and nothing due is added. */
  lemma PopEnds<C>(s: State<C>, d: int, now: int, rollover: bool)
    requires WF(s) && LoopGuard(s, now, rollover) && d == Front(s.pending) && LoopEnds(s, now, rollover)
    ensures var s' := Pop(s, d, now);
            && WF(s') && LoopEnds(s', now, rollover)
            && (forall k :: k in s'.pending && IsDue(k, now, rollover)
                  <==> k in s.pending && IsDue(k, now, rollover) && k != d)
            && (forall k :: k in s'.pending && k in s.pending ==> s'.pending[k] == s.pending[k])
            && DueSet(s', now, rollover) == DueSet(s, now, rollover) - {d}
  {
    PopWF(s, d, now);
    PopDue(s, d, now, rollover);
    var s' := Pop(s, d, now);
    forall k | k in s'.pending && ComesBack(s', k, now, rollover)
      ensures var back := Later(now, s'.all[s'.pending[k]].ms); k < back && back in s'.pending
    {
      assert k in s.pending && s'.pending[k] == s.pending[k] && ComesBack(s, k, now, rollover);
    }
  }

  /** A timer taken by the loop, with the deadline and callback it had. */
  datatype Fired<C> = Fired(at: int, id: nat, cb: Option<C>)

  /** The timers the loop collects, first to last, and the state it leaves. */
  ghost function Expire<C>(s: State<C>, now: int, rollover: bool): (r: (State<C>, seq<Fired<C>>))
    requires WF(s) && LoopEnds(s, now, rollover)
    decreases |DueSet(s, now, rollover)|
  {
    if !LoopGuard(s, now, rollover) then (s, [])
    else
      var d := Front(s.pending);
      PopEnds(s, d, now, rollover);
      assert d in DueSet(s, now, rollover);
      var (s', fired) := Expire(Pop(s, d, now), now, rollover);
      (s', [Fired(d, s.pending[d], s.all[s.pending[d]].cb)] + fired)
  }

  /** listExpiredCb reads the clock twice: `at` decides what is due, the later `seen` whether the clock
      was set back. */
  ghost function ListExpired<C>(s: State<C>, at: int, seen: int): (State<C>, seq<Fired<C>>)
    requires WF(s) && LoopEnds(s, at, RolledOver(s, seen))
  {
    Expire(s.(previous := seen), at, RolledOver(s, seen))
  }
}
