/** A hooked I/O call: attempts, waits and a timeout, against everything the system may answer. */
module DoIo {
  import opened Options

  /** What an attempt at the system call gives: interrupted, not ready, or a result (which may be an error). */
  datatype Attempt = Interrupted | NotReady | Result(value: int)

  /** What waiting for readiness gives: the event cannot be registered, or the fiber is resumed, and
      whether one of this call's timers has fired by then. */
  datatype Wait = NotRegistered | Resumed(fired: bool)

  datatype Answer = Returned(value: int) | TimedOut | RegistrationFailed | Blocked

  datatype TimerUse = Armed(wait: nat) | Cancelled(wait: nat)

  // ---------- A blocking call with a timeout ----------

  function FirstResult(attempts: seq<Attempt>): (k: nat)
    ensures k <= |attempts| && (k < |attempts| ==> attempts[k].Result?)
    ensures forall i :: 0 <= i < k ==> !attempts[i].Result?
  {
    if attempts == [] || attempts[0].Result? then 0 else 1 + FirstResult(attempts[1..])
  }

  function NotReadies(attempts: seq<Attempt>, k: nat): nat
    requires k <= |attempts|
  {
    if k == 0 then 0 else NotReadies(attempts, k - 1) + if attempts[k - 1].NotReady? then 1 else 0
  }

  /** A wait that ends the call. */
  predicate Stops(w: Wait, timed: bool) {
    w.NotRegistered? || (timed && w.fired)
  }

  function FirstStop(waits: seq<Wait>, timed: bool): (j: nat)
    ensures j <= |waits| && (j < |waits| ==> Stops(waits[j], timed))
    ensures forall i :: 0 <= i < j ==> !Stops(waits[i], timed)
  {
    if waits == [] || Stops(waits[0], timed) then 0 else 1 + FirstStop(waits[1..], timed)
  }

  /** The call returns the first result, unless before it a wait fails or finds the time over. */
  function BlockingCall(attempts: seq<Attempt>, waits: seq<Wait>, timed: bool): Answer {
    var k, j := FirstResult(attempts), FirstStop(waits, timed);
    var needed := NotReadies(attempts, k);
    if j < |waits| && j < needed then if waits[j].NotRegistered? then RegistrationFailed else TimedOut
    else if k < |attempts| && needed <= |waits| then Returned(attempts[k].value)
    else Blocked
  }

  /** Every timer armed for a wait has been cancelled. */
  function TimerLog(waits: nat, timed: bool): seq<TimerUse> {
    if waits == 0 || !timed then [] else TimerLog(waits - 1, timed) + [Armed(waits - 1), Cancelled(waits - 1)]
  }

  /** Of the timers armed one by one, each is cancelled before the next. */
  ghost predicate EachCancelled(timers: seq<TimerUse>, waits: nat) {
    && |timers| == 2 * waits
    && forall i :: 0 <= i < waits ==> timers[2 * i] == Armed(i) && timers[2 * i + 1] == Cancelled(i)
  }

  lemma {:induction false} TimersCancelled(waits: nat)
    ensures EachCancelled(TimerLog(waits, true), waits) && TimerLog(waits, false) == []
  {
    if waits > 0 {
      TimersCancelled(waits - 1);
    }
  }

  lemma {:induction false} FirstResultAppend(a: seq<Attempt>, b: seq<Attempt>)
    ensures FirstResult(a + b) == if FirstResult(a) < |a| then FirstResult(a) else |a| + FirstResult(b)
  {
    if a == [] {
      assert a + b == b;
    } else if !a[0].Result? {
      assert (a + b)[1..] == a[1..] + b;
      FirstResultAppend(a[1..], b);
    }
  }

  lemma {:induction false} FirstStopAppend(a: seq<Wait>, b: seq<Wait>, timed: bool)
    ensures FirstStop(a + b, timed)
         == if FirstStop(a, timed) < |a| then FirstStop(a, timed) else |a| + FirstStop(b, timed)
  {
    if a == [] {
      assert a + b == b;
    } else if !Stops(a[0], timed) {
      assert (a + b)[1..] == a[1..] + b;
      FirstStopAppend(a[1..], b, timed);
    }
  }

  lemma {:induction false} NotReadiesGrow(attempts: seq<Attempt>, i: nat, k: nat)
    requires i <= k <= |attempts|
    ensures NotReadies(attempts, i) <= NotReadies(attempts, k)
  {
    if i < k {
      NotReadiesGrow(attempts, i, k - 1);
    }
  }

  lemma {:induction false} NotReadiesAppend(a: seq<Attempt>, b: seq<Attempt>, k: nat)
    requires k <= |a + b|
    ensures NotReadies(a + b, k)
         == if k <= |a| then NotReadies(a, k) else NotReadies(a, |a|) + NotReadies(b, k - |a|)
  {
    if k > 0 {
      NotReadiesAppend(a, b, k - 1);
    }
  }

  /** An attempt among others: where the first result is, and how many waits it takes. */
  lemma Extra(a: seq<Attempt>, x: Attempt, b: seq<Attempt>)
    requires !x.Result?
    ensures
      var k, k' := FirstResult(a + b), FirstResult(a + [x] + b);
      var n, n' := NotReadies(a + b, k), NotReadies(a + [x] + b, k');
      && (k' < |a + [x] + b| <==> k < |a + b|) && (k < |a + b| ==> (a + [x] + b)[k'] == (a + b)[k])
      && (k < |a| ==> n' == n <= NotReadies(a, |a|))
      && (|a| <= k ==> NotReadies(a, |a|) <= n && n' == n + if x.NotReady? then 1 else 0)
  {
    var c := [x] + b;
    assert a + [x] + b == a + c && c[1..] == b;
    FirstResultAppend(a, b);
    FirstResultAppend(a, c);
    NotReadiesAppend(a, b, FirstResult(a + b));
    NotReadiesAppend(a, c, FirstResult(a + c));
    if FirstResult(a) < |a| {
      NotReadiesGrow(a, FirstResult(a), |a|);
    } else {
      NotReadiesAppend([x], b, 1 + FirstResult(b));
      assert NotReadies([x], 0) == 0 && NotReadies([x], 1) == if x.NotReady? then 1 else 0;
    }
  }

  lemma ExtraWait(w: seq<Wait>, stray: Wait, v: seq<Wait>, timed: bool)
    requires !Stops(stray, timed)
    ensures
      var j, j' := FirstStop(w + v, timed), FirstStop(w + [stray] + v, timed);
      && (j' < |w + [stray] + v| <==> j < |w + v|)
      && (j < |w + v| ==> (w + [stray] + v)[j'] == (w + v)[j])
      && j' == if j < |w| then j else j + 1
  {
    var c := [stray] + v;
    assert w + [stray] + v == w + c && c[1..] == v;
    assert FirstStop(c, timed) == 1 + FirstStop(v, timed);
    FirstStopAppend(w, v, timed);
    FirstStopAppend(w, c, timed);
    var j, k := FirstStop(w, timed), FirstStop(v, timed);
    if j == |w| && k < |v| {
      assert (w + v)[j + k] == v[k] && (w + c)[j + 1 + k] == c[1 + k];
    }
  }

  /** An interruption changes nothing. */
  lemma InterruptionInvisible(a: seq<Attempt>, b: seq<Attempt>, waits: seq<Wait>, timed: bool)
    ensures BlockingCall(a + [Interrupted] + b, waits, timed) == BlockingCall(a + b, waits, timed)
  {
    Extra(a, Interrupted, b);
  }

  /** Neither does a wake-up without readiness and within the time: it only causes another attempt. */
  lemma StrayWakeInvisible(a: seq<Attempt>, b: seq<Attempt>, w: seq<Wait>, stray: Wait, v: seq<Wait>, timed: bool)
    requires !Stops(stray, timed) && NotReadies(a, |a|) == |w|
    ensures BlockingCall(a + [NotReady] + b, w + [stray] + v, timed) == BlockingCall(a + b, w + v, timed)
  {
    Extra(a, NotReady, b);
    ExtraWait(w, stray, v, timed);
  }

  /** Without a timeout the call never times out. */
  lemma UntimedNeverTimesOut(attempts: seq<Attempt>, waits: seq<Wait>)
    ensures BlockingCall(attempts, waits, false) != TimedOut
  {
  }

  // ---------- The retry loop ----------

  /** The call after `tried` attempts and `waited` waits, none of which ended it. */
  ghost predicate Going(attempts: seq<Attempt>, waits: seq<Wait>, timed: bool, tried: nat, waited: nat) {
    && tried <= |attempts| && tried <= FirstResult(attempts)
    && waited <= |waits| && waited <= FirstStop(waits, timed) && waited == NotReadies(attempts, tried)
  }

  /** No result among the first `n` attempts. */
  ghost predicate NoResult(attempts: seq<Attempt>, n: int)
    requires n <= |attempts|
  {
    forall i :: 0 <= i < n ==> attempts[i] in {Interrupted, NotReady}
  }

  /** Among the first `n` waits none failed and, with a timeout, none found the timer fired. */
  ghost predicate NoEnd(waits: seq<Wait>, n: int, timed: bool)
    requires n <= |waits|
  {
    forall i :: 0 <= i < n ==> waits[i] == Resumed(false) || (!timed && waits[i] == Resumed(true))
  }

  /** The call, repeated while it is interrupted, as long as the list lasts. */
  method TryCall(attempts: seq<Attempt>, tried: nat) returns (n: Attempt, used: nat)
    requires tried <= |attempts|
    ensures tried <= used <= |attempts|
    ensures if n.Interrupted? then used == |attempts| && (tried < used ==> attempts[used - 1] == n)
            else tried < used && attempts[used - 1] == n
    ensures NotReadies(attempts, used) == NotReadies(attempts, tried) + if n.NotReady? then 1 else 0
    ensures tried <= FirstResult(attempts) ==> if n.Result? then FirstResult(attempts) == used - 1
                                               else used <= FirstResult(attempts)
  {
    used := tried;
    n := Interrupted;
    while n.Interrupted? && used < |attempts|
      invariant tried <= used <= |attempts| && (tried < used ==> attempts[used - 1] == n)
      invariant used == tried ==> n.Interrupted?
      invariant NotReadies(attempts, used) == NotReadies(attempts, tried) + if n.NotReady? then 1 else 0
      invariant tried <= FirstResult(attempts) ==> if n.Result? then FirstResult(attempts) == used - 1
                                                   else used <= FirstResult(attempts)
      decreases |attempts| - used
    {
      n := attempts[used];
      used := used + 1;
    }
  }

  /** `do_io` past its pass-through checks: `used` attempts were made and `waited` waits. The system is a
      list of answers to the attempts and one of answers to the waits; a call that outlives its list is
      still blocked. */
  method DoIO(attempts: seq<Attempt>, waits: seq<Wait>, timed: bool)
    returns (answer: Answer, used: nat, waited: nat, timers: seq<TimerUse>)
    ensures answer == BlockingCall(attempts, waits, timed)
    ensures used <= |attempts| && waited <= |waits| && waited <= NotReadies(attempts, used)
    ensures answer.Returned? ==> 0 < used && attempts[used - 1] == Result(answer.value) && NoResult(attempts, used - 1)
    ensures !answer.Returned? ==> NoResult(attempts, used)
    ensures !answer.Blocked? ==> waited == NotReadies(attempts, used) && timers == TimerLog(waited, timed)
    ensures answer.TimedOut? ==> timed && 0 < waited && waits[waited - 1] == Resumed(true)
    ensures answer.RegistrationFailed? ==> 0 < waited && waits[waited - 1] == NotRegistered
    ensures answer.TimedOut? || answer.RegistrationFailed? ==> NoEnd(waits, waited - 1, timed)
    ensures answer.Returned? || answer.Blocked? ==> NoEnd(waits, waited, timed)
    ensures answer.Blocked? ==>
      || (used == |attempts| && waited == NotReadies(attempts, used))
      || (waited == |waits| && 0 < used && attempts[used - 1] == NotReady)
  {
    used, waited, timers := 0, 0, [];
    while true
      invariant Going(attempts, waits, timed, used, waited) && used <= |attempts| && waited <= |waits|
      invariant timers == TimerLog(waited, timed)
      decreases |attempts| - used
    {
      var n;
      n, used := TryCall(attempts, used);
      if n.Interrupted? {
        return Blocked, used, waited, timers;
      }
      if n.Result? {
        assert FirstResult(attempts) == used - 1;
        return Returned(n.value), used, waited, timers;
      }
      if timed {
        timers := timers + [Armed(waited)];
      }
      NotReadiesGrow(attempts, used, FirstResult(attempts));
      if waited == |waits| {
        return Blocked, used, waited, timers;
      }
      var w := waits[waited];
      assert Stops(w, timed) ==> FirstStop(waits, timed) == waited;
      waited := waited + 1;
      if timed {
        timers := timers + [Cancelled(waited - 1)];
      }
      if w.NotRegistered? {
        return RegistrationFailed, used, waited, timers;
      }
      if timed && w.fired {
        return TimedOut, used, waited, timers;
      }
    }
  }

  // ---------- Connecting ----------

  /** What the first connect call gives. */
  datatype Start = Established | InProgress | Failed

  /** A connect with a timeout waits at most once, without a retry. `error` is the socket's pending error,
      if it can be read. Success therefore means no more than that none was pending when the wait was over:
      a resumption without readiness, or a wait that could not be registered, reads as success too. */
  method ConnectWithTimeout(start: Start, wait: Wait, timed: bool, error: Option<int>)
    returns (answer: Answer, timers: seq<TimerUse>)
    ensures answer == Returned(0) <==>
      start.Established? || (start.InProgress? && !(timed && wait == Resumed(true)) && error == Some(0))
    ensures answer == TimedOut <==> start.InProgress? && timed && wait == Resumed(true)
    ensures answer.Returned? || answer.TimedOut?
    ensures timers == if start.InProgress? then TimerLog(1, timed) else []
  {
    timers := [];
    if start.Established? {
      return Returned(0), timers;
    } else if start.Failed? {
      return Returned(-1), timers;
    }
    assert TimerLog(1, timed) == if timed then TimerLog(0, timed) + [Armed(0), Cancelled(0)] else [];
    if timed {
      timers := timers + [Armed(0)];
    }
    if wait.Resumed? {
      if timed {
        timers := timers + [Cancelled(0)];
      }
      if timed && wait.fired {
        return TimedOut, timers;
      }
    } else if timed {
      timers := timers + [Cancelled(0)];
    }
    if error.None? || error.value != 0 {
      return Returned(-1), timers;
    }
    answer := Returned(0);
  }
}
