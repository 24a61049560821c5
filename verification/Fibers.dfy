/** A fiber as an object: its state, its callback, and whose context it gives control back to. */
module Fibers {
  import opened Options
  import R = Runtime

  // ---------- The life of a fiber ----------

  /** State and callback, with the callbacks installed so far and those that ran to their end. */
  datatype Life = Life(st: R.FiberState, cb: Option<int>, installed: seq<int>, ended: seq<int>)

  datatype Op = Resume | Yield | End | Reset(cb: int)

  function Born(cb: int): Life {
    Life(R.Ready, Some(cb), [cb], [])
  }

  /** What the assertions of the four operations let through. */
  predicate Enabled(l: Life, op: Op) {
    match op
    case Resume => l.st == R.Ready
    case Yield => l.st == R.Running
    case End => l.st == R.Running && l.cb.Some?
    case Reset(_) => l.st == R.Term
  }

  function Step(l: Life, op: Op): Life
    requires Enabled(l, op)
  {
    match op
    case Resume => l.(st := R.Running)
    case Yield => l.(st := R.Ready)
    case End => Life(R.Term, None, l.installed, l.ended + [l.cb.value])
    case Reset(cb) => Life(R.Ready, Some(cb), l.installed + [cb], l.ended)
  }

  predicate Admits(l: Life, ops: seq<Op>)
    decreases |ops|
  {
    ops == [] || (Enabled(l, ops[0]) && Admits(Step(l, ops[0]), ops[1..]))
  }

  function Run(l: Life, ops: seq<Op>): Life
    requires Admits(l, ops)
    decreases |ops|
  {
    if ops == [] then l else Run(Step(l, ops[0]), ops[1..])
  }

  /** The callbacks ended in the order installed: all of them when terminated, else all but the current. */
  ghost predicate InOrder(l: Life) {
    && l.installed != []
    && (if l.st == R.Term then l.cb == None && l.ended == l.installed
        else l.cb == Some(l.installed[|l.installed| - 1]) && l.ended + [l.cb.value] == l.installed)
  }

  lemma StepInOrder(l: Life, op: Op)
    requires InOrder(l) && Enabled(l, op)
    ensures InOrder(Step(l, op))
  {
  }

  lemma {:induction false} RunInOrder(l: Life, ops: seq<Op>)
    requires InOrder(l) && Admits(l, ops)
    ensures InOrder(Run(l, ops))
    decreases |ops|
  {
    if ops != [] {
      StepInOrder(l, ops[0]);
      RunInOrder(Step(l, ops[0]), ops[1..]);
    }
  }

  /** Over any reuse of a fiber every installed callback ends once, in order, before the next is
      installed; a fiber has a callback exactly when it has not terminated. */
  lemma EachCallbackOnce(cb: int, ops: seq<Op>)
    requires Admits(Born(cb), ops)
    ensures var l := Run(Born(cb), ops);
      && (l.cb.Some? <==> l.st != R.Term)
      && l.installed == l.ended + (if l.cb.Some? then [l.cb.value] else [])
  {
    RunInOrder(Born(cb), ops);
  }

  // ---------- Whose context ----------

  /** `current` is what GetThis answers, `running` whose code is executing, and `contexts` whose code each
      saved context would continue. */
  datatype Control<F> = Control(current: F, running: F, contexts: map<F, F>)

  /** A fiber whose context was never saved continues itself. */
  function Held<F>(c: Control<F>, f: F): F {
    if f in c.contexts then c.contexts[f] else f
  }

  /** SetThis and swapcontext: what is executing goes into the context of `saved`, whoever that is, and the
      context of `target` is continued. */
  function Switch<F>(c: Control<F>, saved: F, target: F): Control<F> {
    var c' := c.(contexts := c.contexts[saved := c.running]);
    c'.(current := target, running := Held(c', target))
  }

  /** The executing fiber is the current one, and every other context continues its own fiber. */
  ghost predicate Straight<F>(c: Control<F>) {
    c.current == c.running && forall f :: f in c.contexts && f != c.current ==> c.contexts[f] == f
  }

  /** A switch keeps that exactly when the context it saves into is the current fiber's: a resume made by the
      home fiber, a yield made by the fiber itself. */
  lemma SwitchIff<F>(c: Control<F>, saved: F, target: F)
    requires Straight(c)
    ensures Straight(Switch(c, saved, target)) <==> saved == c.current
  {
    assert saved in Switch(c, saved, target).contexts;
  }

  /** A resume from elsewhere leaves the thread crossed for good: once the fiber has yielded, the resumer's
      code goes on under the name of the home fiber. */
  lemma ResumeYieldIff<F>(c: Control<F>, home: F, f: F)
    requires Straight(c) && f != home && Held(c, f) == f
    ensures var back := Switch(Switch(c, home, f), f, home);
      back.current == home && back.running == c.running && (Straight(back) <==> c.current == home)
  {
    var out := Switch(c, home, f);
    var back := Switch(out, f, home);
    assert home in out.contexts && out.contexts[home] == c.running;
    assert home in back.contexts && back.contexts[home] == c.running;
    if c.current == home {
      SwitchIff(c, home, f);
      SwitchIff(out, f, home);
    }
  }

  // ---------- Objects ----------

  /** The thread-local pointers, and what the saved contexts hold. */
  class Thread {
    var control: Control<Fiber>
    const main: Fiber
    const scheduler: Fiber

    constructor (m: Fiber, s: Fiber)
      ensures control == Control(m, m, map[]) && Straight(control) && main == m && scheduler == s
    {
      control, main, scheduler := Control(m, m, map[]), m, s;
    }
  }

  class Fiber {
    var state: R.FiberState
    var cb: Option<int>
    const runInScheduler: bool
    ghost var installed: seq<int>
    ghost var ended: seq<int>

    ghost function Value(): Life
      reads this
    {
      Life(state, cb, installed, ended)
    }

    /** The fiber whose context a resume saves into and a yield continues. */
    function Home(t: Thread): Fiber {
      if runInScheduler then t.scheduler else t.main
    }

    constructor (callback: int, inScheduler: bool)
      ensures Value() == Born(callback) && runInScheduler == inScheduler
    {
      state, cb, runInScheduler := R.Ready, Some(callback), inScheduler;
      installed, ended := [callback], [];
    }

    /** Whoever calls it, the home fiber's context is saved into. */
    method Resume(t: Thread)
      requires state == R.Ready
      modifies this`state, t`control
      ensures Value() == Step(old(Value()), Op.Resume)
      ensures t.control == Switch(old(t.control), Home(t), this)
      ensures state == R.Running && t.control.current == this
      ensures t.control.contexts[if runInScheduler then t.scheduler else t.main] == old(t.control).running
      ensures Straight(old(t.control)) ==>
        (Straight(t.control) <==> old(t.control).current == if runInScheduler then t.scheduler else t.main)
    {
      ghost var before := t.control;
      state := R.Running;
      t.control := Switch(t.control, Home(t), this);
      if Straight(before) {
        SwitchIff(before, Home(t), this);
      }
    }

    /** A terminated fiber stays so; the home fiber's context is continued. */
    method Yield(t: Thread)
      requires state == R.Running || state == R.Term
      modifies this`state, t`control
      ensures t.control == Switch(old(t.control), this, Home(t))
      ensures t.control.current == if runInScheduler then t.scheduler else t.main
      ensures Straight(old(t.control)) && old(t.control).current == this ==>
        Straight(t.control) && t.control.running == Home(t)
      ensures state == if old(state) == R.Term then R.Term else R.Ready
      ensures Value() == if old(state) == R.Term then old(Value()) else Step(old(Value()), Op.Yield)
    {
      ghost var before := t.control;
      if state != R.Term {
        state := R.Ready;
      }
      t.control := Switch(t.control, this, Home(t));
      if Straight(before) {
        SwitchIff(before, this, Home(t));
      }
    }

    /** The end of the callback: it is dropped, the fiber terminates and control goes home for good. */
    method MainFunc(t: Thread)
      requires state == R.Running && cb.Some? && t.control.current == this
      modifies this, t`control
      ensures Value() == Step(old(Value()), End)
      ensures state == R.Term && cb == None && ended == old(ended) + [old(cb).value] && installed == old(installed)
      ensures t.control == Switch(old(t.control), this, Home(t))
      ensures Straight(old(t.control)) ==> Straight(t.control) && t.control.running == Home(t)
    {
      ended := ended + [cb.value];
      cb := None;
      state := R.Term;
      Yield(t);
    }

    method Reset(callback: int)
      requires state == R.Term
      modifies this
      ensures Value() == Step(old(Value()), Op.Reset(callback))
      ensures state == R.Ready && cb == Some(callback) && installed == old(installed) + [callback]
    {
      state := R.Ready;
      cb := Some(callback);
      installed := installed + [callback];
    }
  }
}
