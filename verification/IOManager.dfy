/** The FdContext and IOManager objects. Every method is proved to do to the object's abstract
    value exactly what the corresponding function of module Reactor does. */
module IOManager {
  import opened Options
  import R = Reactor

  class FdContext<W> {
    var events: R.Mask
    var read: Option<W>
    var write: Option<W>
    const fd: nat

    constructor (fd: nat)
      ensures this.fd == fd && Value() == R.FdState(R.NONE, None, None)
    {
      this.fd, events, read, write := fd, R.NONE, None, None;
    }

    ghost function Value(): R.FdState<W>
      reads this
    {
      R.FdState(events, read, write)
    }

    /** triggerEvent: the bit goes, the context is reset, its waiter goes to the scheduler. */
    method TriggerEvent(ev: R.Event) returns (woken: seq<W>)
      requires events.Has(ev)
      modifies this
      ensures Value() == R.TriggerBits(old(Value()), R.Only(ev)).0
      ensures woken == R.AsSeq(old(Value()).Context(ev))
    {
      events := events.Minus(R.Only(ev));
      if ev == R.Read {
        woken := R.AsSeq(read);
        read := None;
      } else {
        woken := R.AsSeq(write);
        write := None;
      }
    }
  }

  class IOManager<W> {
    var contexts: seq<FdContext<W>>
    var kernel: R.Kernel
    var pending: int
    /** The abstract value, tied to the fields by Linked. */
    ghost var state: R.State<W>

    ghost predicate Hold(fds: seq<R.FdState<W>>)
      reads this, contexts
    {
      && |contexts| == |fds|
      && (forall i :: 0 <= i < |contexts| ==> contexts[i].fd == i && contexts[i].Value() == fds[i])
    }

    ghost predicate Linked()
      reads this, contexts
    {
      && Hold(state.fds)
      && kernel == state.kernel && pending == state.pending
    }

    ghost predicate Valid()
      reads this, contexts
    {
      Linked() && R.Inv(state)
    }

    constructor ()
      ensures Valid() && state == R.Init()
    {
      contexts, kernel, pending, state := [], map[], 0, R.Init();
      new;
      Resize(R.INITIAL_CONTEXTS);
      R.InitInv<W>();
      assert Linked();
    }

    /** contextResize: the vector is cut off at `size`, or filled up with empty contexts. */
    method Resize(size: nat)
      requires forall i :: 0 <= i < |contexts| ==> contexts[i].fd == i
      modifies this`contexts
      ensures |contexts| == size && forall i :: 0 <= i < size ==> contexts[i].fd == i
      ensures forall i :: 0 <= i < size && i < |old(contexts)| ==> contexts[i] == old(contexts)[i]
      ensures forall i :: |old(contexts)| <= i < size ==>
        fresh(contexts[i]) && contexts[i].Value() == R.FdState(R.NONE, None, None)
    {
      if size < |contexts| {
        contexts := contexts[..size];
      }
      while |contexts| < size
        invariant |contexts| <= size && (size < |old(contexts)| ==> |contexts| == size)
        invariant size < |old(contexts)| || |old(contexts)| <= |contexts|
        invariant forall i :: 0 <= i < |contexts| ==> contexts[i].fd == i
        invariant forall i :: 0 <= i < |contexts| && i < |old(contexts)| ==> contexts[i] == old(contexts)[i]
        invariant forall i :: |old(contexts)| <= i < |contexts| ==>
          fresh(contexts[i]) && contexts[i].Value() == R.FdState(R.NONE, None, None)
      {
        var c := new FdContext<W>(|contexts|);
        contexts := contexts + [c];
      }
    }

    /** epoll_ctl: fails when the environment or the kernel's own rule says so. */
    method EpollCtl(op: R.CtlOp, fd: nat, mask: R.Mask, up: bool) returns (rt: int)
      modifies this`kernel
      ensures rt == if up && R.CtlLegal(old(kernel), op, fd) then 0 else -1
      ensures kernel == if rt == 0 then R.Ctl(old(kernel), op, fd, mask) else old(kernel)
    {
      if !up || (op == R.CtlAdd && fd in kernel) || (op != R.CtlAdd && fd !in kernel) {
        return -1;
      }
      kernel := if op == R.CtlDel then kernel - {fd} else kernel[fd := mask];
      return 0;
    }

    /** The context of `fd`, grown into being when the vector is too short. */
    method Context(fd: nat) returns (c: FdContext<W>)
      requires Valid()
      modifies this`contexts, this`state
      ensures Linked() && fd < |contexts| && c == contexts[fd]
      ensures state == old(state).(fds := R.Grow(old(state).fds, fd))
      ensures c in old(contexts) || fresh(c)
    {
      if |contexts| <= fd {
        Resize(fd * 3 / 2);
      }
      c := contexts[fd];
      state := state.(fds := R.Grow(state.fds, fd));
    }

    method AddEvent(fd: nat, ev: R.Event, w: W, up: bool) returns (rc: int)
      requires Valid()
      modifies this, contexts
      ensures Valid()
      ensures var e := R.AddEvent(old(state), fd, ev, w, up); state == e.state && rc == e.rc
    {
      R.GrowKeeps(state, fd, w);
      var c := Context(fd);
      rc := Register(c, ev, w, up);
    }

    /** addEvent under the context's mutex. */
    method Register(c: FdContext<W>, ev: R.Event, w: W, up: bool) returns (rc: int)
      requires Valid() && c.fd < |contexts| && contexts[c.fd] == c
      modifies this`kernel, this`pending, this`state, c
      ensures Valid()
      ensures var e := R.AddEvent(old(state), c.fd, ev, w, up); state == e.state && rc == e.rc
    {
      R.AddEventStep(state, c.fd, ev, w, up, w);
      if c.events.Has(ev) {
        return -1;
      }
      var op := if c.events.Any() then R.CtlMod else R.CtlAdd;
      rc := EpollCtl(op, c.fd, c.events.With(ev), up);
      if rc == 0 {
        assert c.Value().Context(ev) == None;
        state := R.AddEvent(state, c.fd, ev, w, up).state;
        pending := pending + 1;
        c.events := c.events.With(ev);
        if ev == R.Read {
          c.read := Some(w);
        } else {
          c.write := Some(w);
        }
      }
    }

    /** Trigger READ and then WRITE as far as `evs` has them. */
    method TriggerAll(c: FdContext<W>, evs: R.Mask, ghost fds: seq<R.FdState<W>>) returns (woken: seq<W>)
      requires Hold(fds) && c.fd < |contexts| && contexts[c.fd] == c && evs.Within(c.events)
      modifies c, this`pending
      ensures Hold(fds[c.fd := R.TriggerBits(old(c.Value()), evs).0])
      ensures woken == R.TriggerBits(old(c.Value()), evs).1
      ensures pending == old(pending) - evs.Count()
    {
      woken := [];
      if evs.read {
        woken := c.TriggerEvent(R.Read);
        pending := pending - 1;
      }
      if evs.write {
        var more := c.TriggerEvent(R.Write);
        woken := woken + more;
        pending := pending - 1;
      }
    }

    /** The part delEvent, cancelEvent, cancelAll and idle share: tell the kernel, then trigger
        READ and then WRITE as far as `evs` has them. */
    method Take(c: FdContext<W>, evs: R.Mask, up: bool) returns (rt: int, woken: seq<W>)
      requires Valid() && c.fd < |contexts| && contexts[c.fd] == c && evs.Within(c.events) && evs.Any()
      modifies c, this`pending, this`kernel, this`state
      ensures Valid()
      ensures var t := R.TakeBits(old(state), c.fd, evs, up);
              if t.None? then rt == -1 && state == old(state) && woken == []
              else rt == 0 && state == t.value.state && woken == t.value.woken
    {
      R.TakeBitsKeeps(state, c.fd, evs, up);
      var left := c.events.Minus(evs);
      rt := EpollCtl(if left.Any() then R.CtlMod else R.CtlDel, c.fd, left, up);
      woken := [];
      if rt == 0 {
        woken := TriggerAll(c, evs, state.fds);
        state := R.TakeBits(state, c.fd, evs, up).value.state;
      }
    }

    method CancelEvent(fd: nat, ev: R.Event, up: bool) returns (rc: int, woken: seq<W>)
      requires Valid()
      modifies this, contexts
      ensures Valid()
      ensures R.Effect(state, woken, rc) == R.CancelEvent(old(state), fd, ev, up)
    {
      if |contexts| <= fd || !contexts[fd].events.Has(ev) {
        return 0, [];
      }
      rc, woken := Take(contexts[fd], R.Only(ev), up);
      rc := 1;
    }

    method DelEvent(fd: nat, ev: R.Event, up: bool) returns (rc: int)
      requires Valid()
      modifies this, contexts
      ensures Valid()
      ensures R.Effect(state, [], rc) == R.DelEvent(old(state), fd, ev, up)
    {
      var dropped;
      rc, dropped := CancelEvent(fd, ev, up);
    }

    method CancelAll(fd: nat, up: bool) returns (rc: int, woken: seq<W>)
      requires Valid()
      modifies this, contexts
      ensures Valid()
      ensures R.Effect(state, woken, rc) == R.CancelAll(old(state), fd, up)
    {
      if |contexts| <= fd || !contexts[fd].events.Any() {
        return 0, [];
      }
      rc, woken := Take(contexts[fd], contexts[fd].events, up);
      rc := 1;
    }

    /** idle's handling of one report under the context's mutex. `held` says whether the assertion in
        triggerEvent holds: it fails exactly on a report that meets a registered bit but brings another along
        that is registered no more, once epoll_ctl has worked. */
    method HandleReport(fd: nat, rep: R.Report, up: bool) returns (held: bool, woken: seq<W>)
      requires Valid() && fd < |contexts|
      modifies this, contexts
      ensures held <==> R.ReportFresh(old(state), fd, rep) || !up
      ensures held ==> Valid() && state == R.HandleReport(old(state), fd, rep, up).state
      ensures held ==> woken == R.HandleReport(old(state), fd, rep, up).woken
    {
      var c := contexts[fd];
      var hit := R.Mask(rep.in_, rep.out);
      if rep.err {
        hit := R.Mask(rep.in_ || c.events.read, rep.out || c.events.write);
      }
      if !c.events.And(hit).Any() {
        return true, [];
      }
      var rt;
      if hit.Within(c.events) {
        rt, woken := Take(c, hit, up);
        held := true;
      } else {
        var left := c.events.Minus(hit);
        rt := EpollCtl(if left.Any() then R.CtlMod else R.CtlDel, fd, left, up);
        held, woken := rt != 0, [];
      }
    }
  }
}
