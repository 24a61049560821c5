/** The event-registration protocol of the IO manager as a value: per-fd event bits and
    contexts, the pending counter and the kernel's epoll interest map. Each function is one
    critical section of the C++ code; `up` says whether the environment lets `epoll_ctl` work. */
module Reactor {
  import opened Options
  import opened Sums

  datatype Event = Read | Write

  /** An event mask: READ is EPOLLIN, WRITE is EPOLLOUT. */
  datatype Mask = Mask(read: bool, write: bool) {
    predicate Has(ev: Event) {
      if ev == Read then read else write
    }

    predicate Any() {
      read || write
    }

    function With(ev: Event): Mask {
      if ev == Read then this.(read := true) else this.(write := true)
    }

    function Minus(m: Mask): Mask {
      Mask(read && !m.read, write && !m.write)
    }

    function And(m: Mask): Mask {
      Mask(read && m.read, write && m.write)
    }

    function Count(): nat {
      (if read then 1 else 0) + if write then 1 else 0
    }

    predicate Within(m: Mask) {
      (read ==> m.read) && (write ==> m.write)
    }
  }

  const NONE := Mask(false, false)

  function Only(ev: Event): Mask {
    NONE.With(ev)
  }

  /** `read` and `write` are the two event contexts; None is a reset context. */
  datatype FdState<W> = FdState(events: Mask, read: Option<W>, write: Option<W>) {
    function Context(ev: Event): Option<W> {
      if ev == Read then read else write
    }

    function WithContext(ev: Event, c: Option<W>): FdState<W> {
      if ev == Read then this.(read := c) else this.(write := c)
    }
  }

  datatype CtlOp = CtlAdd | CtlMod | CtlDel

  const INITIAL_CONTEXTS: nat := 32

  type Kernel = map<nat, Mask>

  datatype Table<W> = State(fds: seq<FdState<W>>, kernel: Kernel, pending: int)

  /** The constructor makes 32 contexts and the vector never shrinks below that. */
  type State<W> = r: Table<W> | INITIAL_CONTEXTS <= |r.fds| witness State(Blank(INITIAL_CONTEXTS), map[], 0)

  /** New state, the waiters handed to the scheduler in order, and the C++ return value. */
  datatype Effect<W> = Effect(state: State<W>, woken: seq<W>, rc: int)

  /** What epoll_wait reported for one descriptor; `err` is EPOLLERR or EPOLLHUP. */
  datatype Report = Report(in_: bool, out: bool, err: bool)

  function Blank<W>(n: nat): (s: seq<FdState<W>>)
    ensures |s| == n && forall i :: 0 <= i < n ==> s[i] == FdState(NONE, None, None)
  {
    if n == 0 then [] else Blank(n - 1) + [FdState(NONE, None, None)]
  }

  function Init<W>(): State<W> {
    State(Blank(INITIAL_CONTEXTS), map[], 0)
  }

  /** The kernel's own rule: ADD needs an absent descriptor, MOD and DEL a present one. */
  predicate CtlLegal(kernel: Kernel, op: CtlOp, fd: nat) {
    if op == CtlAdd then fd !in kernel else fd in kernel
  }

  function Ctl(kernel: Kernel, op: CtlOp, fd: nat, mask: Mask): Kernel {
    if op == CtlDel then kernel - {fd} else kernel[fd := mask]
  }

  function AsSeq<W>(c: Option<W>): seq<W> {
    if c.Some? then [c.value] else []
  }

  /** contextResize: cuts the vector off at `size`, or fills it up with empty contexts. */
  function Resize<W>(fds: seq<FdState<W>>, size: nat): (r: seq<FdState<W>>)
    ensures |r| == size
  {
    if size <= |fds| then fds[..size] else fds + Blank(size - |fds|)
  }

  /** addEvent resizes only when `fd` is out of range, and then makes it in range. */
  function Grow<W>(fds: seq<FdState<W>>, fd: nat): (r: seq<FdState<W>>)
    requires INITIAL_CONTEXTS <= |fds|
    ensures fd < |r| && fds <= r
  {
    if fd < |fds| then fds else Resize(fds, fd * 3 / 2)
  }

  function AddOp(events: Mask): CtlOp {
    if events.Any() then CtlMod else CtlAdd
  }

  function RemoveOp(left: Mask): CtlOp {
    if left.Any() then CtlMod else CtlDel
  }

  function AddEvent<W>(r: State<W>, fd: nat, ev: Event, w: W, up: bool): Effect<W> {
    var fds := Grow(r.fds, fd);
    var c := fds[fd];
    var op := AddOp(c.events);
    if c.events.Has(ev) then Effect(r.(fds := fds), [], -1)
    else if !up || !CtlLegal(r.kernel, op, fd) then Effect(r.(fds := fds), [], -1)
    else
      var c' := c.WithContext(ev, Some(w)).(events := c.events.With(ev));
      Effect(State(fds[fd := c'], Ctl(r.kernel, op, fd, c'.events), r.pending + 1), [], 0)
  }

  /** triggerEvent for every bit of `evs`, READ first: the bits and contexts go, the waiters come out. */
  function TriggerBits<W>(c: FdState<W>, evs: Mask): (FdState<W>, seq<W>) {
    (FdState(c.events.Minus(evs), if evs.read then None else c.read, if evs.write then None else c.write),
     (if evs.read then AsSeq(c.read) else []) + (if evs.write then AsSeq(c.write) else []))
  }

  /** Takes `evs` away from `fd`, telling the kernel first; None when epoll_ctl fails. */
  function TakeBits<W>(r: State<W>, fd: nat, evs: Mask, up: bool): Option<Effect<W>>
    requires fd < |r.fds|
  {
    var c := r.fds[fd];
    var left := c.events.Minus(evs);
    if !up || !CtlLegal(r.kernel, RemoveOp(left), fd) then None
    else
      var (c', woken) := TriggerBits(c, evs);
      Some(Effect(State(r.fds[fd := c'], Ctl(r.kernel, RemoveOp(left), fd, left), r.pending - evs.Count()), woken, 1))
  }

  /** A failing epoll_ctl makes the C++ function return -1, that is, true. */
  function CancelEvent<W>(r: State<W>, fd: nat, ev: Event, up: bool): Effect<W> {
    if |r.fds| <= fd || !r.fds[fd].events.Has(ev) then Effect(r, [], 0)
    else
      var t := TakeBits(r, fd, Only(ev), up);
      if t.None? then Effect(r, [], 1) else t.value
  }

  /** Like CancelEvent, but the waiter is dropped, not scheduled. */
  function DelEvent<W>(r: State<W>, fd: nat, ev: Event, up: bool): Effect<W> {
    CancelEvent(r, fd, ev, up).(woken := [])
  }

  function CancelAll<W>(r: State<W>, fd: nat, up: bool): Effect<W> {
    if |r.fds| <= fd || !r.fds[fd].events.Any() then Effect(r, [], 0)
    else
      var t := TakeBits(r, fd, r.fds[fd].events, up);
      if t.None? then Effect(r, [], 1) else t.value
  }

  /** READ/WRITE bits of a report, after errors were widened to the registered bits. */
  function RealEvents(events: Mask, rep: Report): Mask {
    Mask(rep.in_ || (rep.err && events.read), rep.out || (rep.err && events.write))
  }

  /** No reported bit was withdrawn between epoll_wait and the handling, or all were. */
  predicate ReportFresh<W>(r: State<W>, fd: nat, rep: Report) {
    fd < |r.fds| && var hit := RealEvents(r.fds[fd].events, rep);
                    hit.Within(r.fds[fd].events) || !r.fds[fd].events.And(hit).Any()
  }

  function HandleReport<W>(r: State<W>, fd: nat, rep: Report, up: bool): Effect<W>
    requires fd < |r.fds|
  {
    var hit := RealEvents(r.fds[fd].events, rep);
    if !r.fds[fd].events.And(hit).Any() then Effect(r, [], 0)
    else
      var t := TakeBits(r, fd, hit, up);
      if t.None? then Effect(r, [], 0) else t.value
  }

  /** close(2) on the descriptor itself: the kernel forgets its interest. */
  function CloseFd<W>(r: State<W>, fd: nat): State<W> {
    r.(kernel := r.kernel - {fd})
  }

  // ---------- Invariant ----------

  ghost predicate Filled<W>(c: FdState<W>) {
    c.events == Mask(c.read.Some?, c.write.Some?)
  }

  /** The interest map holds exactly the descriptors with a set bit, with that mask. */
  ghost predicate Mirror<W>(fds: seq<FdState<W>>, kernel: Kernel) {
    forall fd: nat ::
      (fd in kernel <==> fd < |fds| && fds[fd].events.Any()) &&
      (fd in kernel ==> kernel[fd] == fds[fd].events)
  }

  ghost function Holds<W>(c: FdState<W>, w: W): nat {
    (if c.read == Some(w) then 1 else 0) + if c.write == Some(w) then 1 else 0
  }

  ghost function Bits<W>(c: FdState<W>, u: ()): nat {
    c.events.Count()
  }

  /** How many registrations of `w` are still standing. */
  ghost function Standing<W>(r: State<W>, w: W): nat {
    Tally(r.fds, Holds, w)
  }

  ghost function SetBits<W>(r: State<W>): nat {
    Tally(r.fds, Bits, ())
  }

  ghost predicate Inv<W>(r: State<W>) {
    && (forall fd :: 0 <= fd < |r.fds| ==> Filled(r.fds[fd]))
    && Mirror(r.fds, r.kernel)
    && r.pending == SetBits(r)
  }

  // ---------- One critical section ----------

  lemma InitInv<W>()
    ensures Inv(Init<W>())
  {
    TallyZero(Blank<W>(INITIAL_CONTEXTS), Bits, ());
  }

  lemma InitStanding<W>(w: W)
    ensures Standing(Init(), w) == 0
  {
    TallyZero(Blank(INITIAL_CONTEXTS), Holds, w);
  }

  lemma GrowKeeps<W>(r: State<W>, fd: nat, w: W)
    requires Inv(r)
    ensures Inv(r.(fds := Grow(r.fds, fd)))
    ensures Standing(r.(fds := Grow(r.fds, fd)), w) == Standing(r, w)
  {
    if |r.fds| <= fd {
      var extra := Blank<W>(fd * 3 / 2 - |r.fds|);
      TallyZero(extra, Holds, w);
      TallyZero(extra, Bits, ());
      TallyAppend(r.fds, extra, Holds, w);
      TallyAppend(r.fds, extra, Bits, ());
    }
  }

  /** Replacing one context shifts both tallies by that context's share. */
  lemma Replace<W>(r: State<W>, fd: nat, c: FdState<W>, kernel: Kernel, w: W)
    requires Inv(r) && fd < |r.fds| && Filled(c)
    requires Mirror(r.fds[fd := c], kernel)
    ensures var r' := State(r.fds[fd := c], kernel, r.pending + c.events.Count() - r.fds[fd].events.Count());
            && Inv(r')
            && Standing(r', w) + Holds(r.fds[fd], w) == Standing(r, w) + Holds(c, w)
  {
    TallyUpdate(r.fds, fd, c, Holds, w);
    TallyUpdate(r.fds, fd, c, Bits, ());
  }

  /** addEvent: the control op chosen is one the kernel takes, the new context was empty, and
      exactly the new waiter `w` joins the registered ones (seen by any `v`) when the call succeeds. */
  lemma AddEventStep<W>(r: State<W>, fd: nat, ev: Event, w: W, up: bool, v: W)
    requires Inv(r)
    ensures var e := AddEvent(r, fd, ev, w, up); var c := Grow(r.fds, fd)[fd];
            && Inv(e.state) && e.woken == []
            && CtlLegal(r.kernel, AddOp(c.events), fd)
            && (e.rc == 0 <==> up && !c.events.Has(ev))
            && (e.rc == 0 ==> c.Context(ev) == None)
            && Standing(e.state, v) == Standing(r, v) + if e.rc == 0 && v == w then 1 else 0
  {
    GrowKeeps(r, fd, v);
    var r1: State<W> := r.(fds := Grow(r.fds, fd));
    assert AddEvent(r, fd, ev, w, up) == AddEvent(r1, fd, ev, w, up);
    AddInRange(r1, fd, ev, w, up, v);
  }

  lemma AddInRange<W>(r: State<W>, fd: nat, ev: Event, w: W, up: bool, v: W)
    requires Inv(r) && fd < |r.fds|
    ensures var e := AddEvent(r, fd, ev, w, up); var c := r.fds[fd];
            && Inv(e.state) && e.woken == []
            && CtlLegal(r.kernel, AddOp(c.events), fd)
            && (e.rc == 0 <==> up && !c.events.Has(ev))
            && (e.rc == 0 ==> c.Context(ev) == None)
            && Standing(e.state, v) == Standing(r, v) + if e.rc == 0 && v == w then 1 else 0
  {
    var c := r.fds[fd];
    if up && !c.events.Has(ev) {
      var c' := c.WithContext(ev, Some(w)).(events := c.events.With(ev));
      Replace(r, fd, c', Ctl(r.kernel, AddOp(c.events), fd, c'.events), v);
    }
  }

  /** Taking registered bits away: the op is legal, one waiter comes out per bit, nothing else moves. */
  lemma TakeBitsStep<W>(r: State<W>, fd: nat, evs: Mask, up: bool, v: W)
    requires Inv(r) && fd < |r.fds| && evs.Within(r.fds[fd].events) && evs.Any()
    ensures CtlLegal(r.kernel, RemoveOp(r.fds[fd].events.Minus(evs)), fd)
    ensures TakeBits(r, fd, evs, up).Some? <==> up
    ensures up ==> var e := TakeBits(r, fd, evs, up).value;
                   && Inv(e.state)
                   && |e.woken| == evs.Count()
                   && Standing(r, v) == Standing(e.state, v) + Times(e.woken, v)
  {
    if up {
      var c := r.fds[fd];
      var (c', woken) := TriggerBits(c, evs);
      var left := c.events.Minus(evs);
      Replace(r, fd, c', Ctl(r.kernel, RemoveOp(left), fd, left), v);
      TimesTriggered(c, evs, v);
    }
  }

  /** Taking registered bits away keeps the invariant, whoever waits there. */
  lemma TakeBitsKeeps<W>(r: State<W>, fd: nat, evs: Mask, up: bool)
    requires Inv(r) && fd < |r.fds| && evs.Within(r.fds[fd].events) && evs.Any()
    ensures up ==> TakeBits(r, fd, evs, up).Some? && Inv(TakeBits(r, fd, evs, up).value.state)
  {
    var c := r.fds[fd];
    if c.read.Some? {
      TakeBitsStep(r, fd, evs, up, c.read.value);
    } else {
      TakeBitsStep(r, fd, evs, up, c.write.value);
    }
  }

  lemma TimesTriggered<W>(c: FdState<W>, evs: Mask, v: W)
    requires Filled(c) && evs.Within(c.events)
    ensures var (c', woken) := TriggerBits(c, evs);
            Filled(c') && |woken| == evs.Count() && Holds(c, v) == Holds(c', v) + Times(woken, v)
  {
    var (c', woken) := TriggerBits(c, evs);
    TallyAppend(if evs.read then AsSeq(c.read) else [], if evs.write then AsSeq(c.write) else [], Is, v);
  }

  lemma CancelEventStep<W>(r: State<W>, fd: nat, ev: Event, up: bool, v: W)
    requires Inv(r)
    ensures var e := CancelEvent(r, fd, ev, up);
            && Inv(e.state)
            && Standing(r, v) == Standing(e.state, v) + Times(e.woken, v)
            && |e.woken| == if up && fd < |r.fds| && r.fds[fd].events.Has(ev) then 1 else 0
  {
    if fd < |r.fds| && r.fds[fd].events.Has(ev) {
      TakeBitsStep(r, fd, Only(ev), up, v);
    }
  }

  lemma CancelAllStep<W>(r: State<W>, fd: nat, up: bool, v: W)
    requires Inv(r)
    ensures var e := CancelAll(r, fd, up);
            && Inv(e.state)
            && Standing(r, v) == Standing(e.state, v) + Times(e.woken, v)
            && (up && fd < |r.fds| ==> !e.state.fds[fd].events.Any() && |e.woken| == r.fds[fd].events.Count())
  {
    if fd < |r.fds| && r.fds[fd].events.Any() {
      TakeBitsStep(r, fd, r.fds[fd].events, up, v);
    }
  }

  /** One epoll report, as long as the report is fresh. */
  lemma HandleReportStep<W>(r: State<W>, fd: nat, rep: Report, up: bool, v: W)
    requires Inv(r) && ReportFresh(r, fd, rep)
    ensures var e := HandleReport(r, fd, rep, up); var hit := RealEvents(r.fds[fd].events, rep);
            && Inv(e.state)
            && Standing(r, v) == Standing(e.state, v) + Times(e.woken, v)
            && (up && hit.Within(r.fds[fd].events) ==> |e.woken| == hit.Count())
  {
    var hit := RealEvents(r.fds[fd].events, rep);
    if r.fds[fd].events.And(hit).Any() {
      TakeBitsStep(r, fd, hit, up, v);
    }
  }

  /** The freshness premise is exact: a report that meets some registered bit keeps the invariant
      if and only if every bit it reports is registered, which is the assertion in triggerEvent. */
  lemma ReportNeedsRegisteredBits<W>(r: State<W>, fd: nat, rep: Report, v: W)
    requires Inv(r) && fd < |r.fds|
    requires r.fds[fd].events.And(RealEvents(r.fds[fd].events, rep)).Any()
    ensures Inv(HandleReport(r, fd, rep, true).state) <==> ReportFresh(r, fd, rep)
  {
    var c := r.fds[fd];
    var hit := RealEvents(c.events, rep);
    if hit.Within(c.events) {
      HandleReportStep(r, fd, rep, true, v);
    } else {
      var (c', _) := TriggerBits(c, hit);
      Replace(r, fd, c', Ctl(r.kernel, CtlDel, fd, NONE), v);
    }
  }

  // ---------- What an operation does to bits and contexts ----------

  /** From `r` to `r'` descriptor `fd` loses these of its bits, with their waiters; nothing else changes. */
  ghost predicate Withdrawn<W>(r: State<W>, r': State<W>, fd: nat, read: bool, write: bool)
    requires fd < |r.fds|
  {
    && |r'.fds| == |r.fds| && (forall i :: 0 <= i < |r.fds| && i != fd ==> r'.fds[i] == r.fds[i])
    && var c, c' := r.fds[fd], r'.fds[fd];
       && c'.events.read == (c.events.read && !read) && c'.events.write == (c.events.write && !write)
       && c'.read == (if read then None else c.read) && c'.write == (if write then None else c.write)
       && r'.pending == r.pending - (if read then 1 else 0) - (if write then 1 else 0)
  }

  /** The waiters of these bits, READ first. */
  function WaitersAt<W>(c: FdState<W>, read: bool, write: bool): seq<W> {
    (if read && c.read.Some? then [c.read.value] else []) + (if write && c.write.Some? then [c.write.value] else [])
  }

  /** A report takes exactly the bits it names, and all registered ones when it names an error. */
  lemma ReportEffect<W>(r: State<W>, fd: nat, rep: Report)
    requires Inv(r) && fd < |r.fds|
    requires (rep.in_ ==> r.fds[fd].events.read) && (rep.out ==> r.fds[fd].events.write)
    ensures
      var c := r.fds[fd]; var e := HandleReport(r, fd, rep, true);
      var read, write := rep.in_ || (rep.err && c.events.read), rep.out || (rep.err && c.events.write);
      Withdrawn(r, e.state, fd, read, write) && e.woken == WaitersAt(c, read, write)
  {
    assert Filled(r.fds[fd]);
    var c := r.fds[fd];
    var read, write := rep.in_ || (rep.err && c.events.read), rep.out || (rep.err && c.events.write);
    if read || write {
      var hit := Mask(read, write);
      TakeBitsKeeps(r, fd, hit, true);
    }
  }

  /** With no kernel to take it, or none of the named bits registered, it does nothing. */
  lemma ReportIgnored<W>(r: State<W>, fd: nat, rep: Report, up: bool)
    requires fd < |r.fds|
    requires var ev := r.fds[fd].events;
      !up || !((rep.in_ && ev.read) || (rep.out && ev.write) || (rep.err && (ev.read || ev.write)))
    ensures HandleReport(r, fd, rep, up).state == r && HandleReport(r, fd, rep, up).woken == []
  {
  }

  lemma CancelAllEffect<W>(r: State<W>, fd: nat)
    requires Inv(r) && fd < |r.fds|
    ensures
      var c := r.fds[fd]; var e := CancelAll(r, fd, true);
      Withdrawn(r, e.state, fd, c.events.read, c.events.write)
        && e.woken == WaitersAt(c, c.events.read, c.events.write)
  {
    assert Filled(r.fds[fd]);
    if r.fds[fd].events.Any() {
      TakeBitsKeeps(r, fd, r.fds[fd].events, true);
    }
  }

  lemma CancelEventEffect<W>(r: State<W>, fd: nat, ev: Event)
    requires Inv(r) && fd < |r.fds|
    ensures
      var c := r.fds[fd]; var e := CancelEvent(r, fd, ev, true);
      var read, write := ev == Read && c.events.read, ev == Write && c.events.write;
      Withdrawn(r, e.state, fd, read, write) && e.woken == WaitersAt(c, read, write)
  {
    assert Filled(r.fds[fd]);
    if r.fds[fd].events.Has(ev) {
      TakeBitsKeeps(r, fd, Only(ev), true);
    }
  }

  /** delEvent drops the waiter it takes. */
  lemma DelEventEffect<W>(r: State<W>, fd: nat, ev: Event)
    requires Inv(r) && fd < |r.fds|
    ensures
      var c := r.fds[fd]; var e := DelEvent(r, fd, ev, true);
      Withdrawn(r, e.state, fd, ev == Read && c.events.read, ev == Write && c.events.write) && e.woken == []
  {
    CancelEventEffect(r, fd, ev);
  }

  /** A registration that succeeds puts the waiter at its bit; one that fails leaves every context that was
      there. The kernel then watches for the bits of the descriptor. */
  lemma AddEventEffect<W>(r: State<W>, fd: nat, ev: Event, w: W, up: bool)
    requires Inv(r)
    ensures
      var e := AddEvent(r, fd, ev, w, up); var r' := e.state;
      && fd < |r'.fds| && |r.fds| <= |r'.fds|
      && (forall i :: 0 <= i < |r.fds| && i != fd ==> r'.fds[i] == r.fds[i])
      && (fd < |r.fds| ==>
            (e.rc == 0 <==> up && !(if ev == Read then r.fds[fd].events.read else r.fds[fd].events.write)))
      && (|r.fds| <= fd ==> (e.rc == 0 <==> up))
      && (e.rc != 0 ==> (fd < |r.fds| ==> r'.fds[fd] == r.fds[fd]) && r'.pending == r.pending && r'.kernel == r.kernel)
      && (e.rc == 0 ==>
            && (if ev == Read then r'.fds[fd].events.read && r'.fds[fd].read == Some(w)
                else r'.fds[fd].events.write && r'.fds[fd].write == Some(w))
            && (fd < |r.fds| && ev == Read ==>
                  r'.fds[fd].write == r.fds[fd].write && r'.fds[fd].events.write == r.fds[fd].events.write)
            && (fd < |r.fds| && ev == Write ==>
                  r'.fds[fd].read == r.fds[fd].read && r'.fds[fd].events.read == r.fds[fd].events.read)
            && r'.pending == r.pending + 1 && fd in r'.kernel && r'.kernel[fd] == r'.fds[fd].events)
  {
    AddEventStep(r, fd, ev, w, up, w);
  }

  /** Closing the descriptor keeps the mirror exactly when nothing is registered on it any more. */
  lemma CloseKeepsMirrorIff<W>(r: State<W>, fd: nat)
    requires Inv(r)
    ensures Inv(CloseFd(r, fd)) <==> (fd < |r.fds| ==> !r.fds[fd].events.Any())
  {
    assert fd !in CloseFd(r, fd).kernel;
  }

  /** addEvent looks at the vector under one lock and resizes it under another. A resize that comes late,
      after another call has grown the vector further, keeps the invariant exactly when no event is
      registered on a descriptor it cuts off. */
  lemma LateResizeIff<W>(r: State<W>, fd: nat)
    requires Inv(r) && INITIAL_CONTEXTS <= fd
    ensures Inv(r.(fds := Resize(r.fds, fd * 3 / 2))) <==>
      forall i :: fd * 3 / 2 <= i < |r.fds| ==> !r.fds[i].events.Any()
  {
    var size := fd * 3 / 2;
    if size <= |r.fds| {
      CutKeepsIff(r, size);
    } else {
      ResizeFills(r, size);
    }
  }

  lemma CutKeepsIff<W>(r: State<W>, size: nat)
    requires Inv(r) && INITIAL_CONTEXTS <= size <= |r.fds|
    ensures Inv(r.(fds := r.fds[..size])) <==> forall i :: size <= i < |r.fds| ==> !r.fds[i].events.Any()
  {
    assert r.fds == r.fds[..size] + r.fds[size..];
    TallyAppend(r.fds[..size], r.fds[size..], Bits, ());
    if forall i :: size <= i < |r.fds| ==> !r.fds[i].events.Any() {
      TallyZero(r.fds[size..], Bits, ());
    } else {
      var i :| size <= i < |r.fds| && r.fds[i].events.Any();
      assert i in r.kernel && |r.fds[..size]| <= i;
    }
  }

  lemma ResizeFills<W>(r: State<W>, size: nat)
    requires Inv(r) && |r.fds| < size
    ensures Inv(r.(fds := Resize(r.fds, size)))
  {
    TallyZero(Blank<W>(size - |r.fds|), Bits, ());
    TallyAppend(r.fds, Blank<W>(size - |r.fds|), Bits, ());
  }

  // ---------- Whole runs ----------

  datatype Op<W> =
    | DoAdd(fd: nat, ev: Event, w: W, up: bool)
    | DoCancel(fd: nat, ev: Event, up: bool)
    | DoDel(fd: nat, ev: Event, up: bool)
    | DoCancelAll(fd: nat, up: bool)
    | DoReport(fd: nat, rep: Report, up: bool)
    | DoClose(fd: nat)

  /** History of a run: registrations made, waiters scheduled, waiters dropped by delEvent. */
  datatype Ledger<W> = Ledger(r: State<W>, made: seq<W>, triggered: seq<W>, deleted: seq<W>)

  predicate Admissible<W>(r: State<W>, op: Op<W>) {
    match op
    case DoReport(fd, rep, _) => ReportFresh(r, fd, rep)
    case DoClose(fd) => fd < |r.fds| ==> !r.fds[fd].events.Any()
    case _ => true
  }

  function Scheduled<W>(l: Ledger<W>, e: Effect<W>): Ledger<W> {
    l.(r := e.state, triggered := l.triggered + e.woken)
  }

  function Apply<W>(l: Ledger<W>, op: Op<W>): Ledger<W>
    requires Admissible(l.r, op)
  {
    match op
    case DoAdd(fd, ev, w, up) =>
      var e := AddEvent(l.r, fd, ev, w, up);
      l.(r := e.state, made := if e.rc == 0 then l.made + [w] else l.made)
    case DoCancel(fd, ev, up) => Scheduled(l, CancelEvent(l.r, fd, ev, up))
    case DoDel(fd, ev, up) =>
      l.(r := DelEvent(l.r, fd, ev, up).state, deleted := l.deleted + CancelEvent(l.r, fd, ev, up).woken)
    case DoCancelAll(fd, up) => Scheduled(l, CancelAll(l.r, fd, up))
    case DoReport(fd, rep, up) => Scheduled(l, HandleReport(l.r, fd, rep, up))
    case DoClose(fd) => l.(r := CloseFd(l.r, fd))
  }

  ghost predicate Balanced<W>(l: Ledger<W>, v: W) {
    Inv(l.r) && Times(l.made, v) == Standing(l.r, v) + Times(l.triggered, v) + Times(l.deleted, v)
  }

  lemma ApplyBalanced<W>(l: Ledger<W>, op: Op<W>, v: W)
    requires Balanced(l, v) && Admissible(l.r, op)
    ensures Balanced(Apply(l, op), v)
  {
    match op
    case DoAdd(fd, ev, w, up) =>
      AddEventStep(l.r, fd, ev, w, up, v);
      TallyPush(l.made, w, Is, v);
    case DoCancel(fd, ev, up) =>
      CancelEventStep(l.r, fd, ev, up, v);
      TallyAppend(l.triggered, CancelEvent(l.r, fd, ev, up).woken, Is, v);
    case DoDel(fd, ev, up) =>
      CancelEventStep(l.r, fd, ev, up, v);
      TallyAppend(l.deleted, CancelEvent(l.r, fd, ev, up).woken, Is, v);
    case DoCancelAll(fd, up) =>
      CancelAllStep(l.r, fd, up, v);
      TallyAppend(l.triggered, CancelAll(l.r, fd, up).woken, Is, v);
    case DoReport(fd, rep, up) =>
      HandleReportStep(l.r, fd, rep, up, v);
      TallyAppend(l.triggered, HandleReport(l.r, fd, rep, up).woken, Is, v);
    case DoClose(fd) => CloseKeepsMirrorIff(l.r, fd);
  }

  /** Every report of the run is fresh and every close finds nothing registered. */
  predicate Admits<W>(l: Ledger<W>, ops: seq<Op<W>>)
    decreases ops
  {
    ops == [] || (Admissible(l.r, ops[0]) && Admits(Apply(l, ops[0]), ops[1..]))
  }

  function Run<W>(l: Ledger<W>, ops: seq<Op<W>>): Ledger<W>
    requires Admits(l, ops)
    decreases ops
  {
    if ops == [] then l else Run(Apply(l, ops[0]), ops[1..])
  }

  function Start<W>(): Ledger<W> {
    Ledger(Init(), [], [], [])
  }

  lemma {:induction false} RunFrom<W>(l: Ledger<W>, ops: seq<Op<W>>, v: W)
    requires Balanced(l, v) && Admits(l, ops)
    ensures Balanced(Run(l, ops), v)
    decreases ops
  {
    if ops != [] {
      ApplyBalanced(l, ops[0], v);
      RunFrom(Apply(l, ops[0]), ops[1..], v);
    }
  }

  /** Over every interleaving of registrations, cancellations, reports and closes: the kernel
      mirrors the bits, the counter is the number of set bits, and of every waiter's successful
      registrations each one still stands, was scheduled, or was deleted. */
  lemma RunBalanced<W>(ops: seq<Op<W>>, v: W)
    requires Admits(Start(), ops)
    ensures Balanced(Run(Start(), ops), v)
  {
    InitInv<W>();
    InitStanding(v);
    RunFrom(Start(), ops, v);
  }

  /** A registration made once is scheduled at most once: exactly when it neither stands nor was deleted. */
  lemma ScheduledAtMostOnce<W>(ops: seq<Op<W>>, w: W)
    requires Admits(Start(), ops) && Times(Run(Start(), ops).made, w) == 1
    ensures var l := Run(Start(), ops);
            && Times(l.triggered, w) <= 1
            && (Times(l.triggered, w) == 1 <==> Standing(l.r, w) == 0 && Times(l.deleted, w) == 0)
  {
    RunBalanced(ops, w);
  }
}
