/** The scheduler's task vector: submission, the affinity scan of a worker, and what the scan
    promises over whole runs. `thread == -1` means any worker may take the task. */
module TaskQueue {
  import opened Options
  import opened Sums

  datatype Task<J> = Task(job: J, thread: int)

  predicate Eligible<J>(t: Task<J>, me: int) {
    t.thread == -1 || t.thread == me
  }

  /** Index of the first task `me` may take, or the length when there is none. */
  function Scan<J>(tasks: seq<Task<J>>, me: int): (i: nat)
    ensures i <= |tasks|
    ensures forall j :: 0 <= j < i ==> !Eligible(tasks[j], me)
    ensures i < |tasks| ==> Eligible(tasks[i], me)
  {
    if tasks == [] then 0
    else if Eligible(tasks[0], me) then 0
    else 1 + Scan(tasks[1..], me)
  }

  function Without<J>(tasks: seq<Task<J>>, i: nat): seq<Task<J>>
    requires i < |tasks|
  {
    tasks[..i] + tasks[i + 1..]
  }

  /** The tasks of one affinity, in order. */
  function OfThread<J>(tasks: seq<Task<J>>, thread: int): seq<Task<J>> {
    if tasks == [] then [] else Keep(tasks[0], thread) + OfThread(tasks[1..], thread)
  }

  function Keep<J>(t: Task<J>, thread: int): seq<Task<J>> {
    if t.thread == thread then [t] else []
  }

  lemma {:induction false} OfThreadAppend<J>(a: seq<Task<J>>, b: seq<Task<J>>, thread: int)
    ensures OfThread(a + b, thread) == OfThread(a, thread) + OfThread(b, thread)
  {
    if a == [] {
      assert a + b == b;
    } else {
      assert (a + b)[1..] == a[1..] + b;
      OfThreadAppend(a[1..], b, thread);
      var k, x, y := Keep(a[0], thread), OfThread(a[1..], thread), OfThread(b, thread);
      assert k + (x + y) == k + x + y;
    }
  }

  lemma {:induction false} OfThreadNone<J>(s: seq<Task<J>>, thread: int)
    requires forall i :: 0 <= i < |s| ==> s[i].thread != thread
    ensures OfThread(s, thread) == []
  {
    if s != [] {
      OfThreadNone(s[1..], thread);
    }
  }

  /** The scan takes the oldest task of the taken task's affinity and leaves other affinities alone. */
  lemma ScanTakesOldest<J>(tasks: seq<Task<J>>, me: int, thread: int)
    requires Scan(tasks, me) < |tasks|
    ensures var i := Scan(tasks, me);
            OfThread(tasks, thread) == Keep(tasks[i], thread) + OfThread(Without(tasks, i), thread)
  {
    var i := Scan(tasks, me);
    var a, t, b := tasks[..i], tasks[i], tasks[i + 1..];
    assert tasks == a + ([t] + b);
    if t.thread == thread {
      assert OfThread(a, thread) == [] by {
        OfThreadNone(a, thread);
      }
    }
    TakeOut(a, t, b, thread);
  }

  lemma TakeOut<J>(a: seq<Task<J>>, t: Task<J>, b: seq<Task<J>>, thread: int)
    requires OfThread(a, thread) == [] || t.thread != thread
    ensures OfThread(a + ([t] + b), thread) == Keep(t, thread) + OfThread(a + b, thread)
  {
    OfThreadAppend(a, [t] + b, thread);
    OfThreadAppend(a, b, thread);
    assert ([t] + b)[1..] == b;
  }

  lemma OfThreadPush<J>(s: seq<Task<J>>, t: Task<J>, thread: int)
    ensures OfThread(s + [t], thread) == OfThread(s, thread) + Keep(t, thread)
  {
    OfThreadAppend(s, [t], thread);
    assert OfThread([t], thread) == Keep(t, thread);
  }

  // ---------- Whole runs ----------

  datatype Op<J> =
    | Submit(task: Task<J>)
    | Take(worker: nat)
    | Finish(worker: nat)

  /** The queue with its history. `hand` holds what each worker is executing, `taken` every task
      in the order it was taken and by whom. */
  datatype Queue<J> = Queue(tasks: seq<Task<J>>, hand: seq<Option<Task<J>>>, active: int,
                            submitted: seq<Task<J>>, taken: seq<Task<J>>, takers: seq<nat>, finished: seq<Task<J>>)

  function Init<J>(workers: nat): (q: Queue<J>) {
    Queue([], seq(workers, _ => None), 0, [], [], [], [])
  }

  predicate Enabled<J>(q: Queue<J>, op: Op<J>) {
    match op
    case Submit(_) => true
    case Take(w) => w < |q.hand| && q.hand[w].None?
    case Finish(w) => w < |q.hand| && q.hand[w].Some?
  }

  /** scheduleLock, the scan inside run, and the end of a task (workers are numbered by their thread id). */
  function Step<J>(q: Queue<J>, op: Op<J>): Queue<J>
    requires Enabled(q, op)
  {
    match op
    case Submit(t) => q.(tasks := q.tasks + [t], submitted := q.submitted + [t])
    case Take(w) =>
      var i := Scan(q.tasks, w);
      if i == |q.tasks| then q
      else q.(tasks := Without(q.tasks, i), hand := q.hand[w := Some(q.tasks[i])], active := q.active + 1,
              taken := q.taken + [q.tasks[i]], takers := q.takers + [w])
    case Finish(w) =>
      q.(hand := q.hand[w := None], active := q.active - 1, finished := q.finished + [q.hand[w].value])
  }

  predicate Admits<J>(q: Queue<J>, ops: seq<Op<J>>)
    decreases ops
  {
    ops == [] || (Enabled(q, ops[0]) && Admits(Step(q, ops[0]), ops[1..]))
  }

  function Run<J>(q: Queue<J>, ops: seq<Op<J>>): Queue<J>
    requires Admits(q, ops)
    decreases ops
  {
    if ops == [] then q else Run(Step(q, ops[0]), ops[1..])
  }

  ghost function InHand<J>(h: Option<Task<J>>, t: Task<J>): nat {
    if h == Some(t) then 1 else 0
  }

  ghost function Laden<J>(h: Option<Task<J>>, u: ()): nat {
    if h.Some? then 1 else 0
  }

  /** Nothing is lost or duplicated, the active count is the number of tasks in hand, each affinity is
      served first in first out, and every task was taken by a worker entitled to it. */
  ghost predicate Accounted<J>(q: Queue<J>, t: Task<J>, thread: int) {
    && Times(q.submitted, t) == Times(q.tasks, t) + Tally(q.hand, InHand, t) + Times(q.finished, t)
    && q.active == Tally(q.hand, Laden, ())
    && OfThread(q.submitted, thread) == OfThread(q.taken, thread) + OfThread(q.tasks, thread)
    && |q.takers| == |q.taken|
    && forall k :: 0 <= k < |q.taken| ==> Eligible(q.taken[k], q.takers[k])
  }

  /** Taken then queued, one affinity at a time, reads the same before and after a take. */
  lemma TakeKeepsOrder<J>(tasks: seq<Task<J>>, taken: seq<Task<J>>, me: int, thread: int)
    requires Scan(tasks, me) < |tasks|
    ensures var i := Scan(tasks, me);
            OfThread(taken + [tasks[i]], thread) + OfThread(Without(tasks, i), thread)
            == OfThread(taken, thread) + OfThread(tasks, thread)
  {
    var i := Scan(tasks, me);
    ScanTakesOldest(tasks, me, thread);
    OfThreadPush(taken, tasks[i], thread);
    var a, k, b := OfThread(taken, thread), Keep(tasks[i], thread), OfThread(Without(tasks, i), thread);
    assert a + (k + b) == a + k + b;
  }

  /** One more task in hand, one fewer queued. */
  lemma TakeConserves<J>(q: Queue<J>, w: nat, t: Task<J>)
    requires Enabled(q, Take(w)) && Scan(q.tasks, w) < |q.tasks|
    ensures var q' := Step(q, Take(w));
            && Times(q'.tasks, t) + Tally(q'.hand, InHand, t) == Times(q.tasks, t) + Tally(q.hand, InHand, t)
            && Tally(q'.hand, Laden, ()) == Tally(q.hand, Laden, ()) + 1
  {
    var i := Scan(q.tasks, w);
    TallyRemove(q.tasks, i, Is, t);
    TallyUpdate(q.hand, w, Some(q.tasks[i]), InHand, t);
    TallyUpdate(q.hand, w, Some(q.tasks[i]), Laden, ());
  }

  lemma TakeAccounted<J>(q: Queue<J>, w: nat, t: Task<J>, thread: int)
    requires Accounted(q, t, thread) && Enabled(q, Take(w)) && Scan(q.tasks, w) < |q.tasks|
    ensures Accounted(Step(q, Take(w)), t, thread)
  {
    TakeConserves(q, w, t);
    TakeKeepsOrder(q.tasks, q.taken, w, thread);
  }

  lemma StepAccounted<J>(q: Queue<J>, op: Op<J>, t: Task<J>, thread: int)
    requires Accounted(q, t, thread) && Enabled(q, op)
    ensures Accounted(Step(q, op), t, thread)
  {
    match op
    case Submit(x) =>
      TallyPush(q.submitted, x, Is, t);
      TallyPush(q.tasks, x, Is, t);
      OfThreadPush(q.submitted, x, thread);
      OfThreadPush(q.tasks, x, thread);
      var a, b, k := OfThread(q.taken, thread), OfThread(q.tasks, thread), Keep(x, thread);
      assert a + b + k == a + (b + k);
    case Take(w) =>
      if Scan(q.tasks, w) < |q.tasks| {
        TakeAccounted(q, w, t, thread);
      }
    case Finish(w) =>
      TallyUpdate(q.hand, w, None, InHand, t);
      TallyUpdate(q.hand, w, None, Laden, ());
      TallyPush(q.finished, q.hand[w].value, Is, t);
  }

  lemma {:induction false} RunFrom<J>(q: Queue<J>, ops: seq<Op<J>>, t: Task<J>, thread: int)
    requires Accounted(q, t, thread) && Admits(q, ops)
    ensures Accounted(Run(q, ops), t, thread)
    decreases ops
  {
    if ops != [] {
      StepAccounted(q, ops[0], t, thread);
      RunFrom(Step(q, ops[0]), ops[1..], t, thread);
    }
  }

  lemma RunAccounted<J>(workers: nat, ops: seq<Op<J>>, t: Task<J>, thread: int)
    requires Admits(Init<J>(workers), ops)
    ensures Accounted(Run(Init<J>(workers), ops), t, thread)
  {
    var q := Init<J>(workers);
    TallyZero(q.hand, InHand, t);
    TallyZero(q.hand, Laden, ());
    RunFrom(q, ops, t, thread);
  }

  /** The count is that of the tasks in hand, and stays so. */
  lemma StepCounts<J>(q: Queue<J>, op: Op<J>)
    requires Enabled(q, op) && q.active == Tally(q.hand, Laden, ())
    ensures Step(q, op).active == Tally(Step(q, op).hand, Laden, ())
  {
    match op
    case Submit(_) =>
    case Take(w) =>
      if Scan(q.tasks, w) < |q.tasks| {
        TallyUpdate(q.hand, w, Some(q.tasks[Scan(q.tasks, w)]), Laden, ());
      }
    case Finish(w) => TallyUpdate(q.hand, w, None, Laden, ());
  }

  /** The task taken is the first that is for any worker or for this one, and only it leaves the vector; no
      task is taken when there is none of those. */
  ghost predicate Takes<J>(before: seq<Task<J>>, me: int, task: Option<Task<J>>, after: seq<Task<J>>) {
    match task
    case None => before == after && ForOthers(before, me, |before|)
    case Some(t) => exists i :: 0 <= i < |before| && before[i] == t && t.thread in {-1, me}
                             && ForOthers(before, me, i) && after == before[..i] + before[i + 1..]
  }

  ghost predicate ForOthers<J>(tasks: seq<Task<J>>, me: int, n: nat)
    requires n <= |tasks|
  {
    forall i :: 0 <= i < n ==> tasks[i].thread !in {-1, me}
  }

  /** The Scheduler object: its task vector and active count. `queue` is its value with its history. */
  class Scheduler<J> {
    var tasks: seq<Task<J>>
    var active: int
    ghost var queue: Queue<J>

    /** The fields are those of the value, and the count is the number of tasks in the workers' hands. */
    ghost predicate Valid()
      reads this
    {
      tasks == queue.tasks && active == queue.active == Tally(queue.hand, Laden, ())
    }

    constructor (workers: nat)
      ensures Valid() && queue == Init(workers)
    {
      tasks, active, queue := [], 0, Init(workers);
      TallyZero(Init<J>(workers).hand, Laden, ());
    }

    /** scheduleLock: an empty task is dropped; the caller tickles when the queue was empty. */
    method ScheduleLock(job: Option<J>, thread: int) returns (needTickle: bool)
      requires Valid()
      modifies this
      ensures Valid()
      ensures needTickle <==> old(tasks) == []
      ensures tasks == old(tasks) + (if job.Some? then [Task(job.value, thread)] else []) && active == old(active)
      ensures queue == if job.Some? then Step(old(queue), Submit(Task(job.value, thread))) else old(queue)
    {
      needTickle := tasks == [];
      if job.Some? {
        queue := Step(queue, Submit(Task(job.value, thread)));
        tasks := tasks + [Task(job.value, thread)];
      }
    }

    /** The locked part of the worker loop. `tickleMe` says exactly that work remains queued. */
    method TakeTask(me: nat) returns (task: Option<Task<J>>, tickleMe: bool)
      requires Valid() && Enabled(queue, Take(me))
      modifies this
      ensures Valid() && queue == Step(old(queue), Take(me)) && task == queue.hand[me]
      ensures Takes(old(tasks), me, task, tasks)
      ensures active == old(active) + if task.Some? then 1 else 0
      ensures tickleMe <==> tasks != []
    {
      StepCounts(queue, Take(me));
      ghost var after := Step(queue, Take(me));
      task, tickleMe := None, false;
      var it := 0;
      while it < |tasks|
        invariant 0 <= it <= |tasks|
        invariant tasks == old(tasks) && active == old(active) && task == None && queue == old(queue)
        invariant it + Scan(tasks[it..], me) == Scan(tasks, me)
        invariant ForOthers(tasks, me, it) && (tickleMe <==> it > 0)
      {
        assert tasks[it..][0] == tasks[it] && tasks[it..][1..] == tasks[it + 1..];
        if tasks[it].thread != -1 && tasks[it].thread != me {
          it := it + 1;
          tickleMe := true;
        } else {
          task := Some(tasks[it]);
          tasks := tasks[..it] + tasks[it + 1..];
          active := active + 1;
          queue := after;
          break;
        }
      }
      tickleMe := tickleMe || it != |tasks|;
    }

    /** m_activeThreadCount-- once the task is done: its worker's hand is empty again, and the count is still
        the number of tasks in hand. */
    method FinishTask(me: nat)
      requires Valid() && Enabled(queue, Finish(me))
      modifies this`active, this`queue
      ensures Valid() && queue == Step(old(queue), Finish(me))
      ensures 0 <= active == old(active) - 1 && tasks == old(tasks)
    {
      StepCounts(queue, Finish(me));
      queue := Step(queue, Finish(me));
      active := active - 1;
    }
  }
}
