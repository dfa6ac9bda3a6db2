/** The worker pool as a state machine over its atomic steps: critical sections under the mutex,
    notifications, which come after the mutex is released, and wakeups, spurious ones included. */
module ThreadPool {
  import opened Common

  type Task = nat

  /** Where a worker is: about to take the mutex and test the predicate, asleep on the condition
      variable, running a task outside the mutex, or returned. */
  datatype Worker = AtLock | Asleep | Busy(task: Task) | Exited

  /** `oneNotices` are `notify_one` calls still to come from enqueuers that have released the mutex,
      `allNotice` the destructor's `notify_all`. `enqueued` and `started` are history. */
  datatype Pool = Pool(
    queue: seq<Task>, stopping: bool, workers: seq<Worker>, oneNotices: nat, allNotice: bool,
    enqueued: seq<Task>, started: seq<Task>)

  datatype Step =
    | Push(task: Task)
    | NotifyOne(woken: nat)
    | Stop
    | NotifyAll
    | Check(w: nat)
    | Finish(w: nat)
    | Spurious(w: nat)

  predicate SomeAsleep(p: Pool)
  {
    exists w :: 0 <= w < |p.workers| && p.workers[w].Asleep?
  }

  /** Steps the program and the threading library allow; nobody enqueues once destruction has begun. */
  predicate Enabled(p: Pool, s: Step)
  {
    match s
    case Push(_) => !p.stopping
    case NotifyOne(woken) => p.oneNotices > 0 && (SomeAsleep(p) ==> woken < |p.workers| && p.workers[woken].Asleep?)
    case Stop => !p.stopping
    case NotifyAll => p.allNotice
    case Check(w) => w < |p.workers| && p.workers[w].AtLock?
    case Finish(w) => w < |p.workers| && p.workers[w].Busy?
    case Spurious(w) => w < |p.workers| && p.workers[w].Asleep?
  }

  function WakeAll(ws: seq<Worker>): (r: seq<Worker>)
    ensures |r| == |ws| && forall i | 0 <= i < |ws| :: r[i] == if ws[i].Asleep? then AtLock else ws[i]
  {
    seq(|ws|, i requires 0 <= i < |ws| => if ws[i].Asleep? then AtLock else ws[i])
  }

  /** The locked part of `workerLoop`: wait, return, or take the front task. */
  function CheckOf(p: Pool, w: nat): Pool
    requires w < |p.workers|
  {
    if !p.stopping && p.queue == [] then p.(workers := p.workers[w := Asleep])
    else if p.queue == [] then p.(workers := p.workers[w := Exited])
    else p.(workers := p.workers[w := Busy(p.queue[0])], queue := p.queue[1..], started := p.started + [p.queue[0]])
  }

  function Do(p: Pool, s: Step): Pool
    requires Enabled(p, s)
  {
    match s
    case Push(task) =>
      p.(queue := p.queue + [task], enqueued := p.enqueued + [task], oneNotices := p.oneNotices + 1)
    case NotifyOne(woken) =>
      p.(oneNotices := p.oneNotices - 1,
         workers := if SomeAsleep(p) then p.workers[woken := AtLock] else p.workers)
    case Stop => p.(stopping := true, allNotice := true)
    case NotifyAll => p.(allNotice := false, workers := WakeAll(p.workers))
    case Check(w) => CheckOf(p, w)
    case Finish(w) => p.(workers := p.workers[w := AtLock])
    case Spurious(w) => p.(workers := p.workers[w := AtLock])
  }

  predicate CanRun(p: Pool, steps: seq<Step>)
    decreases |steps|
  {
    steps == [] || (Enabled(p, steps[0]) && CanRun(Do(p, steps[0]), steps[1..]))
  }

  function RunOf(p: Pool, steps: seq<Step>): Pool
    requires CanRun(p, steps)
    decreases |steps|
  {
    if steps == [] then p else RunOf(Do(p, steps[0]), steps[1..])
  }

  /** A pool of `n` workers, before anything happens. */
  function Start(n: nat): Pool
  {
    Pool([], false, seq(n, _ => AtLock), 0, false, [], [])
  }

  // ---------------------------------------------------------------------------------------------
  // Safety
  // ---------------------------------------------------------------------------------------------

  predicate Awake(w: Worker) { w.AtLock? || w.Busy? }

  predicate SomeAwake(p: Pool)
  {
    exists w :: 0 <= w < |p.workers| && Awake(p.workers[w])
  }

  predicate AllExited(p: Pool)
  {
    forall w | 0 <= w < |p.workers| :: p.workers[w].Exited?
  }

  /** The inductive invariant. */
  predicate Inv(p: Pool)
  {
    && |p.workers| > 0
    && p.started + p.queue == p.enqueued
    && (p.allNotice ==> p.stopping)
    && ((exists w :: 0 <= w < |p.workers| && p.workers[w].Exited?) ==> p.stopping && p.queue == [])
    && (p.stopping && !p.allNotice ==> !SomeAsleep(p))
    && (p.queue != [] && !p.allNotice ==> SomeAwake(p) || p.oneNotices > 0)
  }

  lemma StepKeepsInv(p: Pool, s: Step)
    requires Inv(p) && Enabled(p, s)
    ensures Inv(Do(p, s))
  {
    var q := Do(p, s);
    match s
    case Push(task) => assert q.started + q.queue == (p.started + p.queue) + [task];
    case NotifyOne(woken) =>
      if SomeAsleep(p) {
        assert Awake(q.workers[woken]);
      } else if p.queue != [] {
        assert !p.workers[0].Exited? && !p.workers[0].Asleep?;
        assert Awake(q.workers[0]);
      }
    case Stop =>
    case NotifyAll =>
      if p.queue != [] {
        assert !p.workers[0].Exited?;
        assert Awake(q.workers[0]);
      }
    case Check(w) => CheckKeepsInv(p, w);
    case Finish(w) => assert Awake(q.workers[w]);
    case Spurious(w) => assert Awake(q.workers[w]);
  }

  lemma CheckKeepsInv(p: Pool, w: nat)
    requires Inv(p) && w < |p.workers| && p.workers[w].AtLock?
    ensures Inv(CheckOf(p, w))
  {
    var q := CheckOf(p, w);
    if p.queue != [] {
      assert p.queue == [p.queue[0]] + p.queue[1..];
      assert q.started + q.queue == p.started + p.queue;
      assert Awake(q.workers[w]);
    }
  }

  lemma {:induction false} RunKeepsInv(p: Pool, steps: seq<Step>)
    requires Inv(p) && CanRun(p, steps)
    ensures Inv(RunOf(p, steps))
    decreases |steps|
  {
    if steps != [] {
      hide Inv, Do;
      StepKeepsInv(p, steps[0]);
      RunKeepsInv(Do(p, steps[0]), steps[1..]);
    }
  }

  /** Work is waiting, some worker has not returned, all of those sleep, and nobody is about to wake one. */
  predicate LostWakeup(p: Pool)
  {
    && (p.queue != [] || p.stopping)
    && !AllExited(p)
    && (forall w | 0 <= w < |p.workers| :: p.workers[w].Exited? || p.workers[w].Asleep?)
    && p.oneNotices == 0 && !p.allNotice
  }

  lemma InvIsSafe(p: Pool)
    requires Inv(p)
    ensures p.started <= p.enqueued
    ensures !LostWakeup(p)
    ensures AllExited(p) ==> p.queue == [] && p.started == p.enqueued
  {
    assert p.started == p.enqueued[..|p.started|];
    if AllExited(p) {
      assert p.workers[0].Exited?;
      assert p.started + [] == p.started;
    }
  }

  /** On every run of a pool with at least one worker: tasks are started in enqueue order, each once;
      no reachable state has a task or the stop flag waiting while every live worker sleeps with no
      notification to come; and when the last worker has returned every task has been started. */
  lemma PoolIsSafe(n: nat, steps: seq<Step>)
    requires n > 0 && CanRun(Start(n), steps)
    ensures var p := RunOf(Start(n), steps);
            && p.started <= p.enqueued
            && !LostWakeup(p)
            && (AllExited(p) ==> p.queue == [] && p.started == p.enqueued)
  {
    hide RunOf;
    RunKeepsInv(Start(n), steps);
    InvIsSafe(RunOf(Start(n), steps));
  }

  // ---------------------------------------------------------------------------------------------
  // The destructor returns
  // ---------------------------------------------------------------------------------------------

  function Rank(w: Worker): nat
  {
    match w case Exited => 0 case AtLock => 1 case Asleep => 1 case Busy(_) => 2
  }

  function Ranks(ws: seq<Worker>): nat
  {
    if ws == [] then 0 else Rank(ws[0]) + Ranks(ws[1..])
  }

  lemma {:induction false} RanksUpdate(ws: seq<Worker>, i: nat, w: Worker)
    requires i < |ws|
    ensures Ranks(ws[i := w]) + Rank(ws[i]) == Ranks(ws) + Rank(w)
    decreases |ws|
  {
    if i == 0 {
      assert ws[0 := w][1..] == ws[1..];
    } else {
      RanksUpdate(ws[1..], i - 1, w);
      assert ws[i := w][1..] == ws[1..][i - 1 := w];
    }
  }

  /** Steps left before `join` returns, once `notify_all` is done. */
  function StepsLeft(p: Pool): nat
  {
    3 * |p.queue| + Ranks(p.workers) + p.oneNotices
  }

  /** Shutting down, `notify_all` done: every possible step makes progress. */
  lemma ShutdownProgress(p: Pool, s: Step)
    requires Inv(p) && p.stopping && !p.allNotice && Enabled(p, s)
    ensures var q := Do(p, s); q.stopping && !q.allNotice && StepsLeft(q) < StepsLeft(p)
  {
    match s
    case NotifyOne(woken) =>
    case Check(w) => RanksUpdate(p.workers, w, Do(p, s).workers[w]);
    case Finish(w) => RanksUpdate(p.workers, w, AtLock);
    case Spurious(w) =>
  }

  /** Shutting down, a worker that has not returned can always take its next step. */
  lemma ShutdownNeverStuck(p: Pool) returns (s: Step)
    requires Inv(p) && p.stopping && !p.allNotice && !AllExited(p)
    ensures Enabled(p, s) && (s.Check? || s.Finish?)
  {
    var w :| 0 <= w < |p.workers| && !p.workers[w].Exited?;
    assert !p.workers[w].Asleep?;
    s := if p.workers[w].AtLock? then Check(w) else Finish(w);
  }

  /** Destruction ends: after `notify_all` no run is longer than `StepsLeft`, and a run that cannot be
      continued by a worker has all workers returned and every task started. */
  lemma {:induction false} ShutdownEnds(p: Pool, steps: seq<Step>)
    requires Inv(p) && p.stopping && !p.allNotice && CanRun(p, steps)
    ensures |steps| <= StepsLeft(p)
    ensures var q := RunOf(p, steps);
            (forall s :: Enabled(q, s) ==> !s.Check? && !s.Finish?) ==> AllExited(q) && q.started == q.enqueued
    decreases |steps|
  {
    hide Inv, Do, Enabled, StepsLeft;
    if steps == [] {
      if forall s :: Enabled(p, s) ==> !s.Check? && !s.Finish? {
        if !AllExited(p) {
          var s := ShutdownNeverStuck(p);
        }
        InvIsSafe(p);
      }
    } else {
      StepKeepsInv(p, steps[0]);
      ShutdownProgress(p, steps[0]);
      ShutdownEnds(Do(p, steps[0]), steps[1..]);
    }
  }

  // ---------------------------------------------------------------------------------------------
  // The class
  // ---------------------------------------------------------------------------------------------

  /** The object behind the mutex. Each method is one critical section, with its place in a run; which
      worker stands where, and the notifications to come, is history. */
  class TaskQueue {
    var tasks: seq<Task>
    var stopping: bool
    ghost var workers: seq<Worker>
    ghost var oneNotices: nat
    ghost var allNotice: bool
    ghost var enqueued: seq<Task>
    ghost var started: seq<Task>

    ghost function View(): Pool
      reads this
    {
      Pool(tasks, stopping, workers, oneNotices, allNotice, enqueued, started)
    }

    constructor (threadCount: nat)
      ensures View() == Start(threadCount)
    {
      tasks, stopping, workers, oneNotices := [], false, seq(threadCount, _ => AtLock), 0;
      allNotice, enqueued, started := false, [], [];
    }

    method Enqueue(task: Task)
      requires Enabled(View(), Push(task))
      modifies this
      ensures View() == Do(old(View()), Push(task))
    {
      tasks := tasks + [task];
      enqueued, oneNotices := enqueued + [task], oneNotices + 1;
    }

    method BeginDestruction()
      requires Enabled(View(), Stop)
      modifies this
      ensures View() == Do(old(View()), Stop)
    {
      stopping := true;
      allNotice := true;
    }

    /** A worker at the mutex: it goes to sleep, returns, or leaves with the task to run. */
    method TakeTask(ghost w: nat) returns (exits: bool, task: Option<Task>)
      requires Enabled(View(), Check(w))
      modifies this
      ensures View() == Do(old(View()), Check(w))
      ensures exits <==> workers[w].Exited?
      ensures task == if workers[w].Busy? then Some(workers[w].task) else None
    {
      exits, task := false, None;
      if !(stopping || tasks != []) {
        workers := workers[w := Asleep];
        return;
      }
      if stopping && tasks == [] {
        workers := workers[w := Exited];
        return true, None;
      }
      task := Some(tasks[0]);
      workers, started := workers[w := Busy(tasks[0])], started + [tasks[0]];
      tasks := tasks[1..];
    }
  }
}
