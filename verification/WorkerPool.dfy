/**
 The bounded worker pool as a state machine. One action is one atomic section of Submit, of a
 worker goroutine or of Stop; any interleaving of them is a run.

 The unlimited sender is the same machine with unlimited set: every task gets a goroutine of its
 own at once, which ends after that one task.
 */
module WorkerPool {
  import opened Common

  /** Where a worker goroutine stands in its loop. */
  datatype Worker<+T> =
    | Waiting              // at the select
    | Dequeued(task: T)    // received, activeWorkers not yet raised
    | Running(task: T)     // inside task()
    | Decremented(task: T) // activeWorkers lowered, processedTasks not yet raised
    | Exited

  /** submitted, accepted and dequeued are history: they record the calls and the tasks so far. */
  datatype Pool<+T> = Pool(
    unlimited: bool,
    capacity: nat,
    queue: seq<T>,
    workers: seq<Worker<T>>,
    activeWorkers: int,
    droppedTasks: nat,
    processedTasks: nat,
    cancelled: bool,
    closed: bool,
    submitted: nat,
    accepted: seq<T>,
    dequeued: seq<T>)

  datatype Action<+T> =
    | Accept(task: T)            // Submit: the send case
    | Handoff(task: T, w: nat)   // Submit: the send case of an unbuffered channel
    | DropCancelled(task: T)     // Submit: the ctx.Done case
    | DropFull(task: T)          // Submit: the default case
    | Spawn(task: T)             // the unlimited sender's Send
    | Receive(w: nat)
    | Begin(w: nat)
    | Work(w: nat, task: T)      // the running task changes its own state
    | Finish(w: nat)
    | Count(w: nat)
    | SeeClosed(w: nat)
    | SeeCancelled(w: nat)
    | Cancel
    | Close
  {
    /** Calls of Submit, or of the unlimited Send. */
    predicate IsSubmit() { Accept? || Handoff? || DropCancelled? || DropFull? || Spawn? }

    /** Sections run by a worker goroutine. */
    predicate IsWorkerStep() {
      Receive? || Begin? || Work? || Finish? || Count? || SeeClosed? || SeeCancelled?
    }
  }

  /** A new pool: Start has put every worker at its select. */
  function New<T>(unlimited: bool, workers: nat, capacity: nat): Pool<T> {
    Pool(unlimited, capacity, [], seq(if unlimited then 0 else workers, i => Waiting), 0, 0, 0, false, false, 0, [], [])
  }

  predicate Enabled<T>(p: Pool<T>, a: Action<T>) {
    match a
    case Accept(_) => !p.unlimited && !p.closed && |p.queue| < p.capacity
    case Handoff(_, w) =>
      !p.unlimited && !p.closed && p.capacity == 0 && w < |p.workers| && p.workers[w].Waiting?
    case DropCancelled(_) => !p.unlimited && !p.closed && p.cancelled
    case DropFull(_) => !p.unlimited && !p.closed && !p.cancelled && |p.queue| >= p.capacity
    case Spawn(_) => p.unlimited
    case Receive(w) => w < |p.workers| && p.workers[w].Waiting? && p.queue != []
    case Begin(w) => w < |p.workers| && p.workers[w].Dequeued?
    case Work(w, _) => w < |p.workers| && p.workers[w].Running?
    case Finish(w) => w < |p.workers| && p.workers[w].Running?
    case Count(w) => w < |p.workers| && p.workers[w].Decremented?
    case SeeClosed(w) => w < |p.workers| && p.workers[w].Waiting? && p.closed && p.queue == []
    case SeeCancelled(w) => w < |p.workers| && p.workers[w].Waiting? && p.cancelled
    case Cancel => !p.unlimited && !p.cancelled
    case Close => !p.unlimited && p.cancelled && !p.closed
  }

  function Next<T>(p: Pool<T>, a: Action<T>): Pool<T>
    requires Enabled(p, a)
  {
    match a
    case Accept(t) =>
      p.(queue := p.queue + [t], accepted := p.accepted + [t], submitted := p.submitted + 1)
    case Handoff(t, w) =>
      p.(workers := p.workers[w := Dequeued(t)], accepted := p.accepted + [t],
         dequeued := p.dequeued + [t], submitted := p.submitted + 1)
    case DropCancelled(_) => p.(droppedTasks := p.droppedTasks + 1, submitted := p.submitted + 1)
    case DropFull(_) => p.(droppedTasks := p.droppedTasks + 1, submitted := p.submitted + 1)
    case Spawn(t) =>
      p.(workers := p.workers + [Dequeued(t)], accepted := p.accepted + [t],
         dequeued := p.dequeued + [t], submitted := p.submitted + 1)
    case Receive(w) =>
      p.(queue := p.queue[1..], dequeued := p.dequeued + [p.queue[0]],
         workers := p.workers[w := Dequeued(p.queue[0])])
    case Begin(w) =>
      p.(activeWorkers := p.activeWorkers + 1, workers := p.workers[w := Running(p.workers[w].task)])
    case Work(w, t) => p.(workers := p.workers[w := Running(t)])
    case Finish(w) =>
      p.(activeWorkers := p.activeWorkers - 1, workers := p.workers[w := Decremented(p.workers[w].task)])
    case Count(w) =>
      p.(processedTasks := p.processedTasks + 1,
         workers := p.workers[w := if p.unlimited then Exited else Waiting])
    case SeeClosed(w) => p.(workers := p.workers[w := Exited])
    case SeeCancelled(w) => p.(workers := p.workers[w := Exited])
    case Cancel => p.(cancelled := true)
    case Close => p.(closed := true)
  }

  /** Every action of the run is enabled when its turn comes. */
  predicate IsRun<T>(p: Pool<T>, run: seq<Action<T>>)
    decreases |run|
  {
    run == [] || (Enabled(p, run[0]) && IsRun(Next(p, run[0]), run[1..]))
  }

  /** The state a run leads to. */
  function After<T>(p: Pool<T>, run: seq<Action<T>>): Pool<T>
    requires IsRun(p, run)
    decreases |run|
  {
    if run == [] then p else After(Next(p, run[0]), run[1..])
  }

  // ---------------------------------------------------------------- accounting

  function InTask<T>(w: Worker<T>): int { if w.Running? then 1 else 0 }

  function Holding<T>(w: Worker<T>): int {
    if w.Dequeued? || w.Running? || w.Decremented? then 1 else 0
  }

  /** What every state reached by any interleaving satisfies. */
  ghost predicate Accounted<T>(p: Pool<T>) {
    // every call of Submit that returned either queued its task or counted a drop
    && p.submitted == |p.accepted| + p.droppedTasks
    // first in, first out: what was received and then what waits is what was accepted, in order
    && p.dequeued + p.queue == p.accepted
    // an accepted task waits, is held by a worker, or was processed
    && |p.accepted| == |p.queue| + SumBy(Holding<T>, p.workers) + p.processedTasks
    // the counter of active workers is the number of workers inside a task
    && p.activeWorkers == SumBy(InTask<T>, p.workers)
    && 0 <= p.activeWorkers <= |p.workers|
    && |p.queue| <= p.capacity
    && (p.closed ==> p.cancelled)
    && (p.unlimited ==> p.queue == [] && p.droppedTasks == 0)
    && (p.unlimited ==> forall i :: 0 <= i < |p.workers| ==> !p.workers[i].Waiting?)
    // while the pool has not been stopped every worker is alive
    && (!p.unlimited && !p.cancelled ==> forall i :: 0 <= i < |p.workers| ==> !p.workers[i].Exited?)
  }

  lemma {:induction false} CountAtMostLength<T>(ws: seq<Worker<T>>)
    ensures 0 <= SumBy(InTask<T>, ws) <= |ws|
  {
    if ws != [] {
      CountAtMostLength(ws[1..]);
    }
  }

  lemma {:induction false} FreshCounts<T>(ws: seq<Worker<T>>)
    requires forall i :: 0 <= i < |ws| ==> ws[i].Waiting?
    ensures SumBy(InTask<T>, ws) == SumBy(Holding<T>, ws) == 0
  {
    if ws != [] {
      forall i | 0 <= i < |ws[1..]| ensures ws[1..][i].Waiting? {
        assert ws[1..][i] == ws[i + 1];
      }
      FreshCounts(ws[1..]);
    }
  }

  lemma SetWorker<T>(ws: seq<Worker<T>>, w: nat, x: Worker<T>)
    requires w < |ws|
    ensures SumBy(InTask<T>, ws[w := x]) == SumBy(InTask<T>, ws) - InTask(ws[w]) + InTask(x)
    ensures SumBy(Holding<T>, ws[w := x]) == SumBy(Holding<T>, ws) - Holding(ws[w]) + Holding(x)
  {
    SumByUpdate(InTask<T>, ws, w, x);
    SumByUpdate(Holding<T>, ws, w, x);
  }

  lemma AccountedInit<T>(unlimited: bool, workers: nat, capacity: nat)
    ensures Accounted(New<T>(unlimited, workers, capacity))
  {
    FreshCounts(New<T>(unlimited, workers, capacity).workers);
  }

  lemma AccountedSubmit<T>(p: Pool<T>, a: Action<T>)
    requires Accounted(p) && Enabled(p, a) && a.IsSubmit()
    ensures Accounted(Next(p, a))
  {
    match a {
      case Accept(t) => assert p.dequeued + (p.queue + [t]) == (p.dequeued + p.queue) + [t];
      case Handoff(t, w) => SetWorker(p.workers, w, Dequeued(t));
      case Spawn(t) =>
        SumByPush(InTask<T>, p.workers, Dequeued(t));
        SumByPush(Holding<T>, p.workers, Dequeued(t));
      case _ =>
    }
    CountAtMostLength(Next(p, a).workers);
  }

  lemma AccountedReceive<T>(p: Pool<T>, a: Action<T>)
    requires Accounted(p) && Enabled(p, a) && a.Receive?
    ensures Accounted(Next(p, a))
  {
    SetWorker(p.workers, a.w, Dequeued(p.queue[0]));
    CountAtMostLength(Next(p, a).workers);
    assert p.dequeued + [p.queue[0]] + p.queue[1..] == p.dequeued + p.queue;
  }

  lemma AccountedWorkerStep<T>(p: Pool<T>, a: Action<T>)
    requires Accounted(p) && Enabled(p, a) && a.IsWorkerStep() && !a.Receive?
    ensures Accounted(Next(p, a))
  {
    SetWorker(p.workers, a.w, Next(p, a).workers[a.w]);
    CountAtMostLength(Next(p, a).workers);
  }

  lemma AccountedStep<T>(p: Pool<T>, a: Action<T>)
    requires Accounted(p) && Enabled(p, a)
    ensures Accounted(Next(p, a))
  {
    if a.IsSubmit() {
      AccountedSubmit(p, a);
    } else if a.Receive? {
      AccountedReceive(p, a);
    } else if a.IsWorkerStep() {
      AccountedWorkerStep(p, a);
    }
  }

  lemma {:induction false} AccountedRun<T>(p: Pool<T>, run: seq<Action<T>>)
    requires Accounted(p) && IsRun(p, run)
    ensures Accounted(After(p, run))
    decreases |run|
  {
    if run != [] {
      AccountedStep(p, run[0]);
      AccountedRun(Next(p, run[0]), run[1..]);
    }
  }

  /** Accounting and order hold after every run of every new pool. */
  lemma PoolAccounting<T>(unlimited: bool, workers: nat, capacity: nat, run: seq<Action<T>>)
    requires IsRun(New(unlimited, workers, capacity), run)
    ensures Accounted(After(New(unlimited, workers, capacity), run))
  {
    AccountedInit<T>(unlimited, workers, capacity);
    AccountedRun(New(unlimited, workers, capacity), run);
  }

  // ---------------------------------------------------------------- four loads in a moving pool

  /** What no action takes back. */
  ghost predicate Grows<T>(p: Pool<T>, q: Pool<T>) {
    && p.accepted <= q.accepted && p.dequeued <= q.dequeued
    && p.droppedTasks <= q.droppedTasks && p.processedTasks <= q.processedTasks
    && |p.workers| <= |q.workers| && p.capacity == q.capacity && p.unlimited == q.unlimited
  }

  lemma {:induction false} RunGrows<T>(p: Pool<T>, run: seq<Action<T>>)
    requires IsRun(p, run)
    ensures Grows(p, After(p, run))
    decreases |run|
  {
    if run != [] {
      var q := Next(p, run[0]);
      assert Grows(p, q);
      RunGrows(q, run[1..]);
    }
  }

  lemma {:induction false} HeldAtMostLength<T>(ws: seq<Worker<T>>)
    ensures 0 <= SumBy(Holding<T>, ws) <= |ws|
  {
    if ws != [] {
      HeldAtMostLength(ws[1..]);
    }
  }

  /**
   The four figures of GetStats, each loaded in a state of its own, with any actions in between. What the
   queue and the processed tasks add up to is determined: the tasks accepted when the queue was measured
   and those received since, but for the ones in workers' hands at the end. So the two exceed the accepted
   tasks, and some task is seen twice, exactly when more tasks were received in between than were accepted
   or are still in hand; and dropped lies between its first and its last value.
   */
  lemma StatsWhileMoving<T>(p: Pool<T>, r1: seq<Action<T>>, r2: seq<Action<T>>, r3: seq<Action<T>>)
    requires Accounted(p) && IsRun(p, r1) && IsRun(After(p, r1), r2) && IsRun(After(After(p, r1), r2), r3)
    ensures var p1 := After(p, r1);
            var p2 := After(p1, r2);
            var p3 := After(p2, r3);
            var active, queued, dropped, processed := p.activeWorkers, |p1.queue|, p2.droppedTasks, p3.processedTasks;
            var received, inHand := |p3.dequeued| - |p1.dequeued|, SumBy(Holding<T>, p3.workers);
            && active == SumBy(InTask<T>, p.workers) && 0 <= active <= |p.workers| && queued <= p.capacity
            && p.droppedTasks <= dropped <= p3.droppedTasks
            && queued + processed == |p1.accepted| + received - inHand
            && (queued + processed <= |p3.accepted| <==> received <= |p3.accepted| - |p1.accepted| + inHand)
            && |p1.accepted| - |p3.workers| <= queued + processed <= |p3.accepted| + received
  {
    var p1 := After(p, r1);
    var p2 := After(p1, r2);
    var p3 := After(p2, r3);
    AccountedRun(p, r1);
    AccountedRun(p1, r2);
    AccountedRun(p2, r3);
    RunGrows(p, r1);
    RunGrows(p1, r2);
    RunGrows(p2, r3);
    HeldAtMostLength(p3.workers);
  }

  /** One task can be seen both in the queue and as processed. */
  lemma TaskSeenTwice<T>(task: T)
    ensures exists p: Pool<T>, run: seq<Action<T>> ::
              Accounted(p) && IsRun(p, run) && |p.queue| + After(p, run).processedTasks == |After(p, run).accepted| + 1
  {
    var start := New<T>(false, 1, 1);
    AccountedInit<T>(false, 1, 1);
    AccountedStep(start, Accept(task));
    var p := Next(start, Accept(task));
    var p1 := Next(p, Receive(0));
    var p2 := Next(p1, Begin(0));
    var p3 := Next(p2, Finish(0));
    var run := PrependAction(p3, Count(0), []);
    run := PrependAction(p2, Finish(0), run);
    run := PrependAction(p1, Begin(0), run);
    run := PrependAction(p, Receive(0), run);
    assert After(p, run).processedTasks == 1 && |After(p, run).accepted| == 1;
  }

  lemma PrependAction<T>(p: Pool<T>, a: Action<T>, rest: seq<Action<T>>) returns (run: seq<Action<T>>)
    requires Enabled(p, a) && IsRun(Next(p, a), rest)
    ensures IsRun(p, run) && After(p, run) == After(Next(p, a), rest)
  {
    run := [a] + rest;
    assert run[1..] == rest;
  }

  // ---------------------------------------------------------------- Stop

  /** Stop has cancelled the context and closed the channel; the unlimited Stop only waits. */
  predicate Stopping<T>(p: Pool<T>) { p.unlimited || (p.cancelled && p.closed) }

  /** The WaitGroup is at zero, so Stop returns. */
  predicate AllExited<T>(p: Pool<T>) { forall i :: 0 <= i < |p.workers| ==> p.workers[i].Exited? }

  /** The steps still ahead of a worker, when rank bounds the steps of its running task. */
  function WorkerRank<T>(rank: T -> nat, w: Worker<T>): nat {
    match w
    case Waiting => 1
    case Dequeued(t) => rank(t) + 4
    case Running(t) => rank(t) + 3
    case Decremented(_) => 2
    case Exited => 0
  }

  function WorkersRank<T>(rank: T -> nat, ws: seq<Worker<T>>): nat {
    if ws == [] then 0 else WorkerRank(rank, ws[0]) + WorkersRank(rank, ws[1..])
  }

  function QueueRank<T>(rank: T -> nat, q: seq<T>): nat {
    if q == [] then 0 else rank(q[0]) + 4 + QueueRank(rank, q[1..])
  }

  function Measure<T>(rank: T -> nat, p: Pool<T>): nat {
    QueueRank(rank, p.queue) + WorkersRank(rank, p.workers)
  }

  lemma {:induction false} SetWorkerRank<T>(rank: T -> nat, ws: seq<Worker<T>>, w: nat, x: Worker<T>)
    requires w < |ws|
    ensures WorkersRank(rank, ws[w := x]) == WorkersRank(rank, ws) - WorkerRank(rank, ws[w]) + WorkerRank(rank, x)
  {
    if w == 0 {
      assert ws[w := x][1..] == ws[1..];
    } else {
      assert ws[w := x][1..] == ws[1..][w - 1 := x];
      SetWorkerRank(rank, ws[1..], w - 1, x);
    }
  }

  /** A run of worker steps in which every step of a running task lowers the task's rank. */
  predicate IsDrain<T>(rank: T -> nat, p: Pool<T>, run: seq<Action<T>>)
    decreases |run|
  {
    run == [] ||
    (&& Enabled(p, run[0])
     && run[0].IsWorkerStep()
     && (run[0].Work? ==> rank(run[0].task) < rank(p.workers[run[0].w].task))
     && IsDrain(rank, Next(p, run[0]), run[1..]))
  }

  /** Each worker step lowers the measure. */
  lemma WorkerStepDecreases<T>(rank: T -> nat, p: Pool<T>, a: Action<T>)
    requires Enabled(p, a) && a.IsWorkerStep()
    requires a.Work? ==> rank(a.task) < rank(p.workers[a.w].task)
    ensures Measure(rank, Next(p, a)) < Measure(rank, p)
    ensures Stopping(p) ==> Stopping(Next(p, a))
  {
    SetWorkerRank(rank, p.workers, a.w, Next(p, a).workers[a.w]);
  }

  /** A worker that has not exited can always take a step once the pool is stopping. */
  lemma StoppingCanMove<T>(p: Pool<T>)
    requires Stopping(p) && Accounted(p) && !AllExited(p)
    ensures exists a: Action<T> :: Enabled(p, a) && a.IsWorkerStep() && !a.Work?
  {
    var w :| 0 <= w < |p.workers| && !p.workers[w].Exited?;
    var a: Action<T> := match p.workers[w]
      case Waiting => SeeCancelled(w)
      case Dequeued(_) => Begin(w)
      case Running(_) => Finish(w)
      case Decremented(_) => Count(w);
    assert Enabled(p, a) && a.IsWorkerStep() && !a.Work?;
  }

  lemma {:induction false} NoneHeld<T>(ws: seq<Worker<T>>)
    requires forall i :: 0 <= i < |ws| ==> ws[i].Exited?
    ensures SumBy(InTask<T>, ws) == SumBy(Holding<T>, ws) == 0
  {
    if ws != [] {
      forall i | 0 <= i < |ws[1..]| ensures ws[1..][i].Exited? {
        assert ws[1..][i] == ws[i + 1];
      }
      NoneHeld(ws[1..]);
    }
  }

  /**
   Stop terminates. No run of workers after it is longer than the measure, and a run that cannot be
   extended has taken every worker out of its loop: then nobody is active, every accepted task was
   processed or is still in the queue, and those left there are the last ones accepted.
   */
  lemma {:induction false} StopTerminates<T>(rank: T -> nat, p: Pool<T>, run: seq<Action<T>>)
    requires Accounted(p) && Stopping(p) && IsDrain(rank, p, run)
    ensures |run| <= Measure(rank, p)
    ensures IsRun(p, run)
    ensures var q := After(p, run);
            (forall a: Action<T> :: Enabled(q, a) && a.IsWorkerStep() ==> a.Work?) ==>
              && AllExited(q)
              && q.activeWorkers == 0
              && |q.accepted| == q.processedTasks + |q.queue|
              && q.accepted[q.processedTasks..] == q.queue
    decreases |run|
  {
    if run == [] {
      if forall a: Action<T> :: Enabled(p, a) && a.IsWorkerStep() ==> a.Work? {
        if !AllExited(p) {
          StoppingCanMove(p);
        }
        NoneHeld(p.workers);
        assert |p.dequeued| == p.processedTasks;
        assert (p.dequeued + p.queue)[|p.dequeued|..] == p.queue;
      }
    } else {
      AccountedStep(p, run[0]);
      WorkerStepDecreases(rank, p, run[0]);
      StopTerminates(rank, Next(p, run[0]), run[1..]);
    }
  }

  // ---------------------------------------------------------------- the object

  /**
   The pool as an object. Each method is one atomic section, so that any interleaving of calls is a
   run of the machine above; preferDone resolves the random choice of select when its send or
   receive case and its ctx.Done case are both ready.
   */
  class BoundedPool<T> {
    const capacity: nat
    var tasks: seq<T>
    var workers: seq<Worker<T>>
    var activeWorkers: int
    var droppedTasks: nat
    var processedTasks: nat
    var cancelled: bool
    var closed: bool
    ghost var submitted: nat
    ghost var accepted: seq<T>
    ghost var dequeued: seq<T>

    ghost function View(): Pool<T>
      reads this
    {
      Pool(false, capacity, tasks, workers, activeWorkers, droppedTasks, processedTasks, cancelled, closed,
           submitted, accepted, dequeued)
    }

    ghost predicate Valid()
      reads this
    {
      Accounted(View())
    }

    constructor (workerCount: nat, queueSize: nat)
      ensures View() == New(false, workerCount, queueSize)
      ensures Valid()
    {
      capacity := queueSize;
      tasks, workers := [], seq(workerCount, i => Waiting);
      activeWorkers, droppedTasks, processedTasks := 0, 0, 0;
      cancelled, closed := false, false;
      submitted, accepted, dequeued := 0, [], [];
      new;
      AccountedInit<T>(false, workerCount, queueSize);
    }

    /** receiver is a worker parked at an unbuffered channel, if there is one. */
    method Submit(task: T, receiver: Option<nat>, preferDone: bool) returns (ok: bool)
      requires Valid() && !closed
      requires receiver.Some? ==> capacity == 0 && receiver.value < |workers| && workers[receiver.value].Waiting?
      modifies this
      ensures Valid()
      ensures ok <==> ((|old(tasks)| < capacity || receiver.Some?) && !(old(cancelled) && preferDone))
      ensures var action :=
                if !ok then if old(cancelled) then DropCancelled(task) else DropFull(task)
                else if receiver.Some? then Handoff(task, receiver.value) else Accept(task);
              Enabled(old(View()), action) && View() == Next(old(View()), action)
      ensures ok ==> accepted == old(accepted) + [task] && droppedTasks == old(droppedTasks)
      ensures !ok ==> accepted == old(accepted) && droppedTasks == old(droppedTasks) + 1
    {
      ghost var before := View();
      ghost var action: Action<T>;
      submitted := submitted + 1;
      ok := (|tasks| < capacity || receiver.Some?) && !(cancelled && preferDone);
      if !ok {
        action := if cancelled then DropCancelled(task) else DropFull(task);
        droppedTasks := droppedTasks + 1;
      } else {
        accepted := accepted + [task];
        if receiver.Some? {
          action := Handoff(task, receiver.value);
          workers := workers[receiver.value := Dequeued(task)];
          dequeued := dequeued + [task];
        } else {
          action := Accept(task);
          tasks := tasks + [task];
        }
      }
      assert View() == Next(before, action);
      AccountedStep(before, action);
    }

    /** The select of worker w, once one of its cases is ready. */
    method Select(w: nat, preferDone: bool)
      requires Valid() && w < |workers| && workers[w].Waiting?
      requires tasks != [] || closed || cancelled
      modifies this
      ensures Valid()
      ensures var action :=
                if old(cancelled) && (preferDone || (old(tasks) == [] && !old(closed))) then SeeCancelled(w)
                else if old(tasks) != [] then Receive(w) else SeeClosed(w);
              Enabled(old(View()), action) && View() == Next(old(View()), action)
    {
      ghost var before := View();
      ghost var action: Action<T>;
      if cancelled && (preferDone || (tasks == [] && !closed)) {
        action := SeeCancelled(w);
        workers := workers[w := Exited];
      } else if tasks != [] {
        action := Receive(w);
        dequeued := dequeued + [tasks[0]];
        workers, tasks := workers[w := Dequeued(tasks[0])], tasks[1..];
      } else {
        action := SeeClosed(w);
        workers := workers[w := Exited];
      }
      AccountedStep(before, action);
    }

    /** The sections of worker w around its task, in the order of the loop body. */
    method Advance(w: nat)
      requires Valid() && w < |workers| && !workers[w].Waiting? && !workers[w].Exited?
      modifies this
      ensures Valid()
      ensures var pc := old(workers[w]);
              var action := if pc.Dequeued? then Begin(w) else if pc.Running? then Finish(w) else Count(w);
              Enabled(old(View()), action) && View() == Next(old(View()), action)
    {
      ghost var before := View();
      ghost var action: Action<T>;
      match workers[w] {
        case Dequeued(task) =>
          action := Begin(w);
          activeWorkers := activeWorkers + 1;
          workers := workers[w := Running(task)];
        case Running(task) =>
          action := Finish(w);
          activeWorkers := activeWorkers - 1;
          workers := workers[w := Decremented(task)];
        case Decremented(_) =>
          action := Count(w);
          processedTasks := processedTasks + 1;
          workers := workers[w := Waiting];
      }
      AccountedStep(before, action);
    }

    /** The figures when nothing moves between the four loads; see StatsWhileMoving for when it does. */
    method GetStats() returns (active: int, queued: nat, dropped: nat, processed: nat)
      requires Valid()
      ensures active == SumBy(InTask<T>, workers) && 0 <= active <= |workers|
      ensures queued <= capacity
      ensures dropped == submitted - |accepted|
      ensures |accepted| == queued + SumBy(Holding<T>, workers) + processed
    {
      active, queued, dropped, processed := activeWorkers, |tasks|, droppedTasks, processedTasks;
    }

    /** Stop up to its wait: cancel, then close. What the workers do next is StopTerminates. */
    method BeginStop()
      requires Valid() && !cancelled && !closed
      modifies this
      ensures Valid() && Stopping(View())
      ensures View() == Next(Next(old(View()), Cancel), Close)
    {
      AccountedStep(View(), Cancel);
      cancelled := true;
      AccountedStep(View(), Close);
      closed := true;
    }
  }
}
