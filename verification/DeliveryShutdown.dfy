/** The delivery protocol after Stop: the workers take a bounded number of steps and all exit. */
module DeliveryShutdown {
  import opened Common
  import opened Delivery
  import opened DeliveryLedger
  import Retry
  import WorkerPool

  /** Steps of a job still ahead of it, whatever the server answers. */
  function JobRank(job: Job): nat {
    var left := if job.attempts < job.limit then 3 * (job.limit - job.attempts) else 0;
    match job.phase
    case Ready => left + 1
    case InFlight(_) => left + 2
    case Retryable => left + 1
    case Succeeded => 0
    case GaveUp => 0
  }

  /** Steps that a worker goroutine takes, in the pool's loop or in the client's. */
  predicate IsWorkerStep(step: Step) {
    step.Issue? || step.Answer? || step.GiveUp? || (step.PoolStep? && step.action.IsWorkerStep())
  }

  function WorkerSteps(run: seq<Step>): nat {
    if run == [] then 0 else (if IsWorkerStep(run[0]) then 1 else 0) + WorkerSteps(run[1..])
  }

  predicate NoSend(run: seq<Step>) { forall i :: 0 <= i < |run| ==> !run[i].Send? }

  /** The client is done with a job that has succeeded or been given up: the worker's next step is to finish. */
  predicate IsOver(s: State, w: nat) { Runs(s, w) && (JobOf(s, w).phase.Succeeded? || JobOf(s, w).phase.GaveUp?) }

  lemma JobStaysOver(c: Config, s: State, step: Step, w: nat)
    requires Enabled(c, s, step) && IsOver(s, w) && step != PoolStep(WorkerPool.Finish(w))
    ensures IsOver(Next(c, s, step), w) && JobOf(Next(c, s, step), w) == JobOf(s, w)
    ensures step != Issue(w) && step != GiveUp(w) && !(step.Answer? && step.w == w)
  {
  }

  /**
   A success ends a job at once, and so does a failure that is not retryable: until the worker has finished
   it, in whatever run, no further attempt is issued for it.
   */
  lemma {:induction false} OverJobIssuesNothing(c: Config, s: State, w: nat, run: seq<Step>)
    requires IsOver(s, w) && IsRun(c, s, run)
    requires forall i :: 0 <= i < |run| ==> run[i] != PoolStep(WorkerPool.Finish(w))
    ensures IsOver(After(c, s, run), w) && JobOf(After(c, s, run), w) == JobOf(s, w)
    ensures forall i :: 0 <= i < |run| ==> run[i] != Issue(w)
    decreases |run|
  {
    if run != [] {
      JobStaysOver(c, s, run[0], w);
      forall i | 0 <= i < |run[1..]| ensures run[1..][i] != PoolStep(WorkerPool.Finish(w)) {
        assert run[1..][i] == run[i + 1];
      }
      OverJobIssuesNothing(c, Next(c, s, run[0]), w, run[1..]);
      forall i | 0 <= i < |run| ensures run[i] != Issue(w) {
        if i > 0 {
          assert run[1..][i - 1] == run[i];
        }
      }
    }
  }

  /** What an answer makes of the job: only a retryable failure leaves it with more to do. */
  lemma AnswerEndsJob(c: Config, s: State, w: nat, ok: bool, again: bool)
    requires Enabled(c, s, Answer(w, ok, again))
    ensures var t := Next(c, s, Answer(w, ok, again));
            && Runs(t, w) && JobOf(t, w).attempts == JobOf(s, w).attempts
            && (IsOver(t, w) <==> ok || !again)
            && (JobOf(t, w).phase.Succeeded? <==> ok)
            && (!IsOver(t, w) ==>
                  (Enabled(c, t, Issue(w)) <==> JobOf(t, w).attempts < JobOf(t, w).limit))
  {
  }

  /**
   The job's choice after a retryable failure is the retry loop's: where a loop with the client's retries
   ends after k such attempts, the job may be given up, by the context's error only if the context is done;
   and where it goes on, the next attempt may be issued.
   */
  lemma ClientFollowsRetry<S, E>(c: Config, s: State, w: nat, ds: seq<int>, f: E -> bool,
                                 op: Retry.Operation<S, E>, interrupted: nat -> bool, world: S)
    requires Runs(s, w) && JobOf(s, w).phase.Retryable? && JobOf(s, w).limit == c.Attempts() && |ds| == c.delays
    requires 0 < JobOf(s, w).attempts <= c.Attempts()
    requires forall j :: 0 <= j < JobOf(s, w).attempts - 1 ==> Retry.RetriedAfter(ds, f, op, interrupted, world, j)
    requires var e := Retry.ErrorOf(op, world, JobOf(s, w).attempts - 1); e.Some? && f(e.value)
    requires interrupted(JobOf(s, w).attempts - 1) ==> s.ctxDone
    ensures var k := JobOf(s, w).attempts;
            var r := Retry.Run(Retry.Config(c.agentRetries, Some(ds), Some(f)), op, interrupted, world);
            && (r.attempts == k ==> Enabled(c, s, GiveUp(w)))
            && (r.attempts > k ==> Enabled(c, s, Issue(w)))
            && r.attempts >= k
  {
    var k := JobOf(s, w).attempts;
    var cfg := Retry.Config(c.agentRetries, Some(ds), Some(f));
    Retry.EndsAt(c.agentRetries, ds, f, op, interrupted, world, k - 1);
    Retry.RetrySemantics(cfg, op, interrupted, world);
    var last := Retry.Run(cfg, op, interrupted, world).attempts - 1;
    Retry.GoesOnIsRetried(c.agentRetries, ds, f, op, interrupted, world, last);
  }

  lemma JobRankFalls(c: Config, s: State, step: Step)
    requires JobsOk(c, s.pool.queue, s.pool.workers) && Enabled(c, s, step)
    requires step.Issue? || step.Answer? || step.GiveUp?
    ensures Runs(s, step.w) && Runs(Next(c, s, step), step.w)
    ensures JobRank(JobOf(Next(c, s, step), step.w)) < JobRank(JobOf(s, step.w))
  {
    assert WorkerOk(c, s.pool.workers[step.w]);
  }

  lemma MeasureStep(c: Config, s: State, step: Step)
    requires JobsOk(c, s.pool.queue, s.pool.workers) && Enabled(c, s, step) && !step.Send?
    ensures WorkerPool.Measure(JobRank, Next(c, s, step).pool) + (if IsWorkerStep(step) then 1 else 0)
         <= WorkerPool.Measure(JobRank, s.pool)
    ensures WorkerPool.Stopping(s.pool) ==> WorkerPool.Stopping(Next(c, s, step).pool)
  {
    StepIsPoolAction(c, s, step);
    if step.Issue? || step.Answer? || step.GiveUp? {
      JobRankFalls(c, s, step);
      WorkerPool.WorkerStepDecreases(JobRank, s.pool, PoolAction(c, s, step).value);
    } else if step.PoolStep? && step.action.IsWorkerStep() {
      WorkerPool.WorkerStepDecreases(JobRank, s.pool, step.action);
    }
  }

  /** A worker inside its task can move, whatever the server has done so far. */
  lemma RunningCanMove(c: Config, s: State, w: nat) returns (step: Step)
    requires JobsOk(c, s.pool.queue, s.pool.workers) && LinksOk(s.pool.workers, s.requests) && Runs(s, w)
    ensures Enabled(c, s, step) && IsWorkerStep(step)
  {
    var job := JobOf(s, w);
    assert WorkerOk(c, s.pool.workers[w]);
    match job.phase {
      case Ready => step := Issue(w);
      case InFlight(r) =>
        assert Awaits(s.pool.workers[w]) && Linked(job, s.requests);
        step := Answer(w, 1 <= s.requests[r].applied, false);
      case Retryable => step := if job.attempts < job.limit then Issue(w) else GiveUp(w);
      case _ => step := PoolStep(WorkerPool.Finish(w));
    }
  }

  /** A worker that has not exited can move. */
  lemma SomeWorkerCanMove(c: Config, s: State)
    requires JobsOk(c, s.pool.queue, s.pool.workers) && LinksOk(s.pool.workers, s.requests)
    requires WorkerPool.Accounted(s.pool) && WorkerPool.Stopping(s.pool) && !WorkerPool.AllExited(s.pool)
    ensures exists step :: Enabled(c, s, step) && IsWorkerStep(step)
  {
    var w: nat :| w < |s.pool.workers| && !s.pool.workers[w].Exited?;
    var step: Step;
    match s.pool.workers[w] {
      case Waiting => step := PoolStep(WorkerPool.SeeCancelled(w));
      case Dequeued(_) => step := PoolStep(WorkerPool.Begin(w));
      case Decremented(_) => step := PoolStep(WorkerPool.Count(w));
      case Running(_) => step := RunningCanMove(c, s, w);
    }
    assert Enabled(c, s, step) && IsWorkerStep(step);
  }

  /**
   Stop returns: once the pool is stopping and nothing more is sent, the workers take at most
   Measure steps however these interleave with polls and with the server, and when none of them can
   move any more all have exited, with every accepted task processed or left in the queue.
   */
  lemma {:induction false} StopReturns(c: Config, s: State, run: seq<Step>)
    requires Inv(c, s) && WorkerPool.Stopping(s.pool) && IsRun(c, s, run) && NoSend(run)
    ensures WorkerSteps(run) <= WorkerPool.Measure(JobRank, s.pool)
    ensures var t := After(c, s, run);
            (forall step :: Enabled(c, t, step) ==> !IsWorkerStep(step)) ==>
              && WorkerPool.AllExited(t.pool)
              && t.pool.activeWorkers == 0
              && |t.pool.accepted| == t.pool.processedTasks + |t.pool.queue|
              && t.handed == t.dropped + t.delivered + t.failed + Abandoned(t)
    decreases |run|
  {
    if run == [] {
      if forall step :: Enabled(c, s, step) ==> !IsWorkerStep(step) {
        if !WorkerPool.AllExited(s.pool) {
          SomeWorkerCanMove(c, s);
        }
        WorkerPool.NoneHeld(s.pool.workers);
        QuietSums(s.pool.workers);
      }
    } else {
      InvStep(c, s, run[0]);
      MeasureStep(c, s, run[0]);
      StopReturns(c, Next(c, s, run[0]), run[1..]);
    }
  }
}
