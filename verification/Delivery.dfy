/**
 How a poll reaches the server's PollCount: the collector counts ticks, the reporter takes a
 snapshot, hands it to the sender and clears the count in three separate steps, the pool queues,
 drops or abandons the task, a worker posts it with retries, and the server adds the delta once for
 every attempt of its own that commits. A run interleaves these steps in any order.
 */
module Delivery {
  import opened Common
  import opened WorkerPool
  import Retry

  /**
   serverRetries is None for the in-memory storage, which applies a request at most once. With
   cleanFailures the environment is such that a request answered with a failure was not applied and
   will not be, and that a request is applied at most once.
   */
  datatype Config = Config(
    agentRetries: int,
    delays: nat,
    serverRetries: Option<int>,
    cleanFailures: bool,
    unlimited: bool,
    workers: nat,
    queueSize: nat)
  {
    function Attempts(): nat { Retry.TotalAttempts(agentRetries) }

    function Applications(): nat {
      if cleanFailures || serverRetries.None? then 1 else Retry.TotalAttempts(serverRetries.value)
    }
  }

  datatype Phase = Ready | InFlight(request: nat) | Retryable | Succeeded | GaveUp

  /** A task: the delta it carries and how far its post has got. */
  datatype Job = Job(delta: nat, limit: nat, attempts: nat, phase: Phase)

  datatype Status = Pending | Acked | Refused

  /** One HTTP request carrying the delta, and how often the server has applied it. */
  datatype Request = Request(delta: nat, status: Status, applied: nat)

  datatype Reporter = Idle | Snapshotted(count: nat) | Handed(count: nat)

  /**
   polls, erased, handed, dropped, delivered and failed are history: ticks counted, ticks cleared
   that no snapshot held, and the deltas handed to Send, dropped by the pool, and carried by tasks
   that returned nil or an error.
   */
  datatype State = State(
    polls: nat,
    pollCount: nat,
    reporter: Reporter,
    erased: nat,
    handed: nat,
    dropped: nat,
    pool: Pool<Job>,
    ctxDone: bool,
    delivered: nat,
    failed: nat,
    requests: seq<Request>,
    server: nat)

  datatype Step =
    | Poll                                // collectFromAllProviders
    | Snapshot                            // report: GetMetrics
    | Send(call: Action<Job>)             // report: Send, which submits to the pool and returns nil
    | ResetCount                          // report: ResetCount
    | PoolStep(action: Action<Job>)       // a worker's or Stop's section of the pool
    | Issue(w: nat)                       // worker w starts an attempt
    | Apply(r: nat)                       // the server commits request r
    | Answer(w: nat, ok: bool, again: bool) // worker w gets its answer; again: a retryable failure
    | GiveUp(w: nat)                      // the retry loop of worker w ends with an error
    | CancelContext                       // the agent's context is done

  function Init(c: Config): State {
    State(0, 0, Idle, 0, 0, 0, New(c.unlimited, c.workers, c.queueSize), false, 0, 0, [], 0)
  }

  /** The job worker w is running, when there is one. */
  predicate Runs(s: State, w: nat) { w < |s.pool.workers| && s.pool.workers[w].Running? }

  function JobOf(s: State, w: nat): Job
    requires Runs(s, w)
  {
    s.pool.workers[w].task
  }

  function NewJob(c: Config, delta: nat): Job { Job(delta, c.Attempts(), 0, Ready) }

  predicate Enabled(c: Config, s: State, step: Step) {
    match step
    case Poll => true
    case Snapshot => s.reporter.Idle?
    case Send(call) =>
      && s.reporter.Snapshotted?
      && call.IsSubmit()
      && WorkerPool.Enabled(s.pool, call)
      && call.task == NewJob(c, s.reporter.count)
    case ResetCount => s.reporter.Handed?
    case PoolStep(a) =>
      && !a.IsSubmit() && !a.Work?
      && WorkerPool.Enabled(s.pool, a)
      && (a.Finish? ==> JobOf(s, a.w).phase.Succeeded? || JobOf(s, a.w).phase.GaveUp?)
    case Issue(w) =>
      && Runs(s, w)
      && (JobOf(s, w).phase.Ready? || (JobOf(s, w).phase.Retryable? && JobOf(s, w).attempts < JobOf(s, w).limit))
    case Apply(r) =>
      && r < |s.requests|
      && s.requests[r].applied < c.Applications()
      && (c.cleanFailures ==> s.requests[r].status.Pending?)
    case Answer(w, ok, again) =>
      && Runs(s, w) && JobOf(s, w).phase.InFlight?
      && JobOf(s, w).phase.request < |s.requests|
      && (ok ==> 1 <= s.requests[JobOf(s, w).phase.request].applied)
      && (!ok && c.cleanFailures ==> s.requests[JobOf(s, w).phase.request].applied == 0)
    case GiveUp(w) =>
      && Runs(s, w) && JobOf(s, w).phase.Retryable?
      && (JobOf(s, w).attempts == JobOf(s, w).limit || (s.ctxDone && JobOf(s, w).attempts <= c.delays))
    case CancelContext => !s.ctxDone
  }

  function Next(c: Config, s: State, step: Step): State
    requires Enabled(c, s, step)
  {
    match step
    case Poll => s.(polls := s.polls + 1, pollCount := s.pollCount + 1)
    case Snapshot => s.(reporter := Snapshotted(s.pollCount))
    case Send(call) =>
      var n := s.reporter.count;
      s.(reporter := Handed(n), handed := s.handed + n, pool := WorkerPool.Next(s.pool, call),
         dropped := if call.DropFull? || call.DropCancelled? then s.dropped + n else s.dropped)
    case ResetCount =>
      s.(reporter := Idle, pollCount := 0,
         erased := s.erased + if s.reporter.count <= s.pollCount then s.pollCount - s.reporter.count else 0)
    case PoolStep(a) =>
      var t := s.(pool := WorkerPool.Next(s.pool, a));
      if !a.Finish? then t
      else if JobOf(s, a.w).phase.Succeeded? then t.(delivered := s.delivered + JobOf(s, a.w).delta)
      else t.(failed := s.failed + JobOf(s, a.w).delta)
    case Issue(w) =>
      var job := JobOf(s, w);
      Advance(s, w, job.(attempts := job.attempts + 1, phase := InFlight(|s.requests|)))
        .(requests := s.requests + [Request(job.delta, Pending, 0)])
    case Apply(r) =>
      var q := s.requests[r];
      s.(requests := s.requests[r := q.(applied := q.applied + 1)], server := s.server + q.delta)
    case Answer(w, ok, again) =>
      var job := JobOf(s, w);
      var r := job.phase.request;
      Advance(s, w, job.(phase := if ok then Succeeded else if again then Retryable else GaveUp))
        .(requests := s.requests[r := s.requests[r].(status := if ok then Acked else Refused)])
    case GiveUp(w) => Advance(s, w, JobOf(s, w).(phase := GaveUp))
    case CancelContext => s.(ctxDone := true)
  }

  /** A client step of worker w is a Work step of the pool. */
  function Advance(s: State, w: nat, job: Job): State
    requires Runs(s, w)
  {
    s.(pool := WorkerPool.Next(s.pool, Work(w, job)))
  }

  predicate IsRun(c: Config, s: State, run: seq<Step>)
    decreases |run|
  {
    run == [] || (Enabled(c, s, run[0]) && IsRun(c, Next(c, s, run[0]), run[1..]))
  }

  function After(c: Config, s: State, run: seq<Step>): State
    requires IsRun(c, s, run)
    decreases |run|
  {
    if run == [] then s else After(c, Next(c, s, run[0]), run[1..])
  }

  // ---------------------------------------------------------------- sums

  function DeltaOf(job: Job): int { job.delta }

  /** Delta of a task that a worker holds and whose fate is still open. */
  function HeldDelta(w: Worker<Job>): int { if w.Dequeued? || w.Running? then w.task.delta else 0 }

  /** Delta of a worker's task, once for every request it has issued. */
  function IssuedDelta(w: Worker<Job>): int { if w.Running? then w.task.delta * w.task.attempts else 0 }

  function AckedDelta(w: Worker<Job>): int {
    if w.Running? && w.task.phase.Succeeded? then w.task.delta else 0
  }

  function InFlightDelta(w: Worker<Job>): int {
    if w.Running? && w.task.phase.InFlight? then w.task.delta else 0
  }

  function RequestDelta(q: Request): int { q.delta }

  function AppliedDelta(q: Request): int { q.delta * q.applied }

  function AckedRequestDelta(q: Request): int { if q.status.Acked? then q.delta else 0 }

  function PendingRequestDelta(q: Request): int { if q.status.Pending? then q.delta else 0 }

  lemma SetWorkerSums(ws: seq<Worker<Job>>, w: nat, x: Worker<Job>)
    requires w < |ws|
    ensures SumBy(HeldDelta, ws[w := x]) == SumBy(HeldDelta, ws) - HeldDelta(ws[w]) + HeldDelta(x)
    ensures SumBy(IssuedDelta, ws[w := x]) == SumBy(IssuedDelta, ws) - IssuedDelta(ws[w]) + IssuedDelta(x)
    ensures SumBy(AckedDelta, ws[w := x]) == SumBy(AckedDelta, ws) - AckedDelta(ws[w]) + AckedDelta(x)
    ensures SumBy(InFlightDelta, ws[w := x]) == SumBy(InFlightDelta, ws) - InFlightDelta(ws[w]) + InFlightDelta(x)
  {
    SumByUpdate(HeldDelta, ws, w, x);
    SumByUpdate(IssuedDelta, ws, w, x);
    SumByUpdate(AckedDelta, ws, w, x);
    SumByUpdate(InFlightDelta, ws, w, x);
  }

  lemma PushWorkerSums(ws: seq<Worker<Job>>, x: Worker<Job>)
    ensures SumBy(HeldDelta, ws + [x]) == SumBy(HeldDelta, ws) + HeldDelta(x)
    ensures SumBy(IssuedDelta, ws + [x]) == SumBy(IssuedDelta, ws) + IssuedDelta(x)
    ensures SumBy(AckedDelta, ws + [x]) == SumBy(AckedDelta, ws) + AckedDelta(x)
    ensures SumBy(InFlightDelta, ws + [x]) == SumBy(InFlightDelta, ws) + InFlightDelta(x)
  {
    SumByPush(HeldDelta, ws, x);
    SumByPush(IssuedDelta, ws, x);
    SumByPush(AckedDelta, ws, x);
    SumByPush(InFlightDelta, ws, x);
  }

  lemma SetRequestSums(rs: seq<Request>, r: nat, x: Request)
    requires r < |rs|
    ensures SumBy(RequestDelta, rs[r := x]) == SumBy(RequestDelta, rs) - RequestDelta(rs[r]) + RequestDelta(x)
    ensures SumBy(AppliedDelta, rs[r := x]) == SumBy(AppliedDelta, rs) - AppliedDelta(rs[r]) + AppliedDelta(x)
    ensures SumBy(AckedRequestDelta, rs[r := x])
         == SumBy(AckedRequestDelta, rs) - AckedRequestDelta(rs[r]) + AckedRequestDelta(x)
    ensures SumBy(PendingRequestDelta, rs[r := x])
         == SumBy(PendingRequestDelta, rs) - PendingRequestDelta(rs[r]) + PendingRequestDelta(x)
  {
    SumByUpdate(RequestDelta, rs, r, x);
    SumByUpdate(AppliedDelta, rs, r, x);
    SumByUpdate(AckedRequestDelta, rs, r, x);
    SumByUpdate(PendingRequestDelta, rs, r, x);
  }

  lemma PushRequestSums(rs: seq<Request>, x: Request)
    ensures SumBy(RequestDelta, rs + [x]) == SumBy(RequestDelta, rs) + RequestDelta(x)
    ensures SumBy(AppliedDelta, rs + [x]) == SumBy(AppliedDelta, rs) + AppliedDelta(x)
    ensures SumBy(AckedRequestDelta, rs + [x]) == SumBy(AckedRequestDelta, rs) + AckedRequestDelta(x)
    ensures SumBy(PendingRequestDelta, rs + [x]) == SumBy(PendingRequestDelta, rs) + PendingRequestDelta(x)
  {
    SumByPush(RequestDelta, rs, x);
    SumByPush(AppliedDelta, rs, x);
    SumByPush(AckedRequestDelta, rs, x);
    SumByPush(PendingRequestDelta, rs, x);
  }

  // ---------------------------------------------------------------- the invariant

  /** Ticks are conserved between the collector and the sender. */
  predicate CollectorLedger(s: State) {
    && (!s.reporter.Idle? ==> s.reporter.count <= s.pollCount)
    && s.polls + (if s.reporter.Handed? then s.reporter.count else 0) == s.pollCount + s.erased + s.handed
  }

  /** Deltas handed to Send are conserved in the pool. */
  predicate PoolLedger(s: State) {
    s.handed == s.dropped + SumBy(DeltaOf, s.pool.queue) + SumBy(HeldDelta, s.pool.workers) + s.delivered + s.failed
  }

  predicate IsNew(c: Config, job: Job) { job == NewJob(c, job.delta) }

  predicate WorkerOk(c: Config, w: Worker<Job>) {
    && (w.Dequeued? ==> IsNew(c, w.task))
    && (w.Running? ==>
          && w.task.limit == c.Attempts()
          && w.task.attempts <= c.Attempts()
          && (w.task.phase.Ready? ==> w.task.attempts == 0))
  }

  /** Queued jobs are new, and no running job has made more attempts than its limit. */
  ghost predicate JobsOk(c: Config, queue: seq<Job>, ws: seq<Worker<Job>>) {
    && (forall i :: 0 <= i < |queue| ==> IsNew(c, queue[i]))
    && (forall w :: 0 <= w < |ws| ==> WorkerOk(c, ws[w]))
  }

  predicate Awaits(w: Worker<Job>) { w.Running? && w.task.phase.InFlight? }

  predicate Linked(job: Job, rs: seq<Request>)
    requires job.phase.InFlight?
  {
    && job.phase.request < |rs|
    && rs[job.phase.request].status.Pending?
    && rs[job.phase.request].delta == job.delta
  }

  /** Every worker that awaits an answer has a pending request of its own, carrying its delta. */
  ghost predicate LinksOk(ws: seq<Worker<Job>>, rs: seq<Request>) {
    && (forall w :: 0 <= w < |ws| && Awaits(ws[w]) ==> Linked(ws[w].task, rs))
    && (forall v, w :: (0 <= v < w < |ws| && Awaits(ws[v]) && Awaits(ws[w])) ==>
          ws[v].task.phase.request != ws[w].task.phase.request)
  }

  predicate RequestOk(c: Config, q: Request) {
    && q.applied <= c.Applications()
    && (q.status.Acked? ==> 1 <= q.applied)
    && (c.cleanFailures && q.status.Refused? ==> q.applied == 0)
  }

  ghost predicate RequestsOk(c: Config, rs: seq<Request>) {
    forall r :: 0 <= r < |rs| ==> RequestOk(c, rs[r])
  }

  /** The server's count in terms of the requests, and their answers in terms of the jobs. */
  predicate ServerLedger(s: State) {
    && s.server == SumBy(AppliedDelta, s.requests)
    && SumBy(AckedRequestDelta, s.requests) == s.delivered + SumBy(AckedDelta, s.pool.workers)
    && SumBy(PendingRequestDelta, s.requests) == SumBy(InFlightDelta, s.pool.workers)
  }

  /** Each task issues at most c.Attempts() requests. */
  predicate IssueBound(c: Config, s: State) {
    SumBy(RequestDelta, s.requests) <= c.Attempts() * (s.delivered + s.failed) + SumBy(IssuedDelta, s.pool.workers)
  }

  ghost predicate Inv(c: Config, s: State) {
    && Accounted(s.pool)
    && CollectorLedger(s)
    && PoolLedger(s)
    && JobsOk(c, s.pool.queue, s.pool.workers)
    && LinksOk(s.pool.workers, s.requests)
    && RequestsOk(c, s.requests)
    && ServerLedger(s)
    && IssueBound(c, s)
  }

  /** Every step keeps the invariant; the lemmas of the next section are about its parts. */
  lemma InvStep(c: Config, s: State, step: Step)
    requires Inv(c, s) && Enabled(c, s, step)
    ensures Inv(c, Next(c, s, step))
  {
    StepIsPoolAction(c, s, step);
    if PoolAction(c, s, step).Some? {
      AccountedStep(s.pool, PoolAction(c, s, step).value);
    }
    CollectorStep(c, s, step);
    PoolLedgerStep(c, s, step);
    JobsStep(c, s, step);
    LinksStep(c, s, step);
    RequestsStep(c, s, step);
    ServerStep(c, s, step);
  }

  lemma {:induction false} InvRun(c: Config, s: State, run: seq<Step>)
    requires Inv(c, s) && IsRun(c, s, run)
    ensures Inv(c, After(c, s, run))
    decreases |run|
  {
    if run != [] {
      InvStep(c, s, run[0]);
      InvRun(c, Next(c, s, run[0]), run[1..]);
    }
  }

  lemma {:induction false} NoSums(ws: seq<Worker<Job>>)
    requires forall i :: 0 <= i < |ws| ==> ws[i].Waiting?
    ensures SumBy(HeldDelta, ws) == SumBy(IssuedDelta, ws) == SumBy(AckedDelta, ws) == SumBy(InFlightDelta, ws) == 0
  {
    if ws != [] {
      forall i | 0 <= i < |ws[1..]| ensures ws[1..][i].Waiting? {
        assert ws[1..][i] == ws[i + 1];
      }
      NoSums(ws[1..]);
    }
  }

  lemma InvInit(c: Config)
    ensures Inv(c, Init(c))
  {
    AccountedInit<Job>(c.unlimited, c.workers, c.queueSize);
    InitLedgers(c);
    var ws := Init(c).pool.workers;
    assert forall i :: 0 <= i < |ws| ==> ws[i].Waiting?;
    assert JobsOk(c, Init(c).pool.queue, ws) && LinksOk(ws, Init(c).requests);
  }

  lemma InitLedgers(c: Config)
    ensures var s := Init(c); CollectorLedger(s) && PoolLedger(s) && ServerLedger(s) && IssueBound(c, s)
  {
    NoSums(Init(c).pool.workers);
  }

  // ---------------------------------------------------------------- the parts of the invariant

  /** The pool's own action in a step, if there is one. */
  function PoolAction(c: Config, s: State, step: Step): Option<Action<Job>>
    requires Enabled(c, s, step)
  {
    match step
    case Send(call) => Some(call)
    case PoolStep(a) => Some(a)
    case Issue(w) => Some(Work(w, Next(c, s, step).pool.workers[w].task))
    case Answer(w, _, _) => Some(Work(w, Next(c, s, step).pool.workers[w].task))
    case GiveUp(w) => Some(Work(w, Next(c, s, step).pool.workers[w].task))
    case _ => None
  }

  /** Every step is an action of the pool or leaves it alone, so the pool's accounting carries over. */
  lemma StepIsPoolAction(c: Config, s: State, step: Step)
    requires Enabled(c, s, step)
    ensures var a := PoolAction(c, s, step);
            if a.None? then Next(c, s, step).pool == s.pool
            else WorkerPool.Enabled(s.pool, a.value) && Next(c, s, step).pool == WorkerPool.Next(s.pool, a.value)
  {
  }

  /** The one worker a step changes, if any. */
  function ChangedWorker(step: Step): Option<nat> {
    match step
    case Send(call) => if call.Handoff? then Some(call.w) else None
    case PoolStep(a) => if a.IsWorkerStep() then Some(a.w) else None
    case Issue(w) => Some(w)
    case Answer(w, _, _) => Some(w)
    case GiveUp(w) => Some(w)
    case _ => None
  }

  predicate Spawns(step: Step) { step.Send? && step.call.Spawn? }

  lemma PoolWorkersAfter(p: Pool<Job>, a: Action<Job>)
    requires WorkerPool.Enabled(p, a)
    ensures var ws := WorkerPool.Next(p, a).workers;
            if a.IsWorkerStep() || a.Handoff? then
              a.w < |p.workers| && |ws| == |p.workers| && ws == p.workers[a.w := ws[a.w]]
            else
              ws == if a.Spawn? then p.workers + [Dequeued(a.task)] else p.workers
  {
  }

  lemma WorkersAfter(c: Config, s: State, step: Step)
    requires Enabled(c, s, step)
    ensures var w := ChangedWorker(step);
            var ws := Next(c, s, step).pool.workers;
            && (w.Some? ==>
                  && w.value < |s.pool.workers| && |ws| == |s.pool.workers|
                  && ws == s.pool.workers[w.value := ws[w.value]])
            && (w.None? ==> ws == if Spawns(step) then s.pool.workers + [Dequeued(step.call.task)] else s.pool.workers)
  {
    StepIsPoolAction(c, s, step);
    var a := PoolAction(c, s, step);
    if a.Some? {
      PoolWorkersAfter(s.pool, a.value);
    }
  }

  /** How the sums over the workers move in a step. */
  lemma SumsAfter(c: Config, s: State, step: Step)
    requires Enabled(c, s, step)
    ensures var w := ChangedWorker(step);
            var old_, ws := s.pool.workers, Next(c, s, step).pool.workers;
            && (w.Some? ==>
                  && w.value < |old_| && w.value < |ws|
                  && SumBy(HeldDelta, ws) == SumBy(HeldDelta, old_) - HeldDelta(old_[w.value]) + HeldDelta(ws[w.value])
                  && SumBy(IssuedDelta, ws)
                     == SumBy(IssuedDelta, old_) - IssuedDelta(old_[w.value]) + IssuedDelta(ws[w.value])
                  && SumBy(AckedDelta, ws)
                     == SumBy(AckedDelta, old_) - AckedDelta(old_[w.value]) + AckedDelta(ws[w.value])
                  && SumBy(InFlightDelta, ws)
                     == SumBy(InFlightDelta, old_) - InFlightDelta(old_[w.value]) + InFlightDelta(ws[w.value]))
            && (w.None? ==>
                  && SumBy(HeldDelta, ws) == SumBy(HeldDelta, old_) + (if Spawns(step) then step.call.task.delta else 0)
                  && SumBy(IssuedDelta, ws) == SumBy(IssuedDelta, old_)
                  && SumBy(AckedDelta, ws) == SumBy(AckedDelta, old_)
                  && SumBy(InFlightDelta, ws) == SumBy(InFlightDelta, old_))
  {
    WorkersAfter(c, s, step);
    var w := ChangedWorker(step);
    if w.Some? {
      SetWorkerSums(s.pool.workers, w.value, Next(c, s, step).pool.workers[w.value]);
    } else if Spawns(step) {
      PushWorkerSums(s.pool.workers, Dequeued(step.call.task));
    }
  }

  lemma CollectorStep(c: Config, s: State, step: Step)
    requires Enabled(c, s, step) && CollectorLedger(s)
    ensures CollectorLedger(Next(c, s, step))
  {
  }

  lemma PoolLedgerSend(c: Config, s: State, call: Action<Job>)
    requires Enabled(c, s, Send(call)) && PoolLedger(s)
    ensures PoolLedger(Next(c, s, Send(call)))
  {
    SumsAfter(c, s, Send(call));
    SumByPush(DeltaOf, s.pool.queue, call.task);
  }

  lemma PoolLedgerPoolStep(c: Config, s: State, a: Action<Job>)
    requires Enabled(c, s, PoolStep(a)) && PoolLedger(s)
    ensures PoolLedger(Next(c, s, PoolStep(a)))
  {
    SumsAfter(c, s, PoolStep(a));
  }

  lemma PoolLedgerClientStep(c: Config, s: State, step: Step)
    requires Enabled(c, s, step) && PoolLedger(s)
    requires step.Issue? || step.Answer? || step.GiveUp?
    ensures PoolLedger(Next(c, s, step))
  {
    SumsAfter(c, s, step);
  }

  lemma PoolLedgerStep(c: Config, s: State, step: Step)
    requires Enabled(c, s, step) && PoolLedger(s)
    ensures PoolLedger(Next(c, s, step))
  {
    match step {
      case Send(call) => PoolLedgerSend(c, s, call);
      case PoolStep(a) => PoolLedgerPoolStep(c, s, a);
      case Issue(_) => PoolLedgerClientStep(c, s, step);
      case Answer(_, _, _) => PoolLedgerClientStep(c, s, step);
      case GiveUp(_) => PoolLedgerClientStep(c, s, step);
      case _ =>
    }
  }

  /** What a pool step makes of a worker whose queue and task are well formed. */
  lemma WorkerAfterPoolStep(c: Config, s: State, a: Action<Job>)
    requires Enabled(c, s, PoolStep(a)) && JobsOk(c, s.pool.queue, s.pool.workers) && a.IsWorkerStep()
    ensures a.w < |s.pool.workers| == |Next(c, s, PoolStep(a)).pool.workers|
    ensures var x := Next(c, s, PoolStep(a)).pool.workers[a.w];
            WorkerOk(c, x) && !Awaits(x) && !Awaits(s.pool.workers[a.w])
  {
    assert WorkerOk(c, s.pool.workers[a.w]);
  }

  lemma WorkerAfterSend(c: Config, s: State, call: Action<Job>)
    requires Enabled(c, s, Send(call)) && call.Handoff?
    ensures call.w < |s.pool.workers| == |Next(c, s, Send(call)).pool.workers|
    ensures var x := Next(c, s, Send(call)).pool.workers[call.w];
            WorkerOk(c, x) && !Awaits(x) && !Awaits(s.pool.workers[call.w])
  {
  }

  lemma WorkerAfterClientStep(c: Config, s: State, step: Step)
    requires Enabled(c, s, step) && JobsOk(c, s.pool.queue, s.pool.workers)
    requires step.Issue? || step.Answer? || step.GiveUp?
    ensures step.w < |s.pool.workers| == |Next(c, s, step).pool.workers|
    ensures var x := Next(c, s, step).pool.workers[step.w];
            && WorkerOk(c, x)
            && (Awaits(x) ==>
                  && step.Issue? && x.task.phase.request == |s.requests|
                  && x.task.delta == s.pool.workers[step.w].task.delta)
            && (Awaits(s.pool.workers[step.w]) <==> step.Answer?)
  {
    assert WorkerOk(c, s.pool.workers[step.w]);
  }

  /**
   A step leaves the changed worker well formed, and the worker awaits an answer afterwards only for
   the request that the step itself has issued.
   */
  lemma {:induction false} ChangedWorkerAfter(c: Config, s: State, step: Step, w: nat)
    requires Enabled(c, s, step) && JobsOk(c, s.pool.queue, s.pool.workers) && ChangedWorker(step) == Some(w)
    ensures w < |s.pool.workers| == |Next(c, s, step).pool.workers|
    ensures var x := Next(c, s, step).pool.workers[w];
            && WorkerOk(c, x)
            && (Awaits(x) ==>
                  && step.Issue? && x.task.phase.request == |s.requests|
                  && x.task.delta == s.pool.workers[w].task.delta)
            && (Awaits(s.pool.workers[w]) <==> step.Answer?)
  {
    match step {
      case Send(call) => WorkerAfterSend(c, s, call);
      case PoolStep(a) => WorkerAfterPoolStep(c, s, a);
      case _ => WorkerAfterClientStep(c, s, step);
    }
  }

  lemma {:induction false} QueueAfter(c: Config, s: State, step: Step)
    requires Enabled(c, s, step) && JobsOk(c, s.pool.queue, s.pool.workers)
    ensures var q := Next(c, s, step).pool.queue; forall i :: 0 <= i < |q| ==> IsNew(c, q[i])
  {
    var q := Next(c, s, step).pool.queue;
    assert q == s.pool.queue
        || (step.Send? && q == s.pool.queue + [step.call.task] && IsNew(c, step.call.task))
        || (s.pool.queue != [] && q == s.pool.queue[1..]);
  }

  lemma {:induction false} JobsStep(c: Config, s: State, step: Step)
    requires Enabled(c, s, step) && JobsOk(c, s.pool.queue, s.pool.workers)
    ensures JobsOk(c, Next(c, s, step).pool.queue, Next(c, s, step).pool.workers)
  {
    QueueAfter(c, s, step);
    WorkersAfter(c, s, step);
    if ChangedWorker(step).Some? {
      ChangedWorkerAfter(c, s, step, ChangedWorker(step).value);
    }
  }

  /** A worker that a step does not change keeps its link. */
  lemma LinkStays(c: Config, s: State, step: Step, v: nat)
    requires Enabled(c, s, step) && LinksOk(s.pool.workers, s.requests)
    requires v < |s.pool.workers| && Awaits(s.pool.workers[v]) && (step.Answer? ==> v != step.w)
    ensures Linked(s.pool.workers[v].task, Next(c, s, step).requests)
  {
    assert Linked(s.pool.workers[v].task, s.requests);
    if step.Answer? {
      assert Awaits(s.pool.workers[step.w]);
    }
  }

  lemma {:induction false} LinksStep(c: Config, s: State, step: Step)
    requires Enabled(c, s, step) && JobsOk(c, s.pool.queue, s.pool.workers) && LinksOk(s.pool.workers, s.requests)
    ensures LinksOk(Next(c, s, step).pool.workers, Next(c, s, step).requests)
  {
    WorkersAfter(c, s, step);
    var w := ChangedWorker(step);
    var ws, rs := Next(c, s, step).pool.workers, Next(c, s, step).requests;
    if w.Some? {
      ChangedWorkerAfter(c, s, step, w.value);
    }
    forall v | 0 <= v < |ws| && Awaits(ws[v]) ensures Linked(ws[v].task, rs) {
      if w != Some(v) {
        assert v < |s.pool.workers| && ws[v] == s.pool.workers[v];
        LinkStays(c, s, step, v);
      }
    }
  }

  lemma RequestsStep(c: Config, s: State, step: Step)
    requires Enabled(c, s, step) && RequestsOk(c, s.requests)
    ensures RequestsOk(c, Next(c, s, step).requests)
  {
  }

  lemma PoolStepKeepsServer(c: Config, s: State, a: Action<Job>)
    requires Enabled(c, s, PoolStep(a)) && JobsOk(c, s.pool.queue, s.pool.workers) && ServerLedger(s)
    ensures ServerLedger(Next(c, s, PoolStep(a)))
  {
    SumsAfter(c, s, PoolStep(a));
    if a.IsWorkerStep() {
      assert WorkerOk(c, s.pool.workers[a.w]);
    }
  }

  lemma PoolStepKeepsIssued(c: Config, s: State, a: Action<Job>)
    requires Enabled(c, s, PoolStep(a)) && JobsOk(c, s.pool.queue, s.pool.workers) && IssueBound(c, s)
    ensures IssueBound(c, Next(c, s, PoolStep(a)))
  {
    SumsAfter(c, s, PoolStep(a));
    if a.IsWorkerStep() {
      assert WorkerOk(c, s.pool.workers[a.w]);
      if a.Finish? {
        IssuedWithinLimit(c.Attempts(), s.delivered + s.failed, JobOf(s, a.w));
      }
    }
  }

  lemma SendKeepsServer(c: Config, s: State, call: Action<Job>)
    requires Enabled(c, s, Send(call)) && ServerLedger(s) && IssueBound(c, s)
    ensures ServerLedger(Next(c, s, Send(call))) && IssueBound(c, Next(c, s, Send(call)))
  {
    SumsAfter(c, s, Send(call));
  }

  lemma GiveUpKeepsServer(c: Config, s: State, w: nat)
    requires Enabled(c, s, GiveUp(w)) && ServerLedger(s) && IssueBound(c, s)
    ensures ServerLedger(Next(c, s, GiveUp(w))) && IssueBound(c, Next(c, s, GiveUp(w)))
  {
    SumsAfter(c, s, GiveUp(w));
  }

  lemma OneMore(job: Job, q: Request)
    ensures job.delta * (job.attempts + 1) == job.delta * job.attempts + job.delta
    ensures q.delta * (q.applied + 1) == q.delta * q.applied + q.delta
  {
  }

  lemma IssueKeepsServer(c: Config, s: State, w: nat)
    requires Enabled(c, s, Issue(w)) && ServerLedger(s) && IssueBound(c, s)
    ensures ServerLedger(Next(c, s, Issue(w))) && IssueBound(c, Next(c, s, Issue(w)))
  {
    var job := JobOf(s, w);
    SumsAfter(c, s, Issue(w));
    PushRequestSums(s.requests, Request(job.delta, Pending, 0));
    OneMore(job, Request(job.delta, Pending, 0));
  }

  lemma ApplyKeepsServer(c: Config, s: State, r: nat)
    requires Enabled(c, s, Apply(r)) && ServerLedger(s)
    ensures ServerLedger(Next(c, s, Apply(r)))
    ensures IssueBound(c, s) ==> IssueBound(c, Next(c, s, Apply(r)))
  {
    var q := s.requests[r];
    SetRequestSums(s.requests, r, q.(applied := q.applied + 1));
    assert AppliedDelta(q.(applied := q.applied + 1)) == AppliedDelta(q) + q.delta by {
      OneMore(NewJob(c, 0), q);
    }
  }

  lemma AnswerKeepsServer(c: Config, s: State, w: nat, ok: bool, again: bool)
    requires Enabled(c, s, Answer(w, ok, again)) && LinksOk(s.pool.workers, s.requests)
    requires ServerLedger(s) && IssueBound(c, s)
    ensures ServerLedger(Next(c, s, Answer(w, ok, again))) && IssueBound(c, Next(c, s, Answer(w, ok, again)))
  {
    var r := JobOf(s, w).phase.request;
    assert Awaits(s.pool.workers[w]) && Linked(JobOf(s, w), s.requests);
    SumsAfter(c, s, Answer(w, ok, again));
    SetRequestSums(s.requests, r, Next(c, s, Answer(w, ok, again)).requests[r]);
  }

  lemma ServerStep(c: Config, s: State, step: Step)
    requires Enabled(c, s, step) && JobsOk(c, s.pool.queue, s.pool.workers) && LinksOk(s.pool.workers, s.requests)
    requires ServerLedger(s) && IssueBound(c, s)
    ensures ServerLedger(Next(c, s, step)) && IssueBound(c, Next(c, s, step))
  {
    match step {
      case Send(call) => SendKeepsServer(c, s, call);
      case PoolStep(a) =>
        PoolStepKeepsServer(c, s, a);
        PoolStepKeepsIssued(c, s, a);
      case Issue(w) => IssueKeepsServer(c, s, w);
      case Apply(r) => ApplyKeepsServer(c, s, r);
      case Answer(w, ok, again) => AnswerKeepsServer(c, s, w, ok, again);
      case GiveUp(w) => GiveUpKeepsServer(c, s, w);
      case _ =>
    }
  }

  lemma IssuedWithinLimit(limit: nat, finished: nat, job: Job)
    requires job.attempts <= limit
    ensures limit * finished + job.delta * job.attempts <= limit * (finished + job.delta)
  {
    assert job.delta * job.attempts <= job.delta * limit;
    assert limit * (finished + job.delta) == limit * finished + limit * job.delta;
  }

  // ---------------------------------------------------------------- runs put together

  lemma Prepend(c: Config, s: State, step: Step, rest: seq<Step>) returns (run: seq<Step>)
    requires Enabled(c, s, step) && IsRun(c, Next(c, s, step), rest)
    ensures IsRun(c, s, run) && After(c, s, run) == After(c, Next(c, s, step), rest)
  {
    run := [step] + rest;
    assert run[1..] == rest;
  }

  lemma {:induction false} Concatenate(c: Config, s: State, a: seq<Step>, b: seq<Step>)
    requires IsRun(c, s, a) && IsRun(c, After(c, s, a), b)
    ensures IsRun(c, s, a + b) && After(c, s, a + b) == After(c, After(c, s, a), b)
    decreases |a|
  {
    if a == [] {
      assert a + b == b;
    } else {
      Concatenate(c, Next(c, s, a[0]), a[1..], b);
      assert (a + b)[1..] == a[1..] + b;
    }
  }
}
