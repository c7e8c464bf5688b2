/** What every run of the delivery protocol conserves, and what the server's count can be at most. */
module DeliveryLedger {
  import opened Common
  import opened Delivery
  import WorkerPool

  // ---------------------------------------------------------------- conservation

  /** Deltas still in the pool when it has shut down: tasks that no worker will ever take. */
  function Abandoned(s: State): int {
    if WorkerPool.AllExited(s.pool) then SumBy(DeltaOf, s.pool.queue) else 0
  }

  function Queued(s: State): int {
    if WorkerPool.AllExited(s.pool) then 0 else SumBy(DeltaOf, s.pool.queue)
  }

  /**
   Every tick and every delta is accounted for in every interleaving: ticks counted, plus the
   snapshot held between Send and ResetCount, are the ticks not yet reported, those erased by
   resets and those handed to Send; and the deltas handed are those dropped, queued, held by a
   worker, finished (delivered or failed) and abandoned.
   */
  lemma LedgerConservation(c: Config, run: seq<Step>)
    requires IsRun(c, Init(c), run)
    ensures var s := After(c, Init(c), run);
            && s.polls + (if s.reporter.Handed? then s.reporter.count else 0) == s.pollCount + s.erased + s.handed
            && s.handed == s.dropped + Queued(s) + SumBy(HeldDelta, s.pool.workers)
                           + (s.delivered + s.failed) + Abandoned(s)
  {
    InvInit(c);
    InvRun(c, Init(c), run);
  }

  /** Polls of a run that land between GetMetrics and ResetCount. */
  function WindowPolls(c: Config, s: State, run: seq<Step>): nat
    requires IsRun(c, s, run)
    decreases |run|
  {
    if run == [] then 0
    else (if run[0].Poll? && !s.reporter.Idle? then 1 else 0) + WindowPolls(c, Next(c, s, run[0]), run[1..])
  }

  /** Ticks that the next ResetCount will erase. */
  function AtRisk(s: State): int { if s.reporter.Idle? then 0 else s.pollCount - s.reporter.count }

  lemma {:induction false} ErasedFrom(c: Config, s: State, run: seq<Step>)
    requires IsRun(c, s, run) && CollectorLedger(s)
    ensures CollectorLedger(After(c, s, run))
    ensures var t := After(c, s, run);
            t.erased + AtRisk(t) == s.erased + AtRisk(s) + WindowPolls(c, s, run)
    decreases |run|
  {
    if run != [] {
      CollectorStep(c, s, run[0]);
      ErasedFrom(c, Next(c, s, run[0]), run[1..]);
    }
  }

  /** The ticks lost are exactly the polls that landed inside a report; between reports all are gone. */
  lemma ErasedExactly(c: Config, run: seq<Step>)
    requires IsRun(c, Init(c), run)
    ensures var s := After(c, Init(c), run);
            s.erased + AtRisk(s) == WindowPolls(c, Init(c), run)
  {
    ErasedFrom(c, Init(c), run);
  }

  // ---------------------------------------------------------------- the server's count

  lemma HandedAtMostPolls(s: State)
    requires CollectorLedger(s)
    ensures s.handed <= s.polls
  {
  }

  lemma ProductBound(a: nat, b: nat, handed: nat, polls: nat, issued: int, applied: int)
    requires applied <= a * issued && issued <= b * handed && handed <= polls
    ensures applied <= polls * b * a
  {
    assert a * issued <= a * (b * handed);
    assert b * handed <= b * polls;
    assert a * (b * handed) <= a * (b * polls);
    assert a * (b * polls) == polls * b * a;
  }

  /** A job in hand has issued its delta at most c.Attempts() times. */
  lemma IssuedByOne(c: Config, w: WorkerPool.Worker<Job>)
    requires WorkerOk(c, w)
    ensures IssuedDelta(w) <= c.Attempts() * HeldDelta(w)
  {
    if w.Running? {
      assert w.task.delta * w.task.attempts <= w.task.delta * c.Attempts();
    }
  }

  lemma IssuedInHand(c: Config, ws: seq<WorkerPool.Worker<Job>>)
    requires forall w :: 0 <= w < |ws| ==> WorkerOk(c, ws[w])
    ensures SumBy(IssuedDelta, ws) <= c.Attempts() * SumBy(HeldDelta, ws)
  {
    forall i | 0 <= i < |ws| ensures IssuedDelta(ws[i]) <= c.Attempts() * HeldDelta(ws[i]) {
      IssuedByOne(c, ws[i]);
    }
    SumByLeq(IssuedDelta, HeldDelta, c.Attempts(), ws);
  }

  lemma SumOfProducts(k: nat, finished: nat, held: int, handed: int, issued: int, inHand: int)
    requires issued <= k * finished + inHand && inHand <= k * held && finished + held <= handed
    ensures issued <= k * handed
  {
    assert k * finished + k * held == k * (finished + held);
    assert k * (finished + held) <= k * handed;
  }

  lemma IssuedAtMostAttempts(c: Config, s: State)
    requires PoolLedger(s) && JobsOk(c, s.pool.queue, s.pool.workers) && IssueBound(c, s)
    ensures SumBy(RequestDelta, s.requests) <= c.Attempts() * s.handed
  {
    IssuedInHand(c, s.pool.workers);
    SumByNonNegative(DeltaOf, s.pool.queue);
    SumOfProducts(c.Attempts(), s.delivered + s.failed, SumBy(HeldDelta, s.pool.workers), s.handed,
                  SumBy(RequestDelta, s.requests), SumBy(IssuedDelta, s.pool.workers));
  }

  lemma AppliedAtMostApplications(c: Config, rs: seq<Request>)
    requires RequestsOk(c, rs)
    ensures SumBy(AppliedDelta, rs) <= c.Applications() * SumBy(RequestDelta, rs)
  {
    forall i | 0 <= i < |rs| ensures AppliedDelta(rs[i]) <= c.Applications() * RequestDelta(rs[i]) {
      assert RequestOk(c, rs[i]);
      assert rs[i].delta * rs[i].applied <= rs[i].delta * c.Applications();
    }
    SumByLeq(AppliedDelta, RequestDelta, c.Applications(), rs);
  }

  lemma AckedAreApplied(c: Config, rs: seq<Request>)
    requires RequestsOk(c, rs)
    ensures SumBy(AckedRequestDelta, rs) <= SumBy(AppliedDelta, rs)
  {
    forall i | 0 <= i < |rs| ensures AckedRequestDelta(rs[i]) <= 1 * AppliedDelta(rs[i]) {
      assert RequestOk(c, rs[i]);
      if rs[i].status.Acked? {
        assert rs[i].delta * 1 <= rs[i].delta * rs[i].applied;
      }
    }
    SumByLeq(AckedRequestDelta, AppliedDelta, 1, rs);
  }

  lemma AppliedAreOpen(c: Config, rs: seq<Request>)
    requires RequestsOk(c, rs) && c.cleanFailures
    ensures SumBy(AppliedDelta, rs) <= SumBy(AckedRequestDelta, rs) + SumBy(PendingRequestDelta, rs)
  {
    forall i | 0 <= i < |rs| ensures AppliedDelta(rs[i]) <= 1 * OpenDelta(rs[i]) {
      assert RequestOk(c, rs[i]);
      assert rs[i].applied == 0 || rs[i].applied == 1;
    }
    SumByLeq(AppliedDelta, OpenDelta, 1, rs);
    OpenIsAckedOrPending(rs);
  }

  /** In a clean environment the server has counted the acknowledged deltas, and at most those in flight. */
  lemma CleanCount(c: Config, s: State)
    requires RequestsOk(c, s.requests) && ServerLedger(s)
    ensures s.delivered + SumBy(AckedDelta, s.pool.workers) <= s.server
    ensures c.cleanFailures ==>
              s.server <= s.delivered + SumBy(AckedDelta, s.pool.workers) + SumBy(InFlightDelta, s.pool.workers)
  {
    AckedAreApplied(c, s.requests);
    if c.cleanFailures {
      AppliedAreOpen(c, s.requests);
    }
  }

  function OpenDelta(q: Request): int { AckedRequestDelta(q) + PendingRequestDelta(q) }

  lemma {:induction false} OpenIsAckedOrPending(rs: seq<Request>)
    ensures SumBy(OpenDelta, rs) == SumBy(AckedRequestDelta, rs) + SumBy(PendingRequestDelta, rs)
  {
    if rs != [] {
      OpenIsAckedOrPending(rs[1..]);
    }
  }

  lemma {:induction false} AckedAndInFlightAreHeld(ws: seq<WorkerPool.Worker<Job>>)
    ensures SumBy(AckedDelta, ws) + SumBy(InFlightDelta, ws) <= SumBy(HeldDelta, ws)
  {
    if ws != [] {
      AckedAndInFlightAreHeld(ws[1..]);
    }
  }

  /**
   Over whole runs the server's PollCount is at most the polls times the attempts of the agent times
   the applications of the server, it is never below what was reported delivered, and it never
   exceeds the polls when a failed attempt is never applied.
   */
  lemma DeliveryBound(c: Config, run: seq<Step>)
    requires IsRun(c, Init(c), run)
    ensures var s := After(c, Init(c), run);
            && s.delivered <= s.server
            && s.server <= s.polls * c.Attempts() * c.Applications()
            && s.server <= s.polls * (if c.agentRetries < 0 then 1 else c.agentRetries + 1)
                                   * (if c.cleanFailures || c.serverRetries.None? || c.serverRetries.value < 0 then 1
                                      else c.serverRetries.value + 1)
            && (c.cleanFailures ==> s.server <= s.polls)
  {
    InvInit(c);
    InvRun(c, Init(c), run);
    CountWithinBounds(c, After(c, Init(c), run));
  }

  lemma CountWithinBounds(c: Config, s: State)
    requires Inv(c, s)
    ensures s.delivered <= s.server
    ensures s.server <= s.polls * c.Attempts() * c.Applications()
    ensures c.cleanFailures ==> s.server <= s.polls
  {
    HandedAtMostPolls(s);
    IssuedAtMostAttempts(c, s);
    AppliedAtMostApplications(c, s.requests);
    ProductBound(c.Applications(), c.Attempts(), s.handed, s.polls, SumBy(RequestDelta, s.requests), s.server);
    CleanCount(c, s);
    SumByNonNegative(AckedDelta, s.pool.workers);
    AckedAndInFlightAreHeld(s.pool.workers);
    SumByNonNegative(DeltaOf, s.pool.queue);
  }

  /** No task is in a worker's hands. */
  predicate Quiet(s: State) {
    forall w :: 0 <= w < |s.pool.workers| ==> !s.pool.workers[w].Dequeued? && !s.pool.workers[w].Running?
  }

  lemma {:induction false} QuietSums(ws: seq<WorkerPool.Worker<Job>>)
    requires forall i :: 0 <= i < |ws| ==> !ws[i].Dequeued? && !ws[i].Running?
    ensures SumBy(HeldDelta, ws) == SumBy(AckedDelta, ws) == SumBy(InFlightDelta, ws) == 0
  {
    if ws != [] {
      forall i | 0 <= i < |ws[1..]| ensures !ws[1..][i].Dequeued? && !ws[1..][i].Running? {
        assert ws[1..][i] == ws[i + 1];
      }
      QuietSums(ws[1..]);
    }
  }

  /**
   Exactly once, end to end: with clean failures, whenever no task is in a worker's hands, each tick
   is in exactly one place: not yet reported, erased, dropped, queued, failed, or counted once by the
   server.
   */
  lemma EveryTickCountedOnce(c: Config, run: seq<Step>)
    requires IsRun(c, Init(c), run) && c.cleanFailures && Quiet(After(c, Init(c), run))
    ensures var s := After(c, Init(c), run);
            s.polls + (if s.reporter.Handed? then s.reporter.count else 0)
            == s.pollCount + s.erased + s.dropped + SumBy(DeltaOf, s.pool.queue) + s.failed + s.server
  {
    InvInit(c);
    InvRun(c, Init(c), run);
    var s := After(c, Init(c), run);
    CleanCount(c, s);
    QuietSums(s.pool.workers);
  }
}
