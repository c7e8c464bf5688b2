/** Runs of the delivery protocol that lose ticks or reach the bound on the server's count. */
module DeliveryRuns {
  import opened Common
  import opened Delivery
  import opened DeliveryLedger
  import WorkerPool

  // ---------------------------------------------------------------- ticks that are lost

  /** A snapshot of one poll has been taken. */
  function Polled(c: Config): State {
    State(1, 1, Snapshotted(1), 0, 0, 0, WorkerPool.New(c.unlimited, c.workers, c.queueSize), false, 0, 0, [], 0)
  }

  lemma PollOne(c: Config) returns (run: seq<Step>)
    ensures IsRun(c, Init(c), run) && After(c, Init(c), run) == Polled(c)
  {
    var s1 := Next(c, Init(c), Poll);
    run := Prepend(c, s1, Snapshot, []);
    run := Prepend(c, Init(c), Poll, run);
  }

  /** In every configuration a tick can be lost to a reset: it comes while a report is being made. */
  lemma TickCanBeErased(c: Config)
    ensures exists run :: IsRun(c, Init(c), run) && After(c, Init(c), run).erased == 1
  {
    var job := NewJob(c, 1);
    var call: WorkerPool.Action<Job> :=
      if c.unlimited then WorkerPool.Spawn(job)
      else if c.queueSize > 0 then WorkerPool.Accept(job)
      else WorkerPool.DropFull(job);
    var s := Next(c, Polled(c), Poll);
    var rest := Prepend(c, Next(c, s, Send(call)), ResetCount, []);
    rest := Prepend(c, s, Send(call), rest);
    rest := Prepend(c, Polled(c), Poll, rest);
    var poll := PollOne(c);
    Concatenate(c, Init(c), poll, rest);
  }

  /** In every bounded pool a report can be dropped, and its tick is gone with it. */
  lemma ReportCanBeDropped(c: Config)
    requires !c.unlimited
    ensures exists run :: IsRun(c, Init(c), run)
                          && After(c, Init(c), run).polls == 1 && After(c, Init(c), run).pollCount == 0
                          && After(c, Init(c), run).dropped == 1
  {
    var call: WorkerPool.Action<Job> := WorkerPool.DropCancelled(NewJob(c, 1));
    var s := Next(c, Polled(c), PoolStep(WorkerPool.Cancel));
    var rest := Prepend(c, Next(c, s, Send(call)), ResetCount, []);
    rest := Prepend(c, s, Send(call), rest);
    rest := Prepend(c, Polled(c), PoolStep(WorkerPool.Cancel), rest);
    var poll := PollOne(c);
    Concatenate(c, Init(c), poll, rest);
  }

  // ---------------------------------------------------------------- the bound is reached

  /** There is somebody to run a task: NewMetricsSender makes the unlimited sender when workers is 0. */
  predicate HasWorker(c: Config) { c.unlimited || c.workers > 0 }

  /** The pool when worker 0 has the one task submitted so far. */
  function OneTask(c: Config, worker: WorkerPool.Worker<Job>, active: int): WorkerPool.Pool<Job>
    requires HasWorker(c)
  {
    var pool := WorkerPool.New<Job>(c.unlimited, c.workers, c.queueSize);
    pool.(workers := if c.unlimited then [worker] else pool.workers[0 := worker], activeWorkers := active,
          submitted := 1, accepted := [NewJob(c, 1)], dequeued := [NewJob(c, 1)])
  }

  /**
   One poll has been made and handed over; worker 0 is posting it and has made n attempts, each of
   which the server has applied as often as it can and then failed to answer.
   */
  function Posting(c: Config, n: nat, phase: Phase): State
    requires HasWorker(c)
  {
    State(1, 1, Handed(1), 0, 1, 0, OneTask(c, WorkerPool.Running(Job(1, c.Attempts(), n, phase)), 1),
          false, 0, 0, seq(n, i => Request(1, Refused, c.Applications())), n * c.Applications())
  }

  /** The poll has been handed over and worker 0 has taken it. */
  function Taken(c: Config): State
    requires HasWorker(c)
  {
    State(1, 1, Handed(1), 0, 1, 0, OneTask(c, WorkerPool.Dequeued(NewJob(c, 1)), 0), false, 0, 0, [], 0)
  }

  /** The task goes through the queue, straight to the worker, or to a goroutine of its own. */
  lemma TakeOne(c: Config) returns (run: seq<Step>)
    requires HasWorker(c)
    ensures IsRun(c, Polled(c), run) && After(c, Polled(c), run) == Taken(c)
  {
    var job := NewJob(c, 1);
    if c.unlimited {
      assert Next(c, Polled(c), Send(WorkerPool.Spawn(job))) == Taken(c);
      run := Prepend(c, Polled(c), Send(WorkerPool.Spawn(job)), []);
    } else if c.queueSize == 0 {
      assert Next(c, Polled(c), Send(WorkerPool.Handoff(job, 0))) == Taken(c);
      run := Prepend(c, Polled(c), Send(WorkerPool.Handoff(job, 0)), []);
    } else {
      var s := Next(c, Polled(c), Send(WorkerPool.Accept(job)));
      assert Next(c, s, PoolStep(WorkerPool.Receive(0))) == Taken(c);
      run := Prepend(c, s, PoolStep(WorkerPool.Receive(0)), []);
      run := Prepend(c, Polled(c), Send(WorkerPool.Accept(job)), run);
    }
  }

  lemma StartPosting(c: Config) returns (run: seq<Step>)
    requires HasWorker(c)
    ensures IsRun(c, Init(c), run) && After(c, Init(c), run) == Posting(c, 0, Ready)
  {
    var t := Next(c, Taken(c), PoolStep(WorkerPool.Begin(0)));
    assert t.pool.workers == Posting(c, 0, Ready).pool.workers;
    assert t == Posting(c, 0, Ready);
    var poll := PollOne(c);
    var take := TakeOne(c);
    var begin := Prepend(c, Taken(c), PoolStep(WorkerPool.Begin(0)), []);
    Concatenate(c, Polled(c), take, begin);
    Concatenate(c, Init(c), poll, take + begin);
    run := poll + (take + begin);
  }

  /** The state in which the server has applied request r of s another k times. */
  function Applied(s: State, r: nat, k: nat): State
    requires r < |s.requests|
  {
    var q := s.requests[r];
    s.(requests := s.requests[r := q.(applied := q.applied + k)], server := s.server + k * q.delta)
  }

  lemma AppliedOneMore(c: Config, s: State, r: nat, k: nat)
    requires Enabled(c, s, Apply(r)) && k > 0
    ensures var t := Next(c, s, Apply(r));
            && |t.requests| == |s.requests|
            && t.requests[r] == s.requests[r].(applied := s.requests[r].applied + 1)
            && Applied(t, r, k - 1) == Applied(s, r, k)
  {
    assert s.requests[r].delta + (k - 1) * s.requests[r].delta == k * s.requests[r].delta;
  }

  lemma NotApplied(s: State, r: nat)
    requires r < |s.requests|
    ensures Applied(s, r, 0) == s
  {
    assert s.requests[r := s.requests[r]] == s.requests;
  }

  lemma {:induction false} ApplyTimes(c: Config, s: State, r: nat, k: nat) returns (run: seq<Step>)
    requires r < |s.requests| && s.requests[r].applied + k <= c.Applications()
    requires c.cleanFailures ==> s.requests[r].status.Pending?
    ensures IsRun(c, s, run) && After(c, s, run) == Applied(s, r, k)
    ensures |run| == k && forall i :: 0 <= i < |run| ==> run[i] == Apply(r)
    decreases k
  {
    if k == 0 {
      run := [];
      NotApplied(s, r);
    } else {
      AppliedOneMore(c, s, r, k);
      var rest := ApplyTimes(c, Next(c, s, Apply(r)), r, k - 1);
      run := [Apply(r)] + rest;
      assert run[1..] == rest;
    }
  }

  /** The attempt's request has been issued and applied as often as possible, and is not answered. */
  function Unanswered(c: Config, n: nat, phase: Phase): State
    requires HasWorker(c) && n < c.Attempts() && phase == if n == 0 then Ready else Retryable
  {
    Applied(Next(c, Posting(c, n, phase), Issue(0)), n, c.Applications())
  }

  lemma AnswerLost(c: Config, n: nat, phase: Phase)
    requires HasWorker(c) && !c.cleanFailures
    requires n < c.Attempts() && phase == if n == 0 then Ready else Retryable
    ensures Enabled(c, Unanswered(c, n, phase), Answer(0, false, true))
    ensures Next(c, Unanswered(c, n, phase), Answer(0, false, true)) == Posting(c, n + 1, Retryable)
  {
    var t := Next(c, Unanswered(c, n, phase), Answer(0, false, true));
    var u := Posting(c, n + 1, Retryable);
    assert t.requests == u.requests;
    assert t.pool.workers == u.pool.workers;
    assert t.server == u.server;
  }

  /** One more attempt: issued, applied as often as possible, its answer lost. */
  lemma OneMoreAttempt(c: Config, n: nat, phase: Phase) returns (run: seq<Step>)
    requires HasWorker(c) && !c.cleanFailures && n < c.Attempts() && phase == if n == 0 then Ready else Retryable
    ensures IsRun(c, Posting(c, n, phase), run) && After(c, Posting(c, n, phase), run) == Posting(c, n + 1, Retryable)
  {
    var s := Posting(c, n, phase);
    var applies := ApplyTimes(c, Next(c, s, Issue(0)), n, c.Applications());
    AnswerLost(c, n, phase);
    var last := Prepend(c, Unanswered(c, n, phase), Answer(0, false, true), []);
    Concatenate(c, Next(c, s, Issue(0)), applies, last);
    run := Prepend(c, s, Issue(0), applies + last);
  }

  lemma {:induction false} AllAttempts(c: Config, n: nat) returns (run: seq<Step>)
    requires HasWorker(c) && !c.cleanFailures && n <= c.Attempts()
    ensures IsRun(c, Posting(c, 0, Ready), run)
    ensures After(c, Posting(c, 0, Ready), run) == Posting(c, n, if n == 0 then Ready else Retryable)
  {
    if n == 0 {
      run := [];
    } else {
      var before := AllAttempts(c, n - 1);
      var more := OneMoreAttempt(c, n - 1, if n == 1 then Ready else Retryable);
      Concatenate(c, Posting(c, 0, Ready), before, more);
      run := before + more;
    }
  }

  /**
   The delivery bound cannot be improved: with any pool and with the unlimited sender, where answers can
   get lost one poll can be counted once for each attempt of the agent and each attempt of the server.
   */
  lemma BoundIsReached(c: Config)
    requires HasWorker(c) && !c.cleanFailures
    ensures exists run :: IsRun(c, Init(c), run)
                          && After(c, Init(c), run).polls == 1
                          && After(c, Init(c), run).server == c.Attempts() * c.Applications()
  {
    var start := StartPosting(c);
    var attempts := AllAttempts(c, c.Attempts());
    Concatenate(c, Init(c), start, attempts);
    assert After(c, Init(c), start + attempts).server == c.Attempts() * c.Applications();
  }

  /** Without a worker nothing is ever posted. */
  lemma {:induction false} NoWorkerNoRequest(c: Config, s: State, run: seq<Step>)
    requires IsRun(c, s, run) && !s.pool.unlimited && s.pool.workers == [] && s.requests == [] && s.server == 0
    ensures After(c, s, run).server == 0
    decreases |run|
  {
    if run != [] {
      WorkersAfter(c, s, run[0]);
      NoWorkerNoRequest(c, Next(c, s, run[0]), run[1..]);
    }
  }

  /** The server never counts more than was polled. */
  ghost predicate NeverTooMany(c: Config) {
    forall run :: IsRun(c, Init(c), run) ==> After(c, Init(c), run).server <= After(c, Init(c), run).polls
  }

  lemma ProductIsOne(a: nat, b: nat)
    requires a >= 1 && b >= 1
    ensures a * b == 1 <==> a == 1 && b == 1
    ensures a * b >= 1
  {
    if a > 1 {
      assert a * b >= a * 1;
    }
  }

  /**
   No poll is counted twice, in any run, exactly when failed attempts are never applied, or there is
   one attempt only and the server makes one, or nobody to post anything.
   */
  lemma NeverTooManyExactly(c: Config)
    ensures NeverTooMany(c) <==> c.cleanFailures || c.Attempts() * c.Applications() == 1 || !HasWorker(c)
    ensures NeverTooMany(c) <==>
              || c.cleanFailures
              || (c.agentRetries <= 0 && (c.serverRetries.None? || c.serverRetries.value <= 0))
              || (!c.unlimited && c.workers == 0)
  {
    var bound := c.Attempts() * c.Applications();
    ProductIsOne(c.Attempts(), c.Applications());
    if c.cleanFailures || bound == 1 || !HasWorker(c) {
      forall run | IsRun(c, Init(c), run)
        ensures After(c, Init(c), run).server <= After(c, Init(c), run).polls
      {
        DeliveryBound(c, run);
        if bound == 1 {
          assert After(c, Init(c), run).polls * c.Attempts() * c.Applications()
              == After(c, Init(c), run).polls * bound;
        }
        if !HasWorker(c) {
          NoWorkerNoRequest(c, Init(c), run);
        }
      }
    } else {
      assert bound > 1 by {
        assert c.Attempts() >= 1 && c.Applications() >= 1;
      }
      BoundIsReached(c);
    }
  }
}
