/**
 Admission of requests and graceful shutdown: the middleware that turns requests away once shutdown
 has begun and counts the others in a WaitGroup, around the one that takes permits from a semaphore.
 Each request is a goroutine with a program counter; a run interleaves them in any order.
 */
module Admission {
  import opened Common

  datatype Request =
    | Arrived               // before the select on the shutdown channel
    | Passed                // past the check, before Add
    | Counted               // after Add, before the limiter
    | InHandler(permit: bool)
    | Returned(permit: bool) // the handler is done, deferred calls are not
    | Leaving               // the permit is back, Done is not called yet
    | Gone                  // after Done, or turned away with 503

  /** limit is maxConcurrent; creating the semaphore with a negative size panics. */
  datatype State = State(limit: nat, shutdown: bool, waitGroup: int, permits: int, requests: seq<Request>)

  datatype Step =
    | Arrive
    | Check(r: nat)
    | Add(r: nat)
    | Admit(r: nat)
    | Refuse(r: nat)   // 429: no permit is free
    | Return(r: nat)
    | Release(r: nat)
    | Done(r: nat)
    | Shutdown

  function Init(limit: nat): State { State(limit, false, 0, 0, []) }

  predicate At(s: State, r: nat) { r < |s.requests| }

  predicate Enabled(s: State, step: Step) {
    match step
    case Arrive => true
    case Check(r) => At(s, r) && s.requests[r].Arrived?
    case Add(r) => At(s, r) && s.requests[r].Passed?
    case Admit(r) => At(s, r) && s.requests[r].Counted? && (s.limit == 0 || s.permits < s.limit)
    case Refuse(r) => At(s, r) && s.requests[r].Counted? && s.limit > 0 && s.permits >= s.limit
    case Return(r) => At(s, r) && s.requests[r].InHandler?
    case Release(r) => At(s, r) && s.requests[r].Returned?
    case Done(r) => At(s, r) && s.requests[r].Leaving?
    case Shutdown => !s.shutdown
  }

  function Next(s: State, step: Step): State
    requires Enabled(s, step)
  {
    match step
    case Arrive => s.(requests := s.requests + [Arrived])
    case Check(r) => s.(requests := s.requests[r := if s.shutdown then Gone else Passed])
    case Add(r) => s.(requests := s.requests[r := Counted], waitGroup := s.waitGroup + 1)
    case Admit(r) =>
      if s.limit == 0 then s.(requests := s.requests[r := InHandler(false)])
      else s.(requests := s.requests[r := InHandler(true)], permits := s.permits + 1)
    case Refuse(r) => s.(requests := s.requests[r := Leaving])
    case Return(r) => s.(requests := s.requests[r := Returned(s.requests[r].permit)])
    case Release(r) =>
      s.(requests := s.requests[r := Leaving],
         permits := if s.requests[r].permit then s.permits - 1 else s.permits)
    case Done(r) => s.(requests := s.requests[r := Gone], waitGroup := s.waitGroup - 1)
    case Shutdown => s.(shutdown := true)
  }

  predicate IsRun(s: State, run: seq<Step>)
    decreases |run|
  {
    run == [] || (Enabled(s, run[0]) && IsRun(Next(s, run[0]), run[1..]))
  }

  function After(s: State, run: seq<Step>): State
    requires IsRun(s, run)
    decreases |run|
  {
    if run == [] then s else After(Next(s, run[0]), run[1..])
  }

  // ---------------------------------------------------------------- the invariant

  function IsCounted(q: Request): int { if q.Arrived? || q.Passed? || q.Gone? then 0 else 1 }

  function HoldsPermit(q: Request): int { if (q.InHandler? || q.Returned?) && q.permit then 1 else 0 }

  /** The WaitGroup counts the requests between Add and Done, the semaphore the permits in use. */
  ghost predicate Inv(s: State) {
    && s.waitGroup == SumBy(IsCounted, s.requests)
    && s.permits == SumBy(HoldsPermit, s.requests)
    && 0 <= s.permits <= s.limit
    && (forall r :: 0 <= r < |s.requests| && (s.requests[r].InHandler? || s.requests[r].Returned?) ==>
          (s.requests[r].permit <==> s.limit > 0))
  }

  lemma SetSums(rs: seq<Request>, r: nat, q: Request)
    requires r < |rs|
    ensures SumBy(IsCounted, rs[r := q]) == SumBy(IsCounted, rs) - IsCounted(rs[r]) + IsCounted(q)
    ensures SumBy(HoldsPermit, rs[r := q]) == SumBy(HoldsPermit, rs) - HoldsPermit(rs[r]) + HoldsPermit(q)
    ensures 0 <= SumBy(HoldsPermit, rs[r := q])
  {
    SumByUpdate(IsCounted, rs, r, q);
    SumByUpdate(HoldsPermit, rs, r, q);
    SumByNonNegative(HoldsPermit, rs[r := q]);
  }

  /** A step of one request. */
  lemma InvMove(s: State, step: Step)
    requires Inv(s) && Enabled(s, step) && !step.Arrive? && !step.Shutdown?
    ensures Inv(Next(s, step))
  {
    var q := Next(s, step).requests[step.r];
    SetSums(s.requests, step.r, q);
    assert Next(s, step).requests == s.requests[step.r := q];
  }

  lemma InvStep(s: State, step: Step)
    requires Inv(s) && Enabled(s, step)
    ensures Inv(Next(s, step))
  {
    if step.Arrive? {
      SumByPush(IsCounted, s.requests, Arrived);
      SumByPush(HoldsPermit, s.requests, Arrived);
    } else if !step.Shutdown? {
      InvMove(s, step);
    }
  }

  lemma {:induction false} InvRun(s: State, run: seq<Step>)
    requires Inv(s) && IsRun(s, run)
    ensures Inv(After(s, run))
    decreases |run|
  {
    if run != [] {
      InvStep(s, run[0]);
      InvRun(Next(s, run[0]), run[1..]);
    }
  }

  lemma {:induction false} HandlersHoldPermits(s: State, rs: seq<Request>)
    requires s.limit > 0
    requires forall r :: 0 <= r < |rs| && rs[r].InHandler? ==> rs[r].permit
    ensures SumBy(Handling, rs) <= SumBy(HoldsPermit, rs)
  {
    if rs != [] {
      forall r | 0 <= r < |rs[1..]| && rs[1..][r].InHandler? ensures rs[1..][r].permit {
        assert rs[1..][r] == rs[r + 1];
      }
      HandlersHoldPermits(s, rs[1..]);
    }
  }

  function Handling(q: Request): int { if q.InHandler? then 1 else 0 }

  /**
   In every reachable state the WaitGroup is the number of requests between Add and Done, the
   semaphore's occupancy the number of permits held, and with a positive limit no more handlers than
   that run at once. A request is refused exactly when every permit is out; a limit of 0 admits all.
   */
  lemma AdmissionCounts(limit: nat, run: seq<Step>)
    requires IsRun(Init(limit), run)
    ensures var s := After(Init(limit), run);
            && s.waitGroup == SumBy(IsCounted, s.requests) && 0 <= s.waitGroup
            && s.permits == SumBy(HoldsPermit, s.requests)
            && s.limit == limit
            && (limit > 0 ==> SumBy(Handling, s.requests) <= s.permits <= limit)
            && (forall r :: 0 <= r < |s.requests| && s.requests[r].Counted? ==>
                  (Enabled(s, Admit(r)) <==> limit == 0 || s.permits < limit)
                  && (Enabled(s, Refuse(r)) <==> limit > 0 && s.permits == limit))
  {
    InvRun(Init(limit), run);
    LimitIsConstant(Init(limit), run);
    var s := After(Init(limit), run);
    SumByNonNegative(IsCounted, s.requests);
    if limit > 0 {
      HandlersHoldPermits(s, s.requests);
    }
  }

  lemma {:induction false} LimitIsConstant(s: State, run: seq<Step>)
    requires IsRun(s, run)
    ensures After(s, run).limit == s.limit
    decreases |run|
  {
    if run != [] {
      LimitIsConstant(Next(s, run[0]), run[1..]);
    }
  }

  // ---------------------------------------------------------------- refused requests

  /** A request that is refused, or turned away at the check, is not in the handler and never will be. */
  lemma {:induction false} RefusedNeverRuns(s: State, r: nat, run: seq<Step>)
    requires At(s, r) && (s.requests[r].Leaving? || s.requests[r].Gone?) && IsRun(s, run)
    ensures At(After(s, run), r) && (After(s, run).requests[r].Leaving? || After(s, run).requests[r].Gone?)
    ensures forall i :: 0 <= i < |run| ==> run[i] != Admit(r)
    decreases |run|
  {
    if run != [] {
      RefusedNeverRuns(Next(s, run[0]), r, run[1..]);
      forall i | 0 < i < |run| ensures run[i] != Admit(r) {
        assert run[1..][i - 1] == run[i];
      }
    }
  }

  /** So it is after a refusal for lack of permits, which takes none, and after one because of shutdown. */
  lemma RefusalsAreFinal(s: State, r: nat, run: seq<Step>)
    requires At(s, r)
    requires Enabled(s, Refuse(r)) || (Enabled(s, Check(r)) && s.shutdown)
    ensures var step := if s.requests[r].Counted? then Refuse(r) else Check(r);
            && Enabled(s, step) && Next(s, step).permits == s.permits
            && (IsRun(Next(s, step), run) ==> forall i :: 0 <= i < |run| ==> run[i] != Admit(r))
  {
    var step := if s.requests[r].Counted? then Refuse(r) else Check(r);
    if IsRun(Next(s, step), run) {
      RefusedNeverRuns(Next(s, step), r, run);
    }
  }

  // ---------------------------------------------------------------- shutdown

  /** Past the check and not gone yet. */
  predicate IsActive(q: Request) { !q.Arrived? && !q.Gone? }

  function Active(s: State): set<nat> { set r: nat | r < |s.requests| && IsActive(s.requests[r]) }

  lemma ActiveAfterStep(s: State, step: Step)
    requires s.shutdown && Enabled(s, step)
    ensures Active(Next(s, step)) <= Active(s)
    ensures step.Admit? ==> step.r in Active(s)
  {
    forall r | r in Active(Next(s, step)) ensures r in Active(s) {
      assert r < |s.requests|;
    }
  }

  /** Once shutdown has begun the set of requests past the check never grows. */
  lemma {:induction false} ActiveNeverGrows(s: State, run: seq<Step>)
    requires s.shutdown && IsRun(s, run)
    ensures After(s, run).shutdown && Active(After(s, run)) <= Active(s)
    decreases |run|
  {
    if run != [] {
      ActiveAfterStep(s, run[0]);
      ActiveNeverGrows(Next(s, run[0]), run[1..]);
    }
  }

  /** Some handler starts in the course of the run. */
  predicate StartsHandler(run: seq<Step>) { exists i :: 0 <= i < |run| && run[i].Admit? }

  /** Once shutdown has begun and nobody is past the check, no handler runs and none ever will. */
  lemma {:induction false} DrainedStaysDrained(s: State, run: seq<Step>)
    requires s.shutdown && Active(s) == {} && IsRun(s, run)
    ensures Active(After(s, run)) == {} && !StartsHandler(run)
    ensures forall r :: 0 <= r < |After(s, run).requests| ==> !After(s, run).requests[r].InHandler?
    decreases |run|
  {
    ActiveNeverGrows(s, run);
    forall r: nat | r < |After(s, run).requests| ensures !After(s, run).requests[r].InHandler? {
      assert r !in Active(After(s, run));
    }
    if run != [] {
      ActiveAfterStep(s, run[0]);
      DrainedStaysDrained(Next(s, run[0]), run[1..]);
      forall i | 0 <= i < |run| ensures !run[i].Admit? {
        if i > 0 {
          assert run[1..][i - 1] == run[i];
        }
      }
    }
  }

  /** A request stands between the check and Add. */
  predicate SomePassed(s: State) { exists r :: 0 <= r < |s.requests| && s.requests[r].Passed? }

  lemma ZeroCountMeansNone(s: State, r: nat)
    requires Inv(s) && s.waitGroup == 0 && At(s, r)
    ensures IsCounted(s.requests[r]) == 0
  {
    SumByNonNegative(IsCounted, s.requests);
  }

  /**
   A WaitGroup at zero does not yet mean that. When shutdown has begun and the count is zero, a
   handler can still start exactly when some request has passed the check and not been counted.
   */
  lemma ZeroIsNotDrained(s: State)
    requires Inv(s) && s.shutdown && s.waitGroup == 0
    ensures (exists run :: IsRun(s, run) && StartsHandler(run)) <==> SomePassed(s)
  {
    if SomePassed(s) {
      var r: nat :| r < |s.requests| && s.requests[r].Passed?;
      PassedRequestRuns(s, r);
    } else {
      forall r: nat | r < |s.requests| ensures !IsActive(s.requests[r]) {
        ZeroCountMeansNone(s, r);
      }
      assert Active(s) == {};
      forall run | IsRun(s, run) ensures !StartsHandler(run) {
        DrainedStaysDrained(s, run);
      }
    }
  }

  lemma PassedRequestRuns(s: State, r: nat)
    requires Inv(s) && s.waitGroup == 0 && At(s, r) && s.requests[r].Passed?
    ensures exists run :: IsRun(s, run) && StartsHandler(run)
  {
    forall i | 0 <= i < |s.requests| ensures HoldsPermit(s.requests[i]) <= 0 * IsCounted(s.requests[i]) {
      ZeroCountMeansNone(s, i);
    }
    SumByLeq(HoldsPermit, IsCounted, 0, s.requests);
    var t := Next(s, Add(r));
    var u := Next(t, Admit(r));
    var run := [Add(r), Admit(r)];
    assert run[1..] == [Admit(r)] && run[1..][1..] == [];
    assert IsRun(u, []);
    assert IsRun(t, [Admit(r)]);
    assert IsRun(s, run) && run[1].Admit?;
  }

  /** Such a state is reachable: the request is checked, then shutdown begins. */
  lemma ZeroWithPassedIsReachable(limit: nat)
    ensures exists run :: IsRun(Init(limit), run) &&
              var s := After(Init(limit), run);
              s.shutdown && s.waitGroup == 0 && SomePassed(s)
  {
    var s0 := Init(limit);
    var run := [Arrive, Check(0), Shutdown];
    var s1 := Next(s0, Arrive);
    var s2 := Next(s1, Check(0));
    var s3 := Next(s2, Shutdown);
    assert run[1..] == [Check(0), Shutdown] && run[1..][1..] == [Shutdown] && run[1..][1..][1..] == [];
    assert IsRun(s3, []) && After(s3, []) == s3;
    assert IsRun(s2, [Shutdown]) && After(s2, [Shutdown]) == s3;
    assert IsRun(s1, [Check(0), Shutdown]) && After(s1, [Check(0), Shutdown]) == s3;
    assert IsRun(s0, run) && After(s0, run) == s3;
    assert s3.requests[0].Passed?;
  }
}
