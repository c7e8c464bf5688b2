/**
 The retry loop. An operation is a function of the attempt's number and of the world it runs in,
 so one value of it stands for every way an effectful operation can behave; interrupted(i) says
 that the select after attempt i takes the branch of the done context.
 */
module Retry {
  import opened Common

  datatype Config<!E> = Config(
    maxRetries: int,
    delays: Option<seq<int>>,
    isRetryable: Option<E -> bool>)
  {
    function Delays(): seq<int> { if delays.None? then [1, 3, 5] else delays.value }

    predicate Retryable(e: E) { isRetryable.Some? && isRetryable.value(e) }
  }

  type Operation<!S, !E> = (nat, S) -> (S, Option<E>)

  datatype Failure<+E> = OpError(error: E) | ContextError

  datatype Report<+S, +E> = Report(state: S, err: Option<Failure<E>>, attempts: nat, waited: seq<int>)

  /** A negative MaxRetries counts as zero. */
  function TotalAttempts(maxRetries: int): nat {
    (if maxRetries < 0 then 0 else maxRetries) + 1
  }

  /** The loop from attempt i on; waited holds the delays that have elapsed. */
  function Loop<S, E>(cfg: Config<E>, op: Operation<S, E>, interrupted: nat -> bool,
                      i: nat, s: S, waited: seq<int>): Report<S, E>
    requires i < TotalAttempts(cfg.maxRetries)
    decreases TotalAttempts(cfg.maxRetries) - i
  {
    var (t, err) := op(i, s);
    if err.None? then Report(t, None, i + 1, waited)
    else if !cfg.Retryable(err.value) then Report(t, Some(OpError(err.value)), i + 1, waited)
    else if i < |cfg.Delays()| && interrupted(i) then Report(t, Some(ContextError), i + 1, waited)
    else
      var w := if i < |cfg.Delays()| then waited + [cfg.Delays()[i]] else waited;
      if i + 1 == TotalAttempts(cfg.maxRetries) then Report(t, Some(OpError(err.value)), i + 1, w)
      else Loop(cfg, op, interrupted, i + 1, t, w)
  }

  function Run<S, E>(cfg: Config<E>, op: Operation<S, E>, interrupted: nat -> bool, s: S): Report<S, E> {
    Loop(cfg, op, interrupted, 0, s, [])
  }

  method Do<S, E>(cfg: Config<E>, op: Operation<S, E>, interrupted: nat -> bool, s: S)
    returns (r: Report<S, E>)
    ensures r == Run(cfg, op, interrupted, s)
  {
    var total := (if cfg.maxRetries < 0 then 0 else cfg.maxRetries) + 1;
    var state, waited, i := s, [], 0;
    var lastErr: Option<E> := None;
    while i < total
      invariant 0 <= i <= total == TotalAttempts(cfg.maxRetries)
      invariant i < total ==> Loop(cfg, op, interrupted, i, state, waited) == Run(cfg, op, interrupted, s)
      invariant i == 0 ==> lastErr.None?
      invariant i == total ==>
                  (lastErr.Some?
                   && Run(cfg, op, interrupted, s) == Report(state, Some(OpError(lastErr.value)), total, waited))
    {
      var (next, err) := op(i, state);
      state := next;
      if err.None? {
        return Report(state, None, i + 1, waited);
      }
      if !cfg.Retryable(err.value) {
        return Report(state, Some(OpError(err.value)), i + 1, waited);
      }
      lastErr := err;
      if i < |cfg.Delays()| {
        if interrupted(i) {
          return Report(state, Some(ContextError), i + 1, waited);
        }
        waited := waited + [cfg.Delays()[i]];
      }
      i := i + 1;
    }
    return Report(state, Some(OpError(lastErr.value)), total, waited);
  }

  // ---------------------------------------------------------------- what a run means

  /** The world after the first n attempts, had each of them been made. */
  function StateAfter<S, E>(op: Operation<S, E>, s: S, n: nat): S {
    if n == 0 then s else op(n - 1, StateAfter(op, s, n - 1)).0
  }

  /** What attempt n reports, had all attempts before it been made. */
  function ErrorOf<S, E>(op: Operation<S, E>, s: S, n: nat): Option<E> {
    op(n, StateAfter(op, s, n)).1
  }

  /** Attempt n failed in a way that leads to another one, if any is left. */
  predicate GoesOn<S, E>(cfg: Config<E>, op: Operation<S, E>, interrupted: nat -> bool, s: S, n: nat) {
    var err := ErrorOf(op, s, n);
    err.Some? && cfg.Retryable(err.value) && !(n < |cfg.Delays()| && interrupted(n))
  }

  lemma {:induction false} LoopSemantics<S, E>(
      cfg: Config<E>, op: Operation<S, E>, interrupted: nat -> bool, s: S, i: nat, waited: seq<int>)
    requires i < TotalAttempts(cfg.maxRetries)
    ensures i < Loop(cfg, op, interrupted, i, StateAfter(op, s, i), waited).attempts <= TotalAttempts(cfg.maxRetries)
    ensures var r := Loop(cfg, op, interrupted, i, StateAfter(op, s, i), waited);
            && r.state == StateAfter(op, s, r.attempts)
            && (forall j :: i <= j < r.attempts - 1 ==> GoesOn(cfg, op, interrupted, s, j))
            && (GoesOn(cfg, op, interrupted, s, r.attempts - 1) ==> r.attempts == TotalAttempts(cfg.maxRetries))
            && r.err == ErrorReturned(cfg, op, interrupted, s, r.attempts - 1)
    decreases TotalAttempts(cfg.maxRetries) - i
  {
    assert ErrorOf(op, s, i) == op(i, StateAfter(op, s, i)).1;
    if GoesOn(cfg, op, interrupted, s, i) && i + 1 < TotalAttempts(cfg.maxRetries) {
      var w := if i < |cfg.Delays()| then waited + [cfg.Delays()[i]] else waited;
      LoopSemantics(cfg, op, interrupted, s, i + 1, w);
    }
  }

  /** The first n delays, or all of them. */
  function FirstDelays<E>(cfg: Config<E>, n: nat): seq<int> {
    cfg.Delays()[..if n < |cfg.Delays()| then n else |cfg.Delays()|]
  }

  lemma {:induction false} LoopWaits<S, E>(
      cfg: Config<E>, op: Operation<S, E>, interrupted: nat -> bool, s: S, i: nat)
    requires i < TotalAttempts(cfg.maxRetries)
    ensures var r := Loop(cfg, op, interrupted, i, StateAfter(op, s, i), FirstDelays(cfg, i));
            && i < r.attempts
            && r.waited == FirstDelays(
                 cfg, if GoesOn(cfg, op, interrupted, s, r.attempts - 1) then r.attempts else r.attempts - 1)
    decreases TotalAttempts(cfg.maxRetries) - i
  {
    assert ErrorOf(op, s, i) == op(i, StateAfter(op, s, i)).1;
    if GoesOn(cfg, op, interrupted, s, i) {
      assert i < |cfg.Delays()| ==> FirstDelays(cfg, i + 1) == FirstDelays(cfg, i) + [cfg.Delays()[i]];
      assert i >= |cfg.Delays()| ==> FirstDelays(cfg, i + 1) == FirstDelays(cfg, i);
      if i + 1 < TotalAttempts(cfg.maxRetries) {
        LoopWaits(cfg, op, interrupted, s, i + 1);
      }
    }
  }

  /** nil for a success, the context's error for an interrupted wait, else the operation's error. */
  function ErrorReturned<S, E>(cfg: Config<E>, op: Operation<S, E>, interrupted: nat -> bool, s: S, last: nat)
    : Option<Failure<E>>
  {
    var err := ErrorOf(op, s, last);
    if err.None? then None
    else if cfg.Retryable(err.value) && last < |cfg.Delays()| && interrupted(last) then Some(ContextError)
    else Some(OpError(err.value))
  }

  /**
   Between one and max(0, MaxRetries) + 1 attempts are made; all but the last fail retryably and
   uninterrupted; the loop stops early exactly when it may not go on; nil comes back exactly when
   the last attempt succeeded; and the delays waited for are the first ones, in order, one for each
   attempt that went on, the last one included.
   */
  lemma RetrySemantics<S, E>(cfg: Config<E>, op: Operation<S, E>, interrupted: nat -> bool, s: S)
    ensures 1 <= Run(cfg, op, interrupted, s).attempts <= TotalAttempts(cfg.maxRetries)
    ensures var r := Run(cfg, op, interrupted, s);
            var last := r.attempts - 1;
            var waits := if GoesOn(cfg, op, interrupted, s, last) then r.attempts else last;
            && r.state == StateAfter(op, s, r.attempts)
            && (forall j :: 0 <= j < last ==> GoesOn(cfg, op, interrupted, s, j))
            && (GoesOn(cfg, op, interrupted, s, last) ==> r.attempts == TotalAttempts(cfg.maxRetries))
            && (r.err.None? <==> ErrorOf(op, s, last).None?)
            && r.err == ErrorReturned(cfg, op, interrupted, s, last)
            && r.waited == FirstDelays(cfg, waits)
  {
    LoopSemantics(cfg, op, interrupted, s, 0, []);
    assert FirstDelays(cfg, 0) == [];
    LoopWaits(cfg, op, interrupted, s, 0);
  }

  /** Attempt j fails with an error that f accepts, and no wait after it is interrupted. */
  predicate RetriedAfter<S, E>(ds: seq<int>, f: E -> bool, op: Operation<S, E>, interrupted: nat -> bool, s: S,
                               j: nat)
  {
    && ErrorOf(op, s, j).Some? && f(ErrorOf(op, s, j).value)
    && !(j < |ds| && interrupted(j))
  }

  /** The first n of the delays, or all of them. */
  function Waits(ds: seq<int>, n: nat): seq<int> { if n < |ds| then ds[..n] else ds }

  /**
   What a call does, for a given count of retries, delays and test of errors, as far as attempt i decides:
   the attempts before it were all retried. A success ends the call, and so does an error that f rejects
   or whose wait is interrupted; an error that is to be retried ends it as attempt max(0, n) + 1 only.
   */
  lemma EndsAt<S, E>(n: int, ds: seq<int>, f: E -> bool, op: Operation<S, E>, interrupted: nat -> bool, s: S, i: nat)
    requires i <= n || i == 0
    requires forall j :: 0 <= j < i ==> RetriedAfter(ds, f, op, interrupted, s, j)
    ensures var r := Run(Config(n, Some(ds), Some(f)), op, interrupted, s);
            var err := ErrorOf(op, s, i);
            && (err.None? ==> r == Report(StateAfter(op, s, i + 1), None, i + 1, Waits(ds, i)))
            && (err.Some? && !f(err.value) ==>
                  r == Report(StateAfter(op, s, i + 1), Some(OpError(err.value)), i + 1, Waits(ds, i)))
            && (err.Some? && f(err.value) && i < |ds| && interrupted(i) ==>
                  r == Report(StateAfter(op, s, i + 1), Some(ContextError), i + 1, Waits(ds, i)))
            && (RetriedAfter(ds, f, op, interrupted, s, i) && (i == n || n <= 0) ==>
                  r == Report(StateAfter(op, s, i + 1), Some(OpError(err.value)), i + 1, Waits(ds, i + 1)))
  {
    var cfg := Config(n, Some(ds), Some(f));
    RetrySemantics(cfg, op, interrupted, s);
    var last := Run(cfg, op, interrupted, s).attempts - 1;
    GoesOnIsRetried(n, ds, f, op, interrupted, s, last);
    GoesOnIsRetried(n, ds, f, op, interrupted, s, i);
  }

  lemma GoesOnIsRetried<S, E>(n: int, ds: seq<int>, f: E -> bool, op: Operation<S, E>, interrupted: nat -> bool, s: S,
                              j: nat)
    ensures GoesOn(Config(n, Some(ds), Some(f)), op, interrupted, s, j) <==> RetriedAfter(ds, f, op, interrupted, s, j)
  {
  }

  /** Where every attempt is retried there are max(0, n) + 1 of them, and all the delays between them are waited for. */
  lemma AllRetried<S, E>(n: int, ds: seq<int>, f: E -> bool, op: Operation<S, E>, interrupted: nat -> bool, s: S)
    requires forall j :: 0 <= j && (j <= n || j == 0) ==> RetriedAfter(ds, f, op, interrupted, s, j)
    ensures var r := Run(Config(n, Some(ds), Some(f)), op, interrupted, s);
            var attempts := if n < 0 then 1 else n + 1;
            && r.attempts == attempts
            && r.waited == Waits(ds, attempts)
            && ErrorOf(op, s, attempts - 1).Some?
            && r.err == Some(OpError(ErrorOf(op, s, attempts - 1).value))
  {
    assert RetriedAfter(ds, f, op, interrupted, s, if n < 0 then 0 else n);
    EndsAt(n, ds, f, op, interrupted, s, if n < 0 then 0 else n);
  }

  lemma {:induction false} SameConfigs<S, E>(cfg: Config<E>, other: Config<E>, op: Operation<S, E>,
                                             interrupted: nat -> bool, i: nat, s: S, waited: seq<int>)
    requires cfg.maxRetries == other.maxRetries && cfg.Delays() == other.Delays()
    requires forall e :: cfg.Retryable(e) <==> other.Retryable(e)
    requires i < TotalAttempts(cfg.maxRetries)
    ensures Loop(cfg, op, interrupted, i, s, waited) == Loop(other, op, interrupted, i, s, waited)
    decreases TotalAttempts(cfg.maxRetries) - i
  {
    var err := op(i, s).1;
    assert err.Some? ==> (cfg.Retryable(err.value) <==> other.Retryable(err.value));
    if i + 1 < TotalAttempts(cfg.maxRetries) {
      SameConfigs(cfg, other, op, interrupted, i + 1, op(i, s).0,
                  if i < |cfg.Delays()| then waited + [cfg.Delays()[i]] else waited);
    }
  }

  /** What a config leaves out: without delays they are 1, 3 and 5 seconds, and without a test nothing is retried. */
  lemma Defaults<S, E>(n: int, ds: Option<seq<int>>, f: Option<E -> bool>, op: Operation<S, E>,
                       interrupted: nat -> bool, s: S)
    ensures Run(Config(n, ds, f), op, interrupted, s)
         == Run(Config(n, Some(if ds.None? then [1, 3, 5] else ds.value),
                       Some(if f.None? then (e: E) => false else f.value)), op, interrupted, s)
  {
    SameConfigs(Config(n, ds, f), Config(n, Some(if ds.None? then [1, 3, 5] else ds.value),
                                         Some(if f.None? then (e: E) => false else f.value)),
                op, interrupted, 0, s, []);
  }

  /** From the world s, attempt j fails without effect and leads to another attempt. */
  ghost predicate PassesOver<S, E>(cfg: Config<E>, op: Operation<S, E>, interrupted: nat -> bool, s: S, j: nat) {
    var (t, err) := op(j, s);
    t == s && err.Some? && cfg.Retryable(err.value) && !(j < |cfg.Delays()| && interrupted(j))
  }

  /** Where all attempts before i pass over, attempt i is made, in the same world. */
  lemma {:induction false} LoopReaches<S, E>(
      cfg: Config<E>, op: Operation<S, E>, interrupted: nat -> bool, s: S, j: nat, i: nat, waited: seq<int>)
    requires j <= i < TotalAttempts(cfg.maxRetries) && op(i, s).1.None?
    requires forall k :: j <= k < i ==> PassesOver(cfg, op, interrupted, s, k)
    ensures var r := Loop(cfg, op, interrupted, j, s, waited);
            r.err.None? && r.state == op(i, s).0
    decreases i - j
  {
    if j < i {
      assert PassesOver(cfg, op, interrupted, s, j);
      LoopReaches(cfg, op, interrupted, s, j + 1, i,
                  if j < |cfg.Delays()| then waited + [cfg.Delays()[j]] else waited);
    }
  }

  /** Operations that do the same run the same. */
  lemma {:induction false} SameLoop<S(!new), E(!new)>(
      cfg: Config<E>, op: Operation<S, E>, other: Operation<S, E>, interrupted: nat -> bool,
      i: nat, s: S, waited: seq<int>)
    requires i < TotalAttempts(cfg.maxRetries)
    requires forall k: nat, t: S :: op(k, t) == other(k, t)
    ensures Loop(cfg, op, interrupted, i, s, waited) == Loop(cfg, other, interrupted, i, s, waited)
    decreases TotalAttempts(cfg.maxRetries) - i
  {
    var t := op(i, s).0;
    assert op(i, s) == other(i, s);
    if i + 1 < TotalAttempts(cfg.maxRetries) {
      SameLoop(cfg, op, other, interrupted, i + 1, t,
               if i < |cfg.Delays()| then waited + [cfg.Delays()[i]] else waited);
    }
  }

  /** What every attempt keeps, a run keeps. */
  lemma {:induction false} StateAfterKeeps<S(!new), E>(op: Operation<S, E>, inv: S -> bool, s: S, n: nat)
    requires inv(s) && forall i: nat, t: S :: inv(t) ==> inv(op(i, t).0)
    ensures inv(StateAfter(op, s, n))
  {
    if n > 0 {
      StateAfterKeeps(op, inv, s, n - 1);
    }
  }

  // ---------------------------------------------------------------- repeated effects

  function Iterate<S>(f: S -> S, k: nat, s: S): S {
    if k == 0 then s else f(Iterate(f, k - 1, s))
  }

  /** Each attempt has the whole effect f or none; a reported success has it, a failure may. */
  ghost predicate MayApply<S(!new), E>(op: Operation<S, E>, f: S -> S) {
    forall i: nat, s: S ::
      && (op(i, s).0 == s || op(i, s).0 == f(s))
      && (op(i, s).1.None? ==> op(i, s).0 == f(s))
  }

  /** As MayApply, but a reported failure has no effect. */
  ghost predicate AppliesExactly<S(!new), E>(op: Operation<S, E>, f: S -> S) {
    forall i: nat, s: S :: op(i, s).0 == if op(i, s).1.None? then f(s) else s
  }

  lemma {:induction false} AppliedSoFar<S(!new), E>(op: Operation<S, E>, f: S -> S, s: S, n: nat)
    returns (k: nat)
    requires MayApply(op, f)
    ensures k <= n && StateAfter(op, s, n) == Iterate(f, k, s)
    ensures n > 0 && ErrorOf(op, s, n - 1).None? ==> 1 <= k
  {
    if n == 0 {
      k := 0;
    } else {
      var before := AppliedSoFar(op, f, s, n - 1);
      var (t, err) := op(n - 1, StateAfter(op, s, n - 1));
      k := if err.None? || t == f(StateAfter(op, s, n - 1)) then before + 1 else before;
    }
  }

  /** The effect happens k times with k at most the number of attempts, and at least once on success. */
  lemma AppliedTimes<S(!new), E>(cfg: Config<E>, op: Operation<S, E>, interrupted: nat -> bool, f: S -> S, s: S)
    returns (k: nat)
    requires MayApply(op, f)
    ensures var r := Run(cfg, op, interrupted, s);
            && k <= r.attempts <= TotalAttempts(cfg.maxRetries)
            && r.state == Iterate(f, k, s)
            && (r.err.None? ==> 1 <= k)
  {
    RetrySemantics(cfg, op, interrupted, s);
    k := AppliedSoFar(op, f, s, Run(cfg, op, interrupted, s).attempts);
  }

  lemma {:induction false} FailuresKeepState<S(!new), E>(op: Operation<S, E>, f: S -> S, s: S, n: nat)
    requires AppliesExactly(op, f)
    requires forall j :: 0 <= j < n ==> ErrorOf(op, s, j).Some?
    ensures StateAfter(op, s, n) == s
  {
    if n > 0 {
      FailuresKeepState(op, f, s, n - 1);
      assert ErrorOf(op, s, n - 1).Some?;
    }
  }

  /**
   When failures are clean, success means exactly once and failure means not at all; and the last
   attempt, too, has run in the world as it was before the call.
   */
  lemma AppliedOnce<S(!new), E>(cfg: Config<E>, op: Operation<S, E>, interrupted: nat -> bool, f: S -> S, s: S)
    requires AppliesExactly(op, f)
    ensures Run(cfg, op, interrupted, s).attempts >= 1
    ensures var r := Run(cfg, op, interrupted, s);
            && r.attempts <= TotalAttempts(cfg.maxRetries)
            && (forall j :: 0 <= j < r.attempts - 1 ==> GoesOn(cfg, op, interrupted, s, j))
            && r.state == (if r.err.None? then f(s) else s)
            && (r.err.None? <==> op(r.attempts - 1, s).1.None?)
  {
    RetrySemantics(cfg, op, interrupted, s);
    var n := Run(cfg, op, interrupted, s).attempts;
    forall j | 0 <= j < n - 1 ensures ErrorOf(op, s, j).Some? {
      assert GoesOn(cfg, op, interrupted, s, j);
    }
    FailuresKeepState(op, f, s, n - 1);
    assert ErrorOf(op, s, n - 1) == op(n - 1, StateAfter(op, s, n - 1)).1;
  }
}
