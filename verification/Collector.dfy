/** The collector: what repeated merging of partial records keeps, field by field. */
module Collector {
  import opened Common
  import opened Metrics

  /** A zero record is replaced whole; otherwise non-zero fields overwrite and zero ones do not. */
  function Merge(m: MemoryMetrics, n: MemoryMetrics): MemoryMetrics {
    if IsZero(m) then n
    else MemoryMetrics(
      seq(SCALARS, f requires 0 <= f < SCALARS => if n.scalars[f].IsZero() then m.scalars[f] else n.scalars[f]),
      if n.cpu == [] then m.cpu else n.cpu)
  }

  function MergeAll(m: MemoryMetrics, reports: seq<MemoryMetrics>): MemoryMetrics
    decreases |reports|
  {
    if reports == [] then m else MergeAll(Merge(m, reports[0]), reports[1..])
  }

  /** The records among the results of one round of providers; None is a provider's error. */
  function Successes<T>(results: seq<Option<T>>): seq<T> {
    if results == [] then []
    else (if results[0].Some? then [results[0].value] else []) + Successes(results[1..])
  }

  function AllSuccesses(rounds: seq<seq<Option<MemoryMetrics>>>): seq<MemoryMetrics> {
    if rounds == [] then [] else Successes(rounds[0]) + AllSuccesses(rounds[1..])
  }

  /** The record after a sequence of polling rounds. */
  function AfterRounds(m: MemoryMetrics, rounds: seq<seq<Option<MemoryMetrics>>>): MemoryMetrics
    decreases |rounds|
  {
    if rounds == [] then m else AfterRounds(MergeAll(m, Successes(rounds[0])), rounds[1..])
  }

  lemma {:induction false} MergeAllConcat(m: MemoryMetrics, a: seq<MemoryMetrics>, b: seq<MemoryMetrics>)
    ensures MergeAll(m, a + b) == MergeAll(MergeAll(m, a), b)
    decreases |a|
  {
    if a == [] {
      assert a + b == b;
    } else {
      assert (a + b)[1..] == a[1..] + b;
      MergeAllConcat(Merge(m, a[0]), a[1..], b);
    }
  }

  lemma {:induction false} SuccessesConcat<T>(a: seq<Option<T>>, b: seq<Option<T>>)
    ensures Successes(a + b) == Successes(a) + Successes(b)
  {
    if a == [] {
      assert a + b == b;
    } else {
      assert (a + b)[1..] == a[1..] + b;
      SuccessesConcat(a[1..], b);
    }
  }

  /** Rounds do not matter, only the reports in their order. */
  lemma {:induction false} RoundsAreReports(m: MemoryMetrics, rounds: seq<seq<Option<MemoryMetrics>>>)
    ensures AfterRounds(m, rounds) == MergeAll(m, AllSuccesses(rounds))
    decreases |rounds|
  {
    if rounds != [] {
      RoundsAreReports(MergeAll(m, Successes(rounds[0])), rounds[1..]);
      MergeAllConcat(m, Successes(rounds[0]), AllSuccesses(rounds[1..]));
    }
  }

  // ---------------------------------------------------------------- the successful results

  /** index names, in increasing order, exactly the positions of results that hold a record: the reports. */
  ghost predicate Picks<T>(results: seq<Option<T>>, reports: seq<T>, index: seq<nat>) {
    && |index| == |reports|
    && (forall k, l :: 0 <= k < l < |index| ==> index[k] < index[l])
    && (forall k :: 0 <= k < |index| ==> index[k] < |results| && results[index[k]] == Some(reports[k]))
    && (forall i :: 0 <= i < |results| && results[i].Some? ==> i in index)
  }

  /** reports are the records that the providers returned without an error, in order. */
  ghost predicate AreReports<T>(results: seq<Option<T>>, reports: seq<T>) {
    exists index :: Picks(results, reports, index)
  }

  lemma {:induction false} NoMoreResults<T>(results: seq<Option<T>>, reports: seq<T>, index: seq<nat>)
    requires Picks(results, reports, index)
    ensures Picks(results + [None], reports, index)
  {
    var more := results + [None];
    assert forall k :: 0 <= k < |index| ==> more[index[k]] == results[index[k]];
    assert forall i :: 0 <= i < |more| && more[i].Some? ==> i < |results| && more[i] == results[i];
  }

  lemma {:induction false} OneMoreResult<T>(results: seq<Option<T>>, reports: seq<T>, index: seq<nat>, x: T)
    requires Picks(results, reports, index)
    ensures Picks(results + [Some(x)], reports + [x], index + [|results|])
  {
    var more, longer := results + [Some(x)], index + [|results|];
    assert longer[|index|] == |results|;
    forall i | 0 <= i < |more| && more[i].Some? ensures i in longer {
      if i < |results| {
        assert results[i].Some? && i in index;
      }
    }
  }

  /** There are such reports: Successes gives them. */
  lemma {:induction false} SuccessesAreReports<T>(results: seq<Option<T>>) returns (index: seq<nat>)
    ensures Picks(results, Successes(results), index)
  {
    if results == [] {
      index := [];
    } else {
      var n := |results| - 1;
      index := SuccessesAreReports(results[..n]);
      assert results == results[..n] + [results[n]];
      SuccessesConcat(results[..n], [results[n]]);
      if results[n].Some? {
        OneMoreResult(results[..n], Successes(results[..n]), index, results[n].value);
        index := index + [n];
      } else {
        NoMoreResults(results[..n], Successes(results[..n]), index);
      }
    }
  }

  /** Two ways to pick name the same position first, and so on. */
  lemma {:induction false} PicksAgree<T>(results: seq<Option<T>>, a: seq<T>, b: seq<T>, index: seq<nat>,
                                         other: seq<nat>, k: nat)
    requires Picks(results, a, index) && Picks(results, b, other) && k < |index|
    ensures k < |other| && index[k] == other[k] && a[k] == b[k]
    decreases k
  {
    forall l | 0 <= l < k ensures l < |other| && index[l] == other[l] {
      PicksAgree(results, a, b, index, other, l);
    }
    assert results[index[k]].Some? && index[k] in other;
    var p :| 0 <= p < |other| && other[p] == index[k];
    assert forall l :: 0 <= l < k ==> l < |other| && other[l] == index[l] < index[k];
    assert k <= p;
    assert results[other[k]].Some? && other[k] in index;
    var q :| 0 <= q < |index| && index[q] == other[k];
    assert forall l :: 0 <= l < k ==> index[l] == other[l] < other[k];
    assert k <= q;
    assert other[k] <= other[p] && index[k] <= index[q];
  }

  /** And no others. */
  lemma {:induction false} ReportsAreSuccesses<T>(results: seq<Option<T>>, reports: seq<T>)
    requires AreReports(results, reports)
    ensures reports == Successes(results)
  {
    var index :| Picks(results, reports, index);
    var other := SuccessesAreReports(results);
    forall k | 0 <= k < |index| ensures k < |other| && reports[k] == Successes(results)[k] {
      PicksAgree(results, reports, Successes(results), index, other, k);
    }
    if |index| < |other| {
      PicksAgree(results, Successes(results), reports, other, index, |index|);
    } else if |other| < |index| {
      PicksAgree(results, reports, Successes(results), index, other, |other|);
    }
  }

  /** x is the last non-zero value of field f among the reports, or init if there is none. */
  ghost predicate IsLastNonZero(x: Float, init: Float, reports: seq<MemoryMetrics>, f: nat)
    requires f < SCALARS
  {
    || (x == init && forall i :: 0 <= i < |reports| ==> reports[i].scalars[f].IsZero())
    || (exists j :: 0 <= j < |reports| && x == reports[j].scalars[f] && !x.IsZero()
                    && forall i :: j < i < |reports| ==> reports[i].scalars[f].IsZero())
  }

  /** As IsLastNonZero, for the CPU list, where empty plays the part of zero. */
  ghost predicate IsLastNonEmpty(x: seq<Float>, init: seq<Float>, reports: seq<MemoryMetrics>) {
    || (x == init && forall i :: 0 <= i < |reports| ==> reports[i].cpu == [])
    || (exists j :: 0 <= j < |reports| && x == reports[j].cpu && x != []
                    && forall i :: j < i < |reports| ==> reports[i].cpu == [])
  }

  lemma LastNonZeroCons(x: Float, init: Float, reports: seq<MemoryMetrics>, f: nat)
    requires f < SCALARS && reports != []
    requires IsLastNonZero(x, if reports[0].scalars[f].IsZero() then init else reports[0].scalars[f], reports[1..], f)
    ensures IsLastNonZero(x, init, reports, f)
  {
    var tail := reports[1..];
    assert forall i :: 0 < i < |reports| ==> reports[i] == tail[i - 1];
    if j :| 0 <= j < |tail| && x == tail[j].scalars[f] && !x.IsZero()
            && forall i :: j < i < |tail| ==> tail[i].scalars[f].IsZero() {
      assert x == reports[j + 1].scalars[f];
    } else if !reports[0].scalars[f].IsZero() {
      assert x == reports[0].scalars[f];
    }
  }

  lemma LastNonEmptyCons(x: seq<Float>, init: seq<Float>, reports: seq<MemoryMetrics>)
    requires reports != []
    requires IsLastNonEmpty(x, if reports[0].cpu == [] then init else reports[0].cpu, reports[1..])
    ensures IsLastNonEmpty(x, init, reports)
  {
    var tail := reports[1..];
    assert forall i :: 0 < i < |reports| ==> reports[i] == tail[i - 1];
    if j :| 0 <= j < |tail| && x == tail[j].cpu && x != [] && forall i :: j < i < |tail| ==> tail[i].cpu == [] {
      assert x == reports[j + 1].cpu;
    } else if reports[0].cpu != [] {
      assert x == reports[0].cpu;
    }
  }

  /** From a record that is not zero on, no later report makes it zero, and nothing non-zero is lost. */
  lemma {:induction false} MergedFields(m: MemoryMetrics, reports: seq<MemoryMetrics>)
    requires !IsZero(m)
    ensures !IsZero(MergeAll(m, reports))
    ensures forall f :: 0 <= f < SCALARS ==>
              IsLastNonZero(MergeAll(m, reports).scalars[f], m.scalars[f], reports, f)
    ensures IsLastNonEmpty(MergeAll(m, reports).cpu, m.cpu, reports)
    decreases |reports|
  {
    if reports != [] {
      var next := Merge(m, reports[0]);
      MergedFields(next, reports[1..]);
      forall f | 0 <= f < SCALARS
        ensures IsLastNonZero(MergeAll(m, reports).scalars[f], m.scalars[f], reports, f)
      {
        LastNonZeroCons(MergeAll(m, reports).scalars[f], m.scalars[f], reports, f);
      }
      LastNonEmptyCons(MergeAll(m, reports).cpu, m.cpu, reports);
    }
  }

  /** The results of all rounds, one round after the other. */
  function InOrder(rounds: seq<seq<Option<MemoryMetrics>>>): seq<Option<MemoryMetrics>> {
    if rounds == [] then [] else rounds[0] + InOrder(rounds[1..])
  }

  lemma {:induction false} ReportsInOrder(rounds: seq<seq<Option<MemoryMetrics>>>)
    ensures AllSuccesses(rounds) == Successes(InOrder(rounds))
  {
    if rounds != [] {
      ReportsInOrder(rounds[1..]);
      SuccessesConcat(rounds[0], InOrder(rounds[1..]));
    }
  }

  /** While the record is zero each report replaces it whole, zero or not. */
  lemma {:induction false} ZeroPhase(m: MemoryMetrics, reports: seq<MemoryMetrics>, k: nat)
    requires IsZero(m) && k <= |reports|
    requires forall i :: 0 <= i < k ==> IsZero(reports[i])
    ensures var before := if k == 0 then m else reports[k - 1];
            IsZero(before) && MergeAll(m, reports) == MergeAll(before, reports[k..])
    decreases k
  {
    if k > 0 {
      assert IsZero(reports[0]);
      forall i | 0 <= i < k - 1 ensures IsZero(reports[1..][i]) {
        assert reports[1..][i] == reports[i + 1];
      }
      ZeroPhase(reports[0], reports[1..], k - 1);
      assert reports[1..][k - 1..] == reports[k..];
      assert k > 1 ==> reports[1..][k - 2] == reports[k - 1];
    }
  }

  /**
   What the collector holds after any polling rounds from its initial zero record, when reports are the
   records that providers returned without an error, in order. If no report was non-zero it is the last
   report. Otherwise, k being the first non-zero report, every scalar is its last non-zero value from
   report k on, with report k's own value as the starting point, and likewise the CPU list; whatever
   earlier reports had brought is gone.
   */
  lemma ProviderMerging(m: MemoryMetrics, rounds: seq<seq<Option<MemoryMetrics>>>, reports: seq<MemoryMetrics>)
    requires IsZero(m) && AreReports(InOrder(rounds), reports)
    ensures var r := AfterRounds(m, rounds);
            || (&& (forall i :: 0 <= i < |reports| ==> IsZero(reports[i]))
                && r == if reports == [] then m else reports[|reports| - 1])
            || (exists k :: 0 <= k < |reports|
                  && (forall i :: 0 <= i < k ==> IsZero(reports[i]))
                  && !IsZero(reports[k])
                  && !IsZero(r)
                  && (forall f :: 0 <= f < SCALARS ==>
                        IsLastNonZero(r.scalars[f], reports[k].scalars[f], reports[k + 1..], f))
                  && IsLastNonEmpty(r.cpu, reports[k].cpu, reports[k + 1..]))
  {
    ReportsAreSuccesses(InOrder(rounds), reports);
    ReportsInOrder(rounds);
    RoundsAreReports(m, rounds);
    var k := FirstNonZero(m, reports);
  }

  lemma FirstNonZero(m: MemoryMetrics, reports: seq<MemoryMetrics>) returns (k: nat)
    requires IsZero(m)
    ensures k <= |reports| && forall i :: 0 <= i < k ==> IsZero(reports[i])
    ensures k == |reports| ==> MergeAll(m, reports) == if k == 0 then m else reports[k - 1]
    ensures k < |reports| ==>
              var r := MergeAll(m, reports);
              && !IsZero(reports[k]) && !IsZero(r)
              && (forall f :: 0 <= f < SCALARS ==>
                    IsLastNonZero(r.scalars[f], reports[k].scalars[f], reports[k + 1..], f))
              && IsLastNonEmpty(r.cpu, reports[k].cpu, reports[k + 1..])
  {
    k := 0;
    while k < |reports| && IsZero(reports[k])
      invariant 0 <= k <= |reports|
      invariant forall i :: 0 <= i < k ==> IsZero(reports[i])
    {
      k := k + 1;
    }
    ZeroPhase(m, reports, k);
    if k < |reports| {
      assert reports[k..][1..] == reports[k + 1..];
      MergedFields(reports[k], reports[k + 1..]);
    }
  }

  class MetricsCollector {
    var metrics: MemoryMetrics
    var pollCount: nat

    constructor ()
      ensures IsZero(metrics) && metrics.cpu == [] && pollCount == 0
    {
      metrics := MemoryMetrics(seq(SCALARS, i => ZERO), []);
      pollCount := 0;
    }

    /** One tick: results holds what each provider returned, in their order. */
    method CollectFromAllProviders(results: seq<Option<MemoryMetrics>>)
      modifies this
      ensures forall reports :: AreReports(results, reports) ==> metrics == MergeAll(old(metrics), reports)
      ensures metrics == MergeAll(old(metrics), Successes(results)) && AreReports(results, Successes(results))
      ensures pollCount == old(pollCount) + 1
    {
      for i := 0 to |results|
        invariant metrics == MergeAll(old(metrics), Successes(results[..i]))
        invariant pollCount == old(pollCount)
      {
        assert results[..i + 1] == results[..i] + [results[i]];
        SuccessesConcat(results[..i], [results[i]]);
        MergeAllConcat(old(metrics), Successes(results[..i]), Successes([results[i]]));
        if results[i].None? {
          continue;
        }
        MergeMetrics(results[i].value);
      }
      assert results[..|results|] == results;
      ghost var index := SuccessesAreReports(results);
      forall reports | AreReports(results, reports) ensures reports == Successes(results) {
        ReportsAreSuccesses(results, reports);
      }
      pollCount := pollCount + 1;
    }

    method MergeMetrics(n: MemoryMetrics)
      modifies this`metrics
      ensures metrics == Merge(old(metrics), n)
    {
      var m := metrics;
      if IsZero(m) {
        metrics := n;
        return;
      }
      // thirty conditional assignments, one for each scalar field
      metrics := MemoryMetrics(
        seq(SCALARS, f requires 0 <= f < SCALARS => if !n.scalars[f].IsZero() then n.scalars[f] else m.scalars[f]),
        if |n.cpu| > 0 then n.cpu else m.cpu);
      assert metrics.scalars == Merge(m, n).scalars;
    }

    method GetMetrics() returns (snapshot: MemoryMetrics, count: nat)
      ensures snapshot == metrics && count == pollCount
    {
      snapshot, count := metrics, pollCount;
    }

    method ResetCount()
      modifies this`pollCount
      ensures pollCount == 0
    {
      pollCount := 0;
    }
  }
}
