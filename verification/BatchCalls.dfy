/**
 What a retried batch call does to the table, attempt by attempt, with other writers in between: and
 that this is what module Delivery admits as the applications of one request.
 */
module BatchCalls {
  import opened Common
  import opened Metrics
  import opened DbStorage
  import opened StorageRefinement
  import MemStorage
  import BatchSender
  import Delivery
  import DeliveryRuns
  import Retry

  // ---------------------------------------------------------------- one commit

  /** id's gauge in u is the batch's last write, or as it was in t when there is none. */
  predicate LastWritten(t: Table, u: Table, batch: seq<Metric>, id: string) {
    || ((forall i :: 0 <= i < |batch| ==> !MemStorage.IsGaugeWrite(batch[i], id))
        && ReadGauge(u, id) == ReadGauge(t, id))
    || (exists j :: 0 <= j < |batch| && MemStorage.IsGaugeWrite(batch[j], id)
                    && (forall i :: j < i < |batch| ==> !MemStorage.IsGaugeWrite(batch[i], id))
                    && ReadGauge(u, id) == (batch[j].value.value, true))
  }

  /** No row has changed its type, and id's counter, if it is not a gauge, has moved by amount. */
  predicate Moved(t: Table, u: Table, id: string, amount: int) {
    && (HasGauge(t, id) ==> HasGauge(u, id))
    && (!HasGauge(u, id) ==> ReadCounter(u, id).0 == ReadCounter(t, id).0 + amount)
  }

  lemma {:induction false} EntryEffect(t: Table, m: Metric, id: string)
    requires ValidTable(t) && ExecEntry(t, m).1.None?
    ensures var u := ExecEntry(t, m).0;
            && ValidTable(u)
            && Moved(t, u, id, MemStorage.DeltaSum([m], id))
            && ReadGauge(u, id) == if MemStorage.IsGaugeWrite(m, id) then (m.value.value, true) else ReadGauge(t, id)
  {
    var u := ExecEntry(t, m).0;
    RowsOf(t, id);
    if m.mtype == GAUGE && m.value.Some? {
      UpsertsKeepValid(t, m.id, m.value.value, 0);
      GaugeWriteReads(t, m.id, m.value.value);
    } else if m.mtype == COUNTER && m.delta.Some? {
      UpsertsKeepValid(t, m.id, ZERO, m.delta.value);
      CounterWriteReads(t, m.id, m.delta.value);
    }
    RowsOf(u, id);
    if m.id != id && u != t {
      SameRowReads(t, u, id);
    }
  }

  lemma {:induction false} EntriesEffect(t: Table, batch: seq<Metric>, id: string)
    requires ValidTable(t) && ExecEntries(t, batch).1.None?
    ensures var u := ExecEntries(t, batch).0;
            ValidTable(u) && Moved(t, u, id, MemStorage.DeltaSum(batch, id)) && LastWritten(t, u, batch, id)
    decreases |batch|
  {
    if batch != [] {
      var s, tail := ExecEntry(t, batch[0]).0, batch[1..];
      EntryEffect(t, batch[0], id);
      EntriesEffect(s, tail, id);
      assert MemStorage.DeltaSum(batch, id) == MemStorage.DeltaSum([batch[0]], id) + MemStorage.DeltaSum(tail, id);
      LastWrittenCons(t, s, ExecEntries(t, batch).0, batch, id);
    }
  }

  lemma LastWrittenCons(t: Table, s: Table, u: Table, batch: seq<Metric>, id: string)
    requires batch != [] && LastWritten(s, u, batch[1..], id)
    requires ReadGauge(s, id)
          == if MemStorage.IsGaugeWrite(batch[0], id) then (batch[0].value.value, true) else ReadGauge(t, id)
    ensures LastWritten(t, u, batch, id)
  {
    var tail := batch[1..];
    assert forall i :: 0 < i < |batch| ==> batch[i] == tail[i - 1];
    if j :| 0 <= j < |tail| && MemStorage.IsGaugeWrite(tail[j], id)
            && (forall i :: j < i < |tail| ==> !MemStorage.IsGaugeWrite(tail[i], id))
            && ReadGauge(u, id) == (tail[j].value.value, true) {
      assert MemStorage.IsGaugeWrite(batch[j + 1], id);
    } else if MemStorage.IsGaugeWrite(batch[0], id) {
      assert ReadGauge(u, id) == (batch[0].value.value, true);
    }
  }

  // ---------------------------------------------------------------- attempts among other writers

  /** others(i, t) is the table that attempt i finds where the one before, or the call, has left t. */
  type Others = (nat, Table) -> Table

  function SharedOp(c: Call, others: Others): Retry.Operation<Table, DbError> {
    (i: nat, t: Table) => Attempt(others(i, t), c.write, c.faults(i))
  }

  /** Other writers keep tables valid and rows' types, as ReachableTablesAreValid and EntriesEffect say they do. */
  ghost predicate Fair(others: Others) {
    forall i: nat, t: Table | ValidTable(t) ::
      ValidTable(others(i, t)) && forall id :: HasGauge(t, id) ==> HasGauge(others(i, t), id)
  }

  /** The attempt, on the table t that it finds, commits. */
  predicate CommitsAt(c: Call, i: nat, t: Table) {
    (c.faults(i).NoFault? || c.faults(i).applied) && Perform(t, c.write).1.None?
  }

  function TableAt(c: Call, others: Others, t: Table, n: nat): Table {
    Retry.StateAfter(SharedOp(c, others), t, n)
  }

  /** How many of the first n attempts commit. */
  function Commits(c: Call, others: Others, t: Table, n: nat): nat {
    if n == 0 then 0
    else
      Commits(c, others, t, n - 1) + if CommitsAt(c, n - 1, others(n - 1, TableAt(c, others, t, n - 1))) then 1 else 0
  }

  /** What the other writers have added to the counter id before attempts 0 to n - 1. */
  function Drift(c: Call, others: Others, t: Table, n: nat, id: string): int {
    if n == 0 then 0
    else
      var before := TableAt(c, others, t, n - 1);
      Drift(c, others, t, n - 1, id) + ReadCounter(others(n - 1, before), id).0 - ReadCounter(before, id).0
  }

  /** One attempt of a batch: it commits and moves the counters, or leaves the table as it finds it. */
  lemma AttemptEffect(t: Table, c: Call, i: nat, id: string)
    requires ValidTable(t) && c.write.Batch?
    ensures var u := Attempt(t, c.write, c.faults(i)).0;
            && ValidTable(u)
            && (!CommitsAt(c, i, t) ==> u == t)
            && (CommitsAt(c, i, t) ==>
                  Moved(t, u, id, MemStorage.DeltaSum(c.write.entries, id)) && LastWritten(t, u, c.write.entries, id))
    ensures Attempt(t, c.write, c.faults(i)).1.None? ==> CommitsAt(c, i, t)
  {
    PerformKeepsValid(t, c.write);
    if Perform(t, c.write).1.None? {
      EntriesEffect(t, c.write.entries, id);
    }
  }

  lemma AttemptAt(c: Call, others: Others, t: Table, n: nat)
    ensures TableAt(c, others, t, n + 1)
         == Attempt(others(n, TableAt(c, others, t, n)), c.write, c.faults(n)).0
    ensures Retry.ErrorOf(SharedOp(c, others), t, n)
         == Attempt(others(n, TableAt(c, others, t, n)), c.write, c.faults(n)).1
  {
  }

  /** One more attempt commits, or leaves the table that it finds. */
  lemma OneMoreAttempt(c: Call, others: Others, t: Table, n: nat, id: string)
    requires c.write.Batch? && n > 0 && ValidTable(others(n - 1, TableAt(c, others, t, n - 1)))
    ensures ValidTable(TableAt(c, others, t, n))
    ensures var found, u := others(n - 1, TableAt(c, others, t, n - 1)), TableAt(c, others, t, n);
            || (Commits(c, others, t, n) == Commits(c, others, t, n - 1) && u == found)
            || (&& Commits(c, others, t, n) == Commits(c, others, t, n - 1) + 1
                && Moved(found, u, id, MemStorage.DeltaSum(c.write.entries, id))
                && LastWritten(found, u, c.write.entries, id))
  {
    AttemptAt(c, others, t, n - 1);
    AttemptEffect(others(n - 1, TableAt(c, others, t, n - 1)), c, n - 1, id);
  }

  lemma FoundIsFair(others: Others, i: nat, t: Table, id: string)
    requires Fair(others) && ValidTable(t)
    ensures ValidTable(others(i, t)) && (HasGauge(t, id) ==> HasGauge(others(i, t), id))
  {
  }

  /** From the table s one attempt found another and left u; k is how often it commits, once or not at all. */
  lemma MovedByAttempt(t: Table, s: Table, found: Table, u: Table, id: string, a: int, before: nat, k: nat, sum: int)
    requires Moved(t, s, id, before * sum + a) && (HasGauge(s, id) ==> HasGauge(found, id))
    requires (k == 0 && u == found) || (k == 1 && Moved(found, u, id, sum))
    ensures Moved(t, u, id, (before + k) * sum + (a + ReadCounter(found, id).0 - ReadCounter(s, id).0))
  {
    assert (before + 1) * sum == before * sum + sum;
  }

  /** After n attempts each counter has moved by the batch's sum for every commit, and by what others added. */
  lemma {:induction false} CountersAfter(c: Call, others: Others, t: Table, n: nat, id: string)
    requires ValidTable(t) && Fair(others) && c.write.Batch?
    ensures var u := TableAt(c, others, t, n);
            && ValidTable(u)
            && Moved(t, u, id,
                     Commits(c, others, t, n) * MemStorage.DeltaSum(c.write.entries, id) + Drift(c, others, t, n, id))
  {
    if n > 0 {
      CountersAfter(c, others, t, n - 1, id);
      var s := TableAt(c, others, t, n - 1);
      FoundIsFair(others, n - 1, s, id);
      OneMoreAttempt(c, others, t, n, id);
      var before := Commits(c, others, t, n - 1);
      MovedByAttempt(t, s, others(n - 1, s), TableAt(c, others, t, n), id, Drift(c, others, t, n - 1, id),
                     before, Commits(c, others, t, n) - before, MemStorage.DeltaSum(c.write.entries, id));
    }
  }

  lemma {:induction false} CommitsBounds(c: Call, others: Others, t: Table, n: nat)
    ensures Commits(c, others, t, n) <= n
    ensures n > 0 && CommitsAt(c, n - 1, others(n - 1, TableAt(c, others, t, n - 1))) ==> Commits(c, others, t, n) >= 1
  {
    if n > 0 {
      CommitsBounds(c, others, t, n - 1);
    }
  }

  /** Clean attempts that fail have not committed. */
  lemma {:induction false} CleanFailuresDoNotCommit(c: Call, others: Others, t: Table, n: nat)
    requires Clean(c) && forall j :: 0 <= j < n ==> Retry.ErrorOf(SharedOp(c, others), t, j).Some?
    ensures Commits(c, others, t, n) == 0
  {
    if n > 0 {
      CleanFailuresDoNotCommit(c, others, t, n - 1);
      AttemptAt(c, others, t, n - 1);
      assert Retry.ErrorOf(SharedOp(c, others), t, n - 1).Some?;
      var found := others(n - 1, TableAt(c, others, t, n - 1));
      FailedCleanly(found, c, n - 1);
    }
  }

  lemma FailedCleanly(t: Table, c: Call, i: nat)
    requires Clean(c) && Attempt(t, c.write, c.faults(i)).1.Some?
    ensures !CommitsAt(c, i, t)
  {
  }

  function SharedRun(cfg: Retry.Config<DbError>, t: Table, c: Call, others: Others): Retry.Report<Table, DbError> {
    Retry.Run(cfg, SharedOp(c, others), c.interrupted, t)
  }

  lemma AttemptsBefore(cfg: Retry.Config<DbError>, t: Table, c: Call, others: Others, n: nat)
    requires n < SharedRun(cfg, t, c, others).attempts
    ensures forall j :: 0 <= j < n ==> Retry.ErrorOf(SharedOp(c, others), t, j).Some?
  {
    Retry.RetrySemantics(cfg, SharedOp(c, others), c.interrupted, t);
    forall j | 0 <= j < n ensures Retry.ErrorOf(SharedOp(c, others), t, j).Some? {
      assert Retry.GoesOn(cfg, SharedOp(c, others), c.interrupted, t, j);
    }
  }

  lemma CallEnds(cfg: Retry.Config<DbError>, t: Table, c: Call, others: Others)
    ensures SharedRun(cfg, t, c, others).attempts >= 1
    ensures var r := SharedRun(cfg, t, c, others);
            && r.attempts <= Retry.TotalAttempts(cfg.maxRetries)
            && r.state == TableAt(c, others, t, r.attempts)
            && (r.err.None? <==> Retry.ErrorOf(SharedOp(c, others), t, r.attempts - 1).None?)
  {
    Retry.RetrySemantics(cfg, SharedOp(c, others), c.interrupted, t);
  }

  /** The last attempt of a call decides: it has committed when the call returns nil. */
  lemma LastAttempt(cfg: Retry.Config<DbError>, t: Table, c: Call, others: Others)
    requires ValidTable(t) && Fair(others) && c.write.Batch?
    ensures SharedRun(cfg, t, c, others).attempts >= 1
    ensures var r := SharedRun(cfg, t, c, others);
            var last := r.attempts - 1;
            var found := others(last, TableAt(c, others, t, last));
            && r.attempts <= Retry.TotalAttempts(cfg.maxRetries)
            && r.state == TableAt(c, others, t, r.attempts)
            && (r.err.None? ==> CommitsAt(c, last, found))
            && (Clean(c) && r.err.Some? ==> !CommitsAt(c, last, found))
  {
    CallEnds(cfg, t, c, others);
    var last := SharedRun(cfg, t, c, others).attempts - 1;
    AttemptAt(c, others, t, last);
    CountersAfter(c, others, t, last, "");
    FoundIsFair(others, last, TableAt(c, others, t, last), "");
    AttemptDecides(others(last, TableAt(c, others, t, last)), c, last);
  }

  lemma AttemptDecides(found: Table, c: Call, i: nat)
    requires ValidTable(found) && c.write.Batch?
    ensures Attempt(found, c.write, c.faults(i)).1.None? ==> CommitsAt(c, i, found)
    ensures Clean(c) && Attempt(found, c.write, c.faults(i)).1.Some? ==> !CommitsAt(c, i, found)
  {
    AttemptEffect(found, c, i, "");
    if Clean(c) && Attempt(found, c.write, c.faults(i)).1.Some? {
      FailedCleanly(found, c, i);
    }
  }

  /**
   A retried batch among any other writers commits at most once for each of its max(0, MaxRetries) + 1
   attempts, at least once when it returns nil, and, when failures are clean, once or not at all as it
   reports.
   */
  lemma CommitsOfCall(cfg: Retry.Config<DbError>, t: Table, c: Call, others: Others)
    requires ValidTable(t) && Fair(others) && c.write.Batch?
    ensures var r := SharedRun(cfg, t, c, others);
            var k := Commits(c, others, t, r.attempts);
            && 1 <= r.attempts <= Retry.TotalAttempts(cfg.maxRetries)
            && k <= r.attempts
            && (r.err.None? ==> k >= 1)
            && (Clean(c) ==> k == if r.err.None? then 1 else 0)
            && r.state == TableAt(c, others, t, r.attempts)
  {
    LastAttempt(cfg, t, c, others);
    var n := SharedRun(cfg, t, c, others).attempts;
    CommitsBounds(c, others, t, n);
    if Clean(c) {
      AttemptsBefore(cfg, t, c, others, n - 1);
      CleanFailuresDoNotCommit(c, others, t, n - 1);
    }
  }

  /** Every counter ends at its base, plus the batch's sum for each commit, plus what others added. */
  lemma SharedCallEffect(cfg: Retry.Config<DbError>, t: Table, c: Call, others: Others, id: string)
    requires ValidTable(t) && Fair(others) && c.write.Batch?
    ensures var r := SharedRun(cfg, t, c, others);
            ValidTable(r.state)
            && Moved(t, r.state, id,
                     Commits(c, others, t, r.attempts) * MemStorage.DeltaSum(c.write.entries, id)
                     + Drift(c, others, t, r.attempts, id))
  {
    CommitsOfCall(cfg, t, c, others);
    CountersAfter(c, others, t, SharedRun(cfg, t, c, others).attempts, id);
  }

  // ---------------------------------------------------------------- no other writer

  function Nobody(i: nat, t: Table): Table { t }

  lemma ExecuteIsShared(cfg: Retry.Config<DbError>, t: Table, c: Call)
    ensures Execute(cfg, t, c) == SharedRun(cfg, t, c, Nobody)
  {
    forall i: nat, u: Table ensures Op(c)(i, u) == SharedOp(c, Nobody)(i, u) {
      OpIsAttempt(c, i, u);
    }
    Retry.SameLoop(cfg, Op(c), SharedOp(c, Nobody), c.interrupted, 0, t, []);
  }

  lemma {:induction false} NoDrift(c: Call, t: Table, n: nat, id: string)
    ensures Drift(c, Nobody, t, n, id) == 0
  {
    if n > 0 {
      NoDrift(c, t, n - 1, id);
    }
  }

  lemma LastWrittenTwice(t: Table, s: Table, u: Table, batch: seq<Metric>, id: string)
    requires (s == t || LastWritten(t, s, batch, id)) && LastWritten(s, u, batch, id)
    ensures LastWritten(t, u, batch, id)
  {
  }

  lemma {:induction false} GaugesAfter(c: Call, t: Table, n: nat, id: string)
    requires ValidTable(t) && c.write.Batch?
    ensures ValidTable(TableAt(c, Nobody, t, n))
    ensures if Commits(c, Nobody, t, n) == 0 then TableAt(c, Nobody, t, n) == t
            else LastWritten(t, TableAt(c, Nobody, t, n), c.write.entries, id)
  {
    if n > 0 {
      GaugesAfter(c, t, n - 1, id);
      OneMoreAttempt(c, Nobody, t, n, id);
      if Commits(c, Nobody, t, n) > Commits(c, Nobody, t, n - 1) {
        LastWrittenTwice(t, TableAt(c, Nobody, t, n - 1), TableAt(c, Nobody, t, n), c.write.entries, id);
      }
    }
  }

  /**
   With lost answers and no other writer a retried batch commits k times, k at most the number of
   attempts and at least 1 when it returns nil. No commit leaves the table as it was. Otherwise every
   counter ends at its base plus k times the batch's sum, and every gauge at its last write.
   */
  lemma BatchCallEffect(cfg: Retry.Config<DbError>, t: Table, c: Call) returns (k: nat)
    requires ValidTable(t) && c.write.Batch?
    ensures var r := Execute(cfg, t, c);
            && k <= r.attempts <= Retry.TotalAttempts(cfg.maxRetries)
            && (r.err.None? ==> 1 <= k)
            && (k == 0 ==> r.state == t)
            && (forall id :: Moved(t, r.state, id, k * MemStorage.DeltaSum(c.write.entries, id)))
            && (k > 0 ==> forall id :: LastWritten(t, r.state, c.write.entries, id))
  {
    ExecuteIsShared(cfg, t, c);
    CommitsOfCall(cfg, t, c, Nobody);
    var n := SharedRun(cfg, t, c, Nobody).attempts;
    k := Commits(c, Nobody, t, n);
    GaugesAfter(c, t, n, "");
    forall id
      ensures Moved(t, TableAt(c, Nobody, t, n), id, k * MemStorage.DeltaSum(c.write.entries, id))
      ensures k > 0 ==> LastWritten(t, TableAt(c, Nobody, t, n), c.write.entries, id)
    {
      CountersAfter(c, Nobody, t, n, id);
      NoDrift(c, t, n, id);
      GaugesAfter(c, t, n, id);
    }
  }

  // ---------------------------------------------------------------- the applications of a request

  const POLL_COUNT: string := BatchSender.POLL_COUNT

  /** The deltas of gauges' entries do not count. */
  lemma {:induction false} NoDelta(batch: seq<Metric>, id: string)
    requires forall i :: 0 <= i < |batch| ==> !MemStorage.IsCounterAdd(batch[i], id)
    ensures MemStorage.DeltaSum(batch, id) == 0
  {
    if batch != [] {
      forall i | 0 <= i < |batch[1..]| ensures !MemStorage.IsCounterAdd(batch[1..][i], id) {
        assert batch[1..][i] == batch[i + 1];
      }
      NoDelta(batch[1..], id);
    }
  }

  lemma {:induction false} PostedGauges(batch: seq<Metric>, values: map<string, Float>, delta: int64)
    requires BatchSender.IsBatch(batch, values, delta) && POLL_COUNT !in values
    ensures forall i :: 0 <= i < |batch| ==> !MemStorage.IsGaugeWrite(batch[i], POLL_COUNT)
    ensures forall i :: 0 <= i < |values| ==> !MemStorage.IsCounterAdd(batch[i], POLL_COUNT)
  {
    forall i | 0 <= i < |batch|
      ensures !MemStorage.IsGaugeWrite(batch[i], POLL_COUNT)
      ensures i < |values| ==> !MemStorage.IsCounterAdd(batch[i], POLL_COUNT)
    {
      if i < |values| {
        assert batch[i].id in values;
      } else {
        assert batch[i].value.None?;
      }
    }
  }

  /** A posted batch carries exactly the delta that was handed to Send, and no gauge named PollCount. */
  lemma {:induction false} PostedDelta(batch: seq<Metric>, m: MemoryMetrics, delta: int64)
    requires BatchSender.IsBatch(batch, BatchSender.MetricsMap(m), delta)
    ensures MemStorage.DeltaSum(batch, POLL_COUNT) == delta
    ensures forall i :: 0 <= i < |batch| ==> !MemStorage.IsGaugeWrite(batch[i], POLL_COUNT)
  {
    BatchSender.MapIsComplete(m);
    SumOfPosted(batch, BatchSender.MetricsMap(m), delta);
  }

  lemma {:induction false} SumOfPosted(batch: seq<Metric>, values: map<string, Float>, delta: int64)
    requires BatchSender.IsBatch(batch, values, delta) && POLL_COUNT !in values
    ensures MemStorage.DeltaSum(batch, POLL_COUNT) == delta
    ensures forall i :: 0 <= i < |batch| ==> !MemStorage.IsGaugeWrite(batch[i], POLL_COUNT)
  {
    PostedGauges(batch, values, delta);
    SumOfLast(batch, |values|, delta, POLL_COUNT);
  }

  lemma {:induction false} SumOfLast(batch: seq<Metric>, n: nat, delta: int64, id: string)
    requires |batch| == n + (if delta != 0 then 1 else 0)
    requires forall i :: 0 <= i < n ==> !MemStorage.IsCounterAdd(batch[i], id)
    requires delta != 0 ==> batch[n] == Metric(id, COUNTER, Some(delta), None)
    ensures MemStorage.DeltaSum(batch, id) == delta
  {
    NoDelta(batch[..n], id);
    assert batch == batch[..n] + batch[n..];
    MemStorage.DeltaSumConcat(batch[..n], batch[n..], id);
    if delta != 0 {
      assert batch[n..] == [batch[n]];
    }
  }

  /** State s of the protocol while attempt n of request r's call is about to run on the table it finds. */
  ghost predicate Before(cfg: Delivery.Config, s: Delivery.State, r: nat, db: Retry.Config<DbError>,
                         t: Table, c: Call, others: Others, n: nat)
  {
    var found := others(n, TableAt(c, others, t, n));
    && cfg.serverRetries == Some(db.maxRetries)
    && n < SharedRun(db, t, c, others).attempts
    && r < |s.requests|
    && c.write.Batch?
    && s.requests[r].delta == MemStorage.DeltaSum(c.write.entries, POLL_COUNT)
    && s.requests[r].applied == Commits(c, others, t, n)
    && ValidTable(found) && !HasGauge(found, POLL_COUNT)
    && s.server == ReadCounter(found, POLL_COUNT).0
    && (cfg.cleanFailures ==> Clean(c) && s.requests[r].status.Pending?)
  }

  lemma CommitsLeaveRoom(cfg: Delivery.Config, db: Retry.Config<DbError>, t: Table, c: Call, others: Others, n: nat)
    requires ValidTable(t) && Fair(others) && c.write.Batch? && n < SharedRun(db, t, c, others).attempts
    requires cfg.serverRetries == Some(db.maxRetries) && (cfg.cleanFailures ==> Clean(c))
    ensures Commits(c, others, t, n) < cfg.Applications()
  {
    CommitsOfCall(db, t, c, others);
    CommitsBounds(c, others, t, n);
    if cfg.cleanFailures {
      AttemptsBefore(db, t, c, others, n);
      CleanFailuresDoNotCommit(c, others, t, n);
    }
  }

  /**
   Each attempt of the server's retry loop is a step of the protocol or none. An attempt that commits is
   Apply(r): the protocol allows it, and it moves the server's count as the commit moves the table's
   counter. An attempt that does not commit changes neither.
   */
  lemma AttemptIsApply(cfg: Delivery.Config, s: Delivery.State, r: nat, db: Retry.Config<DbError>,
                       t: Table, c: Call, others: Others, n: nat)
    requires ValidTable(t) && Fair(others) && Before(cfg, s, r, db, t, c, others, n)
    requires forall i :: 0 <= i < |c.write.entries| ==> !MemStorage.IsGaugeWrite(c.write.entries[i], POLL_COUNT)
    ensures var found, after := others(n, TableAt(c, others, t, n)), TableAt(c, others, t, n + 1);
            if CommitsAt(c, n, found) then
              && Delivery.Enabled(cfg, s, Delivery.Apply(r))
              && Delivery.Next(cfg, s, Delivery.Apply(r)).server == ReadCounter(after, POLL_COUNT).0
              && Delivery.Next(cfg, s, Delivery.Apply(r)).requests[r].applied == Commits(c, others, t, n + 1)
            else
              s.server == ReadCounter(after, POLL_COUNT).0 && s.requests[r].applied == Commits(c, others, t, n + 1)
  {
    var found, after := others(n, TableAt(c, others, t, n)), TableAt(c, others, t, n + 1);
    AttemptAt(c, others, t, n);
    AttemptEffect(found, c, n, POLL_COUNT);
    CommitsLeaveRoom(cfg, db, t, c, others, n);
    if CommitsAt(c, n, found) {
      RowsOf(found, POLL_COUNT);
      RowsOf(after, POLL_COUNT);
    }
  }

  lemma {:induction false} StillNoGauge(t: Table, c: Call, n: nat, id: string)
    requires ValidTable(t) && c.write.Batch? && !HasGauge(t, id)
    requires forall i :: 0 <= i < |c.write.entries| ==> !MemStorage.IsGaugeWrite(c.write.entries[i], id)
    ensures ValidTable(TableAt(c, Nobody, t, n)) && !HasGauge(TableAt(c, Nobody, t, n), id)
  {
    GaugesAfter(c, t, n, id);
    RowsOf(t, id);
    RowsOf(TableAt(c, Nobody, t, n), id);
  }

  /** With no other writer the counter has moved by the batch's sum for each commit. */
  lemma {:induction false} PollCountAfter(t: Table, c: Call, n: nat)
    requires ValidTable(t) && c.write.Batch? && !HasGauge(t, POLL_COUNT)
    requires forall i :: 0 <= i < |c.write.entries| ==> !MemStorage.IsGaugeWrite(c.write.entries[i], POLL_COUNT)
    ensures ReadCounter(TableAt(c, Nobody, t, n), POLL_COUNT).0
         == ReadCounter(t, POLL_COUNT).0 + Commits(c, Nobody, t, n) * MemStorage.DeltaSum(c.write.entries, POLL_COUNT)
  {
    CountersAfter(c, Nobody, t, n, POLL_COUNT);
    NoDrift(c, t, n, POLL_COUNT);
    StillNoGauge(t, c, n, POLL_COUNT);
  }

  /**
   A whole call is a run of the protocol. With no other writer its first n attempts correspond to exactly
   as many Apply(r) steps as commit, and so does the call: the server's count and the table's counter end
   alike, and the request has been applied once for each commit.
   */
  lemma {:induction false} CallIsRun(cfg: Delivery.Config, s: Delivery.State, r: nat, db: Retry.Config<DbError>,
                                     t: Table, c: Call, n: nat)
    returns (run: seq<Delivery.Step>)
    requires ValidTable(t) && c.write.Batch? && !HasGauge(t, POLL_COUNT)
    requires forall i :: 0 <= i < |c.write.entries| ==> !MemStorage.IsGaugeWrite(c.write.entries[i], POLL_COUNT)
    requires cfg.serverRetries == Some(db.maxRetries) && r < |s.requests|
    requires s.requests[r].delta == MemStorage.DeltaSum(c.write.entries, POLL_COUNT) && s.requests[r].applied == 0
    requires s.server == ReadCounter(t, POLL_COUNT).0
    requires cfg.cleanFailures ==> Clean(c) && s.requests[r].status.Pending?
    requires n <= Execute(db, t, c).attempts
    ensures n == Execute(db, t, c).attempts ==> TableAt(c, Nobody, t, n) == Execute(db, t, c).state
    ensures |run| == Commits(c, Nobody, t, n)
    ensures forall i :: 0 <= i < |run| ==> run[i] == Delivery.Apply(r)
    ensures Delivery.IsRun(cfg, s, run)
    ensures var u := Delivery.After(cfg, s, run);
            && u == DeliveryRuns.Applied(s, r, |run|)
            && u.server == ReadCounter(TableAt(c, Nobody, t, n), POLL_COUNT).0
            && u.requests[r].applied == Commits(c, Nobody, t, n)
  {
    ExecuteIsShared(db, t, c);
    CommitsOfCall(db, t, c, Nobody);
    CommitsWithin(cfg, db, t, c, n);
    PollCountAfter(t, c, n);
    run := DeliveryRuns.ApplyTimes(cfg, s, r, Commits(c, Nobody, t, n));
  }

  lemma CommitsWithin(cfg: Delivery.Config, db: Retry.Config<DbError>, t: Table, c: Call, n: nat)
    requires ValidTable(t) && c.write.Batch? && n <= SharedRun(db, t, c, Nobody).attempts
    requires cfg.serverRetries == Some(db.maxRetries) && (cfg.cleanFailures ==> Clean(c))
    ensures Commits(c, Nobody, t, n) <= cfg.Applications()
  {
    if n == SharedRun(db, t, c, Nobody).attempts {
      AnswerIsAllowed(cfg, db, t, c, Nobody);
    } else {
      CommitsLeaveRoom(cfg, db, t, c, Nobody, n);
    }
  }

  /**
   When the call is over, its answer is one that the protocol allows: a success only for a request that
   has been applied, and with clean failures a failure only for one that has not.
   */
  lemma AnswerIsAllowed(cfg: Delivery.Config, db: Retry.Config<DbError>, t: Table, c: Call, others: Others)
    requires ValidTable(t) && Fair(others) && c.write.Batch?
    requires cfg.serverRetries == Some(db.maxRetries) && (cfg.cleanFailures ==> Clean(c))
    ensures var call := SharedRun(db, t, c, others);
            var applied := Commits(c, others, t, call.attempts);
            && applied <= cfg.Applications()
            && (call.err.None? ==> 1 <= applied)
            && (call.err.Some? && cfg.cleanFailures ==> applied == 0)
  {
    CommitsOfCall(db, t, c, others);
  }

  /** The in-memory storage applies a request once, by the same amount while the sum fits. */
  lemma MemoryUpdateIsApply(cfg: Delivery.Config, s: Delivery.State, r: nat, store: MemStorage.Store,
                            batch: seq<Metric>)
    requires cfg.serverRetries.None? && r < |s.requests| && s.requests[r].status.Pending? && s.requests[r].applied == 0
    requires s.requests[r].delta == MemStorage.DeltaSum(batch, POLL_COUNT)
    requires s.server == MemStorage.CounterOrZero(store, POLL_COUNT) && FitsInt64(s.server + s.requests[r].delta)
    ensures Delivery.Enabled(cfg, s, Delivery.Apply(r))
    ensures Delivery.Next(cfg, s, Delivery.Apply(r)).server
         == MemStorage.CounterOrZero(MemStorage.UpdateAll(store, batch), POLL_COUNT)
  {
    MemStorage.CounterIsSum(store, batch, POLL_COUNT);
    MemStorage.WrapIsModular(s.server + s.requests[r].delta, 0);
  }
}
