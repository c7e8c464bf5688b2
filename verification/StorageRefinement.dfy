/** The two storages against each other: when they answer alike, and exactly when a write parts them. */
module StorageRefinement {
  import opened Common
  import opened Metrics
  import opened MemStorage
  import opened DbStorage
  import Retry

  /** The same gauges, the same counters, under every id. */
  ghost predicate Agrees(s: Store, t: Table) {
    forall id :: AgreesOn(s, t, id)
  }

  predicate AgreesOn(s: Store, t: Table, id: string) {
    && GaugeOf(s, id) == ReadGauge(t, id)
    && (if id in s.counters then CounterRow(t, id) == Some(s.counters[id]) else CounterRow(t, id) == None)
  }

  /** Agreeing storages answer reads alike, but for found, which the database always sets for counters. */
  lemma AgreementOnReads(s: Store, t: Table, id: string)
    requires Agrees(s, t)
    ensures GaugeOf(s, id) == ReadGauge(t, id)
    ensures CounterOf(s, id).0 == ReadCounter(t, id).0
    ensures CounterOf(s, id).1 <==> CounterRow(t, id).Some?
  {
    assert AgreesOn(s, t, id);
  }

  /** The entry writes under an id that the table has with the other type. */
  predicate Clashes(t: Table, m: Metric) {
    (IsGaugeWrite(m, m.id) && HasCounter(t, m.id)) || (IsCounterAdd(m, m.id) && HasGauge(t, m.id))
  }

  predicate Overflows(t: Table, m: Metric) {
    IsCounterAdd(m, m.id) && HasCounter(t, m.id) && !FitsInt64(ReadCounter(t, m.id).0 + m.delta.value)
  }

  lemma RowsOf(t: Table, id: string)
    requires ValidTable(t)
    ensures HasGauge(t, id) <==> ReadGauge(t, id).1
    ensures HasCounter(t, id) <==> CounterRow(t, id).Some?
    ensures !(HasGauge(t, id) && HasCounter(t, id))
    ensures !HasGauge(t, id) ==> ReadGauge(t, id) == (ZERO, false)
  {
    if Find(t, id) < |t| {
      assert CheckMetric(t[Find(t, id)]);
    }
  }

  lemma SameRowReads(t: Table, u: Table, id: string)
    requires SameRow(t, u, id)
    ensures ReadGauge(t, id) == ReadGauge(u, id) && CounterRow(t, id) == CounterRow(u, id)
  {
  }

  lemma GaugeStep(s: Store, t: Table, id: string, value: Float)
    requires ValidTable(t) && Agrees(s, t)
    ensures var (u, err) := UpsertGauge(t, id, value);
            err.None? && Agrees(Update(s, GaugeEntry(id, value)), u) <==> !HasCounter(t, id)
  {
    var (u, err) := UpsertGauge(t, id, value);
    var r := Update(s, GaugeEntry(id, value));
    GaugeWriteReads(t, id, value);
    if !HasCounter(t, id) {
      assert AgreesOn(s, t, id);
      RowsOf(t, id);
      forall other ensures AgreesOn(r, u, other) {
        assert AgreesOn(s, t, other);
        if other != id {
          SameRowReads(t, u, other);
        }
      }
    }
  }

  lemma CounterStep(s: Store, t: Table, id: string, delta: int64)
    requires ValidTable(t) && Agrees(s, t)
    ensures var (u, err) := UpsertCounter(t, id, delta);
            err.None? && Agrees(Update(s, CounterEntry(id, delta)), u) <==>
              !HasGauge(t, id) && (HasCounter(t, id) ==> FitsInt64(ReadCounter(t, id).0 + delta))
  {
    var (u, err) := UpsertCounter(t, id, delta);
    var r := Update(s, CounterEntry(id, delta));
    CounterWriteReads(t, id, delta);
    RowsOf(t, id);
    assert AgreesOn(s, t, id);
    if HasGauge(t, id) {
      assert !AgreesOn(r, u, id);
    } else if err.None? {
      CounterWritten(s, t, id, delta);
    }
  }

  lemma CounterWritten(s: Store, t: Table, id: string, delta: int64)
    requires ValidTable(t) && Agrees(s, t) && !HasGauge(t, id) && UpsertCounter(t, id, delta).1.None?
    ensures Agrees(Update(s, CounterEntry(id, delta)), UpsertCounter(t, id, delta).0)
  {
    var r, u := Update(s, CounterEntry(id, delta)), UpsertCounter(t, id, delta).0;
    CounterWriteReads(t, id, delta);
    RowsOf(t, id);
    assert AgreesOn(s, t, id);
    WrapIsModular(ReadCounter(t, id).0 + delta, 0);
    forall other ensures AgreesOn(r, u, other) {
      assert AgreesOn(s, t, other);
      if other != id {
        SameRowReads(t, u, other);
      }
    }
  }

  /**
   From agreeing storages one entry succeeds on the database and leaves them agreeing exactly when it
   neither clashes with the type of its row nor overflows its counter.
   */
  lemma EntryKeepsAgreement(s: Store, t: Table, m: Metric)
    requires ValidTable(t) && Agrees(s, t)
    ensures var (u, err) := ExecEntry(t, m);
            err.None? && Agrees(Update(s, m), u) <==> !Clashes(t, m) && !Overflows(t, m)
  {
    if m.mtype == GAUGE && m.value.Some? {
      GaugeStep(s, t, m.id, m.value.value);
    } else if m.mtype == COUNTER && m.delta.Some? {
      CounterStep(s, t, m.id, m.delta.value);
      RowsOf(t, m.id);
    }
  }

  // ---------------------------------------------------------------- histories

  /** A write as the entries it makes to the maps. */
  function Entries(w: Write): seq<Metric> {
    match w
    case SetGauge(id, value) => [GaugeEntry(id, value)]
    case AddCounter(id, delta) => [CounterEntry(id, delta)]
    case Batch(entries) => entries
  }

  /** The writes whose calls returned nil, as entries in order. */
  function Committed(cfg: Retry.Config<DbError>, t: Table, calls: seq<Call>): seq<Metric>
    decreases |calls|
  {
    if calls == [] then []
    else
      var r := Execute(cfg, t, calls[0]);
      (if r.err.None? then Entries(calls[0].write) else []) + Committed(cfg, r.state, calls[1..])
  }

  function AllEntries(calls: seq<Call>): seq<Metric> {
    if calls == [] then [] else Entries(calls[0].write) + AllEntries(calls[1..])
  }

  /** Attempts commit or fail without effect. */
  ghost predicate Clean(c: Call) {
    forall i: nat :: c.faults(i).NoFault? || !c.faults(i).applied
  }

  /** isGauge gives every id its one type. */
  predicate Typed(isGauge: string -> bool, m: Metric) {
    && (IsGaugeWrite(m, m.id) ==> isGauge(m.id))
    && (IsCounterAdd(m, m.id) ==> !isGauge(m.id))
  }

  ghost predicate AllTyped(isGauge: string -> bool, entries: seq<Metric>) {
    forall i :: 0 <= i < |entries| ==> Typed(isGauge, entries[i])
  }

  ghost predicate TypedTable(isGauge: string -> bool, t: Table) {
    forall i :: 0 <= i < |t| ==> (t[i].mtype == Gauge <==> isGauge(t[i].id))
  }

  lemma TypedEntry(isGauge: string -> bool, t: Table, m: Metric)
    requires ValidTable(t) && TypedTable(isGauge, t) && Typed(isGauge, m)
    ensures !Clashes(t, m)
    ensures TypedTable(isGauge, ExecEntry(t, m).0)
    ensures ValidTable(ExecEntry(t, m).0)
  {
    EntriesKeepValid(t, [m]);
    assert ExecEntries(t, [m]).0 == ExecEntry(t, m).0 by {
      assert ExecEntries(ExecEntry(t, m).0, []) == (ExecEntry(t, m).0, None);
    }
  }

  /** Typed entries that the database accepts leave the storages agreeing. */
  lemma {:induction false} EntriesKeepAgreement(isGauge: string -> bool, s: Store, t: Table, entries: seq<Metric>)
    requires ValidTable(t) && TypedTable(isGauge, t) && Agrees(s, t) && AllTyped(isGauge, entries)
    requires ExecEntries(t, entries).1.None?
    ensures var u := ExecEntries(t, entries).0;
            Agrees(UpdateAll(s, entries), u) && TypedTable(isGauge, u) && ValidTable(u)
    decreases |entries|
  {
    if entries != [] {
      var m := entries[0];
      assert Typed(isGauge, m);
      TypedEntry(isGauge, t, m);
      EntryKeepsAgreement(s, t, m);
      if Overflows(t, m) {
        CounterWriteReads(t, m.id, m.delta.value);
        RowsOf(t, m.id);
        assert false;
      }
      EntriesKeepAgreement(isGauge, Update(s, m), ExecEntry(t, m).0, entries[1..]);
    }
  }

  /** A write is the execution of its entries, rolled back if one of them fails. */
  lemma PerformIsEntries(t: Table, w: Write)
    ensures var (u, err) := ExecEntries(t, Entries(w));
            Perform(t, w).1 == err && (err.None? ==> Perform(t, w).0 == u)
  {
    if !w.Batch? {
      var m := Entries(w)[0];
      assert ExecEntry(t, m) == Perform(t, w);
      assert Entries(w)[1..] == [];
      assert ExecEntries(ExecEntry(t, m).0, []) == (ExecEntry(t, m).0, None);
    }
  }

  lemma PerformFailureKeepsTable(t: Table, w: Write)
    ensures Perform(t, w).1.Some? ==> Perform(t, w).0 == t
  {
  }

  lemma CleanAttempt(t: Table, w: Write, fault: Fault)
    requires fault.NoFault? || !fault.applied
    ensures Attempt(t, w, fault).0 == if Attempt(t, w, fault).1.None? then Perform(t, w).0 else t
  {
    PerformFailureKeepsTable(t, w);
  }

  lemma CleanOp(c: Call)
    requires Clean(c)
    ensures Retry.AppliesExactly(Op(c), Effect(c.write))
  {
    forall i: nat, s: Table
      ensures Op(c)(i, s).0 == if Op(c)(i, s).1.None? then Effect(c.write)(s) else s
    {
      OpIsAttempt(c, i, s);
      CleanAttempt(s, c.write, c.faults(i));
    }
  }

  /** A clean call has its write's effect exactly when it returns nil, and then the write had no error. */
  lemma CleanCall(cfg: Retry.Config<DbError>, t: Table, c: Call)
    requires Clean(c)
    ensures var r := Execute(cfg, t, c);
            if r.err.None? then Perform(t, c.write) == (r.state, None) else r.state == t
  {
    CleanOp(c);
    Retry.AppliedOnce(cfg, Op(c), c.interrupted, Effect(c.write), t);
    var last := Execute(cfg, t, c).attempts - 1;
    OpIsAttempt(c, last, t);
    AttemptMayApply(t, c.write, c.faults(last));
  }

  /**
   For every history of calls whose attempts commit or fail cleanly: if the entries of the calls that
   returned nil give each id one type, then the table agrees, under every id, with the in-memory
   storage after those entries. Calls that failed, by an overflow for one, have left no trace.
   */
  lemma {:induction false} RefinesCommitted(
      cfg: Retry.Config<DbError>, isGauge: string -> bool, s: Store, t: Table, calls: seq<Call>)
    requires ValidTable(t) && TypedTable(isGauge, t) && Agrees(s, t)
    requires forall i :: 0 <= i < |calls| ==> Clean(calls[i])
    requires AllTyped(isGauge, Committed(cfg, t, calls))
    ensures Agrees(UpdateAll(s, Committed(cfg, t, calls)), AfterCalls(cfg, t, calls))
    decreases |calls|
  {
    if calls != [] {
      var c := calls[0];
      var r := Execute(cfg, t, c);
      var first := if r.err.None? then Entries(c.write) else [];
      var rest := Committed(cfg, r.state, calls[1..]);
      CleanCall(cfg, t, c);
      assert Committed(cfg, t, calls) == first + rest;
      forall i | 0 <= i < |first| ensures Typed(isGauge, first[i]) {
        assert first[i] == (first + rest)[i];
      }
      forall i | 0 <= i < |rest| ensures Typed(isGauge, rest[i]) {
        assert rest[i] == (first + rest)[|first| + i];
      }
      if r.err.None? {
        PerformIsEntries(t, c.write);
        EntriesKeepAgreement(isGauge, s, t, first);
      }
      UpdateAllConcat(s, first, rest);
      RefinesCommitted(cfg, isGauge, UpdateAll(s, first), r.state, calls[1..]);
    }
  }

  /** No sum over a prefix of the entries leaves int64. */
  predicate SumsFit(s: Store, entries: seq<Metric>)
    decreases |entries|
  {
    entries == [] ||
    (&& (IsCounterAdd(entries[0], entries[0].id) && entries[0].id in s.counters ==>
           FitsInt64(s.counters[entries[0].id] + entries[0].delta.value))
     && SumsFit(Update(s, entries[0]), entries[1..]))
  }

  lemma {:induction false} SumsFitConcat(s: Store, a: seq<Metric>, b: seq<Metric>)
    requires SumsFit(s, a + b)
    ensures SumsFit(s, a) && SumsFit(UpdateAll(s, a), b)
    decreases |a|
  {
    if a == [] {
      assert a + b == b;
    } else {
      assert (a + b)[1..] == a[1..] + b;
      SumsFitConcat(Update(s, a[0]), a[1..], b);
    }
  }

  lemma {:induction false} FittingEntriesSucceed(isGauge: string -> bool, s: Store, t: Table, entries: seq<Metric>)
    requires ValidTable(t) && TypedTable(isGauge, t) && Agrees(s, t)
    requires AllTyped(isGauge, entries) && SumsFit(s, entries)
    ensures ExecEntries(t, entries).1.None?
    decreases |entries|
  {
    if entries != [] {
      var m := entries[0];
      assert Typed(isGauge, m);
      TypedEntry(isGauge, t, m);
      assert AgreesOn(s, t, m.id);
      RowsOf(t, m.id);
      EntryKeepsAgreement(s, t, m);
      FittingEntriesSucceed(isGauge, Update(s, m), ExecEntry(t, m).0, entries[1..]);
    }
  }

  /** Attempt j fails for a reason of the environment that leads to another attempt, and without effect. */
  predicate PassesOver(cfg: Retry.Config<DbError>, c: Call, j: nat) {
    && c.faults(j).Lost? && !c.faults(j).applied
    && cfg.Retryable(c.faults(j).error)
    && !(j < |cfg.Delays()| && c.interrupted(j))
  }

  predicate UndisturbedAt(cfg: Retry.Config<DbError>, c: Call, i: nat) {
    && c.faults(i).NoFault?
    && forall j :: 0 <= j < i ==> PassesOver(cfg, c, j)
  }

  /** The retries get to an attempt that only the write itself could make fail. */
  predicate Undisturbed(cfg: Retry.Config<DbError>, c: Call) {
    exists i: nat :: i < Retry.TotalAttempts(cfg.maxRetries) && UndisturbedAt(cfg, c, i)
  }

  lemma UndisturbedCall(cfg: Retry.Config<DbError>, t: Table, c: Call)
    requires Undisturbed(cfg, c) && Perform(t, c.write).1.None?
    ensures Execute(cfg, t, c).err.None? && Execute(cfg, t, c).state == Perform(t, c.write).0
  {
    var i: nat :| i < Retry.TotalAttempts(cfg.maxRetries) && UndisturbedAt(cfg, c, i);
    forall j | 0 <= j < i ensures Retry.PassesOver(cfg, Op(c), c.interrupted, t, j) {
      assert PassesOver(cfg, c, j);
      OpIsAttempt(c, j, t);
    }
    OpIsAttempt(c, i, t);
    Retry.LoopReaches(cfg, Op(c), c.interrupted, t, 0, i, []);
  }

  /** A clean call of a write that the table accepts returns nil exactly when it is undisturbed at some point. */
  lemma CallSucceedsExactly(cfg: Retry.Config<DbError>, t: Table, c: Call)
    requires Clean(c) && Perform(t, c.write).1.None?
    ensures Execute(cfg, t, c).err.None? <==> Undisturbed(cfg, c)
  {
    if Undisturbed(cfg, c) {
      UndisturbedCall(cfg, t, c);
    } else if Execute(cfg, t, c).err.None? {
      SuccessIsUndisturbed(cfg, t, c);
    }
  }

  lemma SuccessIsUndisturbed(cfg: Retry.Config<DbError>, t: Table, c: Call)
    requires Clean(c) && Perform(t, c.write).1.None? && Execute(cfg, t, c).err.None?
    ensures Undisturbed(cfg, c)
  {
    var last := LastIsUndisturbed(cfg, t, c);
    forall j | 0 <= j < last ensures PassesOver(cfg, c, j) {
      AttemptBefore(cfg, t, c, j, last);
    }
    assert UndisturbedAt(cfg, c, last);
  }

  lemma LastIsUndisturbed(cfg: Retry.Config<DbError>, t: Table, c: Call) returns (last: nat)
    requires Clean(c) && Execute(cfg, t, c).err.None?
    ensures last < Retry.TotalAttempts(cfg.maxRetries) && c.faults(last).NoFault?
    ensures forall i :: 0 <= i < last ==> Retry.GoesOn(cfg, Op(c), c.interrupted, t, i)
  {
    CleanOp(c);
    Retry.AppliedOnce(cfg, Op(c), c.interrupted, Effect(c.write), t);
    last := Execute(cfg, t, c).attempts - 1;
    OpIsAttempt(c, last, t);
    AttemptMayApply(t, c.write, c.faults(last));
  }

  lemma AttemptBefore(cfg: Retry.Config<DbError>, t: Table, c: Call, j: nat, last: nat)
    requires Clean(c) && Perform(t, c.write).1.None? && j < last
    requires forall i :: 0 <= i < last ==> Retry.GoesOn(cfg, Op(c), c.interrupted, t, i)
    ensures PassesOver(cfg, c, j)
  {
    CleanOp(c);
    forall i | 0 <= i < j ensures Retry.ErrorOf(Op(c), t, i).Some? {
      assert Retry.GoesOn(cfg, Op(c), c.interrupted, t, i);
    }
    Retry.FailuresKeepState(Op(c), Effect(c.write), t, j);
    assert Retry.GoesOn(cfg, Op(c), c.interrupted, t, j);
    OpIsAttempt(c, j, t);
    AttemptMayApply(t, c.write, c.faults(j));
  }

  /**
   For every history in which each id keeps one type and no prefix sum leaves int64, batches included:
   if the retries of every call get to an undisturbed attempt, all calls return nil and the storages agree.
   */
  lemma {:induction false} SameAnswers(
      cfg: Retry.Config<DbError>, isGauge: string -> bool, s: Store, t: Table, calls: seq<Call>)
    requires ValidTable(t) && TypedTable(isGauge, t) && Agrees(s, t)
    requires forall i :: 0 <= i < |calls| ==> Undisturbed(cfg, calls[i])
    requires AllTyped(isGauge, AllEntries(calls)) && SumsFit(s, AllEntries(calls))
    ensures Committed(cfg, t, calls) == AllEntries(calls)
    ensures Agrees(UpdateAll(s, AllEntries(calls)), AfterCalls(cfg, t, calls))
    decreases |calls|
  {
    if calls != [] {
      var c := calls[0];
      var first, rest := Entries(c.write), AllEntries(calls[1..]);
      forall i | 0 <= i < |first| ensures Typed(isGauge, first[i]) {
        assert first[i] == (first + rest)[i];
      }
      forall i | 0 <= i < |rest| ensures Typed(isGauge, rest[i]) {
        assert rest[i] == (first + rest)[|first| + i];
      }
      SumsFitConcat(s, first, rest);
      FittingEntriesSucceed(isGauge, s, t, first);
      PerformIsEntries(t, c.write);
      UndisturbedCall(cfg, t, c);
      EntriesKeepAgreement(isGauge, s, t, first);
      UpdateAllConcat(s, first, rest);
      SameAnswers(cfg, isGauge, UpdateAll(s, first), Execute(cfg, t, c).state, calls[1..]);
    }
  }

  lemma EmptyAgree()
    ensures Agrees(EMPTY, [])
  {
    forall any ensures AgreesOn(EMPTY, [], any) {
      assert Find([], any) == 0;
    }
  }

  /** From empty storages, on every id: the answers to reads after such a history. */
  lemma UndisturbedAnswerAlike(cfg: Retry.Config<DbError>, isGauge: string -> bool, calls: seq<Call>, id: string)
    requires forall i :: 0 <= i < |calls| ==> Undisturbed(cfg, calls[i])
    requires AllTyped(isGauge, AllEntries(calls)) && SumsFit(EMPTY, AllEntries(calls))
    ensures var s, t := UpdateAll(EMPTY, AllEntries(calls)), AfterCalls(cfg, [], calls);
            GaugeOf(s, id) == ReadGauge(t, id) && CounterOf(s, id).0 == ReadCounter(t, id).0
  {
    EmptyAgree();
    SameAnswers(cfg, isGauge, EMPTY, [], calls);
    AgreementOnReads(UpdateAll(EMPTY, AllEntries(calls)), AfterCalls(cfg, [], calls), id);
  }

  /** Every call returns nil. */
  predicate AllSucceed(cfg: Retry.Config<DbError>, t: Table, calls: seq<Call>)
    decreases |calls|
  {
    calls == [] ||
    (Execute(cfg, t, calls[0]).err.None? && AllSucceed(cfg, Execute(cfg, t, calls[0]).state, calls[1..]))
  }

  lemma {:induction false} AllCommitted(cfg: Retry.Config<DbError>, t: Table, calls: seq<Call>)
    requires AllSucceed(cfg, t, calls)
    ensures Committed(cfg, t, calls) == AllEntries(calls)
    decreases |calls|
  {
    if calls != [] {
      AllCommitted(cfg, Execute(cfg, t, calls[0]).state, calls[1..]);
    }
  }

  /**
   From empty storages, on every id, after any history of clean calls: the database answers reads as
   the in-memory storage does after the entries of the calls that returned nil, provided these give each
   id one type. When all returned nil these are all the entries.
   */
  lemma StoragesAnswerAlike(cfg: Retry.Config<DbError>, isGauge: string -> bool, calls: seq<Call>, id: string)
    requires forall i :: 0 <= i < |calls| ==> Clean(calls[i])
    requires AllTyped(isGauge, Committed(cfg, [], calls))
    ensures var s, t := UpdateAll(EMPTY, Committed(cfg, [], calls)), AfterCalls(cfg, [], calls);
            GaugeOf(s, id) == ReadGauge(t, id) && CounterOf(s, id).0 == ReadCounter(t, id).0
    ensures AllSucceed(cfg, [], calls) ==> Committed(cfg, [], calls) == AllEntries(calls)
  {
    EmptyAgree();
    RefinesCommitted(cfg, isGauge, EMPTY, [], calls);
    AgreementOnReads(UpdateAll(EMPTY, Committed(cfg, [], calls)), AfterCalls(cfg, [], calls), id);
    if AllSucceed(cfg, [], calls) {
      AllCommitted(cfg, [], calls);
    }
  }

  /** The one answer that differs: the database finds a counter that was never written. */
  lemma MissingCounterIsFound(s: Store, t: Table, id: string)
    requires ValidTable(t) && Agrees(s, t)
    ensures CounterOf(s, id) == ReadCounter(t, id) <==> id in s.counters
  {
    assert AgreesOn(s, t, id);
  }
}
