/**
 The database storage: one table with a primary key and a CHECK constraint, upserts that Postgres
 may refuse, transactions around batches, and the retry loop around each call.
 */
module DbStorage {
  import opened Common
  import opened Metrics
  import opened Strings
  import Retry

  datatype MetricType = Counter | Gauge

  datatype Row = Row(id: string, mtype: MetricType, delta: Option<int64>, value: Option<Float>)

  type Table = seq<Row>

  /** The constraint chk_metric. */
  predicate CheckMetric(r: Row) {
    || (r.mtype == Counter && r.delta.Some? && r.value.None?)
    || (r.mtype == Gauge && r.delta.None? && r.value.Some?)
  }

  /** The primary key and the constraint. */
  predicate ValidTable(t: Table) {
    && (forall i, j :: 0 <= i < j < |t| ==> t[i].id != t[j].id)
    && (forall i :: 0 <= i < |t| ==> CheckMetric(t[i]))
  }

  // ---------------------------------------------------------------- errors

  datatype DbError = PgError(code: string) | OtherError(text: string)

  const CHECK_VIOLATION: DbError := PgError("23514")
  const NUMERIC_VALUE_OUT_OF_RANGE: DbError := PgError("22003")

  /** Admin shutdown, cannot connect now, and the connection exceptions of class 08. */
  const CONNECTION_CODES: set<string> :=
    {"57P01", "57P03", "08000", "08003", "08006", "08001", "08004", "08007"}

  predicate IsConnectionError(e: DbError) {
    match e
    case PgError(code) => code in CONNECTION_CODES
    case OtherError(text) =>
      Contains(text, "connection refused") || Contains(text, "network") || Contains(text, "timeout")
  }

  // ---------------------------------------------------------------- statements

  /** The position of the row with this id, or the length of the table. */
  function Find(t: Table, id: string): (i: nat)
    ensures i <= |t|
    ensures i < |t| ==> t[i].id == id
    ensures forall j :: 0 <= j < i ==> t[j].id != id
  {
    if t == [] || t[0].id == id then 0 else 1 + Find(t[1..], id)
  }

  /** INSERT with value, ON CONFLICT SET value = EXCLUDED.value. */
  function UpsertGauge(t: Table, id: string, value: Float): (Table, Option<DbError>) {
    var i := Find(t, id);
    if i == |t| then (t + [Row(id, Gauge, None, Some(value))], None)
    else
      var row := t[i].(value := Some(value));
      if CheckMetric(row) then (t[i := row], None) else (t, Some(CHECK_VIOLATION))
  }

  /** INSERT with delta, ON CONFLICT SET delta = metrics.delta + EXCLUDED.delta; NULL + x is NULL. */
  function UpsertCounter(t: Table, id: string, delta: int64): (Table, Option<DbError>) {
    var i := Find(t, id);
    if i == |t| then (t + [Row(id, Counter, Some(delta), None)], None)
    else if t[i].delta.Some? && !FitsInt64(t[i].delta.value + delta) then (t, Some(NUMERIC_VALUE_OUT_OF_RANGE))
    else
      var row := t[i].(delta := if t[i].delta.None? then None else Some(t[i].delta.value + delta));
      if CheckMetric(row) then (t[i := row], None) else (t, Some(CHECK_VIOLATION))
  }

  /** The statement for one entry of a batch, if it has one. */
  function ExecEntry(t: Table, m: Metric): (Table, Option<DbError>) {
    if m.mtype == GAUGE && m.value.Some? then UpsertGauge(t, m.id, m.value.value)
    else if m.mtype == COUNTER && m.delta.Some? then UpsertCounter(t, m.id, m.delta.value)
    else (t, None)
  }

  /** The statements of a batch inside a transaction, up to the first that fails. */
  function ExecEntries(t: Table, batch: seq<Metric>): (Table, Option<DbError>)
    decreases |batch|
  {
    if batch == [] then (t, None)
    else
      var (u, err) := ExecEntry(t, batch[0]);
      if err.Some? then (u, err) else ExecEntries(u, batch[1..])
  }

  datatype Write =
    | SetGauge(id: string, value: Float)
    | AddCounter(id: string, delta: int64)
    | Batch(entries: seq<Metric>)

  /** One undisturbed attempt: it commits, or it fails and is rolled back. */
  function Perform(t: Table, w: Write): (Table, Option<DbError>) {
    match w
    case SetGauge(id, value) => UpsertGauge(t, id, value)
    case AddCounter(id, delta) => UpsertCounter(t, id, delta)
    case Batch(entries) =>
      var (u, err) := ExecEntries(t, entries);
      if err.Some? then (t, err) else (u, None)
  }

  // ---------------------------------------------------------------- attempts and calls

  /** A lost attempt reports an error although, when applied, its effect has been committed. */
  datatype Fault = NoFault | Lost(error: DbError, applied: bool)

  /** A call and what its environment does: the fault of each attempt and each wait's interruption. */
  datatype Call = Call(write: Write, faults: nat -> Fault, interrupted: nat -> bool)

  function Attempt(t: Table, w: Write, fault: Fault): (Table, Option<DbError>) {
    if fault.NoFault? then Perform(t, w)
    else (if fault.applied then Perform(t, w).0 else t, Some(fault.error))
  }

  function Op(c: Call): Retry.Operation<Table, DbError> {
    (i: nat, t: Table) => Attempt(t, c.write, c.faults(i))
  }

  function RetryConfig(maxRetries: int, delays: seq<int>): Retry.Config<DbError> {
    Retry.Config(maxRetries, Some(delays), Some(e => IsConnectionError(e)))
  }

  function Execute(cfg: Retry.Config<DbError>, t: Table, c: Call): Retry.Report<Table, DbError> {
    Retry.Run(cfg, Op(c), c.interrupted, t)
  }

  function AfterCalls(cfg: Retry.Config<DbError>, t: Table, calls: seq<Call>): Table
    decreases |calls|
  {
    if calls == [] then t else AfterCalls(cfg, Execute(cfg, t, calls[0]).state, calls[1..])
  }

  // ---------------------------------------------------------------- the table invariant

  lemma SetRow(t: Table, i: nat, row: Row)
    requires ValidTable(t) && i < |t| && row.id == t[i].id && CheckMetric(row)
    ensures ValidTable(t[i := row])
  {
    var u := t[i := row];
    assert forall k :: 0 <= k < |u| ==> u[k].id == t[k].id;
  }

  lemma PushRow(t: Table, row: Row)
    requires ValidTable(t) && Find(t, row.id) == |t| && CheckMetric(row)
    ensures ValidTable(t + [row])
  {
  }

  lemma UpsertsKeepValid(t: Table, id: string, value: Float, delta: int64)
    requires ValidTable(t)
    ensures ValidTable(UpsertGauge(t, id, value).0) && ValidTable(UpsertCounter(t, id, delta).0)
  {
    var i := Find(t, id);
    if i == |t| {
      PushRow(t, Row(id, Gauge, None, Some(value)));
      PushRow(t, Row(id, Counter, Some(delta), None));
    } else {
      if UpsertGauge(t, id, value).1.None? {
        SetRow(t, i, t[i].(value := Some(value)));
      }
      if UpsertCounter(t, id, delta).1.None? {
        SetRow(t, i, t[i].(delta := if t[i].delta.None? then None else Some(t[i].delta.value + delta)));
      }
    }
  }

  lemma {:induction false} EntriesKeepValid(t: Table, batch: seq<Metric>)
    requires ValidTable(t)
    ensures ValidTable(ExecEntries(t, batch).0)
    decreases |batch|
  {
    if batch != [] {
      var m := batch[0];
      UpsertsKeepValid(t, m.id, if m.value.Some? then m.value.value else ZERO,
                       if m.delta.Some? then m.delta.value else 0);
      EntriesKeepValid(ExecEntry(t, m).0, batch[1..]);
    }
  }

  lemma PerformKeepsValid(t: Table, w: Write)
    requires ValidTable(t)
    ensures ValidTable(Perform(t, w).0)
    ensures Perform(t, w).1.Some? ==> Perform(t, w).0 == t
  {
    match w {
      case SetGauge(id, value) => UpsertsKeepValid(t, id, value, 0);
      case AddCounter(id, delta) => UpsertsKeepValid(t, id, ZERO, delta);
      case Batch(entries) => EntriesKeepValid(t, entries);
    }
  }

  lemma AttemptKeepsValid(t: Table, w: Write, fault: Fault)
    requires ValidTable(t)
    ensures ValidTable(Attempt(t, w, fault).0)
  {
    PerformKeepsValid(t, w);
  }

  lemma AttemptsKeepValid(t: Table, c: Call, n: nat)
    requires ValidTable(t)
    ensures ValidTable(Retry.StateAfter(Op(c), t, n))
  {
    forall i: nat, u: Table | ValidTable(u) ensures ValidTable(Op(c)(i, u).0) {
      OpIsAttempt(c, i, u);
      AttemptKeepsValid(u, c.write, c.faults(i));
    }
    Retry.StateAfterKeeps(Op(c), ValidTable, t, n);
  }

  /**
   Every table reachable by single and batch calls has unique ids and satisfies chk_metric: whatever
   types clash, sums overflow, attempts are lost, answers lie or waits are interrupted.
   */
  lemma {:induction false} ReachableTablesAreValid(cfg: Retry.Config<DbError>, t: Table, calls: seq<Call>)
    requires ValidTable(t)
    ensures ValidTable(AfterCalls(cfg, t, calls))
    decreases |calls|
  {
    if calls != [] {
      Retry.RetrySemantics(cfg, Op(calls[0]), calls[0].interrupted, t);
      AttemptsKeepValid(t, calls[0], Execute(cfg, t, calls[0]).attempts);
      ReachableTablesAreValid(cfg, Execute(cfg, t, calls[0]).state, calls[1..]);
    }
  }

  // ---------------------------------------------------------------- reads

  function ReadGauge(t: Table, id: string): (Float, bool) {
    var i := Find(t, id);
    if i < |t| && t[i].mtype == Gauge && t[i].value.Some? then (t[i].value.value, true) else (ZERO, false)
  }

  /** The counter row's delta, if there is such a row. */
  function CounterRow(t: Table, id: string): Option<int64> {
    var i := Find(t, id);
    if i < |t| && t[i].mtype == Counter then t[i].delta else None
  }

  /** A missing row is reported as found, with the value 0. */
  function ReadCounter(t: Table, id: string): (int64, bool) {
    (if CounterRow(t, id).Some? then CounterRow(t, id).value else 0, true)
  }

  function HasGauge(t: Table, id: string): bool { Find(t, id) < |t| && t[Find(t, id)].mtype == Gauge }

  function HasCounter(t: Table, id: string): bool { Find(t, id) < |t| && t[Find(t, id)].mtype == Counter }

  lemma {:induction false} FindIs(t: Table, id: string, i: nat)
    requires ValidTable(t) && i < |t| && t[i].id == id
    ensures Find(t, id) == i
  {
    assert t[Find(t, id)].id == t[i].id;
  }

  /** A committed gauge write is read back, and no other read changes. */
  lemma GaugeWriteReads(t: Table, id: string, value: Float)
    requires ValidTable(t)
    ensures UpsertGauge(t, id, value).1.None? <==> !HasCounter(t, id)
    ensures var u := UpsertGauge(t, id, value).0;
            if HasCounter(t, id) then u == t
            else ReadGauge(u, id) == (value, true) && CounterRow(u, id) == None && HasGauge(u, id)
    ensures forall other | other != id :: SameRow(t, UpsertGauge(t, id, value).0, other)
  {
    UpsertsKeepValid(t, id, value, 0);
    var u := UpsertGauge(t, id, value).0;
    if Find(t, id) < |t| {
      assert CheckMetric(t[Find(t, id)]);
    }
    if !HasCounter(t, id) {
      FindIs(u, id, Find(t, id));
    }
    forall other | other != id ensures SameRow(t, u, other) {
      OtherRows(t, u, id, other);
    }
  }

  /** The row of an id, if any, is the same in both tables. */
  predicate SameRow(t: Table, u: Table, id: string) {
    var i, j := Find(t, id), Find(u, id);
    (i == |t| && j == |u|) || (i < |t| && j < |u| && t[i] == u[j])
  }

  lemma OtherRows(t: Table, u: Table, id: string, other: string)
    requires ValidTable(t) && ValidTable(u) && other != id
    requires u == t || (Find(t, id) == |t| && |u| == |t| + 1 && u[..|t|] == t && u[|t|].id == id)
             || (|u| == |t| && Find(t, id) < |t| && u == t[Find(t, id) := u[Find(t, id)]] && u[Find(t, id)].id == id)
    ensures SameRow(t, u, other)
  {
    var i, j := Find(t, other), Find(u, other);
    if i < |t| {
      assert u[i] == t[i];
      FindIs(u, other, i);
    }
  }

  /** A committed counter write adds to the counter, and no other read changes. */
  lemma CounterWriteReads(t: Table, id: string, delta: int64)
    requires ValidTable(t)
    ensures var base := ReadCounter(t, id).0;
            var (u, err) := UpsertCounter(t, id, delta);
            && (err.None? <==> HasGauge(t, id) || FitsInt64(base + delta))
            && (err.Some? || HasGauge(t, id) ==> u == t)
            && (err.None? && !HasGauge(t, id) ==>
                  CounterRow(u, id) == Some(base + delta) && ReadGauge(u, id) == (ZERO, false) && HasCounter(u, id))
    ensures forall other | other != id :: SameRow(t, UpsertCounter(t, id, delta).0, other)
  {
    UpsertsKeepValid(t, id, ZERO, delta);
    var u := UpsertCounter(t, id, delta).0;
    if Find(t, id) < |t| {
      assert CheckMetric(t[Find(t, id)]);
    }
    if Find(t, id) == |t| || HasCounter(t, id) {
      if UpsertCounter(t, id, delta).1.None? {
        FindIs(u, id, Find(t, id));
      }
    }
    forall other | other != id ensures SameRow(t, u, other) {
      OtherRows(t, u, id, other);
    }
  }

  // ---------------------------------------------------------------- lost answers

  function Effect(w: Write): Table -> Table { t => Perform(t, w).0 }

  lemma OpIsAttempt(c: Call, i: nat, t: Table)
    ensures Op(c)(i, t) == Attempt(t, c.write, c.faults(i))
    ensures Effect(c.write)(t) == Perform(t, c.write).0
  {
  }

  lemma AttemptMayApply(t: Table, w: Write, fault: Fault)
    ensures Attempt(t, w, fault).0 == t || Attempt(t, w, fault).0 == Perform(t, w).0
    ensures Attempt(t, w, fault).1.None? ==> fault.NoFault? && Attempt(t, w, fault) == Perform(t, w)
  {
  }

  lemma OpMayApply(c: Call)
    ensures Retry.MayApply(Op(c), Effect(c.write))
  {
    forall i: nat, s: Table
      ensures Op(c)(i, s).0 == s || Op(c)(i, s).0 == Effect(c.write)(s)
      ensures Op(c)(i, s).1.None? ==> Op(c)(i, s).0 == Effect(c.write)(s)
    {
      OpIsAttempt(c, i, s);
      AttemptMayApply(s, c.write, c.faults(i));
    }
  }

  /**
   A call whose attempts may commit and yet report failure has the effect of its write between zero
   times and once for each attempt, and at least once when it reports success.
   */
  lemma CallEffect(cfg: Retry.Config<DbError>, t: Table, c: Call) returns (k: nat)
    ensures var r := Execute(cfg, t, c);
            && k <= r.attempts <= Retry.TotalAttempts(cfg.maxRetries)
            && r.state == Retry.Iterate(Effect(c.write), k, t)
            && (r.err.None? ==> 1 <= k)
  {
    OpMayApply(c);
    k := Retry.AppliedTimes(cfg, Op(c), c.interrupted, Effect(c.write), t);
  }

  lemma GaugeWriteTwice(t: Table, id: string, value: Float)
    requires ValidTable(t)
    ensures var u := UpsertGauge(t, id, value).0;
            UpsertGauge(u, id, value).0 == u
  {
    GaugeWriteReads(t, id, value);
    var u := UpsertGauge(t, id, value).0;
    UpsertsKeepValid(t, id, value, 0);
    if !HasCounter(t, id) {
      assert u[Find(u, id) := u[Find(u, id)]] == u;
    }
  }

  lemma {:induction false} GaugeWriteIsIdempotent(t: Table, w: Write, k: nat)
    requires ValidTable(t) && w.SetGauge? && 1 <= k
    ensures Retry.Iterate(Effect(w), k, t) == UpsertGauge(t, w.id, w.value).0
  {
    if k == 1 {
      assert Retry.Iterate(Effect(w), 0, t) == t;
    } else {
      GaugeWriteIsIdempotent(t, w, k - 1);
      GaugeWriteTwice(t, w.id, w.value);
    }
  }

  /**
   With lost answers and no other writer, a gauge write ends as if applied once, or not at all if it
   reports an error; after a success its value is read.
   */
  lemma GaugeCallAppliesOnce(cfg: Retry.Config<DbError>, t: Table, c: Call)
    requires ValidTable(t) && c.write.SetGauge?
    ensures var r := Execute(cfg, t, c);
            && (r.state == t || r.state == UpsertGauge(t, c.write.id, c.write.value).0)
            && (r.err.None? ==> !HasCounter(t, c.write.id) && ReadGauge(r.state, c.write.id) == (c.write.value, true))
  {
    var k := CallEffect(cfg, t, c);
    var r := Execute(cfg, t, c);
    if k == 0 {
      assert Retry.Iterate(Effect(c.write), 0, t) == t;
    } else {
      GaugeWriteIsIdempotent(t, c.write, k);
    }
    GaugeWriteReads(t, c.write.id, c.write.value);
    if HasCounter(t, c.write.id) {
      GaugeClashFails(cfg, t, c);
    }
  }

  lemma GaugeClashAttempt(t: Table, c: Call, i: nat)
    requires ValidTable(t) && c.write.SetGauge? && HasCounter(t, c.write.id)
    ensures Op(c)(i, t).0 == t && Op(c)(i, t).1.Some?
  {
    GaugeWriteReads(t, c.write.id, c.write.value);
    OpIsAttempt(c, i, t);
  }

  lemma {:induction false} GaugeClashKeepsTable(t: Table, c: Call, n: nat)
    requires forall i: nat :: Op(c)(i, t).0 == t && Op(c)(i, t).1.Some?
    ensures Retry.StateAfter(Op(c), t, n) == t && Retry.ErrorOf(Op(c), t, n).Some?
  {
    if n > 0 {
      GaugeClashKeepsTable(t, c, n - 1);
    }
  }

  lemma GaugeClashFails(cfg: Retry.Config<DbError>, t: Table, c: Call)
    requires ValidTable(t) && c.write.SetGauge? && HasCounter(t, c.write.id)
    ensures Execute(cfg, t, c).err.Some?
  {
    Retry.RetrySemantics(cfg, Op(c), c.interrupted, t);
    forall i: nat ensures Op(c)(i, t).0 == t && Op(c)(i, t).1.Some? {
      GaugeClashAttempt(t, c, i);
    }
    GaugeClashKeepsTable(t, c, Execute(cfg, t, c).attempts - 1);
  }

  /** n attempts of a counter write have added its delta j times, and nothing else has changed. */
  lemma {:induction false} CounterAfter(t: Table, c: Call, n: nat) returns (j: nat)
    requires ValidTable(t) && c.write.AddCounter? && !HasGauge(t, c.write.id)
    ensures var u := Retry.StateAfter(Op(c), t, n);
            && ValidTable(u) && !HasGauge(u, c.write.id) && j <= n
            && ReadCounter(u, c.write.id).0 == ReadCounter(t, c.write.id).0 + j * c.write.delta
            && (n > 0 && Retry.ErrorOf(Op(c), t, n - 1).None? ==> 1 <= j)
            && forall other | other != c.write.id :: SameRow(t, u, other)
  {
    if n == 0 {
      j := 0;
    } else {
      var before := CounterAfter(t, c, n - 1);
      var s := Retry.StateAfter(Op(c), t, n - 1);
      var (u, err) := Attempt(s, c.write, c.faults(n - 1));
      assert Retry.StateAfter(Op(c), t, n) == u && Retry.ErrorOf(Op(c), t, n - 1) == err;
      PerformKeepsValid(s, c.write);
      CounterWriteReads(s, c.write.id, c.write.delta);
      j := if Perform(s, c.write).1.None? && u == Perform(s, c.write).0
              && (c.faults(n - 1).NoFault? || c.faults(n - 1).applied) then before + 1 else before;
      assert (before + 1) * c.write.delta == before * c.write.delta + c.write.delta;
      forall other | other != c.write.id ensures SameRow(t, u, other) {
        assert SameRow(t, s, other);
        assert SameRow(s, UpsertCounter(s, c.write.id, c.write.delta).0, other);
      }
    }
  }

  /**
   With lost answers and no other writer a counter ends at its base plus k times the delta, with k at
   most the number of attempts, and k at least 1 when the call reports success.
   */
  lemma CounterCallAddsMultiple(cfg: Retry.Config<DbError>, t: Table, c: Call) returns (k: nat)
    requires ValidTable(t) && c.write.AddCounter? && !HasGauge(t, c.write.id)
    ensures var r := Execute(cfg, t, c);
            && k <= r.attempts <= Retry.TotalAttempts(cfg.maxRetries)
            && ReadCounter(r.state, c.write.id).0 == ReadCounter(t, c.write.id).0 + k * c.write.delta
            && (r.err.None? ==> 1 <= k)
            && forall other | other != c.write.id :: SameRow(t, r.state, other)
  {
    Retry.RetrySemantics(cfg, Op(c), c.interrupted, t);
    k := CounterAfter(t, c, Execute(cfg, t, c).attempts);
  }

  // ---------------------------------------------------------------- which failures are retried

  lemma LostEveryTime(t: Table, c: Call, e: DbError, n: nat)
    requires forall i: nat :: c.faults(i).Lost? && c.faults(i).error == e
    ensures Retry.ErrorOf(Op(c), t, n) == Some(e)
  {
    OpIsAttempt(c, n, Retry.StateAfter(Op(c), t, n));
  }

  /**
   A storage that was built with n retries, all of whose attempts fail with the same error of the
   environment, makes max(0, n) + 1 attempts for these eight codes and these three texts, and else one.
   */
  lemma LostAttempts(n: int, ds: seq<int>, t: Table, c: Call, e: DbError)
    requires forall i: nat :: c.faults(i).Lost? && c.faults(i).error == e && !c.interrupted(i)
    ensures var r := Execute(RetryConfig(n, ds), t, c);
            var again := match e
              case PgError(code) =>
                || code == "57P01" || code == "57P03" || code == "08000" || code == "08003"
                || code == "08006" || code == "08001" || code == "08004" || code == "08007"
              case OtherError(text) =>
                Contains(text, "connection refused") || Contains(text, "network") || Contains(text, "timeout");
            && r.attempts == (if again && n > 0 then n + 1 else 1)
            && r.err == Some(Retry.OpError(e))
  {
    var f := RetryConfig(n, ds).isRetryable.value;
    assert f(e) <==> IsConnectionError(e);
    forall j: nat ensures Retry.ErrorOf(Op(c), t, j) == Some(e) {
      LostEveryTime(t, c, e, j);
    }
    if IsConnectionError(e) {
      Retry.AllRetried(n, ds, f, Op(c), c.interrupted, t);
    } else {
      Retry.EndsAt(n, ds, f, Op(c), c.interrupted, t, 0);
    }
  }

  predicate IsRefusal(e: DbError) { e == CHECK_VIOLATION || e == NUMERIC_VALUE_OUT_OF_RANGE }

  lemma {:induction false} EntriesErrors(t: Table, batch: seq<Metric>)
    ensures var err := ExecEntries(t, batch).1; err.Some? ==> IsRefusal(err.value)
    decreases |batch|
  {
    if batch != [] {
      EntriesErrors(ExecEntry(t, batch[0]).0, batch[1..]);
    }
  }

  lemma PerformErrors(t: Table, w: Write)
    ensures Perform(t, w).1.Some? ==> IsRefusal(Perform(t, w).1.value) && Perform(t, w).0 == t
  {
    if w.Batch? {
      EntriesErrors(t, w.entries);
    }
  }

  lemma FirstAttempts(c: Call, t: Table)
    ensures Retry.ErrorOf(Op(c), t, 0) == Attempt(t, c.write, c.faults(0)).1
    ensures var u := Retry.StateAfter(Op(c), t, 1);
            && u == Attempt(t, c.write, c.faults(0)).0
            && Retry.ErrorOf(Op(c), t, 1) == Attempt(u, c.write, c.faults(1)).1
            && Retry.StateAfter(Op(c), t, 2) == Attempt(u, c.write, c.faults(1)).0
  {
    OpIsAttempt(c, 0, t);
    OpIsAttempt(c, 1, Retry.StateAfter(Op(c), t, 1));
  }

  lemma RefusalIsNotRetried(n: int, ds: seq<int>, e: DbError)
    requires IsRefusal(e)
    ensures !RetryConfig(n, ds).isRetryable.value(e)
  {
  }

  /** A write that the table refuses is attempted once: neither a clash of types nor an overflow is retried. */
  lemma RefusedWriteFailsAtOnce(n: int, ds: seq<int>, t: Table, c: Call)
    requires c.faults(0).NoFault? && Perform(t, c.write).1.Some?
    ensures var r := Execute(RetryConfig(n, ds), t, c);
            r.attempts == 1 && r.state == t && r.err == Some(Retry.OpError(Perform(t, c.write).1.value))
  {
    PerformErrors(t, c.write);
    FirstAttempts(c, t);
    RefusalIsNotRetried(n, ds, Perform(t, c.write).1.value);
    Retry.EndsAt(n, ds, RetryConfig(n, ds).isRetryable.value, Op(c), c.interrupted, t, 0);
  }

  /** The counter's table after a first and a second write. */
  lemma AddedTwice(id: string, delta: int64)
    requires FitsInt64(delta + delta)
    ensures var t := UpsertCounter([], id, delta).0;
            var (u, err) := UpsertCounter(t, id, delta);
            err.None? && ReadCounter(u, id).0 == delta + delta
  {
    var t := UpsertCounter([], id, delta).0;
    CounterWriteReads([], id, delta);
    UpsertsKeepValid([], id, ZERO, delta);
    CounterWriteReads(t, id, delta);
  }

  /** An attempt that commits and loses its answer does add: the retry adds once more. */
  lemma LostAnswerAddsTwice(ds: seq<int>, c: Call)
    requires c.write.AddCounter? && FitsInt64(c.write.delta + c.write.delta) && !c.interrupted(0)
    requires c.faults(0) == Lost(PgError("08006"), true) && c.faults(1).NoFault?
    ensures var r := Execute(RetryConfig(1, ds), [], c);
            r.err.None? && r.attempts == 2 && ReadCounter(r.state, c.write.id).0 == c.write.delta + c.write.delta
  {
    var f := RetryConfig(1, ds).isRetryable.value;
    assert f(PgError("08006"));
    AddedTwice(c.write.id, c.write.delta);
    FirstAttempts(c, []);
    Retry.EndsAt(1, ds, f, Op(c), c.interrupted, [], 1);
  }

  // ---------------------------------------------------------------- the object

  class DatabaseStorage {
    var table: Table
    const retryCfg: Retry.Config<DbError>

    constructor (maxRetries: int, delays: seq<int>)
      ensures table == [] && retryCfg == RetryConfig(maxRetries, delays)
    {
      table, retryCfg := [], RetryConfig(maxRetries, delays);
    }

    method UpdateGauge(name: string, value: Float, faults: nat -> Fault, interrupted: nat -> bool)
      returns (err: Option<Retry.Failure<DbError>>)
      modifies this
      ensures var r := Execute(retryCfg, old(table), Call(SetGauge(name, value), faults, interrupted));
              table == r.state && err == r.err
    {
      var r := Retry.Do(retryCfg, Op(Call(SetGauge(name, value), faults, interrupted)), interrupted, table);
      table := r.state;
      return r.err;
    }

    method UpdateCounter(name: string, value: int64, faults: nat -> Fault, interrupted: nat -> bool)
      returns (err: Option<Retry.Failure<DbError>>)
      modifies this
      ensures var r := Execute(retryCfg, old(table), Call(AddCounter(name, value), faults, interrupted));
              table == r.state && err == r.err
    {
      var r := Retry.Do(retryCfg, Op(Call(AddCounter(name, value), faults, interrupted)), interrupted, table);
      table := r.state;
      return r.err;
    }

    /** One attempt at a batch: the body of the transaction with its deferred rollback. */
    method BatchTransaction(metrics: seq<Metric>) returns (err: Option<DbError>)
      modifies this
      ensures (table, err) == Perform(old(table), Batch(metrics))
      ensures err.Some? ==> table == old(table)
    {
      var tx := table;
      for i := 0 to |metrics|
        invariant table == old(table)
        invariant ExecEntries(old(table), metrics) == ExecEntries(tx, metrics[i..])
      {
        var m := metrics[i];
        assert metrics[i..][1..] == metrics[i + 1..];
        if m.mtype == GAUGE {
          if m.value.None? {
            continue;
          }
          var (next, e) := UpsertGauge(tx, m.id, m.value.value);
          if e.Some? {
            return e;
          }
          tx := next;
        } else if m.mtype == COUNTER {
          if m.delta.None? {
            continue;
          }
          var (next, e) := UpsertCounter(tx, m.id, m.delta.value);
          if e.Some? {
            return e;
          }
          tx := next;
        }
      }
      table := tx;
      return None;
    }

    method UpdateMetrics(metrics: seq<Metric>, faults: nat -> Fault, interrupted: nat -> bool)
      returns (err: Option<Retry.Failure<DbError>>)
      modifies this
      ensures var r := Execute(retryCfg, old(table), Call(Batch(metrics), faults, interrupted));
              table == r.state && err == r.err
    {
      var r := Retry.Do(retryCfg, Op(Call(Batch(metrics), faults, interrupted)), interrupted, table);
      table := r.state;
      return r.err;
    }

    /** lost gives the error of each attempt to read, if it has one. */
    method GetGauge(name: string, lost: nat -> Option<DbError>, interrupted: nat -> bool)
      returns (value: Float, found: bool)
      ensures (value, found)
           == if ReadSucceeds(retryCfg, lost, interrupted) then ReadGauge(table, name) else (ZERO, false)
      ensures lost(0).None? ==> (value, found) == ReadGauge(table, name)
      ensures (forall i: nat :: lost(i).Some?) ==> !found
    {
      var answer := ReadGauge(table, name);
      var r := Retry.Do(retryCfg, ReadOp(lost, answer), interrupted, None);
      ReadAnswers(retryCfg, lost, interrupted, answer);
      if r.err.Some? {
        return ZERO, false;
      }
      return r.state.value.0, r.state.value.1;
    }

    method GetCounter(name: string, lost: nat -> Option<DbError>, interrupted: nat -> bool)
      returns (value: int64, found: bool)
      ensures (value, found)
           == if ReadSucceeds(retryCfg, lost, interrupted) then ReadCounter(table, name) else (0, false)
      ensures lost(0).None? ==> (value, found) == ReadCounter(table, name)
      ensures (forall i: nat :: lost(i).Some?) ==> !found
    {
      var answer := ReadCounter(table, name);
      var r := Retry.Do(retryCfg, ReadOp(lost, answer), interrupted, None);
      ReadAnswers(retryCfg, lost, interrupted, answer);
      if r.err.Some? {
        return 0, false;
      }
      return r.state.value.0, r.state.value.1;
    }
  }

  /** Attempt i to read gets an answer, and every one before it fails in a way that leads to another. */
  predicate ReadAt(cfg: Retry.Config<DbError>, lost: nat -> Option<DbError>, interrupted: nat -> bool, i: nat) {
    && lost(i).None?
    && forall j :: 0 <= j < i ==>
         lost(j).Some? && cfg.Retryable(lost(j).value) && !(j < |cfg.Delays()| && interrupted(j))
  }

  predicate ReadSucceeds(cfg: Retry.Config<DbError>, lost: nat -> Option<DbError>, interrupted: nat -> bool) {
    exists i: nat :: i < Retry.TotalAttempts(cfg.maxRetries) && ReadAt(cfg, lost, interrupted, i)
  }

  /** A read fills the caller's variable, or fails. */
  function ReadOp<A>(lost: nat -> Option<DbError>, answer: A): Retry.Operation<Option<A>, DbError> {
    (i: nat, s: Option<A>) => if lost(i).Some? then (s, lost(i)) else (Some(answer), None)
  }

  lemma ReadErrors<A>(lost: nat -> Option<DbError>, answer: A, n: nat)
    ensures Retry.ErrorOf(ReadOp(lost, answer), None, n) == lost(n)
    ensures lost(n).None? ==> Retry.StateAfter(ReadOp(lost, answer), None, n + 1) == Some(answer)
  {
  }

  /** A retried read has the answer exactly when an attempt gets it and all before it are retried. */
  lemma ReadAnswers<A>(cfg: Retry.Config<DbError>, lost: nat -> Option<DbError>, interrupted: nat -> bool, answer: A)
    ensures var r := Retry.Run(cfg, ReadOp(lost, answer), interrupted, None);
            && (r.err.None? <==> ReadSucceeds(cfg, lost, interrupted))
            && (r.err.None? ==> r.state == Some(answer))
  {
    var op := ReadOp(lost, answer);
    Retry.RetrySemantics(cfg, op, interrupted, None);
    var last := Retry.Run(cfg, op, interrupted, None).attempts - 1;
    ReadErrors(lost, answer, last);
    forall j | 0 <= j < last
      ensures lost(j).Some? && cfg.Retryable(lost(j).value) && !(j < |cfg.Delays()| && interrupted(j))
    {
      ReadErrors(lost, answer, j);
      assert Retry.GoesOn(cfg, op, interrupted, None, j);
    }
    if lost(last).None? {
      assert ReadAt(cfg, lost, interrupted, last);
    }
  }
}
