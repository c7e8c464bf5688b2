/**
 From a record of metrics to the batch that is posted: the map of named values, and the batch built by
 appending to a slice whose wrapper comes from a pool and goes back to it.
 */
module BatchSender {
  import opened Common
  import opened Metrics
  import opened ObjPool

  // ---------------------------------------------------------------- names

  function Digit(d: nat): char
    requires d < 10
  {
    "0123456789"[d]
  }

  /** Decimal printing. */
  function Decimal(n: nat): (s: string)
    ensures s != [] && (|s| == 1 <==> n < 10)
  {
    if n < 10 then [Digit(n)] else Decimal(n / 10) + [Digit(n % 10)]
  }

  lemma {:induction false} DecimalInjective(a: nat, b: nat)
    requires Decimal(a) == Decimal(b)
    ensures a == b
  {
    if a >= 10 {
      var s := Decimal(a);
      assert s[..|s| - 1] == Decimal(a / 10) && s[..|s| - 1] == Decimal(b / 10);
      assert s[|s| - 1] == Digit(a % 10) == Digit(b % 10);
      DecimalInjective(a / 10, b / 10);
    }
  }

  const CPU_PREFIX: string := "CPUutilization"

  const POLL_COUNT: string := "PollCount"

  /** The name of CPU i, counted from 1. */
  function CpuName(i: nat): string { CPU_PREFIX + Decimal(i + 1) }

  /** The number that a text of digits denotes. */
  function ValueOf(s: string): int {
    if s == [] then 0 else 10 * ValueOf(s[..|s| - 1]) + (s[|s| - 1] as int - '0' as int)
  }

  lemma {:induction false} DecimalDenotes(n: nat)
    ensures ValueOf(Decimal(n)) == n
  {
    if n >= 10 {
      DecimalDenotes(n / 10);
      assert Decimal(n)[..|Decimal(n)| - 1] == Decimal(n / 10);
    } else {
      assert Decimal(n)[..0] == [];
    }
  }

  /** The names are CPUutilization1, CPUutilization2 and so on. */
  lemma CpuNamesCountFromOne(i: nat)
    ensures CpuName(i)[..14] == "CPUutilization" && ValueOf(CpuName(i)[14..]) == i + 1
  {
    DecimalDenotes(i + 1);
    assert CpuName(i)[14..] == Decimal(i + 1);
  }

  lemma CpuNamesDistinct(i: nat, j: nat)
    requires CpuName(i) == CpuName(j)
    ensures i == j
  {
    assert CpuName(i)[|CPU_PREFIX|..] == Decimal(i + 1);
    assert CpuName(j)[|CPU_PREFIX|..] == Decimal(j + 1);
    DecimalInjective(i + 1, j + 1);
  }

  lemma FieldNamesDistinct()
    ensures forall i, j :: 0 <= i < j < SCALARS ==> FieldName(i) != FieldName(j)
  {
  }

  lemma FieldNamesAreNotCpus(f: nat, i: nat)
    requires f < SCALARS
    ensures FieldName(f) != CpuName(i) && FieldName(f) != POLL_COUNT
  {
    assert CpuName(i)[0] == 'C';
  }

  // ---------------------------------------------------------------- the map of values

  predicate Distinct(names: seq<string>) { forall i, j :: 0 <= i < j < |names| ==> names[i] != names[j] }

  /** The map built by storing each value under its name, in order. */
  function MapOf(names: seq<string>, values: seq<Float>): map<string, Float>
    requires |names| == |values|
  {
    if names == [] then map[]
    else MapOf(names[..|names| - 1], values[..|values| - 1])[names[|names| - 1] := values[|values| - 1]]
  }

  ghost predicate MapsExactly(m: map<string, Float>, names: seq<string>, values: seq<Float>)
    requires |names| == |values|
  {
    && |m| == |names|
    && (forall i :: 0 <= i < |names| ==> names[i] in m && m[names[i]] == values[i])
    && (forall name :: name in m ==> name in names)
  }

  lemma MapOneMore(m: map<string, Float>, names: seq<string>, values: seq<Float>, n: nat)
    requires |names| == |values| == n + 1 && names[n] !in names[..n]
    requires MapsExactly(m, names[..n], values[..n])
    ensures MapsExactly(m[names[n] := values[n]], names, values)
  {
    assert m[names[n] := values[n]].Keys == m.Keys + {names[n]};
    assert forall i :: 0 <= i < n ==> names[i] == names[..n][i] && values[i] == values[..n][i];
  }

  lemma {:induction false} MapOfDistinct(names: seq<string>, values: seq<Float>)
    requires |names| == |values| && Distinct(names)
    ensures MapsExactly(MapOf(names, values), names, values)
  {
    if names != [] {
      var n := |names| - 1;
      MapOfDistinct(names[..n], values[..n]);
      MapOneMore(MapOf(names[..n], values[..n]), names, values, n);
    }
  }

  function CpuNames(n: nat): seq<string> { seq(n, i requires 0 <= i => CpuName(i)) }

  lemma ConcatDistinct(a: seq<string>, b: seq<string>)
    requires Distinct(a) && Distinct(b) && forall i :: 0 <= i < |a| ==> a[i] !in b
    ensures Distinct(a + b)
  {
    forall i, j | 0 <= i < j < |a + b| ensures (a + b)[i] != (a + b)[j] {
      if i < |a| <= j {
        assert (a + b)[j] in b;
      }
    }
  }

  lemma CpuNamesAreDistinct(n: nat)
    ensures Distinct(CpuNames(n))
  {
    forall i, j | 0 <= i < j < n ensures CpuNames(n)[i] != CpuNames(n)[j] {
      if CpuName(i) == CpuName(j) {
        CpuNamesDistinct(i, j);
      }
    }
  }

  lemma {:induction false} NamesDistinct(n: nat)
    ensures Distinct(FieldNames() + CpuNames(n)) && POLL_COUNT !in FieldNames() + CpuNames(n)
  {
    FieldNamesDistinct();
    CpuNamesAreDistinct(n);
    forall f | 0 <= f < SCALARS ensures FieldName(f) !in CpuNames(n) && FieldName(f) != POLL_COUNT {
      FieldNameIsFree(f, n);
    }
    assert forall i :: 0 <= i < n ==> CpuNames(n)[i][0] == 'C';
    ConcatDistinct(FieldNames(), CpuNames(n));
  }

  lemma FieldNameIsFree(f: nat, n: nat)
    requires f < SCALARS
    ensures FieldName(f) !in CpuNames(n) && FieldName(f) != POLL_COUNT
  {
    FieldNamesAreNotCpus(f, 0);
    forall i | 0 <= i < n ensures CpuNames(n)[i] != FieldName(f) {
      FieldNamesAreNotCpus(f, i);
    }
  }

  /** Each scalar under its field's name and each CPU under its number. */
  function MetricsMap(m: MemoryMetrics): map<string, Float>
  {
    MapOf(FieldNames() + CpuNames(|m.cpu|), m.scalars + m.cpu)
  }

  /**
   The map has exactly 30 entries and one for each CPU: every field under its name, every CPU under
   its number, and nothing else; the poll counter's name is free.
   */
  lemma MapIsComplete(m: MemoryMetrics)
    ensures |MetricsMap(m)| == 30 + |m.cpu|
    ensures forall f :: 0 <= f < SCALARS ==>
              FieldName(f) in MetricsMap(m) && MetricsMap(m)[FieldName(f)] == m.scalars[f]
    ensures forall i: nat :: i < |m.cpu| ==> CpuName(i) in MetricsMap(m) && MetricsMap(m)[CpuName(i)] == m.cpu[i]
    ensures POLL_COUNT !in MetricsMap(m)
  {
    NamesDistinct(|m.cpu|);
    SplitEntries(FieldNames(), CpuNames(|m.cpu|), m.scalars, m.cpu);
    assert forall f :: 0 <= f < SCALARS ==> FieldNames()[f] == FieldName(f);
    assert forall i: nat :: i < |m.cpu| ==> CpuNames(|m.cpu|)[i] == CpuName(i);
  }

  lemma {:induction false} SplitEntries(a: seq<string>, b: seq<string>, x: seq<Float>, y: seq<Float>)
    requires |a| == |x| && |b| == |y| && Distinct(a + b)
    ensures var m := MapOf(a + b, x + y);
            && |m| == |a| + |b|
            && (forall i :: 0 <= i < |a| ==> a[i] in m && m[a[i]] == x[i])
            && (forall i :: 0 <= i < |b| ==> b[i] in m && m[b[i]] == y[i])
            && (forall name :: name in m ==> name in a + b)
  {
    MapOfDistinct(a + b, x + y);
    MapsHalves(MapOf(a + b, x + y), a, b, x, y);
  }

  lemma {:induction false} MapsHalves(m: map<string, Float>, a: seq<string>, b: seq<string>,
                                      x: seq<Float>, y: seq<Float>)
    requires |a| == |x| && |b| == |y| && MapsExactly(m, a + b, x + y)
    ensures forall i :: 0 <= i < |a| ==> a[i] in m && m[a[i]] == x[i]
    ensures forall i :: 0 <= i < |b| ==> b[i] in m && m[b[i]] == y[i]
  {
    forall i | 0 <= i < |a| ensures a[i] in m && m[a[i]] == x[i] {
      assert (a + b)[i] == a[i] && (x + y)[i] == x[i];
    }
    forall i | 0 <= i < |b| ensures b[i] in m && m[b[i]] == y[i] {
      assert (a + b)[|a| + i] == b[i] && (x + y)[|a| + i] == y[i];
    }
  }

  lemma MapOfPush(names: seq<string>, values: seq<Float>, name: string, value: Float)
    requires |names| == |values|
    ensures MapOf(names + [name], values + [value]) == MapOf(names, values)[name := value]
  {
    assert (names + [name])[..|names|] == names && (values + [value])[..|values|] == values;
  }

  /** The record counts as zero when these three of its named values are. */
  lemma ZeroRecords(m: MemoryMetrics)
    ensures var values := MetricsMap(m);
            && "Alloc" in values && "Sys" in values && "TotalAlloc" in values
            && (IsZero(m) <==> values["Alloc"] == values["Sys"] == values["TotalAlloc"] == Finite(0.0))
  {
    MapIsComplete(m);
    assert FieldName(ALLOC) == "Alloc" && FieldName(SYS) == "Sys" && FieldName(TOTAL_ALLOC) == "TotalAlloc";
  }

  /** The literal of the thirty fields, and then the loop over the CPUs. */
  method ToMap(m: MemoryMetrics) returns (result: map<string, Float>)
    ensures result == MetricsMap(m)
  {
    ghost var names: seq<string>, values := FieldNames(), m.scalars;
    result := MapOf(FieldNames(), m.scalars);
    for i := 0 to |m.cpu|
      invariant names == FieldNames() + CpuNames(i) && values == m.scalars + m.cpu[..i]
      invariant result == MapOf(names, values)
    {
      MapOfPush(names, values, CpuName(i), m.cpu[i]);
      assert FieldNames() + CpuNames(i + 1) == names + [CpuName(i)];
      assert m.scalars + m.cpu[..i + 1] == values + [m.cpu[i]];
      names, values := names + [CpuName(i)], values + [m.cpu[i]];
      result := result[CPU_PREFIX + Decimal(i + 1) := m.cpu[i]];
    }
    assert m.cpu[..|m.cpu|] == m.cpu;
  }

  // ---------------------------------------------------------------- slices

  /** A slice header: the array and how much of it is in use. */
  datatype Slice = Slice(data: array<Metric>, len: nat)

  predicate ValidSlice(s: Slice) { s.len <= s.data.Length }

  function Contents(s: Slice): seq<Metric>
    requires ValidSlice(s)
    reads s.data
  {
    s.data[..s.len]
  }

  const FILLER: Metric := Metric("", "", None, None)

  /** Writes in place while there is capacity, into a new array otherwise. */
  method Append(s: Slice, x: Metric) returns (r: Slice)
    requires ValidSlice(s)
    modifies s.data
    ensures ValidSlice(r) && Contents(r) == old(Contents(s)) + [x]
    ensures r.data == s.data || (fresh(r.data) && s.data[..] == old(s.data[..]))
    ensures s.data[..s.len] == old(s.data[..s.len])
  {
    if s.len < s.data.Length {
      s.data[s.len] := x;
      return Slice(s.data, s.len + 1);
    }
    var grown := new Metric[2 * s.len + 1](_ => FILLER);
    for i := 0 to s.len
      invariant grown[..i] == s.data[..i]
      invariant s.data[..] == old(s.data[..])
    {
      grown[i] := s.data[i];
    }
    grown[s.len] := x;
    assert grown[..s.len + 1] == grown[..s.len] + [x];
    return Slice(grown, s.len + 1);
  }

  /** The pooled wrapper. */
  class MetricsSlice {
    var slice: Slice

    constructor (capacity: nat)
      ensures fresh(slice.data) && slice.data.Length == capacity && slice.len == 0
    {
      var data := new Metric[capacity](_ => FILLER);
      slice := Slice(data, 0);
    }

    /** Empties the slice and keeps its array. */
    method Reset()
      modifies this
      ensures slice == Slice(old(slice).data, 0)
    {
      slice := Slice(slice.data, 0);
    }
  }

  // ---------------------------------------------------------------- the batch

  /** batch is one gauge for each named value, in some order, and then the counter if delta is not zero. */
  ghost predicate IsBatch(batch: seq<Metric>, values: map<string, Float>, delta: int64) {
    && |batch| == |values| + (if delta != 0 then 1 else 0)
    && (forall i :: 0 <= i < |values| ==>
          batch[i].id in values && batch[i] == Metric(batch[i].id, GAUGE, None, Some(values[batch[i].id])))
    && (forall i, j :: 0 <= i < j < |values| ==> batch[i].id != batch[j].id)
    && (forall name :: name in values ==> Metric(name, GAUGE, None, Some(values[name])) in batch)
    && (delta != 0 ==> batch[|values|] == Metric(POLL_COUNT, COUNTER, Some(delta), None))
  }

  class MetricsBatchPool {
    const pool: Pool<MetricsSlice>

    /** Every wrapper that has been made and not lost. */
    ghost function Wrappers(): set<MetricsSlice>
      reads this, pool
    {
      (set b | b in pool.free) + pool.held
    }

    /** Pooled wrappers are empty, and no two wrappers share an array, wherever they are. */
    ghost predicate Valid()
      reads this, pool, Wrappers()
    {
      && pool.Valid()
      && (forall b :: b in pool.free ==> b.slice.len == 0)
      && (forall a, b :: a in Wrappers() && b in Wrappers() && a != b ==> a.slice.data != b.slice.data)
    }

    constructor ()
      ensures Valid() && fresh(pool) && pool.free == [] && pool.held == {}
    {
      pool := new Pool<MetricsSlice>();
    }

    /** The wrapper handed out is empty and shares its array with no wrapper in use. */
    method GetBatch() returns (b: MetricsSlice)
      requires Valid()
      modifies pool
      ensures Valid() && pool.held == old(pool.held) + {b} && b !in old(pool.held)
      ensures b.slice.len == 0
      ensures (fresh(b) && fresh(b.slice.data)) || b in old(pool.free)
    {
      var made := new MetricsSlice(20);
      b := pool.Get(made);
    }

    method PutBatch(b: MetricsSlice)
      requires Valid() && b in pool.held
      modifies pool, b
      ensures Valid() && pool.held == old(pool.held) - {b} && b.slice == Slice(old(b.slice).data, 0)
    {
      b.Reset();
      pool.Put(b);
    }
  }

  class MetricsService {
    const batchPool: MetricsBatchPool

    constructor ()
      ensures fresh(batchPool) && batchPool.Valid() && batchPool.pool.free == [] && batchPool.pool.held == {}
    {
      batchPool := new MetricsBatchPool();
    }

    /**
     Every send posts one gauge for each entry of the map, and PollCount exactly when the delta is
     not zero, and puts its wrapper back. What the wrappers of other sends in progress hold is not
     touched. answer is the client's.
     */
    method Send(metrics: MemoryMetrics, delta: int64, answer: bool) returns (posted: seq<Metric>, ok: bool)
      requires batchPool.Valid()
      modifies batchPool.pool, batchPool.pool.free, set b | b in batchPool.pool.free :: b.slice.data
      ensures batchPool.Valid() && batchPool.pool.held == old(batchPool.pool.held) && ok == answer
      ensures IsBatch(posted, MetricsMap(metrics), delta)
      ensures forall b :: b in old(batchPool.pool.held) ==>
                b.slice == old(b.slice) && b.slice.data[..] == old(b.slice.data[..])
    {
      var values := ToMap(metrics);
      var wrapper := batchPool.GetBatch();
      posted := Build(wrapper.slice, values, delta);
      ok := answer;
      batchPool.PutBatch(wrapper);
    }
  }

  /** The batch as the client reads it. */
  method Build(s: Slice, values: map<string, Float>, delta: int64) returns (posted: seq<Metric>)
    requires ValidSlice(s) && s.len == 0
    modifies s.data
    ensures IsBatch(posted, values, delta)
  {
    var batch := Fill(s, values);
    if delta != 0 {
      batch := Append(batch, Metric(POLL_COUNT, COUNTER, Some(delta), None));
    }
    posted := Contents(batch);
  }

  /** The loop over the map, in the order in which it happens to be iterated. */
  method Fill(s: Slice, values: map<string, Float>) returns (batch: Slice)
    requires ValidSlice(s) && s.len == 0
    modifies s.data
    ensures ValidSlice(batch) && (batch.data == s.data || fresh(batch.data))
    ensures IsBatch(Contents(batch), values, 0)
  {
    batch := s;
    var todo := values.Keys;
    while todo != {}
      invariant ValidSlice(batch) && (batch.data == s.data || fresh(batch.data))
      invariant todo <= values.Keys && batch.len + |todo| == |values.Keys|
      invariant forall i :: 0 <= i < batch.len ==>
                  && Contents(batch)[i].id in values && Contents(batch)[i].id !in todo
                  && Contents(batch)[i]
                     == Metric(Contents(batch)[i].id, GAUGE, None, Some(values[Contents(batch)[i].id]))
      invariant forall i, j :: 0 <= i < j < batch.len ==> Contents(batch)[i].id != Contents(batch)[j].id
      invariant forall name :: name in values && name !in todo ==>
                  Metric(name, GAUGE, None, Some(values[name])) in Contents(batch)
      decreases |todo|
    {
      var name :| name in todo;
      batch := Append(batch, Metric(name, GAUGE, None, Some(values[name])));
      todo := todo - {name};
    }
  }
}
