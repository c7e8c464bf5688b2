/** The in-memory storage: two maps, int64 counters that wrap, and a JSON file to restore from. */
module MemStorage {
  import opened Common
  import opened Metrics

  datatype Store = Store(counters: map<string, int64>, gauges: map<string, Float>)

  const EMPTY: Store := Store(map[], map[])

  const TWO_64: int := 0x1_0000_0000_0000_0000

  /** Go's int64 addition wraps around. */
  function Wrap64(x: int): int64 { (x - MIN_INT64) % TWO_64 + MIN_INT64 }

  function SetGauge(s: Store, id: string, value: Float): Store { s.(gauges := s.gauges[id := value]) }

  function AddCounter(s: Store, id: string, delta: int64): Store {
    s.(counters := s.counters[id := if id in s.counters then Wrap64(s.counters[id] + delta) else delta])
  }

  /** One entry of a batch; an entry of another type, or without its number, is skipped. */
  function Update(s: Store, m: Metric): Store {
    if m.mtype == GAUGE && m.value.Some? then SetGauge(s, m.id, m.value.value)
    else if m.mtype == COUNTER && m.delta.Some? then AddCounter(s, m.id, m.delta.value)
    else s
  }

  function UpdateAll(s: Store, batch: seq<Metric>): Store
    decreases |batch|
  {
    if batch == [] then s else UpdateAll(Update(s, batch[0]), batch[1..])
  }

  function GaugeOf(s: Store, id: string): (Float, bool) {
    if id in s.gauges then (s.gauges[id], true) else (ZERO, false)
  }

  function CounterOf(s: Store, id: string): (int64, bool) {
    if id in s.counters then (s.counters[id], true) else (0, false)
  }

  // ---------------------------------------------------------------- batch algebra

  predicate IsGaugeWrite(m: Metric, id: string) { m.mtype == GAUGE && m.value.Some? && m.id == id }

  predicate IsCounterAdd(m: Metric, id: string) { m.mtype == COUNTER && m.delta.Some? && m.id == id }

  /** The sum, over the integers, of the deltas that a batch adds to the counter id. */
  function DeltaSum(batch: seq<Metric>, id: string): int {
    if batch == [] then 0
    else (if IsCounterAdd(batch[0], id) then batch[0].delta.value else 0) + DeltaSum(batch[1..], id)
  }

  predicate AddsTo(batch: seq<Metric>, id: string) { exists m :: m in batch && IsCounterAdd(m, id) }

  lemma {:induction false} UpdateAllConcat(s: Store, a: seq<Metric>, b: seq<Metric>)
    ensures UpdateAll(s, a + b) == UpdateAll(UpdateAll(s, a), b)
    decreases |a|
  {
    if a == [] {
      assert a + b == b;
    } else {
      assert (a + b)[1..] == a[1..] + b;
      UpdateAllConcat(Update(s, a[0]), a[1..], b);
    }
  }

  lemma WrapIsModular(x: int, y: int)
    ensures Wrap64(Wrap64(x) + y) == Wrap64(x + y)
    ensures (Wrap64(x) - x) % TWO_64 == 0
    ensures FitsInt64(x) ==> Wrap64(x) == x
  {
    var q := (x - MIN_INT64) / TWO_64;
    assert Wrap64(x) == x - q * TWO_64;
    assert Wrap64(x) + y - MIN_INT64 == (x + y - MIN_INT64) + (-q) * TWO_64;
    AddMultiple(x + y - MIN_INT64, -q);
    AddMultiple(0, -q);
  }

  lemma AddMultiple(x: int, k: int)
    ensures (x + k * TWO_64) % TWO_64 == x % TWO_64
  {
    var q := x / TWO_64;
    assert x + k * TWO_64 == (q + k) * TWO_64 + x % TWO_64;
  }

  function CounterOrZero(s: Store, id: string): int64 { CounterOf(s, id).0 }

  lemma OneUpdate(s: Store, m: Metric, id: string)
    ensures CounterOrZero(Update(s, m), id) == Wrap64(CounterOrZero(s, id) + DeltaSum([m], id))
    ensures id in Update(s, m).counters <==> id in s.counters || IsCounterAdd(m, id)
  {
    WrapIsModular(CounterOrZero(s, id), 0);
    if IsCounterAdd(m, id) {
      WrapIsModular(m.delta.value, 0);
    }
  }

  lemma {:induction false} CounterDomain(s: Store, batch: seq<Metric>, id: string)
    ensures id in UpdateAll(s, batch).counters <==> id in s.counters || AddsTo(batch, id)
    decreases |batch|
  {
    if batch != [] {
      OneUpdate(s, batch[0], id);
      CounterDomain(Update(s, batch[0]), batch[1..], id);
      assert batch == [batch[0]] + batch[1..];
    }
  }

  /** Each counter becomes its old value plus the sum of its deltas, modulo 2^64. */
  lemma {:induction false} CounterIsSum(s: Store, batch: seq<Metric>, id: string)
    ensures id in UpdateAll(s, batch).counters <==> id in s.counters || AddsTo(batch, id)
    ensures CounterOrZero(UpdateAll(s, batch), id) == Wrap64(CounterOrZero(s, id) + DeltaSum(batch, id))
    decreases |batch|
  {
    CounterDomain(s, batch, id);
    if batch == [] {
      WrapIsModular(CounterOrZero(s, id), 0);
    } else {
      OneUpdate(s, batch[0], id);
      CounterIsSum(Update(s, batch[0]), batch[1..], id);
      WrapIsModular(CounterOrZero(s, id) + DeltaSum([batch[0]], id), DeltaSum(batch[1..], id));
    }
  }

  /** Each gauge becomes its last write in the batch, or stays as it was when there is none. */
  lemma {:induction false} GaugeIsLastWrite(s: Store, batch: seq<Metric>, id: string)
    ensures var t := UpdateAll(s, batch);
            || (&& (forall i :: 0 <= i < |batch| ==> !IsGaugeWrite(batch[i], id))
                && GaugeOf(t, id) == GaugeOf(s, id))
            || (exists j :: 0 <= j < |batch| && IsGaugeWrite(batch[j], id)
                            && (forall i :: j < i < |batch| ==> !IsGaugeWrite(batch[i], id))
                            && GaugeOf(t, id) == (batch[j].value.value, true))
    decreases |batch|
  {
    if batch != [] {
      var m, tail := batch[0], batch[1..];
      var t := UpdateAll(s, batch);
      GaugeIsLastWrite(Update(s, m), tail, id);
      assert forall i :: 0 < i < |batch| ==> batch[i] == tail[i - 1];
      if j :| 0 <= j < |tail| && IsGaugeWrite(tail[j], id)
              && (forall i :: j < i < |tail| ==> !IsGaugeWrite(tail[i], id))
              && GaugeOf(t, id) == (tail[j].value.value, true) {
        assert IsGaugeWrite(batch[j + 1], id);
      } else if IsGaugeWrite(m, id) {
        assert IsGaugeWrite(batch[0], id);
      }
    }
  }

  lemma {:induction false} DeltaSumConcat(a: seq<Metric>, b: seq<Metric>, id: string)
    ensures DeltaSum(a + b, id) == DeltaSum(a, id) + DeltaSum(b, id)
  {
    if a == [] {
      assert a + b == b;
    } else {
      assert (a + b)[1..] == a[1..] + b;
      DeltaSumConcat(a[1..], b, id);
    }
  }

  lemma WithoutOne<T>(s: seq<T>, k: nat)
    requires k < |s|
    ensures multiset(s[..k] + s[k + 1..]) == multiset(s) - multiset{s[k]}
  {
    assert s == s[..k] + [s[k]] + s[k + 1..];
  }

  lemma WithoutFirst<T>(s: seq<T>)
    requires s != []
    ensures multiset(s[1..]) == multiset(s) - multiset{s[0]}
  {
    assert s == [s[0]] + s[1..];
  }

  lemma Occurs<T>(s: seq<T>, x: T) returns (k: nat)
    requires x in multiset(s)
    ensures k < |s| && s[k] == x
  {
    assert x in s;
    k :| 0 <= k < |s| && s[k] == x;
  }

  /** Taking one occurrence of an entry out of each of two permutations leaves permutations. */
  lemma RemoveOne<T>(a: seq<T>, b: seq<T>) returns (k: nat)
    requires a != [] && multiset(a) == multiset(b)
    ensures k < |b| && b[k] == a[0]
    ensures multiset(a[1..]) == multiset(b[..k] + b[k + 1..])
  {
    assert a[0] in multiset(a);
    k := Occurs(b, a[0]);
    WithoutFirst(a);
    WithoutOne(b, k);
  }

  lemma {:induction false} DeltaSumPermutes(a: seq<Metric>, b: seq<Metric>, id: string)
    requires multiset(a) == multiset(b)
    ensures DeltaSum(a, id) == DeltaSum(b, id)
  {
    if a == [] {
      assert |multiset(b)| == 0;
    } else {
      var k := RemoveOne(a, b);
      DeltaSumPermutes(a[1..], b[..k] + b[k + 1..], id);
      assert b == (b[..k] + [a[0]]) + b[k + 1..];
      DeltaSumConcat(b[..k] + [a[0]], b[k + 1..], id);
      DeltaSumConcat(b[..k], [a[0]], id);
      DeltaSumConcat(b[..k], b[k + 1..], id);
    }
  }

  /** No gauge is written twice by the batch. */
  predicate GaugesDistinct(batch: seq<Metric>) {
    forall i, j :: 0 <= i < j < |batch| && IsGaugeWrite(batch[i], batch[i].id) ==> !IsGaugeWrite(batch[j], batch[i].id)
  }

  lemma GaugesPermute(s: Store, a: seq<Metric>, b: seq<Metric>, id: string)
    requires multiset(a) == multiset(b) && GaugesDistinct(a)
    ensures GaugeOf(UpdateAll(s, a), id) == GaugeOf(UpdateAll(s, b), id)
  {
    GaugeIsLastWrite(s, a, id);
    GaugeIsLastWrite(s, b, id);
    assert forall m :: m in a <==> m in multiset(a);
    assert forall m :: m in b <==> m in multiset(b);
    if i :| 0 <= i < |a| && IsGaugeWrite(a[i], id) {
      assert a[i] in b;
    }
    if j :| 0 <= j < |b| && IsGaugeWrite(b[j], id)
            && (forall i :: j < i < |b| ==> !IsGaugeWrite(b[i], id))
            && GaugeOf(UpdateAll(s, b), id) == (b[j].value.value, true) {
      assert b[j] in a;
    }
  }

  /** Stores are equal when their reads are. */
  lemma SameReads(x: Store, y: Store)
    ensures (forall id :: CounterOf(x, id) == CounterOf(y, id)) ==> x.counters == y.counters
    ensures (forall id :: GaugeOf(x, id) == GaugeOf(y, id)) ==> x.gauges == y.gauges
  {
    assert forall id :: id in x.counters <==> CounterOf(x, id).1;
    assert forall id :: id in y.counters <==> CounterOf(y, id).1;
    assert forall id :: id in x.gauges <==> GaugeOf(x, id).1;
    assert forall id :: id in y.gauges <==> GaugeOf(y, id).1;
    if forall id :: CounterOf(x, id) == CounterOf(y, id) {
      assert forall id :: id in x.counters ==> x.counters[id] == CounterOf(x, id).0;
    }
    if forall id :: GaugeOf(x, id) == GaugeOf(y, id) {
      assert forall id :: id in x.gauges ==> x.gauges[id] == GaugeOf(x, id).0;
    }
  }

  /**
   The order of a batch does not matter for counters, wrap-around included; it does not matter at all
   when no gauge occurs twice.
   */
  lemma BatchOrder(s: Store, a: seq<Metric>, b: seq<Metric>)
    requires multiset(a) == multiset(b)
    ensures UpdateAll(s, a).counters == UpdateAll(s, b).counters
    ensures GaugesDistinct(a) ==> UpdateAll(s, a) == UpdateAll(s, b)
  {
    assert forall m :: m in a <==> m in multiset(a);
    assert forall m :: m in b <==> m in multiset(b);
    forall id ensures CounterOf(UpdateAll(s, a), id) == CounterOf(UpdateAll(s, b), id) {
      CounterIsSum(s, a, id);
      CounterIsSum(s, b, id);
      DeltaSumPermutes(a, b, id);
    }
    if GaugesDistinct(a) {
      forall id ensures GaugeOf(UpdateAll(s, a), id) == GaugeOf(UpdateAll(s, b), id) {
        GaugesPermute(s, a, b, id);
      }
    }
    SameReads(UpdateAll(s, a), UpdateAll(s, b));
  }

  // ---------------------------------------------------------------- the file

  /** encoding/json on a list of metrics, with F for the contents of a file. */
  datatype Codec<!F> = Codec(marshal: seq<Metric> -> Option<F>, unmarshal: F -> Option<seq<Metric>>)

  predicate Marshalable(m: Metric) { m.value.Some? ==> m.value.value.Finite? }

  /** JSON has no NaN and no infinity; everything else is read back as it was written. */
  ghost predicate Lawful<F>(c: Codec<F>) {
    forall batch: seq<Metric> ::
      && (c.marshal(batch).Some? <==> forall m :: m in batch ==> Marshalable(m))
      && (c.marshal(batch).Some? ==> c.unmarshal(c.marshal(batch).value) == Some(batch))
  }

  function CounterEntry(id: string, delta: int64): Metric { Metric(id, COUNTER, Some(delta), None) }

  function GaugeEntry(id: string, value: Float): Metric { Metric(id, GAUGE, None, Some(value)) }

  /** Loading sets counters, where an update would add to them. */
  function LoadOne(s: Store, m: Metric): Store {
    if m.mtype == COUNTER && m.delta.Some? then s.(counters := s.counters[m.id := m.delta.value])
    else if m.mtype == GAUGE && m.value.Some? then SetGauge(s, m.id, m.value.value)
    else s
  }

  function LoadAll(s: Store, list: seq<Metric>): Store
    decreases |list|
  {
    if list == [] then s else LoadAll(LoadOne(s, list[0]), list[1..])
  }

  /** m is the entry that saving s writes for one of its metrics. */
  predicate EntryOf(s: Store, m: Metric) {
    || (m.id in s.counters && m == CounterEntry(m.id, s.counters[m.id]))
    || (m.id in s.gauges && m == GaugeEntry(m.id, s.gauges[m.id]))
  }

  /** list is s written out, in whatever order the maps were iterated. */
  ghost predicate Lists(list: seq<Metric>, s: Store) {
    && (forall m :: m in list ==> EntryOf(s, m))
    && (forall id :: id in s.counters ==> CounterEntry(id, s.counters[id]) in list)
    && (forall id :: id in s.gauges ==> GaugeEntry(id, s.gauges[id]) in list)
  }

  /** t agrees with s wherever it is defined. */
  ghost predicate Within(t: Store, s: Store) {
    && (forall id :: id in t.counters ==> id in s.counters && t.counters[id] == s.counters[id])
    && (forall id :: id in t.gauges ==> id in s.gauges && t.gauges[id] == s.gauges[id])
  }

  lemma {:induction false} LoadEntries(t: Store, list: seq<Metric>, s: Store)
    requires Within(t, s) && forall m :: m in list ==> EntryOf(s, m)
    ensures Within(LoadAll(t, list), s)
    ensures t.counters.Keys <= LoadAll(t, list).counters.Keys && t.gauges.Keys <= LoadAll(t, list).gauges.Keys
    ensures forall m :: m in list ==>
              if m.mtype == COUNTER then m.id in LoadAll(t, list).counters else m.id in LoadAll(t, list).gauges
    decreases |list|
  {
    if list != [] {
      assert EntryOf(s, list[0]);
      assert list == [list[0]] + list[1..];
      LoadEntries(LoadOne(t, list[0]), list[1..], s);
    }
  }

  /** Loading a listing into empty storage gives the storage it lists. */
  lemma ListingLoads(list: seq<Metric>, s: Store)
    requires Lists(list, s)
    ensures LoadAll(EMPTY, list) == s
  {
    LoadEntries(EMPTY, list, s);
    var t := LoadAll(EMPTY, list);
    forall id | id in s.counters ensures id in t.counters {
      assert CounterEntry(id, s.counters[id]) in list;
    }
    forall id | id in s.gauges ensures id in t.gauges {
      assert GaugeEntry(id, s.gauges[id]) in list;
    }
    assert t.counters == s.counters && t.gauges == s.gauges;
  }

  /** Loading a listing into any storage sets what it lists, and leaves the rest. */
  lemma ListingOverwrites(list: seq<Metric>, s: Store, t: Store)
    requires Lists(list, s)
    ensures LoadAll(t, list) == Store(t.counters + s.counters, t.gauges + s.gauges)
  {
    assert t.counters + EMPTY.counters == t.counters && t.gauges + EMPTY.gauges == t.gauges;
    LoadOver(t, EMPTY, list);
    ListingLoads(list, s);
  }

  /** Loading over u ++ v is loading over v, on top of u: no number that was there is looked at. */
  lemma {:induction false} LoadOver(u: Store, v: Store, list: seq<Metric>)
    ensures LoadAll(Store(u.counters + v.counters, u.gauges + v.gauges), list)
         == Store(u.counters + LoadAll(v, list).counters, u.gauges + LoadAll(v, list).gauges)
    decreases |list|
  {
    if list != [] {
      var m := list[0];
      var both := Store(u.counters + v.counters, u.gauges + v.gauges);
      assert LoadOne(both, m)
          == Store(u.counters + LoadOne(v, m).counters, u.gauges + LoadOne(v, m).gauges);
      LoadOver(u, LoadOne(v, m), list[1..]);
    }
  }

  predicate AllFinite(s: Store) { forall id :: id in s.gauges ==> s.gauges[id].Finite? }

  lemma ListingMarshals<F>(c: Codec<F>, list: seq<Metric>, s: Store)
    requires Lawful(c) && Lists(list, s)
    ensures c.marshal(list).Some? <==> AllFinite(s)
  {
    if AllFinite(s) {
      forall m | m in list ensures Marshalable(m) {
        assert EntryOf(s, m);
      }
    } else {
      var id :| id in s.gauges && !s.gauges[id].Finite?;
      assert GaugeEntry(id, s.gauges[id]) in list;
    }
  }

  // ---------------------------------------------------------------- the object

  /** A file whose writes are atomic: it holds nothing, or what was last written. */
  class Disk<F> {
    var file: Option<F>
  }

  /** The outcome of loading a file's contents into s. */
  function Restored<F>(c: Codec<F>, file: Option<F>, s: Store): Option<Store> {
    if file.None? then Some(s)
    else if c.unmarshal(file.value).None? then None
    else Some(LoadAll(s, c.unmarshal(file.value).value))
  }

  class MemoryStorage<F> {
    var counters: map<string, int64>
    var gauges: map<string, Float>
    var ticking: bool  // the ticker field is not nil
    var done: bool     // the done channel is closed

    ghost function View(): Store
      reads this
    {
      Store(counters, gauges)
    }

    constructor ()
      ensures View() == EMPTY && !ticking && !done
    {
      counters, gauges, ticking, done := map[], map[], false, false;
    }

    method UpdateGauge(name: string, value: Float)
      modifies this`gauges
      ensures View() == Update(old(View()), GaugeEntry(name, value))
    {
      gauges := gauges[name := value];
    }

    method UpdateCounter(name: string, value: int64)
      modifies this`counters
      ensures View() == Update(old(View()), CounterEntry(name, value))
    {
      if name in counters {
        counters := counters[name := Wrap64(counters[name] + value)];
      } else {
        counters := counters[name := value];
      }
    }

    method UpdateMetrics(batch: seq<Metric>)
      modifies this`counters, this`gauges
      ensures View() == UpdateAll(old(View()), batch)
    {
      for i := 0 to |batch|
        invariant View() == UpdateAll(old(View()), batch[..i])
      {
        assert batch[..i + 1] == batch[..i] + [batch[i]];
        UpdateAllConcat(old(View()), batch[..i], [batch[i]]);
        var m := batch[i];
        if m.mtype == GAUGE {
          if m.value.Some? {
            gauges := gauges[m.id := m.value.value];
          }
        } else if m.mtype == COUNTER {
          if m.delta.Some? {
            if m.id in counters {
              counters := counters[m.id := Wrap64(counters[m.id] + m.delta.value)];
            } else {
              counters := counters[m.id := m.delta.value];
            }
          }
        }
      }
      assert batch[..|batch|] == batch;
    }

    method GetGauge(name: string) returns (value: Float, found: bool)
      ensures (value, found) == GaugeOf(View(), name)
    {
      if name in gauges {
        return gauges[name], true;
      }
      return ZERO, false;
    }

    method GetCounter(name: string) returns (value: int64, found: bool)
      ensures (value, found) == CounterOf(View(), name)
    {
      if name in counters {
        return counters[name], true;
      }
      return 0, false;
    }

    /** The entries in some order of iteration over the two maps. */
    method Listing() returns (list: seq<Metric>)
      ensures Lists(list, View()) && |list| == |counters| + |gauges|
    {
      list := [];
      var todo := counters.Keys;
      while todo != {}
        invariant todo <= counters.Keys && |list| + |todo| == |counters.Keys|
        invariant forall m :: m in list ==> EntryOf(View(), m)
        invariant forall id :: id in counters && id !in todo ==> CounterEntry(id, counters[id]) in list
        decreases |todo|
      {
        var id :| id in todo;
        list, todo := list + [CounterEntry(id, counters[id])], todo - {id};
      }
      todo := gauges.Keys;
      while todo != {}
        invariant todo <= gauges.Keys && |list| + |todo| == |counters.Keys| + |gauges.Keys|
        invariant forall m :: m in list ==> EntryOf(View(), m)
        invariant forall id :: id in counters ==> CounterEntry(id, counters[id]) in list
        invariant forall id :: id in gauges && id !in todo ==> GaugeEntry(id, gauges[id]) in list
        decreases |todo|
      {
        var id :| id in todo;
        list, todo := list + [GaugeEntry(id, gauges[id])], todo - {id};
      }
    }

    /** writable says whether the write to the disk succeeds. */
    method SaveToFile(c: Codec<F>, disk: Disk<F>, writable: bool) returns (ok: bool)
      requires Lawful(c)
      modifies disk
      ensures ok <==> writable && AllFinite(View())
      ensures ok ==> Restored(c, disk.file, EMPTY) == Some(View())
      ensures !ok ==> disk.file == old(disk.file)
    {
      var list := Listing();
      ListingMarshals(c, list, View());
      ListingLoads(list, View());
      var data := c.marshal(list);
      if data.None? {
        return false;
      }
      if !writable {
        return false;
      }
      disk.file := data;
      return true;
    }

    /** A missing file is not an error; one that does not decode is, and then nothing is loaded. */
    method LoadFromFile(c: Codec<F>, disk: Disk<F>) returns (ok: bool)
      modifies this`counters, this`gauges
      ensures ok <==> disk.file.None? || c.unmarshal(disk.file.value).Some?
      ensures disk.file.None? ==> View() == old(View())
      ensures forall s: Store, list ::
                disk.file.Some? && c.unmarshal(disk.file.value) == Some(list) && Lists(list, s) ==>
                  View() == Store(old(View()).counters + s.counters, old(View()).gauges + s.gauges)
      ensures ok <==> Restored(c, disk.file, old(View())).Some?
      ensures View() == if ok then Restored(c, disk.file, old(View())).value else old(View())
    {
      if disk.file.None? {
        return true;
      }
      var decoded := c.unmarshal(disk.file.value);
      if decoded.None? {
        return false;
      }
      var list := decoded.value;
      ghost var start := View();
      for i := 0 to |list|
        invariant View() == LoadAll(start, list[..i])
      {
        assert list[..i + 1] == list[..i] + [list[i]];
        LoadAllConcat(start, list[..i], [list[i]]);
        var m := list[i];
        if m.mtype == COUNTER {
          if m.delta.Some? {
            counters := counters[m.id := m.delta.value];
          }
        } else if m.mtype == GAUGE {
          if m.value.Some? {
            gauges := gauges[m.id := m.value.value];
          }
        }
      }
      assert list[..|list|] == list;
      forall s: Store | Lists(list, s)
        ensures View() == Store(start.counters + s.counters, start.gauges + s.gauges)
      {
        ListingOverwrites(list, s, start);
      }
      return true;
    }

    method StartPeriodicSave() returns (started: bool)
      modifies this`ticking
      ensures ticking && started == !old(ticking)
    {
      started := !ticking;
      ticking := true;
    }

    /** Closing a closed channel panics, hence the precondition. */
    method CloseDone()
      requires !done
      modifies this`done
      ensures done
    {
      done := true;
    }

    method Close(c: Codec<F>, disk: Disk<F>, writable: bool) returns (ok: bool)
      requires Lawful(c)
      modifies this`ticking, this`done, disk
      ensures !ticking && done && View() == old(View())
      ensures ok <==> writable && AllFinite(View())
      ensures ok ==> Restored(c, disk.file, EMPTY) == Some(View())
      ensures !ok ==> disk.file == old(disk.file)
    {
      if ticking {
        ticking := false;
      }
      if !done {
        CloseDone();
      }
      ok := SaveToFile(c, disk, writable);
    }
  }

  lemma {:induction false} LoadAllConcat(s: Store, a: seq<Metric>, b: seq<Metric>)
    ensures LoadAll(s, a + b) == LoadAll(LoadAll(s, a), b)
    decreases |a|
  {
    if a == [] {
      assert a + b == b;
    } else {
      assert (a + b)[1..] == a[1..] + b;
      LoadAllConcat(LoadOne(s, a[0]), a[1..], b);
    }
  }
}
