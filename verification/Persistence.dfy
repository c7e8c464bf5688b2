/**
 The in-memory server over its lifetime: updates, periodic saves, closes, crashes and restarts, in
 any order, with a file whose writes are atomic.
 */
module Persistence {
  import opened Common
  import opened Metrics
  import opened MemStorage

  /**
   past lists every state the storage has been in, and what the file held at first; closings counts
   how often the current process has closed its done channel; saved says that the last thing that
   happened to the running storage was a Close whose save succeeded.
   */
  datatype System<+F> = System(
    up: bool,
    store: Store,
    file: Option<F>,
    ticking: bool,
    done: bool,
    closings: nat,
    saved: bool,
    past: seq<Store>)

  /** list is the order in which a save iterates the maps; writable is the disk's answer. */
  datatype Event =
    | Update(batch: seq<Metric>)
    | Tick(list: seq<Metric>, writable: bool)
    | Close(list: seq<Metric>, writable: bool)
    | Crash
    | Start(restore: bool, periodic: bool)

  /** What the file decodes to. */
  function Decoded<F>(c: Codec<F>, file: Option<F>): Option<Store> { Restored(c, file, EMPTY) }

  ghost predicate Initial<F>(c: Codec<F>, s: System<F>) {
    && !s.up && !s.ticking && !s.saved && s.closings == 0
    && Decoded(c, s.file).Some?
    && s.past == [Decoded(c, s.file).value]
  }

  /** A tick is handled only while the ticker runs and the done channel is open. */
  ghost predicate Enabled<F>(c: Codec<F>, s: System<F>, e: Event) {
    match e
    case Update(_) => s.up
    case Tick(list, _) => s.up && s.ticking && !s.done && Lists(list, s.store)
    case Close(list, _) => s.up && Lists(list, s.store)
    case Crash => s.up
    case Start(restore, _) => !s.up && (restore ==> Decoded(c, s.file).Some?)
  }

  /** The file after a save; a marshalling or a write error leaves it alone. */
  function FileAfterSave<F>(c: Codec<F>, file: Option<F>, list: seq<Metric>, writable: bool): Option<F> {
    if c.marshal(list).Some? && writable then c.marshal(list) else file
  }

  ghost function Next<F>(c: Codec<F>, s: System<F>, e: Event): System<F>
    requires Enabled(c, s, e)
  {
    match e
    case Update(batch) =>
      var store := UpdateAll(s.store, batch);
      s.(store := store, saved := false, past := s.past + [store])
    case Tick(list, writable) => s.(file := FileAfterSave(c, s.file, list, writable))
    case Close(list, writable) =>
      s.(file := FileAfterSave(c, s.file, list, writable), ticking := false, done := true,
         closings := if s.done then s.closings else s.closings + 1,
         saved := c.marshal(list).Some? && writable)
    case Crash => s.(up := false)
    case Start(restore, periodic) =>
      var store := if restore then Decoded(c, s.file).value else EMPTY;
      s.(up := true, store := store, ticking := periodic, done := false, closings := 0, saved := false,
         past := s.past + [store])
  }

  ghost predicate IsRun<F>(c: Codec<F>, s: System<F>, run: seq<Event>)
    decreases |run|
  {
    run == [] || (Enabled(c, s, run[0]) && IsRun(c, Next(c, s, run[0]), run[1..]))
  }

  ghost function After<F>(c: Codec<F>, s: System<F>, run: seq<Event>): System<F>
    requires IsRun(c, s, run)
    decreases |run|
  {
    if run == [] then s else After(c, Next(c, s, run[0]), run[1..])
  }

  ghost predicate Inv<F>(c: Codec<F>, s: System<F>) {
    && Decoded(c, s.file).Some? && Decoded(c, s.file).value in s.past
    && (s.up ==> s.store in s.past)
    && (s.saved ==> Decoded(c, s.file).value == s.store)
    && s.closings <= 1
    && (s.up ==> (s.done <==> s.closings == 1))
    && (s.ticking && s.up ==> !s.done)
  }

  lemma SaveDecodes<F>(c: Codec<F>, s: System<F>, list: seq<Metric>, writable: bool)
    requires Lawful(c) && Inv(c, s) && Lists(list, s.store)
    ensures c.marshal(list).Some? <==> AllFinite(s.store)
    ensures var file := FileAfterSave(c, s.file, list, writable);
            if AllFinite(s.store) && writable then Decoded(c, file) == Some(s.store) else file == s.file
  {
    ListingMarshals(c, list, s.store);
    ListingLoads(list, s.store);
  }

  lemma InvStep<F>(c: Codec<F>, s: System<F>, e: Event)
    requires Lawful(c) && Inv(c, s) && Enabled(c, s, e)
    ensures Inv(c, Next(c, s, e))
  {
    if e.Tick? || e.Close? {
      SaveDecodes(c, s, e.list, e.writable);
    }
  }

  lemma {:induction false} InvRun<F>(c: Codec<F>, s: System<F>, run: seq<Event>)
    requires Lawful(c) && Inv(c, s) && IsRun(c, s, run)
    ensures Inv(c, After(c, s, run))
    decreases |run|
  {
    if run != [] {
      InvStep(c, s, run[0]);
      InvRun(c, Next(c, s, run[0]), run[1..]);
    }
  }

  /** After any run the file decodes, to a state the storage was in at some moment; done is closed at most once. */
  lemma FileIsSomePast<F>(c: Codec<F>, s: System<F>, run: seq<Event>)
    requires Lawful(c) && Initial(c, s) && IsRun(c, s, run)
    ensures var t := After(c, s, run);
            Decoded(c, t.file).Some? && Decoded(c, t.file).value in t.past && t.closings <= 1
  {
    InvRun(c, s, run);
  }

  /**
   After any run, a Close succeeds exactly when every gauge is finite and the disk accepts the write;
   then, whether or not the process dies afterwards, a restoring start comes up with exactly the final
   maps, for any order in which they were iterated. A Close that fails leaves the file as it was.
   */
  lemma CleanRestart<F>(c: Codec<F>, s: System<F>, run: seq<Event>, list: seq<Metric>, writable: bool, periodic: bool)
    requires Lawful(c) && Initial(c, s) && IsRun(c, s, run)
    requires var t := After(c, s, run); t.up && Lists(list, t.store)
    ensures var t := After(c, s, run);
            var closed := Next(c, t, Close(list, writable));
            && (closed.saved <==> AllFinite(t.store) && writable)
            && (!closed.saved ==> closed.file == t.file)
            && Enabled(c, Next(c, closed, Crash), Start(true, periodic))
            && (closed.saved ==> Next(c, Next(c, closed, Crash), Start(true, periodic)).store == t.store)
  {
    InvRun(c, s, run);
    var t := After(c, s, run);
    SaveDecodes(c, t, list, writable);
    InvStep(c, t, Close(list, writable));
  }

  /** Steps without an update in them. */
  predicate NoUpdate(run: seq<Event>) { forall i :: 0 <= i < |run| ==> !run[i].Update? }

  /** Once saved by a Close, further ticks, closes, crashes and restoring starts never lose the maps. */
  lemma {:induction false} SavedStays<F>(c: Codec<F>, s: System<F>, run: seq<Event>, kept: Store)
    requires Lawful(c) && Inv(c, s) && IsRun(c, s, run) && NoUpdate(run)
    requires Decoded(c, s.file) == Some(kept) && (s.up ==> s.store == kept)
    requires forall i :: 0 <= i < |run| && run[i].Start? ==> run[i].restore
    ensures var t := After(c, s, run);
            Decoded(c, t.file) == Some(kept) && (t.up ==> t.store == kept)
    decreases |run|
  {
    if run != [] {
      InvStep(c, s, run[0]);
      if run[0].Tick? || run[0].Close? {
        SaveDecodes(c, s, run[0].list, run[0].writable);
      }
      forall i | 0 <= i < |run[1..]| && run[1..][i].Start? ensures run[1..][i].restore {
        assert run[1..][i] == run[i + 1];
      }
      forall i | 0 <= i < |run[1..]| ensures !run[1..][i].Update? {
        assert run[1..][i] == run[i + 1];
      }
      SavedStays(c, Next(c, s, run[0]), run[1..], kept);
    }
  }

  // ---------------------------------------------------------------- what each event does

  /**
   In every reachable state a tick that finds all gauges finite and the disk willing leaves a file from
   which, even after a crash at once, a restoring start comes up with exactly the current maps; any other
   tick leaves the file as it was. No tick changes the maps.
   */
  lemma TickSaves<F>(c: Codec<F>, s: System<F>, run: seq<Event>, list: seq<Metric>, writable: bool, periodic: bool)
    requires Lawful(c) && Initial(c, s) && IsRun(c, s, run)
    requires Enabled(c, After(c, s, run), Tick(list, writable))
    ensures var t := After(c, s, run);
            var u := Next(c, t, Tick(list, writable));
            var v := Next(c, u, Crash);
            && u.store == t.store && u.up
            && (if AllFinite(t.store) && writable then Decoded(c, u.file) == Some(t.store) else u.file == t.file)
            && Enabled(c, v, Start(true, periodic))
            && (AllFinite(t.store) && writable ==> Next(c, v, Start(true, periodic)).store == t.store)
  {
    InvRun(c, s, run);
    SaveDecodes(c, After(c, s, run), list, writable);
    InvStep(c, After(c, s, run), Tick(list, writable));
  }

  /** The process can save periodically: its ticker runs. */
  predicate CanTick<F>(s: System<F>) { s.up && s.ticking && !s.done }

  /** It can from a start with a store interval on, through updates and ticks, until a close or a crash. */
  lemma TickerRuns<F>(c: Codec<F>, s: System<F>, e: Event, list: seq<Metric>, writable: bool)
    requires Enabled(c, s, e)
    ensures var t := Next(c, s, e);
            && (CanTick(t) <==> if e.Start? then e.periodic else (e.Update? || e.Tick?) && CanTick(s))
            && (Enabled(c, t, Tick(list, writable)) <==> CanTick(t) && Lists(list, t.store))
  {
  }

  /** A start without a file succeeds with an empty storage, whether it is to restore or not. */
  lemma StartWithoutFile<F>(c: Codec<F>, s: System<F>, restore: bool, periodic: bool)
    requires !s.up && s.file.None?
    ensures Enabled(c, s, Start(restore, periodic))
    ensures var t := Next(c, s, Start(restore, periodic));
            t.up && t.store == EMPTY && t.file.None? && (t.ticking <==> periodic) && !t.done
  {
  }

  /** The maps of the running process, and those that the last successful save wrote. */
  datatype Plain = Plain(up: bool, store: Store, disk: Store)

  /** The lifetime without files, codecs and tickers: a save is a copy of the maps. */
  function PlainNext(p: Plain, e: Event): Plain {
    match e
    case Update(batch) => p.(store := UpdateAll(p.store, batch))
    case Tick(_, writable) => if AllFinite(p.store) && writable then p.(disk := p.store) else p
    case Close(_, writable) => if AllFinite(p.store) && writable then p.(disk := p.store) else p
    case Crash => p.(up := false)
    case Start(restore, _) => Plain(true, if restore then p.disk else EMPTY, p.disk)
  }

  function PlainAfter(p: Plain, run: seq<Event>): Plain
    decreases |run|
  {
    if run == [] then p else PlainAfter(PlainNext(p, run[0]), run[1..])
  }

  ghost predicate Shows<F>(c: Codec<F>, s: System<F>, p: Plain) {
    && s.up == p.up
    && Decoded(c, s.file) == Some(p.disk)
    && (s.up ==> s.store == p.store)
  }

  lemma PlainStep<F>(c: Codec<F>, s: System<F>, p: Plain, e: Event)
    requires Lawful(c) && Inv(c, s) && Enabled(c, s, e) && Shows(c, s, p)
    ensures Shows(c, Next(c, s, e), PlainNext(p, e))
  {
    if e.Tick? || e.Close? {
      SaveDecodes(c, s, e.list, e.writable);
    }
  }

  lemma {:induction false} PlainRun<F>(c: Codec<F>, s: System<F>, p: Plain, run: seq<Event>)
    requires Lawful(c) && Inv(c, s) && IsRun(c, s, run) && Shows(c, s, p)
    ensures Shows(c, After(c, s, run), PlainAfter(p, run))
    decreases |run|
  {
    if run != [] {
      InvStep(c, s, run[0]);
      PlainStep(c, s, p, run[0]);
      PlainRun(c, Next(c, s, run[0]), PlainNext(p, run[0]), run[1..]);
    }
  }

  /**
   Over every run the process behaves as one that copies its maps: the file decodes to the maps at the last
   save that succeeded, be it by a tick or a close, or to what it held at first; and the running storage is
   what it started with, updated by every batch since.
   */
  lemma RunsCopyTheMaps<F>(c: Codec<F>, s: System<F>, run: seq<Event>)
    requires Lawful(c) && Initial(c, s) && IsRun(c, s, run)
    ensures Shows(c, After(c, s, run), PlainAfter(Plain(false, EMPTY, s.past[0]), run))
  {
    PlainRun(c, s, Plain(false, EMPTY, s.past[0]), run);
  }

  predicate Saves(e: Event) { (e.Tick? || e.Close?) && e.writable }

  /** After a save that succeeds, the disk keeps its maps until the next one that does. */
  lemma {:induction false} DiskKeeps(p: Plain, run: seq<Event>)
    requires forall i :: 0 <= i < |run| ==> !Saves(run[i])
    ensures PlainAfter(p, run).disk == p.disk
    decreases |run|
  {
    if run != [] {
      assert !Saves(run[0]);
      forall i | 0 <= i < |run[1..]| ensures !Saves(run[1..][i]) {
        assert run[1..][i] == run[i + 1];
      }
      DiskKeeps(PlainNext(p, run[0]), run[1..]);
    }
  }
}
