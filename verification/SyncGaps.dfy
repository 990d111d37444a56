/** Where the no-loss guarantee ends: a window start that slips, and forced or reset runs. */
module SyncGaps {
  import opened Common
  import opened Paging
  import opened Windows
  import opened Tables
  import opened SyncRuns

  /** An upstream that has ever held one record. */
  function OneRecord(resource: Resource, id: Id, t: int): Upstream {
    Upstream(resource,
             (s, e, c) => Page(false, if s <= t < e then [id] else [], Text(""), true),
             c => None)
  }

  function QuietRun(now: int, savedAt: nat, up: Upstream): Run {
    Run(up.resource, now, savedAt, true, false, false, (s, e) => up, (id, s, e) => Unavailable, (id, s, e) => false)
  }

  lemma OneRecordWindow(resource: Resource, id: Id, t: int, s: int, e: int)
    ensures FetchWindow(OneRecord(resource, id, t), s, e) == Ok(if s <= t < e then [id] else [])
  {
    var up := OneRecord(resource, id, t);
    var page := up.list(s, e, FirstCursor(resource));
    assert WindowWalk(up, s, e) == Walk([FirstCursor(resource)], [page], None);
    assert IdsOf([page]) == page.ids + IdsOf([]) == page.ids;
    DedupOfDistinct(page.ids);
  }

  lemma OneRecordIsFaithful(resource: Resource, id: Id, t: int, now: int)
    ensures Faithful(OneRecord(resource, id, t), map[id := t], now)
  {
    hide FetchWindow, OneRecord;
    forall s, e
      ensures FetchWindow(OneRecord(resource, id, t), s, e) == Ok(if s <= t < e then [id] else [])
    {
      OneRecordWindow(resource, id, t, s, e);
    }
  }

  lemma {:induction false} OneRecordNeverFails(resource: Resource, id: Id, t: int, s: int, e: int)
    ensures FetchSegments(OneRecord(resource, id, t), Segments(s, e, Segment(resource))).Ok?
    decreases e - s
  {
    hide FetchWindow;
    if s < e {
      var span := Segment(resource);
      var cut := if s + span < e then s + span else e;
      OneRecordWindow(resource, id, t, s, cut);
      OneRecordNeverFails(resource, id, t, cut, e);
      assert Segments(s, e, span)[1..] == Segments(cut, e, span);
    }
  }

  lemma EmptyBatchStoresNothing(t: Tally, run: Run, b: Batch)
    requires b.ids == []
    ensures StoreBatches(t, run, [b]) == t
  {
    assert StoreIds(t, run, b.ids, b.start, b.end) == t;
    assert StoreBatches(t, run, [b][1..]) == t;
  }

  lemma OneRecordBatches(
    resource: Resource, id: Id, t: int, cursor: string, now: int, savedAt: nat, lookbackDays: int, force: bool)
    requires t < Window(now, cursor, lookbackDays, force).0
    ensures
      var w := Window(now, cursor, lookbackDays, force);
      BatchesOf(cursor, QuietRun(now, savedAt, OneRecord(resource, id, t)), lookbackDays, force)
      == Batches([Batch(w.0, w.1, [])], false)
  {
    var up := OneRecord(resource, id, t);
    var w := Window(now, cursor, lookbackDays, force);
    OneRecordIsFaithful(resource, id, t, now);
    OneRecordNeverFails(resource, id, t, w.0, w.1);
    hide Faithful, Window, NoDup, FetchSegments, Segments;
    var listed := SyncWindow(up, w.0, w.1).value;
    assert listed != [] ==> listed[0] in listed;
    RangeIsComplete(up, w.0, w.1, map[id := t], now);
    assert Listing(QuietRun(now, savedAt, up))(w.0, w.1) == Ok([]);
  }

  /** A run whose window starts after the only record saves its cursor and stores nothing. */
  lemma RecordBeforeTheWindowIsSkipped(
    resource: Resource, id: Id, t: int, cursor: string, now: int, savedAt: nat, lookbackDays: int, force: bool)
    requires t < Window(now, cursor, lookbackDays, force).0
    ensures
      var run := QuietRun(now, savedAt, OneRecord(resource, id, t));
      var st := State(map[], cursor);
      && Saves(st, run, lookbackDays, force)
      && RunOnce(st, run, lookbackDays, force).0.rows == map[]
  {
    var w := Window(now, cursor, lookbackDays, force);
    var run := QuietRun(now, savedAt, OneRecord(resource, id, t));
    OneRecordBatches(resource, id, t, cursor, now, savedAt, lookbackDays, force);
    EmptyBatchStoresNothing(Tally(map[], NO_STATS), run, Batch(w.0, w.1, []));
    hide BatchesOf, StoreBatches, Window, OneRecord;
  }

  /** A first attempt without credentials, then a clean run, on an empty table. */
  function SlippedRuns(
    resource: Resource, id: Id, cursor: string, lookbackDays: int, now0: nat, now1: nat): seq<Attempt>
  {
    var up := OneRecord(resource, id, Window(now0, cursor, lookbackDays, false).0);
    [Attempt(QuietRun(now0, now0, up).(hasSecret := false), true), Attempt(QuietRun(now1, now1, up), true)]
  }

  lemma SlippedRunsAreHonest(resource: Resource, id: Id, cursor: string, lookbackDays: int, now0: nat, now1: nat)
    requires now0 < now1
    ensures
      var attempts := SlippedRuns(resource, id, cursor, lookbackDays, now0, now1);
      && Timely(attempts)
      && forall a :: a in attempts ==>
           HonestListing(a.run, map[id := Window(now0, cursor, lookbackDays, false).0])
  {
    hide Window, OneRecord, Faithful;
    OneRecordIsFaithful(resource, id, Window(now0, cursor, lookbackDays, false).0, now0);
    OneRecordIsFaithful(resource, id, Window(now0, cursor, lookbackDays, false).0, now1);
  }

  /** Where the first attempt's start does not count, a record at that start is never stored, though a
      later run saves its cursor past it. */
  lemma SlippedStartLosesARecord(
    resource: Resource, id: Id, cursor: string, lookbackDays: int, now0: nat, now1: nat)
    requires now0 < now1 && (ReadCursor(cursor).Some? ==> ReadCursor(cursor).value > now0)
    ensures
      var attempts := SlippedRuns(resource, id, cursor, lookbackDays, now0, now1);
      var t := Window(now0, cursor, lookbackDays, false).0;
      var result := RunAll(Trace(State(map[], cursor), None), attempts, lookbackDays);
      && Timely(attempts) && (forall a :: a in attempts ==> HonestListing(a.run, map[id := t]))
      && FirstSave(State(map[], cursor), attempts, lookbackDays) == Some(now1)
      && result.span.Some? && result.span.value.hi == now1 && t < now1
      && id !in result.st.rows
  {
    var attempts := SlippedRuns(resource, id, cursor, lookbackDays, now0, now1);
    var t := Window(now0, cursor, lookbackDays, false).0;
    SlippedRunsAreHonest(resource, id, cursor, lookbackDays, now0, now1);
    IncrementalWindow(now0, cursor, lookbackDays);
    IncrementalWindow(now1, cursor, lookbackDays);
    RecordBeforeTheWindowIsSkipped(resource, id, t, cursor, now1, now1, lookbackDays, false);
    hide Window, OneRecord, BatchesOf, Saves, ReadCursor, StoreBatches;
    var start := Trace(State(map[], cursor), None);
    NoSecretNoSave(start.st, attempts[0].run, lookbackDays);
    assert attempts[..1] == [attempts[0]] && attempts[..1][..0] == [];
    assert Advance(start, attempts[0], lookbackDays) == start;
    hide RunOnce;
    assert RunAll(start, attempts[..1], lookbackDays)
        == Advance(RunAll(start, attempts[..1][..0], lookbackDays), attempts[0], lookbackDays);
    assert RunAll(start, attempts, lookbackDays) == Advance(start, attempts[1], lookbackDays);
    SecondSavesFirst(start.st, attempts, lookbackDays);
  }

  lemma SecondSavesFirst(st: State, attempts: seq<Attempt>, lookbackDays: int)
    requires |attempts| == 2 && !StepSaves(st, attempts[0], lookbackDays)
    requires Step(st, attempts[0], lookbackDays) == st && StepSaves(st, attempts[1], lookbackDays)
    ensures FirstSave(st, attempts, lookbackDays) == Some(attempts[1].run.now)
  {
    hide StepSaves, Step;
    var start, one := Trace(st, None), attempts[..1];
    assert one[..0] == [] && one[0] == attempts[0];
    assert RunAll(start, one, lookbackDays) == Advance(RunAll(start, one[..0], lookbackDays), one[0], lookbackDays);
    assert FirstSave(st, one[..0], lookbackDays) == None;
    assert FirstSave(st, one, lookbackDays) == None;
  }

  lemma NoSecretNoSave(st: State, run: Run, lookbackDays: int)
    requires !run.hasSecret
    ensures !Saves(st, run, lookbackDays, false)
  {
  }

  /** Every record from the first attempt's window start on is stored. */
  ghost predicate LosesNothing(st: State, attempts: seq<Attempt>, lookbackDays: int, times: Times)
    requires attempts != []
  {
    var t := RunAll(Trace(st, None), attempts, lookbackDays);
    t.span.Some? ==> Covered(t.st.rows, times, FirstStart(st, attempts, lookbackDays), t.span.value.hi)
  }

  /** Whatever the table held, the upstream had and the runs met: attempts that began at `now0` with
      this cursor, and first saved it with one begun at `now1`, lose nothing. */
  ghost predicate NeverLoses(cursor: string, lookbackDays: int, now0: int, now1: int) {
    forall rows: Rows, attempts: seq<Attempt>, times: Times
      {:trigger FirstSave(State(rows, cursor), attempts, lookbackDays), HonestRuns(attempts, times)} ::
      attempts != [] && Timely(attempts) && HonestRuns(attempts, times) && attempts[0].run.now == now0
      && FirstSave(State(rows, cursor), attempts, lookbackDays) == Some(now1) ==>
        LosesNothing(State(rows, cursor), attempts, lookbackDays, times)
  }

  ghost predicate HonestRuns(attempts: seq<Attempt>, times: Times) {
    forall a :: a in attempts ==> HonestListing(a.run, times)
  }

  /** No record from the first attempt's window start on is lost exactly when the cursor was readable
      then and not ahead of the clock, or the first save was by a run begun in the same second. */
  lemma NothingIsLostExactly(cursor: string, lookbackDays: int, now0: nat, now1: nat)
    requires now0 <= now1
    ensures NeverLoses(cursor, lookbackDays, now0, now1) <==> StartIsKept(cursor, now0, now1)
  {
    hide RunAll, FirstSave, FirstStart, HonestListing, Timely, ReadCursor, SlippedRuns, Window;
    if StartIsKept(cursor, now0, now1) {
      forall rows: Rows, attempts: seq<Attempt>, times: Times |
        attempts != [] && Timely(attempts) && HonestRuns(attempts, times) && attempts[0].run.now == now0
        && FirstSave(State(rows, cursor), attempts, lookbackDays) == Some(now1)
        ensures LosesNothing(State(rows, cursor), attempts, lookbackDays, times)
      {
        KeptStartLosesNothing(State(rows, cursor), attempts, lookbackDays, times);
      }
    } else {
      var id: Id := 7;
      var t := Window(now0, cursor, lookbackDays, false).0;
      var times: Times := map[id := t];
      SlippedStartLosesARecord(Reports, id, cursor, lookbackDays, now0, now1);
      SlippedRunsBegin(Reports, id, cursor, lookbackDays, now0, now1);
      var rows: Rows := map[];
      var attempts := SlippedRuns(Reports, id, cursor, lookbackDays, now0, now1);
      assert HonestRuns(attempts, times);
      assert !LosesNothing(State(rows, cursor), attempts, lookbackDays, times);
    }
  }

  lemma SlippedRunsBegin(resource: Resource, id: Id, cursor: string, lookbackDays: int, now0: nat, now1: nat)
    ensures
      var attempts := SlippedRuns(resource, id, cursor, lookbackDays, now0, now1);
      && attempts != [] && attempts[0].run.now == now0
      && FirstStart(State(map[], cursor), attempts, lookbackDays) == Window(now0, cursor, lookbackDays, false).0
  {
  }

  lemma KeptStartLosesNothing(st: State, attempts: seq<Attempt>, lookbackDays: int, times: Times)
    requires attempts != [] && Timely(attempts) && HonestRuns(attempts, times)
             && FirstStartCounts(st, attempts, lookbackDays)
    ensures LosesNothing(st, attempts, lookbackDays, times)
  {
    hide RunAll, FirstSave, FirstStart, FirstStartCounts, HonestListing, Timely;
    var t := RunAll(Trace(st, None), attempts, lookbackDays);
    if t.span.Some? {
      forall id | id in times && FirstStart(st, attempts, lookbackDays) <= times[id] < t.span.value.hi
        ensures id in t.st.rows
      {
        NothingIsLost(st, attempts, lookbackDays, times, id);
      }
    }
  }

  /** A saving run with this cursor and mode never leaves a gap after records covered up to `hi`. */
  ghost predicate KeepsCoverage(cursor: string, lookbackDays: int, force: bool, now: int, lo: int, hi: int) {
    forall rows: Rows, times: Times, run: Run
      {:trigger RunOnce(State(rows, cursor), run, lookbackDays, force), HonestListing(run, times)} ::
      run.now == now && HonestListing(run, times) && Covered(rows, times, lo, hi)
      && Saves(State(rows, cursor), run, lookbackDays, force) ==>
        Covered(RunOnce(State(rows, cursor), run, lookbackDays, force).0.rows, times, lo, now)
  }

  /** Forced runs, and runs after a cursor reset, skip records exactly when their window starts after
      the span already covered; a caller can compare the two before the run. */
  lemma GapsAppearExactly(cursor: string, lookbackDays: int, force: bool, now: int, lo: int, hi: int)
    requires lo <= hi < now
    ensures KeepsCoverage(cursor, lookbackDays, force, now, lo, hi)
            <==> Window(now, cursor, lookbackDays, force).0 <= hi
  {
    hide BoundedWindows, Faithful, Saves, RunOnce, Window;
    var w := Window(now, cursor, lookbackDays, force);
    if w.0 <= hi {
      forall rows: Rows, times: Times, run: Run |
        run.now == now && HonestListing(run, times) && Covered(rows, times, lo, hi)
        && Saves(State(rows, cursor), run, lookbackDays, force)
        ensures Covered(RunOnce(State(rows, cursor), run, lookbackDays, force).0.rows, times, lo, now)
      {
        SavingRunCoversItsWindow(State(rows, cursor), run, lookbackDays, force, times);
        RunsOnlyAddRows(State(rows, cursor), run, lookbackDays, force);
      }
    } else {
      var id: Id, times: Times := 7, map[7 := hi];
      var run := QuietRun(now, 0, OneRecord(Reports, id, hi));
      OneRecordIsFaithful(Reports, id, hi, now);
      RecordBeforeTheWindowIsSkipped(Reports, id, hi, cursor, now, 0, lookbackDays, force);
      assert HonestListing(run, times) && Covered(map[], times, lo, hi);
      assert id !in RunOnce(State(map[], cursor), run, lookbackDays, force).0.rows;
    }
  }
}
