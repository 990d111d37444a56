/** One incremental run of a resource, and what any sequence of runs keeps. */
module SyncRuns {
  import opened Common
  import opened Paging
  import opened Windows
  import opened Tables
  import Decimal

  /** What asking for one record's detail gives: its content, a reply that is not a record, or an error. */
  datatype Detail =
    | Info(kind: string, title: string, person: string, detail: string, time: int)
    | Malformed
    | Unavailable

  /** Everything outside the program that one run meets: clocks, listings, details, write failures.
      No range is listed twice in a run and a record is handled at most once per batch window, so
      functions of the range, and of the record and its window, leave each reply free. */
  datatype Run = Run(
    resource: Resource,
    now: int,
    savedAt: nat,
    hasSecret: bool,
    readFails: bool,
    saveFails: bool,
    up: (int, int) -> Upstream,
    detail: (Id, int, int) -> Detail,
    writeFails: (Id, int, int) -> bool)

  datatype Stats = Stats(pulled: nat, stored: nat, err: nat, writeErr: nat, failed: bool)

  datatype State = State(rows: Rows, cursor: string)

  datatype Tally = Tally(rows: Rows, stats: Stats)

  predicate CountsAsPartial(r: Resource, d: Detail) {
    d.Unavailable? || (d.Malformed? && r.Approvals?)
  }

  /** The row written for a record of one batch. A malformed report detail is stored as complete. */
  function RowFor(run: Run, id: Id, s: int, e: int): Row {
    var d := run.detail(id, s, e);
    if CountsAsPartial(run.resource, d) then Row("", "", 0, "", "", s, e, run.now, true)
    else
      match d
      case Info(kind, title, person, detail, time) => Row(kind, title, time, person, detail, s, e, run.now, false)
      case _ => Row("", "", 0, "", "", s, e, run.now, false)
  }

  function StoreOne(t: Tally, run: Run, id: Id, s: int, e: int): Tally {
    var st := t.stats;
    var counted := if CountsAsPartial(run.resource, run.detail(id, s, e)) then st.(err := st.err + 1) else st;
    if run.writeFails(id, s, e) then Tally(t.rows, counted.(writeErr := st.writeErr + 1))
    else Tally(UpsertRow(t.rows, id, RowFor(run, id, s, e)), counted.(stored := st.stored + 1))
  }

  function StoreIds(t: Tally, run: Run, ids: seq<Id>, s: int, e: int): Tally
    decreases ids
  {
    if ids == [] then t else StoreIds(StoreOne(t, run, ids[0], s, e), run, ids[1..], s, e)
  }

  function StoreBatches(t: Tally, run: Run, batches: seq<Batch>): Tally
    decreases batches
  {
    if batches == [] then t
    else
      var b := batches[0];
      var counted := t.(stats := t.stats.(pulled := t.stats.pulled + |b.ids|));
      StoreBatches(StoreIds(counted, run, b.ids, b.start, b.end), run, batches[1..])
  }

  const NO_STATS := Stats(0, 0, 0, 0, false)

  /** The upstream as it is while the range [s, e) is listed. */
  function UpstreamFor(run: Run, s: int, e: int): Upstream { run.up(s, e).(resource := run.resource) }

  function Listing(run: Run): Fetch { (s, e) => SyncWindow(UpstreamFor(run, s, e), s, e) }

  function WindowOf(cursor: string, run: Run, lookbackDays: int, force: bool): (int, int) {
    Window(run.now, cursor, lookbackDays, force)
  }

  function BatchesOf(cursor: string, run: Run, lookbackDays: int, force: bool): Batches {
    var w := WindowOf(cursor, run, lookbackDays, force);
    BoundedWindows(Listing(run), w.0, w.1, MAX_DETAIL_PER_RUN)
  }

  /** The specification of one run. */
  function RunOnce(st: State, run: Run, lookbackDays: int, force: bool): (State, Stats) {
    if (!force && run.readFails) || !run.hasSecret then (st, NO_STATS.(failed := true))
    else
      var batches := BatchesOf(st.cursor, run, lookbackDays, force);
      var t := StoreBatches(Tally(st.rows, NO_STATS), run, batches.list);
      if batches.failed then (State(t.rows, st.cursor), t.stats.(failed := true))
      else if t.stats.writeErr != 0 then (State(t.rows, st.cursor), t.stats)
      else if run.saveFails then (State(t.rows, st.cursor), t.stats.(failed := true))
      else (State(t.rows, Decimal.Print(run.savedAt)), t.stats)
  }

  /** The run got far enough to save its cursor. */
  predicate Saves(st: State, run: Run, lookbackDays: int, force: bool) {
    && (force || !run.readFails) && run.hasSecret && !run.saveFails
    && !BatchesOf(st.cursor, run, lookbackDays, force).failed
    && RunOnce(st, run, lookbackDays, force).1.writeErr == 0
  }

  class SyncStore {
    var rows: Rows
    var cursor: string

    ghost function Contents(): State
      reads this
    {
      State(rows, cursor)
    }

    /** The upsert statement: insert, or assign column after column. */
    method Upsert(id: Id, values: Row)
      modifies this`rows
      ensures rows == UpsertRow(old(rows), id, values)
    {
      hide AssignColumn, Merge;
      if id !in rows {
        rows := rows[id := values];
        return;
      }
      ghost var before := rows[id];
      var k := 0;
      while k < |UPDATE_ORDER|
        invariant 0 <= k <= |UPDATE_ORDER|
        invariant id in rows && rows == old(rows)[id := rows[id]]
        invariant AssignColumns(rows[id], values, UPDATE_ORDER[k..]) == AssignColumns(before, values, UPDATE_ORDER)
      {
        assert UPDATE_ORDER[k..][1..] == UPDATE_ORDER[k + 1..];
        rows := rows[id := AssignColumn(rows[id], values, UPDATE_ORDER[k])];
        k := k + 1;
      }
      UpdateOrderIsMerge(before, values);
    }

    method StoreBatch(run: Run, b: Batch, stats0: Stats) returns (stats: Stats)
      modifies this`rows
      ensures Tally(rows, stats) == StoreIds(Tally(old(rows), stats0), run, b.ids, b.start, b.end)
    {
      stats := stats0;
      var k := 0;
      while k < |b.ids|
        invariant 0 <= k <= |b.ids|
        invariant StoreIds(Tally(rows, stats), run, b.ids[k..], b.start, b.end)
               == StoreIds(Tally(old(rows), stats0), run, b.ids, b.start, b.end)
      {
        var id := b.ids[k];
        assert b.ids[k..][1..] == b.ids[k + 1..];
        if CountsAsPartial(run.resource, run.detail(id, b.start, b.end)) {
          stats := stats.(err := stats.err + 1);
        }
        if run.writeFails(id, b.start, b.end) {
          stats := stats.(writeErr := stats.writeErr + 1);
        } else {
          Upsert(id, RowFor(run, id, b.start, b.end));
          stats := stats.(stored := stats.stored + 1);
        }
        k := k + 1;
      }
    }

    /** One run: window, batches, upserts, and the cursor only after a clean end. */
    method SyncOne(run: Run, lookbackDays: int, force: bool) returns (stats: Stats)
      modifies this
      ensures (Contents(), stats) == RunOnce(old(Contents()), run, lookbackDays, force)
    {
      hide BoundedWindows, Window, AllIds;
      stats := NO_STATS;
      if (!force && run.readFails) || !run.hasSecret {
        return stats.(failed := true);
      }
      var batches := BatchesOf(cursor, run, lookbackDays, force);
      var i := 0;
      while i < |batches.list|
        invariant 0 <= i <= |batches.list|
        invariant cursor == old(cursor)
        invariant StoreBatches(Tally(rows, stats), run, batches.list[i..])
               == StoreBatches(Tally(old(rows), NO_STATS), run, batches.list)
      {
        var b := batches.list[i];
        assert batches.list[i..][1..] == batches.list[i + 1..];
        stats := stats.(pulled := stats.pulled + |b.ids|);
        stats := StoreBatch(run, b, stats);
        i := i + 1;
      }
      if batches.failed {
        return stats.(failed := true);
      }
      if stats.writeErr == 0 {
        if run.saveFails {
          return stats.(failed := true);
        }
        cursor := Decimal.Print(run.savedAt);
      }
    }
  }

  // ----- what storing keeps -----

  lemma {:induction false} StoreIdsFacts(t: Tally, run: Run, ids: seq<Id>, s: int, e: int)
    ensures
      var r := StoreIds(t, run, ids, s, e);
      && t.rows.Keys <= r.rows.Keys <= t.rows.Keys + Elements(ids)
      && r.stats.pulled == t.stats.pulled
      && r.stats.stored + r.stats.writeErr == t.stats.stored + t.stats.writeErr + |ids|
      && r.stats.writeErr >= t.stats.writeErr
      && (r.stats.writeErr == t.stats.writeErr ==> forall id :: id in ids ==> id in r.rows)
    decreases ids
  {
    if ids != [] {
      StoreIdsFacts(StoreOne(t, run, ids[0], s, e), run, ids[1..], s, e);
    }
  }

  /** Rows are only added; every pulled record is either stored or counted as a write error; and
      without write errors every pulled record is in the table. */
  lemma {:induction false} StoreBatchesFacts(t: Tally, run: Run, batches: seq<Batch>)
    ensures
      var r := StoreBatches(t, run, batches);
      && t.rows.Keys <= r.rows.Keys <= t.rows.Keys + Elements(AllIds(batches))
      && r.stats.pulled == t.stats.pulled + |AllIds(batches)|
      && r.stats.stored + r.stats.writeErr == t.stats.stored + t.stats.writeErr + |AllIds(batches)|
      && r.stats.writeErr >= t.stats.writeErr
      && (r.stats.writeErr == t.stats.writeErr ==> forall id :: id in AllIds(batches) ==> id in r.rows)
    decreases batches
  {
    hide StoreIds;
    if batches != [] {
      var b := batches[0];
      var counted := t.(stats := t.stats.(pulled := t.stats.pulled + |b.ids|));
      StoreIdsFacts(counted, run, b.ids, b.start, b.end);
      var mid := StoreIds(counted, run, b.ids, b.start, b.end);
      StoreBatchesFacts(mid, run, batches[1..]);
      assert AllIds(batches) == b.ids + AllIds(batches[1..]);
      assert StoreBatches(t, run, batches) == StoreBatches(mid, run, batches[1..]);
      hide StoreBatches, AllIds;
    }
  }

  /** The counters of a run balance. */
  lemma PulledIsStoredOrFailed(st: State, run: Run, lookbackDays: int, force: bool)
    ensures
      var stats := RunOnce(st, run, lookbackDays, force).1;
      stats.pulled == stats.stored + stats.writeErr
  {
    StoreBatchesFacts(Tally(st.rows, NO_STATS), run, BatchesOf(st.cursor, run, lookbackDays, force).list);
  }

  /** The record's own time is in its detail, where it has one. */
  predicate TrueDetail(r: Resource, d: Detail, t: int) {
    match d
    case Info(_, _, _, _, time) => time == t
    case Malformed => r.Approvals? || t == 0
    case Unavailable => true
  }

  /** A detail leads to a row that queries find by the true time exactly when it states that time,
      is missing, or is a malformed approval. A malformed report detail loses the record's time. */
  lemma RowIsSoundExactly(run: Run, id: Id, s: int, e: int, t: int)
    requires s <= t < e
    ensures RowSound(RowFor(run, id, s, e), t) <==> TrueDetail(run.resource, run.detail(id, s, e), t)
  {
  }

  lemma MalformedReportIsMissed(run: Run, id: Id, s: int, e: int, t: int)
    requires run.resource.Reports? && run.detail(id, s, e).Malformed? && t != 0
    ensures !Matches(RowFor(run, id, s, e), t, t + 1)
  {
  }

  /** Whatever one run's upstream lists, in whichever call, it lists completely what was submitted before
      the run began; it may fail in any call, and show newer records in any. */
  ghost predicate HonestListing(run: Run, times: Times) {
    forall s, e :: Faithful(UpstreamFor(run, s, e), times, run.now)
  }

  ghost predicate HonestDetails(run: Run, times: Times) {
    forall id, s, e :: id in times ==> TrueDetail(run.resource, run.detail(id, s, e), times[id])
  }

  lemma RangesAreComplete(run: Run, times: Times)
    requires HonestListing(run, times)
    ensures CompleteFetch(Listing(run), times, run.now)
  {
    hide Complete, Faithful, SyncWindow;
    forall s, e | Listing(run)(s, e).Ok?
      ensures Complete(Listing(run)(s, e).value, times, s, e, run.now)
    {
      assert Faithful(UpstreamFor(run, s, e), times, run.now);
      RangeIsComplete(UpstreamFor(run, s, e), s, e, times, run.now);
    }
  }

  lemma {:induction false} StoreIdsSound(t: Tally, run: Run, ids: seq<Id>, s: int, e: int, times: Times)
    requires TableSound(t.rows, times) && HonestDetails(run, times)
    requires forall id :: id in ids ==> id in times && s <= times[id] < e
    ensures TableSound(StoreIds(t, run, ids, s, e).rows, times)
    decreases ids
  {
    if ids != [] {
      assert TrueDetail(run.resource, run.detail(ids[0], s, e), times[ids[0]]);
      StoreIdsSound(StoreOne(t, run, ids[0], s, e), run, ids[1..], s, e, times);
    }
  }

  lemma {:induction false} StoreBatchesSound(t: Tally, run: Run, batches: seq<Batch>, times: Times)
    requires TableSound(t.rows, times) && HonestDetails(run, times) && Placed(batches, times)
    ensures TableSound(StoreBatches(t, run, batches).rows, times)
    decreases batches
  {
    if batches != [] {
      var b := batches[0];
      var counted := t.(stats := t.stats.(pulled := t.stats.pulled + |b.ids|));
      StoreIdsSound(counted, run, b.ids, b.start, b.end, times);
      assert Placed(batches[1..], times) by {
        forall i, id | 0 <= i < |batches[1..]| && id in batches[1..][i].ids
          ensures id in times && batches[1..][i].start <= times[id] < batches[1..][i].end
        {
          assert id in batches[i + 1].ids;
        }
      }
      StoreBatchesSound(StoreIds(counted, run, b.ids, b.start, b.end), run, batches[1..], times);
    }
  }

  /** Any run, clean or not, forced or not, leaves every row findable by its record's true time. */
  lemma RunKeepsTableSound(st: State, run: Run, lookbackDays: int, force: bool, times: Times)
    requires TableSound(st.rows, times) && HonestListing(run, times) && HonestDetails(run, times)
    ensures TableSound(RunOnce(st, run, lookbackDays, force).0.rows, times)
  {
    hide Complete, Faithful, TableSound, HonestDetails, BoundedWindows;
    var w := WindowOf(st.cursor, run, lookbackDays, force);
    RangesAreComplete(run, times);
    BatchesArePlaced(Listing(run), w.0, w.1, MAX_DETAIL_PER_RUN, times, run.now);
    StoreBatchesSound(Tally(st.rows, NO_STATS), run, BatchesOf(st.cursor, run, lookbackDays, force).list, times);
  }

  /** Every record submitted in [lo, hi) is in the table. */
  ghost predicate Covered(rows: Rows, times: Times, lo: int, hi: int) {
    forall id :: id in times && lo <= times[id] < hi ==> id in rows
  }

  lemma RunsOnlyAddRows(st: State, run: Run, lookbackDays: int, force: bool)
    ensures st.rows.Keys <= RunOnce(st, run, lookbackDays, force).0.rows.Keys
  {
    StoreBatchesFacts(Tally(st.rows, NO_STATS), run, BatchesOf(st.cursor, run, lookbackDays, force).list);
  }

  /** A run that saves its cursor has stored its whole window, up to its own start. */
  lemma SavingRunCoversItsWindow(st: State, run: Run, lookbackDays: int, force: bool, times: Times)
    requires HonestListing(run, times) && Saves(st, run, lookbackDays, force)
    ensures
      var st' := RunOnce(st, run, lookbackDays, force).0;
      && Covered(st'.rows, times, WindowOf(st.cursor, run, lookbackDays, force).0, run.now)
      && st'.cursor == Decimal.Print(run.savedAt)
  {
    var w := WindowOf(st.cursor, run, lookbackDays, force);
    var batches := BatchesOf(st.cursor, run, lookbackDays, force);
    RangesAreComplete(run, times);
    BatchesAreTheRange(Listing(run), w.0, w.1, MAX_DETAIL_PER_RUN, times, run.now);
    StoreBatchesFacts(Tally(st.rows, NO_STATS), run, batches.list);
  }

  // ----- what one run does, exactly -----

  /** The row written for a record: its batch window and the run's clock always; its content where the
      detail came; and marked partial exactly where the detail is missing, or is a malformed approval. */
  lemma WrittenRowIsExact(run: Run, id: Id, s: int, e: int)
    ensures
      var d := run.detail(id, s, e);
      var row := RowFor(run, id, s, e);
      && row.windowStart == s && row.windowEnd == e && row.syncedAt == run.now
      && (row.partial <==> d == Unavailable || (d == Malformed && run.resource == Approvals))
      && (d.Info? ==> row.kind == d.kind && row.title == d.title && row.person == d.person
                      && row.detail == d.detail && row.time == d.time)
      && (!d.Info? ==> row.kind == row.title == row.person == row.detail == "" && row.time == 0)
  {
  }

  predicate SameRow(rows: Rows, rows': Rows, id: Id) {
    (id in rows <==> id in rows') && (id in rows ==> rows[id] == rows'[id])
  }

  /** A pulled record's row is written, unless its write fails or it would replace a complete row by a
      partial one. */
  predicate Written(rows: Rows, rows': Rows, run: Run, id: Id, s: int, e: int) {
    if run.writeFails(id, s, e) then SameRow(rows, rows', id)
    else
      id in rows' && rows'[id] == if id in rows && !rows[id].partial && RowFor(run, id, s, e).partial then rows[id]
                                  else RowFor(run, id, s, e)
  }

  lemma {:induction false} StoreIdsWrite(t: Tally, run: Run, ids: seq<Id>, s: int, e: int)
    requires NoDup(ids)
    ensures
      var r := StoreIds(t, run, ids, s, e);
      && (forall id :: id in ids ==> Written(t.rows, r.rows, run, id, s, e))
      && (forall id :: id !in ids ==> SameRow(t.rows, r.rows, id))
    decreases ids
  {
    if ids != [] {
      var one := StoreOne(t, run, ids[0], s, e);
      assert ids[0] !in ids[1..] by {
        assert forall i :: 0 < i < |ids| ==> ids[i] != ids[0];
      }
      assert Written(t.rows, one.rows, run, ids[0], s, e);
      assert forall id :: id != ids[0] ==> SameRow(t.rows, one.rows, id);
      StoreIdsWrite(one, run, ids[1..], s, e);
      var r := StoreIds(t, run, ids, s, e);
      assert r == StoreIds(one, run, ids[1..], s, e);
      hide RowFor, StoreOne, StoreIds;
      forall id | id in ids ensures Written(t.rows, r.rows, run, id, s, e) {
        if id == ids[0] {
          assert SameRow(one.rows, r.rows, id);
        } else {
          assert id in ids[1..] && SameRow(t.rows, one.rows, id);
        }
      }
      forall id | id !in ids ensures SameRow(t.rows, r.rows, id) {
        assert id !in ids[1..] && SameRow(t.rows, one.rows, id);
      }
    }
  }

  /** Every pulled record is written once, with its own batch window, and nothing else changes. */
  lemma {:induction false} StoreBatchesWrite(t: Tally, run: Run, batches: seq<Batch>)
    requires NoDup(AllIds(batches))
    ensures
      var r := StoreBatches(t, run, batches);
      && (forall b, id :: b in batches && id in b.ids ==> Written(t.rows, r.rows, run, id, b.start, b.end))
      && (forall id :: id !in AllIds(batches) ==> SameRow(t.rows, r.rows, id))
    decreases batches
  {
    hide RowFor, StoreIds;
    if batches != [] {
      var b, rest := batches[0], batches[1..];
      var counted := t.(stats := t.stats.(pulled := t.stats.pulled + |b.ids|));
      var mid := StoreIds(counted, run, b.ids, b.start, b.end);
      assert AllIds(batches) == b.ids + AllIds(rest);
      NoDupParts(b.ids, AllIds(rest));
      StoreIdsWrite(counted, run, b.ids, b.start, b.end);
      StoreBatchesWrite(mid, run, rest);
      var r := StoreBatches(t, run, batches);
      assert r == StoreBatches(mid, run, rest);
      hide StoreBatches, AllIds;
      forall b', id | b' in batches && id in b'.ids ensures Written(t.rows, r.rows, run, id, b'.start, b'.end) {
        if b' in rest {
          InSomeBatch(rest, b', id);
        } else {
          assert b' == b;
        }
      }
    }
  }

  lemma NoDupParts(a: seq<Id>, b: seq<Id>)
    requires NoDup(a + b)
    ensures NoDup(a) && NoDup(b) && forall id :: id in a ==> id !in b
  {
    var all := a + b;
    assert forall i :: 0 <= i < |a| ==> all[i] == a[i];
    assert forall i :: 0 <= i < |b| ==> all[|a| + i] == b[i];
  }

  lemma InSomeBatch(batches: seq<Batch>, b: Batch, id: Id)
    requires b in batches && id in b.ids
    ensures id in AllIds(batches)
  {
    hide AllIds;
    var i :| 0 <= i < |batches| && batches[i] == b;
    InAllIds(batches, i, id);
  }

  /** How many of these ids had a detail that counts as missing, and how many writes failed. */
  function Missing(run: Run, ids: seq<Id>, s: int, e: int): nat {
    if ids == [] then 0
    else
      var d := run.detail(ids[0], s, e);
      Missing(run, ids[1..], s, e) + if d == Unavailable || (d == Malformed && run.resource == Approvals) then 1 else 0
  }

  function FailedWrites(run: Run, ids: seq<Id>, s: int, e: int): nat {
    if ids == [] then 0 else FailedWrites(run, ids[1..], s, e) + if run.writeFails(ids[0], s, e) then 1 else 0
  }

  function AllMissing(run: Run, batches: seq<Batch>): nat {
    if batches == [] then 0
    else Missing(run, batches[0].ids, batches[0].start, batches[0].end) + AllMissing(run, batches[1..])
  }

  function AllFailedWrites(run: Run, batches: seq<Batch>): nat {
    if batches == [] then 0
    else FailedWrites(run, batches[0].ids, batches[0].start, batches[0].end) + AllFailedWrites(run, batches[1..])
  }

  lemma {:induction false} StoreIdsCount(t: Tally, run: Run, ids: seq<Id>, s: int, e: int)
    ensures
      var r := StoreIds(t, run, ids, s, e).stats;
      && r.err == t.stats.err + Missing(run, ids, s, e) && r.writeErr == t.stats.writeErr + FailedWrites(run, ids, s, e)
      && r.failed == t.stats.failed
    decreases ids
  {
    hide RowFor;
    if ids != [] {
      StoreIdsCount(StoreOne(t, run, ids[0], s, e), run, ids[1..], s, e);
    }
  }

  lemma {:induction false} StoreBatchesCount(t: Tally, run: Run, batches: seq<Batch>)
    ensures
      var r := StoreBatches(t, run, batches).stats;
      && r.err == t.stats.err + AllMissing(run, batches)
      && r.writeErr == t.stats.writeErr + AllFailedWrites(run, batches)
      && r.failed == t.stats.failed
    decreases batches
  {
    hide StoreIds, Missing, FailedWrites;
    if batches != [] {
      var b := batches[0];
      var counted := t.(stats := t.stats.(pulled := t.stats.pulled + |b.ids|));
      StoreIdsCount(counted, run, b.ids, b.start, b.end);
      StoreBatchesCount(StoreIds(counted, run, b.ids, b.start, b.end), run, batches[1..]);
    }
  }

  /** The ranges a run lists, and what it makes of them. */
  function RangesOf(cursor: string, run: Run, lookbackDays: int, force: bool): seq<(int, int)> {
    var w := WindowOf(cursor, run, lookbackDays, force);
    AskedRanges(Listing(run), w.0, w.1, 500)
  }

  /** A run that could not begin changes nothing and reports failure. Any other counts what it pulled,
      missed and could not write; it reports failure exactly when its last listing failed, or when all was
      written and the cursor could not be saved; and it saves the cursor exactly when nothing failed. */
  lemma RunsEndExactly(st: State, run: Run, lookbackDays: int, force: bool)
    ensures
      var (st', stats) := RunOnce(st, run, lookbackDays, force);
      var batches := BatchesOf(st.cursor, run, lookbackDays, force).list;
      var listed := LastError(Listing(run), RangesOf(st.cursor, run, lookbackDays, force)) == None;
      if (run.readFails && !force) || !run.hasSecret then st' == st && stats == Stats(0, 0, 0, 0, true)
      else
        && stats.pulled == |AllIds(batches)| && stats.err == AllMissing(run, batches)
        && stats.writeErr == AllFailedWrites(run, batches) && stats.stored == stats.pulled - stats.writeErr
        && (stats.failed <==> !listed || (stats.writeErr == 0 && run.saveFails))
        && st'.cursor == if listed && stats.writeErr == 0 && !run.saveFails then Decimal.Print(run.savedAt)
                         else st.cursor
    ensures
      Saves(st, run, lookbackDays, force) <==>
      && (force || !run.readFails) && run.hasSecret && !run.saveFails
      && LastError(Listing(run), RangesOf(st.cursor, run, lookbackDays, force)) == None
      && AllFailedWrites(run, BatchesOf(st.cursor, run, lookbackDays, force).list) == 0
  {
    hide BoundedWindows, AskedRanges, AllMissing, AllFailedWrites, StoreBatches, AllIds, LastError, OthersAnswer;
    hide Window;
    var w := WindowOf(st.cursor, run, lookbackDays, force);
    var batches := BatchesOf(st.cursor, run, lookbackDays, force);
    BisectionFailsExactly(Listing(run), w.0, w.1, 500);
    StoreBatchesFacts(Tally(st.rows, NO_STATS), run, batches.list);
    StoreBatchesCount(Tally(st.rows, NO_STATS), run, batches.list);
  }

  lemma {:induction false} NoFailedWrites(run: Run, ids: seq<Id>, s: int, e: int)
    requires forall id, a, b :: !run.writeFails(id, a, b)
    ensures FailedWrites(run, ids, s, e) == 0
  {
    if ids != [] {
      NoFailedWrites(run, ids[1..], s, e);
    }
  }

  lemma {:induction false} NoFailedWritesAtAll(run: Run, batches: seq<Batch>)
    requires forall id, a, b :: !run.writeFails(id, a, b)
    ensures AllFailedWrites(run, batches) == 0
  {
    hide FailedWrites;
    if batches != [] {
      NoFailedWrites(run, batches[0].ids, batches[0].start, batches[0].end);
      NoFailedWritesAtAll(run, batches[1..]);
    }
  }

  /** A run that can begin, and in which no listing, no write and not the saving fails, saves its cursor
      and has pulled and stored every record it listed. */
  lemma CleanRunsSave(st: State, run: Run, lookbackDays: int, force: bool)
    requires (force || !run.readFails) && run.hasSecret && !run.saveFails
    requires
      var w := WindowOf(st.cursor, run, lookbackDays, force);
      forall a, b :: w.0 <= a <= b <= w.1 ==> Listing(run)(a, b).Ok?
    requires forall id, a, b :: !run.writeFails(id, a, b)
    ensures
      var (st', stats) := RunOnce(st, run, lookbackDays, force);
      var listed := AllIds(BatchesOf(st.cursor, run, lookbackDays, force).list);
      && ReadCursor(st'.cursor) == Some(run.savedAt)
      && !stats.failed && stats.pulled == stats.stored == |listed| && stats.writeErr == 0
    ensures !BatchesOf(st.cursor, run, lookbackDays, force).failed
  {
    hide BoundedWindows, AskedRanges, AllMissing, AllFailedWrites, RunOnce, AllIds, LastError, OthersAnswer, ReadCursor;
    var w := WindowOf(st.cursor, run, lookbackDays, force);
    assert w.0 <= w.1 by { WindowIsForward(run.now, st.cursor, lookbackDays, force); }
    BisectionSucceeds(Listing(run), w.0, w.1, 500);
    BisectionFailsExactly(Listing(run), w.0, w.1, 500);
    RunsEndExactly(st, run, lookbackDays, force);
    NoFailedWritesAtAll(run, BatchesOf(st.cursor, run, lookbackDays, force).list);
    SavedCursorIsReadBack(run.savedAt);
  }

  lemma WindowIsForward(now: int, cursor: string, lookbackDays: int, force: bool)
    ensures var w := Window(now, cursor, lookbackDays, force); w.0 < w.1
  {
    hide ReadCursor;
  }

  /** What a run does to the table: each record of its batches is written as its detail says, with its own
      batch window, and every other row stays. */
  lemma RunsWriteExactly(st: State, run: Run, lookbackDays: int, force: bool)
    requires (force || !run.readFails) && run.hasSecret
    requires NoDup(AllIds(BatchesOf(st.cursor, run, lookbackDays, force).list))
    ensures
      var rows := RunOnce(st, run, lookbackDays, force).0.rows;
      var batches := BatchesOf(st.cursor, run, lookbackDays, force).list;
      && (forall b, id :: b in batches && id in b.ids ==> Written(st.rows, rows, run, id, b.start, b.end))
      && (forall id :: id !in AllIds(batches) ==> SameRow(st.rows, rows, id))
  {
    hide BatchesOf, StoreBatches, Written, AllIds, SameRow, NoDup;
    StoreBatchesWrite(Tally(st.rows, NO_STATS), run, BatchesOf(st.cursor, run, lookbackDays, force).list);
  }

  // ----- any sequence of runs -----

  /** One scheduled attempt; it does nothing where the sync lock is taken or the mode is direct. */
  datatype Attempt = Attempt(run: Run, acquired: bool)

  function Step(st: State, a: Attempt, lookbackDays: int): State {
    if a.acquired then RunOnce(st, a.run, lookbackDays, false).0 else st
  }

  predicate StepSaves(st: State, a: Attempt, lookbackDays: int) {
    a.acquired && Saves(st, a.run, lookbackDays, false)
  }

  /** From the window start of the first saving run to the start of the latest one. */
  datatype Span = Span(lo: int, hi: int)

  datatype Trace = Trace(st: State, span: Option<Span>)

  function Advance(t: Trace, a: Attempt, lookbackDays: int): Trace {
    Trace(
      Step(t.st, a, lookbackDays),
      if !StepSaves(t.st, a, lookbackDays) then t.span
      else if t.span.Some? then Some(Span(t.span.value.lo, a.run.now))
      else Some(Span(WindowOf(t.st.cursor, a.run, lookbackDays, false).0, a.run.now)))
  }

  function RunAll(t: Trace, attempts: seq<Attempt>, lookbackDays: int): Trace {
    if attempts == [] then t
    else Advance(RunAll(t, attempts[..|attempts| - 1], lookbackDays), attempts[|attempts| - 1], lookbackDays)
  }

  /** Runs follow one another and take at most a day each. */
  ghost predicate Timely(attempts: seq<Attempt>) {
    && (forall i :: 0 <= i < |attempts| ==>
          attempts[i].run.now <= attempts[i].run.savedAt <= attempts[i].run.now + DAY)
    && (forall i, j :: 0 <= i < j < |attempts| ==> attempts[i].run.savedAt <= attempts[j].run.now)
  }

  /** The cursor trails the latest saving run by less than the day that every window reaches back. */
  ghost predicate CursorTrails(t: Trace, clock: int) {
    t.span.Some? ==>
      var c := ReadCursor(t.st.cursor);
      c.Some? && c.value <= clock && c.value - DAY <= t.span.value.hi
  }

  lemma AdvanceKeepsCoverage(t: Trace, a: Attempt, lookbackDays: int, times: Times, clock: int)
    requires HonestListing(a.run, times) && clock <= a.run.now <= a.run.savedAt <= a.run.now + DAY
    requires CursorTrails(t, clock)
    requires t.span.Some? ==> Covered(t.st.rows, times, t.span.value.lo, t.span.value.hi)
    ensures
      var t' := Advance(t, a, lookbackDays);
      && CursorTrails(t', a.run.savedAt)
      && (t'.span.Some? ==> Covered(t'.st.rows, times, t'.span.value.lo, t'.span.value.hi))
  {
    RunsOnlyAddRows(t.st, a.run, lookbackDays, false);
    if StepSaves(t.st, a, lookbackDays) {
      SavingRunCoversItsWindow(t.st, a.run, lookbackDays, false, times);
      SavedCursorIsReadBack(a.run.savedAt);
      IncrementalWindow(a.run.now, t.st.cursor, lookbackDays);
    } else {
      assert t.span.Some? ==> Advance(t, a, lookbackDays).st.cursor == t.st.cursor;
    }
  }

  lemma {:induction false} RunAllKeepsCoverage(st: State, attempts: seq<Attempt>, lookbackDays: int, times: Times)
    requires Timely(attempts) && forall a :: a in attempts ==> HonestListing(a.run, times)
    ensures
      var t := RunAll(Trace(st, None), attempts, lookbackDays);
      && (attempts != [] ==> CursorTrails(t, attempts[|attempts| - 1].run.savedAt))
      && (t.span.Some? ==> Covered(t.st.rows, times, t.span.value.lo, t.span.value.hi))
      && (attempts == [] ==> t.span.None?)
  {
    if attempts != [] {
      var n := |attempts| - 1;
      var before, a := attempts[..n], attempts[n];
      assert forall x :: x in before ==> x in attempts;
      RunAllKeepsCoverage(st, before, lookbackDays, times);
      var t := RunAll(Trace(st, None), before, lookbackDays);
      var clock := if n > 0 then attempts[n - 1].run.savedAt else a.run.now;
      AdvanceKeepsCoverage(t, a, lookbackDays, times, clock);
    }
  }

  /** When the first attempt that saved its cursor began. */
  function FirstSave(st: State, attempts: seq<Attempt>, lookbackDays: int): Option<int> {
    if attempts == [] then None
    else
      var front, last := attempts[..|attempts| - 1], attempts[|attempts| - 1];
      var earlier := FirstSave(st, front, lookbackDays);
      if earlier.Some? then earlier
      else if StepSaves(RunAll(Trace(st, None), front, lookbackDays).st, last, lookbackDays) then Some(last.run.now)
      else None
  }

  /** Until a run saves it, the cursor stays; so the synced span starts at that run's window. */
  lemma {:induction false} SpanStartsAtTheFirstSave(st: State, attempts: seq<Attempt>, lookbackDays: int)
    ensures
      var t, first := RunAll(Trace(st, None), attempts, lookbackDays), FirstSave(st, attempts, lookbackDays);
      && (first.None? <==> t.span.None?)
      && (first.None? ==> t.st.cursor == st.cursor)
      && (first.Some? ==> t.span.value.lo == Window(first.value, st.cursor, lookbackDays, false).0)
  {
    hide Window, BatchesOf, StoreBatches;
    if attempts != [] {
      SpanStartsAtTheFirstSave(st, attempts[..|attempts| - 1], lookbackDays);
    }
  }

  /** A window that starts at `now1` reaches back as far as one that starts at `now0` would have. */
  predicate StartIsKept(cursor: string, now0: int, now1: int) {
    now0 == now1 || (ReadCursor(cursor).Some? && ReadCursor(cursor).value <= now0)
  }

  lemma KeptStart(cursor: string, lookbackDays: int, now0: int, now1: int)
    requires now0 <= now1
    ensures Window(now0, cursor, lookbackDays, false).0 == Window(now1, cursor, lookbackDays, false).0
            <==> StartIsKept(cursor, now0, now1)
  {
    IncrementalWindow(now0, cursor, lookbackDays);
    IncrementalWindow(now1, cursor, lookbackDays);
  }

  function FirstStart(st: State, attempts: seq<Attempt>, lookbackDays: int): int
    requires attempts != []
  {
    Window(attempts[0].run.now, st.cursor, lookbackDays, false).0
  }

  /** The first attempt's window start counts: the cursor was readable then and not ahead of the
      clock, or a run begun in the same second saved it. */
  predicate FirstStartCounts(st: State, attempts: seq<Attempt>, lookbackDays: int)
    requires attempts != []
  {
    var first := FirstSave(st, attempts, lookbackDays);
    first.Some? && StartIsKept(st.cursor, attempts[0].run.now, first.value)
  }

  lemma {:induction false} FirstSaveIsAnAttempt(st: State, attempts: seq<Attempt>, lookbackDays: int)
    ensures FirstSave(st, attempts, lookbackDays).Some? ==>
      exists i :: 0 <= i < |attempts| && attempts[i].run.now == FirstSave(st, attempts, lookbackDays).value
  {
    hide RunAll, StepSaves;
    if attempts != [] {
      var n := |attempts| - 1;
      FirstSaveIsAnAttempt(st, attempts[..n], lookbackDays);
      if FirstSave(st, attempts[..n], lookbackDays).Some? {
        var i :| 0 <= i < n && attempts[..n][i].run.now == FirstSave(st, attempts[..n], lookbackDays).value;
        assert attempts[i].run.now == FirstSave(st, attempts, lookbackDays).value;
      } else if FirstSave(st, attempts, lookbackDays).Some? {
        assert attempts[n].run.now == FirstSave(st, attempts, lookbackDays).value;
      }
    }
  }

  lemma FirstStartIsTheSpan(st: State, attempts: seq<Attempt>, lookbackDays: int)
    requires attempts != [] && Timely(attempts) && FirstSave(st, attempts, lookbackDays).Some?
    ensures RunAll(Trace(st, None), attempts, lookbackDays).span.Some?
    ensures FirstStart(st, attempts, lookbackDays) == RunAll(Trace(st, None), attempts, lookbackDays).span.value.lo
            <==> FirstStartCounts(st, attempts, lookbackDays)
  {
    hide Window, RunAll, StartIsKept, FirstSave;
    SpanStartsAtTheFirstSave(st, attempts, lookbackDays);
    FirstSaveIsAnAttempt(st, attempts, lookbackDays);
    var i :| 0 <= i < |attempts| && attempts[i].run.now == FirstSave(st, attempts, lookbackDays).value;
    assert attempts[0].run.now <= attempts[0].run.savedAt && (0 < i ==> attempts[0].run.savedAt <= attempts[i].run.now);
    KeptStart(st.cursor, lookbackDays, attempts[0].run.now, attempts[i].run.now);
  }

  /** Nothing is lost: over any non-forced runs, failing anywhere, every record submitted between the
      first window start and the start of the latest run that saved the cursor is stored. The start is
      the first attempt's where that counts, and in any case the first saving run's. */
  lemma NothingIsLost(st: State, attempts: seq<Attempt>, lookbackDays: int, times: Times, id: Id)
    requires Timely(attempts) && attempts != [] && forall a :: a in attempts ==> HonestListing(a.run, times)
    requires id in times
    ensures
      var t := RunAll(Trace(st, None), attempts, lookbackDays);
      t.span.Some? && times[id] < t.span.value.hi
      && (t.span.value.lo <= times[id]
          || (FirstStartCounts(st, attempts, lookbackDays) && FirstStart(st, attempts, lookbackDays) <= times[id]))
      ==> id in t.st.rows
  {
    hide RunAll, FirstStart, FirstSave, HonestListing, Timely;
    RunAllKeepsCoverage(st, attempts, lookbackDays, times);
    if FirstStartCounts(st, attempts, lookbackDays) {
      FirstStartIsTheSpan(st, attempts, lookbackDays);
    }
  }

  lemma {:induction false} RunAllKeepsTableSound(st: State, attempts: seq<Attempt>, lookbackDays: int, times: Times)
    requires TableSound(st.rows, times)
    requires forall a :: a in attempts ==> HonestListing(a.run, times) && HonestDetails(a.run, times)
    ensures TableSound(RunAll(Trace(st, None), attempts, lookbackDays).st.rows, times)
  {
    if attempts != [] {
      var n := |attempts| - 1;
      var before := attempts[..n];
      assert forall x :: x in before ==> x in attempts;
      RunAllKeepsTableSound(st, before, lookbackDays, times);
      RunKeepsTableSound(RunAll(Trace(st, None), before, lookbackDays).st, attempts[n].run, lookbackDays, false, times);
    }
  }

  /** End to end: such a record is in the answer of every window query that contains its time, though
      its detail may have failed, unless rows at least as new fill the answer. */
  lemma SyncedRecordIsFound(
    st: State, attempts: seq<Attempt>, lookbackDays: int, times: Times, id: Id,
    s: int, e: int, n: nat, answer: seq<Id>)
    requires Timely(attempts) && attempts != [] && TableSound(st.rows, times) && id in times && s <= times[id] < e
    requires forall a :: a in attempts ==> HonestListing(a.run, times) && HonestDetails(a.run, times)
    requires
      var t := RunAll(Trace(st, None), attempts, lookbackDays);
      && t.span.Some? && times[id] < t.span.value.hi
      && (t.span.value.lo <= times[id]
          || (FirstStartCounts(st, attempts, lookbackDays) && FirstStart(st, attempts, lookbackDays) <= times[id]))
      && IsAnswer(t.st.rows, s, e, n, answer)
    ensures
      var rows := RunAll(Trace(st, None), attempts, lookbackDays).st.rows;
      || id in answer
      || (|answer| == n && forall k :: k in answer ==> k in rows && SortKey(rows[k]) >= times[id])
  {
    hide RunAll, FirstStart, FirstStartCounts, HonestListing, HonestDetails, Timely;
    RunAllKeepsTableSound(st, attempts, lookbackDays, times);
    NothingIsLost(st, attempts, lookbackDays, times, id);
    StoredRecordIsFound(RunAll(Trace(st, None), attempts, lookbackDays).st.rows, times, id, s, e, n, answer);
  }
}
