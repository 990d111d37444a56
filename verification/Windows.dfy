/** The sync window of a run, and its bisection into batches of bounded size. */
module Windows {
  import opened Common
  import opened Paging
  import Decimal

  const MAX_DETAIL_PER_RUN: nat := 500
  const MIN_WINDOW_SECONDS: int := 60
  const HOUR: int := 3600

  datatype Batch = Batch(start: int, end: int, ids: seq<Id>)

  /** The batches handed out, and whether a listing then failed. */
  datatype Batches = Batches(list: seq<Batch>, failed: bool)

  function Chunks(s: int, e: int, ids: seq<Id>, limit: nat): seq<Batch>
    requires limit > 0
  {
    if ids == [] then []
    else
      var n := if |ids| < limit then |ids| else limit;
      [Batch(s, e, ids[..n])] + Chunks(s, e, ids[n..], limit)
  }

  function Midpoint(s: int, e: int): int { s + (e - s) / 2 }

  predicate IsLeaf(s: int, e: int, items: seq<Id>, limit: nat) {
    |items| <= limit || e - s <= MIN_WINDOW_SECONDS
  }

  function BoundedWindows(fetch: Fetch, s: int, e: int, limit: nat): Batches
    requires limit > 0
    decreases e - s
  {
    match fetch(s, e)
    case Err(_) => Batches([], true)
    case Ok(items) =>
      if |items| <= limit then Batches([Batch(s, e, items)], false)
      else if e - s <= MIN_WINDOW_SECONDS then Batches(Chunks(s, e, items, limit), false)
      else
        var left := BoundedWindows(fetch, s, Midpoint(s, e), limit);
        if left.failed then left
        else
          var right := BoundedWindows(fetch, Midpoint(s, e), e, limit);
          Batches(left.list + right.list, right.failed)
  }

  function AllIds(batches: seq<Batch>): seq<Id> {
    if batches == [] then [] else batches[0].ids + AllIds(batches[1..])
  }

  lemma {:induction false} AllIdsJoin(a: seq<Batch>, b: seq<Batch>)
    ensures AllIds(a + b) == AllIds(a) + AllIds(b)
  {
    if a == [] {
      assert a + b == b;
    } else {
      AllIdsJoin(a[1..], b);
      assert (a + b)[1..] == a[1..] + b && (a + b)[0] == a[0];
      assert a[0].ids + (AllIds(a[1..]) + AllIds(b)) == (a[0].ids + AllIds(a[1..])) + AllIds(b);
    }
  }

  lemma {:induction false} InAllIds(batches: seq<Batch>, i: nat, id: Id)
    requires i < |batches| && id in batches[i].ids
    ensures id in AllIds(batches)
  {
    if i > 0 {
      InAllIds(batches[1..], i - 1, id);
    }
  }

  /** Windows that meet end to end, or repeat one leaf after a full batch, from `s` to `e`; none over the
      limit. */
  ghost predicate Tiles(batches: seq<Batch>, s: int, e: int, limit: nat) {
    && batches != []
    && batches[0].start == s && batches[|batches| - 1].end == e
    && (forall i :: 0 <= i < |batches| ==> |batches[i].ids| <= limit)
    && (forall i :: 0 <= i < |batches| - 1 ==> Follows(batches[i], batches[i + 1], limit))
  }

  ghost predicate Follows(a: Batch, b: Batch, limit: nat) {
    b.start == a.end || (b.start == a.start && b.end == a.end && |a.ids| == limit)
  }

  /** The chunks of a leaf are full, but for the last. */
  lemma {:induction false} ChunksAreFull(s: int, e: int, ids: seq<Id>, limit: nat, i: nat)
    requires limit > 0 && i < |Chunks(s, e, ids, limit)|
    ensures Chunks(s, e, ids, limit)[i].ids != []
    ensures i < |Chunks(s, e, ids, limit)| - 1 ==> |Chunks(s, e, ids, limit)[i].ids| == limit
  {
    var n := if |ids| < limit then |ids| else limit;
    var rest := Chunks(s, e, ids[n..], limit);
    assert Chunks(s, e, ids, limit) == [Batch(s, e, ids[..n])] + rest;
    if i > 0 {
      ChunksAreFull(s, e, ids[n..], limit, i - 1);
    } else if n == |ids| {
      assert ids[n..] == [];
    }
  }

  lemma {:induction false} ChunksListTheLeaf(s: int, e: int, ids: seq<Id>, limit: nat)
    requires limit > 0
    ensures AllIds(Chunks(s, e, ids, limit)) == ids
  {
    if ids != [] {
      var n := if |ids| < limit then |ids| else limit;
      ChunksListTheLeaf(s, e, ids[n..], limit);
      assert Chunks(s, e, ids, limit)[1..] == Chunks(s, e, ids[n..], limit);
      assert ids[..n] + ids[n..] == ids;
    }
  }

  lemma {:induction false} ChunksTileTheLeaf(s: int, e: int, ids: seq<Id>, limit: nat)
    requires limit > 0
    ensures forall b :: b in Chunks(s, e, ids, limit) ==> b.start == s && b.end == e
    ensures ids != [] ==> Tiles(Chunks(s, e, ids, limit), s, e, limit)
  {
    if ids != [] {
      var n := if |ids| < limit then |ids| else limit;
      var head, rest := Batch(s, e, ids[..n]), Chunks(s, e, ids[n..], limit);
      ChunksTileTheLeaf(s, e, ids[n..], limit);
      var all := Chunks(s, e, ids, limit);
      assert all == [head] + rest;
      forall i | 0 <= i < |all| - 1
        ensures Follows(all[i], all[i + 1], limit)
      {
        assert all[i] in all && rest[i] in rest;
        ChunksAreFull(s, e, ids, limit, i);
      }
    }
  }

  lemma TilesJoin(a: seq<Batch>, b: seq<Batch>, s: int, m: int, e: int, limit: nat)
    requires Tiles(a, s, m, limit) && Tiles(b, m, e, limit)
    ensures Tiles(a + b, s, e, limit)
  {
    var all := a + b;
    forall i | 0 <= i < |all| - 1
      ensures Follows(all[i], all[i + 1], limit)
    {
      if i < |a| - 1 {
        assert Follows(a[i], a[i + 1], limit);
      } else if i >= |a| {
        assert Follows(b[i - |a|], b[i - |a| + 1], limit);
      }
    }
  }

  /** A range that is listed without failure is covered end to end, in batches of bounded size. */
  lemma {:induction false} BatchesTileTheRange(fetch: Fetch, s: int, e: int, limit: nat)
    requires limit > 0 && !BoundedWindows(fetch, s, e, limit).failed
    ensures Tiles(BoundedWindows(fetch, s, e, limit).list, s, e, limit)
    decreases e - s
  {
    var items := fetch(s, e).value;
    if |items| > limit {
      if e - s <= MIN_WINDOW_SECONDS {
        ChunksTileTheLeaf(s, e, items, limit);
      } else {
        BatchesTileTheRange(fetch, s, Midpoint(s, e), limit);
        BatchesTileTheRange(fetch, Midpoint(s, e), e, limit);
        TilesJoin(BoundedWindows(fetch, s, Midpoint(s, e), limit).list,
                  BoundedWindows(fetch, Midpoint(s, e), e, limit).list, s, Midpoint(s, e), e, limit);
      }
    }
  }

  ghost predicate CompleteFetch(fetch: Fetch, times: Times, now: int) {
    forall s, e :: fetch(s, e).Ok? ==> Complete(fetch(s, e).value, times, s, e, now)
  }

  /** Every id lies in the window of the batch that carries it, whether or not a later listing fails. */
  ghost predicate Placed(batches: seq<Batch>, times: Times) {
    forall i, id :: 0 <= i < |batches| && id in batches[i].ids ==>
      id in times && batches[i].start <= times[id] < batches[i].end
  }

  /** A batch of a leaf has the leaf's window, and only ids of the leaf. */
  lemma LeafBatch(s: int, e: int, items: seq<Id>, limit: nat, b: Batch)
    requires limit > 0 && b in Chunks(s, e, items, limit)
    ensures b.start == s && b.end == e && forall id :: id in b.ids ==> id in items
  {
    hide Tiles, Chunks, AllIds;
    ChunksTileTheLeaf(s, e, items, limit);
    ChunksListTheLeaf(s, e, items, limit);
    var chunks := Chunks(s, e, items, limit);
    var i :| 0 <= i < |chunks| && chunks[i] == b;
    forall id | id in b.ids ensures id in items {
      InAllIds(chunks, i, id);
    }
  }

  lemma LeafIsPlaced(s: int, e: int, items: seq<Id>, limit: nat, times: Times, now: int)
    requires limit > 0 && Complete(items, times, s, e, now)
    ensures Placed(Chunks(s, e, items, limit), times)
  {
    hide NoDup, Chunks;
    var chunks := Chunks(s, e, items, limit);
    forall i, id | 0 <= i < |chunks| && id in chunks[i].ids
      ensures id in times && chunks[i].start <= times[id] < chunks[i].end
    {
      LeafBatch(s, e, items, limit, chunks[i]);
    }
  }

  lemma {:induction false} BatchesArePlaced(fetch: Fetch, s: int, e: int, limit: nat, times: Times, now: int)
    requires limit > 0 && CompleteFetch(fetch, times, now)
    ensures Placed(BoundedWindows(fetch, s, e, limit).list, times)
    decreases e - s
  {
    hide NoDup;
    if fetch(s, e).Ok? {
      var items := fetch(s, e).value;
      assert Complete(items, times, s, e, now);
      if |items| > limit {
        if e - s <= MIN_WINDOW_SECONDS {
          LeafIsPlaced(s, e, items, limit, times, now);
        } else {
          BatchesArePlaced(fetch, s, Midpoint(s, e), limit, times, now);
          BatchesArePlaced(fetch, Midpoint(s, e), e, limit, times, now);
        }
      }
    }
  }

  lemma CompleteJoin(a: seq<Id>, b: seq<Id>, times: Times, s: int, m: int, e: int, now: int)
    requires s <= m <= e && Complete(a, times, s, m, now) && Complete(b, times, m, e, now)
    ensures Complete(a + b, times, s, e, now)
  {
    NoDupJoin(a, b);
  }

  /** The batches together list the whole range: no id missing, none twice. */
  lemma {:induction false} BatchesAreTheRange(fetch: Fetch, s: int, e: int, limit: nat, times: Times, now: int)
    requires limit > 0 && CompleteFetch(fetch, times, now)
    requires !BoundedWindows(fetch, s, e, limit).failed
    ensures Complete(AllIds(BoundedWindows(fetch, s, e, limit).list), times, s, e, now)
    decreases e - s
  {
    hide NoDup, Complete;
    var items := fetch(s, e).value;
    if |items| <= limit {
      assert AllIds([Batch(s, e, items)]) == items + AllIds([]) == items;
    } else if e - s <= MIN_WINDOW_SECONDS {
      ChunksListTheLeaf(s, e, items, limit);
    } else {
      var m := Midpoint(s, e);
      BatchesAreTheRange(fetch, s, m, limit, times, now);
      BatchesAreTheRange(fetch, m, e, limit, times, now);
      var left, right := BoundedWindows(fetch, s, m, limit).list, BoundedWindows(fetch, m, e, limit).list;
      CompleteJoin(AllIds(left), AllIds(right), times, s, m, e, now);
      AllIdsJoin(left, right);
    }
  }

  /** How deep the recursion goes. */
  function Depth(fetch: Fetch, s: int, e: int, limit: nat): nat
    requires limit > 0
    decreases e - s
  {
    match fetch(s, e)
    case Err(_) => 0
    case Ok(items) =>
      if IsLeaf(s, e, items, limit) then 0
      else
        var m := Midpoint(s, e);
        var left, right := Depth(fetch, s, m, limit), Depth(fetch, m, e, limit);
        1 + if left > right then left else right
  }

  /** The ranges a bisection lists, in order. */
  function AskedRanges(fetch: Fetch, s: int, e: int, limit: nat): seq<(int, int)>
    requires limit > 0
    decreases e - s
  {
    match fetch(s, e)
    case Err(_) => [(s, e)]
    case Ok(items) =>
      if IsLeaf(s, e, items, limit) then [(s, e)]
      else
        var m := Midpoint(s, e);
        [(s, e)] + AskedRanges(fetch, s, m, limit)
        + if BoundedWindows(fetch, s, m, limit).failed then [] else AskedRanges(fetch, m, e, limit)
  }

  /** No range is listed twice, so what a listing returns may depend on the range it is for. */
  lemma {:induction false} NoRangeIsListedTwice(fetch: Fetch, s: int, e: int, limit: nat)
    requires limit > 0
    ensures NoDup(AskedRanges(fetch, s, e, limit)) && Within(AskedRanges(fetch, s, e, limit), s, e)
    decreases e - s
  {
    OneIsDistinct((s, e));
    NoneAreDistinct<(int, int)>();
    hide NoDup;
    if fetch(s, e).Ok? && !IsLeaf(s, e, fetch(s, e).value, limit) {
      var m := Midpoint(s, e);
      NoRangeIsListedTwice(fetch, s, m, limit);
      NoRangeIsListedTwice(fetch, m, e, limit);
      var right := if BoundedWindows(fetch, s, m, limit).failed then [] else AskedRanges(fetch, m, e, limit);
      HalvesAreDistinct(AskedRanges(fetch, s, m, limit), right, s, m, e);
    }
  }

  // ----- when a bisection succeeds, and where it cuts -----

  /** A bisection fails exactly when the last range it lists answers with an error; all before it do not. */
  lemma {:induction false} BisectionFailsExactly(fetch: Fetch, s: int, e: int, limit: nat)
    requires limit > 0
    ensures AskedRanges(fetch, s, e, limit) != [] && AskedRanges(fetch, s, e, limit)[0] == (s, e)
    ensures BoundedWindows(fetch, s, e, limit).failed <==> LastError(fetch, AskedRanges(fetch, s, e, limit)).Some?
    ensures OthersAnswer(fetch, AskedRanges(fetch, s, e, limit))
    decreases e - s
  {
    if fetch(s, e).Ok? && !IsLeaf(s, e, fetch(s, e).value, limit) {
      var m := Midpoint(s, e);
      BisectionFailsExactly(fetch, s, m, limit);
      BisectionFailsExactly(fetch, m, e, limit);
      var left := AskedRanges(fetch, s, m, limit);
      var right := if BoundedWindows(fetch, s, m, limit).failed then [] else AskedRanges(fetch, m, e, limit);
      hide LastError, OthersAnswer;
      OneAnswers(fetch, s, e);
      AnswersJoin(fetch, [(s, e)], left);
      AnswersJoin(fetch, [(s, e)] + left, right);
    }
  }

  /** So it succeeds where no listing inside the range fails. */
  lemma BisectionSucceeds(fetch: Fetch, s: int, e: int, limit: nat)
    requires limit > 0 && s <= e && forall a, b :: s <= a <= b <= e ==> fetch(a, b).Ok?
    ensures !BoundedWindows(fetch, s, e, limit).failed
  {
    hide BoundedWindows, AskedRanges, NoDup;
    BisectionFailsExactly(fetch, s, e, limit);
    NoRangeIsListedTwice(fetch, s, e, limit);
    var asked := AskedRanges(fetch, s, e, limit);
    assert asked[|asked| - 1] == (s, e) || asked[|asked| - 1].0 < asked[|asked| - 1].1;
  }

  /** A half of a range that listed more than `limit` ids over more than a minute. */
  ghost predicate IsHalf(fetch: Fetch, a: int, b: int, limit: nat, s: int, e: int) {
    && fetch(s, e).Ok? && |fetch(s, e).value| > limit && e - s > 60
    && ((a == s && b == s + (e - s) / 2) || (a == s + (e - s) / 2 && b == e))
  }

  ghost predicate IsHalfOfSome(fetch: Fetch, a: int, b: int, limit: nat) {
    exists s, e :: IsHalf(fetch, a, b, limit, s, e)
  }

  /** A batch holds all that its window listed, or, where that is too much for a minute or less, a part. */
  ghost predicate HoldsItsWindow(fetch: Fetch, b: Batch, limit: nat) {
    && fetch(b.start, b.end).Ok?
    && if |fetch(b.start, b.end).value| <= limit then b.ids == fetch(b.start, b.end).value
       else b.end - b.start <= 60 && 0 < |b.ids| && forall id :: id in b.ids ==> id in fetch(b.start, b.end).value
  }

  /** The bisection cuts in the middle, only what is too much, and no further; what it hands out of a
      window is what that window listed. */
  ghost predicate CutWell(fetch: Fetch, s: int, e: int, b: Batch, limit: nat) {
    && HoldsItsWindow(fetch, b, limit)
    && ((b.start == s && b.end == e) || IsHalfOfSome(fetch, b.start, b.end, limit))
  }

  lemma {:induction false} BatchesAreCutWell(fetch: Fetch, s: int, e: int, limit: nat, b: Batch)
    requires limit > 0 && b in BoundedWindows(fetch, s, e, limit).list
    ensures CutWell(fetch, s, e, b, limit)
    decreases e - s
  {
    hide IsHalf, HoldsItsWindow;
    var items := fetch(s, e).value;
    if |items| <= limit {
      assert HoldsItsWindow(fetch, b, limit) by { WholeWindow(fetch, s, e, limit); }
    } else if e - s <= MIN_WINDOW_SECONDS {
      LeafHolds(fetch, s, e, limit, b);
    } else {
      var m := Midpoint(s, e);
      assert IsHalf(fetch, s, m, limit, s, e) && IsHalf(fetch, m, e, limit, s, e) by { HalvesOf(fetch, s, e, limit); }
      if b in BoundedWindows(fetch, s, m, limit).list {
        BatchesAreCutWell(fetch, s, m, limit, b);
      } else {
        BatchesAreCutWell(fetch, m, e, limit, b);
      }
    }
  }

  lemma WholeWindow(fetch: Fetch, s: int, e: int, limit: nat)
    requires fetch(s, e).Ok? && |fetch(s, e).value| <= limit
    ensures HoldsItsWindow(fetch, Batch(s, e, fetch(s, e).value), limit)
  {
  }

  lemma HalvesOf(fetch: Fetch, s: int, e: int, limit: nat)
    requires fetch(s, e).Ok? && |fetch(s, e).value| > limit && e - s > 60
    ensures IsHalf(fetch, s, Midpoint(s, e), limit, s, e) && IsHalf(fetch, Midpoint(s, e), e, limit, s, e)
  {
  }

  lemma LeafHolds(fetch: Fetch, s: int, e: int, limit: nat, b: Batch)
    requires limit > 0 && fetch(s, e).Ok? && |fetch(s, e).value| > limit && e - s <= 60
    requires b in Chunks(s, e, fetch(s, e).value, limit)
    ensures HoldsItsWindow(fetch, b, limit) && b.start == s && b.end == e
  {
    hide Chunks;
    LeafBatch(s, e, fetch(s, e).value, limit, b);
    var chunks := Chunks(s, e, fetch(s, e).value, limit);
    var i: nat :| i < |chunks| && chunks[i] == b;
    ChunksAreFull(s, e, fetch(s, e).value, limit, i);
  }

  function Pow2(k: nat): nat { if k == 0 then 1 else 2 * Pow2(k - 1) }

  lemma {:induction false} DepthIsLogarithmic(fetch: Fetch, s: int, e: int, limit: nat, k: nat)
    requires limit > 0 && e - s <= MIN_WINDOW_SECONDS * Pow2(k)
    ensures Depth(fetch, s, e, limit) <= k
    decreases k
  {
    if k > 0 {
      DepthIsLogarithmic(fetch, s, Midpoint(s, e), limit, k - 1);
      DepthIsLogarithmic(fetch, Midpoint(s, e), e, limit, k - 1);
    }
  }

  /** The stored cursor, where it is readable as a number. */
  function ReadCursor(text: string): Option<nat> {
    if text != "" && Decimal.AllDigits(text) then Some(Decimal.Value(text)) else None
  }

  function Max(a: int, b: int): int { if a > b then a else b }

  function Min(a: int, b: int): int { if a < b then a else b }

  function Window(now: int, cursor: string, lookbackDays: int, force: bool): (int, int) {
    var end := now + HOUR;
    if force then (now - Max(1, lookbackDays) * DAY, end)
    else
      var last := ReadCursor(cursor);
      var resume := if last.Some? then last.value else now - lookbackDays * DAY;
      var start := Min(resume, now) - DAY;
      if start > end then (now - lookbackDays * DAY, end) else (start, end)
  }

  /** An incremental window always reaches back a day from the cursor or from now, whichever is
      earlier: the fallback for a start past the end is never taken. */
  lemma IncrementalWindow(now: int, cursor: string, lookbackDays: int)
    ensures
      var w := Window(now, cursor, lookbackDays, false);
      var resume := if ReadCursor(cursor).Some? then ReadCursor(cursor).value else now - lookbackDays * DAY;
      w == (Min(resume, now) - DAY, now + HOUR) && w.0 <= now - DAY && w.0 < w.1
  {
  }

  lemma SavedCursorIsReadBack(now: nat)
    ensures ReadCursor(Decimal.Print(now)) == Some(now)
  {
    Decimal.ValueOfPrint(now);
  }

  /** A forced window ignores the cursor and reaches back the lookback, but a day at least. */
  lemma ForcedWindow(now: int, cursor: string, lookbackDays: int)
    ensures
      Window(now, cursor, lookbackDays, true)
      == (if lookbackDays >= 1 then now - lookbackDays * 86400 else now - 86400, now + 3600)
  {
  }

  /** A stored cursor is readable exactly when it is a non-empty text of digits, and then as its value. */
  lemma CursorIsReadExactly(text: string)
    ensures ReadCursor(text).Some? <==> text != "" && forall i :: 0 <= i < |text| ==> '0' <= text[i] <= '9'
    ensures ReadCursor(text).Some? ==> ReadCursor(text).value == Decimal.Value(text)
  {
  }
}
