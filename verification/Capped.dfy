/** The budgeted, newest-first listing: bisection with one `seen` set shared by every window. */
module Capped {
  import opened Common
  import opened Paging

  const MIN_CAPPED_WINDOW: int := 60

  datatype Collected = Collected(ids: seq<Id>, seen: set<Id>, error: Option<PageError>)

  function Without(ids: seq<Id>, seen: set<Id>): (r: seq<Id>)
    ensures forall x :: x in r <==> x in ids && x !in seen
    ensures NoDup(ids) ==> NoDup(r)
    ensures |r| <= |ids|
  {
    if ids == [] then []
    else
      var front, x := ids[..|ids| - 1], ids[|ids| - 1];
      assert ids == front + [x];
      if x in seen then Without(front, seen) else Without(front, seen) + [x]
  }

  function FirstOf(ids: seq<Id>, n: nat): seq<Id> { if |ids| <= n then ids else ids[..n] }

  function Budget(n: int): nat { if n < 0 then 0 else n }

  /** What is taken of a window that is not split: as many candidates as the budget allows. */
  function Take(candidates: seq<Id>, budget: nat, seen: set<Id>): Collected {
    var selected := FirstOf(candidates, budget);
    Collected(selected, seen + Elements(selected), None)
  }

  function Join(newer: Collected, older: Collected): Collected {
    if older.error.Some? then older else Collected(newer.ids + older.ids, older.seen, None)
  }

  function Collect(fetch: Fetch, ws: int, we: int, budget: int, seen: set<Id>): Collected
    decreases we - ws
  {
    if budget <= 0 || ws >= we then Collected([], seen, None)
    else
      match fetch(ws, we)
      case Err(error) => Collected([], seen, Some(error))
      case Ok(all) =>
        var candidates := Without(all, seen);
        if |candidates| <= budget || we - ws <= MIN_CAPPED_WINDOW then Take(candidates, budget, seen)
        else
          var midpoint := ws + (we - ws) / 2;
          var newer := Collect(fetch, midpoint, we, budget, seen);
          if newer.error.Some? then newer
          else Join(newer, Collect(fetch, ws, midpoint, budget - |newer.ids|, newer.seen))
  }

  /** Segment by segment, newest first, while the budget lasts. */
  function CollectSegments(fetch: Fetch, span: int, s: int, segmentEnd: int, max: int, got: Collected): Collected
    requires span > 0
    decreases segmentEnd - s
  {
    if segmentEnd > s && |got.ids| < max then
      var segmentStart := if s > segmentEnd - span then s else segmentEnd - span;
      var part := Collect(fetch, segmentStart, segmentEnd, max - |got.ids|, got.seen);
      if part.error.Some? then part
      else CollectSegments(fetch, span, s, segmentStart, max, Collected(got.ids + part.ids, part.seen, None))
    else got
  }

  const NOTHING := Collected([], {}, None)

  function SyncCapped(up: Upstream, s: int, e: int, max: int): Result<seq<Id>, PageError> {
    if max <= 0 then Ok([])
    else
      var c := CollectSegments(Fetcher(up), Segment(up.resource), s, e, max, NOTHING);
      match c.error case Some(error) => Err(error) case None => Ok(c.ids)
  }

  /** The windows the collector lists, in order. */
  function Asked(fetch: Fetch, ws: int, we: int, budget: int, seen: set<Id>): seq<(int, int)>
    decreases we - ws
  {
    if budget <= 0 || ws >= we then []
    else
      match fetch(ws, we)
      case Err(_) => [(ws, we)]
      case Ok(all) =>
        if |Without(all, seen)| <= budget || we - ws <= MIN_CAPPED_WINDOW then [(ws, we)]
        else
          var midpoint := ws + (we - ws) / 2;
          var newer := Collect(fetch, midpoint, we, budget, seen);
          [(ws, we)] + Asked(fetch, midpoint, we, budget, seen)
          + if newer.error.Some? then [] else Asked(fetch, ws, midpoint, budget - |newer.ids|, newer.seen)
  }

  /** One call of the collector never lists a window twice. */
  lemma {:induction false} CollectorListsOnce(fetch: Fetch, ws: int, we: int, budget: int, seen: set<Id>)
    requires ws < we
    ensures NoDup(Asked(fetch, ws, we, budget, seen)) && Within(Asked(fetch, ws, we, budget, seen), ws, we)
    decreases we - ws
  {
    OneIsDistinct((ws, we));
    NoneAreDistinct<(int, int)>();
    hide NoDup, Collect, Without;
    if budget > 0 && fetch(ws, we).Ok? && |Without(fetch(ws, we).value, seen)| > budget && we - ws > MIN_CAPPED_WINDOW {
      var midpoint := ws + (we - ws) / 2;
      var newer := Collect(fetch, midpoint, we, budget, seen);
      CollectorListsOnce(fetch, midpoint, we, budget, seen);
      CollectorListsOnce(fetch, ws, midpoint, budget - |newer.ids|, newer.seen);
      var lower := if newer.error.Some? then [] else Asked(fetch, ws, midpoint, budget - |newer.ids|, newer.seen);
      HalvesAreDistinct(lower, Asked(fetch, midpoint, we, budget, seen), ws, midpoint, we);
    }
  }

  /** The windows a whole listing asks for, segment by segment, newest first. */
  function AskedSegments(fetch: Fetch, span: int, s: int, segmentEnd: int, max: int, got: Collected): seq<(int, int)>
    requires span > 0
    decreases segmentEnd - s
  {
    if segmentEnd > s && |got.ids| < max then
      var segmentStart := if s > segmentEnd - span then s else segmentEnd - span;
      var part := Collect(fetch, segmentStart, segmentEnd, max - |got.ids|, got.seen);
      Asked(fetch, segmentStart, segmentEnd, max - |got.ids|, got.seen)
      + if part.error.Some? then []
        else AskedSegments(fetch, span, s, segmentStart, max, Collected(got.ids + part.ids, part.seen, None))
    else []
  }

  /** A whole listing never lists a window twice, within a segment or in two of them. */
  lemma {:induction false} NoWindowIsListedTwice(
    fetch: Fetch, span: int, s: int, segmentEnd: int, max: int, got: Collected)
    requires span > 0
    ensures
      var asked := AskedSegments(fetch, span, s, segmentEnd, max, got);
      NoDup(asked) && Within(asked, s, segmentEnd)
    decreases segmentEnd - s
  {
    NoneAreDistinct<(int, int)>();
    hide NoDup, Collect, Asked;
    if segmentEnd > s && |got.ids| < max {
      var segmentStart := if s > segmentEnd - span then s else segmentEnd - span;
      var part := Collect(fetch, segmentStart, segmentEnd, max - |got.ids|, got.seen);
      CollectorListsOnce(fetch, segmentStart, segmentEnd, max - |got.ids|, got.seen);
      var more := Collected(got.ids + part.ids, part.seen, None);
      NoWindowIsListedTwice(fetch, span, s, segmentStart, max, more);
      var older := if part.error.Some? then [] else AskedSegments(fetch, span, s, segmentStart, max, more);
      NeighboursAreDistinct(
        older, Asked(fetch, segmentStart, segmentEnd, max - |got.ids|, got.seen), s, segmentStart, segmentEnd);
    }
  }

  class Collector {
    const fetch: Fetch
    var seen: set<Id>

    constructor (fetch: Fetch)
      ensures this.fetch == fetch && seen == {}
    {
      this.fetch := fetch;
      seen := {};
    }

    method CollectWindow(ws: int, we: int, budget: int) returns (error: Option<PageError>, ids: seq<Id>)
      modifies this
      ensures
        var c := Collect(fetch, ws, we, budget, old(seen));
        error == c.error && (error.None? ==> ids == c.ids && seen == c.seen)
      decreases we - ws
    {
      hide NoDup, Without;
      if budget <= 0 || ws >= we {
        return None, [];
      }
      var fetched := fetch(ws, we);
      if fetched.Err? {
        return Some(fetched.error), [];
      }
      var candidates := Without(fetched.value, seen);
      var span := we - ws;
      if |candidates| <= budget || span <= MIN_CAPPED_WINDOW {
        var selected := FirstOf(candidates, budget);
        seen := seen + Elements(selected);
        return None, selected;
      }
      ids := [];
      var midpoint := ws + span / 2;
      ghost var newer := Collect(fetch, midpoint, we, budget, seen);
      var part;
      error, part := CollectWindow(midpoint, we, budget);
      if error.None? {
        ids := part;
        error, part := CollectWindow(ws, midpoint, budget - |part|);
        ids := ids + part;
      }
    }
  }

  method SyncRangeCapped(up: Upstream, s: int, e: int, max: int) returns (r: Result<seq<Id>, PageError>)
    ensures r == SyncCapped(up, s, e, max)
  {
    hide Collect, Without, NoDup;
    if max <= 0 {
      return Ok([]);
    }
    var span, fetch := Segment(up.resource), Fetcher(up);
    var collector := new Collector(fetch);
    var result: seq<Id> := [];
    var segmentEnd := e;
    ghost var target := CollectSegments(fetch, span, s, e, max, NOTHING);
    while segmentEnd > s && |result| < max
      invariant collector.fetch == fetch && |result| <= max
      invariant target ==
                CollectSegments(fetch, span, s, segmentEnd, max, Collected(result, collector.seen, None))
      decreases segmentEnd - s
    {
      var segmentStart := if s > segmentEnd - span then s else segmentEnd - span;
      CollectIsBounded(fetch, segmentStart, segmentEnd, max - |result|, collector.seen);
      var error, part := collector.CollectWindow(segmentStart, segmentEnd, max - |result|);
      if error.Some? {
        return Err(error.value);
      }
      result := result + part;
      segmentEnd := segmentStart;
    }
    r := Ok(FirstOf(result, max));
  }

  ghost predicate ListsOnce(fetch: Fetch) {
    forall a, b :: fetch(a, b).Ok? ==> NoDup(fetch(a, b).value)
  }

  /** A collection that returns no id twice, none seen before, and stays inside its budget. */
  ghost predicate Bounded(c: Collected, budget: int, seen: set<Id>) {
    c.error.None? ==>
      && NoDup(c.ids) && |c.ids| <= Budget(budget)
      && (forall x :: x in c.ids ==> x !in seen)
      && c.seen == seen + Elements(c.ids)
  }

  lemma TakeIsBounded(all: seq<Id>, budget: nat, seen: set<Id>)
    requires NoDup(all)
    ensures Bounded(Take(Without(all, seen), budget, seen), budget, seen)
  {
  }

  lemma JoinIsBounded(newer: Collected, older: Collected, budget: nat, seen: set<Id>)
    requires newer.error.None? && Bounded(newer, budget, seen)
    requires Bounded(older, budget - |newer.ids|, newer.seen)
    ensures Bounded(Join(newer, older), budget, seen)
  {
    if older.error.None? {
      NoDupJoin(newer.ids, older.ids);
      assert Elements(newer.ids + older.ids) == Elements(newer.ids) + Elements(older.ids);
    }
  }

  /** Whatever the upstream answers, nothing is returned twice or over budget. */
  lemma {:induction false} CollectIsBounded(fetch: Fetch, ws: int, we: int, budget: int, seen: set<Id>)
    requires ListsOnce(fetch)
    ensures Bounded(Collect(fetch, ws, we, budget, seen), budget, seen)
    decreases we - ws
  {
    if budget > 0 && ws < we && fetch(ws, we).Ok? {
      var all := fetch(ws, we).value;
      var candidates := Without(all, seen);
      if |candidates| <= budget || we - ws <= MIN_CAPPED_WINDOW {
        TakeIsBounded(all, budget, seen);
      } else {
        var midpoint := ws + (we - ws) / 2;
        CollectIsBounded(fetch, midpoint, we, budget, seen);
        var newer := Collect(fetch, midpoint, we, budget, seen);
        if newer.error.None? {
          CollectIsBounded(fetch, ws, midpoint, budget - |newer.ids|, newer.seen);
          var older := Collect(fetch, ws, midpoint, budget - |newer.ids|, newer.seen);
          JoinIsBounded(newer, older, budget, seen);
        }
      }
    }
  }

  lemma {:induction false} SegmentsAreBounded(
    fetch: Fetch, span: int, s: int, segmentEnd: int, max: int, got: Collected)
    requires span > 0 && got.error.None? && Bounded(got, max, {})
    requires ListsOnce(fetch)
    ensures Bounded(CollectSegments(fetch, span, s, segmentEnd, max, got), max, {})
    decreases segmentEnd - s
  {
    if segmentEnd > s && |got.ids| < max {
      var segmentStart := if s > segmentEnd - span then s else segmentEnd - span;
      CollectIsBounded(fetch, segmentStart, segmentEnd, max - |got.ids|, got.seen);
      var part := Collect(fetch, segmentStart, segmentEnd, max - |got.ids|, got.seen);
      if part.error.None? {
        NoDupJoin(got.ids, part.ids);
        assert Elements(got.ids + part.ids) == Elements(got.ids) + Elements(part.ids);
        SegmentsAreBounded(fetch, span, s, segmentStart, max, Collected(got.ids + part.ids, part.seen, None));
      }
    }
  }

  /** For any upstream at all: no id twice, and at most the number asked for. */
  lemma CappedListingIsBounded(up: Upstream, s: int, e: int, max: int)
    requires SyncCapped(up, s, e, max).Ok?
    ensures NoDup(SyncCapped(up, s, e, max).value) && |SyncCapped(up, s, e, max).value| <= Budget(max)
  {
    if max > 0 {
      assert Elements<Id>([]) == {};
      SegmentsAreBounded(Fetcher(up), Segment(up.resource), s, e, max, NOTHING);
    }
  }

  /** `ids` is what a budget allows of one window of a faithful upstream: all of it, or exactly
      the budget, with nothing left out that is a minute newer than something returned. */
  ghost predicate NewestOf(ids: seq<Id>, times: Times, ws: int, we: int, budget: nat, now: int) {
    && |ids| <= budget
    && (forall id :: id in ids ==> id in times && ws <= times[id] < we)
    && (|ids| < budget ==>
          forall id :: id in times && ws <= times[id] < we && times[id] < now ==> id in ids)
    && (forall o, r :: o in times && ws <= times[o] < we && times[o] < now && o !in ids && r in ids ==>
          times[o] - times[r] < MIN_CAPPED_WINDOW)
  }

  /** A budget spent on the newer part first is spent right on the whole. */
  lemma NewerThenOlder(newer: seq<Id>, older: seq<Id>, times: Times, ws: int, mid: int, we: int, budget: nat, now: int)
    requires ws <= mid <= we && |newer| <= budget
    requires NewestOf(newer, times, mid, we, budget, now)
    requires NewestOf(older, times, ws, mid, budget - |newer|, now)
    ensures NewestOf(newer + older, times, ws, we, budget, now)
  {
    forall o, r | o in times && ws <= times[o] < we && times[o] < now && o !in newer + older && r in newer + older
      ensures times[o] - times[r] < MIN_CAPPED_WINDOW
    {
      assert o !in newer && o !in older;
      if times[o] >= mid {
        assert |newer| == budget && older == [];
        assert r in newer;
      }
    }
  }

  ghost predicate FaithfulFetch(fetch: Fetch, span: int, times: Times, now: int) {
    forall s, e :: s < e <= s + span && fetch(s, e).Ok? ==> Complete(fetch(s, e).value, times, s, e, now)
  }

  lemma TakeIsNewest(all: seq<Id>, ws: int, we: int, budget: nat, seen: set<Id>, times: Times, now: int)
    requires Complete(all, times, ws, we, now)
    requires forall id :: id in seen ==> id in times && times[id] >= we
    requires |Without(all, seen)| <= budget || we - ws <= MIN_CAPPED_WINDOW
    ensures NewestOf(Take(Without(all, seen), budget, seen).ids, times, ws, we, budget, now)
  {
  }

  lemma {:induction false} CollectIsNewest(
    fetch: Fetch, span: int, ws: int, we: int, budget: int, seen: set<Id>, times: Times, now: int)
    requires FaithfulFetch(fetch, span, times, now) && we - ws <= span
    requires ListsOnce(fetch)
    requires forall id :: id in seen ==> id in times && times[id] >= we
    requires Collect(fetch, ws, we, budget, seen).error.None?
    ensures NewestOf(Collect(fetch, ws, we, budget, seen).ids, times, ws, we, Budget(budget), now)
    decreases we - ws
  {
    hide NoDup, Complete, Without, Take, ListsOnce;
    if budget > 0 && ws < we {
      var all := fetch(ws, we).value;
      assert Complete(all, times, ws, we, now);
      var candidates := Without(all, seen);
      if |candidates| <= budget || we - ws <= MIN_CAPPED_WINDOW {
        TakeIsNewest(all, ws, we, budget, seen, times, now);
      } else {
        var midpoint := ws + (we - ws) / 2;
        CollectIsBounded(fetch, midpoint, we, budget, seen);
        CollectIsNewest(fetch, span, midpoint, we, budget, seen, times, now);
        var newer := Collect(fetch, midpoint, we, budget, seen);
        CollectIsNewest(fetch, span, ws, midpoint, budget - |newer.ids|, newer.seen, times, now);
        var older := Collect(fetch, ws, midpoint, budget - |newer.ids|, newer.seen);
        NewerThenOlder(newer.ids, older.ids, times, ws, midpoint, we, budget, now);
      }
    }
  }

  /** One more segment, taken with what is left of the budget. */
  lemma SegmentIsNewest(
    fetch: Fetch, span: int, segmentStart: int, segmentEnd: int, e: int, max: int, got: Collected, times: Times,
    now: int)
    requires FaithfulFetch(fetch, span, times, now) && ListsOnce(fetch)
    requires segmentStart < segmentEnd <= e && segmentEnd - segmentStart <= span && |got.ids| < max
    requires got.seen == Elements(got.ids) && NewestOf(got.ids, times, segmentEnd, e, max, now)
    requires Collect(fetch, segmentStart, segmentEnd, max - |got.ids|, got.seen).error.None?
    ensures
      var part := Collect(fetch, segmentStart, segmentEnd, max - |got.ids|, got.seen);
      && part.seen == Elements(got.ids + part.ids) && |got.ids + part.ids| <= max
      && NewestOf(got.ids + part.ids, times, segmentStart, e, max, now)
  {
    hide NoDup, Complete, Collect, FaithfulFetch, ListsOnce;
    var part := Collect(fetch, segmentStart, segmentEnd, max - |got.ids|, got.seen);
    CollectIsBounded(fetch, segmentStart, segmentEnd, max - |got.ids|, got.seen);
    CollectIsNewest(fetch, span, segmentStart, segmentEnd, max - |got.ids|, got.seen, times, now);
    NewerThenOlder(got.ids, part.ids, times, segmentStart, segmentEnd, e, max, now);
    assert Elements(got.ids + part.ids) == Elements(got.ids) + Elements(part.ids);
  }

  /** Where the budget is spent, or no older segment is left, the older part adds nothing. */
  lemma NothingIsNewest(ids: seq<Id>, times: Times, s: int, segmentEnd: int, e: int, max: int, now: int)
    requires s <= segmentEnd <= e && |ids| <= max && (segmentEnd <= s || |ids| == max)
    requires NewestOf(ids, times, segmentEnd, e, max, now)
    ensures NewestOf(ids, times, s, e, max, now)
  {
    NewerThenOlder(ids, [], times, s, segmentEnd, e, max, now);
    assert ids + [] == ids;
  }

  lemma {:induction false} SegmentsAreNewest(
    fetch: Fetch, span: int, s: int, segmentEnd: int, e: int, max: int, got: Collected, times: Times, now: int)
    requires FaithfulFetch(fetch, span, times, now) && s <= segmentEnd <= e && span > 0 && max > 0
    requires ListsOnce(fetch)
    requires got.error.None? && got.seen == Elements(got.ids) && |got.ids| <= max
    requires NewestOf(got.ids, times, segmentEnd, e, max, now)
    requires CollectSegments(fetch, span, s, segmentEnd, max, got).error.None?
    ensures NewestOf(CollectSegments(fetch, span, s, segmentEnd, max, got).ids, times, s, e, max, now)
    decreases segmentEnd - s
  {
    hide NoDup, Complete, Collect, FaithfulFetch, ListsOnce;
    if segmentEnd > s && |got.ids| < max {
      var segmentStart := if s > segmentEnd - span then s else segmentEnd - span;
      var budget := max - |got.ids|;
      var part := Collect(fetch, segmentStart, segmentEnd, budget, got.seen);
      var more := Collected(got.ids + part.ids, part.seen, None);
      SegmentIsNewest(fetch, span, segmentStart, segmentEnd, e, max, got, times, now);
      hide NewestOf;
      SegmentsAreNewest(fetch, span, s, segmentStart, e, max, more, times, now);
    } else {
      NothingIsNewest(got.ids, times, s, segmentEnd, e, max, now);
    }
  }

  /** The whole range: complete, or exactly full; and no record left out is 60 seconds or more
      newer than one returned. */
  lemma CappedListingIsNewest(up: Upstream, s: int, e: int, max: int, times: Times, now: int)
    requires Faithful(up, times, now) && SyncCapped(up, s, e, max).Ok?
    ensures NewestOf(SyncCapped(up, s, e, max).value, times, s, e, Budget(max), now)
  {
    if max > 0 && s <= e {
      assert Elements<Id>([]) == {};
      SegmentsAreNewest(Fetcher(up), Segment(up.resource), s, e, e, max, NOTHING, times, now);
    }
  }

  // ----- when the listing succeeds, and in which order it lists -----

  predicate Splits(fetch: Fetch, ws: int, we: int, budget: int, seen: set<Id>) {
    && budget > 0 && ws < we && fetch(ws, we).Ok? && we - ws > 60
    && |Without(fetch(ws, we).value, seen)| > budget
  }

  /** A window that is split is listed first, then its newer half, and, if that went well, its older one. */
  lemma SplitWindow(fetch: Fetch, ws: int, we: int, budget: int, seen: set<Id>)
    requires Splits(fetch, ws, we, budget, seen)
    ensures
      var m := ws + (we - ws) / 2;
      var newer := Collect(fetch, m, we, budget, seen);
      var older := Collect(fetch, ws, m, budget - |newer.ids|, newer.seen);
      var c := Collect(fetch, ws, we, budget, seen);
      && c.error == (if newer.error.Some? then newer.error else older.error)
      && (c.error == None ==> c.ids == newer.ids + older.ids)
      && Asked(fetch, m, we, budget, seen) != []
      && Asked(fetch, ws, we, budget, seen)
         == [(ws, we)] + Asked(fetch, m, we, budget, seen)
            + if newer.error.Some? then [] else Asked(fetch, ws, m, budget - |newer.ids|, newer.seen)
  {
    hide Without, NoDup;
  }

  lemma UnsplitWindow(fetch: Fetch, ws: int, we: int, budget: int, seen: set<Id>)
    requires !Splits(fetch, ws, we, budget, seen)
    ensures Asked(fetch, ws, we, budget, seen) == if budget <= 0 || ws >= we then [] else [(ws, we)]
    ensures
      Collect(fetch, ws, we, budget, seen).error
      == if budget <= 0 || ws >= we || fetch(ws, we).Ok? then None else Some(fetch(ws, we).error)
  {
    hide Without, NoDup;
  }

  /** One call of the collector fails exactly as the last window it lists, and never where that answers. */
  lemma {:induction false} CollectorFailsExactly(fetch: Fetch, ws: int, we: int, budget: int, seen: set<Id>)
    ensures Collect(fetch, ws, we, budget, seen).error == LastError(fetch, Asked(fetch, ws, we, budget, seen))
    ensures OthersAnswer(fetch, Asked(fetch, ws, we, budget, seen))
    decreases we - ws
  {
    hide Without, LastError, OthersAnswer, Collect, Asked, Splits;
    OneAnswers(fetch, ws, we);
    if Splits(fetch, ws, we, budget, seen) {
      SplitWindow(fetch, ws, we, budget, seen);
      assert ws < we && we - ws > 60 && fetch(ws, we).Ok? by { SplitsMeans(fetch, ws, we, budget, seen); }
      var m := ws + (we - ws) / 2;
      var newer := Collect(fetch, m, we, budget, seen);
      CollectorFailsExactly(fetch, m, we, budget, seen);
      CollectorFailsExactly(fetch, ws, m, budget - |newer.ids|, newer.seen);
      var upper := Asked(fetch, m, we, budget, seen);
      AnswersJoin(fetch, [(ws, we)], upper);
      AnswersJoin(fetch, [(ws, we)] + upper,
                  if newer.error.Some? then [] else Asked(fetch, ws, m, budget - |newer.ids|, newer.seen));
      OlderAsks(fetch, ws, m, budget - |newer.ids|, newer.seen);
    } else {
      UnsplitWindow(fetch, ws, we, budget, seen);
    }
  }

  lemma SplitsMeans(fetch: Fetch, ws: int, we: int, budget: int, seen: set<Id>)
    requires Splits(fetch, ws, we, budget, seen)
    ensures ws < we && we - ws > 60 && fetch(ws, we).Ok?
  {
  }

  /** A window of which nothing is asked fails nowhere. */
  lemma OlderAsks(fetch: Fetch, ws: int, we: int, budget: int, seen: set<Id>)
    ensures Asked(fetch, ws, we, budget, seen) == [] ==> Collect(fetch, ws, we, budget, seen).error == None
  {
    hide Without, NoDup;
  }

  lemma {:induction false} SegmentsFailExactly(
    fetch: Fetch, span: int, s: int, segmentEnd: int, max: int, got: Collected)
    requires span > 0 && got.error == None
    ensures CollectSegments(fetch, span, s, segmentEnd, max, got).error
            == LastError(fetch, AskedSegments(fetch, span, s, segmentEnd, max, got))
    ensures OthersAnswer(fetch, AskedSegments(fetch, span, s, segmentEnd, max, got))
    decreases segmentEnd - s
  {
    hide Collect, Asked, LastError, OthersAnswer;
    OneAnswers(fetch, s, segmentEnd);
    if segmentEnd > s && |got.ids| < max {
      var segmentStart := if s > segmentEnd - span then s else segmentEnd - span;
      var part := Collect(fetch, segmentStart, segmentEnd, max - |got.ids|, got.seen);
      CollectorFailsExactly(fetch, segmentStart, segmentEnd, max - |got.ids|, got.seen);
      var more := Collected(got.ids + part.ids, part.seen, None);
      SegmentsFailExactly(fetch, span, s, segmentStart, max, more);
      var older := if part.error.Some? then [] else AskedSegments(fetch, span, s, segmentStart, max, more);
      AnswersJoin(fetch, Asked(fetch, segmentStart, segmentEnd, max - |got.ids|, got.seen), older);
    }
  }

  /** A capped listing fails exactly as the last window it lists: while every window it lists answers, it
      succeeds; and with nothing to ask for it is empty. */
  lemma CappedListingFailsExactly(up: Upstream, s: int, e: int, max: int)
    ensures
      var asked := AskedSegments(Fetcher(up), Segment(up.resource), s, e, max, NOTHING);
      && (SyncCapped(up, s, e, max).Ok? <==> max <= 0 || LastError(Fetcher(up), asked) == None)
      && (SyncCapped(up, s, e, max).Err? ==> LastError(Fetcher(up), asked) == Some(SyncCapped(up, s, e, max).error))
      && OthersAnswer(Fetcher(up), asked)
    ensures max <= 0 || s >= e ==> SyncCapped(up, s, e, max) == Ok([])
  {
    hide LastError, OthersAnswer;
    SegmentsFailExactly(Fetcher(up), Segment(up.resource), s, e, max, NOTHING);
  }

  /** Taking out what was seen keeps the order of the rest. */
  lemma WithoutIsAFilter(a: seq<Id>, x: Id, seen: set<Id>)
    ensures Without([], seen) == []
    ensures Without(a + [x], seen) == if x in seen then Without(a, seen) else Without(a, seen) + [x]
  {
    assert (a + [x])[..|a|] == a;
  }

  /** Of a window that is not split, the first new records are taken, as many as the budget allows. */
  lemma UnsplitWindowTakesTheFirst(fetch: Fetch, ws: int, we: int, budget: int, seen: set<Id>)
    requires budget > 0 && ws < we && fetch(ws, we).Ok?
    requires |Without(fetch(ws, we).value, seen)| <= budget || we - ws <= 60
    ensures
      var unseen, c := Without(fetch(ws, we).value, seen), Collect(fetch, ws, we, budget, seen);
      && c.error == None && c.ids == (if |unseen| <= budget then unseen else unseen[..budget])
      && c.seen == seen + Elements(c.ids)
  {
  }

  /** What lies before `b` comes after everything else. */
  ghost predicate NewerFirst(ids: seq<Id>, times: Times, b: int) {
    forall i, j :: 0 <= i < j < |ids| && ids[i] in times && ids[j] in times && times[ids[i]] < b ==> times[ids[j]] < b
  }

  /** Of a window that is split, the newer half is listed before the older one. */
  lemma SplitWindowListsNewerFirst(
    fetch: Fetch, span: int, ws: int, we: int, budget: int, seen: set<Id>, times: Times, now: int)
    requires FaithfulFetch(fetch, span, times, now) && we - ws <= span && ListsOnce(fetch)
    requires forall id :: id in seen ==> id in times && times[id] >= we
    requires Splits(fetch, ws, we, budget, seen) && Collect(fetch, ws, we, budget, seen).error == None
    ensures NewerFirst(Collect(fetch, ws, we, budget, seen).ids, times, ws + (we - ws) / 2)
  {
    hide NoDup, Without, FaithfulFetch, ListsOnce, Collect, Asked, NewestOf, NewerFirst;
    var m := ws + (we - ws) / 2;
    var newer := Collect(fetch, m, we, budget, seen);
    var older := Collect(fetch, ws, m, budget - |newer.ids|, newer.seen);
    SplitWindow(fetch, ws, we, budget, seen);
    CollectIsBounded(fetch, m, we, budget, seen);
    CollectIsNewest(fetch, span, m, we, budget, seen, times, now);
    assert forall id :: id in newer.seen ==> id in times && times[id] >= m by {
      InWindow(newer.ids, times, m, we, Budget(budget), now);
    }
    CollectIsNewest(fetch, span, ws, m, budget - |newer.ids|, newer.seen, times, now);
    InWindow(newer.ids, times, m, we, Budget(budget), now);
    InWindow(older.ids, times, ws, m, Budget(budget - |newer.ids|), now);
    HalvesInOrder(newer.ids, older.ids, times, m);
  }

  lemma InWindow(ids: seq<Id>, times: Times, ws: int, we: int, budget: nat, now: int)
    requires NewestOf(ids, times, ws, we, budget, now)
    ensures forall id :: id in ids ==> id in times && ws <= times[id] < we
  {
  }

  lemma HalvesInOrder(newer: seq<Id>, older: seq<Id>, times: Times, m: int)
    requires forall id :: id in newer ==> id in times && times[id] >= m
    requires forall id :: id in older ==> id in times && times[id] < m
    ensures NewerFirst(newer + older, times, m)
  {
    var all := newer + older;
    forall i, j | 0 <= i < j < |all| && times[all[i]] < m ensures times[all[j]] < m {
      assert i >= |newer|;
    }
  }

  /** A cut of a range into segments from its end. */
  predicate IsCut(b: int, segmentEnd: int, span: int)
    requires span > 0
    decreases segmentEnd - b
  {
    b == segmentEnd || (b < segmentEnd && IsCut(b, segmentEnd - span, span))
  }

  lemma {:induction false} SegmentsListNewerFirst(
    fetch: Fetch, span: int, s: int, segmentEnd: int, e: int, max: int, got: Collected, times: Times, now: int, b: int)
    requires FaithfulFetch(fetch, span, times, now) && s <= segmentEnd <= e && span > 0 && max > 0
    requires ListsOnce(fetch) && IsCut(b, segmentEnd, span)
    requires got.error == None && got.seen == Elements(got.ids) && |got.ids| <= max
    requires NewestOf(got.ids, times, segmentEnd, e, max, now)
    requires CollectSegments(fetch, span, s, segmentEnd, max, got).error == None
    ensures NewerFirst(CollectSegments(fetch, span, s, segmentEnd, max, got).ids, times, b)
    ensures got.ids <= CollectSegments(fetch, span, s, segmentEnd, max, got).ids
    decreases segmentEnd - s
  {
    hide NoDup, Complete, Collect, FaithfulFetch, ListsOnce;
    if segmentEnd > s && |got.ids| < max {
      var segmentStart := if s > segmentEnd - span then s else segmentEnd - span;
      var part := Collect(fetch, segmentStart, segmentEnd, max - |got.ids|, got.seen);
      var more := Collected(got.ids + part.ids, part.seen, None);
      SegmentIsNewest(fetch, span, segmentStart, segmentEnd, e, max, got, times, now);
      var all := CollectSegments(fetch, span, s, segmentEnd, max, got);
      if b == segmentEnd {
        SegmentsListNewerFirst(fetch, span, s, segmentStart, e, max, more, times, now, segmentStart);
        OlderAfter(fetch, span, s, segmentEnd, e, max, got, times, now);
      } else if segmentStart == segmentEnd - span {
        SegmentsListNewerFirst(fetch, span, s, segmentStart, e, max, more, times, now, b);
      } else {
        assert all == more;
      }
    }
  }

  /** What is added after `got` is older than all of it. */
  lemma {:induction false} OlderAfter(
    fetch: Fetch, span: int, s: int, segmentEnd: int, e: int, max: int, got: Collected, times: Times, now: int)
    requires FaithfulFetch(fetch, span, times, now) && s <= segmentEnd <= e && span > 0 && max > 0
    requires ListsOnce(fetch)
    requires got.error == None && got.seen == Elements(got.ids) && |got.ids| <= max
    requires NewestOf(got.ids, times, segmentEnd, e, max, now)
    requires CollectSegments(fetch, span, s, segmentEnd, max, got).error == None
    ensures
      var ids := CollectSegments(fetch, span, s, segmentEnd, max, got).ids;
      && got.ids <= ids
      && forall i :: |got.ids| <= i < |ids| ==> ids[i] in times && times[ids[i]] < segmentEnd
    decreases segmentEnd - s
  {
    hide NoDup, Complete, Collect, FaithfulFetch, ListsOnce;
    if segmentEnd > s && |got.ids| < max {
      var segmentStart := if s > segmentEnd - span then s else segmentEnd - span;
      var part := Collect(fetch, segmentStart, segmentEnd, max - |got.ids|, got.seen);
      var more := Collected(got.ids + part.ids, part.seen, None);
      SegmentIsNewest(fetch, span, segmentStart, segmentEnd, e, max, got, times, now);
      assert forall id :: id in part.ids ==> id in times && times[id] < segmentEnd by {
        CollectIsNewest(fetch, span, segmentStart, segmentEnd, max - |got.ids|, got.seen, times, now);
      }
      OlderAfter(fetch, span, s, segmentStart, e, max, more, times, now);
      var ids := CollectSegments(fetch, span, s, segmentEnd, max, got).ids;
      forall i | |got.ids| <= i < |ids| ensures ids[i] in times && times[ids[i]] < segmentEnd {
        if i < |more.ids| {
          assert ids[i] == more.ids[i] == part.ids[i - |got.ids|];
        }
      }
    }
  }

  /** The segments of a capped listing come newest first: at every cut, nothing older precedes anything
      newer. */
  lemma CappedListingIsNewestFirst(up: Upstream, s: int, e: int, max: int, times: Times, now: int, b: int)
    requires Faithful(up, times, now) && SyncCapped(up, s, e, max).Ok? && IsCut(b, e, Segment(up.resource))
    ensures NewerFirst(SyncCapped(up, s, e, max).value, times, b)
  {
    if max > 0 && s <= e {
      assert Elements<Id>([]) == {};
      SegmentsListNewerFirst(Fetcher(up), Segment(up.resource), s, e, e, max, NOTHING, times, now, b);
    }
  }
}
