/** Reading one listing window page by page, and a longer range segment by segment.
    Reports and approvals differ only in the first cursor, the exit rule and the segment length. */
module Paging {
  import opened Common

  type Id = nat

  datatype Cursor = Num(n: int) | Text(s: string)

  datatype Resource = Reports | Approvals

  datatype Page = Page(failed: bool, ids: seq<Id>, next: Cursor, endflag: bool)

  datatype PageError = TooManyPages | UpstreamError | RepeatedCursor | BackwardCursor

  /** An upstream while one range is listed. Its segments and the cursors of each are pairwise distinct
      (`SegmentsTile`, `PagingTerminatesOnDistinctCursors`), so a function of a window and a cursor
      leaves every reply free. */
  datatype Upstream = Upstream(
    resource: Resource,
    list: (int, int, Cursor) -> Page,
    asInt: Cursor -> Option<int>)

  const MAX_PAGES_PER_WINDOW: nat := 1000
  const DAY: int := 86400

  function FirstCursor(r: Resource): Cursor {
    match r case Reports => Num(0) case Approvals => Text("")
  }

  function Segment(r: Resource): int {
    match r case Reports => 30 * DAY case Approvals => 31 * DAY
  }

  predicate Truthy(c: Cursor) {
    match c case Num(n) => n != 0 case Text(s) => s != ""
  }

  predicate LastPage(r: Resource, p: Page) {
    match r
    case Reports => p.endflag || (p.ids == [] && !Truthy(p.next)) || !Truthy(p.next)
    case Approvals => p.ids == [] || !Truthy(p.next)
  }

  function CheckNext(up: Upstream, current: Cursor, next: Cursor, seen: set<Cursor>): Option<PageError> {
    if next in seen then Some(RepeatedCursor)
    else
      var a, b := up.asInt(current), up.asInt(next);
      if a.Some? && b.Some? && b.value <= a.value then Some(BackwardCursor) else None
  }

  /** What a reader went through: the cursors it asked for, the pages it got, and why it failed. */
  datatype Walk = Walk(cursors: seq<Cursor>, pages: seq<Page>, error: Option<PageError>)

  function WalkFrom(up: Upstream, s: int, e: int, asked: seq<Cursor>, cursor: Cursor): (w: Walk)
    requires |asked| <= MAX_PAGES_PER_WINDOW
    ensures |w.cursors| == |w.pages| <= MAX_PAGES_PER_WINDOW - |asked|
    decreases MAX_PAGES_PER_WINDOW - |asked|
  {
    if |asked| >= MAX_PAGES_PER_WINDOW then Walk([], [], Some(TooManyPages))
    else
      var page, asked' := up.list(s, e, cursor), asked + [cursor];
      if page.failed then Walk([cursor], [page], Some(UpstreamError))
      else if LastPage(up.resource, page) then Walk([cursor], [page], None)
      else
        match CheckNext(up, cursor, page.next, Elements(asked'))
        case Some(error) => Walk([cursor], [page], Some(error))
        case None =>
          var rest := WalkFrom(up, s, e, asked', page.next);
          Walk([cursor] + rest.cursors, [page] + rest.pages, rest.error)
  }

  function WindowWalk(up: Upstream, s: int, e: int): Walk {
    WalkFrom(up, s, e, [], FirstCursor(up.resource))
  }

  function IdsOf(pages: seq<Page>): seq<Id> {
    if pages == [] then [] else pages[0].ids + IdsOf(pages[1..])
  }

  /** Everything one window lists, each id once, in upstream order. */
  function FetchWindow(up: Upstream, s: int, e: int): Result<seq<Id>, PageError> {
    var w := WindowWalk(up, s, e);
    match w.error
    case Some(error) => Err(error)
    case None => Ok(Dedup(IdsOf(w.pages)))
  }

  /** A complete listing of a window, as its callers see it. */
  type Fetch = (int, int) -> Result<seq<Id>, PageError>

  function Fetcher(up: Upstream): Fetch {
    (s, e) => FetchWindow(up, s, e)
  }

  /** Whether the walk goes on past its first page. */
  predicate Continues(up: Upstream, s: int, e: int, asked: seq<Cursor>, cursor: Cursor) {
    var page := up.list(s, e, cursor);
    && |asked| < MAX_PAGES_PER_WINDOW && !page.failed && !LastPage(up.resource, page)
    && CheckNext(up, cursor, page.next, Elements(asked + [cursor])).None?
  }

  /** Each page answers its cursor, and names the next one. */
  ghost predicate Linked(up: Upstream, s: int, e: int, cursor: Cursor, cursors: seq<Cursor>, pages: seq<Page>) {
    && |cursors| == |pages|
    && (cursors != [] ==> cursors[0] == cursor)
    && (forall i :: 0 <= i < |cursors| ==> pages[i] == up.list(s, e, cursors[i]))
    && (forall i :: 0 <= i < |cursors| - 1 ==> cursors[i + 1] == pages[i].next)
  }

  lemma LinkedLonger(up: Upstream, s: int, e: int, cursor: Cursor, cursors: seq<Cursor>, pages: seq<Page>)
    requires Linked(up, s, e, up.list(s, e, cursor).next, cursors, pages)
    ensures Linked(up, s, e, cursor, [cursor] + cursors, [up.list(s, e, cursor)] + pages)
  {
  }

  /** The walk asks for each cursor once, follows the cursors the pages name, gives up only after
      1000 requests or on a bad page, and ends well only on a last page. */
  ghost predicate IsPath(up: Upstream, s: int, e: int, asked: seq<Cursor>, cursor: Cursor, w: Walk) {
    && Linked(up, s, e, cursor, w.cursors, w.pages)
    && |asked + w.cursors| <= MAX_PAGES_PER_WINDOW
    && NoDup(asked + w.cursors)
    && (w.error == Some(TooManyPages) ==> |asked + w.cursors| == MAX_PAGES_PER_WINDOW)
    && (w.error.None? ==>
          |w.pages| > 0 && !w.pages[|w.pages| - 1].failed && LastPage(up.resource, w.pages[|w.pages| - 1]))
  }

  lemma LongerPath(up: Upstream, s: int, e: int, asked: seq<Cursor>, cursor: Cursor, rest: Walk)
    requires IsPath(up, s, e, asked + [cursor], up.list(s, e, cursor).next, rest)
    ensures
      var page := up.list(s, e, cursor);
      IsPath(up, s, e, asked, cursor, Walk([cursor] + rest.cursors, [page] + rest.pages, rest.error))
  {
    hide NoDup, LastPage, Linked;
    LinkedLonger(up, s, e, cursor, rest.cursors, rest.pages);
    assert asked + ([cursor] + rest.cursors) == (asked + [cursor]) + rest.cursors;
  }

  lemma {:induction false} WalkIsAPath(up: Upstream, s: int, e: int, asked: seq<Cursor>, cursor: Cursor)
    requires |asked| <= MAX_PAGES_PER_WINDOW && NoDup(asked + [cursor])
    ensures IsPath(up, s, e, asked, cursor, WalkFrom(up, s, e, asked, cursor))
    decreases MAX_PAGES_PER_WINDOW - |asked|
  {
    hide NoDup;
    var w := WalkFrom(up, s, e, asked, cursor);
    if Continues(up, s, e, asked, cursor) {
      hide IsPath;
      var next := up.list(s, e, cursor).next;
      NoDupSnoc(asked + [cursor], next);
      WalkIsAPath(up, s, e, asked + [cursor], next);
      LongerPath(up, s, e, asked, cursor, WalkFrom(up, s, e, asked + [cursor], next));
    } else if |asked| == MAX_PAGES_PER_WINDOW {
      NoDupPrefix(asked, [cursor]);
      assert asked + w.cursors == asked;
    } else {
      assert w.cursors == [cursor];
    }
  }

  /** Paging stops within 1000 requests or fails, over pairwise distinct cursors. */
  lemma PagingTerminatesOnDistinctCursors(up: Upstream, s: int, e: int)
    ensures IsPath(up, s, e, [], FirstCursor(up.resource), WindowWalk(up, s, e))
  {
    WalkIsAPath(up, s, e, [], FirstCursor(up.resource));
  }

  /** The page says that nothing follows it. An approval page without entries says so too. */
  predicate IsFinal(r: Resource, p: Page) {
    || p.next == Num(0) || p.next == Text("")
    || (r == Reports && p.endflag)
    || (r == Approvals && p.ids == [])
  }

  /** The page's cursor does not move forward. */
  predicate Backward(up: Upstream, asked: Cursor, p: Page) {
    up.asInt(asked).Some? && up.asInt(p.next).Some? && up.asInt(p.next).value <= up.asInt(asked).value
  }

  predicate GoesOn(up: Upstream, asked: Cursor, p: Page) {
    !p.failed && !IsFinal(up.resource, p) && !Backward(up, asked, p)
  }

  /** Every page but the last named a following one; and how the last one ended the walk. */
  ghost predicate EndsAsItMust(up: Upstream, asked: seq<Cursor>, w: Walk) {
    var n, all := |w.cursors| - 1, asked + w.cursors;
    && |w.cursors| == |w.pages|
    && (forall i :: 0 <= i < n ==> GoesOn(up, w.cursors[i], w.pages[i]))
    && (w.error != Some(TooManyPages) ==> n >= 0)
    && match w.error
       case None => !w.pages[n].failed && IsFinal(up.resource, w.pages[n])
       case Some(UpstreamError) => w.pages[n].failed
       case Some(RepeatedCursor) => !w.pages[n].failed && !IsFinal(up.resource, w.pages[n]) && w.pages[n].next in all
       case Some(BackwardCursor) =>
         && !w.pages[n].failed && !IsFinal(up.resource, w.pages[n]) && w.pages[n].next !in all
         && Backward(up, w.cursors[n], w.pages[n])
       case Some(TooManyPages) => |all| == 1000 && (n >= 0 ==> GoesOn(up, w.cursors[n], w.pages[n]))
  }

  lemma EndsLonger(up: Upstream, asked: seq<Cursor>, cursor: Cursor, page: Page, rest: Walk)
    requires GoesOn(up, cursor, page) && EndsAsItMust(up, asked + [cursor], rest)
    ensures EndsAsItMust(up, asked, Walk([cursor] + rest.cursors, [page] + rest.pages, rest.error))
  {
    hide GoesOn, IsFinal, Backward;
    assert asked + ([cursor] + rest.cursors) == (asked + [cursor]) + rest.cursors;
    var w := Walk([cursor] + rest.cursors, [page] + rest.pages, rest.error);
    forall i | 0 <= i < |w.cursors| - 1 ensures GoesOn(up, w.cursors[i], w.pages[i]) {
      assert i > 0 ==> w.cursors[i] == rest.cursors[i - 1] && w.pages[i] == rest.pages[i - 1];
    }
  }

  lemma {:induction false} WalksEndAsTheyMust(up: Upstream, s: int, e: int, asked: seq<Cursor>, cursor: Cursor)
    requires |asked| <= MAX_PAGES_PER_WINDOW
    ensures EndsAsItMust(up, asked, WalkFrom(up, s, e, asked, cursor))
    decreases MAX_PAGES_PER_WINDOW - |asked|
  {
    var page := up.list(s, e, cursor);
    if Continues(up, s, e, asked, cursor) {
      assert GoesOn(up, cursor, page);
      WalksEndAsTheyMust(up, s, e, asked + [cursor], page.next);
      EndsLonger(up, asked, cursor, page, WalkFrom(up, s, e, asked + [cursor], page.next));
    } else {
      assert asked + [] == asked;
    }
  }

  /** How the reading of a window ends is fixed by its pages: well on a page that nothing follows, and
      otherwise with the error that the last page read deserves, or after 1000 of them. */
  lemma WindowEndsAsItMust(up: Upstream, s: int, e: int)
    ensures EndsAsItMust(up, [], WindowWalk(up, s, e))
    ensures
      var cursors := WindowWalk(up, s, e).cursors;
      cursors != [] && cursors[0] == if up.resource == Reports then Num(0) else Text("")
    ensures FetchWindow(up, s, e).Ok? <==> WindowWalk(up, s, e).error == None
    ensures FetchWindow(up, s, e).Err? ==> WindowWalk(up, s, e).error == Some(FetchWindow(up, s, e).error)
  {
    WalksEndAsTheyMust(up, s, e, [], FirstCursor(up.resource));
  }

  ghost predicate ServesPage(
    up: Upstream, s: int, e: int, cursors: seq<Cursor>, chunks: seq<seq<Id>>, i: nat)
    requires i < |cursors| == |chunks|
  {
    var page := up.list(s, e, cursors[i]);
    && !page.failed && page.ids == chunks[i]
    && (LastPage(up.resource, page) <==> i == |cursors| - 1)
    && (i < |cursors| - 1 ==>
          && page.next == cursors[i + 1]
          && var a, b := up.asInt(cursors[i]), up.asInt(cursors[i + 1]);
             (a.Some? && b.Some? ==> a.value < b.value))
  }

  /** An upstream that serves `chunks` as one well-formed chain of pages. */
  ghost predicate ServesChain(up: Upstream, s: int, e: int, cursors: seq<Cursor>, chunks: seq<seq<Id>>) {
    && |cursors| == |chunks| > 0
    && cursors[0] == FirstCursor(up.resource)
    && NoDup(cursors)
    && (forall i :: 0 <= i < |cursors| ==> ServesPage(up, s, e, cursors, chunks, i))
  }

  /** A chain of at most 1000 pages is read whole; a longer one is refused, never cut short. */
  lemma ChainIsReadWhole(up: Upstream, s: int, e: int, cursors: seq<Cursor>, chunks: seq<seq<Id>>)
    requires ServesChain(up, s, e, cursors, chunks)
    ensures FetchWindow(up, s, e) ==
            if |chunks| <= MAX_PAGES_PER_WINDOW then Ok(Dedup(Flatten(chunks))) else Err(TooManyPages)
  {
    assert cursors[..0] == [] && chunks[0..] == chunks;
    ChainFrom(up, s, e, cursors, chunks, 0);
  }

  lemma {:induction false} ChainFrom(up: Upstream, s: int, e: int, cursors: seq<Cursor>, chunks: seq<seq<Id>>, i: nat)
    requires ServesChain(up, s, e, cursors, chunks)
    requires i < |cursors| && i <= MAX_PAGES_PER_WINDOW
    ensures
      var w := WalkFrom(up, s, e, cursors[..i], cursors[i]);
      if |chunks| <= MAX_PAGES_PER_WINDOW
      then w.error.None? && IdsOf(w.pages) == Flatten(chunks[i..])
      else w.error == Some(TooManyPages)
    decreases MAX_PAGES_PER_WINDOW - i
  {
    if i < MAX_PAGES_PER_WINDOW {
      var page := up.list(s, e, cursors[i]);
      assert ServesPage(up, s, e, cursors, chunks, i);
      assert chunks[i..] == [chunks[i]] + chunks[i + 1..];
      assert cursors[..i + 1] == cursors[..i] + [cursors[i]];
      if i < |cursors| - 1 {
        assert cursors[i + 1] !in cursors[..i + 1];
        ChainFrom(up, s, e, cursors, chunks, i + 1);
        var rest := WalkFrom(up, s, e, cursors[..i + 1], cursors[i + 1]);
        assert ([page] + rest.pages)[1..] == rest.pages;
      } else {
        assert chunks[i + 1..] == [];
        assert IdsOf([page]) == page.ids + IdsOf([]);
      }
    }
  }

  function Segments(s: int, e: int, span: int): seq<(int, int)>
    requires span > 0
    decreases e - s
  {
    if s >= e then []
    else
      var cut := if s + span < e then s + span else e;
      [(s, cut)] + Segments(cut, e, span)
  }

  /** The cuts meet end to end from `s` to `e`; each but the last is a whole segment long, and the last
      is neither empty nor longer. */
  lemma {:induction false} SegmentsTile(s: int, e: int, span: int)
    requires span > 0
    ensures
      var cuts := Segments(s, e, span);
      && (cuts == [] <==> s >= e)
      && (cuts != [] ==> cuts[0].0 == s && cuts[|cuts| - 1].1 == e)
      && (forall i :: 0 <= i < |cuts| ==> 0 < Length(cuts[i]) <= span)
      && (forall i :: 0 < i < |cuts| ==> cuts[i].0 == cuts[i - 1].1)
      && (forall i :: 0 <= i < |cuts| - 1 ==> Length(cuts[i]) == span)
    decreases e - s
  {
    if s < e {
      var cut := if s + span < e then s + span else e;
      SegmentsTile(cut, e, span);
      var cuts, rest := Segments(s, e, span), Segments(cut, e, span);
      assert cuts == [(s, cut)] + rest;
      assert forall i :: 0 < i < |cuts| ==> cuts[i] == rest[i - 1];
    }
  }

  /** Reports are listed 30 days at a time, approvals 31. */
  lemma SegmentsOfAResource(r: Resource, s: int, e: int)
    ensures
      var cuts := Segments(s, e, Segment(r));
      forall i :: 0 <= i < |cuts| - 1 ==> Length(cuts[i]) == if r == Reports then 2592000 else 2678400
  {
    SegmentsTile(s, e, Segment(r));
  }

  /** Windows of [s, e), of which only the whole may be empty. */
  ghost predicate Within(ranges: seq<(int, int)>, s: int, e: int) {
    forall i :: 0 <= i < |ranges| ==>
      s <= ranges[i].0 && ranges[i].1 <= e && (ranges[i] == (s, e) || ranges[i].0 < ranges[i].1)
  }

  /** A window and what is listed of its two halves, in either order, are all distinct. */
  lemma HalvesAreDistinct(lower: seq<(int, int)>, upper: seq<(int, int)>, s: int, m: int, e: int)
    requires s < m < e && NoDup(lower) && NoDup(upper) && Within(lower, s, m) && Within(upper, m, e)
    ensures NoDup([(s, e)] + lower + upper) && Within([(s, e)] + lower + upper, s, e)
    ensures NoDup([(s, e)] + upper + lower) && Within([(s, e)] + upper + lower, s, e)
  {
    OneIsDistinct((s, e));
    hide NoDup;
    NoDupJoin([(s, e)], lower);
    NoDupJoin([(s, e)], upper);
    NoDupJoin([(s, e)] + lower, upper);
    NoDupJoin([(s, e)] + upper, lower);
  }

  /** The windows of two neighbouring ranges are all distinct. */
  lemma NeighboursAreDistinct(older: seq<(int, int)>, newer: seq<(int, int)>, s: int, m: int, e: int)
    requires s <= m < e && (s == m ==> older == [])
    requires NoDup(older) && NoDup(newer) && Within(older, s, m) && Within(newer, m, e)
    ensures NoDup(newer + older) && Within(newer + older, s, e)
  {
    hide NoDup;
    NoDupJoin(newer, older);
  }

  /** The error of the last listing asked for, where it answered with one. */
  function LastError(fetch: Fetch, asked: seq<(int, int)>): Option<PageError> {
    if asked == [] then None
    else
      match fetch(asked[|asked| - 1].0, asked[|asked| - 1].1)
      case Err(error) => Some(error)
      case Ok(_) => None
  }

  predicate OthersAnswer(fetch: Fetch, asked: seq<(int, int)>) {
    forall i :: 0 <= i < |asked| - 1 ==> fetch(asked[i].0, asked[i].1).Ok?
  }

  lemma OneAnswers(fetch: Fetch, s: int, e: int)
    ensures OthersAnswer(fetch, [(s, e)])
    ensures LastError(fetch, [(s, e)]) == if fetch(s, e).Ok? then None else Some(fetch(s, e).error)
    ensures LastError(fetch, []) == None && OthersAnswer(fetch, [])
  {
  }

  lemma AnswersJoin(fetch: Fetch, a: seq<(int, int)>, b: seq<(int, int)>)
    requires OthersAnswer(fetch, a) && OthersAnswer(fetch, b) && (b != [] ==> LastError(fetch, a) == None)
    ensures OthersAnswer(fetch, a + b)
    ensures LastError(fetch, a + b) == if b == [] then LastError(fetch, a) else LastError(fetch, b)
  {
    var all := a + b;
    forall i | 0 <= i < |all| - 1 ensures fetch(all[i].0, all[i].1).Ok? {
      assert i >= |a| ==> all[i] == b[i - |a|];
    }
    assert b == [] ==> all == a;
    assert b != [] ==> all[|all| - 1] == b[|b| - 1];
  }

  function Length(window: (int, int)): int { window.1 - window.0 }

  /** The per-segment results in order, or the first failure. */
  function FetchSegments(up: Upstream, segments: seq<(int, int)>): Result<seq<seq<Id>>, PageError> {
    if segments == [] then Ok([])
    else
      match FetchWindow(up, segments[0].0, segments[0].1)
      case Err(error) => Err(error)
      case Ok(ids) =>
        match FetchSegments(up, segments[1..])
        case Err(error) => Err(error)
        case Ok(rest) => Ok([ids] + rest)
  }

  /** The uncapped listing of a whole range. */
  function SyncWindow(up: Upstream, s: int, e: int): Result<seq<Id>, PageError> {
    match FetchSegments(up, Segments(s, e, Segment(up.resource)))
    case Err(error) => Err(error)
    case Ok(parts) => Ok(Dedup(Flatten(parts)))
  }

  predicate AllRead(up: Upstream, segments: seq<(int, int)>) {
    forall i :: 0 <= i < |segments| ==> FetchWindow(up, segments[i].0, segments[i].1).Ok?
  }

  /** A list of segments is read exactly when each of them is, and otherwise fails as the first that is not. */
  lemma {:induction false} SegmentsAreReadExactly(up: Upstream, segments: seq<(int, int)>)
    ensures
      var r := FetchSegments(up, segments);
      && (r.Ok? <==> AllRead(up, segments))
      && (r.Ok? ==>
            && |r.value| == |segments|
            && forall i :: 0 <= i < |segments| ==> FetchWindow(up, segments[i].0, segments[i].1) == Ok(r.value[i]))
      && (r.Err? ==> exists i :: 0 <= i < |segments| && FetchWindow(up, segments[i].0, segments[i].1) == Err(r.error)
                                 && forall j :: 0 <= j < i ==> FetchWindow(up, segments[j].0, segments[j].1).Ok?)
  {
    hide FetchWindow;
    if segments != [] {
      SegmentsAreReadExactly(up, segments[1..]);
      var r, rest := FetchSegments(up, segments), FetchSegments(up, segments[1..]);
      assert forall i :: 0 < i < |segments| ==> segments[i] == segments[1..][i - 1];
      if r.Err? && FetchWindow(up, segments[0].0, segments[0].1).Ok? {
        var i :| 0 <= i < |segments[1..]| && FetchWindow(up, segments[1..][i].0, segments[1..][i].1) == Err(rest.error)
                 && forall j :: 0 <= j < i ==> FetchWindow(up, segments[1..][j].0, segments[1..][j].1).Ok?;
        assert segments[i + 1] == segments[1..][i];
        assert forall j :: 0 < j < i + 1 ==> segments[j] == segments[1..][j - 1];
      }
    }
  }

  /** So a range is listed exactly when each of its segments is, as what they list, each id where it first
      occurs. */
  lemma RangeIsListedExactly(up: Upstream, s: int, e: int)
    ensures
      var cuts := Segments(s, e, Segment(up.resource));
      && (SyncWindow(up, s, e).Ok? <==> AllRead(up, cuts))
      && (SyncWindow(up, s, e).Ok? ==> exists parts: seq<seq<Id>> ::
            && |parts| == |cuts|
            && (forall i :: 0 <= i < |cuts| ==> FetchWindow(up, cuts[i].0, cuts[i].1) == Ok(parts[i]))
            && SyncWindow(up, s, e).value == Dedup(Flatten(parts)))
  {
    hide FetchWindow, Dedup, Flatten, NoDup, AllRead, Segments;
    var cuts := Segments(s, e, Segment(up.resource));
    SegmentsAreReadExactly(up, cuts);
    if SyncWindow(up, s, e).Ok? {
      var parts := FetchSegments(up, cuts).value;
      assert SyncWindow(up, s, e).value == Dedup(Flatten(parts));
    }
  }

  method AppendNew(seen0: set<Id>, result0: seq<Id>, ids: seq<Id>, ghost base: seq<Id>)
    returns (seen: set<Id>, result: seq<Id>)
    requires result0 == Dedup(base) && seen0 == Elements(base)
    ensures result == Dedup(base + ids) && seen == Elements(base + ids)
  {
    hide NoDup, Dedup;
    seen, result := seen0, result0;
    assert base + ids[..0] == base;
    for k := 0 to |ids|
      invariant result == Dedup(base + ids[..k]) && seen == Elements(base + ids[..k])
    {
      var id := ids[k];
      assert base + ids[..k + 1] == (base + ids[..k]) + [id];
      DedupSnoc(base + ids[..k], id);
      if id !in seen {
        seen := seen + {id};
        result := result + [id];
      }
    }
    assert ids[..|ids|] == ids;
  }

  /** The page loop. `result` and `seen` carry what earlier segments collected. */
  method ReadPages(up: Upstream, s: int, e: int, seen0: set<Id>, result0: seq<Id>, ghost base: seq<Id>)
    returns (error: Option<PageError>, seen: set<Id>, result: seq<Id>)
    requires result0 == Dedup(base) && seen0 == Elements(base)
    ensures error == WindowWalk(up, s, e).error
    ensures
      var all := base + IdsOf(WindowWalk(up, s, e).pages);
      error.None? ==> result == Dedup(all) && seen == Elements(all)
  {
    hide NoDup, Dedup;
    seen, result := seen0, result0;
    ghost var target := WindowWalk(up, s, e);
    var cursor := FirstCursor(up.resource);
    var seenCursors := {cursor};
    var pageCount := 0;
    ghost var asked: seq<Cursor> := [];
    ghost var got, w := base, target;
    while true
      invariant pageCount == |asked| <= MAX_PAGES_PER_WINDOW
      invariant seenCursors == Elements(asked + [cursor])
      invariant w == WalkFrom(up, s, e, asked, cursor)
      invariant target.error == w.error && base + IdsOf(target.pages) == got + IdsOf(w.pages)
      invariant result == Dedup(got) && seen == Elements(got)
      decreases MAX_PAGES_PER_WINDOW - pageCount
    {
      if pageCount >= MAX_PAGES_PER_WINDOW {
        return Some(TooManyPages), seen, result;
      }
      var page := up.list(s, e, cursor);
      pageCount := pageCount + 1;
      if page.failed {
        return Some(UpstreamError), seen, result;
      }
      seen, result := AppendNew(seen, result, page.ids, got);
      got := got + page.ids;
      if LastPage(up.resource, page) {
        assert got + [] == got && page.ids + [] == page.ids && IdsOf([page]) == page.ids + IdsOf([]);
        return None, seen, result;
      }
      var problem := CheckNext(up, cursor, page.next, seenCursors);
      if problem.Some? {
        return problem, seen, result;
      }
      seenCursors := seenCursors + {page.next};
      asked, cursor := asked + [cursor], page.next;
      w := WalkFrom(up, s, e, asked, cursor);
      assert ([page] + w.pages)[1..] == w.pages;
    }
  }

  method FetchIdentifiers(up: Upstream, s: int, e: int) returns (r: Result<seq<Id>, PageError>)
    ensures r == FetchWindow(up, s, e)
  {
    var error, _, ids := ReadPages(up, s, e, {}, [], []);
    assert [] + IdsOf(WindowWalk(up, s, e).pages) == IdsOf(WindowWalk(up, s, e).pages);
    r := if error.Some? then Err(error.value) else Ok(ids);
  }

  method SplitRange(s: int, e: int, span: int) returns (segments: seq<(int, int)>)
    requires span > 0
    ensures segments == Segments(s, e, span)
  {
    segments := [];
    var start := s;
    while start < e
      invariant segments + Segments(start, e, span) == Segments(s, e, span)
      decreases e - start
    {
      var end := if start + span < e then start + span else e;
      assert segments + ([(start, end)] + Segments(end, e, span)) ==
             (segments + [(start, end)]) + Segments(end, e, span);
      segments := segments + [(start, end)];
      start := end;
    }
  }

  /** The segmented loop, whose `seen` set spans all segments, is the first-occurrence
      concatenation of what each segment alone returns. */
  method SyncRange(up: Upstream, s: int, e: int) returns (r: Result<seq<Id>, PageError>)
    ensures r == SyncWindow(up, s, e)
  {
    hide NoDup, Dedup, WindowWalk;
    var segments := SplitRange(s, e, Segment(up.resource));
    var seen: set<Id> := {};
    var result: seq<Id> := [];
    ghost var parts: seq<seq<Id>> := [];
    ghost var base: seq<Id> := [];
    var i := 0;
    assert segments[0..] == segments;
    assert forall tail: seq<seq<Id>> :: parts + tail == tail;
    while i < |segments|
      invariant 0 <= i <= |segments|
      invariant base == Flatten(parts)
      invariant result == Dedup(base) && seen == Elements(base)
      invariant FetchSegments(up, segments) == Prepend(parts, FetchSegments(up, segments[i..]))
    {
      var segment := segments[i];
      var error, seen', result' := ReadPages(up, segment.0, segment.1, seen, result, base);
      assert segments[i..] == [segment] + segments[i + 1..];
      if error.Some? {
        return Err(error.value);
      }
      parts, base := AddSegment(up, segments, i, parts, base);
      seen, result := seen', result';
      i := i + 1;
    }
    assert segments[i..] == [] && parts + [] == parts;
    r := Ok(result);
  }

  /** One more segment read without error moves to the front of what is known. */
  lemma PrependOne(up: Upstream, segments: seq<(int, int)>, i: nat, parts: seq<seq<Id>>, ids: seq<Id>)
    requires i < |segments| && FetchWindow(up, segments[i].0, segments[i].1) == Ok(ids)
    ensures Prepend(parts, FetchSegments(up, segments[i..])) ==
            Prepend(parts + [ids], FetchSegments(up, segments[i + 1..]))
  {
    hide FetchWindow;
    var tail := FetchSegments(up, segments[i + 1..]);
    assert segments[i..][1..] == segments[i + 1..];
    if tail.Ok? {
      assert parts + ([ids] + tail.value) == (parts + [ids]) + tail.value;
    }
  }

  lemma SameAfterDedup(base: seq<Id>, raw: seq<Id>)
    ensures Dedup(base + Dedup(raw)) == Dedup(base + raw) && Elements(base + Dedup(raw)) == Elements(base + raw)
  {
    hide NoDup;
    DedupAbsorbs(base, raw);
  }

  lemma AddSegment(up: Upstream, segments: seq<(int, int)>, i: nat, parts: seq<seq<Id>>, base: seq<Id>)
    returns (parts': seq<seq<Id>>, base': seq<Id>)
    requires i < |segments| && base == Flatten(parts)
    requires FetchSegments(up, segments) == Prepend(parts, FetchSegments(up, segments[i..]))
    requires FetchWindow(up, segments[i].0, segments[i].1).Ok?
    ensures base' == Flatten(parts')
    ensures FetchSegments(up, segments) == Prepend(parts', FetchSegments(up, segments[i + 1..]))
    ensures
      var raw := IdsOf(WindowWalk(up, segments[i].0, segments[i].1).pages);
      Dedup(base') == Dedup(base + raw) && Elements(base') == Elements(base + raw)
  {
    hide NoDup, Dedup, WindowWalk, IdsOf, Flatten, FetchSegments, Prepend, Elements;
    var ids := FetchWindow(up, segments[i].0, segments[i].1).value;
    SameAfterDedup(base, IdsOf(WindowWalk(up, segments[i].0, segments[i].1).pages));
    FlattenSnoc(parts, ids);
    PrependOne(up, segments, i, parts, ids);
    parts', base' := parts + [ids], base + ids;
  }

  ghost function Prepend(parts: seq<seq<Id>>, r: Result<seq<seq<Id>>, PageError>): Result<seq<seq<Id>>, PageError> {
    match r case Err(error) => Err(error) case Ok(rest) => Ok(parts + rest)
  }

  /** When each record was submitted. */
  type Times = map<Id, int>

  /** `ids` lists a window of a growing upstream completely: everything submitted before `now` is there. */
  ghost predicate Complete(ids: seq<Id>, times: Times, s: int, e: int, now: int) {
    && NoDup(ids)
    && (forall id :: id in ids ==> id in times && s <= times[id] < e)
    && (forall id :: id in times && s <= times[id] < e && times[id] < now ==> id in ids)
  }

  /** Every single window this upstream lists without an error is listed completely. */
  ghost predicate Faithful(up: Upstream, times: Times, now: int) {
    forall s, e :: s < e <= s + Segment(up.resource) && FetchWindow(up, s, e).Ok? ==>
      Complete(FetchWindow(up, s, e).value, times, s, e, now)
  }

  lemma {:induction false} SegmentsComplete(up: Upstream, s: int, e: int, times: Times, now: int)
    requires Faithful(up, times, now)
    requires FetchSegments(up, Segments(s, e, Segment(up.resource))).Ok?
    ensures
      var all := Flatten(FetchSegments(up, Segments(s, e, Segment(up.resource))).value);
      && (forall id :: id in all ==> id in times && s <= times[id] < e)
      && (forall id :: id in times && s <= times[id] < e && times[id] < now ==> id in all)
    decreases e - s
  {
    if s < e {
      var span := Segment(up.resource);
      var cut := if s + span < e then s + span else e;
      assert Segments(s, e, span) == [(s, cut)] + Segments(cut, e, span);
      assert Segments(s, e, span)[1..] == Segments(cut, e, span);
      SegmentsComplete(up, cut, e, times, now);
      var rest := FetchSegments(up, Segments(cut, e, span)).value;
      var head := FetchWindow(up, s, cut).value;
      assert ([head] + rest)[1..] == rest;
      assert Flatten([head] + rest) == head + Flatten(rest);
    }
  }

  /** A long range of a faithful upstream is listed completely, whatever its length. */
  lemma RangeIsComplete(up: Upstream, s: int, e: int, times: Times, now: int)
    requires Faithful(up, times, now) && SyncWindow(up, s, e).Ok?
    ensures Complete(SyncWindow(up, s, e).value, times, s, e, now)
  {
    SegmentsComplete(up, s, e, times, now);
  }
}
