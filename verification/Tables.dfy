/** The record table: column-wise upserts, and queries by time window. */
module Tables {
  import opened Common
  import opened Paging

  /** `title` stands for the descriptive columns, `kind` for the template. */
  datatype Row = Row(
    kind: string, title: string, time: int, person: string, detail: string,
    windowStart: int, windowEnd: int, syncedAt: int, partial: bool)

  datatype Column =
    | Kind | Title | RecordTime | Person | Detail | WindowStart | WindowEnd | SyncedAt | IsPartial

  /** The assignments of the upsert statement in the order it lists them. */
  const UPDATE_ORDER: seq<Column> :=
    [Kind, Title, RecordTime, Person, Detail, WindowStart, WindowEnd, SyncedAt, IsPartial]

  function CopyColumn(target: Row, source: Row, c: Column): Row {
    match c
    case Kind => target.(kind := source.kind)
    case Title => target.(title := source.title)
    case RecordTime => target.(time := source.time)
    case Person => target.(person := source.person)
    case Detail => target.(detail := source.detail)
    case WindowStart => target.(windowStart := source.windowStart)
    case WindowEnd => target.(windowEnd := source.windowEnd)
    case SyncedAt => target.(syncedAt := source.syncedAt)
    case IsPartial => target.(partial := source.partial)
  }

  /** One assignment sees the columns assigned before it. */
  function AssignColumn(row: Row, values: Row, c: Column): Row {
    if !row.partial && values.partial then row else CopyColumn(row, values, c)
  }

  function AssignColumns(row: Row, values: Row, cs: seq<Column>): Row
    decreases cs
  {
    if cs == [] then row else AssignColumns(AssignColumn(row, values, cs[0]), values, cs[1..])
  }

  /** The whole-row rule: a partial record never replaces a complete one. */
  function Merge(row: Row, values: Row): Row {
    if !row.partial && values.partial then row else values
  }

  predicate SameColumn(a: Row, b: Row, c: Column) {
    CopyColumn(a, b, c) == a
  }

  lemma {:induction false} AssignedColumns(row: Row, values: Row, cs: seq<Column>, c: Column)
    ensures
      var result := AssignColumns(row, values, cs);
      if !row.partial && values.partial then result == row
      else if c in cs then SameColumn(result, values, c)
      else SameColumn(result, row, c)
    decreases cs
  {
    if cs != [] {
      var next := AssignColumn(row, values, cs[0]);
      AssignedColumns(next, values, cs[1..], c);
      if !(!row.partial && values.partial) {
        assert next == CopyColumn(row, values, cs[0]);
        assert c in cs <==> c == cs[0] || c in cs[1..];
      }
    }
  }

  /** In whatever order a statement assigns all the columns, the outcome is the whole-row choice. */
  lemma AnyAssignmentOrderIsMerge(row: Row, values: Row, cs: seq<Column>)
    requires forall c: Column :: c in cs
    ensures AssignColumns(row, values, cs) == Merge(row, values)
  {
    var result := AssignColumns(row, values, cs);
    AssignedColumns(row, values, cs, Kind);
    if !(!row.partial && values.partial) {
      forall c: Column
        ensures SameColumn(result, values, c)
      {
        AssignedColumns(row, values, cs, c);
      }
      assert SameColumn(result, values, Title) && SameColumn(result, values, RecordTime);
      assert SameColumn(result, values, Person) && SameColumn(result, values, Detail);
      assert SameColumn(result, values, WindowStart) && SameColumn(result, values, WindowEnd);
      assert SameColumn(result, values, SyncedAt) && SameColumn(result, values, IsPartial);
    }
  }

  lemma UpdateOrderIsMerge(row: Row, values: Row)
    ensures AssignColumns(row, values, UPDATE_ORDER) == Merge(row, values)
  {
    forall c: Column
      ensures c in UPDATE_ORDER
    {
      var i := match c
        case Kind => 0 case Title => 1 case RecordTime => 2 case Person => 3 case Detail => 4
        case WindowStart => 5 case WindowEnd => 6 case SyncedAt => 7 case IsPartial => 8;
      assert UPDATE_ORDER[i] == c;
    }
    AnyAssignmentOrderIsMerge(row, values, UPDATE_ORDER);
  }

  type Rows = map<Id, Row>

  function UpsertRow(rows: Rows, id: Id, values: Row): Rows {
    rows[id := if id in rows then Merge(rows[id], values) else values]
  }

  /** What one key holds after a first insert and any further upserts. */
  function MergeAll(first: Row, later: seq<Row>): Row {
    if later == [] then first else Merge(MergeAll(first, later[..|later| - 1]), later[|later| - 1])
  }

  /** The last complete row written, or the last row where none was complete. */
  function LastBest(written: seq<Row>): Row
    requires written != []
  {
    var last, before := written[|written| - 1], written[..|written| - 1];
    if before == [] || !last.partial || (forall r :: r in before ==> r.partial) then last else LastBest(before)
  }

  lemma {:induction false} UpsertsKeepTheLastComplete(first: Row, later: seq<Row>)
    ensures MergeAll(first, later) == LastBest([first] + later)
    ensures MergeAll(first, later).partial <==> forall r :: r in [first] + later ==> r.partial
  {
    if later != [] {
      var before, last := later[..|later| - 1], later[|later| - 1];
      UpsertsKeepTheLastComplete(first, before);
      assert later == before + [last];
      assert [first] + later == ([first] + before) + [last];
      assert ([first] + later)[..|later|] == [first] + before;
      assert forall r :: r in [first] + later <==> r in [first] + before || r == last;
    } else {
      assert [first] + later == [first];
      assert first in [first];
    }
  }

  /** The time ordering of a query: a partial row counts as the end of its source window. */
  function SortKey(row: Row): int {
    if row.partial then row.windowEnd else row.time
  }

  predicate Matches(row: Row, s: int, e: int) {
    || (!row.partial && s <= row.time < e)
    || (row.partial && row.windowStart < e && row.windowEnd > s)
  }

  /** The answers a window query may give: the first `n` matching rows, newest first, ties in any order. */
  ghost predicate IsAnswer(rows: Rows, s: int, e: int, n: nat, answer: seq<Id>) {
    && NoDup(answer) && |answer| <= n
    && (forall id :: id in answer ==> id in rows && Matches(rows[id], s, e))
    && (forall i, j :: 0 <= i < j < |answer| ==> SortKey(rows[answer[i]]) >= SortKey(rows[answer[j]]))
    && (forall id :: id in rows && Matches(rows[id], s, e) && id !in answer ==>
          |answer| == n && forall k :: k in answer ==> SortKey(rows[k]) >= SortKey(rows[id]))
  }

  /** What a row must say about the record's true time for queries to find it. */
  predicate RowSound(row: Row, t: int) {
    if row.partial then row.windowStart <= t < row.windowEnd else row.time == t
  }

  ghost predicate TableSound(rows: Rows, times: Times) {
    forall id :: id in rows ==> id in times && RowSound(rows[id], times[id])
  }

  /** A stored record is in the answer of every window that contains its true time, complete or
      partial, unless `n` rows ranked at least as new fill the answer. */
  lemma StoredRecordIsFound(rows: Rows, times: Times, id: Id, s: int, e: int, n: nat, answer: seq<Id>)
    requires TableSound(rows, times) && id in rows && s <= times[id] < e
    requires IsAnswer(rows, s, e, n, answer)
    ensures id in answer || (|answer| == n && forall k :: k in answer ==> SortKey(rows[k]) >= times[id])
  {
    assert Matches(rows[id], s, e);
  }

  /** A row matches a window exactly when the record's true time may lie in it, as far as the row tells. */
  lemma MatchesExactly(row: Row, s: int, e: int)
    requires s < e && (row.partial ==> row.windowStart < row.windowEnd)
    ensures Matches(row, s, e) <==>
            exists t :: s <= t < e && RowSound(row, t)
  {
    if Matches(row, s, e) {
      var t := if !row.partial then row.time else if s < row.windowStart then row.windowStart else s;
      assert s <= t < e && RowSound(row, t);
    }
  }

  /** What stands in the answer of a window query: only rows whose time, or whose source window for a
      partial row, meets the window; complete rows newest first, partial ones by the end of their window;
      and nothing that matches is left out while there is room. */
  lemma AnswersAreExact(rows: Rows, s: int, e: int, n: nat, answer: seq<Id>)
    requires IsAnswer(rows, s, e, n, answer)
    ensures forall id :: id in answer ==>
              id in rows && if rows[id].partial then rows[id].windowStart < e && s < rows[id].windowEnd
                            else s <= rows[id].time < e
    ensures forall i, j :: 0 <= i < j < |answer| ==>
              Rank(rows[answer[i]]) >= Rank(rows[answer[j]])
    ensures NoDup(answer) && |answer| <= n
    ensures |answer| < n ==> forall id :: id in rows && Matches(rows[id], s, e) ==> id in answer
    ensures forall id :: id in rows && Matches(rows[id], s, e) && id !in answer ==>
              forall k :: k in answer ==> Rank(rows[k]) >= Rank(rows[id])
  {
  }

  /** Whatever the table holds, a query has an answer. */
  lemma {:induction false} AnswersExist(rows: Rows, s: int, e: int, n: nat) returns (answer: seq<Id>)
    ensures IsAnswer(rows, s, e, n, answer)
  {
    if n == 0 {
      answer := [];
    } else {
      var before := AnswersExist(rows, s, e, n - 1);
      var left := set id | id in rows && Matches(rows[id], s, e) && id !in before;
      if left == {} {
        answer := before;
        assert forall id :: id in rows && Matches(rows[id], s, e) && id !in answer ==> id in left;
      } else {
        var next := Newest(rows, left);
        answer := before + [next];
        assert forall k :: k in answer <==> k in before || k == next;
      }
    }
  }

  lemma Newest(rows: Rows, ids: set<Id>) returns (newest: Id)
    requires ids != {} && forall id :: id in ids ==> id in rows
    ensures newest in ids && forall id :: id in ids ==> SortKey(rows[newest]) >= SortKey(rows[id])
  {
    newest :| newest in ids;
    var rest := ids - {newest};
    while rest != {}
      invariant newest in ids && rest <= ids
      invariant forall id :: id in ids - rest ==> SortKey(rows[newest]) >= SortKey(rows[id])
    {
      var id :| id in rest;
      if SortKey(rows[id]) > SortKey(rows[newest]) {
        newest := id;
      }
      rest := rest - {id};
    }
  }

  /** The time a row is ranked by. */
  function Rank(row: Row): int { if row.partial then row.windowEnd else row.time }

  /** What one key holds after any writes, the first of which inserts it. */
  function UpsertAll(rows: Rows, id: Id, written: seq<Row>): Rows {
    if written == [] then rows
    else UpsertRow(UpsertAll(rows, id, written[..|written| - 1]), id, written[|written| - 1])
  }

  /** Writing a key changes no other; a new key holds the last complete row written, or else the last. */
  lemma {:induction false} WritesOfOneKey(rows: Rows, id: Id, written: seq<Row>)
    requires id !in rows && written != []
    ensures
      var rows' := UpsertAll(rows, id, written);
      && id in rows' && rows'[id] == LastBest(written)
      && (forall k :: k != id ==> (k in rows' <==> k in rows) && (k in rows ==> rows'[k] == rows[k]))
  {
    UpsertsKeepTheLastComplete(written[0], written[1..]);
    assert [written[0]] + written[1..] == written;
    UpsertAllIsMergeAll(rows, id, written);
  }

  lemma {:induction false} UpsertAllIsMergeAll(rows: Rows, id: Id, written: seq<Row>)
    requires id !in rows && written != []
    ensures
      var rows' := UpsertAll(rows, id, written);
      && id in rows' && rows'[id] == MergeAll(written[0], written[1..])
      && (forall k :: k != id ==> (k in rows' <==> k in rows) && (k in rows ==> rows'[k] == rows[k]))
  {
    var n := |written| - 1;
    if n > 0 {
      UpsertAllIsMergeAll(rows, id, written[..n]);
      assert written[1..][..n - 1] == written[..n][1..];
    }
  }
}
