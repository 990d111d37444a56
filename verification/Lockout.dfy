/** The tenant account row as a lockout machine, and how many wrong passwords it lets through. */
module Lockout {
  import opened Common

  datatype Status = Active | Disabled | Locked

  type Hash = nat

  /** Times are in seconds. The deadline column keeps whole seconds. */
  datatype Row = Row(hash: Hash, status: Status, failed: int, lockedUntil: Option<real>)

  const LOCK_THRESHOLD: int := 5
  const LOCK_SECONDS: real := 900.0

  /** What a DATETIME column without fractional digits keeps of a time: the nearest second. */
  function Stored(t: real): real { (t + 0.5).Floor as real }

  function Deadline(now: real): real { Stored(now + LOCK_SECONDS) }

  /** The row's status as an attempt sees it: an expired lock counts as lifted. */
  function StatusAt(row: Row, now: real): Status {
    if row.status == Locked && row.lockedUntil.Some? && row.lockedUntil.value <= now then Active else row.status
  }

  function AtLeastZero(n: int): nat { if n < 0 then 0 else n }

  /** The row after one wrong password was counted. The count read is the one from before the lock expired. */
  function Fail(row: Row, now: real): Row {
    var failed := AtLeastZero(row.failed) + 1;
    var locks := failed >= LOCK_THRESHOLD;
    row.(failed := failed, status := if locks then Locked else Active,
         lockedUntil := if locks then Some(Deadline(now)) else None)
  }

  predicate IsEvaluated(row: Option<Row>, initialHash: Hash, now: real) {
    row.Some? && row.value.hash == initialHash && StatusAt(row.value, now) == Active
  }

  datatype Event = Wrong(at: real) | Reset

  /** The wrong passwords evaluated since the last success, password change, status change or deletion. */
  function WrongSinceReset(log: seq<Event>): seq<real> {
    if log == [] then []
    else
      match log[|log| - 1]
      case Reset => []
      case Wrong(at) => WrongSinceReset(log[..|log| - 1]) + [at]
  }

  lemma WrongSnoc(log: seq<Event>, e: Event)
    ensures WrongSinceReset(log + [e]) == if e.Reset? then [] else WrongSinceReset(log) + [e.at]
  {
    assert (log + [e])[..|log|] == log;
  }

  /** From the sixth on, a wrong password is evaluated only after the stored deadline of the one before. */
  ghost predicate Spaced(wrong: seq<real>) {
    && (forall i, j :: 0 <= i < j < |wrong| ==> wrong[i] <= wrong[j])
    && (forall i :: LOCK_THRESHOLD <= i < |wrong| ==> Deadline(wrong[i - 1]) <= wrong[i])
  }

  /** Active rows hold fewer than five failures; locked rows hold the deadline of the last one. */
  ghost predicate RowSound(row: Option<Row>, wrong: seq<real>) {
    match row
    case None => wrong == []
    case Some(r) =>
      && r.failed == |wrong|
      && match r.status
         case Active => |wrong| < LOCK_THRESHOLD && r.lockedUntil.None?
         case Disabled => wrong == [] && r.lockedUntil.None?
         case Locked => |wrong| >= LOCK_THRESHOLD && r.lockedUntil == Some(Deadline(wrong[|wrong| - 1]))
  }

  lemma SoundAfterReset(hash: Hash)
    ensures RowSound(Some(Row(hash, Active, 0, None)), []) && Spaced([])
  {
  }

  lemma WrongPasswordKeepsSound(row: Row, wrong: seq<real>, now: real)
    requires RowSound(Some(row), wrong) && Spaced(wrong) && StatusAt(row, now) == Active
    requires forall i :: 0 <= i < |wrong| ==> wrong[i] <= now
    ensures RowSound(Some(Fail(row, now)), wrong + [now]) && Spaced(wrong + [now])
  {
    hide Deadline;
    var more := wrong + [now];
    forall i | LOCK_THRESHOLD <= i < |more| ensures Deadline(more[i - 1]) <= more[i] {
      if i < |wrong| {
        assert more[i] == wrong[i] && more[i - 1] == wrong[i - 1];
      }
    }
  }

  /** A counted failure raises the count by one, and locks from the fifth on, for 15 minutes to the
      nearest second. */
  lemma CountedFailure(row: Row, wrong: seq<real>, now: real)
    requires RowSound(Some(row), wrong)
    ensures
      var failed := row.failed + 1;
      Fail(row, now) == if failed >= 5 then Row(row.hash, Locked, failed, Some((now + 900.0 + 0.5).Floor as real))
                        else Row(row.hash, Active, failed, None)
  {
  }

  class AccountStore {
    var row: Option<Row>
    ghost var log: seq<Event>
    ghost var clock: real

    ghost predicate Valid()
      reads this
    {
      var wrong := WrongSinceReset(log);
      && RowSound(row, wrong) && Spaced(wrong)
      && (forall i :: 0 <= i < |wrong| ==> wrong[i] <= clock)
    }

    constructor ()
      ensures Valid() && row == None && log == [] && clock == 0.0
    {
      row, log, clock := None, [], 0.0;
    }

    /** The second, locked half of an attempt: the row may have changed since the hash was read. It is
        evaluated on an unchanged row that is active, or whose lock has a deadline that has passed;
        any other row, a disabled one or one locked before its deadline, stays as it is, unlogged. */
    method Authenticate(initialHash: Hash, matches: bool, now: real) returns (ok: bool)
      requires Valid() && clock <= now
      modifies this
      ensures Valid() && clock == now
      ensures
        var open := old(row).Some? && old(row).value.hash == initialHash
                    && (old(row).value.status == Active
                        || (old(row).value.status == Locked && old(row).value.lockedUntil.Some?
                            && old(row).value.lockedUntil.value <= now));
        && (ok <==> open && matches)
        && (!open ==> row == old(row) && log == old(log))
        && (ok ==> row == Some(Row(initialHash, Active, 0, None)) && log == old(log) + [Reset])
        && (open && !matches ==>
              && log == old(log) + [Wrong(now)]
              && var failed := old(row).value.failed + 1;
              row == Some(if failed >= 5 then Row(initialHash, Locked, failed, Some((now + 900.0 + 0.5).Floor as real))
                          else Row(initialHash, Active, failed, None)))
      ensures ok <==> IsEvaluated(old(row), initialHash, now) && matches
      ensures log == old(log) + if !IsEvaluated(old(row), initialHash, now) then []
                                else if ok then [Reset] else [Wrong(now)]
      ensures
        var wrong := WrongSinceReset(old(log));
        WrongSinceReset(log) ==
        if !IsEvaluated(old(row), initialHash, now) then wrong else if ok then [] else wrong + [now]
      ensures row == if !IsEvaluated(old(row), initialHash, now) then old(row)
                     else if ok then Some(Row(initialHash, Active, 0, None))
                     else Some(Fail(old(row).value, now))
    {
      hide Deadline, Spaced, RowSound, WrongSinceReset;
      SoundAfterReset(initialHash);
      clock := now;
      if row.None? || row.value.hash != initialHash {
        return false;
      }
      var values := row.value;
      var status := values.status;
      if status == Locked && values.lockedUntil.Some? && values.lockedUntil.value <= now {
        status := Active;
        row := Some(values.(status := Active, failed := 0, lockedUntil := None));
      }
      if status != Active {
        return false;
      }
      if !matches {
        var failed := AtLeastZero(values.failed) + 1;
        var next := if failed >= LOCK_THRESHOLD then Locked else Active;
        var until := if next == Locked then Some(Deadline(now)) else None;
        row := Some(row.value.(failed := failed, status := next, lockedUntil := until));
        assert row == Some(Fail(values, now));
        CountedFailure(values, WrongSinceReset(log), now);
        WrongPasswordKeepsSound(values, WrongSinceReset(log), now);
        WrongSnoc(log, Wrong(now));
        log := log + [Wrong(now)];
        return false;
      }
      row := Some(row.value.(failed := 0, lockedUntil := None));
      assert row == Some(Row(initialHash, Active, 0, None));
      WrongSnoc(log, Reset);
      log := log + [Reset];
      return true;
    }

    method UpsertAccount(hash: Hash, status: Status) returns (ok: bool)
      requires Valid()
      modifies this`row, this`log
      ensures Valid()
      ensures ok <==> status != Locked
      ensures row == if ok then Some(Row(hash, status, 0, None)) else old(row)
      ensures log == old(log) + if ok then [Reset] else []
    {
      if status != Active && status != Disabled {
        return false;
      }
      row := Some(Row(hash, status, 0, None));
      WrongSnoc(log, Reset);
      log := log + [Reset];
      return true;
    }

    method SetAccountStatus(status: Status) returns (found: Result<bool, ()>)
      requires Valid()
      modifies this`row, this`log
      ensures Valid()
      ensures found == if status == Locked then Err(()) else Ok(old(row).Some?)
      ensures row == if found == Ok(true) then Some(old(row).value.(status := status, failed := 0, lockedUntil := None))
                     else old(row)
      ensures log == old(log) + if found == Ok(true) then [Reset] else []
    {
      if status != Active && status != Disabled {
        return Err(());
      }
      if row.None? {
        return Ok(false);
      }
      row := Some(row.value.(status := status, failed := 0, lockedUntil := None));
      WrongSnoc(log, Reset);
      log := log + [Reset];
      return Ok(true);
    }

    method DeleteAccount()
      requires Valid()
      modifies this`row, this`log
      ensures Valid() && row == None && log == old(log) + [Reset]
    {
      row := None;
      WrongSnoc(log, Reset);
      log := log + [Reset];
    }
  }

  function CountIn(ts: seq<real>, lo: real, hi: real): nat {
    if ts == [] then 0
    else CountIn(ts[..|ts| - 1], lo, hi) + if lo <= ts[|ts| - 1] < hi then 1 else 0
  }

  lemma {:induction false} CountBefore(ts: seq<real>, lo: real, hi: real)
    requires forall i :: 0 <= i < |ts| ==> ts[i] < lo
    ensures CountIn(ts, lo, hi) == 0
  {
    if ts != [] {
      CountBefore(ts[..|ts| - 1], lo, hi);
    }
  }

  ghost predicate SpacedBy(wrong: seq<real>, gap: real) {
    && (forall i, j :: 0 <= i < j < |wrong| ==> wrong[i] <= wrong[j])
    && (forall i :: LOCK_THRESHOLD <= i < |wrong| ==> wrong[i] - wrong[i - 1] >= gap)
  }

  lemma {:induction false} AtMostFiveIn(wrong: seq<real>, lo: real, gap: real)
    requires SpacedBy(wrong, gap)
    ensures CountIn(wrong, lo, lo + gap) <= LOCK_THRESHOLD
    ensures CountIn(wrong, lo, lo + gap) <= |wrong|
  {
    if wrong != [] {
      var n := |wrong| - 1;
      var front := wrong[..n];
      AtMostFiveIn(front, lo, gap);
      if n >= LOCK_THRESHOLD && lo <= wrong[n] < lo + gap {
        forall i | 0 <= i < n ensures front[i] < lo {
          assert wrong[i] <= wrong[n - 1] <= wrong[n] - gap;
        }
        CountBefore(front, lo, lo + gap);
      }
    }
  }

  lemma FloorIs(x: real, n: int)
    requires n as real <= x < n as real + 1.0
    ensures x.Floor == n
  {
  }

  /** A deadline is kept to the nearest second, so a lock lasts its full 15 minutes exactly when the
      locking attempt's clock reads a whole second or at least half a second past one. */
  lemma LockIsFullExactly(now: real)
    ensures Deadline(now) >= now + LOCK_SECONDS
            <==> now == now.Floor as real || now - now.Floor as real >= 0.5
    ensures Deadline(now) > now + LOCK_SECONDS - 0.5
  {
    var n := now.Floor;
    FloorIs(now + LOCK_SECONDS + 0.5, n + if now - n as real < 0.5 then 900 else 901);
  }

  /** Failures in the half-open 15 minutes from `lo`. */
  function CountFor15Minutes(wrong: seq<real>, lo: real): nat { CountIn(wrong, lo, lo + LOCK_SECONDS) }

  ghost predicate AtMostFive(wrong: seq<real>) {
    forall lo: real :: CountFor15Minutes(wrong, lo) <= LOCK_THRESHOLD
  }

  /** Between resets, any half-open interval of 15 minutes less half a second holds at most five
      evaluated wrong passwords. */
  lemma AtMostFiveInShorterIntervals(wrong: seq<real>, lo: real)
    requires Spaced(wrong)
    ensures CountIn(wrong, lo, lo + LOCK_SECONDS - 0.5) <= LOCK_THRESHOLD
  {
    forall i | LOCK_THRESHOLD <= i < |wrong| ensures wrong[i] - wrong[i - 1] >= LOCK_SECONDS - 0.5 {
      LockIsFullExactly(wrong[i - 1]);
    }
    AtMostFiveIn(wrong, lo, LOCK_SECONDS - 0.5);
    assert lo + (LOCK_SECONDS - 0.5) == lo + LOCK_SECONDS - 0.5;
  }

  lemma {:induction false} CountFrom(ts: seq<real>, n: nat, lo: real, hi: real)
    requires n <= |ts| && forall i :: 0 <= i < n ==> ts[i] < lo
    ensures CountIn(ts, lo, hi) <= |ts| - n
  {
    if n < |ts| {
      CountFrom(ts[..|ts| - 1], n, lo, hi);
    } else {
      CountBefore(ts, lo, hi);
    }
  }

  /** Only the first six failures of a count can ever lie too close together: later ones have two
      locks between them. */
  lemma {:induction false} SpacedCounts(wrong: seq<real>, lo: real)
    requires Spaced(wrong) && (|wrong| > LOCK_THRESHOLD ==> wrong[5] - wrong[0] >= LOCK_SECONDS)
    ensures CountIn(wrong, lo, lo + LOCK_SECONDS) <= LOCK_THRESHOLD
    ensures CountIn(wrong, lo, lo + LOCK_SECONDS) <= |wrong|
    decreases |wrong|
  {
    if wrong != [] {
      var n := |wrong| - 1;
      var front := wrong[..n];
      SpacedCounts(front, lo);
      if n >= 5 && lo <= wrong[n] < lo + LOCK_SECONDS {
        FiveApart(wrong, n);
        CountFrom(wrong, n - 4, lo, lo + LOCK_SECONDS);
      }
    }
  }

  lemma FiveApart(wrong: seq<real>, n: nat)
    requires Spaced(wrong) && LOCK_THRESHOLD <= n < |wrong| && wrong[5] - wrong[0] >= LOCK_SECONDS
    ensures wrong[n] - wrong[n - 5] >= LOCK_SECONDS
  {
    if n > 5 {
      LockIsFullExactly(wrong[n - 1]);
      LockIsFullExactly(wrong[n - 2]);
      assert wrong[n - 5] <= wrong[n - 2];
    }
  }

  /** A count of evaluated failures meets the 15-minute bound exactly when its sixth is 15 minutes
      after its first. */
  lemma AtMostFiveExactly(wrong: seq<real>)
    requires Spaced(wrong)
    ensures AtMostFive(wrong) <==> |wrong| <= LOCK_THRESHOLD || wrong[5] - wrong[0] >= LOCK_SECONDS
  {
    if |wrong| <= LOCK_THRESHOLD || wrong[5] - wrong[0] >= LOCK_SECONDS {
      forall lo: real ensures CountFor15Minutes(wrong, lo) <= LOCK_THRESHOLD {
        SpacedCounts(wrong, lo);
      }
    } else {
      CountAll(wrong[..6], wrong[0], wrong[0] + LOCK_SECONDS);
      CountGrows(wrong, 6, wrong[0], wrong[0] + LOCK_SECONDS);
      assert CountFor15Minutes(wrong, wrong[0]) >= 6;
    }
  }

  lemma {:induction false} CountGrows(ts: seq<real>, n: nat, lo: real, hi: real)
    requires n <= |ts|
    ensures CountIn(ts[..n], lo, hi) <= CountIn(ts, lo, hi)
    decreases |ts|
  {
    if n < |ts| {
      var front := ts[..|ts| - 1];
      CountGrows(front, n, lo, hi);
      assert front[..n] == ts[..n];
    } else {
      assert ts[..n] == ts;
    }
  }

  lemma {:induction false} CountAll(ts: seq<real>, lo: real, hi: real)
    requires forall i :: 0 <= i < |ts| ==> lo <= ts[i] < hi
    ensures CountIn(ts, lo, hi) == |ts|
  {
    if ts != [] {
      CountAll(ts[..|ts| - 1], lo, hi);
    }
  }

  // ----- before the sixth failure -----

  /** Wrong passwords that this row would evaluate, one after the other and none before `clock`. */
  predicate Accepts(row: Row, clock: real, times: seq<real>)
    decreases |times|
  {
    times == [] ||
    (clock <= times[0] && StatusAt(row, times[0]) == Active && Accepts(Fail(row, times[0]), times[0], times[1..]))
  }

  ghost predicate UpTo(wrong: seq<real>, clock: real) { forall i :: 0 <= i < |wrong| ==> wrong[i] <= clock }

  /** The row evaluates exactly the continuations whose failures are spaced by the stored deadlines. */
  lemma {:induction false} AcceptsTheSpaced(row: Row, wrong: seq<real>, clock: real, times: seq<real>)
    requires RowSound(Some(row), wrong) && row.status != Disabled && Spaced(wrong) && UpTo(wrong, clock)
    ensures Accepts(row, clock, times) <==> Spaced(wrong + times) && forall i :: 0 <= i < |times| ==> clock <= times[i]
    decreases |times|
  {
    hide Deadline;
    if times == [] {
      assert wrong + times == wrong;
    } else {
      var t, more := times[0], wrong + [times[0]];
      assert more + times[1..] == wrong + times;
      assert (wrong + times)[|wrong|] == t;
      if clock <= t && StatusAt(row, t) == Active {
        WrongPasswordKeepsSound(row, wrong, t);
        AcceptsTheSpaced(Fail(row, t), more, t, times[1..]);
        LaterThanFirst(wrong, times, clock);
      } else if |wrong| >= LOCK_THRESHOLD {
        NextIsAfterTheDeadline(wrong, times);
      }
    }
  }

  lemma NextIsAfterTheDeadline(wrong: seq<real>, times: seq<real>)
    requires times != [] && |wrong| >= LOCK_THRESHOLD
    ensures Spaced(wrong + times) ==> Deadline(wrong[|wrong| - 1]) <= times[0]
  {
    var all := wrong + times;
    assert all[|wrong| - 1] == wrong[|wrong| - 1] && all[|wrong|] == times[0];
  }

  /** In a spaced list, no later failure is before the first of the continuation. */
  lemma LaterThanFirst(wrong: seq<real>, times: seq<real>, clock: real)
    requires times != [] && clock <= times[0]
    ensures Spaced(wrong + times) ==> forall i :: 0 <= i < |times| ==> times[0] <= times[i]
    ensures forall i :: 0 <= i < |times[1..]| ==> times[1..][i] == times[i + 1]
  {
    var all := wrong + times;
    forall i | 0 <= i < |times| && Spaced(all) ensures times[0] <= times[i] {
      assert all[|wrong|] == times[0] && all[|wrong| + i] == times[i];
    }
  }

  /** What can be read off the first failure, the fifth and the clock. */
  predicate BoundIsSafe(wrong: seq<real>, clock: real) {
    if wrong == [] then false
    else if |wrong| < 5 then Deadline(clock) >= wrong[0] + LOCK_SECONDS
    else if |wrong| == 5 then Deadline(wrong[4]) >= wrong[0] + LOCK_SECONDS || clock >= wrong[0] + LOCK_SECONDS
    else wrong[5] >= wrong[0] + LOCK_SECONDS
  }

  lemma DeadlineIsMonotone(a: real, b: real)
    requires a <= b
    ensures Deadline(a) <= Deadline(b)
  {
    FloorIsMonotone(a + LOCK_SECONDS + 0.5, b + LOCK_SECONDS + 0.5);
  }

  lemma FloorIsMonotone(x: real, y: real)
    requires x <= y
    ensures x.Floor <= y.Floor
  {
    assert x.Floor as real < (y.Floor + 1) as real;
  }

  lemma SafeContinuation(wrong: seq<real>, clock: real, times: seq<real>)
    requires Spaced(wrong) && UpTo(wrong, clock) && BoundIsSafe(wrong, clock)
    requires Spaced(wrong + times) && forall i :: 0 <= i < |times| ==> clock <= times[i]
    ensures AtMostFive(wrong + times)
  {
    hide AtMostFive, Deadline;
    var all := wrong + times;
    AtMostFiveExactly(all);
    if |all| > LOCK_THRESHOLD {
      assert all[0] == wrong[0] && Deadline(all[4]) <= all[5];
      if |wrong| < 5 {
        assert all[4] == times[4 - |wrong|];
        DeadlineIsMonotone(clock, all[4]);
      } else if |wrong| == 5 {
        assert all[4] == wrong[4] && all[5] == times[0];
      } else {
        assert all[5] == wrong[5];
      }
    }
  }

  /** Five failures as early as allowed, and a sixth at the stored deadline. */
  function Soonest(wrong: seq<real>, clock: real): seq<real> {
    var fifth := if wrong == [] then clock.Floor as real + 1.4 else clock;
    if |wrong| < 5 then seq(5 - |wrong|, _ => fifth) + [Deadline(fifth)]
    else if |wrong| == 5 then [if Deadline(wrong[4]) >= clock then Deadline(wrong[4]) else clock]
    else []
  }

  lemma SoonestBreaksTheBound(wrong: seq<real>, clock: real)
    requires Spaced(wrong) && UpTo(wrong, clock) && !BoundIsSafe(wrong, clock)
    ensures
      var times := Soonest(wrong, clock);
      && Spaced(wrong + times) && (forall i :: 0 <= i < |times| ==> clock <= times[i])
      && !AtMostFive(wrong + times)
  {
    var times := Soonest(wrong, clock);
    var all := wrong + times;
    var fifth := if wrong == [] then clock.Floor as real + 1.4 else clock;
    LockIsFullExactly(fifth);
    if wrong == [] {
      FloorIs(fifth + LOCK_SECONDS + 0.5, clock.Floor + 901);
    }
    hide Deadline, AtMostFive;
    if |wrong| < 5 {
      assert forall i :: |wrong| <= i < 5 ==> all[i] == fifth;
      assert all[5] == Deadline(fifth) && |all| == 6;
    } else {
      assert forall i :: 0 <= i < |wrong| ==> all[i] == wrong[i];
    }
    assert Spaced(all);
    AtMostFiveExactly(all);
  }

  /** From any reachable row, every run of further wrong passwords keeps the 15-minute bound exactly
      when the clocks of the first and the fifth failure (or the present one) say so. */
  lemma BoundHoldsExactly(row: Row, wrong: seq<real>, clock: real)
    requires RowSound(Some(row), wrong) && row.status != Disabled && Spaced(wrong) && UpTo(wrong, clock)
    ensures (forall times :: Accepts(row, clock, times) ==> AtMostFive(wrong + times)) <==> BoundIsSafe(wrong, clock)
  {
    hide AtMostFive, BoundIsSafe, Soonest, Accepts, RowSound, Spaced;
    forall times ensures Accepts(row, clock, times) <==>
      Spaced(wrong + times) && forall i :: 0 <= i < |times| ==> clock <= times[i]
    {
      AcceptsTheSpaced(row, wrong, clock, times);
    }
    if BoundIsSafe(wrong, clock) {
      forall times | Accepts(row, clock, times) ensures AtMostFive(wrong + times) {
        SafeContinuation(wrong, clock, times);
      }
    } else {
      SoonestBreaksTheBound(wrong, clock);
      assert Accepts(row, clock, Soonest(wrong, clock));
    }
  }

  /** Six wrong passwords can fall within 15 minutes: five at 0.4 s lock the account
      until 900.0 s, where the sixth is evaluated, 899.6 s later. */
  method SixWrongPasswordsInFifteenMinutes(hash: Hash) returns (store: AccountStore)
    ensures fresh(store) && store.Valid()
    ensures WrongSinceReset(store.log) == [0.4, 0.4, 0.4, 0.4, 0.4, 900.0]
    ensures CountIn(WrongSinceReset(store.log), 0.4, 0.4 + LOCK_SECONDS) == 6
  {
    store := new AccountStore();
    hide CountIn, Spaced, WrongSinceReset;
    var ok := store.UpsertAccount(hash, Active);
    assert WrongSinceReset(store.log) == [] by { WrongSnoc([], Reset); }
    for i := 0 to 5
      invariant store.Valid() && fresh(store) && store.clock <= 0.4
      invariant WrongSinceReset(store.log) == seq(i, _ => 0.4)
      invariant store.row == Some(Row(hash, if i < 5 then Active else Locked, i, if i < 5 then None else Some(900.0)))
    {
      assert Deadline(0.4) == 900.0;
      ok := store.Authenticate(hash, false, 0.4);
    }
    ok := store.Authenticate(hash, false, 900.0);
    CountAll(WrongSinceReset(store.log), 0.4, 0.4 + LOCK_SECONDS);
  }
}
