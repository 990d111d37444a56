/** The three rate limiters against the plain history of their calls. */
module Limiters {
  import opened Common

  type Key = nat

  /** The length of each key's window: its own policy's, or the default. */
  datatype Windows = Windows(usual: real, special: map<Key, real>) {
    function For(k: Key): real { if k in special then special[k] else usual }
  }

  /** A call with its window and limit, its outcome and whether it was told to warn; or a bucket
      thrown out for another key's. */
  datatype Event =
    | Call(key: Key, at: real, window: real, limit: nat, allowed: bool, notice: bool)
    | Evicted(key: Key)

  // ----- one bucket -----

  function Prune(ts: seq<real>, cutoff: real): seq<real> {
    if ts != [] && ts[0] <= cutoff then Prune(ts[1..], cutoff) else ts
  }

  method PruneTimestamps(ts: seq<real>, cutoff: real) returns (r: seq<real>)
    ensures r == Prune(ts, cutoff)
  {
    r := ts;
    while r != [] && r[0] <= cutoff
      invariant Prune(r, cutoff) == Prune(ts, cutoff)
      decreases |r|
    {
      r := r[1..];
    }
  }

  ghost predicate Sorted(ts: seq<real>) {
    forall i, j :: 0 <= i < j < |ts| ==> ts[i] <= ts[j]
  }

  function CountAfter(ts: seq<real>, cutoff: real): nat {
    if ts == [] then 0
    else CountAfter(ts[..|ts| - 1], cutoff) + if ts[|ts| - 1] > cutoff then 1 else 0
  }

  /** `bucket` is what is left of `all` after dropping, from the front, times no later than `horizon`. */
  ghost predicate Remains(bucket: seq<real>, all: seq<real>, horizon: real) {
    && |bucket| <= |all|
    && bucket == all[|all| - |bucket|..]
    && forall i :: 0 <= i < |all| - |bucket| ==> all[i] <= horizon
  }

  lemma {:induction false} CountOfRemains(bucket: seq<real>, all: seq<real>, cutoff: real)
    requires Remains(bucket, all, cutoff)
    requires forall i :: 0 <= i < |bucket| ==> bucket[i] > cutoff
    ensures CountAfter(all, cutoff) == |bucket|
    decreases |all|
  {
    if all != [] {
      var n := |all| - 1;
      if bucket == [] {
        assert all[n] <= cutoff;
        assert all[..n][n..] == [];
        CountOfRemains([], all[..n], cutoff);
      } else {
        assert bucket[|bucket| - 1] == all[n];
        var b := bucket[..|bucket| - 1];
        assert all[..n][n - |b|..] == b;
        CountOfRemains(b, all[..n], cutoff);
      }
    }
  }

  lemma {:induction false} PruneRemains(bucket: seq<real>, all: seq<real>, horizon: real, cutoff: real)
    requires Remains(bucket, all, horizon) && horizon <= cutoff && Sorted(all)
    ensures
      var r := Prune(bucket, cutoff);
      && Remains(r, all, cutoff)
      && (forall i :: 0 <= i < |r| ==> r[i] > cutoff)
    decreases |bucket|
  {
    var first := |all| - |bucket|;
    if bucket != [] && bucket[0] <= cutoff {
      assert bucket[0] == all[first];
      assert bucket[1..] == all[first + 1..];
      PruneRemains(bucket[1..], all, cutoff, cutoff);
    } else {
      forall i | 0 <= i < |bucket| ensures bucket[i] > cutoff {
        assert bucket[i] == all[first + i] && bucket[0] == all[first];
      }
    }
  }

  /** Pruning leaves as many times as the whole history has in the window. */
  lemma PruneCounts(bucket: seq<real>, all: seq<real>, horizon: real, cutoff: real)
    requires Remains(bucket, all, horizon) && horizon <= cutoff && Sorted(all)
    ensures Remains(Prune(bucket, cutoff), all, cutoff) && |Prune(bucket, cutoff)| == CountAfter(all, cutoff)
  {
    PruneRemains(bucket, all, horizon, cutoff);
    CountOfRemains(Prune(bucket, cutoff), all, cutoff);
  }

  // ----- the history -----

  /** When calls for this key were allowed, since it was last evicted. */
  function Grants(log: seq<Event>, k: Key): seq<real> {
    if log == [] then []
    else
      var front, last := log[..|log| - 1], log[|log| - 1];
      match last
      case Evicted(key) => if key == k then [] else Grants(front, k)
      case Call(key, at, _, _, allowed, _) => if key == k && allowed then Grants(front, k) + [at] else Grants(front, k)
  }

  lemma GrantsSnoc(log: seq<Event>, e: Event, k: Key)
    ensures
      Grants(log + [e], k) ==
      if e == Evicted(k) then []
      else if e.Call? && e.key == k && e.allowed then Grants(log, k) + [e.at]
      else Grants(log, k)
  {
    assert (log + [e])[..|log|] == log;
  }

  /** How many calls for this key were allowed after `cutoff`. */
  function Recent(log: seq<Event>, k: Key, cutoff: real): nat { CountAfter(Grants(log, k), cutoff) }

  /** Every call up to `clock` was decided by counting the allowed calls of the last window. */
  ghost predicate DecidedByCount(log: seq<Event>, window: Windows) {
    forall i :: 0 <= i < |log| && log[i].Call? ==> Decided(log, i, window)
  }

  predicate Decided(log: seq<Event>, i: nat, window: Windows)
    requires i < |log| && log[i].Call?
  {
    var c := log[i];
    c.allowed <==> Recent(log[..i], c.key, c.at - window.For(c.key)) < c.limit
  }

  lemma DecidedSnoc(log: seq<Event>, e: Event, window: Windows)
    requires DecidedByCount(log, window)
    requires e.Call? ==> (e.allowed <==> Recent(log, e.key, e.at - window.For(e.key)) < e.limit)
    ensures DecidedByCount(log + [e], window)
  {
    var more := log + [e];
    forall i | 0 <= i < |more| && more[i].Call? ensures Decided(more, i, window) {
      if i < |log| {
        assert more[..i] == log[..i] && Decided(log, i, window);
      } else {
        assert more[..i] == log;
      }
    }
  }

  /** Calls come in clock order. */
  ghost predicate Ordered(log: seq<Event>) {
    forall i, j :: 0 <= i < j < |log| && log[i].Call? && log[j].Call? ==> log[i].at <= log[j].at
  }

  lemma {:induction false} GrantsAreSorted(log: seq<Event>, k: Key, clock: real)
    requires Ordered(log) && forall i :: 0 <= i < |log| && log[i].Call? ==> log[i].at <= clock
    ensures Sorted(Grants(log, k)) && forall i :: 0 <= i < |Grants(log, k)| ==> Grants(log, k)[i] <= clock
  {
    if log != [] {
      var front, last := log[..|log| - 1], log[|log| - 1];
      GrantsAreSorted(front, k, if last.Call? then last.at else clock);
    }
  }

  function CountWithin(ts: seq<real>, lo: real, hi: real): nat {
    if ts == [] then 0
    else CountWithin(ts[..|ts| - 1], lo, hi) + if lo < ts[|ts| - 1] <= hi then 1 else 0
  }

  lemma {:induction false} WithinIsAtMostAfter(ts: seq<real>, lo: real, hi: real)
    ensures CountWithin(ts, lo, hi) <= CountAfter(ts, lo)
  {
    if ts != [] {
      WithinIsAtMostAfter(ts[..|ts| - 1], lo, hi);
    }
  }

  lemma {:induction false} LaterCutoffCountsFewer(ts: seq<real>, a: real, b: real)
    requires a <= b
    ensures CountAfter(ts, b) <= CountAfter(ts, a)
  {
    if ts != [] {
      LaterCutoffCountsFewer(ts[..|ts| - 1], a, b);
    }
  }

  /** So with one fixed limit, no window of any position holds more allowed calls of a key. */
  lemma {:induction false} NoWindowExceedsTheLimit(log: seq<Event>, window: Windows, limit: nat, k: Key, hi: real)
    requires DecidedByCount(log, window) && Ordered(log)
    requires forall i :: 0 <= i < |log| && log[i].Call? ==> log[i].limit == limit
    ensures CountWithin(Grants(log, k), hi - window.For(k), hi) <= limit
  {
    if log != [] {
      var n := |log| - 1;
      var front, last := log[..n], log[n];
      assert DecidedByCount(front, window) by {
        forall i | 0 <= i < n && front[i].Call? ensures Decided(front, i, window) {
          assert Decided(log, i, window) && front[..i] == log[..i];
        }
      }
      if last.Call? && last.key == k && last.allowed && hi - window.For(k) < last.at <= hi {
        assert Decided(log, n, window);
        var g := Grants(front, k);
        WithinIsAtMostAfter(g, hi - window.For(k), hi);
        LaterCutoffCountsFewer(g, last.at - window.For(k), hi - window.For(k));
        assert (g + [last.at])[..|g|] == g;
      } else {
        NoWindowExceedsTheLimit(front, window, limit, k, hi);
        var g := Grants(front, k);
        if last.Call? {
          assert (g + [last.at])[..|g|] == g;
        }
      }
    }
  }

  /** When calls for this key were ever allowed, evictions or not. */
  function AllGrants(log: seq<Event>, k: Key): seq<real> {
    if log == [] then []
    else
      var front, last := log[..|log| - 1], log[|log| - 1];
      if last.Call? && last.key == k && last.allowed then AllGrants(front, k) + [last.at] else AllGrants(front, k)
  }

  /** An eviction can only make the limiter forget: what it counts really happened, so a refusal is
      always earned; and for a key that was never evicted it counts everything. */
  lemma {:induction false} EvictionOnlyForgets(log: seq<Event>, k: Key, cutoff: real)
    ensures Recent(log, k, cutoff) <= CountAfter(AllGrants(log, k), cutoff)
    ensures Evicted(k) !in log ==> Grants(log, k) == AllGrants(log, k)
  {
    if log != [] {
      var front, last := log[..|log| - 1], log[|log| - 1];
      EvictionOnlyForgets(front, k, cutoff);
      if last.Call? && last.key == k && last.allowed {
        assert (Grants(front, k) + [last.at])[..|Grants(front, k)|] == Grants(front, k);
        assert (AllGrants(front, k) + [last.at])[..|AllGrants(front, k)|] == AllGrants(front, k);
      }
    }
  }

  // ----- the buckets follow the history -----

  type Buckets = map<Key, seq<real>>

  function BucketOf(buckets: Buckets, k: Key): seq<real> { if k in buckets then buckets[k] else [] }

  ghost predicate Tracks(buckets: Buckets, log: seq<Event>, window: Windows, now: real) {
    forall k :: Remains(BucketOf(buckets, k), Grants(log, k), now - window.For(k))
  }

  /** The history up to `clock` is in order and was decided by counting. */
  ghost predicate Recorded(log: seq<Event>, window: Windows, clock: real) {
    && Ordered(log) && DecidedByCount(log, window)
    && forall i :: 0 <= i < |log| && log[i].Call? ==> log[i].at <= clock
  }

  lemma TracksLater(buckets: Buckets, log: seq<Event>, window: Windows, clock: real, now: real)
    requires Tracks(buckets, log, window, clock) && clock <= now
    ensures Tracks(buckets, log, window, now)
  {
    hide Grants;
    forall k ensures Remains(BucketOf(buckets, k), Grants(log, k), now - window.For(k)) {
      assert Remains(BucketOf(buckets, k), Grants(log, k), clock - window.For(k));
    }
  }

  /** Pruning one bucket counts the key's window, and keeps following the history. */
  lemma TracksPruned(buckets: Buckets, log: seq<Event>, window: Windows, k: Key, clock: real, now: real)
    requires Tracks(buckets, log, window, now) && Recorded(log, window, clock)
    ensures
      var ts := Prune(BucketOf(buckets, k), now - window.For(k));
      && Tracks(buckets[k := ts], log, window, now)
      && (ts == [] ==> Tracks(buckets - {k}, log, window, now))
      && |ts| == Recent(log, k, now - window.For(k))
  {
    hide Grants, Recorded, Remains, Sorted, Prune, CountAfter;
    RecordedIsSorted(log, window, clock, k);
    assert Remains(BucketOf(buckets, k), Grants(log, k), now - window.For(k));
    PruneCounts(BucketOf(buckets, k), Grants(log, k), now - window.For(k), now - window.For(k));
    var ts := Prune(BucketOf(buckets, k), now - window.For(k));
    forall k' ensures Remains(BucketOf(buckets[k := ts], k'), Grants(log, k'), now - window.For(k')) {
      assert Remains(BucketOf(buckets, k'), Grants(log, k'), now - window.For(k'));
    }
    if ts == [] {
      forall k' ensures Remains(BucketOf(buckets - {k}, k'), Grants(log, k'), now - window.For(k')) {
        assert Remains(BucketOf(buckets[k := ts], k'), Grants(log, k'), now - window.For(k'));
      }
    }
  }

  lemma RecordedIsSorted(log: seq<Event>, window: Windows, clock: real, k: Key)
    requires Recorded(log, window, clock)
    ensures Sorted(Grants(log, k))
  {
    GrantsAreSorted(log, k, clock);
  }

  lemma RemainsNothing(horizon: real)
    ensures Remains([], [], horizon)
  {
  }

  lemma TracksEviction(buckets: Buckets, log: seq<Event>, window: Windows, k: Key, now: real)
    requires Tracks(buckets, log, window, now)
    ensures Tracks(buckets - {k}, log + [Evicted(k)], window, now)
  {
    hide Grants, Remains;
    forall k' ensures Remains(BucketOf(buckets - {k}, k'), Grants(log + [Evicted(k)], k'), now - window.For(k')) {
      GrantsSnoc(log, Evicted(k), k');
      RemainsNothing(now - window.For(k'));
      assert Remains(BucketOf(buckets, k'), Grants(log, k'), now - window.For(k'));
    }
  }

  lemma RemainsSnoc(bucket: seq<real>, all: seq<real>, horizon: real, at: real)
    requires Remains(bucket, all, horizon)
    ensures Remains(bucket + [at], all + [at], horizon)
  {
  }

  lemma TracksCall(buckets: Buckets, log: seq<Event>, window: Windows, e: Event, now: real)
    requires Tracks(buckets, log, window, now) && e.Call?
    ensures
      Tracks(if e.allowed then buckets[e.key := BucketOf(buckets, e.key) + [e.at]] else buckets, log + [e], window, now)
  {
    hide Grants, Remains;
    var buckets' := if e.allowed then buckets[e.key := BucketOf(buckets, e.key) + [e.at]] else buckets;
    forall k ensures Remains(BucketOf(buckets', k), Grants(log + [e], k), now - window.For(k)) {
      GrantsSnoc(log, e, k);
      assert Remains(BucketOf(buckets, k), Grants(log, k), now - window.For(k));
      RemainsSnoc(BucketOf(buckets, k), Grants(log, k), now - window.For(k), e.at);
    }
  }

  lemma RecordedCall(log: seq<Event>, window: Windows, clock: real, e: Event)
    requires Recorded(log, window, clock)
    requires e.Call? ==> e.at >= clock && (e.allowed <==> Recent(log, e.key, e.at - window.For(e.key)) < e.limit)
    ensures Recorded(log + [e], window, if e.Call? then e.at else clock)
  {
    DecidedSnoc(log, e, window);
    hide DecidedByCount;
  }

  // ----- a window that may change from call to call -----

  function Later(a: Option<real>, b: real): real { if a.Some? && a.value > b then a.value else b }

  /** The latest time before which calls of this key were made to forget. */
  function Horizon(log: seq<Event>, k: Key): Option<real> {
    if log == [] then None
    else
      var before, last := Horizon(log[..|log| - 1], k), log[|log| - 1];
      if last.key != k then before
      else if last.Evicted? then None
      else Some(Later(before, last.at - last.window))
  }

  lemma HorizonSnoc(log: seq<Event>, e: Event, k: Key)
    ensures Horizon(log + [e], k) ==
            if e.key != k then Horizon(log, k)
            else if e.Evicted? then None
            else Some(Later(Horizon(log, k), e.at - e.window))
  {
    assert (log + [e])[..|log|] == log;
  }

  /** `bucket` is exactly what is later than the horizon. */
  ghost predicate KeptBeyond(bucket: seq<real>, all: seq<real>, horizon: Option<real>) {
    if horizon.None? then bucket == all
    else Remains(bucket, all, horizon.value) && forall i :: 0 <= i < |bucket| ==> bucket[i] > horizon.value
  }

  ghost predicate KeepsBeyond(buckets: Buckets, log: seq<Event>) {
    forall k :: KeptBeyond(BucketOf(buckets, k), Grants(log, k), Horizon(log, k))
  }

  /** Pruning at any cutoff counts what is later than both the cutoff and the horizon. */
  lemma PruneBeyond(bucket: seq<real>, all: seq<real>, horizon: Option<real>, cutoff: real)
    requires KeptBeyond(bucket, all, horizon) && Sorted(all)
    ensures
      var r := Prune(bucket, cutoff);
      && KeptBeyond(r, all, Some(Later(horizon, cutoff)))
      && |r| == CountAfter(all, Later(horizon, cutoff))
  {
    if horizon.Some? && horizon.value > cutoff {
      assert Prune(bucket, cutoff) == bucket;
      CountOfRemains(bucket, all, horizon.value);
    } else {
      if horizon.None? {
        assert Remains(bucket, all, cutoff);
      }
      PruneRemains(bucket, all, if horizon.Some? then horizon.value else cutoff, cutoff);
      CountOfRemains(Prune(bucket, cutoff), all, cutoff);
    }
  }

  lemma KeptAfterGrant(bucket: seq<real>, all: seq<real>, horizon: Option<real>, at: real)
    requires KeptBeyond(bucket, all, horizon) && (horizon.Some? ==> horizon.value < at)
    ensures KeptBeyond(bucket + [at], all + [at], horizon)
  {
    if horizon.Some? {
      RemainsSnoc(bucket, all, horizon.value, at);
    }
  }

  lemma {:induction false} HorizonIsPast(log: seq<Event>, k: Key, clock: real)
    requires WindowsPositive(log) && forall i :: 0 <= i < |log| && log[i].Call? ==> log[i].at <= clock
    ensures Horizon(log, k).Some? ==> Horizon(log, k).value < clock
  {
    if log != [] {
      HorizonIsPast(log[..|log| - 1], k, clock);
    }
  }

  ghost predicate WindowsPositive(log: seq<Event>) {
    forall i :: 0 <= i < |log| && log[i].Call? ==> log[i].window > 0.0
  }

  /** Every call was decided by counting what is later than its own cutoff and all earlier ones. */
  ghost predicate DecidedBeyond(log: seq<Event>) {
    forall i :: 0 <= i < |log| && log[i].Call? ==> DecidedBeyondAt(log, i)
  }

  predicate DecidedBeyondAt(log: seq<Event>, i: nat)
    requires i < |log| && log[i].Call?
  {
    var c := log[i];
    c.allowed <==> Recent(log[..i], c.key, Later(Horizon(log[..i], c.key), c.at - c.window)) < c.limit
  }

  lemma DecidedBeyondSnoc(log: seq<Event>, e: Event)
    requires DecidedBeyond(log)
    requires e.Call? ==> (e.allowed <==> Recent(log, e.key, Later(Horizon(log, e.key), e.at - e.window)) < e.limit)
    ensures DecidedBeyond(log + [e])
  {
    hide Recent, Horizon, Later;
    var more := log + [e];
    forall i | 0 <= i < |more| && more[i].Call? ensures DecidedBeyondAt(more, i) {
      if i < |log| {
        assert more[..i] == log[..i] && DecidedBeyondAt(log, i);
      } else {
        assert more[..i] == log;
      }
    }
  }

  lemma {:induction false} FixedWindowHorizon(log: seq<Event>, k: Key, seconds: real, clock: real)
    requires forall i :: 0 <= i < |log| && log[i].Call? ==> log[i].at <= clock
    requires forall i :: 0 <= i < |log| && log[i].Call? && log[i].key == k ==> log[i].window >= seconds
    ensures Horizon(log, k).Some? ==> Horizon(log, k).value <= clock - seconds
  {
    if log != [] {
      FixedWindowHorizon(log[..|log| - 1], k, seconds, clock);
    }
  }

  /** Where no call of the key had a shorter window before it, a call counts its true window. */
  lemma LongWindowsAreExact(log: seq<Event>, i: nat)
    requires DecidedBeyond(log) && Ordered(log) && i < |log| && log[i].Call?
    requires forall j :: 0 <= j < i && log[j].Call? && log[j].key == log[i].key ==> log[j].window >= log[i].window
    ensures log[i].allowed <==> Recent(log[..i], log[i].key, log[i].at - log[i].window) < log[i].limit
  {
    hide Recent, Horizon;
    assert DecidedBeyondAt(log, i);
    FixedWindowHorizon(log[..i], log[i].key, log[i].window, log[i].at);
  }

  ghost predicate NoneBetween(ts: seq<real>, lo: real, hi: real) {
    forall i :: 0 <= i < |ts| ==> !(lo < ts[i] <= hi)
  }

  /** No allowed call that lies in the window from `cutoff` on has been forgotten. */
  ghost predicate NoneForgotten(log: seq<Event>, k: Key, cutoff: real) {
    NoneBetween(Grants(log, k), cutoff, Later(Horizon(log, k), cutoff))
  }

  lemma {:induction false} CountsDiffer(ts: seq<real>, lo: real, hi: real)
    requires lo <= hi
    ensures CountAfter(ts, hi) <= CountAfter(ts, lo)
    ensures CountAfter(ts, hi) == CountAfter(ts, lo) <==> NoneBetween(ts, lo, hi)
  {
    if ts != [] {
      var n := |ts| - 1;
      CountsDiffer(ts[..n], lo, hi);
      assert NoneBetween(ts, lo, hi) <==> NoneBetween(ts[..n], lo, hi) && !(lo < ts[n] <= hi) by {
        assert forall i :: 0 <= i < n ==> ts[..n][i] == ts[i];
      }
    }
  }

  /** A call from `cutoff` on is decided by its whole window, whatever its limit, exactly when no
      allowed call in that window was forgotten; otherwise fewer are counted. */
  lemma WholeWindowCountsExactly(log: seq<Event>, k: Key, cutoff: real)
    ensures Recent(log, k, Later(Horizon(log, k), cutoff)) <= Recent(log, k, cutoff)
    ensures (forall limit: nat {:trigger Lets(log, k, cutoff, limit)} ::
               Recent(log, k, Later(Horizon(log, k), cutoff)) < limit <==> Lets(log, k, cutoff, limit))
            <==> NoneForgotten(log, k, cutoff)
  {
    hide Horizon, Grants;
    var counted := Recent(log, k, Later(Horizon(log, k), cutoff));
    CountsDiffer(Grants(log, k), cutoff, Later(Horizon(log, k), cutoff));
    assert counted < Recent(log, k, cutoff) ==> !Lets(log, k, cutoff, counted + 1);
  }

  /** Whether the whole window from `cutoff` on has room for one more. */
  predicate Lets(log: seq<Event>, k: Key, cutoff: real, limit: nat) { Recent(log, k, cutoff) < limit }

  /** With a fixed window for each key every call was decided by counting its last window. */
  lemma FixedWindowsAreExact(log: seq<Event>, window: Windows)
    requires DecidedBeyond(log) && Ordered(log)
    requires forall i :: 0 <= i < |log| && log[i].Call? ==> log[i].window == window.For(log[i].key)
    ensures DecidedByCount(log, window)
  {
    hide Recent, DecidedBeyond;
    forall i | 0 <= i < |log| && log[i].Call? ensures Decided(log, i, window) {
      LongWindowsAreExact(log, i);
    }
  }

  ghost predicate RecordedBeyond(log: seq<Event>, clock: real) {
    && Ordered(log) && DecidedBeyond(log) && WindowsPositive(log)
    && forall i :: 0 <= i < |log| && log[i].Call? ==> log[i].at <= clock
  }

  lemma RecordedBeyondFacts(log: seq<Event>, k: Key, clock: real)
    requires RecordedBeyond(log, clock)
    ensures Sorted(Grants(log, k)) && (Horizon(log, k).Some? ==> Horizon(log, k).value < clock)
  {
    hide DecidedBeyond, Grants, Horizon;
    GrantsAreSorted(log, k, clock);
    HorizonIsPast(log, k, clock);
  }

  lemma RecordedBeyondCall(log: seq<Event>, clock: real, e: Event)
    requires RecordedBeyond(log, clock) && e.Call? && e.at >= clock && e.window > 0.0
    requires e.allowed <==> Recent(log, e.key, Later(Horizon(log, e.key), e.at - e.window)) < e.limit
    ensures RecordedBeyond(log + [e], e.at)
  {
    hide Recent, Horizon, DecidedBeyond, Later;
    DecidedBeyondSnoc(log, e);
  }

  /** Serving a call: its key's bucket is pruned and perhaps grows, all others stay. */
  lemma KeepsAfterCall(buckets: Buckets, log: seq<Event>, clock: real, e: Event, ts: seq<real>)
    requires KeepsBeyond(buckets, log) && RecordedBeyond(log, clock) && e.Call? && e.at >= clock && e.window > 0.0
    requires ts == Prune(BucketOf(buckets, e.key), e.at - e.window)
    ensures |ts| == Recent(log, e.key, Later(Horizon(log, e.key), e.at - e.window))
    ensures KeepsBeyond(buckets[e.key := if e.allowed then ts + [e.at] else ts], log + [e])
  {
    hide RecordedBeyond, Grants, Horizon, KeptBeyond, Prune, Sorted, CountAfter;
    var after := buckets[e.key := if e.allowed then ts + [e.at] else ts];
    var horizon := Horizon(log, e.key);
    RecordedBeyondFacts(log, e.key, clock);
    assert KeptBeyond(BucketOf(buckets, e.key), Grants(log, e.key), horizon);
    PruneBeyond(BucketOf(buckets, e.key), Grants(log, e.key), horizon, e.at - e.window);
    KeptAfterGrant(ts, Grants(log, e.key), Some(Later(horizon, e.at - e.window)), e.at);
    forall k ensures KeptBeyond(BucketOf(after, k), Grants(log + [e], k), Horizon(log + [e], k)) {
      GrantsSnoc(log, e, k);
      HorizonSnoc(log, e, k);
      assert KeptBeyond(BucketOf(buckets, k), Grants(log, k), Horizon(log, k));
    }
  }

  /** The connection runtime's limiter: one deque per connection and tool, never evicted. */
  class SlidingWindowRateLimiter {
    var buckets: Buckets
    ghost var log: seq<Event>
    ghost var clock: real

    ghost predicate Valid()
      reads this
    {
      KeepsBeyond(buckets, log) && RecordedBeyond(log, clock)
    }

    constructor ()
      ensures Valid() && log == [] && clock == 0.0
    {
      buckets, log, clock := map[], [], 0.0;
    }

    /** Allowed exactly when fewer than `limit` calls of the key were allowed in the last window, as far
        as no earlier call, with a shorter window, has made the limiter forget them. */
    method Allow(key: Key, limit: nat, windowSeconds: real, now: real) returns (ok: bool)
      requires Valid() && clock <= now && windowSeconds > 0.0
      modifies this
      ensures Valid() && clock == now
      ensures ok <==> Recent(old(log), key, Later(Horizon(old(log), key), now - windowSeconds)) < limit
      ensures log == old(log) + [Call(key, now, windowSeconds, limit, ok, false)]
    {
      hide KeepsBeyond, RecordedBeyond, Recent, Horizon, Prune;
      var bucket := PruneTimestamps(if key in buckets then buckets[key] else [], now - windowSeconds);
      ok := |bucket| < limit;
      ghost var e := Call(key, now, windowSeconds, limit, ok, false);
      KeepsAfterCall(buckets, log, clock, e, bucket);
      RecordedBeyondCall(log, clock, e);
      buckets := buckets[key := if ok then bucket + [now] else bucket];
      log, clock := log + [e], now;
    }
  }

  /** A short window makes the limiter forget a call that a longer one, later, should count: two calls
      are allowed within the last 60 seconds, and a third with limit two is allowed too. */
  method ShortWindowForgets(key: Key) returns (limiter: SlidingWindowRateLimiter, ok: bool)
    ensures fresh(limiter) && limiter.Valid() && ok
    ensures |limiter.log| == 3 && limiter.log[2] == Call(key, 20.0, 60.0, 2, true, false)
    ensures Recent(limiter.log[..2], key, 20.0 - 60.0) == 2
  {
    hide Recent, Horizon, KeepsBeyond, RecordedBeyond, Later;
    ShortWindowCounts(key);
    limiter := new SlidingWindowRateLimiter();
    ok := limiter.Allow(key, 1, 60.0, 0.0);
    assert limiter.log == ShortWindowLog(key)[..1];
    ok := limiter.Allow(key, 1, 5.0, 10.0);
    assert limiter.log == ShortWindowLog(key);
    ok := limiter.Allow(key, 2, 60.0, 20.0);
    assert limiter.log[..2] == ShortWindowLog(key);
  }

  function ShortWindowLog(key: Key): seq<Event> {
    [Call(key, 0.0, 60.0, 1, true, false), Call(key, 10.0, 5.0, 1, true, false)]
  }

  lemma ShortWindowCounts(key: Key)
    ensures Recent([], key, Later(Horizon([], key), 0.0 - 60.0)) == 0
    ensures
      var two := ShortWindowLog(key);
      && Recent(two[..1], key, Later(Horizon(two[..1], key), 10.0 - 5.0)) == 0
      && Recent(two, key, Later(Horizon(two, key), 20.0 - 60.0)) == 1 && Recent(two, key, 20.0 - 60.0) == 2
  {
    var two := ShortWindowLog(key);
    AfterOneMore([], two[0], key);
    AfterOneMore(two[..1], two[1], key);
    assert two[..1] == [] + [two[0]] && two == two[..1] + [two[1]];
    assert Grants(two[..1], key) == [0.0] && Grants(two, key) == [0.0, 10.0];
    assert Horizon([], key) == None && Grants([], key) == [];
    assert Horizon(two[..1], key) == Some(0.0 - 60.0) && Horizon(two, key) == Some(10.0 - 5.0);
    CountSnoc([], 0.0, 5.0);
    CountSnoc([0.0], 10.0, 5.0);
    CountSnoc([], 0.0, -40.0);
    CountSnoc([0.0], 10.0, -40.0);
    assert [] + [0.0] == [0.0] && [0.0] + [10.0] == [0.0, 10.0];
  }

  lemma CountSnoc(ts: seq<real>, at: real, cutoff: real)
    ensures CountAfter(ts + [at], cutoff) == CountAfter(ts, cutoff) + if at > cutoff then 1 else 0
  {
    assert (ts + [at])[..|ts|] == ts;
  }

  lemma AfterOneMore(log: seq<Event>, e: Event, k: Key)
    requires e.Call? && e.key == k
    ensures Grants(log + [e], k) == if e.allowed then Grants(log, k) + [e.at] else Grants(log, k)
    ensures Horizon(log + [e], k) == Some(Later(Horizon(log, k), e.at - e.window))
  {
    GrantsSnoc(log, e, k);
    HorizonSnoc(log, e, k);
  }
}
