/** The two limiters whose number of buckets is bounded, and the auth limiter's warnings. */
module BoundedLimiters {
  import opened Common
  import opened Limiters

  function AtLeast(low: int, n: int): nat
    requires low >= 0
  {
    if n < low then low else n
  }

  function AtLeastReal(low: real, x: real): real { if x < low then low else x }

  // ----- insertion-ordered table -----

  ghost predicate TableOk(order: seq<Key>, buckets: Buckets, maxBuckets: nat) {
    NoDup(order) && (forall k :: k in order <==> k in buckets) && |order| <= maxBuckets
  }

  function Without(order: seq<Key>, k: Key): seq<Key> {
    if order == [] then [] else if order[0] == k then order[1..] else [order[0]] + Without(order[1..], k)
  }

  lemma {:induction false} WithoutFacts(order: seq<Key>, k: Key)
    requires NoDup(order)
    ensures
      var r := Without(order, k);
      NoDup(r) && (forall x :: x in r <==> x in order && x != k) && |r| == |order| - if k in order then 1 else 0
  {
    if order != [] {
      assert order == [order[0]] + order[1..] && forall i :: 0 < i < |order| ==> order[i] != order[0];
      if order[0] != k {
        WithoutFacts(order[1..], k);
        NoDupJoin([order[0]], Without(order[1..], k));
      }
    }
  }

  /** Taking a key out leaves the others in their order. */
  lemma {:induction false} WithoutKeepsOrder(a: seq<Key>, b: seq<Key>, k: Key)
    requires k !in a
    ensures Without(a + [k] + b, k) == a + b && Without(a, k) == a
  {
    if a == [] {
      assert a + [k] + b == [k] + b && ([k] + b)[1..] == b;
    } else {
      var rest := a[1..] + [k] + b;
      WithoutKeepsOrder(a[1..], b, k);
      assert a + [k] + b == [a[0]] + rest && a + b == [a[0]] + (a[1..] + b) && a == [a[0]] + a[1..];
      assert ([a[0]] + rest)[1..] == rest;
    }
  }

  /** Some oldest keys are dropped, and this one is moved, or added, to the end. */
  ghost predicate DropsThenMoves(before: seq<Key>, after: seq<Key>, key: Key) {
    exists d {:trigger before[d..]} :: 0 <= d <= |before| && after == Without(before[d..], key) + [key]
  }

  lemma DroppedThenMoved(before: seq<Key>, kept: seq<Key>, after: seq<Key>, key: Key)
    requires |kept| <= |before| && kept == before[|before| - |kept|..] && after == Without(kept, key) + [key]
    ensures DropsThenMoves(before, after, key)
  {
    hide Without;
  }

  /** Dropping the oldest key, or moving a key to the end. */
  lemma TableDropFirst(order: seq<Key>, buckets: Buckets, maxBuckets: nat)
    requires TableOk(order, buckets, maxBuckets) && order != []
    ensures TableOk(order[1..], buckets - {order[0]}, maxBuckets)
  {
    assert order == [order[0]] + order[1..];
  }

  lemma TableAppend(order: seq<Key>, buckets: Buckets, maxBuckets: nat, k: Key, ts: seq<real>)
    requires TableOk(order, buckets, maxBuckets) && k !in order && |order| < maxBuckets
    ensures TableOk(order + [k], buckets[k := ts], maxBuckets)
  {
  }

  // ----- warnings -----

  /** A refusal of this key was already reported in its current episode: since its window was last
      found empty, or its bucket thrown out. */
  predicate InEpisode(log: seq<Event>, window: Windows, k: Key) {
    if log == [] then false
    else
      var front, last := log[..|log| - 1], log[|log| - 1];
      if last.key != k then InEpisode(front, window, k)
      else if last.Evicted? then false
      else if !last.allowed then true
      else Recent(front, k, last.at - window.For(k)) > 0 && InEpisode(front, window, k)
  }

  /** Event `i` ends any episode of `k`: an eviction, or a call that finds the window empty. */
  predicate Ends(log: seq<Event>, window: Windows, k: Key, i: nat)
    requires i < |log|
  {
    log[i].key == k && (log[i].Evicted? || (log[i].allowed && Recent(log[..i], k, log[i].at - window.For(k)) == 0))
  }

  ghost predicate Refused(log: seq<Event>, k: Key, i: int) {
    0 <= i < |log| && log[i].Call? && log[i].key == k && !log[i].allowed
  }

  ghost predicate SameEpisode(log: seq<Event>, window: Windows, k: Key, i: int, j: int)
    requires 0 <= i <= j <= |log|
  {
    forall m :: i <= m < j ==> !Ends(log, window, k, m)
  }

  lemma {:induction false} EpisodeExactly(log: seq<Event>, window: Windows, k: Key)
    ensures InEpisode(log, window, k) <==>
            exists i :: Refused(log, k, i) && SameEpisode(log, window, k, i, |log|)
  {
    if log != [] {
      var n := |log| - 1;
      var front, last := log[..n], log[n];
      EpisodeExactly(front, window, k);
      hide InEpisode, Recent;
      forall m | 0 <= m < n ensures Ends(front, window, k, m) <==> Ends(log, window, k, m) {
        assert front[..m] == log[..m];
      }
      hide Ends;
      forall i | 0 <= i < n
        ensures Refused(front, k, i) && SameEpisode(front, window, k, i, n) && !Ends(log, window, k, n)
                <==> Refused(log, k, i) && SameEpisode(log, window, k, i, |log|)
      {
      }
      EpisodeStep(log, window, k);
      if Refused(log, k, n) {
        assert SameEpisode(log, window, k, n, |log|) by { RefusalDoesNotEnd(log, window, k, n); }
      }
    }
  }

  lemma RefusalDoesNotEnd(log: seq<Event>, window: Windows, k: Key, i: nat)
    requires Refused(log, k, i)
    ensures !Ends(log, window, k, i)
  {
  }

  lemma EpisodeStep(log: seq<Event>, window: Windows, k: Key)
    requires log != []
    ensures
      var n := |log| - 1;
      InEpisode(log, window, k) <==>
      Refused(log, k, n) || (InEpisode(log[..n], window, k) && !Ends(log, window, k, n))
  {
  }

  ghost predicate NoticesFollow(log: seq<Event>, window: Windows) {
    forall i :: 0 <= i < |log| && log[i].Call? ==> NoticeFollows(log, window, i)
  }

  predicate NoticeFollows(log: seq<Event>, window: Windows, i: nat)
    requires i < |log| && log[i].Call?
  {
    log[i].notice <==> !log[i].allowed && !InEpisode(log[..i], window, log[i].key)
  }

  /** A refused call is told to warn exactly when it is the first refusal of its episode. */
  lemma WarnsOncePerEpisode(log: seq<Event>, window: Windows, j: nat)
    requires NoticesFollow(log, window) && j < |log| && log[j].Call? && !log[j].allowed
    ensures log[j].notice <==>
            !exists i :: i < j && Refused(log, log[j].key, i) && SameEpisode(log, window, log[j].key, i, j)
  {
    var k, front := log[j].key, log[..j];
    assert NoticeFollows(log, window, j);
    EpisodeExactly(front, window, k);
    hide InEpisode, Recent;
    forall m | 0 <= m < j ensures Ends(front, window, k, m) <==> Ends(log, window, k, m) {
      assert front[..m] == log[..m];
    }
    hide Ends;
    forall i | 0 <= i < j
      ensures Refused(front, k, i) && SameEpisode(front, window, k, i, j)
              <==> Refused(log, k, i) && SameEpisode(log, window, k, i, j)
    {
    }
  }

  lemma NoticesSnoc(log: seq<Event>, window: Windows, e: Event)
    requires NoticesFollow(log, window)
    requires e.Call? ==> (e.notice <==> !e.allowed && !InEpisode(log, window, e.key))
    ensures NoticesFollow(log + [e], window)
  {
    hide InEpisode;
    var more := log + [e];
    forall i | 0 <= i < |more| && more[i].Call? ensures NoticeFollows(more, window, i) {
      if i < |log| {
        assert more[..i] == log[..i] && NoticeFollows(log, window, i);
      } else {
        assert more[..i] == log;
      }
    }
  }

  /** `warned` holds the keys, among those with a bucket, whose episode was already reported. */
  ghost predicate WarnedOk(warned: set<Key>, buckets: Buckets, log: seq<Event>, window: Windows) {
    forall k :: k in warned <==> k in buckets && InEpisode(log, window, k)
  }

  lemma WarnedMember(warned: set<Key>, buckets: Buckets, log: seq<Event>, window: Windows, k: Key)
    requires WarnedOk(warned, buckets, log, window)
    ensures k in warned <==> k in buckets && InEpisode(log, window, k)
  {
  }

  lemma WarnedEviction(warned: set<Key>, buckets: Buckets, log: seq<Event>, window: Windows, k: Key)
    requires WarnedOk(warned, buckets, log, window)
    ensures WarnedOk(warned - {k}, buckets - {k}, log + [Evicted(k)], window)
  {
    assert (log + [Evicted(k)])[..|log|] == log;
  }

  /** The warned set after a call, whose key's window held `recent` calls. */
  lemma WarnedCall(warned: set<Key>, buckets: Buckets, log: seq<Event>, window: Windows, e: Event, ts: seq<real>)
    requires WarnedOk(warned, buckets, log, window) && e.Call? && (e.key !in buckets ==> e.allowed)
    requires e.key !in buckets ==> Recent(log, e.key, e.at - window.For(e.key)) == 0
    ensures
      var kept := if Recent(log, e.key, e.at - window.For(e.key)) == 0 then warned - {e.key} else warned;
      WarnedOk(if e.allowed then kept else warned + {e.key}, buckets[e.key := ts], log + [e], window)
  {
    hide Recent;
    assert (log + [e])[..|log|] == log;
  }

  /** The table follows the history up to `now`. */
  ghost predicate Follows(
    order: seq<Key>, buckets: Buckets, maxBuckets: nat, log: seq<Event>, window: Windows, clock: real, now: real)
  {
    TableOk(order, buckets, maxBuckets) && Tracks(buckets, log, window, now) && Recorded(log, window, clock)
  }

  lemma FollowsPrunedFirst(
    order: seq<Key>, buckets: Buckets, maxBuckets: nat, log: seq<Event>, window: Windows, clock: real, now: real)
    requires Follows(order, buckets, maxBuckets, log, window, clock, now) && order != []
    ensures
      var k := order[0];
      k in buckets &&
      var ts := Prune(buckets[k], now - window.For(k));
      if ts == [] then Follows(order[1..], buckets - {k}, maxBuckets, log, window, clock, now)
      else Follows(order, buckets[k := ts], maxBuckets, log, window, clock, now)
  {
    hide Tracks, Recorded, NoDup, Recent;
    assert order[0] in order;
    TracksPruned(buckets, log, window, order[0], clock, now);
    TableDropFirst(order, buckets, maxBuckets);
  }

  lemma FollowsEviction(
    order: seq<Key>, buckets: Buckets, maxBuckets: nat, log: seq<Event>, window: Windows, clock: real, now: real)
    requires Follows(order, buckets, maxBuckets, log, window, clock, now) && order != []
    ensures Follows(order[1..], buckets - {order[0]}, maxBuckets, log + [Evicted(order[0])], window, clock, now)
  {
    hide Tracks, Recorded, TableOk;
    TracksEviction(buckets, log, window, order[0], now);
    RecordedCall(log, window, clock, Evicted(order[0]));
    TableDropFirst(order, buckets, maxBuckets);
  }

  lemma EvictionElsewhere(log: seq<Event>, window: Windows, victim: Key, k: Key, cutoff: real)
    requires victim != k
    ensures Recent(log + [Evicted(victim)], k, cutoff) == Recent(log, k, cutoff)
    ensures InEpisode(log + [Evicted(victim)], window, k) == InEpisode(log, window, k)
  {
    assert (log + [Evicted(victim)])[..|log|] == log;
  }

  lemma FollowsCallCounts(
    order: seq<Key>, buckets: Buckets, maxBuckets: nat, log: seq<Event>, window: Windows, clock: real, k: Key,
    now: real)
    requires Follows(order, buckets, maxBuckets, log, window, clock, now)
    ensures |Prune(BucketOf(buckets, k), now - window.For(k))| == Recent(log, k, now - window.For(k))
  {
    TracksPruned(buckets, log, window, k, clock, now);
  }

  /** Serving a key that was taken out of the table, and putting it back at the end. */
  lemma FollowsCall(
    order: seq<Key>, buckets: Buckets, maxBuckets: nat, log: seq<Event>, window: Windows, clock: real, e: Event)
    requires e.Call? && clock <= e.at && Follows(order, buckets, maxBuckets, log, window, clock, e.at)
    requires e.key in buckets || |order| < maxBuckets
    requires e.allowed <==> Recent(log, e.key, e.at - window.For(e.key)) < e.limit
    ensures
      var ts := Prune(BucketOf(buckets, e.key), e.at - window.For(e.key));
      && Follows(Without(order, e.key) + [e.key], buckets[e.key := if e.allowed then ts + [e.at] else ts],
                 maxBuckets, log + [e], window, e.at, e.at)
  {
    hide Tracks, Recorded, Recent, Prune;
    var ts := Prune(BucketOf(buckets, e.key), e.at - window.For(e.key));
    TracksPruned(buckets, log, window, e.key, clock, e.at);
    TracksCall(buckets[e.key := ts], log, window, e, e.at);
    RecordedCall(log, window, clock, e);
    var buckets' := buckets[e.key := if e.allowed then ts + [e.at] else ts];
    assert buckets' == if e.allowed then buckets[e.key := ts][e.key := ts + [e.at]] else buckets[e.key := ts];
    hide NoDup;
    var rest := Without(order, e.key);
    WithoutFacts(order, e.key);
    TableAppend(rest, buckets - {e.key}, maxBuckets, e.key, buckets'[e.key]);
    assert (buckets - {e.key})[e.key := buckets'[e.key]] == buckets';
  }

  ghost predicate SameLimit(log: seq<Event>, limit: nat) {
    forall i :: 0 <= i < |log| && log[i].Call? ==> log[i].limit == limit
  }

  lemma SameLimitSnoc(log: seq<Event>, limit: nat, e: Event)
    requires SameLimit(log, limit) && (e.Call? ==> e.limit == limit)
    ensures SameLimit(log + [e], limit)
  {
  }

  /** The call event that serving a key records. */
  ghost function CallOf(log: seq<Event>, window: Windows, key: Key, now: real, limit: nat): Event {
    var ok := Recent(log, key, now - window.For(key)) < limit;
    Call(key, now, window.For(key), limit, ok, !ok && !InEpisode(log, window, key))
  }

  lemma PruneNothing(cutoff: real)
    ensures Prune([], cutoff) == []
  {
  }

  /** What serving a key does to the table and the history. */
  lemma ServeFollows(
    order: seq<Key>, buckets: Buckets, maxBuckets: nat, limit: nat,
    log: seq<Event>, window: Windows, clock: real, key: Key, now: real, ok: bool, notice: bool)
    requires clock <= now && Follows(order, buckets, maxBuckets, log, window, clock, now) && SameLimit(log, limit)
    requires key in buckets || |order| < maxBuckets
    requires ok <==> Recent(log, key, now - window.For(key)) < limit
    ensures
      var ts := Prune(BucketOf(buckets, key), now - window.For(key));
      && |ts| == Recent(log, key, now - window.For(key))
      && (key !in buckets ==> ts == [])
      && Follows(Without(order, key) + [key], buckets[key := if ok then ts + [now] else ts], maxBuckets,
                 log + [Call(key, now, window.For(key), limit, ok, notice)], window, now, now)
      && SameLimit(log + [Call(key, now, window.For(key), limit, ok, notice)], limit)
  {
    hide Tracks, Recorded, Prune, Recent, NoDup, Without, Follows, SameLimit;
    PruneNothing(now - window.For(key));
    FollowsCallCounts(order, buckets, maxBuckets, log, window, clock, key, now);
    FollowsCall(order, buckets, maxBuckets, log, window, clock, Call(key, now, window.For(key), limit, ok, notice));
    SameLimitSnoc(log, limit, Call(key, now, window.For(key), limit, ok, notice));
  }

  /** What serving a key does to the warned set: forget an ended episode, report a new one. */
  lemma ServeWarns(
    buckets: Buckets, warned: set<Key>, limit: nat, log: seq<Event>, window: Windows, key: Key, now: real,
    ts: seq<real>)
    requires limit >= 1 && WarnedOk(warned, buckets, log, window)
    requires key !in buckets ==> Recent(log, key, now - window.For(key)) == 0
    ensures
      var e := CallOf(log, window, key, now, limit);
      var kept := if key in buckets && Recent(log, key, now - window.For(key)) == 0 then warned - {key} else warned;
      && (e.notice <==> !e.allowed && key !in kept)
      && WarnedOk(if e.allowed then kept else kept + {key}, buckets[key := ts], log + [e], window)
  {
    hide Recent, InEpisode, WarnedOk;
    var e := CallOf(log, window, key, now, limit);
    WarnedCall(warned, buckets, log, window, e, ts);
    WarnedMember(warned, buckets, log, window, key);
    assert key !in warned ==> warned - {key} == warned;
  }

  /** The rolling-window limiter of authentication audit writes. */
  class AuthWriteLimiter {
    const limit: nat
    const windowSeconds: real
    const maxBuckets: nat
    var order: seq<Key>
    var buckets: Buckets
    var warned: set<Key>
    ghost const window: Windows
    ghost var log: seq<Event>
    ghost var clock: real

    ghost predicate Shaped() {
      limit >= 1 && maxBuckets >= 1 && window == Windows(windowSeconds, map[])
    }

    ghost predicate Valid()
      reads this
    {
      && Shaped()
      && Follows(order, buckets, maxBuckets, log, window, clock, clock)
      && WarnedOk(warned, buckets, log, window)
      && NoticesFollow(log, window)
      && SameLimit(log, limit)
    }

    constructor (limit: int, windowSeconds: real, maxBuckets: int)
      ensures Valid() && log == [] && clock == 0.0
      ensures this.limit == (if limit >= 1 then limit else 1)
      ensures this.windowSeconds == (if windowSeconds >= 0.001 then windowSeconds else 0.001)
      ensures this.maxBuckets == (if maxBuckets >= 1 then maxBuckets else 1)
    {
      this.limit, this.windowSeconds := AtLeast(1, limit), AtLeastReal(0.001, windowSeconds);
      this.maxBuckets := AtLeast(1, maxBuckets);
      order, buckets, warned := [], map[], {};
      window, log, clock := Windows(AtLeastReal(0.001, windowSeconds), map[]), [], 0.0;
    }

    method PruneOldestBuckets(now: real)
      requires Shaped() && Follows(order, buckets, maxBuckets, log, window, clock, now)
      requires WarnedOk(warned, buckets, log, window)
      modifies this`order, this`buckets, this`warned
      ensures Follows(order, buckets, maxBuckets, log, window, clock, now)
      ensures WarnedOk(warned, buckets, log, window)
      ensures |order| < old(|order|) || (|order| == old(|order|) && buckets.Keys == old(buckets.Keys))
      ensures |order| <= old(|order|) && order == old(order)[old(|order|) - |order|..]
      ensures |order| == old(|order|) ==> order == old(order)
    {
      hide TableOk, Tracks, Recorded, InEpisode, Prune;
      while order != []
        invariant Follows(order, buckets, maxBuckets, log, window, clock, now)
        invariant WarnedOk(warned, buckets, log, window)
        invariant |order| < old(|order|) || (order == old(order) && buckets.Keys == old(buckets.Keys))
        invariant |order| <= old(|order|) && order == old(order)[old(|order|) - |order|..]
        invariant log == old(log) && clock == old(clock)
        decreases |order|
      {
        FollowsPrunedFirst(order, buckets, maxBuckets, log, window, clock, now);
        hide Follows;
        var key := order[0];
        var timestamps := PruneTimestamps(buckets[key], now - windowSeconds);
        if timestamps != [] {
          buckets := buckets[key := timestamps];
          break;
        }
        order, buckets, warned := order[1..], buckets - {key}, warned - {key};
      }
    }

    /** Makes room for a new key in a full table. */
    method EvictOldest(ghost key: Key, ghost now: real)
      requires Shaped() && Follows(order, buckets, maxBuckets, log, window, clock, now)
      requires WarnedOk(warned, buckets, log, window) && NoticesFollow(log, window) && SameLimit(log, limit)
      requires |order| >= maxBuckets && key !in buckets
      modifies this`order, this`buckets, this`warned, this`log
      ensures Follows(order, buckets, maxBuckets, log, window, clock, now)
      ensures WarnedOk(warned, buckets, log, window) && NoticesFollow(log, window) && SameLimit(log, limit)
      ensures |order| < maxBuckets && key !in buckets
      ensures old(order)[0] in old(buckets) && log == old(log) + [Evicted(old(order)[0])]
      ensures order == old(order)[1..]
      ensures Recent(log, key, now - windowSeconds) == Recent(old(log), key, now - windowSeconds)
      ensures InEpisode(log, window, key) == InEpisode(old(log), window, key)
    {
      hide Tracks, Recorded, Recent, InEpisode, NoDup, NoticesFollow, WarnedOk, SameLimit;
      ghost var victim := order[0];
      assert victim in order;
      FollowsEviction(order, buckets, maxBuckets, log, window, clock, now);
      WarnedEviction(warned, buckets, log, window, victim);
      NoticesSnoc(log, window, Evicted(victim));
      EvictionElsewhere(log, window, victim, key, now - windowSeconds);
      SameLimitSnoc(log, limit, Evicted(victim));
      var oldest := order[0];
      order, buckets, warned := order[1..], buckets - {oldest}, warned - {oldest};
      log := log + [Evicted(victim)];
    }

    /** Counts and records one call of a key that has, or can be given, a place in the table. */
    method Serve(key: Key, now: real) returns (ok: bool, notice: bool)
      requires Shaped() && clock <= now && Follows(order, buckets, maxBuckets, log, window, clock, now)
      requires WarnedOk(warned, buckets, log, window) && NoticesFollow(log, window) && SameLimit(log, limit)
      requires key in buckets || |order| < maxBuckets
      modifies this
      ensures Valid() && clock == now
      ensures ok <==> Recent(old(log), key, now - windowSeconds) < limit
      ensures notice <==> !ok && !InEpisode(old(log), window, key)
      ensures log == old(log) + [Call(key, now, windowSeconds, limit, ok, notice)]
      ensures key !in old(buckets) ==> ok
      ensures order == Without(old(order), key) + [key]
    {
      hide Tracks, Recorded, Prune, Recent, InEpisode, NoDup, NoticesFollow, WarnedOk, Without, Follows, SameLimit;
      ghost var e, pruned := CallOf(log, window, key, now, limit), Prune(BucketOf(buckets, key), now - windowSeconds);
      assert window.For(key) == windowSeconds;
      ServeFollows(order, buckets, maxBuckets, limit, log, window, clock, key, now, e.allowed, e.notice);
      NoticesSnoc(log, window, e);
      ServeWarns(buckets, warned, limit, log, window, key, now, if e.allowed then pruned + [now] else pruned);
      var timestamps := PruneTimestamps(if key in buckets then buckets[key] else [], now - windowSeconds);
      assert timestamps == pruned;
      if key in buckets && timestamps == [] {
        warned := warned - {key};
      }
      order := Without(order, key);
      if |timestamps| >= limit {
        ok, notice := false, key !in warned;
        warned := warned + {key};
      } else {
        ok, notice := true, false;
        timestamps := timestamps + [now];
      }
      order, buckets := order + [key], buckets[key := timestamps];
      log, clock := log + [e], now;
    }

    /** Makes room for a new key in a full table, and serves it. */
    method EvictAndServe(key: Key, now: real) returns (ok: bool, notice: bool)
      requires Shaped() && clock <= now && Follows(order, buckets, maxBuckets, log, window, clock, now)
      requires WarnedOk(warned, buckets, log, window) && NoticesFollow(log, window) && SameLimit(log, limit)
      requires |order| == maxBuckets && key !in buckets
      modifies this
      ensures Valid() && clock == now && ok && !notice
      ensures Recent(old(log), key, now - windowSeconds) < limit
      ensures old(order)[0] in old(buckets)
      ensures log == old(log) + [Evicted(old(order)[0]), Call(key, now, windowSeconds, limit, true, false)]
      ensures DropsThenMoves(old(order), order, key)
    {
      hide Tracks, Recorded, Recent, InEpisode, NoDup, NoticesFollow, WarnedOk, SameLimit, DropsThenMoves, Without;
      hide TableOk, Follows;
      EvictOldest(key, now);
      ok, notice := Serve(key, now);
      DroppedThenMoved(old(order), old(order)[1..], order, key);
    }

    /** Allowed exactly when fewer than `limit` calls of the key, since it was last evicted, were
        allowed in the last window; only a new key in a full table evicts another. */
    method AllowWithNotice(key: Key, now: real) returns (ok: bool, notice: bool)
      requires Valid() && clock <= now
      modifies this
      ensures Valid() && clock == now
      ensures ok <==> Recent(old(log), key, now - windowSeconds) < limit
      ensures notice <==> !ok && !InEpisode(old(log), window, key)
      ensures
        || log == old(log) + [Call(key, now, windowSeconds, limit, ok, notice)]
        || (&& key !in old(buckets) && |old(order)| == maxBuckets && ok
            && old(order)[0] in old(buckets)
            && log == old(log) + [Evicted(old(order)[0]), Call(key, now, windowSeconds, limit, ok, notice)])
      ensures DropsThenMoves(old(order), order, key)
    {
      hide Tracks, Recorded, Recent, InEpisode, NoDup, NoticesFollow, WarnedOk, SameLimit, DropsThenMoves, Without;
      hide TableOk, Follows;
      FollowsLater(order, buckets, maxBuckets, log, window, clock, now);
      FullForNewKey(order, buckets, maxBuckets, log, window, clock, now, key);
      PruneOldestBuckets(now);
      FullForNewKey(order, buckets, maxBuckets, log, window, clock, now, key);
      if key !in buckets && |order| >= maxBuckets {
        assert |order| == maxBuckets && buckets.Keys == old(buckets.Keys) && order == old(order);
        ok, notice := EvictAndServe(key, now);
      } else {
        ghost var kept := order;
        ok, notice := Serve(key, now);
        DroppedThenMoved(old(order), kept, order, key);
      }
    }
  }

  lemma FollowsLater(
    order: seq<Key>, buckets: Buckets, maxBuckets: nat, log: seq<Event>, window: Windows, clock: real, now: real)
    requires Follows(order, buckets, maxBuckets, log, window, clock, clock) && clock <= now
    ensures Follows(order, buckets, maxBuckets, log, window, clock, now)
  {
    hide TableOk, Tracks, Recorded;
    TracksLater(buckets, log, window, clock, now);
  }

  lemma FullForNewKey(
    order: seq<Key>, buckets: Buckets, maxBuckets: nat, log: seq<Event>, window: Windows, clock: real, now: real,
    key: Key)
    requires maxBuckets >= 1 && Follows(order, buckets, maxBuckets, log, window, clock, now)
    ensures |order| <= maxBuckets
    ensures |Without(order, key)| >= maxBuckets <==> key !in buckets && |order| == maxBuckets
    ensures |order| == maxBuckets ==> order[0] in buckets
  {
    WithoutFacts(order, key);
  }

  /** The limiter of credential disclosure. It checks saturation before it makes room. */
  class RevealLimiter {
    const limit: nat
    const windowSeconds: real
    const maxBuckets: nat
    var order: seq<Key>
    var buckets: Buckets
    ghost const window: Windows
    ghost var log: seq<Event>
    ghost var clock: real

    ghost predicate Shaped() {
      limit >= 1 && maxBuckets >= 1 && window == Windows(windowSeconds, map[])
    }

    ghost predicate Valid()
      reads this
    {
      Shaped() && Follows(order, buckets, maxBuckets, log, window, clock, clock) && SameLimit(log, limit)
    }

    constructor (limit: int, windowSeconds: real, maxBuckets: int)
      ensures Valid() && log == [] && clock == 0.0
      ensures this.limit == (if limit >= 1 then limit else 1)
      ensures this.windowSeconds == (if windowSeconds >= 0.001 then windowSeconds else 0.001)
      ensures this.maxBuckets == (if maxBuckets >= 1 then maxBuckets else 1)
    {
      this.limit, this.windowSeconds := AtLeast(1, limit), AtLeastReal(0.001, windowSeconds);
      this.maxBuckets := AtLeast(1, maxBuckets);
      order, buckets := [], map[];
      window, log, clock := Windows(AtLeastReal(0.001, windowSeconds), map[]), [], 0.0;
    }

    method PruneStale(now: real)
      requires Shaped() && Follows(order, buckets, maxBuckets, log, window, clock, now)
      modifies this`order, this`buckets
      ensures Follows(order, buckets, maxBuckets, log, window, clock, now)
      ensures |order| < old(|order|) || (|order| == old(|order|) && buckets.Keys == old(buckets.Keys))
      ensures |order| <= old(|order|) && order == old(order)[old(|order|) - |order|..]
      ensures |order| == old(|order|) ==> order == old(order)
    {
      hide TableOk, Tracks, Recorded, Prune;
      while order != []
        invariant Follows(order, buckets, maxBuckets, log, window, clock, now)
        invariant |order| < old(|order|) || (order == old(order) && buckets.Keys == old(buckets.Keys))
        invariant |order| <= old(|order|) && order == old(order)[old(|order|) - |order|..]
        invariant log == old(log) && clock == old(clock)
        decreases |order|
      {
        FollowsPrunedFirst(order, buckets, maxBuckets, log, window, clock, now);
        hide Follows;
        var staleKey := order[0];
        var timestamps := PruneTimestamps(buckets[staleKey], now - windowSeconds);
        if timestamps != [] {
          buckets := buckets[staleKey := timestamps];
          break;
        }
        order, buckets := order[1..], buckets - {staleKey};
      }
    }

    /** Makes room for a new key in a full table. */
    method EvictOldest(ghost key: Key, ghost now: real)
      requires Shaped() && Follows(order, buckets, maxBuckets, log, window, clock, now) && SameLimit(log, limit)
      requires |order| == maxBuckets && key !in buckets
      modifies this`order, this`buckets, this`log
      ensures Follows(order, buckets, maxBuckets, log, window, clock, now) && SameLimit(log, limit)
      ensures |order| < maxBuckets && key !in buckets
      ensures old(order)[0] in old(buckets) && log == old(log) + [Evicted(old(order)[0])]
      ensures order == old(order)[1..]
      ensures Recent(log, key, now - windowSeconds) == Recent(old(log), key, now - windowSeconds)
    {
      hide Tracks, Recorded, Recent, NoDup, SameLimit;
      ghost var victim := order[0];
      assert victim in order;
      FollowsEviction(order, buckets, maxBuckets, log, window, clock, now);
      SameLimitSnoc(log, limit, Evicted(victim));
      EvictionElsewhere(log, window, victim, key, now - windowSeconds);
      var oldest := order[0];
      order, buckets := order[1..], buckets - {oldest};
      log := log + [Evicted(victim)];
    }

    /** Counts and records one call of a key; a saturated key is put back as it is. */
    method Serve(key: Key, now: real, timestamps: seq<real>) returns (ok: bool)
      requires Shaped() && clock <= now && Follows(order, buckets, maxBuckets, log, window, clock, now)
      requires SameLimit(log, limit) && (key in buckets || |order| < maxBuckets)
      requires timestamps == Prune(BucketOf(buckets, key), now - windowSeconds)
      modifies this
      ensures Valid() && clock == now
      ensures ok <==> Recent(old(log), key, now - windowSeconds) < limit
      ensures log == old(log) + [Call(key, now, windowSeconds, limit, ok, false)]
      ensures ok <==> |timestamps| < limit
      ensures order == Without(old(order), key) + [key]
    {
      hide Tracks, Recorded, Recent, NoDup, Without, SameLimit, Prune, Follows;
      assert window.For(key) == windowSeconds;
      ghost var e := Call(key, now, windowSeconds, limit, Recent(log, key, now - windowSeconds) < limit, false);
      ServeFollows(order, buckets, maxBuckets, limit, log, window, clock, key, now, e.allowed, false);
      ok := |timestamps| < limit;
      order, buckets := Without(order, key) + [key], buckets[key := if ok then timestamps + [now] else timestamps];
      log, clock := log + [e], now;
    }

    /** Makes room for a new key in a full table, and serves it. */
    method EvictAndServe(key: Key, now: real, timestamps: seq<real>) returns (ok: bool)
      requires Shaped() && clock <= now && Follows(order, buckets, maxBuckets, log, window, clock, now)
      requires SameLimit(log, limit) && key !in buckets && |order| == maxBuckets && |timestamps| < limit
      requires timestamps == Prune([], now - windowSeconds)
      modifies this
      ensures Valid() && clock == now && ok
      ensures Recent(old(log), key, now - windowSeconds) < limit
      ensures old(order)[0] in old(buckets)
      ensures log == old(log) + [Evicted(old(order)[0]), Call(key, now, windowSeconds, limit, ok, false)]
      ensures DropsThenMoves(old(order), order, key)
    {
      hide Tracks, Recorded, Recent, NoDup, Without, SameLimit, Prune, DropsThenMoves, TableOk, Follows;
      EvictOldest(key, now);
      ok := Serve(key, now, timestamps);
      DroppedThenMoved(old(order), old(order)[1..], order, key);
    }

    /** The same decisions as the auth limiter's, though the checks come in another order. */
    method Allow(key: Key, now: real) returns (ok: bool)
      requires Valid() && clock <= now
      modifies this
      ensures Valid() && clock == now
      ensures ok <==> Recent(old(log), key, now - windowSeconds) < limit
      ensures
        || log == old(log) + [Call(key, now, windowSeconds, limit, ok, false)]
        || (&& key !in old(buckets) && |old(order)| == maxBuckets && ok
            && old(order)[0] in old(buckets)
            && log == old(log) + [Evicted(old(order)[0]), Call(key, now, windowSeconds, limit, ok, false)])
      ensures DropsThenMoves(old(order), order, key)
    {
      hide Tracks, Recorded, Recent, NoDup, Without, SameLimit, Prune, DropsThenMoves, TableOk, Follows;
      FollowsLater(order, buckets, maxBuckets, log, window, clock, now);
      FullForNewKey(order, buckets, maxBuckets, log, window, clock, now, key);
      PruneStale(now);
      FullForNewKey(order, buckets, maxBuckets, log, window, clock, now, key);
      PruneNothing(now - windowSeconds);
      var timestamps := PruneTimestamps(if key in buckets then buckets[key] else [], now - windowSeconds);
      if |timestamps| < limit && |Without(order, key)| >= maxBuckets {
        assert key !in old(buckets) && |old(order)| == maxBuckets && order == old(order);
        ok := EvictAndServe(key, now, timestamps);
      } else {
        ghost var kept := order;
        ok := Serve(key, now, timestamps);
        DroppedThenMoved(old(order), kept, order, key);
      }
    }
  }
}
