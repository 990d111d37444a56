/** The scoped TTL cache against the plain history of its puts and invalidations. */
module ConnectionCache {
  import opened Common
  import opened CacheValues

  /** An entry's key: connection, tool and canonical arguments (their digest taken as injective). */
  datatype Scope = Scope(conn: string, tool: string, args: Canon)

  datatype Entry = Entry(expiresAt: real, value: Value)

  type Entries = map<Scope, Entry>

  datatype Rules = Rules(screen: Screen, validId: string -> bool)

  datatype CacheError = BadIdentifier | BadTtl

  /** None for arguments that disable caching; unusable identifiers are an error. */
  function ScopeOf(rules: Rules, conn: string, tool: string, args: Option<Value>): Result<Option<Scope>, CacheError> {
    var canonical := Canonical(rules.screen, if args.Some? then args.value else Dict([]), 0);
    if canonical.None? then Ok(None)
    else if !rules.validId(conn) || !rules.validId(tool) then Err(BadIdentifier)
    else Ok(Some(Scope(conn, tool, canonical.value)))
  }

  /** A value the cache agrees to keep: structured, and free of anything sensitive. */
  predicate Admits(p: Screen, v: Value) {
    !v.Null? && !v.Str? && !v.Bytes? && !Sensitive(p, v, 0)
  }

  /** The arguments a key is made of. */
  function Sent(args: Option<Value>): Value { if args.Some? then args.value else Dict([]) }

  /** A call has a cache key exactly when its arguments are cacheable and both identifiers usable, and
      then it is a key of its own connection and tool. */
  lemma ScopesAreExact(rules: Rules, conn: string, tool: string, args: Option<Value>)
    ensures
      var cacheable, scope := AllMayBeKept(rules.screen, false, Nodes(Sent(args), 0)), ScopeOf(rules, conn, tool, args);
      && (scope == Ok(None) <==> !cacheable)
      && (scope == Err(BadIdentifier) <==> cacheable && !(rules.validId(conn) && rules.validId(tool)))
      && (scope.Ok? && scope.value.Some? ==> scope.value.value.conn == conn && scope.value.value.tool == tool)
  {
    hide Canonical, AllMayBeKept, Nodes;
    CacheableExactly(rules.screen, Sent(args), 0);
  }

  /** Two calls have the same key exactly when connection, tool and arguments are the same. */
  lemma CallsShareAScopeExactly(
    rules: Rules, conn: string, tool: string, args: Option<Value>, conn': string, tool': string, args': Option<Value>)
    requires WellFormed(Sent(args)) && WellFormed(Sent(args'))
    requires
      var a, b := ScopeOf(rules, conn, tool, args), ScopeOf(rules, conn', tool', args');
      a.Ok? && a.value.Some? && b.Ok? && b.value.Some?
    ensures ScopeOf(rules, conn, tool, args) == ScopeOf(rules, conn', tool', args')
            <==> conn == conn' && tool == tool' && SameArguments(Sent(args), Sent(args'))
  {
    hide Canonical, WellFormed, SameArguments;
    ArgumentsShareAKeyExactly(rules.screen, Sent(args), Sent(args'), 0);
  }

  /** A value is admitted exactly when it is no bare null, text or bytes and all its parts may be kept. */
  lemma AdmitsExactly(p: Screen, v: Value)
    ensures Admits(p, v) <==> !v.Null? && !v.Str? && !v.Bytes? && AllMayBeKept(p, true, Nodes(v, 0))
  {
    hide Sensitive, AllMayBeKept, Nodes;
    AdmittedExactly(p, v, 0);
  }

  function Lookup(entries: Entries, k: Scope, now: real): Option<Value> {
    if k !in entries || entries[k].expiresAt <= now then None else Some(entries[k].value)
  }

  function Evict(entries: Entries, k: Scope, now: real): Entries {
    if k in entries && entries[k].expiresAt <= now then entries - {k} else entries
  }

  function Keep(p: Screen, entries: Entries, k: Scope, v: Value, at: real, ttl: real): Entries {
    entries[k := Entry(at + ttl, SafeValue(p, v, 0))]
  }

  function ScopesOf(entries: Entries, conn: string): set<Scope> {
    set k | k in entries && k.conn == conn
  }

  /** What happened to the cache, oldest first. */
  datatype Event = Put(key: Scope, value: Value, at: real, ttl: real) | Invalidated(conn: string)

  /** The value a key has at time `now`, read off the history alone. */
  function Live(p: Screen, log: seq<Event>, k: Scope, now: real): Option<Value> {
    if log == [] then None
    else
      var last := log[|log| - 1];
      match last
      case Put(key, value, at, ttl) =>
        if key != k then Live(p, log[..|log| - 1], k, now)
        else if now < at + ttl then Some(SafeValue(p, value, 0))
        else None
      case Invalidated(conn) =>
        if conn == k.conn then None else Live(p, log[..|log| - 1], k, now)
  }

  predicate Touches(e: Event, k: Scope) {
    match e case Put(key, _, _, _) => key == k case Invalidated(conn) => conn == k.conn
  }

  /** Event `i` put this key, and nothing since put it again or invalidated its connection. */
  ghost predicate IsLatestPut(log: seq<Event>, k: Scope, i: int) {
    && 0 <= i < |log| && log[i].Put? && log[i].key == k
    && forall j :: i < j < |log| ==> !Touches(log[j], k)
  }

  /** A hit is exactly the stored copy of the latest put of the same connection, tool and canonical
      arguments, younger than its time to live and not invalidated since. */
  lemma {:induction false} HitIsTheLatestLivePut(p: Screen, log: seq<Event>, k: Scope, now: real, v: Value)
    ensures Live(p, log, k, now) == Some(v) <==>
            exists i :: IsLatestPut(log, k, i) && now < log[i].at + log[i].ttl && v == SafeValue(p, log[i].value, 0)
    decreases log
  {
    hide SafeValue;
    if log != [] {
      var n := |log| - 1;
      var front := log[..n];
      if Touches(log[n], k) {
        if log[n].Put? {
          assert IsLatestPut(log, k, n);
        }
        assert forall i :: IsLatestPut(log, k, i) ==> i == n;
      } else {
        HitIsTheLatestLivePut(p, front, k, now, v);
        assert forall j :: 0 <= j < n ==> front[j] == log[j];
        forall i ensures IsLatestPut(log, k, i) <==> IsLatestPut(front, k, i) {
        }
        assert forall i :: IsLatestPut(front, k, i) ==> front[i] == log[i];
      }
    }
  }

  /** From `clock` on, the entries and the history give every key the same value. */
  ghost predicate Agree(p: Screen, entries: Entries, log: seq<Event>, clock: real) {
    forall k, t: real :: t >= clock ==> Lookup(entries, k, t) == Live(p, log, k, t)
  }

  lemma LiveSnoc(p: Screen, log: seq<Event>, e: Event, k: Scope, now: real)
    ensures
      Live(p, log + [e], k, now) ==
      if !Touches(e, k) then Live(p, log, k, now)
      else if e.Put? && now < e.at + e.ttl then Some(SafeValue(p, e.value, 0))
      else None
  {
    assert (log + [e])[..|log|] == log;
  }

  lemma PutAgrees(p: Screen, entries: Entries, log: seq<Event>, k: Scope, v: Value, at: real, ttl: real, clock: real)
    requires Agree(p, entries, log, clock)
    ensures Agree(p, Keep(p, entries, k, v, at, ttl), log + [Put(k, v, at, ttl)], clock)
  {
    forall k', t: real | t >= clock
      ensures Lookup(Keep(p, entries, k, v, at, ttl), k', t) == Live(p, log + [Put(k, v, at, ttl)], k', t)
    {
      hide SafeValue;
      LiveSnoc(p, log, Put(k, v, at, ttl), k', t);
      assert Lookup(entries, k', t) == Live(p, log, k', t);
    }
  }

  lemma InvalidationAgrees(p: Screen, entries: Entries, log: seq<Event>, conn: string, clock: real)
    requires Agree(p, entries, log, clock)
    ensures Agree(p, entries - ScopesOf(entries, conn), log + [Invalidated(conn)], clock)
  {
    forall k, t: real | t >= clock
      ensures Lookup(entries - ScopesOf(entries, conn), k, t) == Live(p, log + [Invalidated(conn)], k, t)
    {
      LiveSnoc(p, log, Invalidated(conn), k, t);
      assert Lookup(entries, k, t) == Live(p, log, k, t);
    }
  }

  lemma ExpiryAgrees(p: Screen, entries: Entries, log: seq<Event>, k: Scope, clock: real, now: real)
    requires Agree(p, entries, log, clock) && clock <= now
    ensures Agree(p, Evict(entries, k, now), log, now)
  {
    hide Live;
  }

  class ConnectionCache {
    const rules: Rules
    var entries: Entries
    ghost var log: seq<Event>
    ghost var clock: real

    ghost predicate Valid()
      reads this
    {
      && Agree(rules.screen, entries, log, clock)
      && (forall i :: 0 <= i < |log| && log[i].Put? ==> Admits(rules.screen, log[i].value) && log[i].ttl > 0.0)
    }

    constructor (rules: Rules)
      ensures Valid() && log == [] && clock == 0.0 && this.rules == rules
    {
      this.rules := rules;
      entries, log, clock := map[], [], 0.0;
    }

    method Get(conn: string, tool: string, args: Option<Value>, now: real)
      returns (r: Result<Option<Value>, CacheError>)
      requires Valid() && clock <= now
      modifies this`entries, this`clock
      ensures Valid() && clock == now
      ensures
        r == match ScopeOf(rules, conn, tool, args)
             case Err(error) => Err(error)
             case Ok(None) => Ok(None)
             case Ok(Some(k)) => Ok(Live(rules.screen, log, k, now))
      ensures forall k :: k in entries ==> k in old(entries) && entries[k] == old(entries)[k]
      ensures forall k :: k in old(entries) ==>
                (k !in entries <==>
                 ScopeOf(rules, conn, tool, args) == Ok(Some(k)) && old(entries)[k].expiresAt <= now)
    {
      hide Live, SafeValue, Sensitive, Canonical;
      clock := now;
      match ScopeOf(rules, conn, tool, args)
      case Err(error) => return Err(error);
      case Ok(None) => return Ok(None);
      case Ok(Some(k)) =>
        r := Ok(Lookup(entries, k, now));
        ExpiryAgrees(rules.screen, entries, log, k, old(clock), now);
        if k in entries && entries[k].expiresAt <= now {
          entries := entries - {k};
        }
    }

    /** A put succeeds exactly for cacheable arguments and admitted values, and then is the newest event. */
    method Put(conn: string, tool: string, args: Option<Value>, value: Value, ttl: Option<real>, now: real)
      returns (r: Result<bool, CacheError>)
      requires Valid() && clock <= now
      modifies this
      ensures Valid() && clock == now
      ensures
        var scope := ScopeOf(rules, conn, tool, args);
        && (r == Err(BadTtl) <==> ttl.None? || ttl.value <= 0.0)
        && (r == Err(BadIdentifier) <==> r != Err(BadTtl) && scope.Err?)
        && (r == Ok(true) <==> r.Ok? && scope.value.Some? && Admits(rules.screen, value))
        && log == old(log) + if r == Ok(true) then [Event.Put(scope.value.value, value, now, ttl.value)] else []
    {
      hide SafeValue, Sensitive, Canonical;
      clock := now;
      if ttl.None? || ttl.value <= 0.0 {
        return Err(BadTtl);
      }
      match ScopeOf(rules, conn, tool, args)
      case Err(error) => return Err(error);
      case Ok(None) => return Ok(false);
      case Ok(Some(k)) =>
        if !Admits(rules.screen, value) {
          return Ok(false);
        }
        entries := Keep(rules.screen, entries, k, value, now, ttl.value);
        log := log + [Event.Put(k, value, now, ttl.value)];
        PutAgrees(rules.screen, old(entries), old(log), k, value, now, ttl.value, clock);
        return Ok(true);
    }

    /** Drops every entry of one connection, and counts them. */
    method InvalidateConnection(conn: string) returns (r: Result<nat, CacheError>)
      requires Valid()
      modifies this`entries, this`log
      ensures Valid()
      ensures r == if rules.validId(conn) then Ok(|set k | k in old(entries) && k.conn == conn|) else Err(BadIdentifier)
      ensures log == old(log) + if r.Ok? then [Invalidated(conn)] else []
    {
      hide SafeValue, Sensitive;
      if !rules.validId(conn) {
        return Err(BadIdentifier);
      }
      var keys := ScopesOf(entries, conn);
      var rest := keys;
      while rest != {}
        invariant rest <= keys
        invariant entries == old(entries) - (keys - rest) && log == old(log)
        decreases rest
      {
        var k :| k in rest;
        entries := entries - {k};
        rest := rest - {k};
      }
      log := log + [Invalidated(conn)];
      InvalidationAgrees(rules.screen, old(entries), old(log), conn, clock);
      assert keys - rest == keys;
      return Ok(|keys|);
    }
  }

  /** What a caller is given on a hit keeps every key and element of what was put. */
  lemma HitLosesNothing(p: Screen, log: seq<Event>, k: Scope, now: real)
    requires forall i :: 0 <= i < |log| && log[i].Put? ==> Admits(p, log[i].value)
    requires Live(p, log, k, now).Some?
    ensures exists i :: IsLatestPut(log, k, i) && now - log[i].at < log[i].ttl
                        && KeepsAll(log[i].value, Live(p, log, k, now).value)
  {
    var v := Live(p, log, k, now).value;
    HitIsTheLatestLivePut(p, log, k, now, v);
    hide Live;
    var i :| IsLatestPut(log, k, i) && now < log[i].at + log[i].ttl && v == SafeValue(p, log[i].value, 0);
    AdmittedValueIsKept(p, log[i].value, 0);
  }
}
