/** `get_or_load` under any interleaving: one load per key, and everyone who waits is released.
    Every lock body is one atomic step; loads and waits are where other tasks run. */
module SingleFlight {
  import opened Common
  import opened CacheValues
  import opened ConnectionCache

  datatype Outcome = Pending | Cached(value: Option<Value>) | Bypass | Failed | Cancelled

  /** A shared future, with its creator. */
  datatype Future = Future(key: Scope, owner: nat, outcome: Outcome)

  datatype Load = Gives(value: Value) | Raises | IsCancelled

  datatype Reply =
    | Hit(value: Value) | Shared(shared: Option<Value>) | Own(own: Value)
    | OwnError | LoadError | Cancellation

  datatype Phase =
    | Probing | Joining
    | Loading(f: nat) | Storing(f: nat, value: Value) | Rereading(f: nat, value: Value)
    | Releasing(f: nat, reply: Reply)
    | Waiting(f: nat) | LoadingAlone
    | Done(reply: Reply)

  datatype Task = Task(key: Scope, ttl: Option<real>, phase: Phase)

  datatype State = State(
    entries: Entries,
    log: seq<Event>,
    clock: real,
    inflight: map<Scope, nat>,
    futures: seq<Future>,
    tasks: map<nat, Task>)

  const INIT := State(map[], [], 0.0, map[], [], map[])

  datatype Action =
    | Arrive(t: nat, key: Scope, ttl: Option<real>)
    | Probe(t: nat)
    | Join(t: nat)
    | FinishLoad(t: nat, load: Load)
    | Store(t: nat)
    | Reread(t: nat)
    | Release(t: nat)
    | Wake(t: nat)
    | CancelTask(t: nat)
    | FinishAlone(t: nat, load: Load)
    | PutDirectly(key: Scope, value: Value, seconds: real)
    | Invalidate(conn: string)
    | Tick(now: real)

  predicate Active(ph: Phase) { ph.Loading? || ph.Storing? || ph.Rereading? }

  /** The phases of the creator of future `f`, until it has removed the in-flight entry. */
  predicate OwnerPhase(ph: Phase) { Active(ph) || ph.Releasing? }

  predicate Enabled(p: Screen, s: State, a: Action) {
    match a
    case Arrive(t, _, _) => t !in s.tasks
    case Probe(t) => t in s.tasks && s.tasks[t].phase.Probing?
    case Join(t) => t in s.tasks && s.tasks[t].phase.Joining?
    case FinishLoad(t, _) => t in s.tasks && s.tasks[t].phase.Loading?
    case Store(t) => t in s.tasks && s.tasks[t].phase.Storing?
    case Reread(t) => t in s.tasks && s.tasks[t].phase.Rereading?
    case Release(t) => t in s.tasks && s.tasks[t].phase.Releasing?
    case Wake(t) =>
      && t in s.tasks && s.tasks[t].phase.Waiting? && s.tasks[t].phase.f < |s.futures|
      && !s.futures[s.tasks[t].phase.f].outcome.Pending?
    case CancelTask(t) =>
      t in s.tasks && (s.tasks[t].phase.Probing? || s.tasks[t].phase.Joining? || s.tasks[t].phase.Waiting?)
    case FinishAlone(t, _) => t in s.tasks && s.tasks[t].phase.LoadingAlone?
    case PutDirectly(_, value, ttl) => Admits(p, value) && ttl > 0.0
    case Invalidate(_) => true
    case Tick(now) => now >= s.clock
  }

  function Move(s: State, t: nat, phase: Phase): (r: State)
    requires t in s.tasks
    ensures r.entries == s.entries && r.log == s.log && r.clock == s.clock
  {
    s.(tasks := s.tasks[t := s.tasks[t].(phase := phase)])
  }

  function Resolve(s: State, f: nat, outcome: Outcome): (r: State)
    ensures r.tasks == s.tasks && |r.futures| == |s.futures|
  {
    if f < |s.futures| then s.(futures := s.futures[f := s.futures[f].(outcome := outcome)]) else s
  }

  function ReplyOf(load: Load): Reply {
    match load case Gives(value) => Own(value) case Raises => OwnError case IsCancelled => Cancellation
  }

  /** Joins the load in flight for the key, or becomes its owner. */
  function Enter(s: State, t: nat): (r: State)
    requires t in s.tasks
    ensures r.entries == s.entries && r.log == s.log && r.clock == s.clock
  {
    var k := s.tasks[t].key;
    if k in s.inflight then Move(s, t, Waiting(s.inflight[k]))
    else
      var f := |s.futures|;
      Move(s.(futures := s.futures + [Future(k, t, Pending)], inflight := s.inflight[k := f]), t, Loading(f))
  }

  /** The owner resolves its future. */
  function Settle(s: State, t: nat, outcome: Outcome, reply: Reply): (r: State)
    requires t in s.tasks && Active(s.tasks[t].phase)
    ensures r.entries == s.entries && r.log == s.log && r.clock == s.clock
  {
    Move(Resolve(s, s.tasks[t].phase.f, outcome), t, Releasing(s.tasks[t].phase.f, reply))
  }

  /** The owner removes its in-flight entry and answers. */
  function Leave(s: State, t: nat): (r: State)
    requires t in s.tasks && s.tasks[t].phase.Releasing?
    ensures r.entries == s.entries && r.log == s.log && r.clock == s.clock
  {
    var task := s.tasks[t];
    var mine := task.key in s.inflight && s.inflight[task.key] == task.phase.f;
    Move(if mine then s.(inflight := s.inflight - {task.key}) else s, t, Done(task.phase.reply))
  }

  function Woken(outcome: Outcome): Phase {
    match outcome
    case Cached(value) => Done(Shared(value))
    case Bypass => LoadingAlone
    case Failed => Done(LoadError)
    case _ => Done(Cancellation)
  }

  function Keeps(p: Screen, s: State, k: Scope, v: Value, ttl: real): (r: State)
    ensures r.tasks == s.tasks && r.futures == s.futures && r.inflight == s.inflight
  {
    s.(entries := Keep(p, s.entries, k, v, s.clock, ttl), log := s.log + [Put(k, v, s.clock, ttl)])
  }

  function Expire(s: State, k: Scope): (r: State)
    ensures r.tasks == s.tasks && r.futures == s.futures && r.inflight == s.inflight
  {
    s.(entries := Evict(s.entries, k, s.clock))
  }

  function Apply(p: Screen, s: State, a: Action): State
    requires Enabled(p, s, a)
  {
    match a
    case Arrive(t, key, ttl) => s.(tasks := s.tasks[t := Task(key, ttl, Probing)])
    case Probe(t) =>
      var k := s.tasks[t].key;
      var found := Lookup(s.entries, k, s.clock);
      Move(Expire(s, k), t, if found.Some? then Done(Hit(found.value)) else Joining)
    case Join(t) => Enter(s, t)
    case FinishLoad(t, load) =>
      (match load
       case Gives(value) => Move(s, t, Storing(s.tasks[t].phase.f, value))
       case Raises => Settle(s, t, Failed, OwnError)
       case IsCancelled => Settle(s, t, Cancelled, Cancellation))
    case Store(t) =>
      var task := s.tasks[t];
      var v := task.phase.value;
      if task.ttl.None? || task.ttl.value <= 0.0 then Settle(s, t, Failed, OwnError)
      else if !Admits(p, v) then Settle(s, t, Bypass, Own(v))
      else Move(Keeps(p, s, task.key, v, task.ttl.value), t, Rereading(task.phase.f, v))
    case Reread(t) =>
      var k := s.tasks[t].key;
      Settle(Expire(s, k), t, Cached(Lookup(s.entries, k, s.clock)), Own(s.tasks[t].phase.value))
    case Release(t) => Leave(s, t)
    case Wake(t) => Move(s, t, Woken(s.futures[s.tasks[t].phase.f].outcome))
    case CancelTask(t) => Move(s, t, Done(Cancellation))
    case FinishAlone(t, load) => Move(s, t, Done(ReplyOf(load)))
    case PutDirectly(key, value, seconds) => Keeps(p, s, key, value, seconds)
    case Invalidate(conn) =>
      s.(entries := s.entries - ScopesOf(s.entries, conn), log := s.log + [Invalidated(conn)])
    case Tick(now) => s.(clock := now)
  }

  ghost predicate Next(p: Screen, s: State, s': State) {
    exists a :: Enabled(p, s, a) && s' == Apply(p, s, a)
  }

  ghost predicate Execution(p: Screen, states: seq<State>) {
    && states != [] && states[0] == INIT
    && forall i :: 0 <= i < |states| - 1 ==> Next(p, states[i], states[i + 1])
  }

  // ----- the invariant -----

  predicate Owns(s: State, t: nat, f: nat) {
    t in s.tasks && OwnerPhase(s.tasks[t].phase) && s.tasks[t].phase.f == f
  }

  ghost predicate InflightOwned(s: State) {
    forall k :: k in s.inflight ==>
      && s.inflight[k] < |s.futures|
      && s.futures[s.inflight[k]].key == k
      && Owns(s, s.futures[s.inflight[k]].owner, s.inflight[k])
  }

  ghost predicate OwnersInflight(s: State) {
    forall t :: t in s.tasks && OwnerPhase(s.tasks[t].phase) ==>
      var f, k := s.tasks[t].phase.f, s.tasks[t].key;
      && f < |s.futures| && k in s.inflight && s.inflight[k] == f
      && s.futures[f].owner == t && s.futures[f].key == k
      && (s.futures[f].outcome.Pending? <==> Active(s.tasks[t].phase))
  }

  ghost predicate PendingOwned(s: State) {
    forall f: nat :: f < |s.futures| && s.futures[f].outcome.Pending? ==> Owns(s, s.futures[f].owner, f)
  }

  ghost predicate WaitersHaveFutures(s: State) {
    forall t :: t in s.tasks && s.tasks[t].phase.Waiting? ==>
      s.tasks[t].phase.f < |s.futures| && s.futures[s.tasks[t].phase.f].key == s.tasks[t].key
  }

  /** `v` is the stored copy of an admitted value that was put under `k`. */
  ghost predicate StoredFor(p: Screen, log: seq<Event>, k: Scope, v: Value) {
    exists i :: 0 <= i < |log| && log[i].Put? && log[i].key == k
                && Admits(p, log[i].value) && v == SafeValue(p, log[i].value, 0)
  }

  ghost predicate EntriesStored(p: Screen, s: State) {
    forall k :: k in s.entries ==> StoredFor(p, s.log, k, s.entries[k].value)
  }

  ghost predicate FuturesStored(p: Screen, s: State) {
    forall f: nat :: f < |s.futures| && s.futures[f].outcome.Cached? && s.futures[f].outcome.value.Some? ==>
      StoredFor(p, s.log, s.futures[f].key, s.futures[f].outcome.value.value)
  }

  function Received(ph: Phase): Option<Value> {
    match ph
    case Done(Hit(value)) => Some(value)
    case Done(Shared(value)) => value
    case _ => None
  }

  ghost predicate RepliesStored(p: Screen, s: State) {
    forall t :: t in s.tasks && Received(s.tasks[t].phase).Some? ==>
      StoredFor(p, s.log, s.tasks[t].key, Received(s.tasks[t].phase).value)
  }

  /** A releasing owner answers with its own load, never with a shared value. */
  ghost predicate OwnersKeepTheirReply(s: State) {
    forall t :: t in s.tasks && s.tasks[t].phase.Releasing? ==>
      s.tasks[t].phase.reply.Own? || s.tasks[t].phase.reply.OwnError? || s.tasks[t].phase.reply.Cancellation?
  }

  ghost predicate Protocol(s: State) {
    InflightOwned(s) && OwnersInflight(s) && PendingOwned(s) && WaitersHaveFutures(s) && OwnersKeepTheirReply(s)
  }

  lemma WaitKeepsProtocol(s: State, t: nat)
    requires Protocol(s) && t in s.tasks && s.tasks[t].phase.Joining? && s.tasks[t].key in s.inflight
    ensures Protocol(Enter(s, t))
  {
  }

  /** The state after a task has become the owner of a new load. */
  ghost predicate Entered(s: State, s': State, t: nat) {
    var n := |s.futures|;
    && t in s.tasks && s.tasks[t].phase.Joining? && s.tasks[t].key !in s.inflight
    && s'.tasks == s.tasks[t := s.tasks[t].(phase := Loading(n))]
    && s'.futures == s.futures + [Future(s.tasks[t].key, t, Pending)]
    && s'.inflight == s.inflight[s.tasks[t].key := n]
  }

  lemma EnteredIsOwned(s: State, s': State, t: nat)
    requires Entered(s, s', t) && InflightOwned(s) && OwnersInflight(s)
    ensures InflightOwned(s') && OwnersInflight(s')
  {
  }

  lemma EnteredIsPending(s: State, s': State, t: nat)
    requires Entered(s, s', t) && PendingOwned(s) && WaitersHaveFutures(s) && OwnersKeepTheirReply(s)
    ensures PendingOwned(s') && WaitersHaveFutures(s') && OwnersKeepTheirReply(s')
  {
  }

  lemma CreateKeepsProtocol(s: State, t: nat)
    requires Protocol(s) && t in s.tasks && s.tasks[t].phase.Joining? && s.tasks[t].key !in s.inflight
    ensures Protocol(Enter(s, t))
  {
    hide InflightOwned, OwnersInflight, PendingOwned, WaitersHaveFutures, OwnersKeepTheirReply;
    EnteredIsOwned(s, Enter(s, t), t);
    EnteredIsPending(s, Enter(s, t), t);
  }

  /** The state after an owner has resolved its future. */
  ghost predicate Settled(s: State, s': State, t: nat, outcome: Outcome, reply: Reply) {
    && t in s.tasks && Active(s.tasks[t].phase) && s.tasks[t].phase.f < |s.futures|
    && !outcome.Pending? && (reply.Own? || reply.OwnError? || reply.Cancellation?)
    && var f := s.tasks[t].phase.f;
    && s'.tasks == s.tasks[t := s.tasks[t].(phase := Releasing(f, reply))]
    && s'.futures == s.futures[f := s.futures[f].(outcome := outcome)] && s'.inflight == s.inflight
  }

  lemma SettledIsOwned(s: State, s': State, t: nat, outcome: Outcome, reply: Reply)
    requires Settled(s, s', t, outcome, reply) && InflightOwned(s) && OwnersInflight(s)
    ensures InflightOwned(s') && OwnersInflight(s')
  {
  }

  lemma SettledIsPending(s: State, s': State, t: nat, outcome: Outcome, reply: Reply)
    requires Settled(s, s', t, outcome, reply) && OwnersInflight(s)
    requires PendingOwned(s) && WaitersHaveFutures(s) && OwnersKeepTheirReply(s)
    ensures PendingOwned(s') && WaitersHaveFutures(s') && OwnersKeepTheirReply(s')
  {
  }

  lemma SettleKeepsProtocol(s: State, t: nat, outcome: Outcome, reply: Reply)
    requires Protocol(s) && t in s.tasks && Active(s.tasks[t].phase)
    requires !outcome.Pending? && (reply.Own? || reply.OwnError? || reply.Cancellation?)
    ensures Protocol(Settle(s, t, outcome, reply))
  {
    hide InflightOwned, PendingOwned, WaitersHaveFutures, OwnersKeepTheirReply;
    var s' := Settle(s, t, outcome, reply);
    assert s.tasks[t].phase.f < |s.futures|;
    hide OwnersInflight;
    assert Settled(s, s', t, outcome, reply);
    SettledIsOwned(s, s', t, outcome, reply);
    SettledIsPending(s, s', t, outcome, reply);
  }

  lemma LeaveKeepsProtocol(s: State, t: nat)
    requires Protocol(s) && t in s.tasks && s.tasks[t].phase.Releasing?
    ensures Protocol(Leave(s, t))
  {
  }

  /** Moves that neither begin nor end ownership. */
  lemma MoveKeepsProtocol(s: State, t: nat, phase: Phase)
    requires Protocol(s) && t in s.tasks && !phase.Waiting?
    requires
      var was := s.tasks[t].phase;
      if Active(was) then Active(phase) && phase.f == was.f else !OwnerPhase(was) && !OwnerPhase(phase)
    ensures Protocol(Move(s, t, phase))
  {
  }

  lemma ArriveKeepsProtocol(s: State, t: nat, key: Scope, ttl: Option<real>)
    requires Protocol(s) && t !in s.tasks
    ensures Protocol(s.(tasks := s.tasks[t := Task(key, ttl, Probing)]))
  {
  }

  /** The protocol does not look at what is cached. */
  lemma CacheIsNotProtocol(s: State, entries: Entries, log: seq<Event>, clock: real)
    requires Protocol(s)
    ensures Protocol(s.(entries := entries, log := log, clock := clock))
  {
  }

  lemma ProtocolStep(p: Screen, s: State, a: Action)
    requires Protocol(s) && Enabled(p, s, a)
    ensures Protocol(Apply(p, s, a))
  {
    hide Protocol, Enter, Settle, Leave, Move, Admits, Lookup, Evict, Keep, SafeValue, ScopesOf;
    var s' := Apply(p, s, a);
    CacheIsNotProtocol(s, s'.entries, s'.log, s'.clock);
    match a
    case Arrive(t, key, ttl) => ArriveKeepsProtocol(s, t, key, ttl);
    case Probe(t) =>
      CacheIsNotProtocol(s, Expire(s, s.tasks[t].key).entries, s.log, s.clock);
      var found := Lookup(s.entries, s.tasks[t].key, s.clock);
      MoveKeepsProtocol(Expire(s, s.tasks[t].key), t, if found.Some? then Done(Hit(found.value)) else Joining);
    case Join(t) =>
      if s.tasks[t].key in s.inflight {
        WaitKeepsProtocol(s, t);
      } else {
        CreateKeepsProtocol(s, t);
      }
    case FinishLoad(t, load) =>
      match load {
        case Gives(value) => MoveKeepsProtocol(s, t, Storing(s.tasks[t].phase.f, value));
        case Raises => SettleKeepsProtocol(s, t, Failed, OwnError);
        case IsCancelled => SettleKeepsProtocol(s, t, Cancelled, Cancellation);
      }
    case Store(t) =>
      var task := s.tasks[t];
      var v := task.phase.value;
      if task.ttl.None? || task.ttl.value <= 0.0 {
        SettleKeepsProtocol(s, t, Failed, OwnError);
      } else if !Admits(p, v) {
        SettleKeepsProtocol(s, t, Bypass, Own(v));
      } else {
        var kept := Keeps(p, s, task.key, v, task.ttl.value);
        CacheIsNotProtocol(s, kept.entries, kept.log, kept.clock);
        MoveKeepsProtocol(kept, t, Rereading(task.phase.f, v));
      }
    case Reread(t) =>
      var k := s.tasks[t].key;
      CacheIsNotProtocol(s, Expire(s, k).entries, s.log, s.clock);
      SettleKeepsProtocol(Expire(s, k), t, Cached(Lookup(s.entries, k, s.clock)), Own(s.tasks[t].phase.value));
    case Release(t) => LeaveKeepsProtocol(s, t);
    case Wake(t) => MoveKeepsProtocol(s, t, Woken(s.futures[s.tasks[t].phase.f].outcome));
    case CancelTask(t) => MoveKeepsProtocol(s, t, Done(Cancellation));
    case FinishAlone(t, load) => MoveKeepsProtocol(s, t, Done(ReplyOf(load)));
    case PutDirectly(_, _, _) =>
    case Invalidate(_) =>
    case Tick(_) =>
  }

  lemma StoredForGrows(p: Screen, log: seq<Event>, e: Event)
    ensures forall k, v :: StoredFor(p, log, k, v) ==> StoredFor(p, log + [e], k, v)
    ensures e.Put? && Admits(p, e.value) ==> StoredFor(p, log + [e], e.key, SafeValue(p, e.value, 0))
  {
    hide Admits, SafeValue;
    forall k, v | StoredFor(p, log, k, v) ensures StoredFor(p, log + [e], k, v) {
      var i :| 0 <= i < |log| && log[i].Put? && log[i].key == k
               && Admits(p, log[i].value) && v == SafeValue(p, log[i].value, 0);
      assert (log + [e])[i] == log[i];
    }
    assert (log + [e])[|log|] == e;
  }

  ghost predicate LogGrows(p: Screen, s: State, s': State) {
    forall k, v :: StoredFor(p, s.log, k, v) ==> StoredFor(p, s'.log, k, v)
  }

  lemma LogOnlyGrows(p: Screen, s: State, a: Action)
    requires Enabled(p, s, a)
    ensures LogGrows(p, s, Apply(p, s, a))
  {
    hide StoredFor, Admits, SafeValue, Keep, Lookup, Evict, ScopesOf;
    var s' := Apply(p, s, a);
    if s'.log != s.log {
      StoredForGrows(p, s.log, s'.log[|s.log|]);
    }
  }

  lemma EntriesStep(p: Screen, s: State, a: Action)
    requires EntriesStored(p, s) && Enabled(p, s, a)
    ensures EntriesStored(p, Apply(p, s, a))
  {
    LogOnlyGrows(p, s, a);
    var s' := Apply(p, s, a);
    if s'.log != s.log {
      StoredForGrows(p, s.log, s'.log[|s.log|]);
    }
    hide StoredFor, Admits, SafeValue, Move, Enter, Settle, Leave, Woken, ReplyOf;
  }

  lemma FuturesStep(p: Screen, s: State, a: Action)
    requires Protocol(s) && EntriesStored(p, s) && FuturesStored(p, s) && Enabled(p, s, a)
    ensures FuturesStored(p, Apply(p, s, a))
  {
    LogOnlyGrows(p, s, a);
    hide StoredFor, Admits, SafeValue, Keep, Evict, ScopesOf;
    hide InflightOwned, PendingOwned, WaitersHaveFutures, OwnersKeepTheirReply;
  }

  lemma MoveKeepsAnswers(p: Screen, s: State, t: nat, phase: Phase)
    requires RepliesStored(p, s) && t in s.tasks
    requires Received(phase).Some? ==> StoredFor(p, s.log, s.tasks[t].key, Received(phase).value)
    ensures RepliesStored(p, Move(s, t, phase))
  {
    hide StoredFor;
  }

  lemma CacheChangeKeepsAnswers(p: Screen, s: State, s': State)
    requires RepliesStored(p, s) && LogGrows(p, s, s') && s'.tasks == s.tasks
    ensures RepliesStored(p, s')
  {
    hide StoredFor;
  }

  lemma AnswersStep(p: Screen, s: State, a: Action)
    requires Protocol(s) && EntriesStored(p, s) && FuturesStored(p, s) && RepliesStored(p, s) && Enabled(p, s, a)
    ensures RepliesStored(p, Apply(p, s, a))
  {
    hide StoredFor, Admits, SafeValue, Keep, Evict, ScopesOf, LogGrows, RepliesStored, Move, Resolve, Keeps, ReplyOf;
    var s' := Apply(p, s, a);
    LogOnlyGrows(p, s, a);
    match a
    case Arrive(t, key, ttl) => ArriveKeepsAnswers(p, s, t, key, ttl);
    case Probe(t) =>
      var s1, found := Expire(s, s.tasks[t].key), Lookup(s.entries, s.tasks[t].key, s.clock);
      ExpireKeepsAnswers(p, s, s.tasks[t].key);
      MoveKeepsAnswers(p, s1, t, if found.Some? then Done(Hit(found.value)) else Joining);
    case Join(t) => EnterKeepsAnswers(p, s, t);
    case FinishLoad(t, load) =>
      match load {
        case Gives(value) => MoveKeepsAnswers(p, s, t, Storing(s.tasks[t].phase.f, value));
        case Raises => SettleKeepsAnswers(p, s, t, Failed, OwnError);
        case IsCancelled => SettleKeepsAnswers(p, s, t, Cancelled, Cancellation);
      }
    case Store(t) => StoreKeepsAnswers(p, s, t);
    case Reread(t) =>
      var k := s.tasks[t].key;
      ExpireKeepsAnswers(p, s, k);
      SettleKeepsAnswers(p, Expire(s, k), t, Cached(Lookup(s.entries, k, s.clock)), Own(s.tasks[t].phase.value));
    case Release(t) => LeaveKeepsAnswers(p, s, t);
    case Wake(t) => MoveKeepsAnswers(p, s, t, Woken(s.futures[s.tasks[t].phase.f].outcome));
    case CancelTask(t) => MoveKeepsAnswers(p, s, t, Done(Cancellation));
    case FinishAlone(t, load) => AloneKeepsAnswers(p, s, t, load);
    case PutDirectly(_, _, _) => PutKeepsAnswers(p, s, a);
    case Invalidate(_) => CacheChangeKeepsAnswers(p, s, s');
    case Tick(_) => CacheChangeKeepsAnswers(p, s, s');
  }

  lemma ExpireKeepsAnswers(p: Screen, s: State, k: Scope)
    requires RepliesStored(p, s)
    ensures RepliesStored(p, Expire(s, k))
  {
    hide StoredFor;
  }

  lemma EnterKeepsAnswers(p: Screen, s: State, t: nat)
    requires RepliesStored(p, s) && t in s.tasks
    ensures RepliesStored(p, Enter(s, t))
  {
    hide StoredFor;
  }

  lemma SettleKeepsAnswers(p: Screen, s: State, t: nat, outcome: Outcome, reply: Reply)
    requires RepliesStored(p, s) && t in s.tasks && Active(s.tasks[t].phase)
    ensures RepliesStored(p, Settle(s, t, outcome, reply))
  {
    hide StoredFor;
  }

  lemma LeaveKeepsAnswers(p: Screen, s: State, t: nat)
    requires OwnersKeepTheirReply(s) && RepliesStored(p, s) && t in s.tasks && s.tasks[t].phase.Releasing?
    ensures RepliesStored(p, Leave(s, t))
  {
    hide StoredFor;
  }

  lemma AloneKeepsAnswers(p: Screen, s: State, t: nat, load: Load)
    requires RepliesStored(p, s) && t in s.tasks
    ensures RepliesStored(p, Move(s, t, Done(ReplyOf(load))))
  {
    hide StoredFor;
  }

  lemma StoreKeepsAnswers(p: Screen, s: State, t: nat)
    requires RepliesStored(p, s) && Enabled(p, s, Store(t)) && LogGrows(p, s, Apply(p, s, Store(t)))
    ensures RepliesStored(p, Apply(p, s, Store(t)))
  {
    hide StoredFor, Admits, SafeValue, Keep;
  }

  lemma PutKeepsAnswers(p: Screen, s: State, a: Action)
    requires RepliesStored(p, s) && Enabled(p, s, a) && a.PutDirectly? && LogGrows(p, s, Apply(p, s, a))
    ensures RepliesStored(p, Apply(p, s, a))
  {
    hide StoredFor, Admits, SafeValue, Keep;
  }

  lemma ArriveKeepsAnswers(p: Screen, s: State, t: nat, key: Scope, ttl: Option<real>)
    requires RepliesStored(p, s) && t !in s.tasks
    ensures RepliesStored(p, s.(tasks := s.tasks[t := Task(key, ttl, Probing)]))
  {
    hide StoredFor;
  }

  lemma AgreeStep(p: Screen, s: State, a: Action)
    requires Agree(p, s.entries, s.log, s.clock) && Enabled(p, s, a)
    ensures
      var s' := Apply(p, s, a);
      Agree(p, s'.entries, s'.log, s'.clock)
  {
    hide Agree, Admits, SafeValue, Keep, Lookup, Evict, ScopesOf, Move, Enter, Settle, Leave, Woken, ReplyOf;
    match a
    case Probe(t) => ExpiryAgrees(p, s.entries, s.log, s.tasks[t].key, s.clock, s.clock);
    case Reread(t) => ExpiryAgrees(p, s.entries, s.log, s.tasks[t].key, s.clock, s.clock);
    case Store(t) =>
      var task := s.tasks[t];
      if task.ttl.Some? {
        PutAgrees(p, s.entries, s.log, task.key, task.phase.value, s.clock, task.ttl.value, s.clock);
      }
    case PutDirectly(key, value, seconds) => PutAgrees(p, s.entries, s.log, key, value, s.clock, seconds, s.clock);
    case Invalidate(conn) => InvalidationAgrees(p, s.entries, s.log, conn, s.clock);
    case Tick(now) => AgreesLater(p, s.entries, s.log, s.clock, now);
    case _ =>
  }

  lemma AgreesLater(p: Screen, entries: Entries, log: seq<Event>, clock: real, now: real)
    requires Agree(p, entries, log, clock) && clock <= now
    ensures Agree(p, entries, log, now)
  {
  }

  lemma AgreesAtFirst(p: Screen)
    ensures Agree(p, INIT.entries, INIT.log, INIT.clock)
  {
  }

  ghost predicate Sound(p: Screen, s: State) {
    && Protocol(s) && EntriesStored(p, s) && FuturesStored(p, s) && RepliesStored(p, s)
    && Agree(p, s.entries, s.log, s.clock)
  }

  lemma {:induction false} AlwaysSound(p: Screen, states: seq<State>, i: nat)
    requires Execution(p, states) && i < |states|
    ensures Sound(p, states[i])
  {
    hide Agree, Apply, Enabled;
    AgreesAtFirst(p);
    if i > 0 {
      AlwaysSound(p, states, i - 1);
      var s := states[i - 1];
      assert Next(p, states[i - 1], states[i - 1 + 1]);
      var a :| Enabled(p, s, a) && states[i] == Apply(p, s, a);
      hide Protocol, EntriesStored, FuturesStored, RepliesStored;
      AgreeStep(p, s, a);
      ProtocolStep(p, s, a);
      EntriesStep(p, s, a);
      FuturesStep(p, s, a);
      AnswersStep(p, s, a);
    }
  }

  // ----- what callers may rely on -----

  /** An in-flight entry exists for a key exactly while one task owns its load, and only one does. */
  lemma OneOwnerPerKey(p: Screen, states: seq<State>, i: nat, k: Scope)
    requires Execution(p, states) && i < |states|
    ensures
      var s := states[i];
      && (k in s.inflight <==> exists t :: t in s.tasks && s.tasks[t].key == k && OwnerPhase(s.tasks[t].phase))
      && (forall t, u ::
            (t in s.tasks && s.tasks[t].key == k && OwnerPhase(s.tasks[t].phase)
             && u in s.tasks && s.tasks[u].key == k && OwnerPhase(s.tasks[u].phase)) ==> t == u)
  {
    AlwaysSound(p, states, i);
    var s := states[i];
    if k in s.inflight {
      var t := s.futures[s.inflight[k]].owner;
      assert t in s.tasks && s.tasks[t].key == k && OwnerPhase(s.tasks[t].phase);
    }
  }

  /** Once the owner's load is over, by a value, an error or a cancellation, every waiter can go on. */
  lemma WaitersAreReleased(p: Screen, states: seq<State>, i: nat, t: nat)
    requires Execution(p, states) && i < |states|
    requires t in states[i].tasks && states[i].tasks[t].phase.Waiting?
    ensures
      var s := states[i];
      var k := s.tasks[t].key;
      Enabled(p, s, Wake(t)) <==>
      !exists u :: u in s.tasks && s.tasks[u].key == k && Active(s.tasks[u].phase)
                   && s.tasks[u].phase.f == s.tasks[t].phase.f
  {
    AlwaysSound(p, states, i);
    var s := states[i];
    var f := s.tasks[t].phase.f;
    assert s.futures[f].key == s.tasks[t].key;
    if s.futures[f].outcome.Pending? {
      var u := s.futures[f].owner;
      assert Owns(s, u, f);
      assert s.tasks[u].key == s.tasks[t].key && Active(s.tasks[u].phase) && s.tasks[u].phase.f == f;
    }
  }

  /** What the creator of a future answers once its own load has ended like this. */
  function ReplyFor(load: Load, ttl: Option<real>): Reply {
    match load
    case Gives(value) => if ttl.None? || ttl.value <= 0.0 then OwnError else Own(value)
    case Raises => OwnError
    case IsCancelled => Cancellation
  }

  /** The task has got this far from this load, and has nothing from anywhere else. */
  predicate CameFrom(p: Screen, task: Task, f: nat, load: Load) {
    match task.phase
    case Storing(g, value) => g == f && load == Gives(value)
    case Rereading(g, value) =>
      g == f && load == Gives(value) && ReplyFor(load, task.ttl) == Own(value) && Admits(p, value)
    case Releasing(g, reply) => g == f && reply == ReplyFor(load, task.ttl)
    case Done(reply) => reply == ReplyFor(load, task.ttl)
    case _ => false
  }

  /** Before state `i`, the task ended its load for the future with `load`. */
  ghost predicate EndedLoad(p: Screen, states: seq<State>, i: nat, t: nat, f: nat, load: Load)
    requires i < |states|
  {
    exists j: nat {:trigger states[j]} ::
      j < i && EndsLoad(p, states[j], states[j + 1], t, f, load)
  }

  ghost predicate EndsLoad(p: Screen, s: State, s': State, t: nat, f: nat, load: Load) {
    && t in s.tasks && s.tasks[t].phase == Loading(f)
    && Enabled(p, s, FinishLoad(t, load)) && s' == Apply(p, s, FinishLoad(t, load))
  }

  /** The creator of a future still loads, or all it has comes from that load of its own. */
  ghost predicate HasOnlyItsOwn(p: Screen, states: seq<State>, i: nat, f: nat)
    requires i < |states| && f < |states[i].futures|
  {
    var t := states[i].futures[f].owner;
    && t in states[i].tasks
    && (states[i].tasks[t].phase == Loading(f)
        || exists load :: EndedLoad(p, states, i, t, f, load) && CameFrom(p, states[i].tasks[t], f, load))
  }

  lemma LoaderSteps(p: Screen, s: State, a: Action, t: nat, f: nat)
    requires Enabled(p, s, a) && t in s.tasks && s.tasks[t].phase == Loading(f)
    ensures
      var s' := Apply(p, s, a);
      && t in s'.tasks
      && (s'.tasks[t].phase == Loading(f)
          || (a.FinishLoad? && a.t == t && CameFrom(p, s'.tasks[t], f, a.load)))
  {
    hide Admits, Lookup, Evict, Keep, SafeValue, ScopesOf, Woken, Resolve, Keeps, Expire;
  }

  lemma CameFromSteps(p: Screen, s: State, a: Action, t: nat, f: nat, load: Load)
    requires Enabled(p, s, a) && t in s.tasks && CameFrom(p, s.tasks[t], f, load)
    ensures t in Apply(p, s, a).tasks && CameFrom(p, Apply(p, s, a).tasks[t], f, load)
  {
    hide Admits, Lookup, Evict, Keep, SafeValue, ScopesOf, Woken, Resolve, Keeps, Expire;
  }

  /** No step changes who created a future, and a new one is created by a task that loads for it. */
  lemma CreatorsStay(p: Screen, s: State, a: Action, f: nat)
    requires Enabled(p, s, a) && f < |Apply(p, s, a).futures|
    ensures
      var s' := Apply(p, s, a);
      if f < |s.futures| then s'.futures[f].owner == s.futures[f].owner
      else s'.futures[f].owner in s'.tasks && s'.tasks[s'.futures[f].owner].phase == Loading(f)
  {
    hide Admits, Lookup, Evict, Keep, SafeValue, ScopesOf, ReplyOf, Woken;
  }

  lemma EndedLoadStays(p: Screen, states: seq<State>, i: nat, t: nat, f: nat, load: Load)
    requires 0 < i < |states| && EndedLoad(p, states, i - 1, t, f, load)
    ensures EndedLoad(p, states, i, t, f, load)
  {
    hide EndsLoad;
    var j: nat :| j < i - 1 && EndsLoad(p, states[j], states[j + 1], t, f, load);
    assert j < i && EndsLoad(p, states[j], states[j + 1], t, f, load);
  }

  /** The caller whose load is shared has and answers nothing but what its own load for that future
      gave it: never another caller's value, and never the fixed load error. */
  lemma {:induction false} CreatorsEndWithTheirOwn(p: Screen, states: seq<State>, i: nat, f: nat)
    requires Execution(p, states) && i < |states| && f < |states[i].futures|
    ensures HasOnlyItsOwn(p, states, i, f)
  {
    hide Apply, Enabled, CameFrom, EndedLoad;
    if i > 0 {
      var s := states[i - 1];
      assert Next(p, s, states[i - 1 + 1]);
      var a :| Enabled(p, s, a) && states[i] == Apply(p, s, a);
      CreatorsStay(p, s, a, f);
      if f < |s.futures| {
        CreatorsEndWithTheirOwn(p, states, i - 1, f);
        var t := s.futures[f].owner;
        if s.tasks[t].phase == Loading(f) {
          LoaderSteps(p, s, a, t, f);
          if states[i].tasks[t].phase != Loading(f) {
            JustEnded(p, states, i, t, f, a.load);
          }
        } else {
          var load :| EndedLoad(p, states, i - 1, t, f, load) && CameFrom(p, s.tasks[t], f, load);
          CameFromSteps(p, s, a, t, f, load);
          EndedLoadStays(p, states, i, t, f, load);
        }
      }
    }
  }

  lemma JustEnded(p: Screen, states: seq<State>, i: nat, t: nat, f: nat, load: Load)
    requires 0 < i < |states| && EndsLoad(p, states[i - 1], states[i], t, f, load)
    ensures EndedLoad(p, states, i, t, f, load)
  {
    hide EndsLoad;
    var j: nat := i - 1;
    assert j < i && EndsLoad(p, states[j], states[j + 1], t, f, load);
  }

  lemma DoneFromItsLoad(p: Screen, task: Task, f: nat, load: Load)
    requires CameFrom(p, task, f, load) && task.phase.Done?
    ensures task.phase.reply == ReplyFor(load, task.ttl)
  {
  }

  /** So the answer of a creator is a function of how its own load ended and of its time to live. */
  lemma CreatorsAnswerTheirLoad(p: Screen, states: seq<State>, i: nat, f: nat)
    requires Execution(p, states) && i < |states| && f < |states[i].futures|
    requires
      var t := states[i].futures[f].owner;
      t in states[i].tasks && states[i].tasks[t].phase.Done?
    ensures
      var t := states[i].futures[f].owner;
      var reply, ttl := states[i].tasks[t].phase.reply, states[i].tasks[t].ttl;
      exists load :: EndedLoad(p, states, i, t, f, load)
        && match load
           case Raises => reply == OwnError
           case IsCancelled => reply == Cancellation
           case Gives(v) => reply == if ttl.None? || ttl.value <= 0.0 then OwnError else Own(v)
  {
    hide Execution, EndedLoad, CameFrom, Admits;
    CreatorsEndWithTheirOwn(p, states, i, f);
    var t := states[i].futures[f].owner;
    var load :| EndedLoad(p, states, i, t, f, load) && CameFrom(p, states[i].tasks[t], f, load);
    DoneFromItsLoad(p, states[i].tasks[t], f, load);
  }

  // ----- what each caller does next -----

  /** A caller's look into the cache is answered by the live value of its key, and else it goes on to the
      load; there it waits for the one in flight, or begins one that others will find; and a caller that
      is cancelled answers that. */
  lemma CallersStepExactly(p: Screen, s: State, t: nat)
    requires Agree(p, s.entries, s.log, s.clock) && t in s.tasks
    ensures
      var k := s.tasks[t].key;
      && (Enabled(p, s, Probe(t)) ==>
            var phase := Apply(p, s, Probe(t)).tasks[t].phase;
            match Live(p, s.log, k, s.clock)
            case Some(v) => phase == Done(Hit(v))
            case None => phase == Joining)
      && (Enabled(p, s, Join(t)) ==>
            var s' := Apply(p, s, Join(t));
            if k in s.inflight then s'.tasks[t].phase == Waiting(s.inflight[k]) && s'.futures == s.futures
            else
              && s'.tasks[t].phase == Loading(|s.futures|) && s'.inflight == s.inflight[k := |s.futures|]
              && s'.futures == s.futures + [Future(k, t, Pending)])
      && (Enabled(p, s, CancelTask(t)) ==> Apply(p, s, CancelTask(t)).tasks[t].phase == Done(Cancellation))
      && (Enabled(p, s, Release(t)) ==>
            Apply(p, s, Release(t)).tasks[t].phase == Done(s.tasks[t].phase.reply))
  {
    hide Live, Admits, SafeValue, Keep, ScopesOf, Lookup;
    AgreeNow(p, s, s.tasks[t].key);
  }

  /** A cancellation reaches a caller only before its load and while it waits; a load's value is put, when
      it is admitted, under the caller's key, at this moment and for its time to live. */
  lemma LoadsAreStoredExactly(p: Screen, s: State, t: nat)
    requires t in s.tasks
    ensures Enabled(p, s, CancelTask(t)) <==>
            s.tasks[t].phase.Probing? || s.tasks[t].phase.Joining? || s.tasks[t].phase.Waiting?
    ensures Enabled(p, s, Store(t)) <==> s.tasks[t].phase.Storing?
    ensures Enabled(p, s, Store(t)) ==>
            var task := s.tasks[t];
            var v := task.phase.value;
            Apply(p, s, Store(t)).log ==
            if task.ttl.Some? && task.ttl.value > 0.0 && Admits(p, v)
            then s.log + [Event.Put(task.key, v, s.clock, task.ttl.value)] else s.log
  {
    hide Admits, SafeValue, Keep;
  }

  // ----- what a waiter answers -----

  /** Before state `i`, the task read its key again after putting `v`, and found this. */
  ghost predicate FoundAgain(
    p: Screen, states: seq<State>, i: nat, t: nat, f: nat, v: Value, found: Option<Value>)
    requires i < |states|
  {
    exists j: nat {:trigger states[j]} ::
      j < i && ReadsAgain(p, states[j], states[j + 1], t, f, v) && found == FoundIn(p, states[j], t)
  }

  ghost predicate ReadsAgain(p: Screen, s: State, s': State, t: nat, f: nat, v: Value) {
    && t in s.tasks && s.tasks[t].phase == Rereading(f, v)
    && Enabled(p, s, Reread(t)) && s' == Apply(p, s, Reread(t))
  }

  /** What the history holds for a task's key at this moment. */
  ghost function FoundIn(p: Screen, s: State, t: nat): Option<Value> {
    if t in s.tasks then Live(p, s.log, s.tasks[t].key, s.clock) else None
  }

  /** A load that ended like this, with this time to live, resolves its future like that. */
  ghost predicate ResolvesTo(
    p: Screen, states: seq<State>, i: nat, t: nat, f: nat, load: Load, ttl: Option<real>, outcome: Outcome)
    requires i < |states|
  {
    match load
    case Raises => outcome == Failed
    case IsCancelled => outcome == Cancelled
    case Gives(v) =>
      if ttl.None? || ttl.value <= 0.0 then outcome == Failed
      else if !Admits(p, v) then outcome == Bypass
      else outcome.Cached? && FoundAgain(p, states, i, t, f, v, outcome.value)
  }

  /** A resolved future was resolved by how its creator's load for it ended. */
  ghost predicate ResolvedByItsLoad(p: Screen, states: seq<State>, i: nat, f: nat)
    requires i < |states| && f < |states[i].futures|
  {
    var t, outcome := states[i].futures[f].owner, states[i].futures[f].outcome;
    && t in states[i].tasks
    && (outcome.Pending? || exists load ::
          EndedLoad(p, states, i, t, f, load)
          && ResolvesTo(p, states, i, t, f, load, states[i].tasks[t].ttl, outcome))
  }

  lemma TasksStay(p: Screen, s: State, a: Action, t: nat)
    requires Enabled(p, s, a) && t in s.tasks
    ensures t in Apply(p, s, a).tasks && Apply(p, s, a).tasks[t].ttl == s.tasks[t].ttl
    ensures Apply(p, s, a).tasks[t].key == s.tasks[t].key
  {
    hide Admits, Lookup, Evict, Keep, SafeValue, ScopesOf, ReplyOf, Woken, Resolve, Keeps, Expire;
  }

  /** How a step can resolve a future: only its creator does, in one of these ways. */
  lemma ResolvingStep(p: Screen, s: State, a: Action, f: nat)
    requires Protocol(s) && Enabled(p, s, a) && f < |s.futures| && s.futures[f].outcome.Pending?
    requires f < |Apply(p, s, a).futures| && !Apply(p, s, a).futures[f].outcome.Pending?
    ensures
      var t, outcome := s.futures[f].owner, Apply(p, s, a).futures[f].outcome;
      && t in s.tasks
      && match s.tasks[t].phase
         case Loading(g) =>
           && g == f && a.FinishLoad? && a.t == t
           && ((a.load == Raises && outcome == Failed) || (a.load == IsCancelled && outcome == Cancelled))
         case Storing(g, v) =>
           && g == f && a == Store(t)
           && if s.tasks[t].ttl.None? || s.tasks[t].ttl.value <= 0.0 then outcome == Failed
              else !Admits(p, v) && outcome == Bypass
         case Rereading(g, v) =>
           g == f && a == Reread(t) && outcome == Cached(Lookup(s.entries, s.tasks[t].key, s.clock))
         case _ => false
  {
    hide Admits, Lookup, Evict, Keep, SafeValue, ScopesOf, ReplyOf, Woken, Keeps, Expire;
    hide InflightOwned, WaitersHaveFutures, OwnersKeepTheirReply;
  }

  lemma NewFuturesPend(p: Screen, s: State, a: Action, f: nat)
    requires Enabled(p, s, a) && |s.futures| <= f < |Apply(p, s, a).futures|
    ensures Apply(p, s, a).futures[f].outcome.Pending?
  {
    hide Admits, Lookup, Evict, Keep, SafeValue, ScopesOf, ReplyOf, Woken, Keeps, Expire;
  }

  lemma FoundAgainStays(
    p: Screen, states: seq<State>, i: nat, t: nat, f: nat, v: Value, found: Option<Value>)
    requires 0 < i < |states| && FoundAgain(p, states, i - 1, t, f, v, found)
    ensures FoundAgain(p, states, i, t, f, v, found)
  {
    hide ReadsAgain, FoundIn;
    var j: nat :| j < i - 1 && ReadsAgain(p, states[j], states[j + 1], t, f, v) && found == FoundIn(p, states[j], t);
    assert j < i && ReadsAgain(p, states[j], states[j + 1], t, f, v) && found == FoundIn(p, states[j], t);
  }

  lemma ResolvesToStays(
    p: Screen, states: seq<State>, i: nat, t: nat, f: nat, load: Load, ttl: Option<real>, outcome: Outcome)
    requires 0 < i < |states| && ResolvesTo(p, states, i - 1, t, f, load, ttl, outcome)
    ensures ResolvesTo(p, states, i, t, f, load, ttl, outcome)
  {
    hide FoundAgain, Admits;
    if load.Gives? && outcome.Cached? && FoundAgain(p, states, i - 1, t, f, load.value, outcome.value) {
      FoundAgainStays(p, states, i, t, f, load.value, outcome.value);
    }
  }

  lemma JustFound(p: Screen, states: seq<State>, i: nat, t: nat, f: nat, v: Value)
    requires 0 < i < |states| && ReadsAgain(p, states[i - 1], states[i], t, f, v)
    ensures FoundAgain(p, states, i, t, f, v, FoundIn(p, states[i - 1], t))
  {
    hide ReadsAgain, FoundIn;
    var j: nat := i - 1;
    assert j < i && ReadsAgain(p, states[j], states[j + 1], t, f, v);
  }

  /** The step that resolves a future records how its creator's load ended. */
  lemma JustResolved(p: Screen, states: seq<State>, i: nat, a: Action, f: nat)
    requires Execution(p, states) && 0 < i < |states| && f < |states[i - 1].futures|
    requires Enabled(p, states[i - 1], a) && states[i] == Apply(p, states[i - 1], a)
    requires states[i - 1].futures[f].outcome.Pending?
    requires f < |states[i].futures| && !states[i].futures[f].outcome.Pending?
    ensures ResolvedByItsLoad(p, states, i, f)
  {
    hide Execution, Enabled, Apply, EndedLoad, FoundAgain, Live, Admits, Lookup, Protocol, Agree;
    var s, t := states[i - 1], states[i - 1].futures[f].owner;
    var outcome := states[i].futures[f].outcome;
    AlwaysSound(p, states, i - 1);
    ResolvingStep(p, s, a, f);
    CreatorsStay(p, s, a, f);
    TasksStay(p, s, a, t);
    CreatorsEndWithTheirOwn(p, states, i - 1, f);
    if s.tasks[t].phase == Loading(f) {
      JustEnded(p, states, i, t, f, a.load);
      assert ResolvesTo(p, states, i, t, f, a.load, states[i].tasks[t].ttl, outcome);
    } else {
      var load :| EndedLoad(p, states, i - 1, t, f, load) && CameFrom(p, s.tasks[t], f, load);
      EndedLoadStays(p, states, i, t, f, load);
      if s.tasks[t].phase.Rereading? {
        JustFound(p, states, i, t, f, load.value);
        assert FoundIn(p, s, t) == Lookup(s.entries, s.tasks[t].key, s.clock) by { AgreeNow(p, s, s.tasks[t].key); }
      }
      assert ResolvesTo(p, states, i, t, f, load, states[i].tasks[t].ttl, outcome);
    }
  }

  lemma AgreeNow(p: Screen, s: State, k: Scope)
    requires Agree(p, s.entries, s.log, s.clock)
    ensures Lookup(s.entries, k, s.clock) == Live(p, s.log, k, s.clock)
  {
    hide Lookup, Live;
  }

  lemma {:induction false} FuturesFollowTheirLoad(p: Screen, states: seq<State>, i: nat, f: nat)
    requires Execution(p, states) && i < |states| && f < |states[i].futures|
    ensures ResolvedByItsLoad(p, states, i, f)
  {
    hide Apply, Enabled, EndedLoad, ResolvesTo, CameFrom, Protocol;
    CreatorsEndWithTheirOwn(p, states, i, f);
    if i > 0 && !states[i].futures[f].outcome.Pending? {
      var s := states[i - 1];
      assert Next(p, s, states[i - 1 + 1]);
      var a :| Enabled(p, s, a) && states[i] == Apply(p, s, a);
      if f >= |s.futures| {
        NewFuturesPend(p, s, a, f);
      } else if s.futures[f].outcome.Pending? {
        JustResolved(p, states, i, a, f);
      } else {
        FuturesFollowTheirLoad(p, states, i - 1, f);
        AlwaysSound(p, states, i - 1);
        OutcomesAreFinal(p, s, a, f);
        CreatorsStay(p, s, a, f);
        var t := s.futures[f].owner;
        TasksStay(p, s, a, t);
        var load :| EndedLoad(p, states, i - 1, t, f, load)
                    && ResolvesTo(p, states, i - 1, t, f, load, s.tasks[t].ttl, s.futures[f].outcome);
        EndedLoadStays(p, states, i, t, f, load);
        ResolvesToStays(p, states, i, t, f, load, s.tasks[t].ttl, s.futures[f].outcome);
      }
    }
  }

  /** What a waiter becomes is fixed by how the load it waited for ended, and by that load's time to
      live: an error or an unusable time to live gives the fixed load error, a cancellation gives a
      cancellation, a refused value makes the waiter load alone, and an admitted one gives it what its
      creator found when it read the key again. */
  lemma WaitersFollowTheLoad(p: Screen, states: seq<State>, i: nat, t: nat)
    requires Execution(p, states) && i < |states| - 1
    requires t in states[i].tasks && states[i].tasks[t].phase.Waiting?
    requires Enabled(p, states[i], Wake(t)) && states[i + 1] == Apply(p, states[i], Wake(t))
    ensures
      var f, phase := states[i].tasks[t].phase.f, states[i + 1].tasks[t].phase;
      f < |states[i].futures|
      && var creator := states[i].futures[f].owner;
      creator in states[i].tasks
      && var ttl := states[i].tasks[creator].ttl;
      exists load :: EndedLoad(p, states, i, creator, f, load)
        && match load
           case Raises => phase == Done(LoadError)
           case IsCancelled => phase == Done(Cancellation)
           case Gives(v) =>
             if ttl.None? || ttl.value <= 0.0 then phase == Done(LoadError)
             else if !Admits(p, v) then phase == LoadingAlone
             else phase.Done? && phase.reply.Shared? && FoundAgain(p, states, i, creator, f, v, phase.reply.shared)
  {
    hide Execution, EndedLoad, FoundAgain, Admits;
    var f := states[i].tasks[t].phase.f;
    FuturesFollowTheirLoad(p, states, i, f);
    var creator, outcome := states[i].futures[f].owner, states[i].futures[f].outcome;
    var load :| EndedLoad(p, states, i, creator, f, load)
                && ResolvesTo(p, states, i, creator, f, load, states[i].tasks[creator].ttl, outcome);
  }

  /** And what the creator found is the stored copy of its own value, as long as its put was still the
      latest of its key, unexpired and not invalidated. */
  lemma FoundIsTheStoredCopy(p: Screen, s: State, t: nat, n: int)
    requires t in s.tasks && IsLatestPut(s.log, s.tasks[t].key, n) && s.clock < s.log[n].at + s.log[n].ttl
    ensures FoundIn(p, s, t) == Some(SafeValue(p, s.log[n].value, 0))
  {
    hide Live, SafeValue;
    HitIsTheLatestLivePut(p, s.log, s.tasks[t].key, s.clock, SafeValue(p, s.log[n].value, 0));
  }

  /** A task that loads alone answers with that load of its own and with nothing else. */
  lemma LoneTasksAnswerTheirLoad(p: Screen, s: State, a: Action, t: nat)
    requires Enabled(p, s, a) && t in s.tasks && s.tasks[t].phase.LoadingAlone?
    ensures
      var s' := Apply(p, s, a);
      && t in s'.tasks
      && (s'.tasks[t] == s.tasks[t]
          || (a.FinishAlone? && a.t == t
              && s'.tasks[t].phase == Done(match a.load
                                           case Gives(v) => Own(v)
                                           case Raises => OwnError
                                           case IsCancelled => Cancellation)))
  {
    hide Admits, Lookup, Evict, Keep, SafeValue, ScopesOf, Woken, Resolve, Keeps, Expire;
  }

  /** No step takes an outcome back: whoever can go on stays able to. */
  lemma OutcomesAreFinal(p: Screen, s: State, a: Action, f: nat)
    requires Protocol(s) && Enabled(p, s, a) && f < |s.futures| && !s.futures[f].outcome.Pending?
    ensures var s' := Apply(p, s, a); f < |s'.futures| && s'.futures[f] == s.futures[f]
  {
    hide Admits, Lookup, Evict, Keep, SafeValue, ScopesOf, ReplyOf;
    hide InflightOwned, PendingOwned, WaitersHaveFutures, OwnersKeepTheirReply;
  }

  /** Whatever a hit or a shared load hands out is the stored copy of an admitted value that was put
      under the caller's own key; nothing the cache refused is ever shared. */
  lemma SharedValuesWereAdmitted(p: Screen, states: seq<State>, i: nat, t: nat)
    requires Execution(p, states) && i < |states|
    requires t in states[i].tasks && Received(states[i].tasks[t].phase).Some?
    ensures
      var s, v := states[i], Received(states[i].tasks[t].phase).value;
      exists n :: 0 <= n < |s.log| && s.log[n].Put? && s.log[n].key == s.tasks[t].key
                  && Admits(p, s.log[n].value) && v == SafeValue(p, s.log[n].value, 0) && KeepsAll(s.log[n].value, v)
  {
    AlwaysSound(p, states, i);
    var s, v := states[i], Received(states[i].tasks[t].phase).value;
    var n :| 0 <= n < |s.log| && s.log[n].Put? && s.log[n].key == s.tasks[t].key
             && Admits(p, s.log[n].value) && v == SafeValue(p, s.log[n].value, 0);
    AdmittedValueIsKept(p, s.log[n].value, 0);
  }

  lemma Extend(p: Screen, states: seq<State>, a: Action, next: State) returns (more: seq<State>)
    requires Execution(p, states) && Enabled(p, states[|states| - 1], a) && next == Apply(p, states[|states| - 1], a)
    ensures Execution(p, more) && |more| == |states| + 1 && more[|states|] == next
    ensures forall i :: 0 <= i < |states| ==> more[i] == states[i]
  {
    more := states + [next];
    assert Next(p, states[|states| - 1], next);
    hide Enabled, Apply, Next;
    forall i | 0 <= i < |more| - 1 ensures Next(p, more[i], more[i + 1]) {
      if i < |states| - 1 {
        assert Next(p, states[i], states[i + 1]);
      }
    }
  }

  // ----- hits are live when they are made -----

  predicate LiveIn(p: Screen, s: State, k: Scope, v: Value) { Live(p, s.log, k, s.clock) == Some(v) }

  /** Between these states the task's look into the cache was answered. */
  predicate AnswersProbe(s: State, s': State, t: nat) {
    t in s.tasks && s.tasks[t].phase.Probing? && t in s'.tasks && s'.tasks[t].phase.Done?
  }

  lemma HitStep(p: Screen, s: State, a: Action, t: nat)
    requires Enabled(p, s, a) && Agree(p, s.entries, s.log, s.clock) && OwnersKeepTheirReply(s)
    requires var s' := Apply(p, s, a); t in s'.tasks && s'.tasks[t].phase.Done? && s'.tasks[t].phase.reply.Hit?
    ensures
      var task := Apply(p, s, a).tasks[t];
      || (t in s.tasks && s.tasks[t] == task)
      || (AnswersProbe(s, Apply(p, s, a), t) && LiveIn(p, s, task.key, task.phase.reply.value))
  {
    hide Live, Admits, SafeValue, Keep, Evict, ScopesOf, Resolve, Keeps, Expire;
  }

  /** A task answered by a hit got, in the very step that answered its look into the cache, the value
      of the latest put of its key, younger than its time to live and not invalidated since. */
  lemma {:induction false} HitWasLive(p: Screen, states: seq<State>, i: nat, t: nat)
    requires Execution(p, states) && i < |states| && t in states[i].tasks
    requires states[i].tasks[t].phase.Done? && states[i].tasks[t].phase.reply.Hit?
    ensures
      var task := states[i].tasks[t];
      exists j, n :: 0 <= j < i
        && AnswersProbe(states[j], states[j + 1], t) && states[j + 1].tasks[t] == task
        && IsLatestPut(states[j].log, task.key, n)
        && states[j].clock < states[j].log[n].at + states[j].log[n].ttl
        && task.phase.reply.value == SafeValue(p, states[j].log[n].value, 0)
  {
    hide Apply, Enabled, Live, SafeValue, Agree, Protocol;
    if i > 0 {
      AlwaysSound(p, states, i - 1);
      var s, task := states[i - 1], states[i].tasks[t];
      assert Next(p, states[i - 1], states[i - 1 + 1]);
      var a :| Enabled(p, s, a) && states[i] == Apply(p, s, a);
      assert OwnersKeepTheirReply(s) by { ProtocolHasReplies(s); }
      HitStep(p, s, a, t);
      if t in s.tasks && s.tasks[t] == task {
        HitWasLive(p, states, i - 1, t);
      } else {
        HitIsTheLatestLivePut(p, s.log, task.key, s.clock, task.phase.reply.value);
        var n :| IsLatestPut(s.log, task.key, n) && s.clock < s.log[n].at + s.log[n].ttl
                 && task.phase.reply.value == SafeValue(p, s.log[n].value, 0);
        assert AnswersProbe(states[i - 1], states[i - 1 + 1], t) && states[i - 1 + 1].tasks[t] == task;
        assert 0 <= i - 1 < i && IsLatestPut(states[i - 1].log, task.key, n);
      }
    }
  }

  lemma ProtocolHasReplies(s: State)
    requires Protocol(s)
    ensures OwnersKeepTheirReply(s)
  {
  }

  // ----- when an invalidation is final -----

  /** The load of this task can still put a value for the connection. */
  predicate MayStillStore(p: Screen, task: Task, conn: string) {
    && task.key.conn == conn && task.ttl.Some? && task.ttl.value > 0.0
    && (task.phase.Loading? || (task.phase.Storing? && Admits(p, task.phase.value)))
  }

  predicate LoadInFlight(p: Screen, s: State, conn: string) {
    exists t :: t in s.tasks && MayStillStore(p, s.tasks[t], conn)
  }

  /** This step puts, for the connection, a load whose future is older than the first `n`th. */
  ghost predicate StoresOld(p: Screen, s: State, s': State, conn: string, n: nat) {
    exists t :: Enabled(p, s, Store(t)) && s' == Apply(p, s, Store(t)) && s'.log != s.log
                && s.tasks[t].key.conn == conn && s.tasks[t].phase.f < n
  }

  /** `more` goes on from `states` with an invalidation of the connection. */
  ghost predicate GoesOn(p: Screen, states: seq<State>, conn: string, more: seq<State>) {
    && states != [] && Execution(p, more) && |more| > |states| && more[..|states|] == states
    && more[|states|] == Apply(p, states[|states| - 1], Action.Invalidate(conn))
  }

  /** After the invalidation no load begun before it is ever stored. */
  ghost predicate IsFinal(p: Screen, states: seq<State>, conn: string)
    requires states != []
  {
    forall more, j: nat {:trigger GoesOn(p, states, conn, more), more[j]} ::
      GoesOn(p, states, conn, more) && |states| <= j < |more| - 1 ==>
        !StoresOld(p, more[j], more[j + 1], conn, |states[|states| - 1].futures|)
  }

  ghost predicate OnlyNewLoads(p: Screen, s: State, conn: string, n: nat) {
    && |s.futures| >= n
    && forall t :: t in s.tasks && MayStillStore(p, s.tasks[t], conn) ==> s.tasks[t].phase.f >= n
  }

  lemma LoadKeepsItsFuture(p: Screen, s: State, a: Action, conn: string, t: nat)
    requires Enabled(p, s, a) && t in Apply(p, s, a).tasks && MayStillStore(p, Apply(p, s, a).tasks[t], conn)
    ensures
      var f := Apply(p, s, a).tasks[t].phase.f;
      f == |s.futures| || (t in s.tasks && MayStillStore(p, s.tasks[t], conn) && s.tasks[t].phase.f == f)
  {
    hide Admits, Lookup, Evict, Keep, SafeValue, ScopesOf, ReplyOf, Resolve, Keeps, Expire;
  }

  lemma FuturesOnlyGrow(p: Screen, s: State, a: Action)
    requires Enabled(p, s, a)
    ensures |Apply(p, s, a).futures| >= |s.futures|
  {
    hide Admits, Lookup, Evict, Keep, SafeValue, ScopesOf, ReplyOf, Woken;
  }

  lemma OnlyNewLoadsStep(p: Screen, s: State, a: Action, conn: string, n: nat)
    requires OnlyNewLoads(p, s, conn, n) && Enabled(p, s, a)
    ensures OnlyNewLoads(p, Apply(p, s, a), conn, n)
  {
    hide Apply, Enabled, Admits;
    FuturesOnlyGrow(p, s, a);
    var s' := Apply(p, s, a);
    forall t | t in s'.tasks && MayStillStore(p, s'.tasks[t], conn) ensures s'.tasks[t].phase.f >= n {
      LoadKeepsItsFuture(p, s, a, conn, t);
    }
  }

  lemma {:induction false} OnlyNewLoadsFrom(p: Screen, states: seq<State>, conn: string, more: seq<State>, j: nat)
    requires GoesOn(p, states, conn, more) && |states| <= j < |more|
    requires !LoadInFlight(p, states[|states| - 1], conn)
    ensures OnlyNewLoads(p, more[j], conn, |states[|states| - 1].futures|)
  {
    hide Enabled, Next, MayStillStore, Admits;
    var last := states[|states| - 1];
    if j == |states| {
      assert more[j].tasks == last.tasks && more[j].futures == last.futures;
    } else {
      hide Apply, OnlyNewLoads, LoadInFlight;
      OnlyNewLoadsFrom(p, states, conn, more, j - 1);
      OnlyNewLoadsNext(p, more[j - 1], more[j - 1 + 1], conn, |last.futures|);
    }
  }

  lemma OnlyNewLoadsNext(p: Screen, s: State, s': State, conn: string, n: nat)
    requires OnlyNewLoads(p, s, conn, n) && Next(p, s, s')
    ensures OnlyNewLoads(p, s', conn, n)
  {
    hide OnlyNewLoads, Apply, Enabled;
    var a :| Enabled(p, s, a) && s' == Apply(p, s, a);
    OnlyNewLoadsStep(p, s, a, conn, n);
  }

  lemma StoresOldHadMayStillStore(p: Screen, s: State, s': State, conn: string, n: nat)
    requires OnlyNewLoads(p, s, conn, n)
    ensures !StoresOld(p, s, s', conn, n)
  {
    hide Admits, SafeValue, Keep;
  }

  lemma ExtendKeeps(states: seq<State>, more: seq<State>, next: seq<State>)
    requires |states| <= |more| <= |next| && more[..|states|] == states
    requires forall i :: 0 <= i < |more| ==> next[i] == more[i]
    ensures next[..|states|] == states
  {
  }

  /** The invalidation and then, for a task still loading, its load of `v`. */
  lemma InvalidateUnderALoad(p: Screen, states: seq<State>, t: nat, v: Value) returns (more: seq<State>)
    requires Execution(p, states) && t in states[|states| - 1].tasks
    requires
      var ph := states[|states| - 1].tasks[t].phase;
      ph.Loading? || (ph.Storing? && ph.value == v)
    ensures GoesOn(p, states, states[|states| - 1].tasks[t].key.conn, more)
    ensures
      var s, s' := states[|states| - 1], more[|more| - 1];
      && s'.tasks == s.tasks[t := s.tasks[t].(phase := Storing(s.tasks[t].phase.f, v))]
      && s'.clock == s.clock && s'.futures == s.futures
  {
    hide Execution, Admits, SafeValue, ScopesOf;
    ExecutionsBegin(p, states);
    var s := states[|states| - 1];
    var conn := s.tasks[t].key.conn;
    var invalid := Apply(p, s, Action.Invalidate(conn));
    more := Extend(p, states, Action.Invalidate(conn), invalid);
    assert more[..|states|] == states;
    if s.tasks[t].phase.Loading? {
      var before := more;
      more := Extend(p, more, FinishLoad(t, Gives(v)), Apply(p, invalid, FinishLoad(t, Gives(v))));
      ExtendKeeps(states, before, more);
    }
  }

  lemma ExecutionsBegin(p: Screen, states: seq<State>)
    requires Execution(p, states)
    ensures states != []
  {
  }

  /** A load in flight at the invalidation of its connection can still be stored: the entry outlives the
      invalidation, and the next caller is served from it. */
  lemma LoadInFlightOutlivesInvalidation(p: Screen, states: seq<State>, t: nat, v: Value, u: nat)
    returns (more: seq<State>)
    requires Execution(p, states) && t in states[|states| - 1].tasks && u !in states[|states| - 1].tasks
    requires MayStillStore(p, states[|states| - 1].tasks[t], states[|states| - 1].tasks[t].key.conn) && Admits(p, v)
    requires var ph := states[|states| - 1].tasks[t].phase; ph.Storing? ==> ph.value == v
    ensures GoesOn(p, states, states[|states| - 1].tasks[t].key.conn, more)
    ensures StoresOld(p, more[|more| - 4], more[|more| - 3], states[|states| - 1].tasks[t].key.conn,
                      |states[|states| - 1].futures|)
    ensures |more| - 4 >= |states|
    ensures
      var end := more[|more| - 1];
      u in end.tasks && end.tasks[u] == Task(states[|states| - 1].tasks[t].key, None, Done(Hit(SafeValue(p, v, 0))))
  {
    hide Admits, SafeValue, Execution, GoesOn, Lookup;
    ExecutionsBegin(p, states);
    AlwaysSound(p, states, |states| - 1);
    var s := states[|states| - 1];
    var key, ttl := s.tasks[t].key, s.tasks[t].ttl.value;
    assert s.tasks[t].phase.f < |s.futures| by { OwnersHaveFutures(s, t); }
    hide Sound, InflightOwned, OwnersInflight, PendingOwned, WaitersHaveFutures, OwnersKeepTheirReply;
    more := InvalidateUnderALoad(p, states, t, v);
    ExecutionGoesOn(p, states, key.conn, more);
    var s1, n1 := more[|more| - 1], |more|;
    var s2 := Apply(p, s1, Store(t));
    OldLoadIsStored(p, s1, t, v, |s.futures|);
    assert u !in s1.tasks;
    hide StoresOld;
    var stored := Extend(p, more, Store(t), s2);
    hide Apply;
    var served := CallerIsServed(p, stored, u, key);
    GoesOnFurther(p, states, key.conn, more, served);
    more := served;
    assert more[n1 - 1] == s1 && more[n1] == s2 && |more| == n1 + 3;
  }

  lemma OldLoadIsStored(p: Screen, s: State, t: nat, v: Value, n: nat)
    requires t in s.tasks && s.tasks[t].phase.Storing? && s.tasks[t].phase.value == v && s.tasks[t].phase.f < n
    requires s.tasks[t].ttl.Some? && s.tasks[t].ttl.value > 0.0 && Admits(p, v)
    ensures
      var key, s' := s.tasks[t].key, Apply(p, s, Store(t));
      && StoresOld(p, s, s', key.conn, n) && s'.tasks.Keys == s.tasks.Keys
      && key in s'.entries && s'.clock < s'.entries[key].expiresAt && s'.entries[key].value == SafeValue(p, v, 0)
  {
    hide Admits, SafeValue;
    var s' := Apply(p, s, Store(t));
    assert |s'.log| == |s.log| + 1;
  }

  lemma ExecutionGoesOn(p: Screen, states: seq<State>, conn: string, more: seq<State>)
    requires GoesOn(p, states, conn, more)
    ensures Execution(p, more) && |more| > |states|
  {
  }

  lemma GoesOnFurther(p: Screen, states: seq<State>, conn: string, more: seq<State>, next: seq<State>)
    requires GoesOn(p, states, conn, more) && Execution(p, next) && |more| <= |next|
    requires forall i :: 0 <= i < |more| ==> next[i] == more[i]
    ensures GoesOn(p, states, conn, next)
  {
    hide Execution, Apply;
  }

  /** A caller that arrives while an entry is unexpired is served from it. */
  lemma CallerIsServed(p: Screen, states: seq<State>, u: nat, key: Scope) returns (more: seq<State>)
    requires Execution(p, states) && states != []
    requires
      var s := states[|states| - 1];
      u !in s.tasks && key in s.entries && s.clock < s.entries[key].expiresAt
    ensures Execution(p, more) && |more| == |states| + 2 && forall i :: 0 <= i < |states| ==> more[i] == states[i]
    ensures
      var end := more[|more| - 1];
      u in end.tasks && end.tasks[u] == Task(key, None, Done(Hit(states[|states| - 1].entries[key].value)))
  {
    hide Execution, Admits, SafeValue;
    more := Extend(p, states, Arrive(u, key, None), Apply(p, states[|states| - 1], Arrive(u, key, None)));
    more := Extend(p, more, Probe(u), Apply(p, more[|more| - 1], Probe(u)));
  }

  lemma OwnersHaveFutures(s: State, t: nat)
    requires Protocol(s) && t in s.tasks && OwnerPhase(s.tasks[t].phase)
    ensures s.tasks[t].phase.f < |s.futures|
  {
  }

  lemma EmptyListIsAdmitted(p: Screen)
    ensures Admits(p, List([]))
  {
  }

  /** An invalidation is final exactly when no load of its connection is in flight that may still be
      stored, which a caller can see before it invalidates. */
  lemma InvalidationIsFinalExactly(p: Screen, states: seq<State>, conn: string)
    requires Execution(p, states)
    ensures IsFinal(p, states, conn) <==> !LoadInFlight(p, states[|states| - 1], conn)
  {
    hide Execution, StoresOld, OnlyNewLoads, Admits, GoesOn, Apply, Enabled;
    ExecutionsBegin(p, states);
    var s := states[|states| - 1];
    if LoadInFlight(p, s, conn) {
      var t :| t in s.tasks && MayStillStore(p, s.tasks[t], conn);
      EmptyListIsAdmitted(p);
      var v := if s.tasks[t].phase.Storing? then s.tasks[t].phase.value else List([]);
      var u := FreshTask(s);
      var more := LoadInFlightOutlivesInvalidation(p, states, t, v, u);
      var j := |more| - 4;
      assert StoresOld(p, more[j], more[j + 1], conn, |s.futures|);
    } else {
      forall more, j: nat | GoesOn(p, states, conn, more) && |states| <= j < |more| - 1
        ensures !StoresOld(p, more[j], more[j + 1], conn, |s.futures|)
      {
        OnlyNewLoadsFrom(p, states, conn, more, j);
        StoresOldHadMayStillStore(p, more[j], more[j + 1], conn, |s.futures|);
      }
    }
  }

  lemma FreshTask(s: State) returns (u: nat)
    ensures u !in s.tasks
  {
    u := 0;
    var below: set<nat> := {};
    while u in s.tasks
      invariant below <= s.tasks.Keys && forall x: nat :: x in below <==> x < u
      decreases s.tasks.Keys - below
    {
      below, u := below + {u}, u + 1;
    }
  }
}
