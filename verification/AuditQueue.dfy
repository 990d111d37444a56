/** The bounded audit queue: submitters, one worker and shutdown as interleaved atomic steps. */
module AuditQueue {

  type Event = nat

  datatype Exit = AfterInsert | ViaTimeout | Died

  /** Where the worker thread is. `Settling` has inserted its event and not yet counted it off;
      `Leaving` is in its last `finally`, where the thread still counts as alive. */
  datatype Worker =
    | NoWorker | Polling | TimedOut | InHand(event: Event) | Settling(fatal: bool) | Settled | StopSeen
    | Leaving(how: Exit) | Exited(how: Exit)

  /** The submit that holds the state lock, if any. */
  datatype Submit = Idle | Reserved(event: Event) | Refused

  /** The writer's fields; and, for stating properties only, what was tried, accepted, handed to the
      insert, and reported as dropped. */
  datatype State = State(
    maxQueue: nat,
    accepting: bool,
    stop: bool,
    submit: Submit,
    worker: Worker,
    queue: seq<Event>,
    pending: int,
    dropped: nat,
    unreported: nat,
    flushed: bool,
    attempts: nat,
    accepted: seq<Event>,
    delivered: seq<Event>,
    reported: nat)

  function Initial(maxQueue: nat): State {
    State(maxQueue, true, false, Idle, NoWorker, [], 0, 0, 0, false, 0, [], [], 0)
  }

  datatype Action =
    | SubmitClosed | SubmitNoThread | SubmitBegin(event: Event) | SubmitPut | SubmitDrop
    | Start | Take | Timeout | AfterTimeout | Insert(fatal: bool) | Settle | CheckStop | CheckEmpty | Leave
    | BeginShutdown | FlushSeesZero | Warn

  predicate Alive(w: Worker) { !w.NoWorker? && !w.Exited? }

  predicate Enabled(s: State, a: Action) {
    match a
    case SubmitClosed => s.submit.Idle? && !s.accepting
    case SubmitNoThread => s.submit.Idle? && s.accepting && !Alive(s.worker)
    case SubmitBegin(_) => s.submit.Idle? && s.accepting
    case SubmitPut => s.submit.Reserved?
    case SubmitDrop => s.submit.Refused?
    case Start => s.submit.Idle? && s.accepting
    case Take => s.worker.Polling? && s.queue != []
    case Timeout => s.worker.Polling? && s.queue == []
    case AfterTimeout => s.worker.TimedOut?
    case Insert(_) => s.worker.InHand?
    case Settle => s.worker.Settling?
    case CheckStop => s.worker.Settled?
    case CheckEmpty => s.worker.StopSeen?
    case Leave => s.worker.Leaving?
    case BeginShutdown => s.submit.Idle?
    case FlushSeesZero => s.stop && s.pending == 0
    case Warn => true
  }

  function Spawned(w: Worker): Worker { if Alive(w) then w else Polling }

  function Drop(s: State): State { s.(dropped := s.dropped + 1, unreported := s.unreported + 1) }

  function Apply(s: State, a: Action): State
    requires Enabled(s, a)
  {
    match a
    case SubmitClosed => Drop(s.(attempts := s.attempts + 1))
    case SubmitNoThread => Drop(s.(attempts := s.attempts + 1))
    case SubmitBegin(event) =>
      s.(attempts := s.attempts + 1, worker := Spawned(s.worker), pending := s.pending + 1, submit := Reserved(event))
    case SubmitPut =>
      if |s.queue| < s.maxQueue
      then s.(queue := s.queue + [s.submit.event], accepted := s.accepted + [s.submit.event], submit := Idle)
      else s.(submit := Refused)
    case SubmitDrop => Drop(s.(pending := s.pending - 1, submit := Idle))
    case Start => s.(worker := Spawned(s.worker))
    case Take => s.(worker := InHand(s.queue[0]), queue := s.queue[1..])
    case Timeout => s.(worker := TimedOut)
    case AfterTimeout => s.(worker := if s.stop then Leaving(ViaTimeout) else Polling)
    case Insert(fatal) => s.(worker := Settling(fatal), delivered := s.delivered + [s.worker.event])
    case Settle => s.(worker := if s.worker.fatal then Leaving(Died) else Settled, pending := s.pending - 1)
    case CheckStop => s.(worker := if s.stop then StopSeen else Polling)
    case CheckEmpty => s.(worker := if s.queue == [] then Leaving(AfterInsert) else Polling)
    case Leave => s.(worker := Exited(s.worker.how))
    case BeginShutdown => s.(accepting := false, stop := true)
    case FlushSeesZero => s.(flushed := true)
    case Warn => s.(reported := s.reported + s.unreported, unreported := 0)
  }

  ghost predicate Next(s: State, s': State) {
    exists a :: Enabled(s, a) && s' == Apply(s, a)
  }

  ghost predicate Execution(states: seq<State>, maxQueue: nat) {
    && states != [] && states[0] == Initial(maxQueue)
    && forall i :: 0 <= i < |states| - 1 ==> Next(states[i], states[i + 1])
  }

  function Hand(w: Worker): seq<Event> { if w.InHand? then [w.event] else [] }

  function Busy(w: Worker): nat { if w.InHand? || w.Settling? then 1 else 0 }

  function Waiting(s: Submit): nat { if s.Idle? then 0 else 1 }

  /** Accepted events are, in order, those handed to the insert, the one in hand and those queued. */
  predicate Conserved(s: State) {
    s.accepted == s.delivered + Hand(s.worker) + s.queue && |s.queue| <= s.maxQueue
  }

  predicate PendingMatches(s: State) {
    s.pending == |s.queue| + Busy(s.worker) + Waiting(s.submit)
  }

  predicate DropsMatch(s: State) {
    && s.attempts == |s.accepted| + s.dropped + Waiting(s.submit)
    && s.dropped == s.reported + s.unreported
  }

  predicate Left(w: Worker, how: Exit) { w == Leaving(how) || w == Exited(how) }

  /** Shutdown closes the door for good; a worker that left after an insert left nothing behind. */
  predicate Stopped(s: State) {
    && (s.stop <==> !s.accepting)
    && (s.stop ==> s.submit.Idle?)
    && (s.worker.StopSeen? ==> s.stop)
    && (Left(s.worker, AfterInsert) ==> s.stop && s.queue == [])
    && (Left(s.worker, ViaTimeout) ==> s.stop)
    && (s.flushed ==> s.stop && s.pending == 0)
  }

  predicate Sound(s: State) {
    Conserved(s) && PendingMatches(s) && DropsMatch(s) && Stopped(s)
  }

  lemma ConservedStep(s: State, a: Action)
    requires Conserved(s) && Enabled(s, a)
    ensures Conserved(Apply(s, a))
  {
    if a.Take? {
      assert s.delivered + [] + s.queue == s.delivered + [s.queue[0]] + s.queue[1..];
    }
  }

  lemma PendingStep(s: State, a: Action)
    requires PendingMatches(s) && Enabled(s, a)
    ensures PendingMatches(Apply(s, a))
  {
  }

  lemma DropsStep(s: State, a: Action)
    requires DropsMatch(s) && Enabled(s, a)
    ensures DropsMatch(Apply(s, a))
  {
  }

  lemma StoppedStep(s: State, a: Action)
    requires PendingMatches(s) && Stopped(s) && Enabled(s, a)
    ensures Stopped(Apply(s, a))
  {
  }

  lemma SoundStep(s: State, a: Action)
    requires Sound(s) && Enabled(s, a)
    ensures Sound(Apply(s, a))
  {
    hide Conserved, PendingMatches, DropsMatch, Stopped, Enabled, Apply;
    ConservedStep(s, a);
    PendingStep(s, a);
    DropsStep(s, a);
    StoppedStep(s, a);
  }

  /** At every step of every execution the queue conserves its events and its counts match. */
  lemma {:induction false} AlwaysSound(states: seq<State>, maxQueue: nat, i: nat)
    requires Execution(states, maxQueue) && i < |states|
    ensures Sound(states[i])
  {
    if i > 0 {
      AlwaysSound(states, maxQueue, i - 1);
      assert Next(states[i - 1], states[i - 1 + 1]);
      var a :| Enabled(states[i - 1], a) && states[i] == Apply(states[i - 1], a);
      SoundStep(states[i - 1], a);
    }
  }

  /** What `shutdown` needs to return true: a flush that saw no pending event, and a worker gone. */
  predicate ShutdownTrue(s: State) { s.stop && s.flushed && !Alive(s.worker) }

  /** A true shutdown means that every accepted event was handed to the insert once, in order. */
  lemma TrueShutdownDeliveredAll(states: seq<State>, maxQueue: nat, i: nat)
    requires Execution(states, maxQueue) && i < |states| && ShutdownTrue(states[i])
    ensures states[i].delivered == states[i].accepted && states[i].queue == []
  {
    AlwaysSound(states, maxQueue, i);
    var s := states[i];
    assert s.accepted == s.delivered + [] + [];
  }

  /** Once the worker is gone after a stop, nothing moves any more: shutdown can still succeed exactly
      when nothing is left queued, and an event left queued stays queued for ever. */
  lemma StrandedForEver(s: State)
    requires Sound(s) && s.stop && !Alive(s.worker)
    ensures s.pending == 0 <==> s.delivered == s.accepted
    ensures Enabled(s, FlushSeesZero) <==> s.queue == []
    ensures s.queue == [] ==> ShutdownTrue(Apply(s, FlushSeesZero))
    ensures s.queue != [] ==> !ShutdownTrue(s)
    ensures forall a :: Enabled(s, a) ==>
      var s' := Apply(s, a);
      s'.stop && s'.worker == s.worker && s'.queue == s.queue && s'.pending == s.pending
      && s'.accepted == s.accepted && s'.delivered == s.delivered
  {
    assert s.accepted == s.delivered + [] + s.queue;
  }

  /** A worker that stops after an insert never leaves an event behind. */
  lemma LeavingAfterAnInsertIsClean(states: seq<State>, maxQueue: nat, i: nat)
    requires Execution(states, maxQueue) && i < |states| && states[i].worker == Exited(AfterInsert)
    ensures states[i].delivered == states[i].accepted && states[i].pending == 0
  {
    AlwaysSound(states, maxQueue, i);
    StrandedForEver(states[i]);
  }

  lemma Extend(states: seq<State>, maxQueue: nat, a: Action) returns (more: seq<State>)
    requires Execution(states, maxQueue) && Enabled(states[|states| - 1], a)
    ensures Execution(more, maxQueue) && |more| == |states| + 1
    ensures more[|states|] == Apply(states[|states| - 1], a)
  {
    var last := states[|states| - 1];
    more := states + [Apply(last, a)];
    assert Next(last, Apply(last, a));
    hide Enabled, Apply, Next;
    forall i | 0 <= i < |more| - 1 ensures Next(more[i], more[i + 1]) {
      if i < |states| - 1 {
        assert Next(states[i], states[i + 1]);
      }
    }
  }

  /** A worker that leaves after a poll that timed out can leave an event behind: the event is
      accepted, and the shutdown requested, between the timeout and the worker's look at the flag. */
  lemma TimeoutExitCanStrand(maxQueue: nat, e: Event) returns (states: seq<State>)
    requires maxQueue > 0
    ensures Execution(states, maxQueue)
    ensures
      var s := states[|states| - 1];
      s.stop && s.worker == Exited(ViaTimeout) && s.accepted == [e] && s.delivered == [] && s.queue == [e]
  {
    states := [Initial(maxQueue)];
    hide Execution;
    assert Execution(states, maxQueue) by { StartsAnExecution(maxQueue); }
    states := Extend(states, maxQueue, Start);
    states := Extend(states, maxQueue, Timeout);
    states := Extend(states, maxQueue, SubmitBegin(e));
    states := Extend(states, maxQueue, SubmitPut);
    states := Extend(states, maxQueue, BeginShutdown);
    states := Extend(states, maxQueue, AfterTimeout);
    states := Extend(states, maxQueue, Leave);
  }

  /** An event submitted while a worker is dying is accepted without starting another: it stays queued
      with no worker, though no shutdown was requested, until a later submit starts one. */
  lemma DyingWorkerCanStrand(maxQueue: nat, d: Event, e: Event) returns (states: seq<State>)
    requires maxQueue > 0
    ensures Execution(states, maxQueue)
    ensures
      var s := states[|states| - 1];
      !s.stop && s.worker == Exited(Died) && s.accepted == [d, e] && s.delivered == [d] && s.queue == [e]
  {
    states := [Initial(maxQueue)];
    hide Execution;
    assert Execution(states, maxQueue) by { StartsAnExecution(maxQueue); }
    states := Extend(states, maxQueue, SubmitBegin(d));
    states := Extend(states, maxQueue, SubmitPut);
    states := Extend(states, maxQueue, Take);
    states := Extend(states, maxQueue, Insert(true));
    states := Extend(states, maxQueue, Settle);
    states := Extend(states, maxQueue, SubmitBegin(e));
    states := Extend(states, maxQueue, SubmitPut);
    states := Extend(states, maxQueue, Leave);
  }

  lemma StartsAnExecution(maxQueue: nat)
    ensures Execution([Initial(maxQueue)], maxQueue)
  {
  }

  // ----- what a shutdown leaves behind -----

  /** A step that is no fatal insert, unless those are allowed. */
  ghost predicate StepsTo(s: State, s': State, fatal: bool) {
    exists a :: Enabled(s, a) && s' == Apply(s, a) && (a == Insert(true) ==> fatal)
  }

  /** `run` are the states after a shutdown is requested in `s`. */
  ghost predicate ShutsDown(s: State, run: seq<State>, fatal: bool) {
    && run != [] && Enabled(s, BeginShutdown) && run[0] == Apply(s, BeginShutdown)
    && forall i :: 0 <= i < |run| - 1 ==> StepsTo(run[i], run[i + 1], fatal)
  }

  predicate Stranded(s: State) { !Alive(s.worker) && s.queue != [] }

  /** However it goes on, a shutdown requested now never finds the worker gone and an event queued. */
  ghost predicate StrandsNothing(s: State, fatal: bool) {
    forall run, j: nat {:trigger ShutsDown(s, run, fatal), run[j]} ::
      ShutsDown(s, run, fatal) && j < |run| ==> !Stranded(run[j])
  }

  /** Something is queued, and the worker is past its last look at the queue; where inserts may be
      fatal, it is enough that an insert comes before the last queued event. */
  predicate LeavesBehind(s: State, fatal: bool) {
    && s.queue != []
    && (s.worker.TimedOut? || s.worker == Settling(true) || s.worker.Leaving? || !Alive(s.worker)
        || (fatal && (|s.queue| > 1 || s.worker.InHand?)))
  }

  predicate Closed(s: State) { s.stop && !s.accepting && s.submit.Idle? }

  lemma ClosedStep(s: State, a: Action, fatal: bool)
    requires Closed(s) && !LeavesBehind(s, fatal) && Enabled(s, a) && (a == Insert(true) ==> fatal)
    ensures Closed(Apply(s, a)) && !LeavesBehind(Apply(s, a), fatal)
  {
  }

  lemma {:induction false} ClosedStaysClean(s: State, run: seq<State>, fatal: bool, j: nat)
    requires ShutsDown(s, run, fatal) && j < |run| && s.submit.Idle? && !LeavesBehind(s, fatal)
    ensures Closed(run[j]) && !LeavesBehind(run[j], fatal)
    decreases j
  {
    hide Enabled, Apply, LeavesBehind, Closed;
    if j == 0 {
      RequestKeepsQueued(s, fatal);
    } else {
      ClosedStaysClean(s, run, fatal, j - 1);
      assert StepsTo(run[j - 1], run[j - 1 + 1], fatal);
      var a :| Enabled(run[j - 1], a) && run[j] == Apply(run[j - 1], a) && (a == Insert(true) ==> fatal);
      ClosedStep(run[j - 1], a, fatal);
    }
  }

  /** The worker's next step on its way out. */
  function WayOut(w: Worker): Action
    requires Alive(w)
  {
    match w
    case Settling(_) => Settle
    case Settled => CheckStop
    case StopSeen => CheckEmpty
    case Polling => Take
    case InHand(_) => Insert(true)
    case TimedOut => AfterTimeout
    case Leaving(_) => Leave
  }

  function StepsLeft(w: Worker): nat {
    match w
    case Settling(fatal) => if fatal then 2 else 7
    case Settled => 6
    case StopSeen => 5
    case Polling => 4
    case InHand(_) => 3
    case TimedOut => 2
    case Leaving(_) => 1
    case _ => 0
  }

  lemma WayOutStep(s: State, fatal: bool)
    requires Closed(s) && LeavesBehind(s, fatal) && Alive(s.worker)
    ensures Enabled(s, WayOut(s.worker)) && (WayOut(s.worker) == Insert(true) ==> fatal)
    ensures
      var s' := Apply(s, WayOut(s.worker));
      Closed(s') && LeavesBehind(s', fatal) && StepsLeft(s'.worker) < StepsLeft(s.worker)
  {
  }

  /** Goes on until the worker is gone. */
  lemma {:induction false} GoesOut(s: State, begun: seq<State>, fatal: bool) returns (run: seq<State>)
    requires ShutsDown(s, begun, fatal) && begun != []
    requires Closed(begun[|begun| - 1]) && LeavesBehind(begun[|begun| - 1], fatal)
    ensures ShutsDown(s, run, fatal) && run != [] && Stranded(run[|run| - 1])
    decreases StepsLeft(begun[|begun| - 1].worker)
  {
    hide ShutsDown, Enabled, Apply, Closed, WayOut, StepsLeft;
    var last := begun[|begun| - 1];
    if Alive(last.worker) {
      WayOutStep(last, fatal);
      hide LeavesBehind;
      var next := Apply(last, WayOut(last.worker));
      assert StepsTo(last, next, fatal);
      ShutsDownFurther(s, begun, next, fatal);
      run := GoesOut(s, begun + [next], fatal);
    } else {
      run := begun;
    }
  }

  lemma ShutsDownFurther(s: State, run: seq<State>, next: State, fatal: bool)
    requires ShutsDown(s, run, fatal) && StepsTo(run[|run| - 1], next, fatal)
    ensures ShutsDown(s, run + [next], fatal)
  {
    hide StepsTo, Enabled, Apply;
    var longer := run + [next];
    forall i | 0 <= i < |longer| - 1 ensures StepsTo(longer[i], longer[i + 1], fatal) {
      if i < |run| - 1 {
        assert StepsTo(run[i], run[i + 1], fatal);
      }
    }
  }

  lemma RequestKeepsQueued(s: State, fatal: bool)
    requires s.submit.Idle?
    ensures Enabled(s, BeginShutdown) && Closed(Apply(s, BeginShutdown))
    ensures LeavesBehind(Apply(s, BeginShutdown), fatal) <==> LeavesBehind(s, fatal)
  {
  }

  lemma StrandedIsLeft(s: State, fatal: bool)
    ensures Stranded(s) ==> LeavesBehind(s, fatal)
  {
  }

  /** A shutdown strands nothing, however it goes on, exactly when nothing is queued at the request or
      the worker has still to look at the queue; and, where inserts may be fatal, when no insert comes
      before the last queued event. */
  lemma ShutdownStrandsNothingExactly(s: State, fatal: bool)
    requires s.submit.Idle?
    ensures StrandsNothing(s, fatal) <==> !LeavesBehind(s, fatal)
  {
    hide Enabled, Apply, LeavesBehind, Closed, StepsTo, Stranded;
    if LeavesBehind(s, fatal) {
      RequestKeepsQueued(s, fatal);
      var run := GoesOut(s, [Apply(s, BeginShutdown)], fatal);
      var j: nat := |run| - 1;
      assert Stranded(run[j]);
    } else {
      forall run, j: nat | ShutsDown(s, run, fatal) && j < |run| ensures !Stranded(run[j]) {
        ClosedStaysClean(s, run, fatal, j);
        StrandedIsLeft(run[j], fatal);
      }
    }
  }

  // ----- what a submit does, and how the queue drains -----

  /** While the writer accepts, an event is taken exactly when there is room, by a worker that is alive;
      otherwise it is counted as dropped and nothing else changes. Only a worker that is not there can
      fail to start. */
  lemma EventsAreTakenWhileThereIsRoom(s: State, e: Event)
    requires s.submit.Idle? && s.accepting
    ensures Enabled(s, SubmitBegin(e)) && Alive(Apply(s, SubmitBegin(e)).worker)
    ensures Enabled(Apply(s, SubmitBegin(e)), SubmitPut)
    ensures !Enabled(s, SubmitClosed) && (Enabled(s, SubmitNoThread) <==> !Alive(s.worker))
    ensures
      var begun := Apply(s, SubmitBegin(e));
      var put := Apply(begun, SubmitPut);
      if |s.queue| < s.maxQueue then
        put == begun.(queue := s.queue + [e], accepted := s.accepted + [e], submit := Idle)
        && put.pending == s.pending + 1 && put.attempts == s.attempts + 1 && put.dropped == s.dropped
      else
        && Enabled(put, SubmitDrop)
        && var end := Apply(put, SubmitDrop);
        && end.queue == s.queue && end.accepted == s.accepted && end.pending == s.pending && end.submit == Idle
        && end.dropped == s.dropped + 1 && end.unreported == s.unreported + 1 && end.attempts == s.attempts + 1
  {
  }

  /** Once the writer is closed a submit only counts as dropped. */
  lemma ClosedWritersTakeNothing(s: State)
    requires s.submit.Idle? && !s.accepting
    ensures forall a :: Enabled(s, a) ==>
              !a.SubmitBegin? && !a.SubmitPut? && !a.SubmitDrop? && !a.SubmitNoThread? && !a.Start?
    ensures Enabled(s, SubmitClosed)
    ensures Apply(s, SubmitClosed)
            == s.(attempts := s.attempts + 1, dropped := s.dropped + 1, unreported := s.unreported + 1)
  {
  }

  /** A warning reports every drop there has been. */
  lemma WarningsCatchUp(s: State)
    requires DropsMatch(s)
    ensures Enabled(s, Warn) && Apply(s, Warn) == s.(reported := s.dropped, unreported := 0)
  {
  }

  /** What the worker does next on its own, where no insert is fatal. */
  function OwnStep(s: State): Action
    requires Alive(s.worker)
  {
    match s.worker
    case Polling => if s.queue == [] then Timeout else Take
    case InHand(_) => Insert(false)
    case Settling(_) => Settle
    case Settled => CheckStop
    case StopSeen => CheckEmpty
    case TimedOut => AfterTimeout
    case Leaving(_) => Leave
  }

  predicate OwnStepIsEnabled(s: State)
    requires Alive(s.worker)
  {
    Enabled(s, OwnStep(s))
  }

  function WorkLeft(s: State): nat {
    8 * |s.queue| +
    match s.worker
    case InHand(_) => 7
    case Settling(_) => 6
    case Settled => 5
    case StopSeen => 4
    case Polling => 3
    case TimedOut => 2
    case Leaving(_) => 1
    case _ => 0
  }

  /** How the worker will leave: after an insert, if one is still to be looked back on. */
  function LeavesHow(s: State): Exit {
    match s.worker
    case Leaving(how) => how
    case Exited(how) => how
    case Settling(fatal) => if fatal then Died else AfterInsert
    case InHand(_) => AfterInsert
    case Settled => AfterInsert
    case StopSeen => AfterInsert
    case _ => if s.queue != [] then AfterInsert else ViaTimeout
  }

  lemma OwnStepWorks(s: State)
    requires Sound(s) && Closed(s) && Alive(s.worker) && !LeavesBehind(s, false)
    ensures OwnStepIsEnabled(s)
    ensures
      var s' := Apply(s, OwnStep(s));
      && Closed(s') && !LeavesBehind(s', false) && WorkLeft(s') < WorkLeft(s)
      && LeavesHow(s') == LeavesHow(s) && s'.accepted == s.accepted && !s'.worker.NoWorker?
  {
  }

  /** After a shutdown request that strands nothing, and while no insert is fatal, the worker alone takes
      every accepted event to the insert and leaves: at once after its last insert, or, if it had none to
      do, after a poll that timed out. */
  lemma {:induction false} WorkersDrain(s: State) returns (run: seq<State>)
    requires Sound(s) && Closed(s) && !s.worker.NoWorker? && !LeavesBehind(s, false)
    ensures run != [] && run[0] == s && forall i :: 0 <= i < |run| - 1 ==> StepsTo(run[i], run[i + 1], false)
    ensures
      var end := run[|run| - 1];
      && end.worker == Exited(LeavesHow(s)) && end.queue == [] && end.delivered == end.accepted == s.accepted
    decreases WorkLeft(s)
  {
    hide Enabled, Apply, Conserved, PendingMatches, DropsMatch, Stopped;
    if Alive(s.worker) {
      OwnStepWorks(s);
      var s' := Apply(s, OwnStep(s));
      SoundStep(s, OwnStep(s));
      var rest := WorkersDrain(s');
      assert StepsTo(s, s', false);
      run := [s] + rest;
      hide LeavesBehind, Closed, StepsTo, LeavesHow, WorkLeft, OwnStep;
      forall i | 0 <= i < |run| - 1 ensures StepsTo(run[i], run[i + 1], false) {
        if i > 0 {
          assert StepsTo(rest[i - 1], rest[i - 1 + 1], false);
        }
      }
    } else {
      run := [s];
      GoneIsDelivered(s);
    }
  }

  lemma GoneIsDelivered(s: State)
    requires Conserved(s) && !Alive(s.worker) && s.queue == []
    ensures s.delivered == s.accepted
  {
    assert s.accepted == s.delivered + [] + [];
  }
}
