/**
 * Start and Stop as a state machine: the caller, the configuration watcher, the event watcher and the query handler,
 * joined by two ready channels, a done channel and a wait group. Runs begin where Start has launched the goroutines.
 * The wait on the group is the runtime's: it returns at once at zero, else the caller parks, is released when the
 * counter reaches zero, and panics if it finds the counter raised again when it resumes.
 */
module Lifecycle {

  /** The caller: inside Start, returned from it, through the steps of Stop, or brought down with the program. */
  datatype Caller =
    | AwaitsProcessor | AwaitsWatcher | StartReturned
    | BindClosed | Published | AwaitsGroup | Parked | Released | Stopped
    | Panicked

  /** `Leaving` is past the loop, with the deferred wg.Done still to run. */
  datatype ConfigWatcher = ConfigSpawned | ConfigAdded | ConfigLooping | ConfigLeaving | ConfigFinished

  /** `EventFailed` is an error return before the deferred wg.Done is set up. */
  datatype EventWatcher =
    EventSpawned | EventAdded | EventFailed | ClientRunning | EventWaiting | ClientStopped | EventFinished

  datatype QueryHandler = QuerySpawned | QueryRunning | QueryFinished

  /** The signal in the channel the event watcher reports on. */
  datatype Signal = Silent | ReadyNil | ReadyError

  datatype State = State(
    caller: Caller,
    config: ConfigWatcher,
    event: EventWatcher,
    query: QueryHandler,
    group: int,
    processorReady: bool,
    watcherReady: Signal,
    startedNil: bool)

  const LAUNCHED := State(AwaitsProcessor, ConfigSpawned, EventSpawned, QuerySpawned, 0, false, Silent, false)

  datatype Action =
    | TakeProcessorReady | TakeWatcherReady | CloseBind | PublishDeallocation | CloseDone
    | GroupWaitReturns | GroupWaitParks | ReleaseWaiter | WaiterReturns | WaiterPanics
    | ConfigAdds | ConfigSignals | ConfigSeesDone | ConfigLosesWatch | ConfigDone
    | EventAdds | EventFails | EventStartsClient | EventSignals | EventStopsClient | EventDone
    | QueryAdds | QueryExits

  /** The done channel is closed. */
  predicate Done(s: State) {
    s.caller.AwaitsGroup? || s.caller.Parked? || s.caller.Released? || s.caller.Stopped? || s.caller.Panicked?
  }

  predicate BindIsClosed(s: State) {
    s.caller.BindClosed? || s.caller.Published? || Done(s)
  }

  /** Sends on the two ready channels never block: each has room for the one signal it ever carries. */
  predicate Enabled(s: State, a: Action) {
    && !s.caller.Panicked?
    && match a
       case TakeProcessorReady => s.caller.AwaitsProcessor? && s.processorReady
       case TakeWatcherReady => s.caller.AwaitsWatcher? && !s.watcherReady.Silent?
       case CloseBind => s.caller.StartReturned?
       case PublishDeallocation => s.caller.BindClosed?
       case CloseDone => s.caller.Published?
       case GroupWaitReturns => s.caller.AwaitsGroup? && s.group == 0
       case GroupWaitParks => s.caller.AwaitsGroup? && s.group > 0
       case ReleaseWaiter => s.caller.Parked? && s.group == 0
       case WaiterReturns => s.caller.Released? && s.group == 0
       case WaiterPanics => s.caller.Released? && s.group != 0
       case ConfigAdds => s.config.ConfigSpawned?
       case ConfigSignals => s.config.ConfigAdded?
       case ConfigSeesDone => s.config.ConfigLooping? && Done(s)
       case ConfigLosesWatch => s.config.ConfigLooping?
       case ConfigDone => s.config.ConfigLeaving?
       case EventAdds => s.event.EventSpawned?
       case EventFails => s.event.EventAdded?
       case EventStartsClient => s.event.EventAdded?
       case EventSignals => s.event.ClientRunning?
       case EventStopsClient => s.event.EventWaiting? && Done(s)
       case EventDone => s.event.ClientStopped?
       case QueryAdds => s.query.QuerySpawned?
       case QueryExits => s.query.QueryRunning? && BindIsClosed(s)
  }

  /** Raising the counter from zero while a waiter is parked is a panic of its own. */
  function Step(s: State, a: Action): State {
    match a
    case TakeProcessorReady => s.(caller := AwaitsWatcher, processorReady := false)
    case TakeWatcherReady => s.(caller := StartReturned, startedNil := s.watcherReady.ReadyNil?, watcherReady := Silent)
    case CloseBind => s.(caller := BindClosed)
    case PublishDeallocation => s.(caller := Published)
    case CloseDone => s.(caller := AwaitsGroup)
    case GroupWaitReturns => s.(caller := Stopped)
    case GroupWaitParks => s.(caller := Parked)
    case ReleaseWaiter => s.(caller := Released)
    case WaiterReturns => s.(caller := Stopped)
    case WaiterPanics => s.(caller := Panicked)
    case ConfigAdds => s.(config := ConfigAdded, group := s.group + 1)
    case ConfigSignals => s.(config := ConfigLooping, processorReady := true)
    case ConfigSeesDone => s.(config := ConfigLeaving)
    case ConfigLosesWatch => s.(config := ConfigLeaving)
    case ConfigDone => s.(config := ConfigFinished, group := s.group - 1)
    case EventAdds => s.(event := EventAdded, group := s.group + 1)
    case EventFails => s.(event := EventFailed, watcherReady := ReadyError)
    case EventStartsClient => s.(event := ClientRunning)
    case EventSignals => s.(event := EventWaiting, watcherReady := ReadyNil)
    case EventStopsClient => s.(event := ClientStopped)
    case EventDone => s.(event := EventFinished, group := s.group - 1)
    case QueryAdds =>
      s.(query := QueryRunning, group := s.group + 1,
         caller := if s.caller.Parked? && s.group == 0 then Panicked else s.caller)
    case QueryExits => s.(query := QueryFinished, group := s.group - 1)
  }

  predicate IsRun(run: seq<Action>) {
    run != [] ==> IsRun(run[..|run| - 1]) && Enabled(After(run[..|run| - 1]), run[|run| - 1])
  }

  function After(run: seq<Action>): State {
    if run == [] then LAUNCHED else Step(After(run[..|run| - 1]), run[|run| - 1])
  }

  // ---------------------------------------------------------------- the invariant

  function One(b: bool): int {
    if b then 1 else 0
  }

  predicate ConfigRegistered(s: State) {
    s.config.ConfigAdded? || s.config.ConfigLooping? || s.config.ConfigLeaving?
  }

  predicate EventRegistered(s: State) {
    !s.event.EventSpawned? && !s.event.EventFinished?
  }

  /** The event watcher has reported success. */
  predicate EventReported(s: State) {
    s.event.EventWaiting? || s.event.ClientStopped? || s.event.EventFinished?
  }

  predicate ConfigReported(s: State) {
    s.config.ConfigLooping? || s.config.ConfigLeaving? || s.config.ConfigFinished?
  }

  predicate InStart(s: State) {
    s.caller.AwaitsProcessor? || s.caller.AwaitsWatcher?
  }

  /** The wait group counts the goroutines that have registered and not left it. */
  predicate GroupCounts(s: State) {
    s.group == One(ConfigRegistered(s)) + One(EventRegistered(s)) + One(s.query.QueryRunning?)
  }

  /** A signal comes from a goroutine that has registered, and stays until Start takes it. */
  predicate SignalsAgree(s: State) {
    && (s.processorReady ==> ConfigReported(s))
    && (s.watcherReady.ReadyNil? ==> EventReported(s))
    && (s.watcherReady.ReadyError? ==> s.event.EventFailed?)
    && (s.caller.AwaitsProcessor? && ConfigReported(s) ==> s.processorReady)
    && (InStart(s) && EventReported(s) ==> s.watcherReady.ReadyNil?)
    && (InStart(s) && s.event.EventFailed? ==> s.watcherReady.ReadyError?)
  }

  /** What Start has seen. */
  predicate StartSaw(s: State) {
    && (!s.caller.AwaitsProcessor? ==> ConfigReported(s))
    && (!InStart(s) ==> if s.startedNil then EventReported(s) else s.event.EventFailed?)
  }

  /** Nobody leaves because of Stop before Stop has closed the channel. */
  predicate LeavesAfterStop(s: State) {
    && (s.event.ClientStopped? || s.event.EventFinished? ==> Done(s))
    && (s.query.QueryFinished? ==> BindIsClosed(s))
  }

  /** The wait is over only after the group was empty; since then only the query handler can have registered. */
  predicate WatchersGone(s: State) {
    && (s.caller.Released? || s.caller.Stopped? || s.caller.Panicked? ==> !ConfigRegistered(s) && !EventRegistered(s))
    && (s.caller.Panicked? ==> !s.query.QuerySpawned?)
  }

  predicate Inv(s: State) {
    GroupCounts(s) && SignalsAgree(s) && StartSaw(s) && LeavesAfterStop(s) && WatchersGone(s)
  }

  predicate OfConfig(a: Action) {
    a.ConfigAdds? || a.ConfigSignals? || a.ConfigSeesDone? || a.ConfigLosesWatch? || a.ConfigDone?
  }

  predicate OfEvent(a: Action) {
    a.EventAdds? || a.EventFails? || a.EventStartsClient? || a.EventSignals? || a.EventStopsClient? || a.EventDone?
  }

  predicate OfQuery(a: Action) {
    a.QueryAdds? || a.QueryExits?
  }

  lemma InvStepConfig(s: State, a: Action)
    requires Inv(s) && Enabled(s, a) && OfConfig(a)
    ensures Inv(Step(s, a))
  {
  }

  lemma InvStepEvent(s: State, a: Action)
    requires Inv(s) && Enabled(s, a) && OfEvent(a)
    ensures Inv(Step(s, a))
  {
  }

  lemma InvStepQuery(s: State, a: Action)
    requires Inv(s) && Enabled(s, a) && OfQuery(a)
    ensures Inv(Step(s, a))
  {
  }

  lemma InvStepCaller(s: State, a: Action)
    requires Inv(s) && Enabled(s, a) && !OfConfig(a) && !OfEvent(a) && !OfQuery(a)
    ensures Inv(Step(s, a))
  {
  }

  lemma InvStep(s: State, a: Action)
    requires Inv(s) && Enabled(s, a)
    ensures Inv(Step(s, a))
  {
    if OfConfig(a) {
      InvStepConfig(s, a);
    } else if OfEvent(a) {
      InvStepEvent(s, a);
    } else if OfQuery(a) {
      InvStepQuery(s, a);
    } else {
      InvStepCaller(s, a);
    }
  }

  lemma {:induction false} InvHolds(run: seq<Action>)
    requires IsRun(run)
    ensures Inv(After(run))
  {
    if run != [] {
      InvHolds(run[..|run| - 1]);
      InvStep(After(run[..|run| - 1]), run[|run| - 1]);
    }
  }

  // ---------------------------------------------------------------- stopping

  /**
   * Stop safety: in every interleaving, once Stop has returned, Start had returned nil, both watchers have finished
   * and the local-proxy client has been stopped.
   */
  lemma StopJoinsWatchers(run: seq<Action>)
    requires IsRun(run) && After(run).caller.Stopped?
    ensures After(run).startedNil
    ensures After(run).config.ConfigFinished? && After(run).event.EventFinished?
    ensures EventStopsClient in run
  {
    InvHolds(run);
    ClientStopsBeforeFinish(run);
  }

  lemma {:induction false} ClientStopsBeforeFinish(run: seq<Action>)
    requires IsRun(run) && (After(run).event.ClientStopped? || After(run).event.EventFinished?)
    ensures EventStopsClient in run
  {
    var init, a := run[..|run| - 1], run[|run| - 1];
    assert run == init + [a];
    if a != EventStopsClient {
      ClientStopStep(After(init), a);
      ClientStopsBeforeFinish(init);
    }
  }

  lemma ClientStopStep(s: State, a: Action)
    requires Enabled(s, a) && a != EventStopsClient
    ensures Step(s, a).event.ClientStopped? || Step(s, a).event.EventFinished? ==>
              s.event.ClientStopped? || s.event.EventFinished?
  {
  }

  /** At the moment Stop returns, the query handler has finished exactly if it had registered in time. */
  lemma QueryAtStop(run: seq<Action>)
    requires IsRun(run) && run != [] && (run[|run| - 1] == GroupWaitReturns || run[|run| - 1] == WaiterReturns)
    ensures After(run).query.QueryFinished? <==> QueryAdds in run
  {
    InvHolds(run[..|run| - 1]);
    QueryAddedOnce(run);
  }

  lemma {:induction false} QueryAddedOnce(run: seq<Action>)
    requires IsRun(run)
    ensures QueryAdds in run <==> !After(run).query.QuerySpawned?
  {
    if run != [] {
      var init, a := run[..|run| - 1], run[|run| - 1];
      assert run == init + [a];
      QueryAddedOnce(init);
      QueryAddsStep(After(init), a);
    }
  }

  lemma QueryAddsStep(s: State, a: Action)
    requires Enabled(s, a)
    ensures Step(s, a).query.QuerySpawned? <==> s.query.QuerySpawned? && a != QueryAdds
  {
  }

  lemma Extend(run: seq<Action>, s: State, a: Action) returns (longer: seq<Action>, t: State)
    requires IsRun(run) && After(run) == s && Enabled(s, a)
    ensures longer == run + [a] && IsRun(longer) && After(longer) == t == Step(s, a)
  {
    longer, t := run + [a], Step(s, a);
    assert longer[..|run|] == run;
  }

  /** The configuration watcher runs. */
  lemma Watches() returns (run: seq<Action>)
    ensures IsRun(run)
    ensures After(run) == State(AwaitsWatcher, ConfigLooping, EventSpawned, QuerySpawned, 1, false, Silent, false)
  {
    var s := LAUNCHED;
    run, s := Extend([], s, ConfigAdds);
    run, s := Extend(run, s, ConfigSignals);
    run, s := Extend(run, s, TakeProcessorReady);
  }

  /** Start has returned nil, and the query handler has not registered yet. */
  lemma Starts() returns (run: seq<Action>)
    ensures IsRun(run)
    ensures After(run) == State(StartReturned, ConfigLooping, EventWaiting, QuerySpawned, 2, false, Silent, true)
  {
    run := Watches();
    var s := After(run);
    run, s := Extend(run, s, EventAdds);
    run, s := Extend(run, s, EventStartsClient);
    run, s := Extend(run, s, EventSignals);
    run, s := Extend(run, s, TakeWatcherReady);
  }

  /** From there, Stop waits on the group until both watchers have left it. */
  lemma Waits() returns (run: seq<Action>)
    ensures IsRun(run)
    ensures After(run) == State(Parked, ConfigFinished, EventFinished, QuerySpawned, 0, false, Silent, true)
  {
    run := Starts();
    var s := After(run);
    run, s := Extend(run, s, CloseBind);
    run, s := Extend(run, s, PublishDeallocation);
    run, s := Extend(run, s, CloseDone);
    run, s := Extend(run, s, GroupWaitParks);
    run, s := Extend(run, s, ConfigSeesDone);
    run, s := Extend(run, s, ConfigDone);
    run, s := Extend(run, s, EventStopsClient);
    run, s := Extend(run, s, EventDone);
  }

  /** Stop does not promise more: in some run the query handler registers and runs after Stop has returned. */
  lemma QueryMayOutliveStop() returns (run: seq<Action>)
    ensures IsRun(run) && After(run).caller.Stopped? && After(run).query.QueryRunning?
  {
    run := Waits();
    var s := After(run);
    run, s := Extend(run, s, ReleaseWaiter);
    run, s := Extend(run, s, WaiterReturns);
    run, s := Extend(run, s, QueryAdds);
  }

  /** The closed binding alone lets the query handler go: it may leave before Stop publishes or closes anything else. */
  lemma QueryMayLeaveFirst() returns (run: seq<Action>)
    ensures IsRun(run) && After(run).caller.BindClosed? && After(run).query.QueryFinished?
  {
    run := Starts();
    var s := After(run);
    run, s := Extend(run, s, QueryAdds);
    run, s := Extend(run, s, CloseBind);
    run, s := Extend(run, s, QueryExits);
  }

  // ---------------------------------------------------------------- the late registration panics

  /** Stop can bring the program down: the query handler registers after the release and before the waiter resumes. */
  lemma StopMayPanic() returns (run: seq<Action>)
    ensures IsRun(run) && After(run).caller.Panicked? && After(run).startedNil
  {
    run := Waits();
    var s := After(run);
    run, s := Extend(run, s, ReleaseWaiter);
    run, s := Extend(run, s, QueryAdds);
    run, s := Extend(run, s, WaiterPanics);
  }

  /** The counter has reached zero under a waiter that has not resumed yet. */
  predicate Window(s: State) {
    (s.caller.Parked? || s.caller.Released?) && s.group == 0
  }

  /**
   * What a panic takes: it has happened; or the counter is up again under a released waiter; or the query handler has
   * yet to register, and Stop has yet to wait for a watcher or is waiting, and no failed start keeps it there.
   */
  predicate PanicAhead(s: State) {
    || s.caller.Panicked?
    || (s.caller.Released? && s.group != 0)
    || (s.query.QuerySpawned? && !s.event.EventFailed? && !s.caller.Stopped? && !(s.caller.AwaitsGroup? && s.group == 0))
  }

  ghost predicate CanPanic(run: seq<Action>) {
    exists more: seq<Action> :: IsRun(run + more) && After(run + more).caller.Panicked?
  }

  /** After any run, a panic can still come, or has come, exactly if the state reached says so. */
  lemma {:induction false} PanicExactly(run: seq<Action>)
    requires IsRun(run)
    ensures CanPanic(run) <==> PanicAhead(After(run))
  {
    if PanicAhead(After(run)) {
      InvHolds(run);
      var more := ReachPanic(run, After(run));
    } else {
      forall more: seq<Action> | IsRun(run + more) ensures !After(run + more).caller.Panicked? {
        NoPanicAhead(run, more);
      }
    }
  }

  lemma {:induction false} NoPanicAhead(run: seq<Action>, more: seq<Action>)
    requires IsRun(run + more) && !PanicAhead(After(run))
    ensures !PanicAhead(After(run + more))
    decreases |more|
  {
    if more == [] {
      assert run + more == run;
    } else {
      var n := |more| - 1;
      assert (run + more)[..|run| + n] == run + more[..n];
      NoPanicAhead(run, more[..n]);
      InvHolds(run + more[..n]);
      StaysSafe(After(run + more[..n]), more[n]);
    }
  }

  lemma StaysSafe(s: State, a: Action)
    requires Inv(s) && Enabled(s, a) && !PanicAhead(s)
    ensures !PanicAhead(Step(s, a))
  {
  }

  lemma {:induction false} ReachPanic(run: seq<Action>, s: State) returns (more: seq<Action>)
    requires IsRun(run) && After(run) == s && Inv(s) && PanicAhead(s)
    ensures IsRun(run + more) && After(run + more).caller.Panicked?
    decreases Rank(s)
  {
    if s.caller.Panicked? {
      more := [];
      assert run + more == run;
    } else {
      var a, t := StepNearer(s);
      var longer := ExtendTo(run, s, a, t);
      var rest := ReachPanic(longer, t);
      more := [a] + rest;
      Associative(run, a, rest);
    }
  }

  lemma StepNearer(s: State) returns (a: Action, t: State)
    requires Inv(s) && PanicAhead(s) && !s.caller.Panicked?
    ensures Enabled(s, a) && t == Step(s, a) && Inv(t) && PanicAhead(t) && Rank(t) < Rank(s)
  {
    a := Nearer(s);
    t := Step(s, a);
    PanicNearer(s);
    InvStep(s, a);
    RankDrops(s, a);
  }

  lemma ExtendTo(run: seq<Action>, s: State, a: Action, t: State) returns (longer: seq<Action>)
    requires IsRun(run) && After(run) == s && Enabled(s, a) && t == Step(s, a)
    ensures longer == run + [a] && IsRun(longer) && After(longer) == t
  {
    var t';
    longer, t' := Extend(run, s, a);
  }

  lemma Associative(run: seq<Action>, a: Action, rest: seq<Action>)
    ensures run + ([a] + rest) == run + [a] + rest
  {
  }

  /** A step towards the panic: register late, and until then let everybody else go on. */
  function Nearer(s: State): Action {
    if s.caller.Released? && s.group != 0 then WaiterPanics
    else if Window(s) then QueryAdds
    else if s.caller.AwaitsGroup? then GroupWaitParks
    else match s.config
         case ConfigSpawned => ConfigAdds
         case ConfigAdded => ConfigSignals
         case ConfigLeaving => ConfigDone
         case _ =>
           match s.event
           case EventSpawned => EventAdds
           case EventAdded => EventStartsClient
           case ClientRunning => EventSignals
           case ClientStopped => EventDone
           case _ =>
             match s.caller
             case AwaitsProcessor => TakeProcessorReady
             case AwaitsWatcher => TakeWatcherReady
             case StartReturned => CloseBind
             case BindClosed => PublishDeallocation
             case Published => CloseDone
             case _ => if s.config.ConfigLooping? then ConfigSeesDone else EventStopsClient
  }

  lemma PanicNearer(s: State)
    requires Inv(s) && PanicAhead(s) && !s.caller.Panicked?
    ensures Enabled(s, Nearer(s)) && PanicAhead(Step(s, Nearer(s)))
  {
  }

  /** So a handler that registers in time, before the counter reached zero under the waiter, never panics. */
  lemma {:induction false} RegisteredInTimeNeverPanics(run: seq<Action>, q: nat)
    requires IsRun(run) && q < |run| && run[q] == QueryAdds && !Window(After(run[..q]))
    ensures !PanicAhead(After(run)) && !CanPanic(run)
    decreases |run|
  {
    var n := |run| - 1;
    var init := run[..n];
    InvHolds(init);
    if q == n {
      RegisterInTime(After(init), After(run));
    } else {
      assert init[..q] == run[..q];
      RegisteredInTimeNeverPanics(init, q);
      StaysSafe(After(init), run[n]);
    }
    PanicExactly(run);
  }

  lemma RegisterInTime(s: State, t: State)
    requires Inv(s) && Enabled(s, QueryAdds) && !Window(s) && t == Step(s, QueryAdds)
    ensures !PanicAhead(t)
  {
  }

  // ---------------------------------------------------------------- failed starts

  /**
   * When the event watcher fails, Start returns the error but the watcher has left the wait group raised: Stop can be
   * called and then never returns.
   */
  lemma StopHangsAfterFailedStart(run: seq<Action>)
    requires IsRun(run) && After(run).event.EventFailed?
    ensures !After(run).caller.Stopped? && !After(run).caller.Panicked? && After(run).group >= 1
    ensures !Enabled(After(run), GroupWaitReturns) && !Enabled(After(run), ReleaseWaiter)
  {
    InvHolds(run);
    FailedStartBlocks(After(run));
  }

  lemma FailedStartBlocks(s: State)
    requires Inv(s) && s.event.EventFailed?
    ensures !s.caller.Stopped? && !s.caller.Panicked? && s.group >= 1
  {
  }

  // ---------------------------------------------------------------- termination

  function CallerRank(c: Caller): nat {
    match c
    case AwaitsProcessor => 8
    case AwaitsWatcher => 7
    case StartReturned => 6
    case BindClosed => 5
    case Published => 4
    case AwaitsGroup => 3
    case Parked => 2
    case Released => 1
    case Stopped => 0
    case Panicked => 0
  }

  function ConfigRank(c: ConfigWatcher): nat {
    match c
    case ConfigSpawned => 4
    case ConfigAdded => 3
    case ConfigLooping => 2
    case ConfigLeaving => 1
    case ConfigFinished => 0
  }

  function EventRank(e: EventWatcher): nat {
    match e
    case EventSpawned => 5
    case EventAdded => 4
    case ClientRunning => 3
    case EventWaiting => 2
    case ClientStopped => 1
    case EventFailed => 0
    case EventFinished => 0
  }

  function QueryRank(q: QueryHandler): nat {
    match q
    case QuerySpawned => 2
    case QueryRunning => 1
    case QueryFinished => 0
  }

  function Rank(s: State): nat {
    CallerRank(s.caller) + ConfigRank(s.config) + EventRank(s.event) + QueryRank(s.query)
  }

  lemma RankDropsConfig(s: State, a: Action)
    requires Enabled(s, a) && OfConfig(a)
    ensures Rank(Step(s, a)) < Rank(s)
  {
  }

  lemma RankDropsEvent(s: State, a: Action)
    requires Enabled(s, a) && OfEvent(a)
    ensures Rank(Step(s, a)) < Rank(s)
  {
  }

  lemma RankDropsCaller(s: State, a: Action)
    requires Enabled(s, a) && !OfConfig(a) && !OfEvent(a)
    ensures Rank(Step(s, a)) < Rank(s)
  {
  }

  lemma RankDrops(s: State, a: Action)
    requires Enabled(s, a)
    ensures Rank(Step(s, a)) < Rank(s)
  {
    if OfConfig(a) {
      RankDropsConfig(s, a);
    } else if OfEvent(a) {
      RankDropsEvent(s, a);
    } else {
      RankDropsCaller(s, a);
    }
  }

  /** Every step makes progress, so a run has at most 19 of them. */
  lemma {:induction false} RunsAreBounded(run: seq<Action>)
    requires IsRun(run)
    ensures |run| + Rank(After(run)) <= 19
  {
    if run != [] {
      RunsAreBounded(run[..|run| - 1]);
      RankDrops(After(run[..|run| - 1]), run[|run| - 1]);
    }
  }

  /**
   * How runs end: Stop has returned, the query handler has finished and the group is empty; or the caller is parked in
   * Stop for ever, by a failed start alone; or the late registration has panicked.
   */
  predicate Ended(s: State) {
    if s.caller.Panicked? then s.query.QueryRunning? || s.query.QueryFinished?
    else if s.event.EventFailed? then s.caller.Parked? && s.group == 1 && s.query.QueryFinished?
    else s.caller.Stopped? && s.query.QueryFinished? && s.group == 0
  }

  /** No step extends a run exactly if it has ended so: nothing else gets stuck. */
  lemma {:induction false} MaximalRunsEnd(run: seq<Action>)
    requires IsRun(run)
    ensures (forall a :: !Enabled(After(run), a)) <==> Ended(After(run))
  {
    InvHolds(run);
    if Ended(After(run)) {
      forall a ensures !Enabled(After(run), a) {
        EndsAreFinal(After(run), a);
      }
    } else {
      Progress(After(run));
    }
  }

  lemma EndsAreFinal(s: State, a: Action)
    requires Inv(s) && Ended(s)
    ensures !Enabled(s, a)
  {
  }

  /** Some step that can be taken: goroutines first, then the caller, then what waits for Stop. */
  function Useful(s: State): Action {
    match s.config
    case ConfigSpawned => ConfigAdds
    case ConfigAdded => ConfigSignals
    case ConfigLooping => ConfigLosesWatch
    case ConfigLeaving => ConfigDone
    case ConfigFinished =>
      match s.event
      case EventSpawned => EventAdds
      case EventAdded => EventStartsClient
      case ClientRunning => EventSignals
      case ClientStopped => EventDone
      case _ => if s.query.QuerySpawned? then QueryAdds else UsefulAfterwards(s)
  }

  function UsefulAfterwards(s: State): Action {
    match s.caller
    case AwaitsProcessor => TakeProcessorReady
    case AwaitsWatcher => TakeWatcherReady
    case StartReturned => CloseBind
    case BindClosed => PublishDeallocation
    case Published => CloseDone
    case _ =>
      if s.query.QueryRunning? then QueryExits
      else if s.event.EventWaiting? then EventStopsClient
      else match s.caller
           case AwaitsGroup => if s.group == 0 then GroupWaitReturns else GroupWaitParks
           case Parked => ReleaseWaiter
           case _ => if s.group == 0 then WaiterReturns else WaiterPanics
  }

  lemma Progress(s: State)
    requires Inv(s) && !Ended(s)
    ensures Enabled(s, Useful(s))
  {
  }
}
