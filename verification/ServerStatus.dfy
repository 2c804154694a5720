/**
 Starting and stopping a server. The startup goroutine and the shutdown goroutine agree through
 serverStatus on who owns the stopper and on whether the server may be drained; the main goroutine
 waits for a signal or a shutdown request, spawns the shutdown goroutine, and returns when the server
 has stopped or was never started.
 */
module ServerStatuses {
  import opened Common

  type Server = nat
  type Stopper = nat

  class ServerStatus {
    var s: Option<Server>
    var stopper: Option<Stopper>
    var shutdownRequested: bool

    /** The server and the stopper are handed over together. */
    ghost predicate Valid()
      reads this
    {
      s.Some? <==> stopper.Some?
    }

    constructor ()
      ensures Valid() && s == None && !shutdownRequested
    {
      s, stopper, shutdownRequested := None, None, false;
    }

    /** Takes over the stopper unless shutdown was requested before. */
    method SetStarted(server: Server, stopper: Stopper) returns (inProgress: bool)
      requires Valid()
      modifies this
      ensures Valid() && inProgress == old(shutdownRequested) == shutdownRequested
      ensures if inProgress then s == old(s) && this.stopper == old(this.stopper)
              else s == Some(server) && this.stopper == Some(stopper)
      ensures inProgress || Abstract() == old(Abstract()).(started := true)
      ensures inProgress ==> Abstract() == old(Abstract())
    {
      if shutdownRequested {
        return true;
      }
      s := Some(server);
      this.stopper := Some(stopper);
      return false;
    }

    method ShutdownInProgress() returns (inProgress: bool)
      ensures inProgress == Abstract().shutdownRequested
    {
      return shutdownRequested;
    }

    /** Hands out the server and its stopper exactly if the server was started before. */
    method StartShutdown() returns (canDrain: bool, server: Option<Server>, stopper: Option<Stopper>)
      requires Valid()
      modifies this`shutdownRequested
      ensures Valid() && shutdownRequested
      ensures server == s && stopper == this.stopper
      ensures canDrain == server.Some? == stopper.Some?
      ensures canDrain == old(Abstract()).started
      ensures Abstract() == old(Abstract()).(shutdownRequested := true)
    {
      shutdownRequested := true;
      return s.Some?, s, this.stopper;
    }

    function Abstract(): Status
      reads this
    {
      Status(s.Some?, shutdownRequested)
    }
  }

  datatype Status = Status(started: bool, shutdownRequested: bool)

  // ---------- The goroutines ----------

  datatype Outcome = Failed | FoundShutdown | StoppedItself | Running

  datatype Startup =
    | Instantiating | CheckingShutdown | PreStarting | SettingStarted | StoppingItself
    | AcceptingInternal | RunningInitialSQL | AcceptingClients | Reporting
    | ReportingError | StartupDone(outcome: Outcome)

  datatype Watcher = NotWatching | Watching | Requesting | WatcherDone

  datatype Shutdown =
    | NotSpawned | Requested(drain: bool) | Draining | Stopping | ShutdownDone(usedStopper: bool)

  datatype Waiter = WaitingForRequest | WaitingForStop | Returned

  datatype Reason = StartupError | ServerRequest

  datatype Cause = BySignal | ByRequest(reason: Reason)

  datatype Owner = StartupGoroutine | ShutdownGoroutine

  /** Calls of the goroutines, with their outcome. */
  datatype Event =
    | Created(ok: bool) | ShutdownChecked(inProgress: bool) | PreStarted(ok: bool) | SetStartedCalled(inProgress: bool)
    | InternalClientsAccepted(ok: bool) | InitialSQLRun(ok: bool) | ClientsAccepted(ok: bool) | InfoReported(ok: bool)
    | ShutdownCaused(cause: Cause) | ShutdownBegan | DrainCalled
    | StopCalled(owner: Owner)

  datatype State = State(
    status: Status,
    startup: Startup,
    watcher: Watcher,
    shutdown: Shutdown,
    waiter: Waiter,
    requests: seq<Reason>,    // shutdownReqC, of capacity one
    stopWithoutDrain: bool,   // whether that channel is closed
    stopped: bool,
    log: seq<Event>)

  datatype Step =
    | NewServer(ok: bool) | CheckShutdown | PreStart(ok: bool) | SetStarted | StopItself
    | AcceptInternalClients(ok: bool) | RunInitialSQL(ok: bool) | AcceptClients(ok: bool) | ReportInfo(ok: bool)
    | ReportError | WatchRequest | WatchSend | WatchQuiesce
    | Signal | TakeRequest | BeginShutdown | Drain | Stop | Return

  const INIT := State(Status(false, false), Instantiating, NotWatching, NotSpawned, WaitingForRequest,
                      [], false, false, [])

  predicate Enabled(s: State, step: Step)
  {
    match step
    case NewServer(_) => s.startup.Instantiating?
    case CheckShutdown => s.startup.CheckingShutdown?
    case PreStart(_) => s.startup.PreStarting?
    case SetStarted => s.startup.SettingStarted?
    case StopItself => s.startup.StoppingItself?
    case AcceptInternalClients(_) => s.startup.AcceptingInternal?
    case RunInitialSQL(_) => s.startup.RunningInitialSQL?
    case AcceptClients(_) => s.startup.AcceptingClients?
    case ReportInfo(_) => s.startup.Reporting?
    case ReportError => s.startup.ReportingError? && s.requests == []
    case WatchRequest => s.watcher.Watching?
    case WatchSend => s.watcher.Requesting? && s.requests == []
    case WatchQuiesce => s.watcher.Watching? && s.stopped
    case Signal => s.waiter.WaitingForRequest?
    case TakeRequest => s.waiter.WaitingForRequest? && s.requests != []
    case BeginShutdown => s.shutdown.Requested?
    case Drain => s.shutdown.Draining?
    case Stop => s.shutdown.Stopping?
    case Return => s.waiter.WaitingForStop? && (s.stopped || s.stopWithoutDrain)
  }

  /** A startup step that may fail: its outcome is logged, and an error ends the startup. */
  function GoOn(s: State, event: Event, ok: bool, next: Startup): State
  {
    s.(startup := if ok then next else ReportingError, log := s.log + [event])
  }

  /** The startup function returned nil: the watching goroutine takes over. */
  function StartupReturns(s: State, outcome: Outcome): State
  {
    s.(startup := StartupDone(outcome), watcher := Watching)
  }

  function Apply(s: State, step: Step): State
    requires Enabled(s, step)
  {
    match step
    case NewServer(ok) => GoOn(s, Created(ok), ok, CheckingShutdown)
    case CheckShutdown =>
      var inProgress := s.status.shutdownRequested;
      var s' := s.(log := s.log + [ShutdownChecked(inProgress)]);
      if inProgress then StartupReturns(s', FoundShutdown) else s'.(startup := PreStarting)
    case PreStart(ok) => GoOn(s, PreStarted(ok), ok, SettingStarted)
    case SetStarted =>
      var inProgress := s.status.shutdownRequested;
      s.(status := if inProgress then s.status else s.status.(started := true),
         startup := if inProgress then StoppingItself else AcceptingInternal,
         log := s.log + [SetStartedCalled(inProgress)])
    case StopItself =>
      StartupReturns(s.(stopped := true, log := s.log + [StopCalled(StartupGoroutine)]), StoppedItself)
    case AcceptInternalClients(ok) => GoOn(s, InternalClientsAccepted(ok), ok, RunningInitialSQL)
    case RunInitialSQL(ok) => GoOn(s, InitialSQLRun(ok), ok, AcceptingClients)
    case AcceptClients(ok) => GoOn(s, ClientsAccepted(ok), ok, Reporting)
    case ReportInfo(ok) =>
      var s' := s.(log := s.log + [InfoReported(ok)]);
      if ok then StartupReturns(s', Running) else s'.(startup := ReportingError)
    case ReportError => s.(startup := StartupDone(Failed), requests := s.requests + [StartupError])
    case WatchRequest => s.(watcher := Requesting)
    case WatchSend => s.(watcher := WatcherDone, requests := s.requests + [ServerRequest])
    case WatchQuiesce => s.(watcher := WatcherDone)
    case Signal =>
      s.(waiter := WaitingForStop, shutdown := Requested(true), log := s.log + [ShutdownCaused(BySignal)])
    case TakeRequest =>
      s.(waiter := WaitingForStop, shutdown := Requested(s.requests[0] != StartupError), requests := s.requests[1..],
         log := s.log + [ShutdownCaused(ByRequest(s.requests[0]))])
    case BeginShutdown =>
      s.(status := s.status.(shutdownRequested := true),
         shutdown := if !s.status.started then ShutdownDone(false)
                     else if s.shutdown.drain then Draining else Stopping,
         stopWithoutDrain := s.stopWithoutDrain || !s.status.started,
         log := s.log + [ShutdownBegan])
    case Drain => s.(shutdown := Stopping, log := s.log + [DrainCalled])
    case Stop =>
      s.(shutdown := ShutdownDone(true), stopped := true, log := s.log + [StopCalled(ShutdownGoroutine)])
    case Return => s.(waiter := Returned)
  }

  ghost predicate Next(s: State, s': State)
  {
    exists step :: Enabled(s, step) && s' == Apply(s, step)
  }

  ghost predicate IsRun(trace: seq<State>)
  {
    && trace != []
    && trace[0] == INIT
    && forall i :: 0 < i < |trace| ==> Next(trace[i - 1], trace[i])
  }

  // ---------- The invariant ----------

  function Count(log: seq<Event>, event: Event): nat
  {
    if log == [] then 0
    else Count(log[..|log| - 1], event) + if log[|log| - 1] == event then 1 else 0
  }

  predicate AfterSetStarted(startup: Startup)
  {
    || startup.AcceptingInternal? || startup.RunningInitialSQL? || startup.AcceptingClients?
    || startup.Reporting? || startup == StartupDone(Running)
  }

  /** Only one goroutine ever owns the stopper. */
  ghost predicate Ownership(s: State)
  {
    && (s.status.started ==> s.startup.ReportingError? || s.startup == StartupDone(Failed) || AfterSetStarted(s.startup))
    && (AfterSetStarted(s.startup) ==> s.status.started)
    && (s.startup.StoppingItself? || s.startup == StartupDone(StoppedItself) ==>
          !s.status.started && s.status.shutdownRequested)
    && (s.status.shutdownRequested <==> s.shutdown.Draining? || s.shutdown.Stopping? || s.shutdown.ShutdownDone?)
    && (s.shutdown.Draining? || s.shutdown.Stopping? ==> s.status.started)
    && (s.shutdown.ShutdownDone? ==> s.shutdown.usedStopper == s.status.started)
    && (s.waiter.WaitingForRequest? <==> s.shutdown.NotSpawned?)
    && (s.startup.StartupDone? || s.requests == [])
    && (s.watcher != NotWatching ==> s.startup.StartupDone?)
    && |s.requests| <= 1
    && (s.waiter.Returned? ==> s.stopped || s.stopWithoutDrain)
  }

  /** The log agrees with where the goroutines are. */
  ghost predicate Logged(s: State)
  {
    Tallied(s, TallyOf(s.log))
  }

  /** An event that is allowed to follow what was logged before it. */
  ghost predicate MayFollow(log: seq<Event>, event: Event)
  {
    match event
    case ShutdownChecked(inProgress) => Count(log, ShutdownBegan) == if inProgress then 1 else 0
    case SetStartedCalled(inProgress) => Count(log, ShutdownBegan) == if inProgress then 1 else 0
    case DrainCalled => StartedFirst(log) && Count(log, ShutdownBegan) == 1 && WantsDrain(log)
    case StopCalled(owner) =>
      && Count(log, ShutdownBegan) == 1
      && (owner.ShutdownGoroutine? ==> StartedFirst(log) && (DrainCalled in log <==> WantsDrain(log)))
      && (owner.StartupGoroutine? ==> SetStartedCalled(true) in log && DrainCalled !in log)
    case InternalClientsAccepted(_) => StartedFirst(log)
    case ClientsAccepted(_) => StartedFirst(log)
    case _ => true
  }

  /** A signal or a request of the server calls for a drain, an error of the startup does not. */
  ghost predicate WantsDrain(log: seq<Event>)
  {
    ShutdownCaused(BySignal) in log || ShutdownCaused(ByRequest(ServerRequest)) in log
  }

  /** setStarted took the stopper over, and shutdown had not begun by then. */
  ghost predicate StartedFirst(log: seq<Event>)
  {
    exists i :: 0 <= i < |log| && log[i] == SetStartedCalled(false) && Count(log[..i], ShutdownBegan) == 0
  }

  ghost predicate Orderly(log: seq<Event>)
  {
    forall i :: 0 <= i < |log| ==> MayFollow(log[..i], log[i])
  }

  // ---------- What each goroutine has done ----------

  predicate OfStartup(e: Event)
  {
    || e.Created? || e.ShutdownChecked? || e.PreStarted? || e.SetStartedCalled? || e.InternalClientsAccepted?
    || e.InitialSQLRun? || e.ClientsAccepted? || e.InfoReported? || e == StopCalled(StartupGoroutine)
  }

  /** The events of the startup goroutine, or those of the others. */
  function Told(log: seq<Event>, startup: bool): seq<Event>
  {
    if log == [] then []
    else
      var last := log[|log| - 1];
      Told(log[..|log| - 1], startup) + if OfStartup(last) == startup then [last] else []
  }

  lemma ToldSnoc(log: seq<Event>, e: Event, startup: bool)
    ensures Told(log + [e], startup) == Told(log, startup) + if OfStartup(e) == startup then [e] else []
  {
    assert (log + [e])[..|log|] == log;
  }

  lemma {:induction false} ToldHas(log: seq<Event>, e: Event)
    ensures e in log <==> e in Told(log, OfStartup(e))
  {
    if log != [] {
      var front := log[..|log| - 1];
      assert log == front + [log[|log| - 1]];
      ToldHas(front, e);
    }
  }

  // What a startup has done by each point, as long as every call succeeds and no shutdown intervenes.
  const CREATED: seq<Event> := [Created(true)]
  const CHECKED: seq<Event> := CREATED + [ShutdownChecked(false)]
  const PRE_STARTED: seq<Event> := CHECKED + [PreStarted(true)]
  const STARTED: seq<Event> := PRE_STARTED + [SetStartedCalled(false)]
  const INTERNAL_CLIENTS: seq<Event> := STARTED + [InternalClientsAccepted(true)]
  const INITIAL_SQL: seq<Event> := INTERNAL_CLIENTS + [InitialSQLRun(true)]
  const CLIENTS: seq<Event> := INITIAL_SQL + [ClientsAccepted(true)]
  const RUNNING: seq<Event> := CLIENTS + [InfoReported(true)]
  const REFUSED: seq<Event> := PRE_STARTED + [SetStartedCalled(true)]

  /** The last call failed, and those before it went well. */
  ghost predicate FailedStartup(told: seq<Event>)
  {
    || told == [Created(false)]
    || told == CHECKED + [PreStarted(false)]
    || told == STARTED + [InternalClientsAccepted(false)]
    || told == INTERNAL_CLIENTS + [InitialSQLRun(false)]
    || told == INITIAL_SQL + [ClientsAccepted(false)]
    || told == CLIENTS + [InfoReported(false)]
  }

  /** What the startup goroutine has done when it is at a point. */
  ghost predicate StartupTold(startup: Startup, told: seq<Event>)
  {
    match startup
    case Instantiating => told == []
    case CheckingShutdown => told == CREATED
    case PreStarting => told == CHECKED
    case SettingStarted => told == PRE_STARTED
    case StoppingItself => told == REFUSED
    case AcceptingInternal => told == STARTED
    case RunningInitialSQL => told == INTERNAL_CLIENTS
    case AcceptingClients => told == INITIAL_SQL
    case Reporting => told == CLIENTS
    case ReportingError => FailedStartup(told)
    case StartupDone(outcome) =>
      match outcome
      case Failed => FailedStartup(told)
      case FoundShutdown => told == CREATED + [ShutdownChecked(true)]
      case StoppedItself => told == REFUSED + [StopCalled(StartupGoroutine)]
      case Running => told == RUNNING
  }

  /** Whether a shutdown for this cause drains the server first. */
  predicate Drains(cause: Cause)
  {
    cause != ByRequest(StartupError)
  }

  function Begun(cause: Cause): seq<Event>
  {
    [ShutdownCaused(cause)] + [ShutdownBegan]
  }

  /** All that comes before Stop. */
  function Drained(cause: Cause): seq<Event>
  {
    if Drains(cause) then Begun(cause) + [DrainCalled] else Begun(cause)
  }

  lemma DrainedHas(cause: Cause, other: Cause)
    ensures ShutdownCaused(other) in Begun(cause) <==> other == cause
    ensures ShutdownCaused(other) in Drained(cause) <==> other == cause
    ensures DrainCalled !in Begun(cause)
    ensures DrainCalled in Drained(cause) <==> Drains(cause)
  {
  }

  /** What the waiting and the shutdown goroutine have done for a cause. */
  ghost predicate ShutdownTold(shutdown: Shutdown, cause: Cause, told: seq<Event>)
  {
    match shutdown
    case NotSpawned => told == []
    case Requested(drain) => told == [ShutdownCaused(cause)] && drain == Drains(cause)
    case Draining => told == Begun(cause) && Drains(cause)
    case Stopping => told == Drained(cause)
    case ShutdownDone(usedStopper) =>
      told == if usedStopper then Drained(cause) + [StopCalled(ShutdownGoroutine)] else Begun(cause)
  }

  /** Requests come from whom they say: a failed startup sends one, and it is waiting or was the cause. */
  ghost predicate RequestsMeant(s: State, caused: bool, cause: Cause)
  {
    && (s.startup == StartupDone(Failed) <==>
          StartupError in s.requests || (caused && cause == ByRequest(StartupError)))
    && (ServerRequest in s.requests || (caused && cause == ByRequest(ServerRequest)) ==> s.watcher.WatcherDone?)
    && (s.watcher != NotWatching ==> s.startup != StartupDone(Failed))
  }

  ghost predicate Consistent(s: State, cause: Cause)
  {
    && StartupTold(s.startup, Told(s.log, true))
    && ShutdownTold(s.shutdown, cause, Told(s.log, false))
    && RequestsMeant(s, !s.shutdown.NotSpawned?, cause)
  }

  ghost predicate Inv(s: State)
  {
    && Ownership(s) && Logged(s) && Orderly(s.log) && (s.status.started ==> StartedFirst(s.log))
    && exists cause :: Consistent(s, cause)
  }

  lemma CountSnoc(log: seq<Event>, e: Event, event: Event)
    ensures Count(log + [e], event) == Count(log, event) + if e == event then 1 else 0
  {
    assert (log + [e])[..|log|] == log;
  }

  lemma StartedFirstSnoc(log: seq<Event>, e: Event)
    requires StartedFirst(log) || (e == SetStartedCalled(false) && Count(log, ShutdownBegan) == 0)
    ensures StartedFirst(log + [e])
  {
    if StartedFirst(log) {
      var i :| 0 <= i < |log| && log[i] == SetStartedCalled(false) && Count(log[..i], ShutdownBegan) == 0;
      assert (log + [e])[..i] == log[..i] && (log + [e])[i] == log[i];
    } else {
      assert (log + [e])[..|log|] == log && (log + [e])[|log|] == e;
    }
  }

  lemma OrderlySnoc(log: seq<Event>, e: Event)
    requires Orderly(log) && MayFollow(log, e)
    ensures Orderly(log + [e])
  {
    forall i | 0 <= i < |log + [e]|
      ensures MayFollow((log + [e])[..i], (log + [e])[i])
    {
      assert (log + [e])[..i] == log[..i];
      assert i == |log| ==> log[..i] == log;
    }
  }

  predicate StartsUp(step: Step)
  {
    || step.NewServer? || step.CheckShutdown? || step.PreStart? || step.SetStarted? || step.StopItself?
    || step.AcceptInternalClients? || step.RunInitialSQL? || step.AcceptClients? || step.ReportInfo? || step.ReportError?
  }

  predicate ShutsDown(step: Step)
  {
    step.BeginShutdown? || step.Drain? || step.Stop?
  }

  lemma StartupKeepsOwnership(s: State, step: Step)
    requires Ownership(s) && Enabled(s, step) && StartsUp(step)
    ensures Ownership(Apply(s, step))
  {
  }

  lemma ShutdownKeepsOwnership(s: State, step: Step)
    requires Ownership(s) && Enabled(s, step) && ShutsDown(step)
    ensures Ownership(Apply(s, step))
  {
  }

  lemma WaitingKeepsOwnership(s: State, step: Step)
    requires Ownership(s) && Enabled(s, step) && !StartsUp(step) && !ShutsDown(step)
    ensures Ownership(Apply(s, step))
  {
  }

  lemma OwnershipKept(s: State, step: Step)
    requires Ownership(s) && Enabled(s, step)
    ensures Ownership(Apply(s, step))
  {
    if StartsUp(step) {
      StartupKeepsOwnership(s, step);
    } else if ShutsDown(step) {
      ShutdownKeepsOwnership(s, step);
    } else {
      WaitingKeepsOwnership(s, step);
    }
  }

  /** The event a step logs, if any. */
  function Logs(s: State, step: Step): (e: Option<Event>)
    requires Enabled(s, step)
    ensures Apply(s, step).log == if e.None? then s.log else s.log + [e.value]
  {
    match step
    case NewServer(ok) => Some(Created(ok))
    case CheckShutdown => Some(ShutdownChecked(s.status.shutdownRequested))
    case PreStart(ok) => Some(PreStarted(ok))
    case SetStarted => Some(SetStartedCalled(s.status.shutdownRequested))
    case StopItself => Some(StopCalled(StartupGoroutine))
    case AcceptInternalClients(ok) => Some(InternalClientsAccepted(ok))
    case RunInitialSQL(ok) => Some(InitialSQLRun(ok))
    case AcceptClients(ok) => Some(ClientsAccepted(ok))
    case ReportInfo(ok) => Some(InfoReported(ok))
    case Signal => Some(ShutdownCaused(BySignal))
    case TakeRequest => Some(ShutdownCaused(ByRequest(s.requests[0])))
    case BeginShutdown => Some(ShutdownBegan)
    case Drain => Some(DrainCalled)
    case Stop => Some(StopCalled(ShutdownGoroutine))
    case _ => None
  }

  function Stops(log: seq<Event>): nat
  {
    Count(log, StopCalled(StartupGoroutine)) + Count(log, StopCalled(ShutdownGoroutine))
  }

  /** How often each of the events occurs that the invariant counts. */
  datatype Tally = Tally(started: nat, refused: nat, began: nat, stops: nat)

  function TallyOf(log: seq<Event>): Tally
  {
    Tally(Count(log, SetStartedCalled(false)), Count(log, SetStartedCalled(true)),
          Count(log, ShutdownBegan), Stops(log))
  }

  function Tick(t: Tally, e: Option<Event>): Tally
  {
    if e == Some(SetStartedCalled(false)) then t.(started := t.started + 1)
    else if e == Some(SetStartedCalled(true)) then t.(refused := t.refused + 1)
    else if e == Some(ShutdownBegan) then t.(began := t.began + 1)
    else if e.Some? && e.value.StopCalled? then t.(stops := t.stops + 1)
    else t
  }

  lemma TallySnoc(log: seq<Event>, e: Event)
    ensures TallyOf(log + [e]) == Tick(TallyOf(log), Some(e))
  {
    assert e.StopCalled? ==> e == StopCalled(StartupGoroutine) || e == StopCalled(ShutdownGoroutine) by {
      match e
      case StopCalled(StartupGoroutine) =>
      case _ =>
    }
    CountSnoc(log, e, StopCalled(StartupGoroutine));
    CountSnoc(log, e, StopCalled(ShutdownGoroutine));
    CountSnoc(log, e, ShutdownBegan);
    CountSnoc(log, e, SetStartedCalled(false));
    CountSnoc(log, e, SetStartedCalled(true));
  }

  /** The counts agree with where the goroutines are. */
  ghost predicate Tallied(s: State, t: Tally)
  {
    && t.started == (if s.status.started then 1 else 0)
    && t.refused == (if s.startup.StoppingItself? || s.startup == StartupDone(StoppedItself) then 1 else 0)
    && t.began == (if s.status.shutdownRequested then 1 else 0)
    && t.stops == (if s.startup == StartupDone(StoppedItself) then 1 else 0)
                  + (if s.shutdown == ShutdownDone(true) then 1 else 0)
    && s.stopped == (t.stops > 0)
    && s.stopWithoutDrain == (s.shutdown == ShutdownDone(false))
  }

  lemma StartupKeepsTally(s: State, step: Step, t: Tally)
    requires Ownership(s) && Tallied(s, t) && Enabled(s, step) && StartsUp(step)
    ensures Tallied(Apply(s, step), Tick(t, Logs(s, step)))
  {
  }

  lemma OthersKeepTally(s: State, step: Step, t: Tally)
    requires Ownership(s) && Tallied(s, t) && Enabled(s, step) && !StartsUp(step)
    ensures Tallied(Apply(s, step), Tick(t, Logs(s, step)))
  {
  }

  lemma LoggedKept(s: State, step: Step)
    requires Ownership(s) && Logged(s) && Enabled(s, step)
    ensures Logged(Apply(s, step))
  {
    if StartsUp(step) {
      StartupKeepsTally(s, step, TallyOf(s.log));
    } else {
      OthersKeepTally(s, step, TallyOf(s.log));
    }
    var e := Logs(s, step);
    if e.Some? {
      TallySnoc(s.log, e.value);
    }
  }

  lemma SomeCause(cause: Cause)
    ensures Drains(cause) <==> cause == BySignal || cause == ByRequest(ServerRequest)
  {
    match cause
    case BySignal =>
    case ByRequest(StartupError) =>
    case ByRequest(ServerRequest) =>
  }

  lemma CauseIsLogged(s: State, cause: Cause, other: Cause)
    requires ShutdownTold(s.shutdown, cause, Told(s.log, false))
    ensures ShutdownCaused(other) in s.log <==> !s.shutdown.NotSpawned? && other == cause
  {
    ToldHas(s.log, ShutdownCaused(other));
    DrainedHas(cause, other);
  }

  lemma DrainIsLogged(s: State, cause: Cause)
    requires ShutdownTold(s.shutdown, cause, Told(s.log, false))
    ensures s.shutdown.Stopping? || s.shutdown == ShutdownDone(true) ==> (DrainCalled in s.log <==> Drains(cause))
    ensures s.shutdown.Draining? || s.shutdown == ShutdownDone(false) ==> DrainCalled !in s.log
  {
    ToldHas(s.log, DrainCalled);
    DrainedHas(cause, cause);
  }

  /** Whether to drain can be told from the log. */
  lemma DrainingIsLogged(s: State, cause: Cause)
    requires ShutdownTold(s.shutdown, cause, Told(s.log, false))
    ensures WantsDrain(s.log) <==> !s.shutdown.NotSpawned? && Drains(cause)
  {
    CauseIsLogged(s, cause, BySignal);
    CauseIsLogged(s, cause, ByRequest(ServerRequest));
    SomeCause(cause);
  }

  lemma EventMayFollow(s: State, step: Step, cause: Cause)
    requires Inv(s) && Consistent(s, cause) && Enabled(s, step) && Logs(s, step).Some?
    ensures MayFollow(s.log, Logs(s, step).value)
  {
    DrainIsLogged(s, cause);
    DrainingIsLogged(s, cause);
    if step.StopItself? {
      ToldHas(s.log, SetStartedCalled(true));
    }
  }

  lemma StartupToldKept(s: State, step: Step, told: seq<Event>)
    requires StartupTold(s.startup, told) && Enabled(s, step)
    ensures var e := Logs(s, step);
            StartupTold(Apply(s, step).startup, if e.Some? && OfStartup(e.value) then told + [e.value] else told)
  {
  }

  function NextCause(s: State, step: Step, cause: Cause): Cause
    requires Enabled(s, step)
  {
    if step.Signal? then BySignal else if step.TakeRequest? then ByRequest(s.requests[0]) else cause
  }

  lemma ShutdownToldKept(s: State, step: Step, cause: Cause, told: seq<Event>)
    requires Ownership(s) && ShutdownTold(s.shutdown, cause, told) && Enabled(s, step)
    ensures var e := Logs(s, step);
            ShutdownTold(Apply(s, step).shutdown, NextCause(s, step, cause),
                         if e.Some? && !OfStartup(e.value) then told + [e.value] else told)
  {
    if ShutsDown(step) {
      ShutdownStepTold(s, step, cause, told);
    } else if !step.Signal? && !step.TakeRequest? {
      assert Apply(s, step).shutdown == s.shutdown && NextCause(s, step, cause) == cause;
    }
  }

  lemma ShutdownStepTold(s: State, step: Step, cause: Cause, told: seq<Event>)
    requires Ownership(s) && ShutdownTold(s.shutdown, cause, told) && Enabled(s, step) && ShutsDown(step)
    ensures Logs(s, step).Some? && ShutdownTold(Apply(s, step).shutdown, cause, told + [Logs(s, step).value])
  {
  }

  lemma RequestsMeantKept(s: State, step: Step, cause: Cause)
    requires Ownership(s) && RequestsMeant(s, !s.shutdown.NotSpawned?, cause) && Enabled(s, step)
    ensures var s' := Apply(s, step); RequestsMeant(s', !s'.shutdown.NotSpawned?, NextCause(s, step, cause))
  {
    if StartsUp(step) {
      StartupKeepsRequests(s, step, cause);
    } else if step.Signal? || step.TakeRequest? {
      WaiterKeepsRequests(s, step, cause);
    }
  }

  lemma StartupKeepsRequests(s: State, step: Step, cause: Cause)
    requires Ownership(s) && RequestsMeant(s, !s.shutdown.NotSpawned?, cause) && Enabled(s, step) && StartsUp(step)
    ensures var s' := Apply(s, step); RequestsMeant(s', !s'.shutdown.NotSpawned?, cause)
  {
    assert Apply(s, step).shutdown == s.shutdown;
  }

  lemma WaiterKeepsRequests(s: State, step: Step, cause: Cause)
    requires Ownership(s) && RequestsMeant(s, !s.shutdown.NotSpawned?, cause) && Enabled(s, step)
    requires step.Signal? || step.TakeRequest?
    ensures var s' := Apply(s, step); RequestsMeant(s', true, NextCause(s, step, cause))
  {
    assert step.TakeRequest? ==> s.requests == [s.requests[0]] && Apply(s, step).requests == [];
  }

  lemma ToldNext(s: State, step: Step, startup: bool)
    requires Enabled(s, step)
    ensures var e := Logs(s, step);
            Told(Apply(s, step).log, startup) ==
            if e.Some? && OfStartup(e.value) == startup then Told(s.log, startup) + [e.value] else Told(s.log, startup)
  {
    var e := Logs(s, step);
    if e.Some? {
      ToldSnoc(s.log, e.value, startup);
    }
  }

  lemma ConsistentKept(s: State, step: Step, cause: Cause)
    requires Ownership(s) && Consistent(s, cause) && Enabled(s, step)
    ensures Consistent(Apply(s, step), NextCause(s, step, cause))
  {
    ToldNext(s, step, true);
    ToldNext(s, step, false);
    StartupToldKept(s, step, Told(s.log, true));
    ShutdownToldKept(s, step, cause, Told(s.log, false));
    RequestsMeantKept(s, step, cause);
  }

  lemma OrderKept(s: State, step: Step, cause: Cause)
    requires Inv(s) && Consistent(s, cause) && Enabled(s, step)
    ensures var s' := Apply(s, step); Orderly(s'.log) && (s'.status.started ==> StartedFirst(s'.log))
  {
    var e := Logs(s, step);
    if e.Some? {
      EventMayFollow(s, step, cause);
      OrderlySnoc(s.log, e.value);
      if s.status.started || (step.SetStarted? && !s.status.shutdownRequested) {
        StartedFirstSnoc(s.log, e.value);
      }
    }
  }

  lemma StepKeepsInv(s: State, step: Step)
    requires Inv(s) && Enabled(s, step)
    ensures Inv(Apply(s, step))
  {
    var cause :| Consistent(s, cause);
    OwnershipKept(s, step);
    LoggedKept(s, step);
    OrderKept(s, step, cause);
    ConsistentKept(s, step, cause);
  }

  lemma InitInv()
    ensures Inv(INIT)
  {
    assert Consistent(INIT, BySignal);
  }

  lemma {:induction false} RunInv(trace: seq<State>)
    requires IsRun(trace)
    ensures Inv(trace[|trace| - 1])
  {
    if |trace| == 1 {
      InitInv();
    } else {
      var prefix := trace[..|trace| - 1];
      RunInv(prefix);
      var s, s' := prefix[|prefix| - 1], trace[|trace| - 1];
      assert Next(s, s');
      var step :| Enabled(s, step) && s' == Apply(s, step);
      StepKeepsInv(s, step);
    }
  }

  // ---------- What every interleaving keeps ----------

  /** Stop is called at most once, and exactly once when both goroutines have finished after
      setStarted was reached. */
  lemma StopIsCalledOnce(trace: seq<State>)
    requires IsRun(trace)
    ensures var s := trace[|trace| - 1];
            && Stops(s.log) <= 1
            && (s.startup.StartupDone? && s.shutdown.ShutdownDone?
                && Count(s.log, SetStartedCalled(false)) + Count(s.log, SetStartedCalled(true)) > 0 ==>
                  Stops(s.log) == 1)
            && (Count(s.log, SetStartedCalled(false)) + Count(s.log, SetStartedCalled(true)) == 0 ==>
                  Stops(s.log) == 0)
  {
    RunInv(trace);
  }

  /** Drain runs only if the server was started before shutdown began, and clients are let in only if
      shutdown had not begun when the server was started. */
  lemma DrainAndAcceptOnlyAfterStart(trace: seq<State>, i: nat)
    requires IsRun(trace) && i < |trace[|trace| - 1].log|
    ensures var log := trace[|trace| - 1].log;
            && (log[i].DrainCalled? ==> StartedFirst(log[..i]) && Count(log[..i], ShutdownBegan) == 1)
            && (log[i].InternalClientsAccepted? || log[i].ClientsAccepted? ==> StartedFirst(log[..i]))
  {
    RunInv(trace);
    assert MayFollow(trace[|trace| - 1].log[..i], trace[|trace| - 1].log[i]);
  }

  /** When the shutdown goroutine stops the server, it has drained it exactly if the cause was a signal or a
      request of the server, and not an error of the startup. When the startup goroutine stops it, shutdown had
      begun before setStarted, and nothing was drained. */
  lemma StopFollowsDrainIffAsked(trace: seq<State>, i: nat)
    requires IsRun(trace) && i < |trace[|trace| - 1].log|
    ensures var log := trace[|trace| - 1].log;
            && (log[i] == StopCalled(ShutdownGoroutine) ==>
                  && StartedFirst(log[..i])
                  && (DrainCalled in log[..i] <==>
                        ShutdownCaused(BySignal) in log[..i] || ShutdownCaused(ByRequest(ServerRequest)) in log[..i]))
            && (log[i] == StopCalled(StartupGoroutine) ==>
                  SetStartedCalled(true) in log[..i] && Count(log[..i], ShutdownBegan) == 1 && DrainCalled !in log[..i])
  {
    RunInv(trace);
    assert MayFollow(trace[|trace| - 1].log[..i], trace[|trace| - 1].log[i]);
  }

  /** There is one cause of a shutdown, known from the moment the main goroutine stops waiting for one. */
  lemma OneCause(trace: seq<State>) returns (cause: Cause)
    requires IsRun(trace)
    ensures var s := trace[|trace| - 1];
            forall other :: ShutdownCaused(other) in s.log <==> !s.waiter.WaitingForRequest? && other == cause
  {
    RunInv(trace);
    var s := trace[|trace| - 1];
    cause :| Consistent(s, cause);
    forall other
      ensures ShutdownCaused(other) in s.log <==> !s.shutdown.NotSpawned? && other == cause
    {
      CauseIsLogged(s, cause, other);
    }
  }

  /** What the startup goroutine did, by where it is: a server that runs has gone through all calls in order, each
      without an error; a failed startup ends with its first error; one that met a shutdown went no further. */
  lemma StartupIsInOrder(trace: seq<State>)
    requires IsRun(trace)
    ensures var s := trace[|trace| - 1];
            var told := Told(s.log, true);
            && (s.startup == StartupDone(Running) ==>
                  told == [Created(true), ShutdownChecked(false), PreStarted(true), SetStartedCalled(false),
                           InternalClientsAccepted(true), InitialSQLRun(true), ClientsAccepted(true), InfoReported(true)])
            && (s.startup.ReportingError? || s.startup == StartupDone(Failed) ==> FailedStartup(told))
            && (s.startup == StartupDone(FoundShutdown) ==> told == [Created(true), ShutdownChecked(true)])
            && (s.startup == StartupDone(StoppedItself) ==>
                  told == [Created(true), ShutdownChecked(false), PreStarted(true), SetStartedCalled(true),
                           StopCalled(StartupGoroutine)])
  {
    RunInv(trace);
    var s := trace[|trace| - 1];
    var cause :| Consistent(s, cause);
    StartupInFull(s.startup, Told(s.log, true));
  }

  lemma StartupInFull(startup: Startup, told: seq<Event>)
    requires StartupTold(startup, told)
    ensures startup == StartupDone(Running) ==>
              told == [Created(true), ShutdownChecked(false), PreStarted(true), SetStartedCalled(false),
                       InternalClientsAccepted(true), InitialSQLRun(true), ClientsAccepted(true), InfoReported(true)]
    ensures startup.ReportingError? || startup == StartupDone(Failed) ==> FailedStartup(told)
    ensures startup == StartupDone(FoundShutdown) ==> told == [Created(true), ShutdownChecked(true)]
    ensures startup == StartupDone(StoppedItself) ==>
              told == [Created(true), ShutdownChecked(false), PreStarted(true), SetStartedCalled(true),
                       StopCalled(StartupGoroutine)]
  {
  }

  /** A failed startup is never forgotten: its request is waiting, was the cause of the shutdown, or came second to
      a signal. And a shutdown is put down to a request only if it was sent. */
  lemma RequestsAreMeant(trace: seq<State>)
    requires IsRun(trace)
    ensures var s := trace[|trace| - 1];
            && (s.startup == StartupDone(Failed) <==>
                  StartupError in s.requests || ShutdownCaused(ByRequest(StartupError)) in s.log)
            && (ServerRequest in s.requests || ShutdownCaused(ByRequest(ServerRequest)) in s.log ==>
                  s.watcher.WatcherDone?)
  {
    RunInv(trace);
    var s := trace[|trace| - 1];
    var cause :| Consistent(s, cause);
    CauseIsLogged(s, cause, ByRequest(StartupError));
    CauseIsLogged(s, cause, ByRequest(ServerRequest));
  }

  /** The startup goroutine is never blocked, and once a shutdown is under way either the shutdown
      goroutine or the waiting main goroutine can go on. */
  lemma NobodyIsStuck(trace: seq<State>)
    requires IsRun(trace)
    ensures var s := trace[|trace| - 1];
            && (s.startup.StartupDone? || exists step :: Enabled(s, step) && Apply(s, step).startup != s.startup)
            && (s.waiter.WaitingForStop? ==>
                  exists step :: Enabled(s, step) && (step.BeginShutdown? || step.Drain? || step.Stop? || step.Return?))
  {
    RunInv(trace);
    var s := trace[|trace| - 1];
    var step := match s.startup
      case Instantiating => NewServer(true)
      case CheckingShutdown => CheckShutdown
      case PreStarting => PreStart(true)
      case SettingStarted => SetStarted
      case StoppingItself => StopItself
      case AcceptingInternal => AcceptInternalClients(true)
      case RunningInitialSQL => RunInitialSQL(true)
      case AcceptingClients => AcceptClients(true)
      case Reporting => ReportInfo(true)
      case ReportingError => ReportError
      case StartupDone(_) => ReportError;
    assert s.startup.StartupDone? || (Enabled(s, step) && Apply(s, step).startup != s.startup);
    if s.waiter.WaitingForStop? {
      var next := match s.shutdown
        case Draining => Drain
        case Stopping => Stop
        case ShutdownDone(_) => Return
        case _ => BeginShutdown;
      assert Enabled(s, next);
    }
  }

  // ---------- Every shutdown comes to its end ----------

  function StartupWork(startup: Startup): nat
  {
    match startup
    case Instantiating => 10
    case CheckingShutdown => 9
    case PreStarting => 8
    case SettingStarted => 7
    case StoppingItself => 6
    case AcceptingInternal => 6
    case RunningInitialSQL => 5
    case AcceptingClients => 4
    case Reporting => 3
    case ReportingError => 2
    case StartupDone(_) => 0
  }

  function WatcherWork(watcher: Watcher): nat
  {
    match watcher
    case NotWatching => 3
    case Watching => 2
    case Requesting => 1
    case WatcherDone => 0
  }

  function ShutdownWork(shutdown: Shutdown): nat
  {
    match shutdown
    case NotSpawned => 4
    case Requested(_) => 3
    case Draining => 2
    case Stopping => 1
    case ShutdownDone(_) => 0
  }

  function WaiterWork(waiter: Waiter): nat
  {
    match waiter
    case WaitingForRequest => 2
    case WaitingForStop => 1
    case Returned => 0
  }

  /** How many steps of all goroutines together can still follow, at most. */
  function Work(s: State): nat
  {
    StartupWork(s.startup) + WatcherWork(s.watcher) + ShutdownWork(s.shutdown) + WaiterWork(s.waiter)
  }

  lemma StartupIsProgress(s: State, step: Step)
    requires Ownership(s) && Enabled(s, step) && StartsUp(step)
    ensures Work(Apply(s, step)) < Work(s)
  {
    var s' := Apply(s, step);
    assert s'.shutdown == s.shutdown && s'.waiter == s.waiter && s.watcher == NotWatching;
    assert StartupWork(s'.startup) < StartupWork(s.startup) && WatcherWork(s'.watcher) <= WatcherWork(s.watcher);
  }

  lemma OtherIsProgress(s: State, step: Step)
    requires Ownership(s) && Enabled(s, step) && !StartsUp(step)
    ensures Work(Apply(s, step)) < Work(s)
  {
    assert Apply(s, step).startup == s.startup;
  }

  lemma StepIsProgress(s: State, step: Step)
    requires Ownership(s) && Enabled(s, step)
    ensures Work(Apply(s, step)) < Work(s)
    ensures s.log <= Apply(s, step).log
  {
    if StartsUp(step) {
      StartupIsProgress(s, step);
    } else {
      OtherIsProgress(s, step);
    }
    var e := Logs(s, step);
  }

  /** waitForShutdown returns only after the shutdown goroutine has come to its end; it used the stopper exactly
      if the server had been started, and then the stopper was stopped once. */
  lemma ReturnedMeansShutDown(s: State)
    requires Inv(s) && s.waiter.Returned?
    ensures s.shutdown == ShutdownDone(s.status.started)
    ensures s.stopped || s.stopWithoutDrain
    ensures s.status.started ==> s.stopped && Stops(s.log) == 1
    ensures DrainCalled in s.log <==> s.status.started && WantsDrain(s.log)
  {
    var cause :| Consistent(s, cause);
    DrainIsLogged(s, cause);
    DrainingIsLogged(s, cause);
  }

  /** The calls of setStarted that are logged. */
  lemma StartedIsLogged(s: State)
    requires Inv(s)
    ensures SetStartedCalled(false) in s.log <==> s.status.started
  {
    CountIn(s.log, SetStartedCalled(false));
  }

  lemma {:induction false} CountIn(log: seq<Event>, event: Event)
    ensures event in log <==> Count(log, event) > 0
  {
    if log != [] {
      assert log == log[..|log| - 1] + [log[|log| - 1]];
      CountIn(log[..|log| - 1], event);
    }
  }

  /** Lets the scheduler choose the steps until waitForShutdown has returned, which it always does. */
  ghost function UntilReturned(s: State, scheduler: State -> Step): (end: State)
    requires Inv(s)
    requires forall t :: Inv(t) && !t.waiter.Returned? ==> Enabled(t, scheduler(t))
    ensures Inv(end) && end.waiter.Returned?
    ensures s.log <= end.log
    ensures end.shutdown == ShutdownDone(end.status.started)
    ensures end.status.started ==> end.stopped && Stops(end.log) == 1
    ensures DrainCalled in end.log <==>
            && SetStartedCalled(false) in end.log
            && (ShutdownCaused(BySignal) in end.log || ShutdownCaused(ByRequest(ServerRequest)) in end.log)
    decreases Work(s)
  {
    if s.waiter.Returned? then
      ReturnedMeansShutDown(s);
      StartedIsLogged(s);
      s
    else
      StepKeepsInv(s, scheduler(s));
      StepIsProgress(s, scheduler(s));
      UntilReturned(Apply(s, scheduler(s)), scheduler)
  }
}
