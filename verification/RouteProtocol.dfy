/**
 The connection manager as a concurrent protocol. A task is at one of the
 program points at which it can be suspended or cancelled; an event is one
 locked block (or one atomic flag access) run by one task, together with the
 answers the outside world gives it. A run is any sequence of events.
 */
module RouteProtocol {
  import opened Basics
  import opened RouteState

  datatype Task =
    // connect_transport_only
    | ConnectStart
    | ConnectWaiting
    | OwnerCheck
    | OwnerSlot
    | OwnerStale(stale: nat)
    | OwnerDial
    | OwnerCandidate(candidate: Route)
    | OwnerRelease
    // ensure_transport_inner
    | EnsureStart
    | Probing(generation: nat)
    | ProbeOk(generation: nat)
    | ProbeFailed(generation: nat)
    // initialize_auto_elevation and ensure_elevated_for_generation
    | AutoStart
    | ElevateStart(expected: Option<nat>)
    | Elevating(generation: nat, channel: Channel)
    // exec_via_su_shell
    | SuStart
    | SuBorrowed(generation: nat, channel: Channel)
    // open_and_exec_with_reconnect_retry and its background twin
    | RetryOpen(attempt: nat)
    | RetryExec(attempt: nat, generation: nat)
    | RetryFailed(captured: Option<nat>)
    | RetryReconnect
    | Running(generation: nat)
    | Finished

  predicate IsOwner(t: Task) {
    t.OwnerCheck? || t.OwnerSlot? || t.OwnerStale? || t.OwnerDial? || t.OwnerCandidate? || t.OwnerRelease?
  }

  /** Points before the command of a retrying call has been enqueued. */
  predicate IsPreExec(t: Task) {
    t.RetryOpen? || t.RetryExec? || t.RetryFailed? || t.RetryReconnect?
  }

  predicate IsEntry(t: Task) {
    || t.ConnectStart? || t.EnsureStart? || t.AutoStart? || t == ElevateStart(None) || t.SuStart?
    || t == RetryOpen(1)
  }

  type TaskId = nat

  /** What has happened so far; nothing in the protocol reads it. */
  datatype History = History(
    published: seq<Route>,
    enqueued: map<TaskId, nat>,
    autoClaims: seq<nat>,
    closeDone: bool)

  datatype State = State(shared: Shared, tasks: map<TaskId, Task>, history: History)

  const START := State(INITIAL, map[], History([], map[], [], false))

  datatype Event =
    | Spawn(id: TaskId, entry: Task)
    | Stop(id: TaskId)                             // returns or is cancelled: the guard drops
    | CompareExchange(id: TaskId)
    | OwnerLook(id: TaskId, closed: bool)
    | OwnerReadStale(id: TaskId)
    | OwnerInvalidate(id: TaskId)
    | Authenticated(id: TaskId, platform: Platform)
    | PublishCandidate(id: TaskId)
    | EnsureLook(id: TaskId, closed: bool)
    | ProbeResult(id: TaskId, ok: bool)
    | EnsureInvalidate(id: TaskId)
    | MarkProbe(id: TaskId, closed: bool)
    | AutoClaim(id: TaskId)
    | ElevateOpen(id: TaskId)
    | ElevateStore(id: TaskId)
    | ElevateFail(id: TaskId)
    | SuTake(id: TaskId, closed: bool)
    | SuRestore(id: TaskId, closed: bool)
    | SuBreak(id: TaskId)
    | OpenOk(id: TaskId)
    | OpenFail(id: TaskId, captured: bool)
    | ExecOk(id: TaskId)
    | ExecFail(id: TaskId)
    | RetryInvalidate(id: TaskId)
    | Reconnected(id: TaskId)
    | RunFail(id: TaskId)
    | ClearSuPassword(completed: bool)
    | InvalidateAny
    | BeginClose
    | CloseLocked

  function At(s: State, id: TaskId): Task {
    if id in s.tasks then s.tasks[id] else Finished
  }

  function Put(s: State, id: TaskId, t: Task): State {
    s.(tasks := s.tasks[id := t])
  }

  function PutShared(s: State, sh: Shared, id: TaskId, t: Task): State {
    s.(shared := sh, tasks := s.tasks[id := t])
  }

  function Enqueued(s: State, id: TaskId): nat {
    if id in s.history.enqueued then s.history.enqueued[id] else 0
  }

  /** Ending a task drops its connect guard, which clears the owner flag. */
  function StopTask(s: State, id: TaskId): State {
    var sh := if IsOwner(At(s, id)) then s.shared.(isConnecting := false) else s.shared;
    PutShared(s, sh, id, Finished)
  }

  function ApplyConnect(config: Config, s: State, e: Event): Option<State> {
    var sh := s.shared;
    match e
    case CompareExchange(id) =>
      if !At(s, id).ConnectStart? then None
      else if sh.isConnecting then Some(Put(s, id, ConnectWaiting))
      else Some(PutShared(s, sh.(isConnecting := true), id, OwnerCheck))
    case OwnerLook(id, closed) =>
      if !At(s, id).OwnerCheck? then None
      else if sh.shuttingDown || (sh.session.Some? && !closed) then Some(Put(s, id, OwnerRelease))
      else Some(Put(s, id, OwnerSlot))
    case OwnerReadStale(id) =>
      if !At(s, id).OwnerSlot? then None
      else Some(Put(s, id, if sh.session.Some? then OwnerStale(sh.session.value.generation) else OwnerDial))
    case OwnerInvalidate(id) =>
      var t := At(s, id);
      if !t.OwnerStale? then None
      else Some(PutShared(s, Invalidate(sh, Some(t.stale)), id, OwnerDial))
    case Authenticated(id, platform) =>
      if !At(s, id).OwnerDial? then None
      else if !ElevationAllowed(config, platform) then Some(Put(s, id, OwnerRelease))
      else
        var candidate := Route(sh.nextGeneration, platform, false);
        Some(PutShared(s, sh.(nextGeneration := sh.nextGeneration + 1), id, OwnerCandidate(candidate)))
    case PublishCandidate(id) =>
      var t := At(s, id);
      if !t.OwnerCandidate? then None
      else
        var (sh1, published) := Publish(sh, t.candidate);
        var s1 := PutShared(s, sh1, id, OwnerRelease);
        Some(if published
             then s1.(history := s1.history.(published := s1.history.published + [t.candidate]))
             else s1)
    case _ => None
  }

  function ApplyEnsure(s: State, e: Event): Option<State> {
    var sh := s.shared;
    match e
    case EnsureLook(id, closed) =>
      if !At(s, id).EnsureStart? then None
      else if sh.shuttingDown || sh.session.None? then Some(Put(s, id, Finished))
      else if closed then Some(Put(s, id, ProbeFailed(sh.session.value.generation)))
      else if sh.session.value.platform.Routeros? then Some(Put(s, id, Finished))
      else Some(Put(s, id, Probing(sh.session.value.generation)))
    case ProbeResult(id, ok) =>
      var t := At(s, id);
      if !t.Probing? then None
      else Some(Put(s, id, if ok then ProbeOk(t.generation) else ProbeFailed(t.generation)))
    case EnsureInvalidate(id) =>
      var t := At(s, id);
      if !t.ProbeFailed? then None
      else Some(PutShared(s, Invalidate(sh, Some(t.generation)), id, EnsureStart))
    case MarkProbe(id, closed) =>
      var t := At(s, id);
      if !t.ProbeOk? then None
      else
        var (sh1, marked) := MarkHealthy(sh, t.generation, closed);
        Some(PutShared(s, sh1, id, if marked then Finished else EnsureStart))
    case _ => None
  }

  function ApplySu(config: Config, s: State, e: Event): Option<State> {
    var sh := s.shared;
    match e
    case AutoClaim(id) =>
      if !At(s, id).AutoStart? || !config.suPassword then None
      else
        var (sh1, claimed) := ClaimAutoElevation(sh);
        if claimed.None? then Some(Put(s, id, Finished))
        else
          var s1 := PutShared(s, sh1, id, ElevateStart(claimed));
          Some(s1.(history := s1.history.(autoClaims := s1.history.autoClaims + [claimed.value])))
    case ElevateOpen(id) =>
      var t := At(s, id);
      if !t.ElevateStart? || !config.suPassword then None
      else if sh.shuttingDown || sh.session.None? then Some(Put(s, id, Finished))
      else
        var generation := sh.session.value.generation;
        if t.expected.Some? && t.expected.value != generation then Some(Put(s, id, Finished))
        else Some(Put(s, id, Elevating(generation, Channel(generation))))
    case ElevateStore(id) =>
      var t := At(s, id);
      if !t.Elevating? then None
      else Some(PutShared(s, StoreSu(sh, t.generation, t.channel), id, Finished))
    case ElevateFail(id) =>
      var t := At(s, id);
      if !t.Elevating? then None
      else Some(PutShared(s, ResetSu(sh, t.generation), id, Finished))
    case SuTake(id, closed) =>
      if !At(s, id).SuStart? then None
      else
        var (sh1, taken) := TakeSu(sh, closed);
        Some(PutShared(s, sh1, id, if taken.Some? then SuBorrowed(taken.value.0, taken.value.1) else Finished))
    case SuRestore(id, closed) =>
      var t := At(s, id);
      if !t.SuBorrowed? then None
      else Some(PutShared(s, RestoreSu(sh, t.generation, t.channel, closed), id, Finished))
    case SuBreak(id) =>
      var t := At(s, id);
      if !t.SuBorrowed? then None
      else Some(PutShared(s, Invalidate(sh, Some(t.generation)), id, Finished))
    case _ => None
  }

  function ApplyRetry(s: State, e: Event): Option<State> {
    var sh := s.shared;
    match e
    case OpenOk(id) =>
      var t := At(s, id);
      if !t.RetryOpen? || sh.shuttingDown || sh.session.None? then None
      else Some(Put(s, id, RetryExec(t.attempt, sh.session.value.generation)))
    case OpenFail(id, captured) =>
      var t := At(s, id);
      if !t.RetryOpen? then None
      else if t.attempt >= 2 then Some(Put(s, id, Finished))
      else
        var generation := if captured && sh.session.Some? then Some(sh.session.value.generation) else None;
        Some(Put(s, id, RetryFailed(generation)))
    case ExecOk(id) =>
      var t := At(s, id);
      if !t.RetryExec? then None
      else
        var s1 := Put(s, id, Running(t.generation));
        Some(s1.(history := s1.history.(enqueued := s1.history.enqueued[id := Enqueued(s, id) + 1])))
    case ExecFail(id) =>
      var t := At(s, id);
      if !t.RetryExec? then None
      else Some(Put(s, id, if t.attempt >= 2 then Finished else RetryFailed(Some(t.generation))))
    case RetryInvalidate(id) =>
      var t := At(s, id);
      if !t.RetryFailed? then None
      else
        var sh1 := if t.captured.Some? then Invalidate(sh, t.captured) else sh;
        Some(PutShared(s, sh1, id, RetryReconnect))
    case Reconnected(id) =>
      if !At(s, id).RetryReconnect? then None else Some(Put(s, id, RetryOpen(2)))
    case RunFail(id) =>
      var t := At(s, id);
      if !t.Running? then None
      else Some(PutShared(s, Invalidate(sh, Some(t.generation)), id, Finished))
    case _ => None
  }

  function ApplyAdmin(s: State, e: Event): Option<State> {
    match e
    case Spawn(id, entry) =>
      if id in s.tasks || !IsEntry(entry) then None else Some(Put(s, id, entry))
    case Stop(id) =>
      if id !in s.tasks then None else Some(StopTask(s, id))
    case ClearSuPassword(completed) => Some(s.(shared := ClearSu(s.shared, completed)))
    case InvalidateAny => Some(s.(shared := Invalidate(s.shared, None)))
    case BeginClose => Some(s.(shared := s.shared.(shuttingDown := true)))
    case CloseLocked =>
      if !s.shared.shuttingDown then None
      else Some(s.(shared := ForgetRoute(s.shared), history := s.history.(closeDone := true)))
    case _ => None
  }

  datatype Family = Connect | Ensure | Su | Retry | Admin

  function FamilyOf(e: Event): Family {
    match e
    case CompareExchange(_) | OwnerLook(_, _) | OwnerReadStale(_) | OwnerInvalidate(_)
       | Authenticated(_, _) | PublishCandidate(_) => Connect
    case EnsureLook(_, _) | ProbeResult(_, _) | EnsureInvalidate(_) | MarkProbe(_, _) => Ensure
    case AutoClaim(_) | ElevateOpen(_) | ElevateStore(_) | ElevateFail(_)
       | SuTake(_, _) | SuRestore(_, _) | SuBreak(_) => Su
    case OpenOk(_) | OpenFail(_, _) | ExecOk(_) | ExecFail(_)
       | RetryInvalidate(_) | Reconnected(_) | RunFail(_) => Retry
    case _ => Admin
  }

  /** One step; `None` when the event is not enabled. */
  function Apply(config: Config, s: State, e: Event): Option<State> {
    match FamilyOf(e)
    case Connect => ApplyConnect(config, s, e)
    case Ensure => ApplyEnsure(s, e)
    case Su => ApplySu(config, s, e)
    case Retry => ApplyRetry(s, e)
    case Admin => ApplyAdmin(s, e)
  }

  /** The state after a whole run, or `None` if some event was not enabled. */
  function Run(config: Config, s: State, events: seq<Event>): Option<State>
    decreases |events|
  {
    if events == [] then Some(s)
    else
      var next := Apply(config, s, events[0]);
      if next.None? then None else Run(config, next.value, events[1..])
  }

  ghost predicate Reachable(config: Config, s: State) {
    exists events :: Run(config, START, events) == Some(s)
  }
}
