/** What the steps of the connection manager achieve, and runs in which connecting and running succeed. */
module RouteProgress {
  import opened Basics
  import opened RouteState
  import opened RouteProtocol
  import opened RouteSafety

  // ------------------------------------------------------------------ single steps

  /** A shutdown has not begun, and the platform is free or the candidate's. */
  ghost predicate MayPublish(sh: Shared, candidate: Route) {
    !sh.shuttingDown && (sh.platform.None? || sh.platform == Some(candidate.platform))
  }

  /** A publication is recorded exactly when the candidate is in the slot afterwards, and that is when it may be. */
  lemma PublicationFillsTheSlot(config: Config, s: State, id: TaskId, s': State)
    requires Reachable(config, s) && Apply(config, s, PublishCandidate(id)) == Some(s')
    ensures
      var c := At(s, id).candidate;
      && (s'.history.published == s.history.published + [c] <==> s'.shared.session == Some(c))
      && (s'.shared.session == Some(c) <==> MayPublish(s.shared, c))
      && (s'.history.published == s.history.published <==> s'.shared.session == s.shared.session)
      && (MayPublish(s.shared, c) ==> s'.shared.platform == Some(c.platform))
  {
    ReachableInv(config, s);
    var c := At(s, id).candidate;
    assert TaskOk(config, s.shared, s.history, s.tasks[id]);
    assert |s.history.published + [c]| == |s.history.published| + 1;
  }

  /** A finished elevation is stored exactly when its route is still current and no shutdown has begun. */
  lemma ElevationIsStored(config: Config, s: State, id: TaskId, s': State)
    requires Apply(config, s, ElevateStore(id)) == Some(s')
    ensures
      var t := At(s, id);
      if !s.shared.shuttingDown && IsCurrent(s.shared, t.generation)
      then s'.shared.isElevated && s'.shared.suGeneration == t.generation && s'.shared.suChannel == Some(t.channel)
      else s'.shared == s.shared
  {
  }

  /** Borrowing the su channel and giving it back while nothing else happens restores the shared state. */
  lemma BorrowAndReturn(config: Config, s: State, id: TaskId)
    requires At(s, id).SuStart? && !s.shared.shuttingDown
    requires s.shared.suChannel.Some? && IsCurrent(s.shared, s.shared.suGeneration)
    ensures
      var taken := Apply(config, s, SuTake(id, false));
      && taken.Some?
      && At(taken.value, id) == SuBorrowed(s.shared.suGeneration, s.shared.suChannel.value)
      && taken.value.shared.suChannel.None?
      && var back := Apply(config, taken.value, SuRestore(id, false));
         back.Some? && back.value.shared == s.shared
  {
    var taken := Apply(config, s, SuTake(id, false)).value;
    assert At(taken, id) == SuBorrowed(s.shared.suGeneration, s.shared.suChannel.value);
  }

  /** A successful probe of the current, open route enters the health cache and ends the call. */
  lemma ProbeIsRemembered(config: Config, s: State, id: TaskId)
    requires At(s, id).ProbeOk? && IsCurrent(s.shared, At(s, id).generation)
    ensures
      var s' := Apply(config, s, MarkProbe(id, false));
      s'.Some? && s'.value.shared.lastProbeOk == Some(At(s, id).generation) && At(s'.value, id).Finished?
  {
  }

  /** A probe that comes back too late, to another or a closed route, is forgotten, and the call starts over. */
  lemma LateProbeStartsOver(config: Config, s: State, id: TaskId, closed: bool)
    requires At(s, id).ProbeOk? && (closed || !IsCurrent(s.shared, At(s, id).generation))
    ensures
      var s' := Apply(config, s, MarkProbe(id, closed));
      s'.Some? && s'.value.shared == s.shared && At(s'.value, id).EnsureStart?
  {
  }

  /** Invalidating whatever is there leaves nothing, and nothing else is touched. */
  lemma InvalidateAnyEmpties(config: Config, s: State)
    ensures
      var s' := Apply(config, s, InvalidateAny);
      && s'.Some?
      && s'.value.shared == s.shared.(session := None, suChannel := None, suGeneration := 0, isElevated := false, lastProbeOk := None)
      && s'.value.tasks == s.tasks && s'.value.history == s.history
  {
  }

  /** The calls that may begin at any time: to connect, to ensure a route, to elevate, to use su, and to run a command. */
  const CALLS: set<Task> := {ConnectStart, EnsureStart, AutoStart, ElevateStart(None), SuStart, RetryOpen(1)}

  /** Each of them begins without touching anything, and nothing else begins. */
  lemma CallsBegin(config: Config, s: State, id: TaskId, t: Task)
    requires id !in s.tasks
    ensures Apply(config, s, Spawn(id, t)) == if t in CALLS then Some(s.(tasks := s.tasks[id := t])) else None
  {
  }

  /** An owner looks before it dials: it lets go at once during shutdown and when an open route is already there. */
  lemma OwnerLooksFirst(config: Config, s: State, id: TaskId, closed: bool)
    requires At(s, id).OwnerCheck?
    ensures
      var s' := Apply(config, s, OwnerLook(id, closed));
      && s'.Some? && s'.value.shared == s.shared
      && At(s'.value, id) == if s.shared.shuttingDown then OwnerRelease
                             else if s.shared.session.Some? && !closed then OwnerRelease else OwnerSlot
  {
  }

  // ------------------------------------------------------------------------- runs

  lemma RunCons(config: Config, s: State, e: Event, rest: seq<Event>, next: State)
    requires Apply(config, s, e) == Some(next)
    ensures Run(config, s, [e] + rest) == Run(config, next, rest)
  {
    assert ([e] + rest)[1..] == rest;
  }

  lemma {:induction false} RunConcat(config: Config, s: State, a: seq<Event>, b: seq<Event>)
    requires Run(config, s, a).Some?
    ensures Run(config, s, a + b) == Run(config, Run(config, s, a).value, b)
    decreases |a|
  {
    if a == [] {
      assert a + b == b;
    } else {
      var next := Apply(config, s, a[0]).value;
      assert (a + b)[0] == a[0] && (a + b)[1..] == a[1..] + b;
      RunConcat(config, next, a[1..], b);
    }
  }

  /** The steps by which a task takes the owner flag and gets rid of a closed route. */
  function TakeOver(id: TaskId, stale: bool): seq<Event> {
    [CompareExchange(id)] + ([OwnerLook(id, true)] + ([OwnerReadStale(id)] + if stale then [OwnerInvalidate(id)] else []))
  }

  /** What is left when the owner has got as far as dialling. */
  ghost predicate Dialling(s: State, s': State, id: TaskId) {
    && s'.shared == s.shared.(isConnecting := true, session := None,
                              suChannel := if s.shared.session.Some? then None else s.shared.suChannel,
                              suGeneration := if s.shared.session.Some? then 0 else s.shared.suGeneration,
                              isElevated := if s.shared.session.Some? then false else s.shared.isElevated,
                              lastProbeOk := if s.shared.session.Some? then None else s.shared.lastProbeOk)
    && s'.tasks == s.tasks[id := OwnerDial] && s'.history == s.history
  }

  lemma TakeOverDials(config: Config, s: State, id: TaskId)
    requires At(s, id).ConnectStart? && !s.shared.isConnecting && !s.shared.shuttingDown
    ensures
      var r := Run(config, s, TakeOver(id, s.shared.session.Some?));
      r.Some? && Dialling(s, r.value, id)
  {
    var stale := s.shared.session.Some?;
    var s1 := Apply(config, s, CompareExchange(id)).value;
    var s2 := Apply(config, s1, OwnerLook(id, true)).value;
    var s3 := Apply(config, s2, OwnerReadStale(id)).value;
    var last := if stale then [OwnerInvalidate(id)] else [];
    RunCons(config, s, CompareExchange(id), [OwnerLook(id, true)] + ([OwnerReadStale(id)] + last), s1);
    RunCons(config, s1, OwnerLook(id, true), [OwnerReadStale(id)] + last, s2);
    RunCons(config, s2, OwnerReadStale(id), last, s3);
    if stale {
      var s4 := Apply(config, s3, OwnerInvalidate(id)).value;
      assert last == [OwnerInvalidate(id)] + [];
      RunCons(config, s3, OwnerInvalidate(id), [], s4);
      assert s4.tasks == s.tasks[id := OwnerDial];
    } else {
      assert s3.tasks == s.tasks[id := OwnerDial];
    }
  }

  /** The steps by which an authenticated peer becomes the route, and the owner lets go. */
  function Succeed(id: TaskId, platform: Platform): seq<Event> {
    [Authenticated(id, platform)] + ([PublishCandidate(id)] + ([Stop(id)] + []))
  }

  lemma SucceedPublishes(config: Config, s: State, id: TaskId, platform: Platform)
    requires At(s, id).OwnerDial? && id in s.tasks && ElevationAllowed(config, platform)
    requires MayPublish(s.shared, Route(s.shared.nextGeneration, platform, false))
    ensures
      var r := Run(config, s, Succeed(id, platform));
      var route := Route(s.shared.nextGeneration, platform, false);
      && r.Some? && r.value.shared.session == Some(route) && !r.value.shared.isConnecting
      && r.value.shared.platform == Some(platform)
      && r.value.history.published == s.history.published + [route]
  {
    var s1 := Apply(config, s, Authenticated(id, platform)).value;
    var s2 := Apply(config, s1, PublishCandidate(id)).value;
    var s3 := Apply(config, s2, Stop(id)).value;
    RunCons(config, s, Authenticated(id, platform), [PublishCandidate(id)] + ([Stop(id)] + []), s1);
    RunCons(config, s1, PublishCandidate(id), [Stop(id)] + [], s2);
    RunCons(config, s2, Stop(id), [], s3);
  }

  /**
   Connecting works: a contender that meets a free flag, no shutdown, and no route or a closed one, and whose peer
   authenticates with an admissible platform, ends with its own fresh route in the slot and the flag free again.
   */
  lemma ConnectSucceeds(config: Config, s: State, id: TaskId, platform: Platform)
    requires At(s, id).ConnectStart? && !s.shared.isConnecting
    requires ElevationAllowed(config, platform)
    requires MayPublish(s.shared, Route(s.shared.nextGeneration, platform, false))
    ensures
      var r := Run(config, s, TakeOver(id, s.shared.session.Some?) + Succeed(id, platform));
      var route := Route(s.shared.nextGeneration, platform, false);
      && r.Some? && r.value.shared.session == Some(route) && !r.value.shared.isConnecting
      && r.value.history.published == s.history.published + [route]
  {
    var stale := s.shared.session.Some?;
    TakeOverDials(config, s, id);
    var s1 := Run(config, s, TakeOver(id, stale)).value;
    RunConcat(config, s, TakeOver(id, stale), Succeed(id, platform));
    SucceedPublishes(config, s1, id, platform);
  }

  /** Running works: on a published route a retrying call whose open and EXEC succeed enqueues its command once. */
  lemma CommandRuns(config: Config, s: State, id: TaskId)
    requires At(s, id) == RetryOpen(1) && !s.shared.shuttingDown && s.shared.session.Some?
    requires Enqueued(s, id) == 0
    ensures
      var r := Run(config, s, [OpenOk(id)] + ([ExecOk(id)] + []));
      && r.Some? && Enqueued(r.value, id) == 1
      && At(r.value, id) == Running(s.shared.session.value.generation) && r.value.shared == s.shared
  {
    var s1 := Apply(config, s, OpenOk(id)).value;
    var s2 := Apply(config, s1, ExecOk(id)).value;
    RunCons(config, s, OpenOk(id), [ExecOk(id)] + [], s1);
    RunCons(config, s1, ExecOk(id), [], s2);
  }

  /** One failure before EXEC is retried once, on whatever route is there then; a second one ends the call. */
  lemma FailureIsRetriedOnce(config: Config, s: State, id: TaskId, generation: nat)
    requires At(s, id) == RetryExec(1, generation)
    ensures
      var r := Run(config, s, [ExecFail(id)] + ([RetryInvalidate(id)] + ([Reconnected(id)] + [])));
      && r.Some? && At(r.value, id) == RetryOpen(2)
      && !IsCurrent(r.value.shared, generation)
      && Enqueued(r.value, id) == Enqueued(s, id)
  {
    var s1 := Apply(config, s, ExecFail(id)).value;
    var s2 := Apply(config, s1, RetryInvalidate(id)).value;
    var s3 := Apply(config, s2, Reconnected(id)).value;
    RunCons(config, s, ExecFail(id), [RetryInvalidate(id)] + ([Reconnected(id)] + []), s1);
    RunCons(config, s1, RetryInvalidate(id), [Reconnected(id)] + [], s2);
    RunCons(config, s2, Reconnected(id), [], s3);
  }

  /** A failed open counts like a failed EXEC: the first one is retried, and in the second attempt either ends the call. */
  lemma SecondFailureEnds(config: Config, s: State, id: TaskId, e: Event, s': State)
    requires At(s, id).RetryOpen? || At(s, id).RetryExec?
    requires (e.ExecFail? || e.OpenFail?) && e.id == id
    requires Apply(config, s, e) == Some(s')
    ensures s'.shared == s.shared
    ensures At(s', id).Finished? <==> At(s, id).attempt >= 2
    ensures At(s, id).attempt < 2 ==> At(s', id).RetryFailed?
  {
  }

  // ----------------------------------------------------------- probes, elevation, ends

  /** The generation whose failure the step handles. */
  function FailedGeneration(s: State, e: Event): Option<nat> {
    match e
    case EnsureInvalidate(id) => if At(s, id).ProbeFailed? then Some(At(s, id).generation) else None
    case SuBreak(id) => if At(s, id).SuBorrowed? then Some(At(s, id).generation) else None
    case RetryInvalidate(id) => if At(s, id).RetryFailed? then At(s, id).captured else None
    case RunFail(id) => if At(s, id).Running? then Some(At(s, id).generation) else None
    case OwnerInvalidate(id) => if At(s, id).OwnerStale? then Some(At(s, id).stale) else None
    case _ => None
  }

  /** A failed probe, a broken su channel, a failed open or EXEC, a failed run and a closed route empty their own slot. */
  lemma EveryFailureForgetsItsRoute(config: Config, s: State, e: Event, s': State)
    requires Apply(config, s, e) == Some(s') && FailedGeneration(s, e).Some?
    ensures
      if IsCurrent(s.shared, FailedGeneration(s, e).value)
      then s'.shared == s.shared.(session := None, suChannel := None, suGeneration := 0, isElevated := false, lastProbeOk := None)
      else s'.shared == s.shared
  {
  }

  /** A failed elevation, or su shell, resets the su state of its own route and leaves the route. */
  lemma FailedElevationKeepsTheRoute(config: Config, s: State, id: TaskId, s': State)
    requires Apply(config, s, ElevateFail(id)) == Some(s')
    ensures
      if IsCurrent(s.shared, At(s, id).generation)
      then s'.shared == s.shared.(suChannel := None, suGeneration := 0, isElevated := false)
      else s'.shared == s.shared
  {
  }

  /** Probing works: an open POSIX route that answers its probe is remembered as healthy; one that fails it is gone. */
  lemma ProbeDecidesHealth(config: Config, s: State, id: TaskId, ok: bool)
    requires At(s, id).EnsureStart? && !s.shared.shuttingDown
    requires s.shared.session.Some? && s.shared.session.value.platform.Posix?
    ensures
      var r := Run(config, s, [EnsureLook(id, false)] + ([ProbeResult(id, ok)]
                              + ([if ok then MarkProbe(id, false) else EnsureInvalidate(id)] + [])));
      && r.Some?
      && (if ok then r.value.shared == s.shared.(lastProbeOk := Some(s.shared.session.value.generation)) && At(r.value, id).Finished?
          else r.value.shared.session.None? && r.value.shared.lastProbeOk.None? && At(r.value, id).EnsureStart?)
  {
    var last := if ok then MarkProbe(id, false) else EnsureInvalidate(id);
    var s1 := Apply(config, s, EnsureLook(id, false)).value;
    var s2 := Apply(config, s1, ProbeResult(id, ok)).value;
    var s3 := Apply(config, s2, last).value;
    RunCons(config, s, EnsureLook(id, false), [ProbeResult(id, ok)] + ([last] + []), s1);
    RunCons(config, s1, ProbeResult(id, ok), [last] + [], s2);
    RunCons(config, s2, last, [], s3);
  }

  /** A native device is never probed, and a closed route is given up without a probe. */
  lemma NoProbeWhereNone(config: Config, s: State, id: TaskId, closed: bool)
    requires At(s, id).EnsureStart? && !s.shared.shuttingDown && s.shared.session.Some?
    requires s.shared.session.value.platform.Routeros? || closed
    ensures
      var s' := Apply(config, s, EnsureLook(id, closed));
      && s'.Some? && s'.value.shared == s.shared
      && At(s'.value, id) == if closed then ProbeFailed(s.shared.session.value.generation) else Finished
  {
  }

  /** Elevating works: a route that was never tried is claimed, and its shell is stored under its generation. */
  lemma ElevationSucceeds(config: Config, s: State, id: TaskId)
    requires At(s, id).AutoStart? && config.suPassword && !s.shared.shuttingDown
    requires s.shared.session.Some? && !s.shared.session.value.autoAttempted
    ensures
      var route := s.shared.session.value;
      var r := Run(config, s, [AutoClaim(id)] + ([ElevateOpen(id)] + ([ElevateStore(id)] + [])));
      && r.Some? && r.value.history.autoClaims == s.history.autoClaims + [route.generation]
      && r.value.shared == s.shared.(session := Some(route.(autoAttempted := true)),
                                     suChannel := Some(Channel(route.generation)), suGeneration := route.generation,
                                     isElevated := true)
  {
    var s1 := Apply(config, s, AutoClaim(id)).value;
    var s2 := Apply(config, s1, ElevateOpen(id)).value;
    var s3 := Apply(config, s2, ElevateStore(id)).value;
    RunCons(config, s, AutoClaim(id), [ElevateOpen(id)] + ([ElevateStore(id)] + []), s1);
    RunCons(config, s1, ElevateOpen(id), [ElevateStore(id)] + [], s2);
    RunCons(config, s2, ElevateStore(id), [], s3);
  }

  /** Closing works: it leaves no route, channel, elevation or cache entry, whatever was there. */
  lemma CloseEmptiesEverything(config: Config, s: State)
    ensures
      var r := Run(config, s, [BeginClose] + ([CloseLocked] + []));
      && r.Some? && r.value.history.closeDone && r.value.shared.shuttingDown
      && r.value.shared.session.None? && r.value.shared.suChannel.None? && r.value.shared.suGeneration == 0
      && !r.value.shared.isElevated && r.value.shared.lastProbeOk.None?
      && r.value.tasks == s.tasks
  {
    var s1 := Apply(config, s, BeginClose).value;
    var s2 := Apply(config, s1, CloseLocked).value;
    RunCons(config, s, BeginClose, [CloseLocked] + [], s1);
    RunCons(config, s1, CloseLocked, [], s2);
  }

  /** Clearing the su password takes the channel, and when it completes also generation and elevation. */
  lemma ClearedPasswordLeavesNoSu(config: Config, s: State, completed: bool)
    ensures
      var s' := Apply(config, s, ClearSuPassword(completed));
      && s'.Some? && s'.value.shared.suChannel.None? && s'.value.shared.session == s.shared.session
      && (completed ==> s'.value.shared.suGeneration == 0 && !s'.value.shared.isElevated)
      && (!completed ==> s'.value.shared == s.shared.(suChannel := None))
  {
  }

  /** However an owner ends, cancelled or done, the flag is free; any other task leaves the shared state as it is. */
  lemma EndFreesTheFlag(config: Config, s: State, id: TaskId)
    requires id in s.tasks
    ensures
      var s' := Apply(config, s, Stop(id));
      && s'.Some? && At(s'.value, id).Finished?
      && s'.value.shared == if IsOwner(At(s, id)) then s.shared.(isConnecting := false) else s.shared
  {
  }
}
