/** The promises of the connection manager, for every reachable state and every run. */
module RouteTheorems {
  import opened Basics
  import opened RouteState
  import opened RouteProtocol
  import opened RouteSafety

  // ------------------------------------------------- elevation and health follow the route

  /**
   A stored su shell, the elevation flag and a health-cache entry always belong to
   the route that is published now, and they only ever exist on a POSIX route.
   */
  lemma ElevationAndHealthFollowRoute(config: Config, s: State)
    requires Reachable(config, s)
    ensures
      var sh := s.shared;
      && (sh.suChannel.Some? ==> sh.session.Some? && sh.suChannel.value.openedOn == sh.session.value.generation)
      && (sh.isElevated <==> sh.suGeneration != 0)
      && (sh.isElevated ==> sh.session.Some? && sh.suGeneration == sh.session.value.generation)
      && (sh.isElevated ==> sh.session.value.platform.Posix?)
      && (sh.lastProbeOk.Some? ==>
            && sh.session.Some?
            && sh.lastProbeOk.value == sh.session.value.generation
            && sh.session.value.platform.Posix?)
  {
    ReachableInv(config, s);
    InvKnowsCurrent(config, s);
  }

  // ------------------------------------------------------------------- connect owners

  /** At most one task owns the connection attempt, and the flag is up exactly while one does. */
  lemma OneConnectOwner(config: Config, s: State)
    requires Reachable(config, s)
    ensures forall a, b :: IsOwner(At(s, a)) && IsOwner(At(s, b)) ==> a == b
    ensures s.shared.isConnecting <==> exists a :: IsOwner(At(s, a))
  {
    ReachableInv(config, s);
    if s.shared.isConnecting {
      var a :| a in s.tasks && IsOwner(s.tasks[a]);
      assert IsOwner(At(s, a));
    }
  }

  /** Every publication finds the slot empty, so no step replaces one route by another. */
  lemma NoRouteIsOverwritten(config: Config, s: State, e: Event, s': State)
    requires Reachable(config, s) && Apply(config, s, e) == Some(s')
    ensures s'.history.published != s.history.published ==> e.PublishCandidate? && s.shared.session.None?
    ensures s.shared.session.Some? && s'.shared.session.Some? ==>
              s'.shared.session.value.generation == s.shared.session.value.generation
    ensures s.shared.session.None? && s'.shared.session.Some? ==>
              s'.history.published == s.history.published + [s'.shared.session.value]
  {
    ReachableInv(config, s);
    if e.PublishCandidate? {
      assert TaskOk(config, s.shared, s.history, s.tasks[e.id]);
    } else {
      OnlyPublicationAddsARoute(config, s, e, s');
    }
  }

  /** The published routes, the platform and the route in the slot stay what they are, or the slot empties. */
  ghost predicate AddsNoRoute(s: State, s': State) {
    && s'.history.published == s.history.published
    && s'.shared.platform == s.shared.platform
    && (s.history.closeDone ==> s'.history.closeDone)
    && (s'.shared.session.Some? ==>
          s.shared.session.Some? && s'.shared.session.value.generation == s.shared.session.value.generation)
  }

  lemma ConnectAddsNoRoute(config: Config, s: State, e: Event, s': State)
    requires ApplyConnect(config, s, e) == Some(s') && !e.PublishCandidate?
    ensures AddsNoRoute(s, s')
  {
  }

  lemma EnsureAddsNoRoute(s: State, e: Event, s': State)
    requires ApplyEnsure(s, e) == Some(s')
    ensures AddsNoRoute(s, s')
  {
  }

  lemma SuAddsNoRoute(config: Config, s: State, e: Event, s': State)
    requires ApplySu(config, s, e) == Some(s')
    ensures AddsNoRoute(s, s')
  {
  }

  lemma RetryAddsNoRoute(s: State, e: Event, s': State)
    requires ApplyRetry(s, e) == Some(s')
    ensures AddsNoRoute(s, s')
  {
  }

  lemma AdminAddsNoRoute(s: State, e: Event, s': State)
    requires ApplyAdmin(s, e) == Some(s')
    ensures AddsNoRoute(s, s')
  {
  }

  lemma OnlyPublicationAddsARoute(config: Config, s: State, e: Event, s': State)
    requires Apply(config, s, e) == Some(s') && !e.PublishCandidate?
    ensures AddsNoRoute(s, s')
  {
    match FamilyOf(e)
    case Connect => ConnectAddsNoRoute(config, s, e, s');
    case Ensure => EnsureAddsNoRoute(s, e, s');
    case Su => SuAddsNoRoute(config, s, e, s');
    case Retry => RetryAddsNoRoute(s, e, s');
    case Admin => AdminAddsNoRoute(s, e, s');
  }

  /** Over a whole run published generations strictly increase and are never forgotten. */
  lemma GenerationsStrictlyIncrease(config: Config, s: State, events: seq<Event>, s': State)
    requires Reachable(config, s) && Run(config, s, events) == Some(s')
    ensures s.history.published <= s'.history.published
    ensures Increasing(s'.history.published)
    ensures s'.shared.session.Some? ==>
              && s'.history.published != []
              && s'.shared.session.value.generation == s'.history.published[|s'.history.published| - 1].generation
  {
    ReachableInv(config, s);
    RunKeepsInv(config, s, events);
    RunKeepsHistory(config, s, events);
    InvKnowsCurrent(config, s');
  }

  // ----------------------------------------------------------- frozen platform, final close

  lemma StepKeepsHistory(config: Config, s: State, e: Event, s': State)
    requires Apply(config, s, e) == Some(s')
    ensures s.history.published <= s'.history.published
    ensures s.shared.platform.Some? ==> s'.shared.platform == s.shared.platform
    ensures s.history.closeDone ==> s'.history.closeDone
  {
    if !e.PublishCandidate? {
      OnlyPublicationAddsARoute(config, s, e, s');
    }
  }

  lemma {:induction false} RunKeepsHistory(config: Config, s: State, events: seq<Event>)
    requires Run(config, s, events).Some?
    ensures
      var s' := Run(config, s, events).value;
      && s.history.published <= s'.history.published
      && (s.shared.platform.Some? ==> s'.shared.platform == s.shared.platform)
      && (s.history.closeDone ==> s'.history.closeDone)
    decreases |events|
  {
    if events != [] {
      var s1 := Apply(config, s, events[0]).value;
      StepKeepsHistory(config, s, events[0], s1);
      RunKeepsHistory(config, s1, events[1..]);
    }
  }

  /** The platform is unknown until the first publication and is that publication's platform ever after. */
  lemma PlatformIsFrozen(config: Config, s: State, events: seq<Event>, s': State)
    requires Reachable(config, s) && Run(config, s, events) == Some(s')
    ensures s.shared.platform.Some? <==> s.history.published != []
    ensures s.shared.platform.Some? ==> s'.shared.platform == s.shared.platform
    ensures forall i :: 0 <= i < |s'.history.published| ==>
              s'.shared.platform == Some(s'.history.published[i].platform)
    ensures s'.shared.session.Some? ==> s'.shared.platform == Some(s'.shared.session.value.platform)
  {
    ReachableInv(config, s);
    RunKeepsInv(config, s, events);
    RunKeepsHistory(config, s, events);
  }

  /** Nothing comes back after `close` has run its locked block. */
  lemma CloseIsFinal(config: Config, s: State, events: seq<Event>, s': State)
    requires Reachable(config, s) && Run(config, s, events) == Some(s')
    requires s.history.closeDone
    ensures s'.shared.session.None? && s'.shared.suChannel.None? && s'.shared.lastProbeOk.None?
    ensures !s'.shared.isElevated && s'.shared.suGeneration == 0
    ensures s'.history.published == s.history.published
  {
    ReachableInv(config, s);
    RunKeepsInv(config, s, events);
    RunKeepsHistory(config, s, events);
    NothingPublishedAfterClose(config, s, events);
  }

  lemma {:induction false} NothingPublishedAfterClose(config: Config, s: State, events: seq<Event>)
    requires Inv(config, s) && s.history.closeDone && Run(config, s, events).Some?
    ensures Run(config, s, events).value.history.published == s.history.published
    decreases |events|
  {
    if events != [] {
      var e, s1 := events[0], Apply(config, s, events[0]).value;
      StepKeepsInv(config, s, e);
      StepKeepsHistory(config, s, e, s1);
      if !e.PublishCandidate? {
        OnlyPublicationAddsARoute(config, s, e, s1);
      }
      NothingPublishedAfterClose(config, s1, events[1..]);
    }
  }

  // -------------------------------------------------------------------- command retries

  /** In any run a retrying call enqueues its command at most once, and never again afterwards. */
  lemma CommandIsEnqueuedAtMostOnce(config: Config, s: State, id: TaskId)
    requires Reachable(config, s)
    ensures Enqueued(s, id) <= 1
    ensures Enqueued(s, id) == 1 ==> Apply(config, s, ExecOk(id)).None?
  {
    ReachableInv(config, s);
  }

  /** The generation whose failure an event handles, if it is a failure handler. */
  function FailureHandled(s: State, e: Event): Option<nat> {
    match e
    case OwnerInvalidate(id) => if At(s, id).OwnerStale? then Some(At(s, id).stale) else None
    case EnsureInvalidate(id) => if At(s, id).ProbeFailed? then Some(At(s, id).generation) else None
    case ElevateFail(id) => if At(s, id).Elevating? then Some(At(s, id).generation) else None
    case SuBreak(id) => if At(s, id).SuBorrowed? then Some(At(s, id).generation) else None
    case RetryInvalidate(id) => if At(s, id).RetryFailed? then At(s, id).captured else None
    case RunFail(id) => if At(s, id).Running? then Some(At(s, id).generation) else None
    case _ => None
  }

  lemma HandlerSparesOtherRoutes(config: Config, s: State, e: Event, s': State)
    requires Apply(config, s, e) == Some(s') && FailureHandled(s, e).Some?
    requires !IsCurrent(s.shared, FailureHandled(s, e).value)
    ensures s'.shared == s.shared
  {
  }

  /** A handled failure is one of a route that was published. */
  lemma FailureIsOfAPublishedRoute(config: Config, s: State, e: Event, s': State)
    requires Apply(config, s, e) == Some(s') && FailureHandled(s, e).Some?
    requires TaskOk(config, s.shared, s.history, At(s, e.id)) && !e.OwnerInvalidate?
    ensures WasPublished(s.history, FailureHandled(s, e).value)
  {
  }

  /**
   A late failure of an old route changes nothing: not the newer route, not its su
   shell, not its health-cache entry. The newer route always has a larger generation.
   */
  lemma LateFailureIsHarmless(config: Config, s: State, e: Event, s': State)
    requires Reachable(config, s) && Apply(config, s, e) == Some(s')
    requires FailureHandled(s, e).Some? && s.shared.session.Some?
    requires s.shared.session.value.generation != FailureHandled(s, e).value
    ensures s'.shared == s.shared
    ensures FailureHandled(s, e).value < s.shared.session.value.generation
  {
    ReachableInv(config, s);
    HandlerSparesOtherRoutes(config, s, e, s');
    assert TaskOk(config, s.shared, s.history, s.tasks[e.id]);
    if !e.OwnerInvalidate? {
      FailureIsOfAPublishedRoute(config, s, e, s');
      OlderThanCurrent(config, s, FailureHandled(s, e).value);
    }
  }

  lemma OlderThanCurrent(config: Config, s: State, g: nat)
    requires PublicationRecord(config, s.shared, s.history) && WasPublished(s.history, g)
    requires s.shared.session.Some? && s.shared.session.value.generation != g
    ensures g < s.shared.session.value.generation
  {
    var i :| 0 <= i < |s.history.published| && s.history.published[i].generation == g;
  }

  /** A route disappears only by its own failure, an explicit invalidation or the close. */
  lemma RouteIsRemovedOnlyByItsOwnFailure(config: Config, s: State, e: Event, s': State)
    requires Apply(config, s, e) == Some(s')
    requires s.shared.session.Some? && s'.shared.session.None?
    ensures e.InvalidateAny? || e.CloseLocked? || FailureHandled(s, e) == Some(s.shared.session.value.generation)
  {
  }

  /** Automatic elevation is attempted at most once for each published route. */
  lemma AutoElevationOncePerRoute(config: Config, s: State, i: nat, j: nat)
    requires Reachable(config, s) && i < |s.history.autoClaims| && j < |s.history.autoClaims|
    requires s.history.autoClaims[i] == s.history.autoClaims[j]
    ensures i == j
  {
    ReachableInv(config, s);
  }
}
