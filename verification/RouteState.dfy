/**
 The state that the connection manager guards with its locks, and one function
 for every block of code that runs while those locks are held
 (src/ssh/connection.rs, src/ssh/command.rs).
 */
module RouteState {
  import opened Basics

  datatype Route = Route(generation: nat, platform: Platform, autoAttempted: bool)

  /** An SSH channel remembers the generation of the route it was opened on. */
  datatype Channel = Channel(openedOn: nat)

  datatype Config = Config(suPassword: bool, sudoPassword: bool)

  datatype Shared = Shared(
    session: Option<Route>,
    nextGeneration: nat,
    isConnecting: bool,
    shuttingDown: bool,
    suChannel: Option<Channel>,
    suGeneration: nat,
    isElevated: bool,
    lastProbeOk: Option<nat>,
    platform: Option<Platform>)

  const INITIAL := Shared(None, 1, false, false, None, 0, false, None, None)

  /** RouterOS refuses a configuration that asks for elevation. */
  predicate ElevationAllowed(config: Config, platform: Platform) {
    platform == Routeros ==> !config.suPassword && !config.sudoPassword
  }

  predicate IsCurrent(sh: Shared, generation: nat) {
    sh.session.Some? && sh.session.value.generation == generation
  }

  function ForgetRoute(sh: Shared): Shared {
    sh.(session := None, suChannel := None, suGeneration := 0, isElevated := false, lastProbeOk := None)
  }

  /** Publication under the session and probe locks; true when the candidate was stored. */
  function Publish(sh: Shared, candidate: Route): (Shared, bool) {
    if sh.shuttingDown then (sh, false)
    else
      var frozen := if sh.platform.Some? then sh.platform.value else candidate.platform;
      var sh1 := sh.(platform := Some(frozen));
      if frozen != candidate.platform then (sh1, false)
      else (sh1.(session := Some(candidate), lastProbeOk := None), true)
  }

  /** Invalidation; `None` invalidates whatever is there. */
  function Invalidate(sh: Shared, expected: Option<nat>): Shared {
    if expected.Some? && !IsCurrent(sh, expected.value) then sh else ForgetRoute(sh)
  }

  function ResetSu(sh: Shared, generation: nat): Shared {
    if !IsCurrent(sh, generation) then sh
    else sh.(isElevated := false, suGeneration := 0, suChannel := None)
  }

  function StoreSu(sh: Shared, generation: nat, channel: Channel): Shared {
    if sh.shuttingDown || !IsCurrent(sh, generation) then sh
    else sh.(suChannel := Some(channel), suGeneration := generation, isElevated := true)
  }

  /** Taking the su channel; `closed` is what the transport reports at that moment. */
  function TakeSu(sh: Shared, closed: bool): (Shared, Option<(nat, Channel)>) {
    if sh.shuttingDown || !IsCurrent(sh, sh.suGeneration) || closed || sh.suChannel.None? then (sh, None)
    else (sh.(suChannel := None), Some((sh.suGeneration, sh.suChannel.value)))
  }

  function RestoreSu(sh: Shared, generation: nat, channel: Channel, closed: bool): Shared {
    if sh.shuttingDown || sh.suChannel.Some? || sh.suGeneration != generation || !IsCurrent(sh, generation) || closed
    then sh
    else sh.(suChannel := Some(channel))
  }

  function MarkHealthy(sh: Shared, generation: nat, closed: bool): (Shared, bool) {
    if !IsCurrent(sh, generation) || closed then (sh, false)
    else (sh.(lastProbeOk := Some(generation)), true)
  }

  /** Claims the one automatic elevation attempt of the current route. */
  function ClaimAutoElevation(sh: Shared): (Shared, Option<nat>) {
    if sh.session.None? || sh.session.value.autoAttempted || sh.shuttingDown then (sh, None)
    else
      var route := sh.session.value;
      (sh.(session := Some(route.(autoAttempted := true))), Some(route.generation))
  }

  /**
   Clearing the su password takes the channel, awaits its EOF with the su lock
   still held, and then resets the flags; a cancelled call stops in between.
   */
  function ClearSu(sh: Shared, completed: bool): Shared {
    var sh1 := sh.(suChannel := None);
    if completed then sh1.(suGeneration := 0, isElevated := false) else sh1
  }

  /**
   The manager object itself. Every method is one locked block, written as the
   statements that run under the locks, and proved equal to its function above.
   */
  class ConnectionManager {
    var session: Option<Route>
    var nextGeneration: nat
    var isConnecting: bool
    var shuttingDown: bool
    var suChannel: Option<Channel>
    var suGeneration: nat
    var isElevated: bool
    var lastProbeOk: Option<nat>
    var platform: Option<Platform>

    ghost function View(): Shared
      reads this
    {
      Shared(session, nextGeneration, isConnecting, shuttingDown, suChannel, suGeneration, isElevated, lastProbeOk, platform)
    }

    constructor ()
      ensures View() == INITIAL
    {
      session, nextGeneration, isConnecting, shuttingDown := None, 1, false, false;
      suChannel, suGeneration, isElevated := None, 0, false;
      lastProbeOk, platform := None, None;
    }

    predicate Current(generation: nat)
      reads this
    {
      session.Some? && session.value.generation == generation
    }

    method PublishRoute(candidate: Route) returns (published: bool)
      modifies this
      ensures (View(), published) == Publish(old(View()), candidate)
      ensures published <==>
                !old(shuttingDown) && (old(platform).None? || old(platform) == Some(candidate.platform))
      ensures published ==> session == Some(candidate) && platform == Some(candidate.platform) && lastProbeOk.None?
      ensures !published ==> session == old(session) && lastProbeOk == old(lastProbeOk)
    {
      published := false;
      if !shuttingDown {
        if platform.None? {
          platform := Some(candidate.platform);
        }
        if platform.value == candidate.platform {
          session := Some(candidate);
          lastProbeOk := None;
          published := true;
        }
      }
    }

    method InvalidateSession(expected: Option<nat>) returns (channel: Option<Channel>, route: Option<Route>)
      modifies this
      ensures View() == Invalidate(old(View()), expected)
      ensures expected.None? || old(Current(expected.value)) ==> channel == old(suChannel) && route == old(session)
      ensures expected.Some? && !old(Current(expected.value)) ==> channel.None? && route.None?
      ensures expected.None? || old(Current(expected.value)) ==>
                session.None? && suChannel.None? && suGeneration == 0 && !isElevated && lastProbeOk.None?
      ensures expected.Some? && !old(Current(expected.value)) ==> View() == old(View())
    {
      if expected.Some? && !Current(expected.value) {
        return None, None;
      }
      isElevated := false;
      suGeneration := 0;
      lastProbeOk := None;
      channel, route := suChannel, session;
      suChannel, session := None, None;
    }

    method ResetSuState(generation: nat) returns (channel: Option<Channel>)
      modifies this
      ensures View() == ResetSu(old(View()), generation)
      ensures channel == if old(Current(generation)) then old(suChannel) else None
      ensures old(Current(generation)) ==> suChannel.None? && suGeneration == 0 && !isElevated
      ensures session == old(session) && lastProbeOk == old(lastProbeOk)
    {
      if !Current(generation) {
        return None;
      }
      isElevated := false;
      suGeneration := 0;
      channel := suChannel;
      suChannel := None;
    }

    method StoreElevated(generation: nat, channel: Channel) returns (stored: bool)
      modifies this
      ensures View() == StoreSu(old(View()), generation, channel)
      ensures stored <==> !old(shuttingDown) && old(Current(generation))
      ensures stored ==> suChannel == Some(channel) && suGeneration == generation && isElevated
      ensures !stored ==> View() == old(View())
    {
      if shuttingDown || !Current(generation) {
        return false;
      }
      suChannel := Some(channel);
      suGeneration := generation;
      isElevated := true;
      stored := true;
    }

    method TryTakeSuChannel(closed: bool) returns (taken: Option<(nat, Channel)>)
      modifies this
      ensures (View(), taken) == TakeSu(old(View()), closed)
      ensures taken.Some? <==> !old(shuttingDown) && old(Current(suGeneration)) && !closed && old(suChannel).Some?
      ensures taken.Some? ==> taken.value == (old(suGeneration), old(suChannel).value) && suChannel.None?
      ensures taken.None? ==> View() == old(View())
    {
      if shuttingDown || !Current(suGeneration) || closed || suChannel.None? {
        return None;
      }
      taken := Some((suGeneration, suChannel.value));
      suChannel := None;
    }

    method RestoreSuChannel(generation: nat, channel: Channel, closed: bool) returns (kept: bool)
      modifies this
      ensures View() == RestoreSu(old(View()), generation, channel, closed)
      ensures kept <==>
                && !old(shuttingDown) && old(suChannel).None? && old(suGeneration) == generation
                && old(Current(generation)) && !closed
      ensures suChannel == if kept then Some(channel) else old(suChannel)
    {
      if shuttingDown || suChannel.Some? || suGeneration != generation || !Current(generation) || closed {
        return false;
      }
      suChannel := Some(channel);
      kept := true;
    }

    method MarkHealthProbeOk(generation: nat, closed: bool) returns (marked: bool)
      modifies this
      ensures (View(), marked) == MarkHealthy(old(View()), generation, closed)
      ensures marked <==> old(Current(generation)) && !closed
      ensures lastProbeOk == if marked then Some(generation) else old(lastProbeOk)
    {
      if !Current(generation) || closed {
        return false;
      }
      lastProbeOk := Some(generation);
      marked := true;
    }

    method BeginAutoElevation() returns (generation: Option<nat>)
      modifies this
      ensures (View(), generation) == ClaimAutoElevation(old(View()))
      ensures generation.Some? <==> old(session).Some? && !old(session).value.autoAttempted && !old(shuttingDown)
      ensures generation.Some? ==>
                && session.Some? && session.value == old(session).value.(autoAttempted := true)
                && generation.value == session.value.generation
    {
      if session.None? || session.value.autoAttempted || shuttingDown {
        return None;
      }
      generation := Some(session.value.generation);
      session := Some(session.value.(autoAttempted := true));
    }

    method CloseLocked() returns (channel: Option<Channel>, route: Option<Route>)
      modifies this
      ensures View() == ForgetRoute(old(View()))
      ensures channel == old(suChannel) && route == old(session)
      ensures session.None? && suChannel.None? && suGeneration == 0 && !isElevated && lastProbeOk.None?
    {
      isElevated := false;
      suGeneration := 0;
      lastProbeOk := None;
      channel, route := suChannel, session;
      suChannel, session := None, None;
    }
  }
}
