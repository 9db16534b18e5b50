/** What every run of the connection protocol keeps. */
module RouteSafety {
  import opened Basics
  import opened RouteState
  import opened RouteProtocol

  // ---------------------------------------------------------------- invariants

  /** The su shell, the elevation flags and the health cache all follow the route slot. */
  ghost predicate FollowsRoute(config: Config, sh: Shared) {
    && (sh.session.None? ==>
          sh.suChannel.None? && sh.suGeneration == 0 && sh.lastProbeOk.None?)
    && (sh.isElevated <==> sh.suGeneration != 0)
    && (sh.suGeneration != 0 ==> IsCurrent(sh, sh.suGeneration) && config.suPassword)
    && (sh.suChannel.Some? ==>
          sh.suGeneration != 0 && sh.suChannel.value.openedOn == sh.suGeneration)
    && (sh.lastProbeOk.Some? ==>
          IsCurrent(sh, sh.lastProbeOk.value) && sh.session.value.platform.Posix?)
  }

  ghost predicate Increasing(routes: seq<Route>) {
    forall i, j :: 0 <= i < j < |routes| ==> routes[i].generation < routes[j].generation
  }

  ghost predicate WasPublished(history: History, generation: nat) {
    exists i :: 0 <= i < |history.published| && history.published[i].generation == generation
  }

  ghost predicate PublicationRecord(config: Config, sh: Shared, h: History) {
    && Increasing(h.published)
    && (forall i :: 0 <= i < |h.published| ==> 1 <= h.published[i].generation < sh.nextGeneration)
    && (sh.platform.None? <==> h.published == [])
    && (forall i :: 0 <= i < |h.published| ==> h.published[i].platform == sh.platform.value)
    && (sh.platform.Some? ==> ElevationAllowed(config, sh.platform.value))
    && (sh.session.Some? ==>
          && h.published != []
          && sh.session.value.generation == h.published[|h.published| - 1].generation
          && sh.session.value.platform == sh.platform.value)
    && 1 <= sh.nextGeneration
  }

  ghost predicate ClosedIsFinal(sh: Shared, h: History) {
    h.closeDone ==> sh.shuttingDown && sh.session.None?
  }

  ghost predicate NoDuplicates(xs: seq<nat>) {
    forall i, j :: 0 <= i < j < |xs| ==> xs[i] != xs[j]
  }

  ghost predicate AutoClaimsOnce(sh: Shared, h: History) {
    && NoDuplicates(h.autoClaims)
    && (forall g :: g in h.autoClaims ==> g < sh.nextGeneration)
    && (sh.session.Some? && sh.session.value.generation in h.autoClaims ==> sh.session.value.autoAttempted)
  }

  /** The owner flag is up exactly while one task holds the connect guard. */
  ghost predicate SingleOwner(s: State) {
    && (forall a, b :: a in s.tasks && b in s.tasks && IsOwner(s.tasks[a]) && IsOwner(s.tasks[b]) ==> a == b)
    && (s.shared.isConnecting <==> exists a :: a in s.tasks && IsOwner(s.tasks[a]))
  }

  ghost predicate TaskOk(config: Config, sh: Shared, h: History, t: Task) {
    match t
    case OwnerStale(g) => sh.session.Some? ==> IsCurrent(sh, g)
    case OwnerDial => sh.session.None?
    case OwnerCandidate(c) =>
      && sh.session.None?
      && 1 <= c.generation < sh.nextGeneration
      && (forall i :: 0 <= i < |h.published| ==> h.published[i].generation < c.generation)
      && c.generation !in h.autoClaims
      && ElevationAllowed(config, c.platform)
    case Probing(g) => WasPublished(h, g) && sh.platform == Some(Posix)
    case ProbeOk(g) => WasPublished(h, g) && sh.platform == Some(Posix)
    case ProbeFailed(g) => WasPublished(h, g)
    case Elevating(g, c) => WasPublished(h, g) && c.openedOn == g && config.suPassword
    case SuBorrowed(g, c) => WasPublished(h, g) && c.openedOn == g && config.suPassword
    case RetryExec(_, g) => WasPublished(h, g)
    case RetryFailed(g) => g.Some? ==> WasPublished(h, g.value)
    case Running(g) => WasPublished(h, g)
    case _ => true
  }

  ghost predicate TasksOk(config: Config, s: State) {
    forall id :: id in s.tasks ==> TaskOk(config, s.shared, s.history, s.tasks[id])
  }

  ghost predicate EnqueuedOnce(s: State) {
    forall id :: id in s.history.enqueued ==>
      id in s.tasks && s.history.enqueued[id] == 1 && !IsPreExec(s.tasks[id])
  }

  ghost predicate Inv(config: Config, s: State) {
    && FollowsRoute(config, s.shared)
    && PublicationRecord(config, s.shared, s.history)
    && ClosedIsFinal(s.shared, s.history)
    && AutoClaimsOnce(s.shared, s.history)
    && SingleOwner(s)
    && TasksOk(config, s)
    && EnqueuedOnce(s)
  }

  // ------------------------------------------------------- what a step may change

  /** Shared changes that keep every suspended task's knowledge intact. */
  ghost predicate Tame(sh: Shared, sh': Shared) {
    && sh'.nextGeneration == sh.nextGeneration
    && sh'.platform == sh.platform
    && sh'.isConnecting == sh.isConnecting
    && (sh.shuttingDown ==> sh'.shuttingDown)
    && (sh'.session.Some? ==>
          && sh.session.Some?
          && sh'.session.value.generation == sh.session.value.generation
          && sh'.session.value.platform == sh.session.value.platform
          && (sh.session.value.autoAttempted ==> sh'.session.value.autoAttempted))
  }

  /** What the current route's publication tells; free of quantified facts about other tasks. */
  ghost predicate CurrentKnown(config: Config, sh: Shared, h: History) {
    sh.session.Some? ==>
      && WasPublished(h, sh.session.value.generation)
      && 1 <= sh.session.value.generation
      && sh.platform == Some(sh.session.value.platform)
  }

  lemma InvKnowsCurrent(config: Config, s: State)
    requires PublicationRecord(config, s.shared, s.history)
    ensures CurrentKnown(config, s.shared, s.history)
  {
    if s.shared.session.Some? {
      assert s.history.published[|s.history.published| - 1].generation == s.shared.session.value.generation;
    }
  }

  /** Everything a step needs to know about the task it runs and the state it runs in. */
  ghost predicate StepContext(config: Config, s: State, id: TaskId) {
    && FollowsRoute(config, s.shared)
    && CurrentKnown(config, s.shared, s.history)
    && TaskOk(config, s.shared, s.history, At(s, id))
  }

  lemma InvGivesContext(config: Config, s: State, id: TaskId)
    requires Inv(config, s)
    ensures StepContext(config, s, id)
  {
    InvKnowsCurrent(config, s);
    if id in s.tasks {
      assert TaskOk(config, s.shared, s.history, s.tasks[id]);
    }
  }

  /** A step that tames the shared state and moves one task, keeping its role. */
  ghost predicate Quiet(config: Config, s: State, s': State, id: TaskId) {
    && Tame(s.shared, s'.shared)
    && FollowsRoute(config, s'.shared)
    && id in s.tasks && id in s'.tasks && s'.tasks == s.tasks[id := s'.tasks[id]]
    && IsOwner(s'.tasks[id]) == IsOwner(s.tasks[id])
    && (IsPreExec(s'.tasks[id]) ==> IsPreExec(s.tasks[id]))
    && TaskOk(config, s'.shared, s'.history, s'.tasks[id])
  }

  lemma QuietKeepsTasks(config: Config, s: State, s': State, id: TaskId)
    requires TasksOk(config, s) && SingleOwner(s) && Quiet(config, s, s', id)
    requires s'.history.published == s.history.published && s'.history.autoClaims == s.history.autoClaims
    ensures TasksOk(config, s') && SingleOwner(s')
  {
    forall a | a in s'.tasks ensures TaskOk(config, s'.shared, s'.history, s'.tasks[a]) {
      if a != id {
        assert TaskOk(config, s.shared, s.history, s.tasks[a]);
      }
    }
    if s.shared.isConnecting {
      var a :| a in s.tasks && IsOwner(s.tasks[a]);
      assert a in s'.tasks && IsOwner(s'.tasks[a]);
    }
  }

  lemma TameKeepsRecords(config: Config, sh: Shared, sh': Shared, h: History)
    requires Tame(sh, sh') && PublicationRecord(config, sh, h) && ClosedIsFinal(sh, h) && AutoClaimsOnce(sh, h)
    ensures PublicationRecord(config, sh', h) && ClosedIsFinal(sh', h) && AutoClaimsOnce(sh', h)
  {
  }

  lemma QuietKeepsInv(config: Config, s: State, s': State, id: TaskId)
    requires Inv(config, s) && Quiet(config, s, s', id) && s'.history == s.history
    ensures Inv(config, s')
  {
    QuietKeepsTasks(config, s, s', id);
    TameKeepsRecords(config, s.shared, s'.shared, s.history);
  }

  // ----------------------------------------------------------------- connecting

  lemma OthersAreNotOwners(s: State, id: TaskId)
    requires SingleOwner(s) && id in s.tasks && IsOwner(s.tasks[id])
    ensures s.shared.isConnecting
    ensures forall a :: a in s.tasks && a != id ==> !IsOwner(s.tasks[a])
  {
  }

  lemma WinKeepsInv(config: Config, s: State, id: TaskId)
    requires Inv(config, s) && At(s, id).ConnectStart? && !s.shared.isConnecting
    ensures Inv(config, PutShared(s, s.shared.(isConnecting := true), id, OwnerCheck))
  {
    var s' := PutShared(s, s.shared.(isConnecting := true), id, OwnerCheck);
    assert id in s'.tasks && IsOwner(s'.tasks[id]);
    forall a | a in s'.tasks ensures TaskOk(config, s'.shared, s'.history, s'.tasks[a]) {
      if a != id {
        assert TaskOk(config, s.shared, s.history, s.tasks[a]);
      }
    }
  }

  lemma CandidateKeepsInv(config: Config, s: State, id: TaskId, platform: Platform)
    requires Inv(config, s) && At(s, id).OwnerDial? && ElevationAllowed(config, platform)
    ensures
      var candidate := Route(s.shared.nextGeneration, platform, false);
      var sh := s.shared.(nextGeneration := s.shared.nextGeneration + 1);
      Inv(config, PutShared(s, sh, id, OwnerCandidate(candidate)))
  {
    var candidate := Route(s.shared.nextGeneration, platform, false);
    var sh := s.shared.(nextGeneration := s.shared.nextGeneration + 1);
    var s' := PutShared(s, sh, id, OwnerCandidate(candidate));
    OthersAreNotOwners(s, id);
    assert TaskOk(config, s.shared, s.history, s.tasks[id]);
    forall a | a in s'.tasks ensures TaskOk(config, s'.shared, s'.history, s'.tasks[a]) {
      if a != id {
        assert TaskOk(config, s.shared, s.history, s.tasks[a]);
      }
    }
    assert id in s'.tasks && IsOwner(s'.tasks[id]);
  }

  lemma PublishedSurvives(h: History, h': History, g: nat)
    requires WasPublished(h, g) && h.published <= h'.published
    ensures WasPublished(h', g)
  {
    var i :| 0 <= i < |h.published| && h.published[i].generation == g;
    assert h'.published[i] == h.published[i];
  }

  lemma TaskSurvivesPublication(config: Config, s: State, s': State, t: Task)
    requires TaskOk(config, s.shared, s.history, t) && !IsOwner(t)
    requires s.history.published <= s'.history.published
    requires s.shared.platform.Some? ==> s'.shared.platform == s.shared.platform
    ensures TaskOk(config, s'.shared, s'.history, t)
  {
    match t
    case Probing(g) => PublishedSurvives(s.history, s'.history, g);
    case ProbeOk(g) => PublishedSurvives(s.history, s'.history, g);
    case ProbeFailed(g) => PublishedSurvives(s.history, s'.history, g);
    case Elevating(g, _) => PublishedSurvives(s.history, s'.history, g);
    case SuBorrowed(g, _) => PublishedSurvives(s.history, s'.history, g);
    case RetryExec(_, g) => PublishedSurvives(s.history, s'.history, g);
    case RetryFailed(g) => if g.Some? { PublishedSurvives(s.history, s'.history, g.value); }
    case Running(g) => PublishedSurvives(s.history, s'.history, g);
    case _ =>
  }

  lemma PublishKeepsTasks(config: Config, s: State, s': State, id: TaskId)
    requires Inv(config, s) && At(s, id).OwnerCandidate?
    requires ApplyConnect(config, s, PublishCandidate(id)) == Some(s')
    ensures TasksOk(config, s') && SingleOwner(s') && EnqueuedOnce(s')
  {
    OthersAreNotOwners(s, id);
    assert TaskOk(config, s.shared, s.history, s.tasks[id]);
    forall a | a in s'.tasks ensures TaskOk(config, s'.shared, s'.history, s'.tasks[a]) {
      if a != id {
        assert TaskOk(config, s.shared, s.history, s.tasks[a]);
        TaskSurvivesPublication(config, s, s', s.tasks[a]);
      }
    }
    assert id in s'.tasks && IsOwner(s'.tasks[id]);
  }

  lemma PublishKeepsRecords(config: Config, sh: Shared, h: History, c: Route)
    requires FollowsRoute(config, sh) && PublicationRecord(config, sh, h)
    requires ClosedIsFinal(sh, h) && AutoClaimsOnce(sh, h) && TaskOk(config, sh, h, OwnerCandidate(c))
    ensures
      var (sh', published) := Publish(sh, c);
      var h' := if published then h.(published := h.published + [c]) else h;
      && FollowsRoute(config, sh') && PublicationRecord(config, sh', h')
      && ClosedIsFinal(sh', h') && AutoClaimsOnce(sh', h')
  {
  }

  lemma PublishKeepsInv(config: Config, s: State, id: TaskId)
    requires Inv(config, s) && At(s, id).OwnerCandidate?
    ensures Inv(config, ApplyConnect(config, s, PublishCandidate(id)).value)
  {
    var s' := ApplyConnect(config, s, PublishCandidate(id)).value;
    InvGivesContext(config, s, id);
    PublishKeepsTasks(config, s, s', id);
    PublishKeepsRecords(config, s.shared, s.history, At(s, id).candidate);
  }

  lemma OwnerStepIsQuiet(config: Config, s: State, e: Event, s': State)
    requires || (e.CompareExchange? && s.shared.isConnecting) || e.OwnerLook? || e.OwnerReadStale? || e.OwnerInvalidate?
             || (e.Authenticated? && !ElevationAllowed(config, e.platform))
    requires ApplyConnect(config, s, e) == Some(s') && StepContext(config, s, e.id)
    ensures Quiet(config, s, s', e.id) && s'.history == s.history
  {
  }

  lemma ConnectKeepsInv(config: Config, s: State, e: Event)
    requires Inv(config, s) && FamilyOf(e).Connect? && ApplyConnect(config, s, e).Some?
    ensures Inv(config, ApplyConnect(config, s, e).value)
  {
    if e.PublishCandidate? {
      PublishKeepsInv(config, s, e.id);
    } else if e.CompareExchange? && !s.shared.isConnecting {
      WinKeepsInv(config, s, e.id);
    } else if e.Authenticated? && ElevationAllowed(config, e.platform) {
      CandidateKeepsInv(config, s, e.id, e.platform);
    } else {
      var s' := ApplyConnect(config, s, e).value;
      InvGivesContext(config, s, e.id);
      OwnerStepIsQuiet(config, s, e, s');
      QuietKeepsInv(config, s, s', e.id);
    }
  }

  // ------------------------------------------------- probing, elevating, running

  lemma SettledProbeIsQuiet(config: Config, s: State, e: Event, s': State)
    requires e.EnsureInvalidate? || e.MarkProbe?
    requires FamilyOf(e).Ensure? && ApplyEnsure(s, e) == Some(s') && StepContext(config, s, e.id)
    ensures Quiet(config, s, s', e.id) && s'.history == s.history
  {
  }

  lemma OpenProbeIsQuiet(config: Config, s: State, e: Event, s': State)
    requires !(e.EnsureInvalidate? || e.MarkProbe?)
    requires FamilyOf(e).Ensure? && ApplyEnsure(s, e) == Some(s') && StepContext(config, s, e.id)
    ensures Quiet(config, s, s', e.id) && s'.history == s.history
  {
  }

  lemma EnsureIsQuiet(config: Config, s: State, e: Event, s': State)
    requires FamilyOf(e).Ensure? && ApplyEnsure(s, e) == Some(s') && StepContext(config, s, e.id)
    ensures Quiet(config, s, s', e.id) && s'.history == s.history
  {
    if e.EnsureInvalidate? || e.MarkProbe? {
      SettledProbeIsQuiet(config, s, e, s');
    } else {
      OpenProbeIsQuiet(config, s, e, s');
    }
  }

  lemma EnsureKeepsInv(config: Config, s: State, e: Event)
    requires Inv(config, s) && FamilyOf(e).Ensure? && ApplyEnsure(s, e).Some?
    ensures Inv(config, ApplyEnsure(s, e).value)
  {
    var s' := ApplyEnsure(s, e).value;
    InvGivesContext(config, s, e.id);
    EnsureIsQuiet(config, s, e, s');
    QuietKeepsInv(config, s, s', e.id);
  }

  lemma ClaimIsQuiet(config: Config, s: State, e: Event, s': State)
    requires e.AutoClaim? && ApplySu(config, s, e) == Some(s') && StepContext(config, s, e.id)
    ensures Quiet(config, s, s', e.id)
    ensures s'.history == if ClaimAutoElevation(s.shared).1.None? then s.history else
              s.history.(autoClaims := s.history.autoClaims + [s.shared.session.value.generation])
  {
  }

  lemma ElevateIsQuiet(config: Config, s: State, e: Event, s': State)
    requires e.ElevateOpen? || e.ElevateStore? || e.ElevateFail?
    requires ApplySu(config, s, e) == Some(s') && StepContext(config, s, e.id)
    requires forall i :: 0 <= i < |s.history.published| ==> 1 <= s.history.published[i].generation
    ensures Quiet(config, s, s', e.id) && s'.history == s.history
  {
  }

  lemma BorrowIsQuiet(config: Config, s: State, e: Event, s': State)
    requires e.SuTake? || e.SuRestore? || e.SuBreak?
    requires ApplySu(config, s, e) == Some(s') && StepContext(config, s, e.id)
    ensures Quiet(config, s, s', e.id) && s'.history == s.history
  {
  }

  /** A task's knowledge survives the claim of the current route's elevation. */
  lemma TaskSurvivesClaim(config: Config, sh: Shared, sh': Shared, h: History, t: Task)
    requires TaskOk(config, sh, h, t) && Tame(sh, sh') && sh.session.Some?
    ensures TaskOk(config, sh', h.(autoClaims := h.autoClaims + [sh.session.value.generation]), t)
  {
  }

  lemma ClaimKeepsRecords(config: Config, sh: Shared, sh': Shared, h: History)
    requires PublicationRecord(config, sh, h) && ClosedIsFinal(sh, h) && AutoClaimsOnce(sh, h)
    requires ClaimAutoElevation(sh).1.Some? && sh' == ClaimAutoElevation(sh).0
    ensures
      var h' := h.(autoClaims := h.autoClaims + [sh.session.value.generation]);
      PublicationRecord(config, sh', h') && ClosedIsFinal(sh', h') && AutoClaimsOnce(sh', h')
  {
  }

  lemma QuietKeepsOwner(config: Config, s: State, s': State, id: TaskId)
    requires SingleOwner(s) && Quiet(config, s, s', id)
    ensures SingleOwner(s')
  {
    if s.shared.isConnecting {
      var a :| a in s.tasks && IsOwner(s.tasks[a]);
      assert a in s'.tasks && IsOwner(s'.tasks[a]);
    }
  }

  lemma ClaimKeepsInv(config: Config, s: State, s': State, id: TaskId)
    requires Inv(config, s) && ApplySu(config, s, AutoClaim(id)) == Some(s')
    requires ClaimAutoElevation(s.shared).1.Some?
    requires Quiet(config, s, s', id)
    ensures Inv(config, s')
  {
    forall a | a in s'.tasks ensures TaskOk(config, s'.shared, s'.history, s'.tasks[a]) {
      if a != id {
        assert TaskOk(config, s.shared, s.history, s.tasks[a]);
        TaskSurvivesClaim(config, s.shared, s'.shared, s.history, s.tasks[a]);
      }
    }
    QuietKeepsOwner(config, s, s', id);
    ClaimKeepsRecords(config, s.shared, s'.shared, s.history);
  }

  lemma SuKeepsInv(config: Config, s: State, e: Event)
    requires Inv(config, s) && FamilyOf(e).Su? && ApplySu(config, s, e).Some?
    ensures Inv(config, ApplySu(config, s, e).value)
  {
    var s' := ApplySu(config, s, e).value;
    InvGivesContext(config, s, e.id);
    if e.AutoClaim? {
      ClaimIsQuiet(config, s, e, s');
    } else if e.SuTake? || e.SuRestore? || e.SuBreak? {
      BorrowIsQuiet(config, s, e, s');
    } else {
      ElevateIsQuiet(config, s, e, s');
    }
    if e.AutoClaim? && ClaimAutoElevation(s.shared).1.Some? {
      ClaimKeepsInv(config, s, s', e.id);
    } else {
      QuietKeepsInv(config, s, s', e.id);
    }
  }

  lemma ExecIsQuiet(config: Config, s: State, id: TaskId, s': State)
    requires ApplyRetry(s, ExecOk(id)) == Some(s') && StepContext(config, s, id)
    ensures Quiet(config, s, s', id) && s'.history.(enqueued := s.history.enqueued) == s.history
  {
  }

  lemma InvalidatingIsQuiet(config: Config, s: State, e: Event, s': State)
    requires e.RetryInvalidate? || e.RunFail?
    requires FamilyOf(e).Retry? && !e.ExecOk? && ApplyRetry(s, e) == Some(s') && StepContext(config, s, e.id)
    ensures Quiet(config, s, s', e.id) && s'.history == s.history
  {
  }

  lemma RetryingIsQuiet(config: Config, s: State, e: Event, s': State)
    requires !(e.RetryInvalidate? || e.RunFail?)
    requires FamilyOf(e).Retry? && !e.ExecOk? && ApplyRetry(s, e) == Some(s') && StepContext(config, s, e.id)
    ensures Quiet(config, s, s', e.id) && s'.history == s.history
  {
  }

  lemma RetryIsQuiet(config: Config, s: State, e: Event, s': State)
    requires FamilyOf(e).Retry? && !e.ExecOk? && ApplyRetry(s, e) == Some(s') && StepContext(config, s, e.id)
    ensures Quiet(config, s, s', e.id) && s'.history == s.history
  {
    if e.RetryInvalidate? || e.RunFail? {
      InvalidatingIsQuiet(config, s, e, s');
    } else {
      RetryingIsQuiet(config, s, e, s');
    }
  }

  lemma RetryKeepsInv(config: Config, s: State, e: Event)
    requires Inv(config, s) && FamilyOf(e).Retry? && ApplyRetry(s, e).Some?
    ensures Inv(config, ApplyRetry(s, e).value)
  {
    var s' := ApplyRetry(s, e).value;
    InvGivesContext(config, s, e.id);
    if e.ExecOk? {
      ExecIsQuiet(config, s, e.id, s');
      QuietKeepsTasks(config, s, s', e.id);
      TameKeepsRecords(config, s.shared, s'.shared, s.history);
    } else {
      RetryIsQuiet(config, s, e, s');
      QuietKeepsInv(config, s, s', e.id);
    }
  }

  // --------------------------------------------------------- spawning and closing

  lemma SpawnKeepsInv(config: Config, s: State, id: TaskId, entry: Task)
    requires Inv(config, s) && id !in s.tasks && IsEntry(entry)
    ensures Inv(config, Put(s, id, entry))
  {
    var s' := Put(s, id, entry);
    forall a | a in s'.tasks ensures TaskOk(config, s'.shared, s'.history, s'.tasks[a]) {
      if a != id {
        assert TaskOk(config, s.shared, s.history, s.tasks[a]);
      }
    }
    SpawnKeepsOwner(s, id, entry);
  }

  lemma SpawnKeepsOwner(s: State, id: TaskId, entry: Task)
    requires SingleOwner(s) && id !in s.tasks && IsEntry(entry)
    ensures SingleOwner(Put(s, id, entry))
  {
    var s' := Put(s, id, entry);
    if s.shared.isConnecting {
      var a :| a in s.tasks && IsOwner(s.tasks[a]);
      assert a in s'.tasks && IsOwner(s'.tasks[a]);
    }
  }

  lemma StopKeepsInv(config: Config, s: State, id: TaskId)
    requires Inv(config, s) && id in s.tasks
    ensures Inv(config, StopTask(s, id))
  {
    var s' := StopTask(s, id);
    if IsOwner(s.tasks[id]) {
      OthersAreNotOwners(s, id);
      forall a | a in s'.tasks ensures TaskOk(config, s'.shared, s'.history, s'.tasks[a]) {
        if a != id {
          assert TaskOk(config, s.shared, s.history, s.tasks[a]);
        }
      }
    } else {
      QuietKeepsInv(config, s, s', id);
    }
  }

  lemma SharedOnlyKeepsInv(config: Config, s: State, sh: Shared)
    requires Inv(config, s) && Tame(s.shared, sh) && FollowsRoute(config, sh)
    ensures Inv(config, s.(shared := sh))
  {
    var s' := s.(shared := sh);
    forall a | a in s'.tasks ensures TaskOk(config, s'.shared, s'.history, s'.tasks[a]) {
      assert TaskOk(config, s.shared, s.history, s.tasks[a]);
    }
    TameKeepsRecords(config, s.shared, sh, s.history);
  }

  lemma CloseKeepsInv(config: Config, s: State)
    requires Inv(config, s) && s.shared.shuttingDown
    ensures Inv(config, s.(shared := ForgetRoute(s.shared), history := s.history.(closeDone := true)))
  {
    SharedOnlyKeepsInv(config, s, ForgetRoute(s.shared));
    var s1 := s.(shared := ForgetRoute(s.shared));
    var s' := s1.(history := s.history.(closeDone := true));
    forall a | a in s'.tasks ensures TaskOk(config, s'.shared, s'.history, s'.tasks[a]) {
      assert TaskOk(config, s1.shared, s1.history, s1.tasks[a]);
    }
  }

  lemma AdminKeepsInv(config: Config, s: State, e: Event)
    requires Inv(config, s) && FamilyOf(e).Admin? && ApplyAdmin(s, e).Some?
    ensures Inv(config, ApplyAdmin(s, e).value)
  {
    match e
    case Spawn(id, entry) => SpawnKeepsInv(config, s, id, entry);
    case Stop(id) => StopKeepsInv(config, s, id);
    case ClearSuPassword(completed) => SharedOnlyKeepsInv(config, s, ClearSu(s.shared, completed));
    case InvalidateAny => SharedOnlyKeepsInv(config, s, Invalidate(s.shared, None));
    case BeginClose => SharedOnlyKeepsInv(config, s, s.shared.(shuttingDown := true));
    case CloseLocked => CloseKeepsInv(config, s);
    case _ =>
  }

  lemma StepKeepsInv(config: Config, s: State, e: Event)
    requires Inv(config, s) && Apply(config, s, e).Some?
    ensures Inv(config, Apply(config, s, e).value)
  {
    match FamilyOf(e)
    case Connect => ConnectKeepsInv(config, s, e);
    case Ensure => EnsureKeepsInv(config, s, e);
    case Su => SuKeepsInv(config, s, e);
    case Retry => RetryKeepsInv(config, s, e);
    case Admin => AdminKeepsInv(config, s, e);
  }

  lemma {:induction false} RunKeepsInv(config: Config, s: State, events: seq<Event>)
    requires Inv(config, s) && Run(config, s, events).Some?
    ensures Inv(config, Run(config, s, events).value)
    decreases |events|
  {
    if events != [] {
      StepKeepsInv(config, s, events[0]);
      RunKeepsInv(config, Apply(config, s, events[0]).value, events[1..]);
    }
  }

  lemma ReachableInv(config: Config, s: State)
    requires Reachable(config, s)
    ensures Inv(config, s)
  {
    var events :| Run(config, START, events) == Some(s);
    RunKeepsInv(config, START, events);
  }
}
