/**
 The one-shot owner task of a native RouterOS command (src/ssh/routeros.rs).
 The world around it is fixed but arbitrary: whether a slot, a connection and a
 channel are granted, whether EXEC is accepted, which messages arrive, and from
 which observation on the request counts as stopped (deadline, cancellation,
 caller gone or shutdown: once visible, a stop stays visible).
 */
module RouterOsOwner {
  import opened Basics
  import opened RouterOsCollector

  datatype OpenOutcome =
    | Opened(generation: nat, channel: nat)
    | OpenFailed(captured: Option<nat>, budgetElapsed: bool)

  datatype World = World(
    stopAt: Option<nat>,
    slotGranted: bool,
    connected: bool,
    open: OpenOutcome,
    execAccepted: bool,
    messages: seq<ChannelMsg>,
    maxTokens: Option<nat>)

  datatype Action =
    | SlotTaken
    | OpenIssued
    | ChannelOpened(channel: nat)
    | ExecEnqueued(channel: nat)
    | CloseIssued(channel: nat)
    | Retired(generation: nat)
    | Responded(result: NativeResult)
    | SlotReleased

  const NO_OUTPUT := CommandOutput(Output([], false, 0), Output([], false, 0), None)

  function NotStarted(): NativeResult {
    Err(NativeFailure(NO_OUTPUT, StopRequested, false))
  }

  // ---------------------------------------------------------- what a run must satisfy

  ghost predicate OneResponse(trace: seq<Action>) {
    && (exists i :: 0 <= i < |trace| && trace[i].Responded?)
    && (forall i, j :: 0 <= i < j < |trace| ==> !(trace[i].Responded? && trace[j].Responded?))
  }

  ghost predicate ExecAtMostOnce(trace: seq<Action>) {
    forall i, j :: 0 <= i < j < |trace| ==> !(trace[i].ExecEnqueued? && trace[j].ExecEnqueued?)
  }

  ghost predicate NoExecAfterResponse(trace: seq<Action>) {
    forall i, j :: 0 <= i < j < |trace| ==> !(trace[i].Responded? && trace[j].ExecEnqueued?)
  }

  ghost predicate EveryChannelClosed(trace: seq<Action>) {
    forall i :: 0 <= i < |trace| && trace[i].ChannelOpened? ==>
      exists j :: i < j < |trace| && trace[j] == CloseIssued(trace[i].channel)
  }

  /** The slot covers every action on the route, and is given back exactly at the end. */
  ghost predicate SlotCoversWork(trace: seq<Action>) {
    && (forall i :: 0 <= i < |trace| && !trace[i].Responded? ==> trace[0].SlotTaken?)
    && (forall i :: 0 <= i < |trace| && trace[i].SlotReleased? ==> i == |trace| - 1)
    && (|trace| > 0 && trace[0].SlotTaken? ==> trace[|trace| - 1].SlotReleased?)
  }

  ghost predicate Did(trace: seq<Action>, a: Action) {
    exists i :: 0 <= i < |trace| && trace[i] == a
  }

  ghost predicate Enqueues(trace: seq<Action>) {
    exists i :: 0 <= i < |trace| && trace[i].ExecEnqueued?
  }

  /** A generation is retired exactly when an issued OPEN used up its own budget on it. */
  ghost predicate RetiresOnlyLostOpens(w: World, trace: seq<Action>) {
    forall g :: Did(trace, Retired(g)) <==> Did(trace, OpenIssued) && w.open == OpenFailed(Some(g), true)
  }

  /** A reported "never ran" is true, and a reported "may have run" had its EXEC enqueued. */
  ghost predicate HonestMayHaveRun(trace: seq<Action>) {
    forall i :: 0 <= i < |trace| && trace[i].Responded? ==>
      var r := trace[i].result;
      && (r.Ok? ==> Enqueues(trace))
      && (r.Err? && r.error.mayHaveRun ==> Enqueues(trace))
      && (r.Err? && !r.error.mayHaveRun ==> !Enqueues(trace) || r.error.fault.Rejected?)
  }

  /** Retiring a generation waits for locks; the caller has its answer before that. */
  ghost predicate AnswersBeforeRetiring(trace: seq<Action>) {
    forall i, j :: 0 <= i < j < |trace| ==> !(trace[i].Retired? && trace[j].Responded?)
  }

  ghost predicate Good(w: World, trace: seq<Action>) {
    && OneResponse(trace)
    && ExecAtMostOnce(trace)
    && NoExecAfterResponse(trace)
    && EveryChannelClosed(trace)
    && SlotCoversWork(trace)
    && RetiresOnlyLostOpens(w, trace)
    && HonestMayHaveRun(trace)
    && AnswersBeforeRetiring(trace)
  }

  // -------------------------------------------------------------- the shapes of runs

  lemma NoSlotIsGood(w: World)
    ensures
      var trace := [Responded(NotStarted())];
      Good(w, trace) && !Enqueues(trace) && !Did(trace, OpenIssued)
  {
    assert [Responded(NotStarted())][0].Responded?;
  }

  lemma NoRouteIsGood(w: World)
    ensures Good(w, [SlotTaken, Responded(NotStarted()), SlotReleased])
  {
    var trace := [SlotTaken, Responded(NotStarted()), SlotReleased];
    assert trace[1].Responded?;
  }

  lemma FailedOpenIsGood(w: World, retired: seq<Action>)
    requires w.open.OpenFailed?
    requires retired == if w.open.budgetElapsed && w.open.captured.Some? then [Retired(w.open.captured.value)] else []
    ensures
      var trace := [SlotTaken, OpenIssued, Responded(NotStarted())] + retired + [SlotReleased];
      Good(w, trace) && !Enqueues(trace) && Did(trace, OpenIssued) && RefusedProperly(w, trace)
  {
    var trace := [SlotTaken, OpenIssued, Responded(NotStarted())] + retired + [SlotReleased];
    assert trace[1] == OpenIssued && trace[2].Responded?;
    assert retired != [] ==> trace[3] == retired[0];
  }

  lemma LateChannelIsGood(w: World, c: nat)
    requires w.open.Opened?
    ensures Good(w, [SlotTaken, OpenIssued, Responded(NotStarted()), ChannelOpened(c), CloseIssued(c), SlotReleased])
  {
    var trace := [SlotTaken, OpenIssued, Responded(NotStarted()), ChannelOpened(c), CloseIssued(c), SlotReleased];
    assert trace[2].Responded? && trace[4] == CloseIssued(c);
  }

  lemma UnsentIsGood(w: World, c: nat, r: NativeResult)
    requires w.open.Opened? && r.Err? && !r.error.mayHaveRun
    ensures Good(w, [SlotTaken, OpenIssued, ChannelOpened(c), CloseIssued(c), Responded(r), SlotReleased])
  {
    var trace := [SlotTaken, OpenIssued, ChannelOpened(c), CloseIssued(c), Responded(r), SlotReleased];
    assert trace[4].Responded? && trace[3] == CloseIssued(c);
  }

  lemma SentIsGood(w: World, c: nat, r: NativeResult)
    requires w.open.Opened? && (r.Err? && !r.error.mayHaveRun ==> r.error.fault.Rejected?)
    ensures Good(w, [SlotTaken, OpenIssued, ChannelOpened(c), ExecEnqueued(c), CloseIssued(c), Responded(r), SlotReleased])
  {
    var trace := [SlotTaken, OpenIssued, ChannelOpened(c), ExecEnqueued(c), CloseIssued(c), Responded(r), SlotReleased];
    assert trace[5].Responded? && trace[4] == CloseIssued(c) && trace[3].ExecEnqueued?;
  }

  /** The first `n` messages leave no verdict, so collection is still going on. */
  ghost predicate StillDraining(limit: Option<nat>, messages: seq<ChannelMsg>, n: nat, c: Snapshot) {
    && n <= |messages| && NoTerminal(messages[..n])
    && c == Meaning(limit, messages[..n])
  }

  lemma DrainingAdvances(limit: Option<nat>, messages: seq<ChannelMsg>, n: nat, c: Snapshot)
    requires n < |messages| && StillDraining(limit, messages, n, c)
    requires Step(c, limit, Some(messages[n])).1.None?
    ensures StillDraining(limit, messages, n + 1, Step(c, limit, Some(messages[n])).0)
    ensures Drain(c, limit, messages[n..]) == Drain(Step(c, limit, Some(messages[n])).0, limit, messages[n + 1..])
  {
    assert messages[..n] + [messages[n]] == messages[..n + 1];
    assert messages[n..][1..] == messages[n + 1..];
    StepExtendsMeaning(limit, messages[..n], messages[n]);
  }

  ghost predicate StoppedAnswer(limit: Option<nat>, messages: seq<ChannelMsg>, r: NativeResult) {
    exists n :: 0 <= n <= |messages| && NoTerminal(messages[..n])
      && r == Finish(Meaning(limit, messages[..n]), Err(StopRequested))
  }

  /** The answer to a command that was enqueued: collected to a verdict, or stopped on the way. */
  ghost predicate HonestAnswer(w: World, r: NativeResult) {
    var limit := Limit(w.maxTokens);
    || (var (c, verdict) := Drain(FRESH.(mayHaveRun := true), limit, w.messages); r == Finish(c, verdict))
    || (w.stopAt.Some? && StoppedAnswer(limit, w.messages, r))
  }

  /** An enqueued command is answered from its own messages. */
  ghost predicate AnsweredFromMessages(w: World, trace: seq<Action>) {
    Enqueues(trace) ==> exists i :: 0 <= i < |trace| && trace[i].Responded? && HonestAnswer(w, trace[i].result)
  }

  /** The world grants everything a command needs to be enqueued. */
  predicate Granted(w: World) {
    w.slotGranted && w.connected && w.open.Opened? && w.execAccepted
  }

  /** How often the request is observed before EXEC: at the slot, the connection, the OPEN (three times) and EXEC. */
  const OBSERVATIONS: nat := 6

  predicate StopsWithin(w: World, observations: nat) {
    w.stopAt.Some? && w.stopAt.value <= observations
  }

  /** OPEN and EXEC are issued exactly when everything they need is granted and no stop comes in time. */
  ghost predicate RunsExactlyWhenGranted(w: World, trace: seq<Action>) {
    && (Did(trace, OpenIssued) <==> w.slotGranted && w.connected && !StopsWithin(w, 3))
    && (Enqueues(trace) <==> Granted(w) && !StopsWithin(w, OBSERVATIONS))
  }

  /** The answer to a command that was never enqueued: EXEC was refused, or nothing was started. */
  function Refusal(w: World): NativeResult {
    if w.slotGranted && w.connected && w.open.Opened? && !StopsWithin(w, OBSERVATIONS)
    then Err(NativeFailure(NO_OUTPUT, EnqueueFailed, false))
    else NotStarted()
  }

  /** A refused command is answered as such, and a stop that is seen while the OPEN is under way does not wait for it. */
  ghost predicate RefusedProperly(w: World, trace: seq<Action>) {
    && (!Enqueues(trace) ==> forall i :: 0 <= i < |trace| && trace[i].Responded? ==> trace[i].result == Refusal(w))
    && (StopsWithin(w, 4) ==> forall i, j :: 0 <= i < j < |trace| ==> !(trace[i].ChannelOpened? && trace[j].Responded?))
  }

  /** The response the caller gets. */
  ghost predicate Answer(trace: seq<Action>, r: NativeResult) {
    Did(trace, Responded(r))
  }

  /** The answer of the message queue, collected to its verdict. */
  function QueueAnswer(w: World): NativeResult {
    var (c, verdict) := Drain(FRESH.(mayHaveRun := true), Limit(w.maxTokens), w.messages);
    Finish(c, verdict)
  }

  /** Without a stop, a granted command is answered by the verdict of its message queue, and by nothing else. */
  lemma GrantedCommandIsAnswered(w: World, trace: seq<Action>)
    requires Good(w, trace) && AnsweredFromMessages(w, trace) && Enqueues(trace) && w.stopAt.None?
    ensures forall r :: Answer(trace, r) <==> r == QueueAnswer(w)
  {
    var i :| 0 <= i < |trace| && trace[i].Responded? && HonestAnswer(w, trace[i].result);
    assert trace[i] == Responded(QueueAnswer(w));
    forall r | Answer(trace, r) ensures r == QueueAnswer(w) {
      var j :| 0 <= j < |trace| && trace[j] == Responded(r);
      assert i == j;
    }
  }

  lemma StopIsHonest(w: World, n: nat, c: Snapshot)
    requires w.stopAt.Some? && StillDraining(Limit(w.maxTokens), w.messages, n, c)
    ensures HonestAnswer(w, Finish(c, Err(StopRequested)))
  {
  }

  /** Still collecting after `n` messages, with the same end in view as at the beginning. */
  ghost predicate OnTheWay(w: World, n: nat, c: Snapshot) {
    var limit := Limit(w.maxTokens);
    && StillDraining(limit, w.messages, n, c)
    && Drain(c, limit, w.messages[n..]) == Drain(FRESH.(mayHaveRun := true), limit, w.messages)
  }

  lemma CollectingBegins(w: World)
    ensures OnTheWay(w, 0, FRESH.(mayHaveRun := true))
  {
    var limit := Limit(w.maxTokens);
    assert Meaning(limit, []) == FRESH.(mayHaveRun := true);
    assert w.messages[..0] == [] && w.messages[0..] == w.messages;
  }

  lemma CollectingGoesOn(w: World, n: nat, c: Snapshot)
    requires n < |w.messages| && OnTheWay(w, n, c)
    requires Step(c, Limit(w.maxTokens), Some(w.messages[n])).1.None?
    ensures OnTheWay(w, n + 1, Step(c, Limit(w.maxTokens), Some(w.messages[n])).0)
  {
    DrainingAdvances(Limit(w.maxTokens), w.messages, n, c);
  }

  lemma VerdictIsHonest(w: World, n: nat, c: Snapshot)
    requires OnTheWay(w, n, c)
    ensures
      var (c', verdict) := Step(c, Limit(w.maxTokens), if n < |w.messages| then Some(w.messages[n]) else None);
      verdict.Some? ==> HonestAnswer(w, Finish(c', verdict.value))
  {
  }

  lemma CollectingHasRun(w: World, n: nat, c: Snapshot)
    requires OnTheWay(w, n, c)
    ensures c.mayHaveRun
  {
  }

  /** The actions of a task whose OPEN yielded a channel. */
  function ChannelTrace(c: nat, answeredEarly: bool, enqueued: bool, r: NativeResult): seq<Action> {
    [SlotTaken, OpenIssued] + (if answeredEarly then [Responded(NotStarted())] else []) + [ChannelOpened(c)]
    + (if enqueued then [ExecEnqueued(c)] else []) + [CloseIssued(c)]
    + (if answeredEarly then [] else [Responded(r)]) + [SlotReleased]
  }

  lemma ChannelTraceIsGood(
    w: World, c: nat, answeredEarly: bool, enqueued: bool, r: NativeResult, trace: seq<Action>)
    requires w.open.Opened? && (answeredEarly ==> !enqueued) && trace == ChannelTrace(c, answeredEarly, enqueued, r)
    requires enqueued ==> HonestAnswer(w, r)
    requires r.Err? && !r.error.mayHaveRun ==> !enqueued || r.error.fault.Rejected?
    requires !enqueued ==> r == if StopsWithin(w, OBSERVATIONS) then NotStarted() else Err(NativeFailure(NO_OUTPUT, EnqueueFailed, false))
    requires w.slotGranted && w.connected && (answeredEarly <==> StopsWithin(w, 4))
    ensures Good(w, trace) && AnsweredFromMessages(w, trace) && RefusedProperly(w, trace)
    ensures Did(trace, OpenIssued) && (Enqueues(trace) <==> enqueued)
  {
    assert trace[1] == OpenIssued;
    if answeredEarly {
      LateChannelIsGood(w, c);
      assert trace == [SlotTaken, OpenIssued, Responded(NotStarted()), ChannelOpened(c), CloseIssued(c), SlotReleased];
    } else if enqueued {
      SentIsGood(w, c, r);
      assert trace == [SlotTaken, OpenIssued, ChannelOpened(c), ExecEnqueued(c), CloseIssued(c), Responded(r), SlotReleased];
      assert trace[5].Responded? && HonestAnswer(w, trace[5].result);
      assert trace[3].ExecEnqueued?;
    } else {
      UnsentIsGood(w, c, r);
      assert trace == [SlotTaken, OpenIssued, ChannelOpened(c), CloseIssued(c), Responded(r), SlotReleased];
    }
  }

  class Owner {
    const world: World
    var sender: bool
    var clock: nat
    var trace: seq<Action>

    constructor (world: World)
      ensures this.world == world && sender && clock == 0 && trace == []
    {
      this.world := world;
      sender, clock, trace := true, 0, [];
    }

    ghost predicate StopVisible()
      reads this
    {
      world.stopAt.Some? && world.stopAt.value <= clock
    }

    /** Observes the stop condition; later observations never take a stop back. */
    method Stopped() returns (stopped: bool)
      modifies this`clock
      ensures clock == old(clock) + 1
      ensures stopped == StopVisible() && (old(StopVisible()) ==> stopped)
    {
      clock := clock + 1;
      stopped := world.stopAt.Some? && world.stopAt.value <= clock;
    }

    method SendResult(result: NativeResult)
      modifies this`sender, this`trace
      ensures !sender && trace == old(trace) + (if old(sender) then [Responded(result)] else [])
    {
      if sender {
        sender := false;
        trace := trace + [Responded(result)];
      }
    }

    /** Collects events until a verdict or a stop. */
    method Collect(collector: Collector) returns (verdict: Result<(), Fault>)
      requires collector.Valid() && collector.limit == Limit(world.maxTokens)
      requires collector.View() == FRESH.(mayHaveRun := true)
      modifies this`clock, collector, collector.stdout, collector.stderr
      ensures HonestAnswer(world, Finish(collector.View(), verdict))
      ensures verdict.Err? && !collector.View().mayHaveRun ==> verdict.error.Rejected?
    {
      CollectingBegins(world);
      var next := 0;
      while true
        invariant next <= |world.messages|
        invariant OnTheWay(world, next, collector.View())
        decreases |world.messages| - next
      {
        CollectingHasRun(world, next, collector.View());
        var stopped := Stopped();
        if stopped {
          StopIsHonest(world, next, collector.View());
          return Err(StopRequested);
        }
        var message := if next < |world.messages| then Some(world.messages[next]) else None;
        VerdictIsHonest(world, next, collector.View());
        ghost var before := collector.View();
        var answer := collector.Event(message);
        if answer.Some? {
          return answer.value;
        }
        CollectingGoesOn(world, next, before);
        next := next + 1;
      }
    }

    /** The end of a task that never got a slot. */
    method EndWithoutSlot()
      requires sender && trace == []
      requires Refusal(world) == NotStarted()
      modifies this
      ensures Good(world, trace) && !Enqueues(trace) && !Did(trace, OpenIssued) && RefusedProperly(world, trace)
    {
      SendResult(NotStarted());
      assert trace == [Responded(NotStarted())];
      NoSlotIsGood(world);
    }

    /** The end of a task that got its slot but never reached the OPEN. */
    method EndBeforeOpen()
      requires sender && trace == [SlotTaken]
      requires Refusal(world) == NotStarted()
      modifies this
      ensures Good(world, trace) && !Enqueues(trace) && !Did(trace, OpenIssued) && RefusedProperly(world, trace)
    {
      SendResult(NotStarted());
      trace := trace + [SlotReleased];
      NoRouteIsGood(world);
      assert trace == [SlotTaken, Responded(NotStarted()), SlotReleased];
    }

    /** The end of a task whose OPEN failed; a lost OPEN retires the generation it was issued on. */
    method EndFailedOpen()
      requires world.open.OpenFailed?
      requires trace == [SlotTaken, OpenIssued] + (if sender then [] else [Responded(NotStarted())])
      modifies this
      ensures Good(world, trace) && !Enqueues(trace) && Did(trace, OpenIssued) && RefusedProperly(world, trace)
    {
      SendResult(NotStarted());
      ghost var retired := [];
      if world.open.budgetElapsed && world.open.captured.Some? {
        trace := trace + [Retired(world.open.captured.value)];
        retired := [Retired(world.open.captured.value)];
      }
      trace := trace + [SlotReleased];
      assert trace == [SlotTaken, OpenIssued, Responded(NotStarted())] + retired + [SlotReleased];
      FailedOpenIsGood(world, retired);
    }

    /**
     The whole owner task. Whatever the world does, the actions it leaves behind
     satisfy `Good`, and an enqueued command is answered from its own messages.
     */
    method Serve()
      requires sender && clock == 0 && trace == []
      modifies this
      ensures Good(world, trace)
      ensures AnsweredFromMessages(world, trace)
      ensures RunsExactlyWhenGranted(world, trace)
      ensures RefusedProperly(world, trace)
      ensures Granted(world) && world.stopAt.None? ==> forall r :: Answer(trace, r) <==> r == QueueAnswer(world)
    {
      var stopped := Stopped();
      if stopped || !world.slotGranted {
        EndWithoutSlot();
        return;
      }
      trace := trace + [SlotTaken];
      stopped := Stopped();
      if stopped || !world.connected {
        EndBeforeOpen();
        return;
      }
      stopped := Stopped();
      if stopped {
        EndBeforeOpen();
        return;
      }
      trace := trace + [OpenIssued];
      // The request may end here; the queued OPEN is awaited all the same.
      stopped := Stopped();
      if stopped {
        SendResult(NotStarted());
      }
      if world.open.OpenFailed? {
        EndFailedOpen();
        return;
      }
      UseChannel(stopped);
    }

    /** Enqueues EXEC unless the request has stopped, and collects what comes back. */
    method ExecOn(channel: nat, collector: Collector) returns (enqueued: bool, verdict: Result<(), Fault>)
      requires collector.Valid() && collector.limit == Limit(world.maxTokens) && collector.View() == FRESH
      requires clock == OBSERVATIONS - 2
      modifies this`clock, this`trace, collector, collector.stdout, collector.stderr
      ensures old(StopVisible()) ==> !enqueued
      ensures enqueued <==> world.execAccepted && !StopsWithin(world, OBSERVATIONS)
      ensures trace == old(trace) + (if enqueued then [ExecEnqueued(channel)] else [])
      ensures enqueued ==> HonestAnswer(world, Finish(collector.View(), verdict))
      ensures verdict.Err? && !collector.View().mayHaveRun ==> !enqueued || verdict.error.Rejected?
      ensures !enqueued ==> collector.View() == FRESH
      ensures !enqueued ==> verdict == Err(if StopsWithin(world, OBSERVATIONS) then StopRequested else EnqueueFailed)
    {
      enqueued, verdict := false, Err(StopRequested);
      var stopped := Stopped();
      if stopped {
        return;
      }
      stopped := Stopped();
      if stopped {
        return;
      }
      if !world.execAccepted {
        verdict := Err(EnqueueFailed);
        return;
      }
      trace := trace + [ExecEnqueued(channel)];
      enqueued := true;
      collector.mayHaveRun := true;
      verdict := Collect(collector);
    }

    /** From the opened channel to the end of the task. */
    method UseChannel(answeredEarly: bool)
      requires world.open.Opened? && sender == !answeredEarly
      requires answeredEarly ==> StopVisible()
      requires trace == [SlotTaken, OpenIssued] + (if answeredEarly then [Responded(NotStarted())] else [])
      requires world.slotGranted && world.connected && clock == OBSERVATIONS - 2 && !StopsWithin(world, 3)
      requires answeredEarly <==> StopsWithin(world, 4)
      modifies this
      ensures Good(world, trace)
      ensures AnsweredFromMessages(world, trace)
      ensures RunsExactlyWhenGranted(world, trace)
      ensures RefusedProperly(world, trace)
      ensures Granted(world) && world.stopAt.None? ==> forall r :: Answer(trace, r) <==> r == QueueAnswer(world)
    {
      var channel := world.open.channel;
      trace := trace + [ChannelOpened(channel)];
      var collector := new Collector(world.maxTokens);
      var enqueued, verdict := ExecOn(channel, collector);
      trace := trace + [CloseIssued(channel)];
      var result := collector.Result(verdict);
      SendResult(result);
      trace := trace + [SlotReleased];
      ChannelTraceIsGood(world, channel, answeredEarly, enqueued, result, trace);
      if enqueued && world.stopAt.None? {
        GrantedCommandIsAnswered(world, trace);
      }
    }
  }
}
