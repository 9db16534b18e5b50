/**
 Handing the connection attempt from one task to the next (src/ssh/connection.rs): a contender registers for
 the notification before it inspects the owner flag, and a dropped guard first clears the flag and then wakes
 everybody who is registered. The two steps of the drop are separate here, so other tasks may run in between.
 */
module ConnectHandoff {
  import opened Basics

  datatype Contender =
    | Registered(notified: bool)
    | Waiting(notified: bool)
    | Owning
    | Releasing
    | Gone

  type Id = nat

  datatype Attempt = Attempt(flag: bool, tasks: map<Id, Contender>)

  datatype Event =
    | Register(id: Id)
    | TryOwn(id: Id)
    | ClearFlag(id: Id)      // the guard's drop, however the owner ends
    | NotifyAll(id: Id)      // and its second half
    | Wake(id: Id)
    | GiveUp(id: Id)         // a contender or waiter is cancelled

  const NOBODY := Attempt(false, map[])

  function At(s: Attempt, id: Id): Contender {
    if id in s.tasks then s.tasks[id] else Gone
  }

  function Notified(t: Contender): Contender {
    match t
    case Registered(_) => Registered(true)
    case Waiting(_) => Waiting(true)
    case _ => t
  }

  /** One step; `None` when the event is not enabled. */
  function Apply(s: Attempt, e: Event): Option<Attempt> {
    match e
    case Register(id) =>
      if id in s.tasks then None else Some(s.(tasks := s.tasks[id := Registered(false)]))
    case TryOwn(id) =>
      if !At(s, id).Registered? then None
      else if s.flag then Some(s.(tasks := s.tasks[id := Waiting(At(s, id).notified)]))
      else Some(Attempt(true, s.tasks[id := Owning]))
    case ClearFlag(id) =>
      if !At(s, id).Owning? then None else Some(Attempt(false, s.tasks[id := Releasing]))
    case NotifyAll(id) =>
      if !At(s, id).Releasing? then None
      else Some(s.(tasks := map a | a in s.tasks :: if a == id then Gone else Notified(s.tasks[a])))
    case Wake(id) =>
      if At(s, id) != Waiting(true) then None else Some(s.(tasks := s.tasks[id := Gone]))
    case GiveUp(id) =>
      if !At(s, id).Registered? && !At(s, id).Waiting? then None else Some(s.(tasks := s.tasks[id := Gone]))
  }

  function Run(s: Attempt, events: seq<Event>): Option<Attempt>
    decreases |events|
  {
    if events == [] then Some(s)
    else
      var next := Apply(s, events[0]);
      if next.None? then None else Run(next.value, events[1..])
  }

  ghost predicate HasOwner(s: Attempt) {
    exists a :: a in s.tasks && s.tasks[a].Owning?
  }

  /** Somebody will still notify: an owner, or a task between the two halves of its guard's drop. */
  ghost predicate WillNotify(s: Attempt) {
    exists a :: a in s.tasks && (s.tasks[a].Owning? || s.tasks[a].Releasing?)
  }

  ghost predicate Inv(s: Attempt) {
    && (forall a, b :: a in s.tasks && b in s.tasks && s.tasks[a].Owning? && s.tasks[b].Owning? ==> a == b)
    && (s.flag <==> HasOwner(s))
    && (forall w :: w in s.tasks && s.tasks[w] == Waiting(false) ==> WillNotify(s))
  }

  lemma StaysNotifying(s: Attempt, s': Attempt, id: Id)
    requires WillNotify(s) && id in s'.tasks && s'.tasks == s.tasks[id := s'.tasks[id]]
    requires At(s, id).Owning? || At(s, id).Releasing? ==> s'.tasks[id].Owning? || s'.tasks[id].Releasing?
    ensures WillNotify(s')
  {
    var a :| a in s.tasks && (s.tasks[a].Owning? || s.tasks[a].Releasing?);
    assert a in s'.tasks && (s'.tasks[a].Owning? || s'.tasks[a].Releasing?);
  }

  lemma KeepsOwner(s: Attempt, s': Attempt, id: Id)
    requires id in s'.tasks && s'.tasks == s.tasks[id := s'.tasks[id]]
    requires At(s, id).Owning? <==> s'.tasks[id].Owning?
    ensures HasOwner(s) <==> HasOwner(s')
  {
    if a :| a in s.tasks && s.tasks[a].Owning? {
      assert a in s'.tasks && s'.tasks[a].Owning?;
    }
    if a :| a in s'.tasks && s'.tasks[a].Owning? {
      assert a in s.tasks && s.tasks[a].Owning?;
    }
  }

  lemma NotifyKeepsInv(s: Attempt, id: Id)
    requires Inv(s) && At(s, id).Releasing?
    ensures Inv(Apply(s, NotifyAll(id)).value)
  {
    var s' := Apply(s, NotifyAll(id)).value;
    assert forall a :: a in s.tasks && s.tasks[a].Owning? ==> a in s'.tasks && s'.tasks[a].Owning?;
    assert forall a :: a in s'.tasks && s'.tasks[a].Owning? ==> a in s.tasks && s.tasks[a].Owning?;
  }

  lemma TakeOverKeepsInv(s: Attempt, id: Id)
    requires Inv(s) && ((At(s, id).Registered? && !s.flag) || At(s, id).Owning?)
    ensures At(s, id).Registered? ==> Inv(Apply(s, TryOwn(id)).value)
    ensures At(s, id).Owning? ==> Inv(Apply(s, ClearFlag(id)).value)
  {
    if At(s, id).Registered? {
      var s' := Apply(s, TryOwn(id)).value;
      assert id in s'.tasks && s'.tasks[id].Owning?;
      assert !HasOwner(s);
    } else {
      var s' := Apply(s, ClearFlag(id)).value;
      assert id in s'.tasks && s'.tasks[id].Releasing?;
    }
  }

  lemma StepKeepsInv(s: Attempt, e: Event)
    requires Inv(s) && Apply(s, e).Some?
    ensures Inv(Apply(s, e).value)
  {
    var s' := Apply(s, e).value;
    if e.NotifyAll? {
      NotifyKeepsInv(s, e.id);
    } else if e.ClearFlag? || (e.TryOwn? && !s.flag) {
      TakeOverKeepsInv(s, e.id);
    } else {
      KeepsOwner(s, s', e.id);
      forall w | w in s'.tasks && s'.tasks[w] == Waiting(false) ensures WillNotify(s') {
        if w == e.id {
          var a :| a in s.tasks && s.tasks[a].Owning?;
          assert WillNotify(s);
        } else {
          assert w in s.tasks && s.tasks[w] == Waiting(false);
        }
        StaysNotifying(s, s', e.id);
      }
    }
  }

  lemma {:induction false} RunKeepsInv(s: Attempt, events: seq<Event>)
    requires Inv(s) && Run(s, events).Some?
    ensures Inv(Run(s, events).value)
    decreases |events|
  {
    if events != [] {
      StepKeepsInv(s, events[0]);
      RunKeepsInv(Apply(s, events[0]).value, events[1..]);
    }
  }

  /**
   No wake-up is lost: in every run, a waiter that has not been notified has somebody left who will notify it,
   although the flag may already be down or in other hands.
   */
  lemma NoWaiterIsForgotten(events: seq<Event>, waiter: Id)
    requires Run(NOBODY, events).Some? && At(Run(NOBODY, events).value, waiter) == Waiting(false)
    ensures WillNotify(Run(NOBODY, events).value)
  {
    RunKeepsInv(NOBODY, events);
  }

  /**
   However an owner ends, its guard's drop frees the flag at once, so that the next contender wins it, and when
   the drop is complete every task that was waiting can go on.
   */
  lemma DroppedGuardWakesEveryone(s: Attempt, owner: Id, waiter: Id, next: Id)
    requires At(s, owner).Owning? && At(s, waiter).Waiting? && At(s, next).Registered?
    ensures
      var cleared := Apply(s, ClearFlag(owner));
      && cleared.Some? && !cleared.value.flag
      && (var won := Apply(cleared.value, TryOwn(next)); won.Some? && At(won.value, next).Owning?)
      && var dropped := Apply(cleared.value, NotifyAll(owner));
         dropped.Some? && Apply(dropped.value, Wake(waiter)).Some?
  {
    var cleared := Apply(s, ClearFlag(owner)).value;
    var dropped := Apply(cleared, NotifyAll(owner)).value;
    assert waiter in cleared.tasks && waiter != owner;
    assert dropped.tasks[waiter] == Waiting(true);
  }

  /** A contender that registered before the drop was complete keeps the notification: it will not sleep on it. */
  lemma RegisteredKeepsTheNotification(s: Attempt, owner: Id, contender: Id)
    requires At(s, owner).Releasing? && At(s, contender).Registered? && s.flag
    ensures
      var dropped := Apply(s, NotifyAll(owner));
      && dropped.Some?
      && var waits := Apply(dropped.value, TryOwn(contender));
         waits.Some? && Apply(waits.value, Wake(contender)).Some?
  {
    var dropped := Apply(s, NotifyAll(owner)).value;
    assert contender in s.tasks && contender != owner;
    assert dropped.tasks[contender] == Registered(true);
  }
}
