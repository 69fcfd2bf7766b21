/**
 Cross-thread events (src/iv_event.c) as a transition system.

 Any thread may post an event to the thread that owns it.  Posting queues the
 event under the owner's lock and, if the queue was empty, wakes the owner
 after the lock has been dropped.  The owner steals the whole queue and runs the
 handlers from the stolen batch.  A step is one lock-held block, or one action
 between two of them, so that a poster that has dropped the lock and has not yet
 sent its wakeup is a state of its own.  So is an owner in the middle of an unregistration,
 which looks whether the event is queued before it takes the lock.
 */
module Events {

  import opened Lists

  type EventId = nat

  // ---------- What users see ----------

  /** Posts, handler calls and unregistrations, in the order in which they happen. */
  datatype Happening = Post(e: EventId) | Run(e: EventId) | Unregister(e: EventId)

  /** The events that still have to be run, as one queue in which repeated posts coalesce. */
  function Waiting(log: seq<Happening>): seq<EventId>
  {
    if log == [] then [] else
      var w, h := Waiting(log[..|log| - 1]), log[|log| - 1];
      match h
      case Post(e) => if e in w then w else w + [e]
      case Run(e) => Without(w, e)
      case Unregister(e) => Without(w, e)
  }

  /** Handlers run only for the event at the head of the queue. */
  ghost predicate InOrder(log: seq<Happening>)
  {
    forall k :: 0 <= k < |log| && log[k].Run? ==> Waiting(log[..k]) != [] && Waiting(log[..k])[0] == log[k].e
  }

  function Count(log: seq<Happening>, h: Happening): nat
  {
    if log == [] then 0 else Count(log[..|log| - 1], h) + if log[|log| - 1] == h then 1 else 0
  }

  lemma {:induction false} RunsNeverOutnumberPosts(log: seq<Happening>, e: EventId)
    requires InOrder(log)
    ensures Count(log, Run(e)) + (if e in Waiting(log) then 1 else 0) <= Count(log, Post(e))
  {
    if log != [] {
      var n := |log| - 1;
      assert forall k :: 0 <= k < n ==> log[..n][..k] == log[..k];
      RunsNeverOutnumberPosts(log[..n], e);
    }
  }

  /** A post is answered by a later run of the handler, unless the event waits or was unregistered. */
  lemma {:induction false} PostIsAnswered(log: seq<Happening>, i: nat) returns (j: nat)
    requires i < |log| && log[i].Post? && log[i].e !in Waiting(log)
    ensures i < j < |log| && (log[j] == Run(log[i].e) || log[j] == Unregister(log[i].e))
  {
    var n := |log| - 1;
    var e := log[i].e;
    if log[n] == Run(e) || log[n] == Unregister(e) {
      j := n;
    } else {
      assert e !in Waiting(log[..n]) && i < n;
      j := PostIsAnswered(log[..n], i);
    }
  }

  // ---------- State ----------

  /** Where the owner is; `emptyNow` remembers that the running handler is the last of its batch. */
  datatype Owner = Looping | Draining | Handling(emptyNow: bool)

  /**
   An unregistration on its way.  The event has been found on a list; it has been taken off, which leaves
   its list node looking occupied; or it was on none.
   */
  datatype Leaving = Nobody | Found(e: EventId) | Detached(e: EventId) | Missed(e: EventId)

  /**
   `count` is the number of registered events; the owner can be reached by other threads while
   the channel is on, which it is from the first registration to the last unregistration.
   `fatal` records a wakeup sent to a channel that is off.
   */
  datatype State = State(
    registered: set<EventId>, count: nat, channel: bool, fatal: bool, pending: seq<EventId>, batch: seq<EventId>, owner: Owner,
    leaving: Leaving, kickers: nat, kicked: bool, taskDue: bool, taskQueued: bool,
    log: seq<Happening>)

  function Init(): State
  {
    State({}, 0, false, false, [], [], Looping, Nobody, 0, false, false, false, [])
  }

  datatype Step =
    | DoRegister(e: EventId)
    | DoUnregister(e: EventId)
    | DoDetach
    | DoForget
    | DoPost(e: EventId, local: bool)
    | DoKick
    | DoQueueTask
    | DoTakeKick
    | DoTakeTask
    | DoSteal
    | DoReturn

  /** The owner runs user code: a handler of ours, or any other part of its event loop. */
  predicate InUserCode(s: State)
  {
    !s.owner.Draining? && !s.taskDue && s.leaving.Nobody?
  }

  predicate Enabled(s: State, a: Step)
  {
    match a
    case DoRegister(e) => InUserCode(s) && e !in s.registered
    case DoUnregister(e) => InUserCode(s) && e in s.registered
    case DoDetach => s.leaving.Found?
    case DoForget => s.leaving.Detached? || s.leaving.Missed?
    case DoPost(e, local) => e in s.registered && (local ==> InUserCode(s))
    case DoKick => s.kickers > 0
    case DoQueueTask => s.taskDue
    case DoTakeKick => s.owner.Looping? && InUserCode(s) && s.kicked
    case DoTakeTask => s.owner.Looping? && InUserCode(s) && s.taskQueued
    case DoSteal => s.owner.Draining?
    case DoReturn => s.owner.Handling? && InUserCode(s)
  }

  /** Queue the event unless its list node is in use; wake the owner if its queue was empty. */
  function ApplyPost(s: State, e: EventId, local: bool): State
  {
    var s' := s.(log := s.log + [Post(e)]);
    if e in s.pending || e in s.batch || s.leaving == Detached(e) then s'
    else
      var s2 := s'.(pending := s.pending + [e]);
      if s.pending != [] then s2
      else if local then s2.(taskDue := true)
      else s2.(kickers := s.kickers + 1)
  }

  /** Start the handler of the first event of the batch. */
  function RunNext(s: State): State
    requires s.batch != []
  {
    s.(batch := s.batch[1..], owner := Handling(s.batch[1..] == []), log := s.log + [Run(s.batch[0])])
  }

  function Steal(s: State): State
  {
    if s.pending == [] then s.(owner := Looping)
    else RunNext(s.(batch := s.pending, pending := []))
  }

  function Return(s: State): State
    requires s.owner.Handling?
  {
    if s.owner.emptyNow || s.batch == [] then s.(owner := Looping) else RunNext(s)
  }

  /** An unregistration begins: without the lock, it looks whether the event is on a list. */
  function ApplyUnregister(s: State, e: EventId): State
  {
    s.(leaving := if e in s.pending || e in s.batch then Found(e) else Missed(e))
  }

  /** With the lock, the event is taken off its list. */
  function Detach(s: State): State
    requires s.leaving.Found?
  {
    var e := s.leaving.e;
    s.(pending := Without(s.pending, e), batch := Without(s.batch, e), leaving := Detached(e))
  }

  /** The unregistration ends; the last one turns the channel off. */
  function Forget(s: State): State
    requires s.leaving.Detached? || s.leaving.Missed?
  {
    var e, last := s.leaving.e, s.count <= 1;
    s.(registered := s.registered - {e}, leaving := Nobody,
       count := if last then 0 else s.count - 1, channel := s.channel && !last, kicked := s.kicked && !last,
       log := s.log + [Unregister(e)])
  }

  /** The first registration turns the channel on. */
  function ApplyRegister(s: State, e: EventId): State
  {
    s.(registered := s.registered + {e}, count := s.count + 1, channel := s.channel || s.count == 0)
  }

  /** A poster in another thread sends its wakeup. */
  function Kick(s: State): State
    requires s.kickers > 0
  {
    var s' := s.(kickers := s.kickers - 1);
    if s.channel then s'.(kicked := true) else s'.(fatal := true)
  }

  function Apply(s: State, a: Step): State
    requires Enabled(s, a)
  {
    match a
    case DoRegister(e) => ApplyRegister(s, e)
    case DoUnregister(e) => ApplyUnregister(s, e)
    case DoDetach => Detach(s)
    case DoForget => Forget(s)
    case DoPost(e, local) => ApplyPost(s, e, local)
    case DoKick => Kick(s)
    case DoQueueTask => s.(taskDue := false, taskQueued := true)
    case DoTakeKick => s.(kicked := false, owner := Draining)
    case DoTakeTask => s.(taskQueued := false, owner := Draining)
    case DoSteal => Steal(s)
    case DoReturn => Return(s)
  }

  predicate Legal(s: State, run: seq<Step>)
    decreases |run|
  {
    run == [] || (Enabled(s, run[0]) && Legal(Apply(s, run[0]), run[1..]))
  }

  function Exec(s: State, run: seq<Step>): State
    requires Legal(s, run)
    decreases |run|
  {
    if run == [] then s else Exec(Apply(s, run[0]), run[1..])
  }

  // ---------- The invariant ----------

  /** Somebody is going to look at the queue. */
  predicate WakeupDue(s: State)
  {
    s.kicked || s.taskQueued || s.taskDue || s.kickers > 0 || s.owner.Draining?
  }

  /** An event that is on its way out is owed no longer once it has been taken off its list. */
  function Owed(log: seq<Happening>, leaving: Leaving): seq<EventId>
  {
    if leaving.Detached? then Without(Waiting(log), leaving.e) else Waiting(log)
  }

  /** The two lists together are what users are owed. */
  ghost predicate QueueOk(batch: seq<EventId>, pending: seq<EventId>, leaving: Leaving, log: seq<Happening>)
  {
    batch + pending == Owed(log, leaving) && InOrder(log)
  }

  /** The owner is unregistering one of its events; if it has found the event on no list, then it is on none. */
  predicate LeavingOk(s: State)
  {
    && (!s.leaving.Nobody? ==> s.leaving.e in s.registered && !s.owner.Draining? && !s.taskDue)
    && (s.leaving.Missed? ==> s.leaving.e !in s.pending && s.leaving.e !in s.batch)
  }

  ghost predicate AllIn(queue: seq<EventId>, registered: set<EventId>)
  {
    forall e :: e in queue ==> e in registered
  }

  ghost predicate Inv(s: State)
  {
    && QueueOk(s.batch, s.pending, s.leaving, s.log) && LeavingOk(s)
    && AllIn(s.batch, s.registered) && AllIn(s.pending, s.registered)
    && s.count == |s.registered| && (s.channel <==> s.count > 0)
    && (s.pending != [] ==> WakeupDue(s)) && (s.kicked ==> s.channel)
    && (s.batch != [] ==> s.owner == Handling(false))
  }

  /** An event waits at most once. */
  lemma {:induction false} WaitingDistinct(log: seq<Happening>)
    ensures Distinct(Waiting(log))
  {
    if log != [] {
      var n := |log| - 1;
      WaitingDistinct(log[..n]);
      WithoutDistinct(Waiting(log[..n]), log[n].e);
      if log[n].e !in Waiting(log[..n]) {
        AppendDistinct(Waiting(log[..n]), log[n].e);
      }
    }
  }

  lemma InOrderAppend(log: seq<Happening>, h: Happening)
    requires InOrder(log) && (h.Run? ==> Waiting(log) != [] && Waiting(log)[0] == h.e)
    ensures InOrder(log + [h])
  {
    var log' := log + [h];
    forall k | 0 <= k < |log'| && log'[k].Run?
      ensures Waiting(log'[..k]) != [] && Waiting(log'[..k])[0] == log'[k].e
    {
      assert log'[..k] == log[..k];
      assert k == |log| ==> log[..k] == log;
    }
  }

  lemma WaitingPost(log: seq<Happening>, e: EventId)
    ensures Waiting(log + [Post(e)]) == if e in Waiting(log) then Waiting(log) else Waiting(log) + [e]
  {
    assert (log + [Post(e)])[..|log|] == log;
  }

  lemma OwedPost(log: seq<Happening>, leaving: Leaving, e: EventId)
    ensures Owed(log + [Post(e)], leaving) ==
            if e in Owed(log, leaving) || leaving == Detached(e) then Owed(log, leaving) else Owed(log, leaving) + [e]
  {
    WaitingPost(log, e);
    if leaving.Detached? {
      WithoutConcat(Waiting(log), [e], leaving.e);
    }
  }

  lemma PostQueue(batch: seq<EventId>, pending: seq<EventId>, leaving: Leaving, log: seq<Happening>, e: EventId)
    requires QueueOk(batch, pending, leaving, log)
    ensures QueueOk(batch, if e in pending || e in batch || leaving == Detached(e) then pending else pending + [e], leaving,
                    log + [Post(e)])
  {
    InOrderAppend(log, Post(e));
    hide InOrder, Owed;
    OwedPost(log, leaving, e);
    var w := Owed(log, leaving);
    if e in batch || e in pending {
      assert e in w;
    } else {
      assert e !in w && w + [e] == batch + (pending + [e]);
    }
  }

  /**
   A post that comes too late: the owner has looked for the event and found it on no list, so it
   will not take the event off the list on which the post puts it.
   */
  predicate TooLate(s: State, a: Step)
  {
    a.DoPost? && s.leaving == Missed(a.e)
  }

  lemma PostKeeps(s: State, e: EventId, local: bool)
    requires Inv(s) && Enabled(s, DoPost(e, local)) && !TooLate(s, DoPost(e, local))
    ensures Inv(ApplyPost(s, e, local))
  {
    PostQueue(s.batch, s.pending, s.leaving, s.log, e);
    hide QueueOk;
  }

  lemma PostedOntoList(s: State, e: EventId, local: bool)
    requires Inv(s) && Enabled(s, DoPost(e, local)) && TooLate(s, DoPost(e, local))
    ensures var s' := ApplyPost(s, e, local);
      e in s'.pending && s'.leaving == Missed(e) && s'.registered == s.registered
  {
  }

  /** With no event registered, nothing is queued. */
  lemma NothingQueued(queue: seq<EventId>, registered: set<EventId>)
    requires AllIn(queue, registered)
    ensures registered == {} ==> queue == []
  {
    if queue != [] {
      assert queue[0] in queue && queue[0] in registered;
    }
  }

  lemma WaitingUnregister(log: seq<Happening>, e: EventId)
    ensures Waiting(log + [Unregister(e)]) == Without(Waiting(log), e)
  {
    assert (log + [Unregister(e)])[..|log|] == log;
  }

  lemma UnregisterKeeps(s: State, e: EventId)
    requires Inv(s) && Enabled(s, DoUnregister(e))
    ensures Inv(ApplyUnregister(s, e))
  {
  }

  lemma DetachKeeps(s: State)
    requires Inv(s) && s.leaving.Found?
    ensures Inv(Detach(s))
  {
    WithoutConcat(s.batch, s.pending, s.leaving.e);
  }

  lemma ForgetQueue(batch: seq<EventId>, pending: seq<EventId>, leaving: Leaving, log: seq<Happening>)
    requires QueueOk(batch, pending, leaving, log) && (leaving.Detached? || leaving.Missed?)
    requires leaving.Missed? ==> leaving.e !in pending && leaving.e !in batch
    ensures QueueOk(batch, pending, Nobody, log + [Unregister(leaving.e)])
    ensures leaving.e !in pending && leaving.e !in batch
  {
    InOrderAppend(log, Unregister(leaving.e));
    WaitingUnregister(log, leaving.e);
    hide InOrder, Waiting;
    assert leaving.e !in batch + pending;
  }

  lemma AllInWithout(queue: seq<EventId>, registered: set<EventId>, e: EventId)
    requires AllIn(queue, registered) && e !in queue
    ensures AllIn(queue, registered - {e})
    ensures registered == {e} ==> queue == []
  {
    NothingQueued(queue, registered - {e});
  }

  lemma OneLess(registered: set<EventId>, e: EventId)
    requires e in registered
    ensures |registered - {e}| == |registered| - 1 && (|registered| <= 1 ==> registered == {e})
  {
    assert |registered| <= 1 ==> |registered - {e}| == 0;
  }

  lemma ForgetKeeps(s: State)
    requires Inv(s) && Enabled(s, DoForget)
    ensures Inv(Forget(s))
  {
    var e := s.leaving.e;
    ForgetQueue(s.batch, s.pending, s.leaving, s.log);
    AllInWithout(s.pending, s.registered, e);
    AllInWithout(s.batch, s.registered, e);
    hide QueueOk, AllIn;
    OneLess(s.registered, e);
  }

  lemma WaitingRun(log: seq<Happening>)
    requires Waiting(log) != []
    ensures Waiting(log + [Run(Waiting(log)[0])]) == Waiting(log)[1..]
  {
    var h := Run(Waiting(log)[0]);
    assert (log + [h])[..|log|] == log;
    WaitingDistinct(log);
    WithoutDistinct(Waiting(log), h.e);
  }

  /** The batch is the front of the queue, so its first event is the next one due. */
  lemma RunQueue(batch: seq<EventId>, pending: seq<EventId>, log: seq<Happening>)
    requires QueueOk(batch, pending, Nobody, log) && batch != []
    ensures QueueOk(batch[1..], pending, Nobody, log + [Run(batch[0])])
  {
    InOrderAppend(log, Run(batch[0]));
    hide InOrder, Waiting;
    WaitingRun(log);
    assert (batch + pending)[1..] == batch[1..] + pending;
  }

  lemma RunNextKeeps(s: State)
    requires QueueOk(s.batch, s.pending, s.leaving, s.log) && s.batch != [] && s.leaving.Nobody?
    requires AllIn(s.batch, s.registered) && AllIn(s.pending, s.registered)
    requires s.count == |s.registered| && (s.channel <==> s.count > 0)
    requires s.pending != [] ==> s.kicked || s.taskQueued || s.taskDue || s.kickers > 0
    requires s.kicked ==> s.channel
    ensures Inv(RunNext(s))
  {
    RunQueue(s.batch, s.pending, s.log);
    hide QueueOk;
  }

  lemma StealKeeps(s: State)
    requires Inv(s) && Enabled(s, DoSteal)
    ensures Inv(Steal(s))
  {
    if s.pending != [] {
      assert s.batch == [] && s.batch + s.pending == s.pending + [];
      assert QueueOk(s.pending, [], s.leaving, s.log);
      hide QueueOk, RunNext;
      RunNextKeeps(s.(batch := s.pending, pending := []));
    }
  }

  lemma ReturnKeeps(s: State)
    requires Inv(s) && Enabled(s, DoReturn)
    ensures Inv(Return(s))
  {
    hide QueueOk, RunNext, AllIn;
    if s.batch != [] {
      RunNextKeeps(s);
    }
  }

  /** Each step of each thread keeps the invariant, except exactly a post that comes too late. */
  lemma StepKeeps(s: State, a: Step)
    requires Inv(s) && Enabled(s, a)
    ensures Inv(Apply(s, a)) <==> !TooLate(s, a)
  {
    hide QueueOk, Steal, Return, ApplyPost, Detach, Forget;
    NothingQueued(s.pending, s.registered);
    match a {
      case DoPost(e, local) =>
        if TooLate(s, a) {
          PostedOntoList(s, e, local);
        } else {
          PostKeeps(s, e, local);
        }
      case DoUnregister(e) => UnregisterKeeps(s, e);
      case DoDetach => DetachKeeps(s);
      case DoForget => ForgetKeeps(s);
      case DoSteal => StealKeeps(s);
      case DoReturn => ReturnKeeps(s);
      case _ =>
    }
  }

  /** No event is posted after its unregistration has found it on no list. */
  predicate InTime(s: State, run: seq<Step>)
    requires Legal(s, run)
    decreases |run|
  {
    run == [] || (!TooLate(s, run[0]) && InTime(Apply(s, run[0]), run[1..]))
  }

  lemma {:induction false} RunKeeps(s: State, run: seq<Step>)
    requires Inv(s) && Legal(s, run) && InTime(s, run)
    ensures Inv(Exec(s, run))
    decreases |run|
  {
    hide Inv, Apply, Enabled;
    if run != [] {
      StepKeeps(s, run[0]);
      RunKeeps(Apply(s, run[0]), run[1..]);
    }
  }

  ghost predicate Reachable(s: State)
  {
    exists run :: Legal(Init(), run) && InTime(Init(), run) && s == Exec(Init(), run)
  }

  lemma ReachableOk(s: State)
    requires Reachable(s)
    ensures Inv(s)
  {
    var run :| Legal(Init(), run) && InTime(Init(), run) && s == Exec(Init(), run);
    RunKeeps(Init(), run);
  }

  /**
   Stealing, batching and waking refine one coalescing queue: what is in the two
   lists is what users are owed, and handlers run in the order of that queue.
   */
  lemma OneQueue(s: State)
    requires Reachable(s)
    ensures s.batch + s.pending == Owed(s.log, s.leaving) && InOrder(s.log)
  {
    ReachableOk(s);
  }

  /** A post sends a wakeup exactly if it makes the pending list non-empty: a task of its own thread, or a kick from another. */
  lemma PostWakes(s: State, e: EventId, local: bool)
    requires Enabled(s, DoPost(e, local))
    ensures var s' := Apply(s, DoPost(e, local));
      var wakes := s.pending == [] && s'.pending != [];
      && s'.kickers == s.kickers + (if wakes && !local then 1 else 0)
      && s'.taskDue == (s.taskDue || (wakes && local))
      && (e in s'.pending || e in s.batch || s.leaving == Detached(e))
  {
  }

  /** Whatever is queued is registered, so no handler is called after the unregistration of its event. */
  lemma QueuedAreRegistered(s: State, e: EventId)
    requires Reachable(s) && (e in s.pending || e in s.batch)
    ensures e in s.registered && s.leaving != Detached(e) && s.leaving != Missed(e)
  {
    ReachableOk(s);
    if s.leaving.Detached? {
      assert s.leaving.e !in s.batch + s.pending;
    }
  }

  lemma NoLostWakeup(s: State)
    requires Reachable(s) && s.pending != []
    ensures WakeupDue(s)
  {
    ReachableOk(s);
  }

  lemma HandlersNeverOutnumberPosts(s: State, e: EventId)
    requires Reachable(s)
    ensures Count(s.log, Run(e)) <= Count(s.log, Post(e))
  {
    ReachableOk(s);
    RunsNeverOutnumberPosts(s.log, e);
  }

  // ---------- The channel ----------

  /** A wakeup finds the channel off exactly when no event is registered any more. */
  lemma KickFails(s: State)
    requires Reachable(s) && s.kickers > 0 && !s.fatal
    ensures Kick(s).fatal <==> s.registered == {}
    ensures Kick(s).kicked == (s.registered != {})
  {
    ReachableOk(s);
  }

  /** The last event is not unregistered while a poster has yet to send its wakeup. */
  predicate Careful(s: State, run: seq<Step>)
    requires Legal(s, run)
    decreases |run|
  {
    run == [] ||
    ((run[0].DoForget? && s.count == 1 ==> s.kickers == 0) && Careful(Apply(s, run[0]), run[1..]))
  }

  /** Every poster that has yet to send its wakeup has somebody to send it to. */
  predicate KicksWelcome(s: State)
  {
    !s.fatal && (s.kickers > 0 ==> s.count > 0)
  }

  lemma CarefulStep(s: State, a: Step)
    requires Inv(s) && Enabled(s, a) && KicksWelcome(s) && (a.DoForget? && s.count == 1 ==> s.kickers == 0)
    ensures KicksWelcome(Apply(s, a))
  {
    hide QueueOk, Without;
    if a.DoPost? {
      assert a.e in s.registered && |s.registered| > 0;
    }
  }

  /** Then no wakeup is ever sent to a channel that is off. */
  lemma {:induction false} CarefulRunsAreSafe(s: State, run: seq<Step>)
    requires Inv(s) && Legal(s, run) && InTime(s, run) && Careful(s, run) && KicksWelcome(s)
    ensures KicksWelcome(Exec(s, run))
    decreases |run|
  {
    hide Inv, Apply, Enabled, KicksWelcome;
    if run != [] {
      StepKeeps(s, run[0]);
      CarefulStep(s, run[0]);
      CarefulRunsAreSafe(Apply(s, run[0]), run[1..]);
    }
  }

  /** And the care is needed each time: without it the very next step can be the one that fails. */
  lemma CarelessStep(s: State)
    requires Reachable(s) && Enabled(s, DoForget) && s.count == 1 && s.kickers > 0
    ensures var s' := Apply(s, DoForget); Enabled(s', DoKick) && Apply(s', DoKick).fatal
  {
    ReachableOk(s);
    hide QueueOk, Without;
  }

  lemma {:induction false} OneMore(s: State, run: seq<Step>, a: Step)
    requires Legal(s, run) && Enabled(Exec(s, run), a)
    ensures Legal(s, run + [a]) && Exec(s, run + [a]) == Apply(Exec(s, run), a)
    ensures InTime(s, run + [a]) <==> InTime(s, run) && !TooLate(Exec(s, run), a)
    decreases |run|
  {
    hide Apply, Enabled, TooLate;
    if run == [] {
      assert run + [a] == [a] && [a][1..] == [];
    } else {
      assert (run + [a])[0] == run[0] && (run + [a])[1..] == run[1..] + [a];
      OneMore(Apply(s, run[0]), run[1..], a);
    }
  }

  lemma Extend(run: seq<Step>, a: Step) returns (run': seq<Step>)
    requires Legal(Init(), run) && Enabled(Exec(Init(), run), a)
    ensures run' == run + [a] && Legal(Init(), run') && Exec(Init(), run') == Apply(Exec(Init(), run), a)
    ensures InTime(Init(), run') <==> InTime(Init(), run) && !TooLate(Exec(Init(), run), a)
  {
    OneMore(Init(), run, a);
    run' := run + [a];
  }

  /**
   Without that care it can happen: the handler of an event unregisters it, as is allowed, after the
   owner has found it in the queue for another reason than the wakeup of its poster.
   */
  lemma UnsentWakeup() returns (run: seq<Step>)
    ensures Legal(Init(), run) && InTime(Init(), run) && Exec(Init(), run).fatal
  {
    run := Extend([], DoRegister(0));
    run := Extend(run, DoPost(0, true));
    run := Extend(run, DoQueueTask);
    run := Extend(run, DoUnregister(0));
    run := Extend(run, DoDetach);
    run := Extend(run, DoForget);
    run := Extend(run, DoRegister(1));
    run := Extend(run, DoPost(1, false));
    run := Extend(run, DoTakeTask);
    run := Extend(run, DoSteal);
    run := Extend(run, DoUnregister(1));
    run := Extend(run, DoForget);
    run := Extend(run, DoKick);
  }

  // ---------- Posts that come too late ----------

  /** Whenever a post comes too late, the unregistration can end with the event still queued. */
  lemma LatePostStrands(s: State, a: Step)
    requires Reachable(s) && Enabled(s, a) && TooLate(s, a)
    ensures var s' := Apply(s, a); Enabled(s', DoForget) && a.e in Forget(s').pending && a.e !in Forget(s').registered
  {
    ReachableOk(s);
    PostedOntoList(s, a.e, a.local);
  }

  /** Then the handler of an event is called after its unregistration. */
  lemma RunsUnregistered() returns (run: seq<Step>)
    ensures Legal(Init(), run)
    ensures var s := Exec(Init(), run); Unregister(0) in s.log && s.log[|s.log| - 1] == Run(0) && 0 !in s.registered
  {
    run := Extend([], DoRegister(0));
    run := Extend(run, DoRegister(1));
    run := Extend(run, DoUnregister(0));
    run := Extend(run, DoPost(0, false));
    run := Extend(run, DoForget);
    run := Extend(run, DoKick);
    run := Extend(run, DoTakeKick);
    run := Extend(run, DoSteal);
  }

  // ---------- Progress ----------

  /** Steps that need no user call. */
  predicate Internal(a: Step)
  {
    !a.DoRegister? && !a.DoUnregister? && !a.DoPost?
  }

  ghost predicate Quiet(s: State)
  {
    forall a :: Internal(a) ==> !Enabled(s, a)
  }

  function Rank(s: State): nat
  {
    |s.pending| + |s.batch| + 3 * s.kickers
    + (if s.kicked then 2 else 0) + (if s.taskQueued then 2 else 0) + (if s.taskDue then 3 else 0)
    + (if s.owner.Looping? then 0 else 1) + (if s.leaving.Nobody? then 0 else if s.leaving.Found? then 2 else 1)
  }

  lemma RunNextRank(s: State)
    requires s.batch != [] && !s.owner.Looping?
    ensures Rank(RunNext(s)) < Rank(s)
  {
  }

  lemma RankFalls(s: State, a: Step)
    requires Enabled(s, a) && Internal(a)
    ensures Rank(Apply(s, a)) < Rank(s)
  {
    hide Without, ApplyPost, ApplyRegister, ApplyUnregister, RunNext;
    match a {
      case DoSteal =>
        if s.pending != [] {
          StealRank(s);
        }
      case DoReturn =>
        if s.batch != [] {
          RunNextRank(s);
        }
      case _ =>
    }
  }

  lemma StealRank(s: State)
    requires Enabled(s, DoSteal) && s.pending != []
    ensures Rank(Steal(s)) < Rank(s)
  {
    hide RunNext;
    RunNextRank(s.(batch := s.pending, pending := []));
  }

  lemma {:induction false} ComesToRest(s: State, run: seq<Step>)
    requires Legal(s, run) && forall k :: 0 <= k < |run| ==> Internal(run[k])
    ensures |run| <= Rank(s)
    decreases |run|
  {
    hide Apply, Enabled, Rank;
    if run != [] {
      assert Internal(run[0]);
      RankFalls(s, run[0]);
      ComesToRest(Apply(s, run[0]), run[1..]);
    }
  }

  lemma {:induction false} InternalInTime(s: State, run: seq<Step>)
    requires Legal(s, run) && forall k :: 0 <= k < |run| ==> Internal(run[k])
    ensures InTime(s, run)
    decreases |run|
  {
    if run != [] {
      assert Internal(run[0]);
      hide Apply, Enabled;
      InternalInTime(Apply(s, run[0]), run[1..]);
    }
  }

  /** When nothing is left to do, no event waits. */
  lemma RestMeansAnswered(s: State)
    requires Inv(s) && Quiet(s)
    ensures Waiting(s.log) == []
  {
    assert !Enabled(s, DoKick) && !Enabled(s, DoQueueTask) && !Enabled(s, DoTakeKick) && !Enabled(s, DoTakeTask);
    assert !Enabled(s, DoSteal) && !Enabled(s, DoReturn) && !Enabled(s, DoDetach) && !Enabled(s, DoForget);
  }

  /**
   Every post is answered: left to themselves the threads come to rest within a
   known number of steps, and then every post has been followed by a run of its handler or
   an unregistration.
   */
  lemma EveryPostIsAnswered(s: State, run: seq<Step>, i: nat) returns (j: nat)
    requires Reachable(s) && Legal(s, run) && forall k :: 0 <= k < |run| ==> Internal(run[k])
    requires Quiet(Exec(s, run)) && i < |Exec(s, run).log| && Exec(s, run).log[i].Post?
    ensures |run| <= Rank(s)
    ensures var log := Exec(s, run).log; i < j < |log| && (log[j] == Run(log[i].e) || log[j] == Unregister(log[i].e))
  {
    hide Inv, Apply, Enabled, Rank, Quiet, Waiting;
    ReachableOk(s);
    ComesToRest(s, run);
    InternalInTime(s, run);
    RunKeeps(s, run);
    RestMeansAnswered(Exec(s, run));
    j := PostIsAnswered(Exec(s, run).log, i);
  }
}
