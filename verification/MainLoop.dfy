/**
 The main loop (src/iv_main_posix.c): how long it sleeps, given the pending tasks and the
 registered timers, that no timer is forgotten when a turn does not run timers, and that
 the loop is not left as long as there is something to wait for.
 */
module MainLoop {
  import opened Deadlines
  import opened RadixTree
  import opened TimerQueue
  import C = Calls
  import K = Tasks

  /**
   What happens in one turn of the loop: whether the kernel has the timer it needs and finds it
   expired, what handlers of descriptors do, the time then, what handlers of timers and of
   tasks do, and whether any of them calls `iv_quit`.
   */
  datatype Turn = Turn(
    supported: bool, reported: bool, dispatch: seq<C.Op>, clock: Timespec,
    timerScript: seq<seq<C.Op>>, taskScript: seq<seq<C.Op>>, quit: bool)

  /** The registered timers with their times, the tasks, and the poll timeout latch. */
  datatype State = State(times: Times, tasks: K.State, latch: Latch)

  /**
   A turn of a run: the state when it began, the deadline of the wait, the timer that the kernel
   had for it, whether timers were run, which were due in what order and which fired, which
   tasks ran, and the state afterwards.
   */
  datatype TurnRecord = TurnRecord(
    turn: Turn, before: State, abs: Option<Timespec>, timer: Option<Timespec>,
    runTimers: bool, order: seq<Timer>, fired: seq<Timer>, ran: seq<K.Task>, after: State)

  // ---------- What a turn does ----------

  /** The deadline to wait for: none at all while tasks are pending, else the first timer. */
  ghost predicate IsDeadline(abs: Option<Timespec>, pending: seq<K.Task>, times: Times)
  {
    if pending != [] then abs == Some(ZERO)
    else if abs.None? then times == map[]
    else (exists t :: t in times && times[t] == abs.value) && forall t :: t in times ==> Le(abs.value, times[t])
  }

  /** The turn has waited for its deadline, through the latch. */
  ghost predicate Waited(e: TurnRecord)
  {
    var turn, latch := e.turn, e.before.latch;
    && IsDeadline(e.abs, e.before.tasks.tasks, e.before.times)
    && e.timer == TimerFor(latch, turn.supported, e.abs)
    && e.after.latch == AfterPoll(latch, turn.supported, turn.reported, e.abs)
    && e.runTimers == AsksForTimers(latch, turn.supported, turn.reported, e.abs)
  }

  function WorldOf(s: State): C.World { C.World(s.times, [], s.tasks) }

  /** The timers of the pass, if there is one, after the handlers of descriptors have made `w` of what was there. */
  ghost predicate Passes(turn: Turn, runTimers: bool, w: C.World, order: seq<Timer>, fired: seq<Timer>)
  {
    if runTimers then IsDueOrder(order, w.times, turn.clock) && fired == FireOrder(order, C.TimerScript(turn.timerScript), 0)
    else order == [] && fired == []
  }

  /** What is there when timers have been run, if they are. */
  function AfterTimers(turn: Turn, runTimers: bool, w: C.World, order: seq<Timer>, fired: seq<Timer>): C.World
  {
    if runTimers then
      C.World(AfterPass(NotDue(w.times, turn.clock), order, C.TimerScript(turn.timerScript), 0), [],
              K.AfterOps(w.tasks, C.TaskCalls(turn.timerScript, |fired|)))
    else w
  }

  /** The tasks of the pass that begins with `w`, and what is there after it. */
  ghost predicate PassesTasks(turn: Turn, w: C.World, ran: seq<K.Task>, after: C.World)
  {
    var p, script := K.Begun(w.tasks), C.TaskScript(turn.taskScript);
    && K.RunsThrough(p, script, ran)
    && after == C.World(AfterOps(w.times, [], C.TimerCalls(turn.taskScript, |ran|)), [],
                        K.PassAfter(p, script, |ran|).(running := false))
  }

  function Dispatched(e: TurnRecord): C.World
  {
    C.AfterOps(WorldOf(e.before), e.turn.dispatch)
  }

  /** A turn runs the timers that are due and the tasks that are pending, and does what the handlers ask for. */
  ghost predicate DoesItsWork(e: TurnRecord)
  {
    && Passes(e.turn, e.runTimers, Dispatched(e), e.order, e.fired)
    && PassesTasks(e.turn, AfterTimers(e.turn, e.runTimers, Dispatched(e), e.order, e.fired), e.ran, WorldOf(e.after))
  }

  // ---------- What that means for users ----------

  /** The kernel reports its timer exactly when it has expired. */
  predicate Honest(reported: bool, timer: Option<Timespec>, clock: Timespec)
  {
    timer.Some? ==> (reported <==> Le(timer.value, clock))
  }

  /** The timers registered when the wait began, due when it ended, left alone in between, and not among the due ones. */
  ghost function Late(e: TurnRecord): set<Timer>
  {
    set t | t in e.before.times && Le(e.before.times[t], e.turn.clock) && !Mentioned(t, C.TimerOps(e.turn.dispatch)) && t !in e.order
  }

  /** If the kernel is honest about its timer and the clock runs, then no timer is late. */
  ghost predicate OnTime(e: TurnRecord)
  {
    Honest(e.turn.reported, e.timer, e.turn.clock) && Le(Timespec(0, 1), e.turn.clock) ==> Late(e) == {}
  }

  /** A pass over timers overlooks none, also if handlers of descriptors have been called before. */
  lemma PassOverlooksNone(e: TurnRecord)
    requires DoesItsWork(e) && e.runTimers
    ensures Late(e) == {}
  {
    var ops := C.TimerOps(e.turn.dispatch);
    C.ActsSeparately(WorldOf(e.before), e.turn.dispatch);
    forall t | t in e.before.times && Le(e.before.times[t], e.turn.clock) && !Mentioned(t, ops)
      ensures t in e.order
    {
      AfterOpsKeeps(e.before.times, [], ops, t);
    }
  }

  /** If timers are not run after a wait, then none is due that was registered when it began. */
  lemma NoneDue(e: TurnRecord, t: Timer)
    requires Waited(e) && !e.runTimers && Normal(e.before.latch.lastAbs) && t in e.before.times
    requires Honest(e.turn.reported, e.timer, e.turn.clock) && Le(Timespec(0, 1), e.turn.clock)
    ensures !Le(e.before.times[t], e.turn.clock)
  {
  }

  /** That timers are not run in each turn makes none late. */
  lemma WaitsInTime(e: TurnRecord)
    requires Waited(e) && DoesItsWork(e) && Normal(e.before.latch.lastAbs)
    ensures OnTime(e)
  {
    hide Waited, DoesItsWork;
    if e.runTimers {
      PassOverlooksNone(e);
    } else if Honest(e.turn.reported, e.timer, e.turn.clock) && Le(Timespec(0, 1), e.turn.clock) {
      forall t | t in e.before.times
        ensures !Le(e.before.times[t], e.turn.clock)
      {
        NoneDue(e, t);
      }
    }
  }

  /** The calls about tasks that have been made in this turn before tasks are run. */
  function TaskCallsBefore(e: TurnRecord): seq<K.Op>
  {
    C.TaskOps(e.turn.dispatch) + C.TaskCalls(e.turn.timerScript, |e.fired|)
  }

  /** Every task that is pending when a turn begins runs in it, unless a handler unregisters it. */
  ghost predicate NothingPostponed(e: TurnRecord)
  {
    forall t :: t in e.before.tasks.tasks ==>
      || t in e.ran || K.Unregister(t) in TaskCallsBefore(e)
      || K.Asked(K.Unregister(t), C.TaskScript(e.turn.taskScript), |e.ran|)
  }

  lemma PendingTasksRun(e: TurnRecord)
    requires DoesItsWork(e)
    ensures NothingPostponed(e)
  {
    TasksBefore(e);
    var calls := TaskCallsBefore(e);
    var tasks := AfterTimers(e.turn, e.runTimers, Dispatched(e), e.order, e.fired).tasks;
    var p, script := K.Begun(tasks), C.TaskScript(e.turn.taskScript);
    hide DoesItsWork, K.AfterOps, K.PassAfter, K.RanOf, K.Asked;
    forall t | t in e.before.tasks.tasks
      ensures t in e.ran || K.Unregister(t) in calls || K.Asked(K.Unregister(t), script, |e.ran|)
    {
      K.OpsMove(e.before.tasks, calls, t);
      if t in p.current {
        K.PendingRuns(p, script, |e.ran|, t);
      }
    }
  }

  /** A timer that a handler of a descriptor unregisters, and that none registers later, is not run in this turn. */
  lemma CancelledTimerNotRun(e: TurnRecord, i: nat, t: Timer)
    requires DoesItsWork(e) && i < |C.TimerOps(e.turn.dispatch)| && C.TimerOps(e.turn.dispatch)[i] == Unreg(t)
    requires !Registers(t, C.TimerOps(e.turn.dispatch)[i + 1..])
    ensures t !in e.order
  {
    C.ActsSeparately(WorldOf(e.before), e.turn.dispatch);
    LastUnregistered(e.before.times, [], C.TimerOps(e.turn.dispatch), i, t);
  }

  /**
   A task that a handler of a descriptor or a timer unregisters, and that none registers later, is not run
   in this turn and is not pending after it.
   */
  lemma CancelledTaskNotRun(e: TurnRecord, i: nat, t: K.Task)
    requires DoesItsWork(e) && i < |TaskCallsBefore(e)| && TaskCallsBefore(e)[i] == K.Unregister(t)
    requires K.Register(t) !in TaskCallsBefore(e)[i + 1..]
    requires !K.Asked(K.Register(t), C.TaskScript(e.turn.taskScript), |e.ran|)
    ensures t !in e.ran && t !in e.after.tasks.tasks
  {
    TasksBefore(e);
    var tasks := AfterTimers(e.turn, e.runTimers, Dispatched(e), e.order, e.fired).tasks;
    K.OpsUnregister(e.before.tasks, TaskCallsBefore(e), i, t);
    var p, script := K.Begun(tasks), C.TaskScript(e.turn.taskScript);
    hide K.AfterOps, K.PassAfter, K.RanOf, K.Asked;
    if t in e.ran || t in e.after.tasks.tasks {
      K.OnlyAsked(p, script, |e.ran|, t);
    }
  }

  /** What has become of the tasks when they are run. */
  lemma TasksBefore(e: TurnRecord)
    requires DoesItsWork(e)
    ensures AfterTimers(e.turn, e.runTimers, Dispatched(e), e.order, e.fired).tasks == K.AfterOps(e.before.tasks, TaskCallsBefore(e))
  {
    C.ActsSeparately(WorldOf(e.before), e.turn.dispatch);
    var first, more := C.TaskOps(e.turn.dispatch), C.TaskCalls(e.turn.timerScript, |e.fired|);
    if !e.runTimers {
      assert first + more == first;
    }
    K.AfterOpsConcat(e.before.tasks, first, more);
  }

  // ---------- Runs ----------

  /** Each turn takes over where the one before has left off. */
  ghost predicate Continues(log: seq<TurnRecord>)
  {
    forall j, k :: 0 <= j < k < |log| && k == j + 1 ==> log[k].before == log[j].after
  }

  /** No turn is begun after `iv_quit`, or with nothing there to wait for. */
  ghost predicate HadReason(log: seq<TurnRecord>, others: int)
  {
    && (forall j :: 0 <= j < |log| - 1 ==> !log[j].turn.quit)
    && (forall k :: 0 < k < |log| ==> log[k].before.times != map[] || log[k].before.tasks.tasks != [] || others > 0)
  }

  /** What a turn achieves. */
  ghost predicate Achieves(e: TurnRecord)
  {
    DoesItsWork(e) && OnTime(e) && NothingPostponed(e)
  }

  /** What is recorded of a run with these turns, which began in the state `start`. */
  ghost predicate IsLog(log: seq<TurnRecord>, first: Turn, turns: seq<Turn>, start: State, others: int)
  {
    && 1 <= |log| <= 1 + |turns|
    && log[0].turn == first && log[0].runTimers && log[0].before == start && log[0].after.latch == start.latch
    && (forall k :: 0 < k < |log| ==> log[k].turn == turns[k - 1] && Waited(log[k]))
    && Continues(log)
    && (forall e :: e in log ==> Achieves(e))
    && HadReason(log, others)
  }

  lemma FirstRecord(e: TurnRecord, first: Turn, turns: seq<Turn>, start: State, others: int)
    requires DoesItsWork(e) && e.runTimers && e.turn == first && e.before == start && e.after.latch == start.latch
    ensures IsLog([e], first, turns, start, others)
  {
    PassOverlooksNone(e);
    PendingTasksRun(e);
    hide DoesItsWork, NothingPostponed, Waited;
  }

  lemma NextRecord(log: seq<TurnRecord>, e: TurnRecord, first: Turn, turns: seq<Turn>, start: State, others: int)
    requires IsLog(log, first, turns, start, others) && |log| <= |turns| && others >= 0
    requires Achieves(e) && Waited(e) && e.turn == turns[|log| - 1]
    requires e.before == log[|log| - 1].after && !log[|log| - 1].turn.quit
    requires e.before.times != map[] || e.before.tasks.tasks != [] || others != 0
    ensures IsLog(log + [e], first, turns, start, others)
  {
    hide Achieves, Waited;
    var next := log + [e];
    assert forall k :: 0 <= k < |log| ==> next[k] == log[k];
  }

  // ---------- The loop ----------

  ghost predicate NormalTimes(times: Times)
  {
    forall t :: t in times ==> Normal(times[t])
  }

  /** The call is about a timer or a task there is, and sets no negative time. */
  ghost predicate Fine(op: C.Op, allTimers: set<Timer>, allTasks: set<K.Task>)
  {
    match op
    case OnTimer(o) => o.t in allTimers && (o.Reg? ==> Normal(o.at))
    case OnTask(o) => o.t in allTasks
  }

  ghost predicate AllFine(ops: seq<C.Op>, allTimers: set<Timer>, allTasks: set<K.Task>)
  {
    forall op :: op in ops ==> Fine(op, allTimers, allTasks)
  }

  ghost predicate FineScript(script: seq<seq<C.Op>>, allTimers: set<Timer>, allTasks: set<K.Task>)
  {
    forall k: nat :: AllFine(C.Ops(script, k), allTimers, allTasks)
  }

  ghost predicate Plausible(turn: Turn, allTimers: set<Timer>, allTasks: set<K.Task>)
  {
    && AllFine(turn.dispatch, allTimers, allTasks)
    && FineScript(turn.timerScript, allTimers, allTasks) && FineScript(turn.taskScript, allTimers, allTasks)
  }

  lemma FineAt(script: seq<seq<C.Op>>, k: nat, allTimers: set<Timer>, allTasks: set<K.Task>)
    requires FineScript(script, allTimers, allTasks)
    ensures AllFine(C.Ops(script, k), allTimers, allTasks)
  {
  }

  /** A pass over timers that began with `w` stands at `v`, after the handlers of `fired` have been called. */
  ghost predicate Firing(w: C.World, v: C.World, fired: seq<Timer>, script: seq<seq<C.Op>>)
  {
    var timerScript := C.TimerScript(script);
    && fired + FireOrder(v.expired, timerScript, |fired|) == FireOrder(w.expired, timerScript, 0)
    && AfterPass(v.times, v.expired, timerScript, |fired|) == AfterPass(w.times, w.expired, timerScript, 0)
    && v.tasks == K.AfterOps(w.tasks, C.TaskCalls(script, |fired|))
  }

  lemma FiringStarts(w: C.World, script: seq<seq<C.Op>>)
    ensures Firing(w, w, [], script)
  {
    assert [] + FireOrder(w.expired, C.TimerScript(script), 0) == FireOrder(w.expired, C.TimerScript(script), 0);
  }

  lemma FiringNext(w: C.World, v: C.World, fired: seq<Timer>, script: seq<seq<C.Op>>)
    requires Firing(w, v, fired, script) && v.expired != []
    ensures var v' := C.AfterOps(v.(expired := v.expired[1..]), C.Ops(script, |fired|));
      Firing(w, v', fired + [v.expired[0]], script) && |v'.expired| < |v.expired|
  {
    hide C.TimerScript, FireOrder, AfterPass, AfterOps, Strike, C.AfterOps, K.AfterOps, C.TaskCalls, C.TimerOps, C.TaskOps, C.Ops;
    var timerScript, ops := C.TimerScript(script), C.Ops(script, |fired|);
    FireStep(fired, v.expired, timerScript);
    PassStep(v.times, v.expired, timerScript, |fired|);
    C.ScriptOps(script, |fired|);
    C.TaskCallsNext(w.tasks, script, |fired|);
    C.ActsSeparately(v.(expired := v.expired[1..]), ops);
    StrikeShorter(v.expired[1..], C.TimerOps(ops));
  }

  lemma FiringEnds(w: C.World, v: C.World, fired: seq<Timer>, script: seq<seq<C.Op>>)
    requires Firing(w, v, fired, script) && v.expired == []
    ensures fired == FireOrder(w.expired, C.TimerScript(script), 0)
    ensures v == C.World(AfterPass(w.times, w.expired, C.TimerScript(script), 0), [],
                         K.AfterOps(w.tasks, C.TaskCalls(script, |fired|)))
  {
  }

  /** A pass over tasks that began with `w` stands at `v`, after the handlers of `ran` have been called. */
  ghost predicate Running(w: C.World, v: C.World, ran: seq<K.Task>, script: seq<seq<C.Op>>)
  {
    var p, taskScript := K.Begun(w.tasks), C.TaskScript(script);
    && v == C.World(AfterOps(w.times, [], C.TimerCalls(script, |ran|)), [], K.PassAfter(p, taskScript, |ran|))
    && ran == K.RanOf(p, taskScript, |ran|)
  }

  lemma RunningStarts(w: C.World, script: seq<seq<C.Op>>)
    requires w.expired == []
    ensures Running(w, w.(tasks := K.Begun(w.tasks)), [], script)
  {
    assert C.TimerCalls(script, 0) == [];
  }

  lemma RunningNext(w: C.World, v: C.World, ran: seq<K.Task>, script: seq<seq<C.Op>>)
    requires Running(w, v, ran, script) && v.tasks.current != []
    ensures Running(w, C.AfterOps(v.(tasks := K.Started(v.tasks)), C.Ops(script, |ran|)), ran + [v.tasks.current[0]], script)
  {
    hide C.TaskScript, AfterOps, C.AfterOps, K.AfterOps, K.PassAfter, K.RanOf, K.Started, K.Begun, C.Ops, Strike;
    hide C.TimerCalls, C.TimerOps, C.TaskOps;
    var p, taskScript, ops := K.Begun(w.tasks), C.TaskScript(script), C.Ops(script, |ran|);
    K.PassNext(p, taskScript, |ran|);
    C.ScriptOps(script, |ran|);
    C.TimerCallsNext(w.times, script, |ran|);
    C.ActsSeparately(v.(tasks := K.Started(v.tasks)), ops);
    C.NothingToStrike(C.TimerOps(ops));
  }

  lemma RunningEnds(w: C.World, v: C.World, ran: seq<K.Task>, script: seq<seq<C.Op>>)
    requires Running(w, v, ran, script) && v.tasks.current == []
    ensures var p, taskScript := K.Begun(w.tasks), C.TaskScript(script);
      && K.RunsThrough(p, taskScript, ran)
      && v == C.World(AfterOps(w.times, [], C.TimerCalls(script, |ran|)), [], K.PassAfter(p, taskScript, |ran|))
  {
  }

  class Loop {
    const tasks: K.TaskRunner
    const timers: TimerQueue
    const latch: PollLatch
    var runTimers: bool
    var quit: bool

    constructor (tasks: K.TaskRunner, timers: TimerQueue, latch: PollLatch)
      ensures this.tasks == tasks && this.timers == timers && this.latch == latch && runTimers && !quit
    {
      this.tasks, this.timers, this.latch, runTimers, quit := tasks, timers, latch, true, false;
    }

    ghost function World(allTasks: set<K.Task>): C.World
      reads timers, timers.timers`expires, tasks, allTasks
    {
      C.World(timers.TimesOf(), timers.expired, tasks.StateOf(allTasks))
    }

    /** The timers and the tasks are in order. */
    ghost predicate Sound(allTimers: set<Timer>, allTasks: set<K.Task>)
      reads timers, timers.tree, timers.tree.at.Keys, timers.timers, timers.expired, allTimers, tasks
    {
      && timers.Valid() && timers.Knows(allTimers) && NormalTimes(timers.TimesOf())
      && tasks.Valid() && tasks.Knows(allTasks) && tasks.others >= 0
    }

    /** One call made by a handler. */
    method Perform(op: C.Op, ghost allTimers: set<Timer>, ghost allTasks: set<K.Task>)
      requires Sound(allTimers, allTasks) && Fine(op, allTimers, allTasks)
      modifies timers, timers.tree, timers.tree.at.Keys, allTimers, tasks`tasks, tasks`current, tasks`numobjs, allTasks
      ensures Sound(allTimers, allTasks) && fresh(timers.tree.at.Keys - old(timers.tree.at.Keys))
      ensures World(allTasks) == C.AfterOp(old(World(allTasks)), op) && tasks.Eligible(allTasks) <= old(tasks.Eligible(allTasks))
    {
      hide TimerQueue.Valid, TimerQueue.Knows, TimerQueue.TimesOf;
      hide K.TaskRunner.Valid, K.TaskRunner.Knows, K.TaskRunner.StateOf, K.TaskRunner.Eligible, K.AfterOp;
      match op
      case OnTimer(o) => timers.Perform(o, allTimers);
      case OnTask(o) => tasks.Perform(o, allTasks);
    }

    /** A handler makes its calls. */
    method Handle(ops: seq<C.Op>, ghost allTimers: set<Timer>, ghost allTasks: set<K.Task>)
      requires Sound(allTimers, allTasks) && AllFine(ops, allTimers, allTasks)
      modifies timers, timers.tree, timers.tree.at.Keys, allTimers, tasks`tasks, tasks`current, tasks`numobjs, allTasks
      ensures Sound(allTimers, allTasks) && fresh(timers.tree.at.Keys - old(timers.tree.at.Keys))
      ensures World(allTasks) == C.AfterOps(old(World(allTasks)), ops) && tasks.Eligible(allTasks) <= old(tasks.Eligible(allTasks))
    {
      hide Sound, World, Fine, C.AfterOp, K.TaskRunner.Eligible;
      var k := 0;
      while k < |ops|
        invariant k <= |ops| && Sound(allTimers, allTasks) && fresh(timers.tree.at.Keys - old(timers.tree.at.Keys))
        invariant C.AfterOps(World(allTasks), ops[k..]) == C.AfterOps(old(World(allTasks)), ops)
        invariant tasks.Eligible(allTasks) <= old(tasks.Eligible(allTasks))
      {
        assert ops[k] in ops && ops[k..][1..] == ops[k + 1..];
        Perform(ops[k], allTimers, allTasks);
        k := k + 1;
      }
    }

    lemma WorldTells(allTasks: set<K.Task>)
      ensures var w := World(allTasks);
        && w.times == timers.TimesOf() && w.expired == timers.expired && w.tasks == tasks.StateOf(allTasks)
        && w.tasks.tasks == tasks.tasks && w.tasks.current == tasks.current && w.tasks.running == tasks.running
    {
    }

    // ---------- Timers ----------

    /** Take the next expired timer off the list and run its handler. */
    method FireNext(ops: seq<C.Op>, ghost allTimers: set<Timer>, ghost allTasks: set<K.Task>) returns (t: Timer)
      requires Sound(allTimers, allTasks) && AllFine(ops, allTimers, allTasks) && timers.expired != []
      modifies timers, timers.tree, timers.tree.at.Keys, allTimers, tasks`tasks, tasks`current, tasks`numobjs, allTasks
      ensures Sound(allTimers, allTasks) && fresh(timers.tree.at.Keys - old(timers.tree.at.Keys))
      ensures var w := old(World(allTasks));
        w.expired != [] && t == w.expired[0] && World(allTasks) == C.AfterOps(w.(expired := w.expired[1..]), ops)
    {
      hide TimerQueue.Valid, TimerQueue.Knows, TimerQueue.TimesOf, C.AfterOps, AllFine;
      hide K.TaskRunner.Valid, K.TaskRunner.Knows, K.TaskRunner.StateOf;
      t := timers.Unlist(allTimers);
      Handle(ops, allTimers, allTasks);
    }

    /** Run the handlers of the expired timers until none is left. */
    method FireAll(script: seq<seq<C.Op>>, ghost allTimers: set<Timer>, ghost allTasks: set<K.Task>) returns (fired: seq<Timer>)
      requires Sound(allTimers, allTasks) && FineScript(script, allTimers, allTasks)
      modifies timers, timers.tree, timers.tree.at.Keys, allTimers, tasks`tasks, tasks`current, tasks`numobjs, allTasks
      ensures Sound(allTimers, allTasks) && fresh(timers.tree.at.Keys - old(timers.tree.at.Keys))
      ensures var w, timerScript := old(World(allTasks)), C.TimerScript(script);
        && fired == FireOrder(w.expired, timerScript, 0)
        && World(allTasks) == C.World(AfterPass(w.times, w.expired, timerScript, 0), [],
                                      K.AfterOps(w.tasks, C.TaskCalls(script, |fired|)))
    {
      hide *;
      ghost var w := World(allTasks);
      WorldTells(allTasks);
      FiringStarts(w, script);
      fired := [];
      while timers.expired != []
        invariant Sound(allTimers, allTasks) && fresh(timers.tree.at.Keys - old(timers.tree.at.Keys))
        invariant timers.expired == World(allTasks).expired && Firing(w, World(allTasks), fired, script)
        decreases |timers.expired|
      {
        var ops := C.Ops(script, |fired|);
        FineAt(script, |fired|, allTimers, allTasks);
        FiringNext(w, World(allTasks), fired, script);
        var t := FireNext(ops, allTimers, allTasks);
        WorldTells(allTasks);
        fired := fired + [t];
      }
      FiringEnds(w, World(allTasks), fired, script);
    }

    /** `iv_run_timers`. */
    method RunTimers(now: Timespec, script: seq<seq<C.Op>>, ghost allTimers: set<Timer>, ghost allTasks: set<K.Task>)
      returns (fired: seq<Timer>, ghost order: seq<Timer>)
      requires Sound(allTimers, allTasks) && FineScript(script, allTimers, allTasks) && timers.expired == []
      modifies timers, timers.tree, timers.tree.at.Keys, allTimers, tasks`tasks, tasks`current, tasks`numobjs, allTasks
      ensures Sound(allTimers, allTasks) && fresh(timers.tree.at.Keys - old(timers.tree.at.Keys))
      ensures var w, timerScript := old(World(allTasks)), C.TimerScript(script);
        && IsDueOrder(order, w.times, now) && fired == FireOrder(order, timerScript, 0)
        && World(allTasks) == C.World(AfterPass(NotDue(w.times, now), order, timerScript, 0), [],
                                      K.AfterOps(w.tasks, C.TaskCalls(script, |fired|)))
    {
      hide TimerQueue.Valid, TimerQueue.Knows, TimerQueue.TimesOf, FineScript, IsDueOrder, FireOrder, AfterPass;
      hide K.TaskRunner.Valid, K.TaskRunner.Knows, K.TaskRunner.StateOf, K.AfterOps, C.TaskCalls, C.TimerScript;
      var fatal;
      order, fatal := timers.BeginPass(now, allTimers);
      fired := FireAll(script, allTimers, allTasks);
    }

    // ---------- Tasks ----------

    /** Take the next task off the list of the pass and run its handler. */
    method RunNext(ops: seq<C.Op>, ghost allTimers: set<Timer>, ghost allTasks: set<K.Task>) returns (t: K.Task)
      requires Sound(allTimers, allTasks) && AllFine(ops, allTimers, allTasks) && tasks.running && tasks.current != []
      modifies timers, timers.tree, timers.tree.at.Keys, allTimers, tasks`tasks, tasks`current, tasks`numobjs, allTasks
      ensures Sound(allTimers, allTasks) && fresh(timers.tree.at.Keys - old(timers.tree.at.Keys))
      ensures tasks.Eligible(allTasks) < old(tasks.Eligible(allTasks))
      ensures var w := old(World(allTasks));
        w.tasks.current != [] && t == w.tasks.current[0] && World(allTasks) == C.AfterOps(w.(tasks := K.Started(w.tasks)), ops)
    {
      hide TimerQueue.Valid, TimerQueue.Knows, TimerQueue.TimesOf, C.AfterOps, AllFine;
      hide K.TaskRunner.Valid, K.TaskRunner.Knows, K.TaskRunner.Eligible, K.Started;
      t := tasks.Next(allTasks);
      Handle(ops, allTimers, allTasks);
    }

    /** `iv_run_tasks`. */
    method RunTasks(script: seq<seq<C.Op>>, ghost allTimers: set<Timer>, ghost allTasks: set<K.Task>) returns (ran: seq<K.Task>)
      requires Sound(allTimers, allTasks) && FineScript(script, allTimers, allTasks) && timers.expired == [] && !tasks.running
      modifies timers, timers.tree, timers.tree.at.Keys, allTimers, tasks, allTasks
      ensures Sound(allTimers, allTasks) && fresh(timers.tree.at.Keys - old(timers.tree.at.Keys)) && tasks.others == old(tasks.others)
      ensures var w, taskScript := old(World(allTasks)), C.TaskScript(script);
        var p := K.Begun(w.tasks);
        && K.RunsThrough(p, taskScript, ran)
        && World(allTasks) == C.World(AfterOps(w.times, [], C.TimerCalls(script, |ran|)), [],
                                      K.PassAfter(p, taskScript, |ran|).(running := false))
    {
      hide *;
      ghost var w := World(allTasks);
      WorldTells(allTasks);
      BeginTasks(allTimers, allTasks);
      RunningStarts(w, script);
      ran := [];
      WorldTells(allTasks);
      while tasks.current != []
        invariant Sound(allTimers, allTasks) && fresh(timers.tree.at.Keys - old(timers.tree.at.Keys))
        invariant tasks.running && tasks.others == old(tasks.others)
        invariant tasks.current == World(allTasks).tasks.current && Running(w, World(allTasks), ran, script)
        decreases tasks.Eligible(allTasks)
      {
        var ops := C.Ops(script, |ran|);
        FineAt(script, |ran|, allTimers, allTasks);
        RunningNext(w, World(allTasks), ran, script);
        var t := RunNext(ops, allTimers, allTasks);
        WorldTells(allTasks);
        ran := ran + [t];
      }
      RunningEnds(w, World(allTasks), ran, script);
      EndTasks(allTimers, allTasks);
    }

    method BeginTasks(ghost allTimers: set<Timer>, ghost allTasks: set<K.Task>)
      requires Sound(allTimers, allTasks) && !tasks.running
      modifies tasks
      ensures Sound(allTimers, allTasks) && tasks.running && tasks.others == old(tasks.others)
      ensures World(allTasks) == old(World(allTasks)).(tasks := K.Begun(old(World(allTasks)).tasks))
    {
      hide TimerQueue.Valid, TimerQueue.Knows, TimerQueue.TimesOf, K.TaskRunner.Valid, K.TaskRunner.Knows;
      tasks.BeginPass(allTasks);
    }

    method EndTasks(ghost allTimers: set<Timer>, ghost allTasks: set<K.Task>)
      requires Sound(allTimers, allTasks) && tasks.running && tasks.current == []
      modifies tasks`running
      ensures Sound(allTimers, allTasks) && !tasks.running
      ensures var w := old(World(allTasks)); World(allTasks) == w.(tasks := w.tasks.(running := false))
    {
      hide TimerQueue.Valid, TimerQueue.Knows, TimerQueue.TimesOf, K.TaskRunner.Valid, K.TaskRunner.Knows;
      tasks.EndPass(allTasks);
    }

    // ---------- Turns ----------

    ghost predicate Valid(allTimers: set<Timer>, allTasks: set<K.Task>)
      reads timers, timers.tree, timers.tree.at.Keys, timers.timers, timers.expired, allTimers, latch, tasks
    {
      Sound(allTimers, allTasks) && timers.expired == [] && !tasks.running && latch.Valid()
    }

    ghost function Now(allTasks: set<K.Task>): State
      reads timers, timers.timers`expires, tasks, allTasks, latch
    {
      State(timers.TimesOf(), tasks.StateOf(allTasks), latch.State())
    }

    lemma TimesTell()
      ensures var times := timers.TimesOf();
        && (forall t :: t in times ==> t in timers.timers)
        && (forall t :: t in timers.timers ==> t in times && times[t] == t.expires)
    {
    }

    method Deadline() returns (abs: Option<Timespec>)
      requires timers.Valid()
      ensures IsDeadline(abs, tasks.tasks, timers.TimesOf())
    {
      TimesTell();
      hide TimerQueue.TimesOf;
      if tasks.tasks != [] {
        abs := Some(ZERO);
      } else {
        abs := timers.SoonestTimeout();
      }
    }

    /**
     Wait.  The kernel wakes the loop at once while tasks are pending, and no later than
     the first timer expires otherwise.  If a timer is due when the wait ends, timers are run.
     */
    method Wait(supported: bool, reported: bool)
      returns (ghost abs: Option<Timespec>, ghost wake: Option<Timespec>, ghost timer: Option<Timespec>)
      requires timers.Valid() && latch.Valid() && NormalTimes(timers.TimesOf())
      modifies latch, this`runTimers
      ensures latch.Valid() && IsDeadline(abs, tasks.tasks, timers.TimesOf())
      ensures timer == TimerFor(old(latch.State()), supported, abs)
      ensures latch.State() == AfterPoll(old(latch.State()), supported, reported, abs)
      ensures runTimers == AsksForTimers(old(latch.State()), supported, reported, abs)
      ensures wake == Earlier(timer, if timer.Some? then None else abs)
      ensures tasks.tasks != [] ==> wake.Some? && Le(wake.value, Timespec(0, 1))
      ensures tasks.tasks == [] ==>
              forall t :: t in timers.timers ==>
                wake.Some? && (Le(wake.value, t.expires) || (t.expires == ZERO && wake.value == Timespec(0, 1)))
      ensures forall clock, t ::
                (t in timers.timers && Le(t.expires, clock) && Le(Timespec(0, 1), clock) && Honest(reported, timer, clock))
                ==> runTimers && wake.Some? && Le(wake.value, clock)
    {
      hide TimerQueue.Valid, TimerQueue.TimesOf;
      TimesTell();
      var deadline := Deadline();
      abs := deadline;
      var passed;
      passed, runTimers, wake, timer := latch.Poll(deadline, supported, reported);
    }

    /** After the wait: handlers of descriptors, then timers. */
    method Serve(turn: Turn, ghost allTimers: set<Timer>, ghost allTasks: set<K.Task>)
      returns (fired: seq<Timer>, ghost order: seq<Timer>)
      requires Sound(allTimers, allTasks) && timers.expired == []
      requires AllFine(turn.dispatch, allTimers, allTasks) && FineScript(turn.timerScript, allTimers, allTasks)
      modifies timers, timers.tree, timers.tree.at.Keys, allTimers, tasks`tasks, tasks`current, tasks`numobjs, allTasks
      ensures Sound(allTimers, allTasks) && fresh(timers.tree.at.Keys - old(timers.tree.at.Keys)) && timers.expired == []
      ensures var w := C.AfterOps(old(World(allTasks)), turn.dispatch);
        Passes(turn, runTimers, w, order, fired) && World(allTasks) == AfterTimers(turn, runTimers, w, order, fired)
    {
      hide Sound, World, AllFine, FineScript, IsDueOrder, AfterPass, FireOrder, C.AfterOps, K.AfterOps, C.TaskCalls, C.TimerScript;
      WorldTells(allTasks);
      C.ActsSeparately(World(allTasks), turn.dispatch);
      C.NothingToStrike(C.TimerOps(turn.dispatch));
      Handle(turn.dispatch, allTimers, allTasks);
      WorldTells(allTasks);
      fired, order := [], [];
      if runTimers {
        fired, order := RunTimers(turn.clock, turn.timerScript, allTimers, allTasks);
        WorldTells(allTasks);
      }
    }

    /** Then tasks. */
    method Finish(turn: Turn, ghost allTimers: set<Timer>, ghost allTasks: set<K.Task>) returns (ran: seq<K.Task>)
      requires Sound(allTimers, allTasks) && FineScript(turn.taskScript, allTimers, allTasks)
      requires timers.expired == [] && !tasks.running
      modifies timers, timers.tree, timers.tree.at.Keys, allTimers, tasks, allTasks
      ensures Sound(allTimers, allTasks) && fresh(timers.tree.at.Keys - old(timers.tree.at.Keys)) && timers.expired == []
      ensures !tasks.running && tasks.others == old(tasks.others)
      ensures PassesTasks(turn, old(World(allTasks)), ran, World(allTasks))
    {
      hide Sound, World, FineScript, K.RunsThrough, K.PassAfter, C.TimerCalls, AfterOps;
      ran := RunTasks(turn.taskScript, allTimers, allTasks);
      WorldTells(allTasks);
    }

    /** After the wait: handlers of descriptors, timers, tasks. */
    method Work(turn: Turn, ghost before: State, ghost abs: Option<Timespec>, ghost timer: Option<Timespec>,
                ghost allTimers: set<Timer>, ghost allTasks: set<K.Task>)
      returns (fired: seq<Timer>, ran: seq<K.Task>, ghost e: TurnRecord)
      requires Valid(allTimers, allTasks) && Plausible(turn, allTimers, allTasks)
      requires before.times == timers.TimesOf() && before.tasks == tasks.StateOf(allTasks)
      modifies this`quit, timers, timers.tree, timers.tree.at.Keys, allTimers, tasks, allTasks
      ensures Valid(allTimers, allTasks) && fresh(timers.tree.at.Keys - old(timers.tree.at.Keys))
      ensures quit == (old(quit) || turn.quit) && tasks.others == old(tasks.others)
      ensures e == TurnRecord(turn, before, abs, timer, runTimers, e.order, fired, ran, Now(allTasks))
      ensures DoesItsWork(e)
    {
      hide Sound, World, AllFine, FineScript, Passes, AfterTimers, PassesTasks, PollLatch.Valid, C.AfterOps;
      hide TimerQueue.TimesOf, K.TaskRunner.StateOf;
      WorldTells(allTasks);
      ghost var order;
      fired, order := Serve(turn, allTimers, allTasks);
      WorldTells(allTasks);
      ran := Finish(turn, allTimers, allTasks);
      WorldTells(allTasks);
      quit := quit || turn.quit;
      e := TurnRecord(turn, before, abs, timer, runTimers, order, fired, ran, Now(allTasks));
    }

    /**
     One turn: wait, call the handlers of descriptors, run timers if the wait asks for it, run
     tasks.  Every timer that was registered when the wait began and is due when it
     ends is run, unless a handler called in between has interfered with it: that
     timers are not run in each turn strands none.
     */
    method OneTurn(turn: Turn, ghost allTimers: set<Timer>, ghost allTasks: set<K.Task>)
      returns (fired: seq<Timer>, ran: seq<K.Task>, ghost e: TurnRecord)
      requires Valid(allTimers, allTasks) && Plausible(turn, allTimers, allTasks)
      modifies this, latch, timers, timers.tree, timers.tree.at.Keys, allTimers, tasks, allTasks
      ensures Valid(allTimers, allTasks) && fresh(timers.tree.at.Keys - old(timers.tree.at.Keys))
      ensures quit == (old(quit) || turn.quit) && tasks.others == old(tasks.others)
      ensures e == TurnRecord(turn, old(Now(allTasks)), e.abs, e.timer, runTimers, e.order, fired, ran, Now(allTasks))
      ensures Waited(e) && Achieves(e)
    {
      hide TimerQueue.Valid, TimerQueue.Knows, TimerQueue.TimesOf, NormalTimes, DoesItsWork, OnTime, NothingPostponed, Plausible;
      hide K.TaskRunner.Valid, K.TaskRunner.Knows, TimerFor, AfterPoll, AsksForTimers, IsDeadline;
      assert Normal(latch.lastAbs);
      hide PollLatch.Valid;
      ghost var before := Now(allTasks);
      ghost var abs, wake, timer;
      abs, wake, timer := Wait(turn.supported, turn.reported);
      fired, ran, e := Work(turn, before, abs, timer, allTimers, allTasks);
      WaitsInTime(e);
      PendingTasksRun(e);
    }

    /** Nothing is registered or pending. */
    ghost predicate Idle()
      reads timers, timers.timers, tasks
    {
      timers.TimesOf() == map[] && tasks.tasks == [] && tasks.others == 0
    }

    /** The test for leaving the loop: it is left when told so, or when nothing is registered or pending. */
    method Leaves(ghost allTimers: set<Timer>, ghost allTasks: set<K.Task>) returns (leave: bool)
      requires Valid(allTimers, allTasks)
      ensures leave <==> quit || Idle()
    {
      timers.Counted();
      hide TimerQueue.Valid, TimerQueue.Knows;
      leave := quit || tasks.numobjs + timers.numobjs == 0;
      assert timers.TimesOf().Keys == timers.timers;
    }

    lemma Busy(allTimers: set<Timer>, allTasks: set<K.Task>)
      requires Valid(allTimers, allTasks) && !Idle()
      ensures tasks.others >= 0
      ensures Now(allTasks).times != map[] || Now(allTasks).tasks.tasks != [] || tasks.others != 0
    {
    }

    /** Another turn of a run, as there is reason for it, and the test that follows. */
    method NextTurn(turn: Turn, ghost log: seq<TurnRecord>, ghost first: Turn, ghost turns: seq<Turn>, ghost start: State,
                    ghost allTimers: set<Timer>, ghost allTasks: set<K.Task>)
      returns (left: bool, ghost e: TurnRecord)
      requires Valid(allTimers, allTasks) && Plausible(turn, allTimers, allTasks) && !quit && !Idle()
      requires IsLog(log, first, turns, start, tasks.others) && |log| <= |turns| && turn == turns[|log| - 1]
      requires log[|log| - 1].after == Now(allTasks) && !log[|log| - 1].turn.quit
      modifies this, latch, timers, timers.tree, timers.tree.at.Keys, allTimers, tasks, allTasks
      ensures Valid(allTimers, allTasks) && tasks.others == old(tasks.others)
      ensures fresh(timers.tree.at.Keys - old(timers.tree.at.Keys))
      ensures IsLog(log + [e], first, turns, start, tasks.others)
      ensures e.after == Now(allTasks) && quit == e.turn.quit && (left <==> quit || Idle())
    {
      hide *;
      Busy(allTimers, allTasks);
      var fired, ran;
      fired, ran, e := OneTurn(turn, allTimers, allTasks);
      NextRecord(log, e, first, turns, start, tasks.others);
      left := Leaves(allTimers, allTasks);
    }

    /**
     `iv_main`, for any number of turns; the first has no wait and calls no handlers of descriptors.
     Whatever state the latch is in, each turn waits as the latch tells it, does its work on
     what the one before has left, leaves no timer behind and postpones no task; the loop
     is left exactly when `iv_quit` has been called in the last turn, or when nothing is
     registered or pending.
     */
    method Run(first: Turn, turns: seq<Turn>, ghost allTimers: set<Timer>, ghost allTasks: set<K.Task>)
      returns (left: bool, ghost log: seq<TurnRecord>)
      requires Valid(allTimers, allTasks) && Plausible(first, allTimers, allTasks) && first.dispatch == []
      requires forall turn :: turn in turns ==> Plausible(turn, allTimers, allTasks)
      modifies this, latch, timers, timers.tree, timers.tree.at.Keys, allTimers, tasks, allTasks
      ensures Valid(allTimers, allTasks) && tasks.others == old(tasks.others)
      ensures IsLog(log, first, turns, old(Now(allTasks)), tasks.others) && (!left ==> |log| == 1 + |turns|)
      ensures log[|log| - 1].after == Now(allTasks)
      ensures left <==> log[|log| - 1].turn.quit || Idle()
    {
      hide *;
      runTimers, quit := true, false;
      ghost var start := Now(allTasks);
      NowTells(allTasks);
      var fired, ran;
      ghost var e;
      fired, ran, e := Work(first, start, None, None, allTimers, allTasks);
      NowTells(allTasks);
      FirstRecord(e, first, turns, start, tasks.others);
      log := [e];
      left := Leaves(allTimers, allTasks);
      var k := 0;
      while !left && k < |turns|
        invariant k <= |turns| && |log| == 1 + k
        invariant Valid(allTimers, allTasks) && fresh(timers.tree.at.Keys - old(timers.tree.at.Keys))
        invariant tasks.others == old(tasks.others) && IsLog(log, first, turns, start, tasks.others)
        invariant log[k].after == Now(allTasks) && quit == log[k].turn.quit && (left <==> quit || Idle())
      {
        assert turns[k] in turns;
        left, e := NextTurn(turns[k], log, first, turns, start, allTimers, allTasks);
        log := log + [e];
        k := k + 1;
      }
    }

    lemma NowTells(allTasks: set<K.Task>)
      ensures var s := Now(allTasks); s == State(timers.TimesOf(), tasks.StateOf(allTasks), latch.State())
    {
    }
  }
}
