/**
 The worker pool of src/iv_work.c as a transition system.

 One step is one block of code that runs while holding the pool lock, or one
 action of a thread's event loop between two such blocks: taking a posted event
 off the pending list, or a timer going off.  A step sequence is therefore an
 interleaving of the owner thread with any number of worker threads.
 */
module WorkPool {

  import opened Lists

  // ---------- 32-bit sequence numbers ----------

  const WORD := 0x1_0000_0000

  /** The difference of two uint32_t values, read as an int32_t. */
  function SignedDifference(a: int, b: int): int
  {
    var d := (a - b) % WORD;
    if d < WORD / 2 then d else d - WORD
  }

  /** The wrapped comparison decides the order of the unwrapped counters inside a window of 2^31. */
  lemma WrappedOrder(last: nat, head: nat)
    requires -WORD / 2 <= last - head < WORD / 2
    ensures SignedDifference(last % WORD, head % WORD) == last - head
  {
    var q := last / WORD - head / WORD;
    assert last % WORD - head % WORD == (last - head) - q * WORD;
    ModUnique(last % WORD - head % WORD, last - head, -q);
  }

  lemma ModUnique(a: int, b: int, k: int)
    requires a == b + k * WORD
    ensures a % WORD == b % WORD
  {
    var d := a / WORD - b / WORD - k;
    assert a % WORD - b % WORD == -d * WORD;
  }

  /** Just outside the window the comparison gives the wrong answer, on either side. */
  lemma WrappedOrderIsTight(n: nat)
    ensures SignedDifference((n + WORD / 2) % WORD, n % WORD) < 0
    ensures SignedDifference(n % WORD, (n + WORD / 2 + 1) % WORD) > 0
  {
    ModUnique((n + WORD / 2) % WORD - n % WORD, WORD / 2, n / WORD - (n + WORD / 2) / WORD);
    ModUnique(n % WORD - (n + WORD / 2 + 1) % WORD, -WORD / 2 - 1, (n + WORD / 2 + 1) / WORD - n / WORD);
  }

  // ---------- State ----------

  type ThreadId = nat
  type ItemId = nat

  /** Where a worker thread is; `mark` is the value of the tail counter before it was cut to 32 bits. */
  datatype Pc =
    | Starting
    | Waiting
    | Entering
    | Working(item: ItemId, lastSeq: nat, mark: nat)
    | TimingOut

  datatype Worker = Worker(pc: Pc, kicked: bool, kickPosted: bool, armed: bool)

  /** Where the owner thread is: in its event loop, or inside one of the pool's event handlers. */
  datatype Owner = Away | Needing | Stealing | Collecting(items: seq<ItemId>)

  /** The life of a work item. */
  datatype Stage = Queued | InWork(t: ThreadId) | Done | Collected | Completed

  /**
   `stage`, `began` and `completed` are history: item number i is the i-th item ever
   submitted, `began` lists the calls of `work` and `completed` those of `completion`.
   `broken` records a fatal error, the use of a freed pool or thread, or a pop from
   an empty list.
   */
  datatype Pool = Pool(
    max: nat, started: int, shutting: bool,
    workers: map<ThreadId, Worker>, idle: seq<ThreadId>, nextThread: ThreadId,
    seqHead: nat, seqTail: nat, queue: seq<ItemId>, done: seq<ItemId>,
    evPosted: bool, neededPosted: bool, owner: Owner,
    freed: nat, broken: bool,
    stage: seq<Stage>, began: seq<ItemId>, completed: seq<ItemId>)

  function Init(max: nat): Pool
  {
    Pool(max, 0, false, map[], [], 0, 0, 0, [], [], false, false, Away, 0, false, [], [], [])
  }

  function Set(s: Pool, t: ThreadId, w: Worker): Pool
  {
    s.(workers := s.workers[t := w])
  }

  function Fail(s: Pool, bad: bool): Pool
  {
    s.(broken := s.broken || bad)
  }

  // ---------- Worker threads ----------

  /** The thread leaves the pool. */
  function Die(s: Pool, t: ThreadId): Pool
    requires t in s.workers
  {
    var w := s.workers[t];
    Fail(s, w.kicked || t in s.idle || w.armed).(
      workers := s.workers - {t}, started := s.started - 1,
      evPosted := s.evPosted || (s.shutting && s.started == 1))
  }

  /** Take the first item off the queue and call its `work` function. */
  function Pop(s: Pool, t: ThreadId, lastSeq: nat, mark: nat): Pool
    requires t in s.workers
  {
    if s.queue == [] || s.queue[0] >= |s.stage| then
      Fail(s, true)
    else
      var i := s.queue[0];
      Set(s, t, s.workers[t].(pc := Working(i, lastSeq, mark))).(
        seqHead := (s.seqHead + 1) % WORD, queue := s.queue[1..],
        stage := s.stage[i := InWork(t)], began := s.began + [i])
  }

  /** What a worker does after its loop: go idle, leave, or make sure it comes back. */
  function Tail(s: Pool, t: ThreadId): Pool
    requires t in s.workers
  {
    var w := s.workers[t].(pc := Waiting);
    if s.seqHead == s.seqTail then
      if !s.shutting then
        Set(Fail(s, w.armed), t, w.(armed := true)).(idle := [t] + s.idle)
      else
        Die(s, t)
    else
      Set(s, t, w.(kickPosted := true))
  }

  function Loop(s: Pool, t: ThreadId, lastSeq: nat, mark: nat): Pool
    requires t in s.workers
  {
    if SignedDifference(lastSeq, s.seqHead) > 0 then Pop(s, t, lastSeq, mark) else Tail(s, t)
  }

  function GotEvent(s: Pool, t: ThreadId): Pool
    requires t in s.workers
  {
    var w := s.workers[t].(kicked := false);
    var s1 := if t in s.idle
              then Set(Fail(s, !w.armed), t, w.(armed := false)).(idle := Without(s.idle, t))
              else Set(s, t, w);
    Loop(s1, t, s.seqTail, |s.stage|)
  }

  /** `work` returned: put the item on the done list and go round the loop. */
  function Finish(s: Pool, t: ThreadId): Pool
    requires t in s.workers && s.workers[t].pc.Working?
  {
    var pc := s.workers[t].pc;
    if pc.item >= |s.stage| then
      Fail(s, true)
    else
      Loop(Set(s, t, s.workers[t].(pc := Entering)).(
             evPosted := s.evPosted || s.done == [], done := s.done + [pc.item],
             stage := s.stage[pc.item := Done]), t, pc.lastSeq, pc.mark)
  }

  function IdleTimeout(s: Pool, t: ThreadId): Pool
    requires t in s.workers
  {
    var w := s.workers[t].(pc := Waiting);
    if w.kicked then
      Set(Fail(s, w.armed), t, w.(armed := true))
    else
      Die(s.(idle := Without(s.idle, t)), t)
  }

  // ---------- Owner thread ----------

  function AddWorker(s: Pool): Pool
  {
    Set(s, s.nextThread, Worker(Starting, false, false, false)).(
      started := s.started + 1, nextThread := s.nextThread + 1)
  }

  function Enqueue(s: Pool): Pool
  {
    s.(seqTail := (s.seqTail + 1) % WORD, queue := s.queue + [|s.stage|], stage := s.stage + [Queued])
  }

  /** Kick the worker that went idle last; if none is idle, start a thread or have one started. */
  function Tell(s: Pool, fromOwner: bool): Pool
  {
    if s.idle != [] then
      if s.idle[0] in s.workers then
        Set(s, s.idle[0], s.workers[s.idle[0]].(kicked := true, kickPosted := true))
      else
        Fail(s, true)
    else if s.started < s.max then
      if fromOwner then AddWorker(s) else s.(neededPosted := true)
    else
      s
  }

  function Submit(s: Pool, fromOwner: bool): Pool
  {
    Tell(Enqueue(s), fromOwner)
  }

  function Needed(s: Pool): Pool
  {
    var s1 := s.(owner := Away);
    if s.idle == [] && s.started < s.max then AddWorker(s1) else s1
  }

  /** After the completions: free the pool once it is shutting down and nothing is left. */
  function Leave(s: Pool): Pool
  {
    var s1 := s.(owner := Away);
    if s.shutting && s.started == 0 && s.done == [] then
      s1.(freed := s.freed + 1, evPosted := false, neededPosted := false)
    else
      s1
  }

  function Put(s: Pool): Pool
  {
    var s1 := s.(shutting := true);
    if s.started == 0 then
      s1.(evPosted := true)
    else
      s1.(workers := map t | t in s.workers ::
            if t in s.idle then s.workers[t].(kickPosted := true) else s.workers[t])
  }

  // ---------- Steps and runs ----------

  datatype Step =
    | DoSubmit
    | DoContinue(t: ThreadId)
    | DoPut
    | DoTakeNeeded
    | DoNeeded
    | DoTakeEv
    | DoSteal
    | DoComplete
    | DoLeave
    | DoStart(t: ThreadId)
    | DoTakeKick(t: ThreadId)
    | DoGotEvent(t: ThreadId)
    | DoFinish(t: ThreadId)
    | DoTimerFires(t: ThreadId)
    | DoIdleTimeout(t: ThreadId)

  predicate InUserCode(s: Pool)
  {
    s.owner.Away? || s.owner.Collecting?
  }

  /** The thread runs code of the user: `thread_start`, `work`, or a handler of its own event loop. */
  predicate InOwnCode(pc: Pc)
  {
    pc.Starting? || pc.Waiting? || pc.Working?
  }

  predicate At(s: Pool, t: ThreadId, pc: Pc)
  {
    t in s.workers && s.workers[t].pc == pc
  }

  predicate Enabled(s: Pool, a: Step)
  {
    match a
    case DoSubmit => InUserCode(s) && !s.shutting
    case DoContinue(t) => t in s.workers && InOwnCode(s.workers[t].pc) && !s.shutting
    case DoPut => InUserCode(s) && !s.shutting
    case DoTakeNeeded => s.owner.Away? && s.neededPosted
    case DoNeeded => s.owner.Needing?
    case DoTakeEv => s.owner.Away? && s.evPosted
    case DoSteal => s.owner.Stealing?
    case DoComplete => s.owner.Collecting? && s.owner.items != []
    case DoLeave => s.owner == Collecting([])
    case DoStart(t) => At(s, t, Starting)
    case DoTakeKick(t) => At(s, t, Waiting) && s.workers[t].kickPosted
    case DoGotEvent(t) => At(s, t, Entering)
    case DoFinish(t) => t in s.workers && s.workers[t].pc.Working?
    case DoTimerFires(t) => At(s, t, Waiting) && s.workers[t].armed
    case DoIdleTimeout(t) => At(s, t, TimingOut)
  }

  function Collect(s: Pool): Pool
    requires s.owner.Stealing?
  {
    s.(owner := Collecting(s.done), done := [],
       stage := seq(|s.stage|, i requires 0 <= i < |s.stage| => if s.stage[i] == Done then Collected else s.stage[i]))
  }

  function Complete(s: Pool): Pool
    requires Enabled(s, DoComplete)
  {
    var i := s.owner.items[0];
    if i >= |s.stage| then Fail(s, true) else
    s.(owner := Collecting(s.owner.items[1..]), stage := s.stage[i := Completed], completed := s.completed + [i])
  }

  /** Every step reaches into the pool, which must not have been freed. */
  function Apply(s: Pool, a: Step): Pool
    requires Enabled(s, a)
  {
    var s := Fail(s, s.freed > 0);
    match a
    case DoSubmit => Submit(s, true)
    case DoContinue(t) => Submit(s, false)
    case DoPut => Put(s)
    case DoTakeNeeded => s.(owner := Needing, neededPosted := false)
    case DoNeeded => Needed(s)
    case DoTakeEv => s.(owner := Stealing, evPosted := false)
    case DoSteal => Collect(s)
    case DoComplete => Complete(s)
    case DoLeave => Leave(s)
    case DoStart(t) => Set(s, t, s.workers[t].(pc := Waiting, kickPosted := true))
    case DoTakeKick(t) => Set(s, t, s.workers[t].(pc := Entering, kickPosted := false))
    case DoGotEvent(t) => GotEvent(s, t)
    case DoFinish(t) => Finish(s, t)
    case DoTimerFires(t) => Set(s, t, s.workers[t].(pc := TimingOut, armed := false))
    case DoIdleTimeout(t) => IdleTimeout(s, t)
  }

  /** Fewer than 2^31 items wait, and fewer than 2^31 are dispatched while one `work` call runs. */
  predicate InWindow(s: Pool)
  {
    && |s.queue| < WORD / 2
    && forall t :: t in s.workers && s.workers[t].pc.Working? ==> |s.began| - s.workers[t].pc.mark < WORD / 2
  }

  predicate Legal(s: Pool, run: seq<Step>)
    decreases |run|
  {
    run == [] || (Enabled(s, run[0]) && InWindow(Apply(s, run[0])) && Legal(Apply(s, run[0]), run[1..]))
  }

  function Exec(s: Pool, run: seq<Step>): Pool
    requires Legal(s, run)
    decreases |run|
  {
    if run == [] then s else Exec(Apply(s, run[0]), run[1..])
  }

  // ---------- The invariant ----------

  /** The counters are the queue: items wait, and are dispatched, in the order of submission. */
  ghost predicate CountersOk(seqHead: nat, seqTail: nat, queue: seq<ItemId>, began: seq<ItemId>, submitted: nat)
  {
    && seqHead == |began| % WORD && seqTail == submitted % WORD
    && |began| + |queue| == submitted
    && (forall k :: 0 <= k < |queue| ==> queue[k] == |began| + k)
    && (forall k :: 0 <= k < |began| ==> began[k] == k)
  }

  predicate WorkerOk(w: Worker, idle: bool, shutting: bool)
  {
    && (w.pc.Starting? ==> !idle && !w.kickPosted)
    && (w.pc.Working? ==> !idle)
    && (w.pc.TimingOut? ==> idle)
    && (w.armed <==> idle && !w.pc.TimingOut?)
    && (w.kicked ==> idle && (w.kickPosted || w.pc.Entering?))
    && (w.pc.Waiting? && !idle ==> w.kickPosted)
    && (shutting && idle ==> w.kickPosted || w.pc.Entering?)
  }

  type Workers = map<ThreadId, Worker>

  ghost predicate WorkersOk(workers: Workers, idle: seq<ThreadId>, next: ThreadId, shutting: bool)
  {
    && Distinct(idle)
    && (forall t :: t in idle ==> t in workers)
    && (forall t :: t in workers ==> t < next && WorkerOk(workers[t], t in idle, shutting))
  }

  function OwnerItems(s: Pool): seq<ItemId>
  {
    if s.owner.Collecting? then s.owner.items else []
  }

  /** Every item that no worker holds is in the one place its stage names. */
  ghost predicate PlacesOk(stage: seq<Stage>, dispatched: nat, done: seq<ItemId>, collected: seq<ItemId>,
                           completed: seq<ItemId>)
  {
    && Distinct(done) && Distinct(collected) && Distinct(completed)
    && (forall i :: 0 <= i < |stage| ==> (stage[i] == Queued <==> i >= dispatched))
    && (forall i :: i in done <==> 0 <= i < |stage| && stage[i] == Done)
    && (forall i :: i in collected <==> 0 <= i < |stage| && stage[i] == Collected)
    && (forall i :: i in completed <==> 0 <= i < |stage| && stage[i] == Completed)
  }

  /** A worker is inside `work` of exactly the items that are in work. */
  ghost predicate WorkOk(stage: seq<Stage>, workers: Workers)
  {
    && (forall i :: 0 <= i < |stage| && stage[i].InWork? ==>
          var t := stage[i].t; t in workers && workers[t].pc.Working? && workers[t].pc.item == i)
    && (forall t :: t in workers && workers[t].pc.Working? ==>
          var pc := workers[t].pc;
          && pc.item < |stage| && stage[pc.item] == InWork(t)
          && pc.item < pc.mark <= |stage| && pc.lastSeq == pc.mark % WORD)
  }

  /** The worker is on its way to the queue. */
  predicate OnItsWay(w: Worker, idle: bool)
  {
    w.pc.Starting? || w.pc.Entering? || w.pc.Working? || (w.kickPosted && (w.kicked || !idle))
  }

  ghost predicate Attended(workers: Workers, idle: seq<ThreadId>)
  {
    exists t :: t in workers && OnItsWay(workers[t], t in idle)
  }

  /** The owner has been told what it needs to know. */
  ghost predicate OwnerTold(s: Pool)
  {
    && (s.done != [] ==> s.evPosted || s.owner.Stealing?)
    && (s.shutting && s.started == 0 && s.freed == 0 ==> s.evPosted || s.owner.Stealing? || s.owner.Collecting?)
  }

  ghost predicate AllCompleted(s: Pool)
  {
    forall i :: 0 <= i < |s.stage| ==> s.stage[i] == Completed
  }

  /** The pool is freed once, after everything it had to do. */
  ghost predicate FreedLast(s: Pool)
  {
    && !s.broken && s.freed <= 1
    && (s.freed == 1 ==> s.shutting && s.workers == map[] && s.owner.Away? && !s.evPosted && !s.neededPosted
                         && AllCompleted(s))
  }

  ghost predicate Inv(s: Pool)
  {
    && s.started == |s.workers| <= s.max && s.max >= 1
    && CountersOk(s.seqHead, s.seqTail, s.queue, s.began, |s.stage|)
    && WorkersOk(s.workers, s.idle, s.nextThread, s.shutting)
    && PlacesOk(s.stage, |s.began|, s.done, OwnerItems(s), s.completed)
    && WorkOk(s.stage, s.workers)
    && (s.queue != [] ==> Attended(s.workers, s.idle))
    && OwnerTold(s) && FreedLast(s)
  }

  // ---------- Changing one worker ----------

  ghost predicate SameIdle(idle: seq<ThreadId>, idle': seq<ThreadId>, t: ThreadId)
  {
    Distinct(idle') && forall x :: x != t ==> (x in idle <==> x in idle')
  }

  lemma IdleChange(idle: seq<ThreadId>, t: ThreadId)
    requires Distinct(idle)
    ensures SameIdle(idle, Without(idle, t), t)
    ensures t !in idle ==> SameIdle(idle, [t] + idle, t)
  {
    WithoutDistinct(idle, t);
    if t !in idle {
      PrependDistinct(t, idle);
    }
  }

  lemma ChangeWorker(workers: Workers, idle: seq<ThreadId>, idle': seq<ThreadId>, next: ThreadId, shutting: bool,
                     t: ThreadId, w: Worker)
    requires WorkersOk(workers, idle, next, shutting) && t in workers
    requires idle == idle' || SameIdle(idle, idle', t)
    requires WorkerOk(w, t in idle', shutting)
    ensures WorkersOk(workers[t := w], idle', next, shutting) && |workers[t := w]| == |workers|
    ensures Attended(workers, idle) && (OnItsWay(workers[t], t in idle) ==> OnItsWay(w, t in idle'))
            ==> Attended(workers[t := w], idle')
  {
    hide WorkerOk, OnItsWay;
    assert workers[t := w].Keys == workers.Keys;
    if Attended(workers, idle) && (OnItsWay(workers[t], t in idle) ==> OnItsWay(w, t in idle')) {
      var x :| x in workers && OnItsWay(workers[x], x in idle);
      assert OnItsWay(workers[t := w][x], x in idle');
    }
  }

  lemma DropWorker(workers: Workers, idle: seq<ThreadId>, idle': seq<ThreadId>, next: ThreadId, shutting: bool,
                   t: ThreadId)
    requires WorkersOk(workers, idle, next, shutting) && t in workers && SameIdle(idle, idle', t) && t !in idle'
    ensures WorkersOk(workers - {t}, idle', next, shutting) && |workers - {t}| == |workers| - 1
    ensures Attended(workers, idle) && !OnItsWay(workers[t], t in idle) ==> Attended(workers - {t}, idle')
  {
    hide WorkerOk, OnItsWay;
    assert (workers - {t}).Keys == workers.Keys - {t};
    if Attended(workers, idle) && !OnItsWay(workers[t], t in idle) {
      var x :| x in workers && OnItsWay(workers[x], x in idle);
      assert OnItsWay((workers - {t})[x], x in idle');
    }
  }

  lemma ChangeWork(stage: seq<Stage>, workers: Workers, t: ThreadId, w: Worker)
    requires WorkOk(stage, workers) && t in workers && !workers[t].pc.Working? && !w.pc.Working?
    ensures WorkOk(stage, workers[t := w]) && WorkOk(stage, workers - {t})
  {
  }

  // ---------- Every step keeps the invariant ----------

  /** The thread holds the lock and is about to look at the queue. */
  ghost predicate InLoop(s: Pool, t: ThreadId)
  {
    && Inv(s) && s.freed == 0 && At(s, t, Entering)
    && t !in s.idle && !s.workers[t].kicked && !s.workers[t].armed
  }

  lemma StartWork(stage: seq<Stage>, workers: Workers, t: ThreadId, w: Worker, i: ItemId)
    requires WorkOk(stage, workers) && t in workers && !workers[t].pc.Working?
    requires i < |stage| && stage[i] == Queued
    requires w.pc.Working? && w.pc.item == i < w.pc.mark <= |stage| && w.pc.lastSeq == w.pc.mark % WORD
    ensures WorkOk(stage[i := InWork(t)], workers[t := w])
  {
  }

  lemma StartPlaces(stage: seq<Stage>, i: ItemId, t: ThreadId, done: seq<ItemId>, collected: seq<ItemId>,
                    completed: seq<ItemId>)
    requires PlacesOk(stage, i, done, collected, completed) && i < |stage|
    ensures stage[i] == Queued && PlacesOk(stage[i := InWork(t)], i + 1, done, collected, completed)
  {
    hide Distinct;
  }

  lemma PopCounters(seqHead: nat, seqTail: nat, queue: seq<ItemId>, began: seq<ItemId>, submitted: nat)
    requires CountersOk(seqHead, seqTail, queue, began, submitted) && queue != []
    ensures CountersOk((seqHead + 1) % WORD, seqTail, queue[1..], began + [queue[0]], submitted)
  {
  }

  lemma PopKeeps(s: Pool, t: ThreadId, lastSeq: nat, mark: nat)
    requires InLoop(s, t) && s.queue != [] && lastSeq == mark % WORD && |s.began| < mark <= |s.stage|
    ensures Inv(Pop(s, t, lastSeq, mark))
  {
    hide Distinct, Without, WorkersOk, Attended, WorkOk, PlacesOk;
    PopCounters(s.seqHead, s.seqTail, s.queue, s.began, |s.stage|);
    assert s.queue[0] == |s.began| < |s.stage|;
    hide CountersOk;
    var w := s.workers[t].(pc := Working(s.queue[0], lastSeq, mark));
    StartPlaces(s.stage, s.queue[0], t, s.done, OwnerItems(s), s.completed);
    StartWork(s.stage, s.workers, t, w, s.queue[0]);
    ChangeWorker(s.workers, s.idle, s.idle, s.nextThread, s.shutting, t, w);
  }

  lemma TailKeeps(s: Pool, t: ThreadId)
    requires InLoop(s, t) && (s.queue == [] <==> s.seqHead == s.seqTail)
    ensures Inv(Tail(s, t))
  {
    hide Distinct, Without;
    var w := s.workers[t].(pc := Waiting);
    ChangeWork(s.stage, s.workers, t, w.(armed := true));
    ChangeWork(s.stage, s.workers, t, w.(kickPosted := true));
    if s.queue != [] {
      ChangeWorker(s.workers, s.idle, s.idle, s.nextThread, s.shutting, t, w.(kickPosted := true));
      hide WorkersOk, Attended, WorkOk, PlacesOk;
    } else if s.shutting {
      DropWorker(s.workers, s.idle, s.idle, s.nextThread, s.shutting, t);
      hide WorkersOk, Attended, WorkOk, PlacesOk;
    } else {
      IdleChange(s.idle, t);
      ChangeWorker(s.workers, s.idle, [t] + s.idle, s.nextThread, s.shutting, t, w.(armed := true));
      hide WorkersOk, Attended, WorkOk, PlacesOk;
    }
  }

  lemma LoopKeeps(s: Pool, t: ThreadId, lastSeq: nat, mark: nat)
    requires InLoop(s, t) && lastSeq == mark % WORD && mark <= |s.stage|
    requires |s.queue| < WORD / 2 && |s.began| - mark < WORD / 2
    ensures Inv(Loop(s, t, lastSeq, mark))
  {
    hide Distinct, Without, WorkersOk, Attended, WorkOk, PlacesOk, Pop, Tail;
    WrappedOrder(mark, |s.began|);
    WrappedOrder(|s.stage|, |s.began|);
    if mark > |s.began| {
      PopKeeps(s, t, lastSeq, mark);
    } else {
      TailKeeps(s, t);
    }
  }

  /** Taking the kick: the worker leaves the idle list and its idle timer is stopped. */
  lemma HandlerInLoop(s: Pool, t: ThreadId)
    requires Inv(s) && At(s, t, Entering)
    ensures var w := s.workers[t].(kicked := false, armed := false);
      var idle' := if t in s.idle then Without(s.idle, t) else s.idle;
      InLoop(s.(workers := s.workers[t := w], idle := idle'), t)
    ensures t < s.nextThread && (s.workers[t].armed <==> t in s.idle)
  {
    hide Distinct, WorkOk, Attended, PlacesOk, Without, CountersOk;
    assert WorkerOk(s.workers[t], t in s.idle, s.shutting);
    var w := s.workers[t].(kicked := false, armed := false);
    ChangeWork(s.stage, s.workers, t, w);
    IdleChange(s.idle, t);
    ChangeWorker(s.workers, s.idle, if t in s.idle then Without(s.idle, t) else s.idle, s.nextThread, s.shutting, t, w);
  }

  lemma GotEventKeeps(s: Pool, t: ThreadId)
    requires Inv(s) && InWindow(s) && At(s, t, Entering)
    ensures Inv(GotEvent(s, t))
  {
    hide Distinct, WorkOk, Attended, PlacesOk, Loop, Without, WorkersOk;
    assert s.seqTail == |s.stage| % WORD && |s.began| <= |s.stage|;
    hide CountersOk;
    HandlerInLoop(s, t);
    var w := s.workers[t].(kicked := false, armed := false);
    var idle' := if t in s.idle then Without(s.idle, t) else s.idle;
    LoopKeeps(s.(workers := s.workers[t := w], idle := idle'), t, s.seqTail, |s.stage|);
  }

  lemma EndWork(stage: seq<Stage>, workers: Workers, t: ThreadId, w: Worker)
    requires WorkOk(stage, workers) && t in workers && workers[t].pc.Working? && !w.pc.Working?
    ensures workers[t].pc.item < |stage| && WorkOk(stage[workers[t].pc.item := Done], workers[t := w])
  {
  }

  lemma EndPlaces(stage: seq<Stage>, dispatched: nat, i: ItemId, done: seq<ItemId>, collected: seq<ItemId>,
                  completed: seq<ItemId>)
    requires PlacesOk(stage, dispatched, done, collected, completed) && i < |stage| && stage[i].InWork?
    ensures PlacesOk(stage[i := Done], dispatched, done + [i], collected, completed)
  {
  }

  /** `work` has returned: the item is on the done list and the owner is told. */
  lemma FinishInLoop(s: Pool, t: ThreadId)
    requires Inv(s) && t in s.workers && s.workers[t].pc.Working?
    ensures var pc := s.workers[t].pc;
      && pc.item < |s.stage| && s.stage[pc.item] == InWork(t)
      && pc.mark <= |s.stage| && pc.lastSeq == pc.mark % WORD && t < s.nextThread
      && InLoop(s.(workers := s.workers[t := s.workers[t].(pc := Entering)],
                   evPosted := s.evPosted || s.done == [], done := s.done + [pc.item],
                   stage := s.stage[pc.item := Done]), t)
  {
    hide Distinct, Attended, CountersOk, PlacesOk;
    var w, pc := s.workers[t].(pc := Entering), s.workers[t].pc;
    EndWork(s.stage, s.workers, t, w);
    assert WorkerOk(s.workers[t], t in s.idle, s.shutting);
    EndPlaces(s.stage, |s.began|, pc.item, s.done, OwnerItems(s), s.completed);
    ChangeWorker(s.workers, s.idle, s.idle, s.nextThread, s.shutting, t, w);
    hide WorkOk, WorkersOk;
  }

  lemma FinishKeeps(s: Pool, t: ThreadId)
    requires Inv(s) && InWindow(s) && t in s.workers && s.workers[t].pc.Working?
    ensures Inv(Finish(s, t))
  {
    hide Inv, Loop;
    FinishInLoop(s, t);
    var w, pc := s.workers[t].(pc := Entering), s.workers[t].pc;
    LoopKeeps(s.(workers := s.workers[t := w], evPosted := s.evPosted || s.done == [], done := s.done + [pc.item],
                 stage := s.stage[pc.item := Done]), t, pc.lastSeq, pc.mark);
  }

  lemma IdleTimeoutKeeps(s: Pool, t: ThreadId)
    requires Inv(s) && At(s, t, TimingOut)
    ensures Inv(IdleTimeout(s, t))
  {
    hide Distinct, WorkOk, Attended, CountersOk, PlacesOk, Without;
    assert WorkerOk(s.workers[t], t in s.idle, s.shutting);
    var w := s.workers[t].(pc := Waiting, armed := true);
    ChangeWork(s.stage, s.workers, t, w);
    if s.workers[t].kicked {
      ChangeWorker(s.workers, s.idle, s.idle, s.nextThread, s.shutting, t, w);
    } else {
      IdleChange(s.idle, t);
      DropWorker(s.workers, s.idle, Without(s.idle, t), s.nextThread, s.shutting, t);
    }
    hide WorkersOk;
  }

  lemma AddWorkerKeeps(s: Pool)
    requires s.started == |s.workers| && WorkersOk(s.workers, s.idle, s.nextThread, s.shutting)
    requires WorkOk(s.stage, s.workers)
    ensures var s' := AddWorker(s);
            && s'.started == |s'.workers| && WorkersOk(s'.workers, s'.idle, s'.nextThread, s'.shutting)
            && WorkOk(s'.stage, s'.workers) && Attended(s'.workers, s'.idle)
  {
    var s', t := AddWorker(s), s.nextThread;
    assert t !in s.workers && t !in s.idle;
    assert OnItsWay(s'.workers[t], t in s'.idle);
    assert s'.workers.Keys == s.workers.Keys + {t};
  }

  lemma SubmitCounters(seqHead: nat, seqTail: nat, queue: seq<ItemId>, began: seq<ItemId>, submitted: nat)
    requires CountersOk(seqHead, seqTail, queue, began, submitted)
    ensures CountersOk(seqHead, (seqTail + 1) % WORD, queue + [submitted], began, submitted + 1)
  {
  }

  lemma SubmitStage(stage: seq<Stage>, workers: Workers, dispatched: nat, done: seq<ItemId>, collected: seq<ItemId>,
                    completed: seq<ItemId>)
    requires PlacesOk(stage, dispatched, done, collected, completed) && WorkOk(stage, workers) && dispatched <= |stage|
    ensures PlacesOk(stage + [Queued], dispatched, done, collected, completed) && WorkOk(stage + [Queued], workers)
  {
    hide Distinct;
  }

  /** When no worker is idle and no more may be started, every worker is on its way already. */
  lemma AllBusy(workers: Workers, idle: seq<ThreadId>, next: ThreadId, shutting: bool)
    requires WorkersOk(workers, idle, next, shutting) && idle == [] && |workers| >= 1
    ensures Attended(workers, idle)
  {
    var t :| t in workers.Keys;
    assert OnItsWay(workers[t], t in idle);
  }

  lemma KickIdle(s: Pool)
    requires WorkersOk(s.workers, s.idle, s.nextThread, s.shutting) && WorkOk(s.stage, s.workers) && s.idle != []
    ensures s.idle[0] in s.workers
    ensures var w := s.workers[s.idle[0]].(kicked := true, kickPosted := true);
      var workers := s.workers[s.idle[0] := w];
      && WorkersOk(workers, s.idle, s.nextThread, s.shutting) && |workers| == |s.workers|
      && WorkOk(s.stage, workers) && Attended(workers, s.idle)
  {
    hide Distinct;
    var x := s.idle[0];
    assert x in s.idle && WorkerOk(s.workers[x], x in s.idle, s.shutting);
    var w := s.workers[x].(kicked := true, kickPosted := true);
    hide WorkersOk;
    ChangeWork(s.stage, s.workers, x, w);
    ChangeWorker(s.workers, s.idle, s.idle, s.nextThread, s.shutting, x, w);
    assert OnItsWay(s.workers[x := w][x], x in s.idle);
  }

  /** The new item is in the queue, and nobody has been told yet. */
  ghost predicate Queuing(s: Pool)
  {
    && s.started == |s.workers| <= s.max && s.max >= 1
    && CountersOk(s.seqHead, s.seqTail, s.queue, s.began, |s.stage|)
    && WorkersOk(s.workers, s.idle, s.nextThread, s.shutting)
    && PlacesOk(s.stage, |s.began|, s.done, OwnerItems(s), s.completed)
    && WorkOk(s.stage, s.workers)
    && OwnerTold(s) && FreedLast(s) && s.freed == 0
  }

  lemma EnqueueKeeps(s: Pool)
    requires Inv(s) && !s.shutting
    ensures Queuing(Enqueue(s))
  {
    hide Distinct, WorkersOk, Attended;
    assert |s.began| <= |s.stage|;
    SubmitCounters(s.seqHead, s.seqTail, s.queue, s.began, |s.stage|);
    SubmitStage(s.stage, s.workers, |s.began|, s.done, OwnerItems(s), s.completed);
    hide CountersOk, PlacesOk, WorkOk;
  }

  lemma TellKeeps(s: Pool, fromOwner: bool, t: ThreadId)
    requires Queuing(s) && (!fromOwner ==> t in s.workers)
    ensures Inv(Tell(s, fromOwner))
  {
    hide Distinct, CountersOk, PlacesOk, WorkOk, WorkersOk;
    if s.idle != [] {
      KickIdle(s);
      hide Attended;
    } else if s.started >= s.max {
      AllBusy(s.workers, s.idle, s.nextThread, s.shutting);
      hide Attended;
    } else if fromOwner {
      AddWorkerKeeps(s);
      hide Attended;
    } else {
      assert s.workers.Keys != {};
      AllBusy(s.workers, s.idle, s.nextThread, s.shutting);
      hide Attended;
    }
  }

  lemma SubmitKeeps(s: Pool, fromOwner: bool, t: ThreadId)
    requires Inv(s) && !s.shutting
    requires !fromOwner ==> t in s.workers
    ensures Inv(Submit(s, fromOwner))
  {
    hide Inv, Queuing, Tell;
    EnqueueKeeps(s);
    TellKeeps(Enqueue(s), fromOwner, t);
  }

  lemma NeededKeeps(s: Pool)
    requires Inv(s) && s.owner.Needing?
    ensures Inv(Needed(s))
  {
    hide Distinct, CountersOk, PlacesOk, WorkOk, WorkersOk;
    if s.idle == [] && s.started < s.max {
      AddWorkerKeeps(s.(owner := Away));
      hide AddWorker;
    }
  }

  lemma PutWorkers(s: Pool)
    requires WorkersOk(s.workers, s.idle, s.nextThread, s.shutting) && WorkOk(s.stage, s.workers) && !s.shutting
    ensures var s' := Put(s);
      && WorkersOk(s'.workers, s'.idle, s'.nextThread, s.started != 0) && WorkOk(s'.stage, s'.workers)
      && |s'.workers| == |s.workers| && (Attended(s.workers, s.idle) ==> Attended(s'.workers, s'.idle))
  {
    hide Distinct;
    var s' := Put(s);
    assert s'.workers.Keys == s.workers.Keys;
    if Attended(s.workers, s.idle) {
      var t :| t in s.workers && OnItsWay(s.workers[t], t in s.idle);
      assert OnItsWay(s'.workers[t], t in s'.idle);
    }
  }

  lemma PutKeeps(s: Pool)
    requires Inv(s) && !s.shutting && InUserCode(s)
    ensures Inv(Put(s))
  {
    hide Distinct, CountersOk, PlacesOk, WorkOk, Attended;
    PutWorkers(s);
    if s.started == 0 {
      assert s.workers.Keys == {};
    } else {
      hide WorkersOk;
    }
  }

  lemma CollectKeeps(s: Pool)
    requires Inv(s) && s.owner.Stealing?
    ensures Inv(Collect(s))
  {
    hide Distinct, CountersOk, WorkersOk, Attended;
  }

  lemma CompleteStage(stage: seq<Stage>, workers: Workers, dispatched: nat, done: seq<ItemId>, collected: seq<ItemId>,
                      completed: seq<ItemId>)
    requires PlacesOk(stage, dispatched, done, collected, completed) && WorkOk(stage, workers) && collected != []
    ensures var i := collected[0];
      && i < |stage| && PlacesOk(stage[i := Completed], dispatched, done, collected[1..], completed + [i])
      && WorkOk(stage[i := Completed], workers)
  {
    hide Distinct;
    var i := collected[0];
    assert i in collected && stage[i] == Collected;
    TailDistinct(collected);
    AppendDistinct(completed, i);
  }

  lemma CompleteKeeps(s: Pool)
    requires Inv(s) && Enabled(s, DoComplete)
    ensures Inv(Complete(s))
  {
    hide Distinct, CountersOk, PlacesOk, WorkOk, WorkersOk, Attended;
    CompleteStage(s.stage, s.workers, |s.began|, s.done, s.owner.items, s.completed);
  }

  /** Once no worker is left and the done list is empty, every item has completed. */
  lemma LeaveKeeps(s: Pool)
    requires Inv(s) && s.owner == Collecting([])
    ensures Inv(Leave(s))
  {
    hide Distinct, WorkersOk;
    if s.started == 0 && s.done == [] {
      assert s.workers.Keys == {};
      assert s.workers == map[];
      assert s.queue == [];
      forall i | 0 <= i < |s.stage|
        ensures s.stage[i] == Completed
      {
        assert i !in s.done && i !in OwnerItems(s);
      }
    }
    hide CountersOk, PlacesOk, WorkOk, Attended;
  }

  lemma WorkerStepKeeps(s: Pool, a: Step)
    requires Inv(s) && Enabled(s, a) && (a.DoStart? || a.DoTakeKick? || a.DoTimerFires?)
    ensures Inv(Apply(s, a))
  {
    hide Distinct, CountersOk, PlacesOk, WorkOk, Attended;
    var t := a.t;
    assert WorkerOk(s.workers[t], t in s.idle, s.shutting);
    hide WorkersOk;
    var w := Apply(s, a).workers[t];
    ChangeWork(s.stage, s.workers, t, w);
    ChangeWorker(s.workers, s.idle, s.idle, s.nextThread, s.shutting, t, w);
  }

  /** Each step of each thread keeps the invariant. */
  lemma StepKeeps(s: Pool, a: Step)
    requires Inv(s) && InWindow(s) && Enabled(s, a)
    ensures Inv(Apply(s, a))
  {
    assert s.freed == 0;
    hide CountersOk, PlacesOk, WorkOk, WorkersOk, Attended;
    hide Submit, Put, Needed, Collect, Complete, Leave, GotEvent, Finish, IdleTimeout;
    match a {
      case DoSubmit => SubmitKeeps(s, true, 0);
      case DoContinue(t) => SubmitKeeps(s, false, t);
      case DoPut => PutKeeps(s);
      case DoNeeded => NeededKeeps(s);
      case DoSteal => CollectKeeps(s);
      case DoComplete => CompleteKeeps(s);
      case DoLeave => LeaveKeeps(s);
      case DoGotEvent(t) => GotEventKeeps(s, t);
      case DoFinish(t) => FinishKeeps(s, t);
      case DoIdleTimeout(t) => IdleTimeoutKeeps(s, t);
      case DoStart(_) => WorkerStepKeeps(s, a);
      case DoTakeKick(_) => WorkerStepKeeps(s, a);
      case DoTimerFires(_) => WorkerStepKeeps(s, a);
      case _ =>
    }
  }

  // ---------- What holds in every run ----------

  /** Every interleaving, however long, keeps the invariant. */
  lemma {:induction false} RunKeeps(s: Pool, run: seq<Step>)
    requires Inv(s) && InWindow(s) && Legal(s, run)
    ensures Inv(Exec(s, run)) && InWindow(Exec(s, run))
    decreases |run|
  {
    hide Inv, InWindow, Apply, Enabled;
    if run != [] {
      StepKeeps(s, run[0]);
      RunKeeps(Apply(s, run[0]), run[1..]);
    }
  }

  lemma InitOk(max: nat)
    requires max >= 1
    ensures Inv(Init(max)) && InWindow(Init(max))
  {
  }

  ghost predicate Reachable(s: Pool)
  {
    exists max: nat, run :: max >= 1 && Legal(Init(max), run) && s == Exec(Init(max), run)
  }

  lemma ReachableOk(s: Pool)
    requires Reachable(s)
    ensures Inv(s) && InWindow(s)
  {
    hide Inv, InWindow, Init;
    var max: nat, run :| max >= 1 && Legal(Init(max), run) && s == Exec(Init(max), run);
    InitOk(max);
    RunKeeps(Init(max), run);
  }

  /** Work is never stranded: while items wait, some worker is on its way to the queue. */
  lemma WorkNeverStranded(s: Pool) returns (t: ThreadId)
    requires Reachable(s) && s.queue != []
    ensures t in s.workers && OnItsWay(s.workers[t], t in s.idle)
  {
    ReachableOk(s);
    t :| t in s.workers && OnItsWay(s.workers[t], t in s.idle);
  }

  /** The wrapped counters always tell the length of the queue. */
  lemma QueueLength(s: Pool)
    requires Reachable(s)
    ensures |s.queue| == (s.seqTail - s.seqHead) % WORD
  {
    ReachableOk(s);
    WrappedOrder(|s.stage|, |s.began|);
  }

  /** No fatal error, no use after free, no pop from an empty list, and never more threads than allowed. */
  lemma NeverBroken(s: Pool)
    requires Reachable(s)
    ensures !s.broken && s.started == |s.workers| <= s.max
    ensures forall t :: t in s.idle ==> t in s.workers
  {
    ReachableOk(s);
  }

  /**
   What counts as broken, in any state: a step after the pool has been freed, a thread that dies while it has
   been kicked, a second registration of an idle timer; and it is not forgotten.
   */
  lemma WhatBreaks(s: Pool, a: Step)
    requires Enabled(s, a)
    ensures s.broken || s.freed > 0 ==> Apply(s, a).broken
    ensures a.DoIdleTimeout? && s.workers[a.t].armed ==> Apply(s, a).broken
    ensures a.DoFinish? && s.workers[a.t].pc.item >= |s.stage| ==> Apply(s, a).broken
  {
    hide GotEvent, Finish, Submit, IdleTimeout;
    var f := Fail(s, s.freed > 0);
    match a {
      case DoSubmit => SubmitBreaks(f, true);
      case DoContinue(_) => SubmitBreaks(f, false);
      case DoGotEvent(t) => GotEventBreaks(f, t);
      case DoFinish(t) => FinishBreaks(f, t);
      case DoIdleTimeout(t) => TimeoutBreaks(f, t);
      case _ =>
    }
  }

  lemma SubmitBreaks(s: Pool, fromOwner: bool)
    ensures s.broken ==> Submit(s, fromOwner).broken
  {
  }

  lemma GotEventBreaks(s: Pool, t: ThreadId)
    requires t in s.workers
    ensures s.broken ==> GotEvent(s, t).broken
  {
    hide SignedDifference, Without;
  }

  lemma FinishBreaks(s: Pool, t: ThreadId)
    requires t in s.workers && s.workers[t].pc.Working?
    ensures s.broken || s.workers[t].pc.item >= |s.stage| ==> Finish(s, t).broken
  {
    hide SignedDifference, Without;
  }

  lemma TimeoutBreaks(s: Pool, t: ThreadId)
    requires t in s.workers
    ensures s.broken || s.workers[t].armed ==> IdleTimeout(s, t).broken
  {
    hide Without;
  }

  /** A look at the queue also breaks it by a pop from an empty queue, or if a thread dies that is kicked or listed as idle. */
  lemma WhatBreaksInLoop(s: Pool, t: ThreadId, lastSeq: nat, mark: nat)
    requires t in s.workers
    ensures s.broken ==> Loop(s, t, lastSeq, mark).broken
    ensures SignedDifference(lastSeq, s.seqHead) > 0 && s.queue == [] ==> Loop(s, t, lastSeq, mark).broken
    ensures SignedDifference(lastSeq, s.seqHead) <= 0 && s.seqHead == s.seqTail ==>
              var w := s.workers[t];
              && (w.armed ==> Loop(s, t, lastSeq, mark).broken)
              && (s.shutting && (w.kicked || t in s.idle) ==> Loop(s, t, lastSeq, mark).broken)
  {
    hide SignedDifference;
  }

  lemma FreedOnceAndLast(s: Pool)
    requires Reachable(s)
    ensures s.freed <= 1
    ensures s.freed == 1 ==> s.workers == map[] && AllCompleted(s) && forall a :: !Enabled(s, a)
  {
    ReachableOk(s);
  }

  /** `work` of an item is called once it leaves the queue, and only once; `completion` once, and after it. */
  lemma ExactlyOnce(s: Pool, i: ItemId)
    requires Reachable(s) && i < |s.stage|
    ensures multiset(s.began)[i] == if s.stage[i] == Queued then 0 else 1
    ensures multiset(s.completed)[i] == if s.stage[i] == Completed then 1 else 0
    ensures i in s.completed ==> i in s.began
  {
    ReachableOk(s);
    assert Distinct(s.began);
    DistinctCount(s.began, i);
    DistinctCount(s.completed, i);
    if i < |s.began| {
      assert s.began[i] == i;
    }
  }

  // ---------- Who is told, and in which order ----------

  /** Work is dispatched in the order of submission. */
  lemma DispatchedInOrder(s: Pool)
    requires Reachable(s)
    ensures forall k :: 0 <= k < |s.began| ==> s.began[k] == k
    ensures forall k :: 0 <= k < |s.queue| ==> s.queue[k] == |s.began| + k
  {
    ReachableOk(s);
  }

  /** The items that have been worked on, in the order in which their completions are, or will be, called. */
  function Finished(s: Pool): seq<ItemId>
  {
    s.completed + OwnerItems(s) + s.done
  }

  /** What a look at the queue by `t`, from `s` to `s'`, leaves alone. */
  ghost predicate Looked(s: Pool, s': Pool, t: ThreadId, mark: nat)
  {
    && s'.completed == s.completed && s'.owner == s.owner && s'.done == s.done
    && s'.shutting == s.shutting && s'.neededPosted == s.neededPosted
    && (s'.idle == s.idle || s'.idle == [t] + s.idle)
    && (forall x :: x in s'.workers && x != t ==> x in s.workers && s'.workers[x] == s.workers[x])
    && (t in s'.workers && s'.workers[t].pc.Working? ==> s'.workers[t].pc.mark == mark)
  }

  lemma LoopLooks(s: Pool, t: ThreadId, lastSeq: nat, mark: nat)
    requires At(s, t, Entering)
    ensures Looked(s, Loop(s, t, lastSeq, mark), t, mark)
  {
    PopLooks(s, t, lastSeq, mark);
    TailLooks(s, t, mark);
    hide Looked, Pop, Tail;
  }

  lemma PopLooks(s: Pool, t: ThreadId, lastSeq: nat, mark: nat)
    requires At(s, t, Entering)
    ensures Looked(s, Pop(s, t, lastSeq, mark), t, mark)
  {
  }

  lemma TailLooks(s: Pool, t: ThreadId, mark: nat)
    requires At(s, t, Entering)
    ensures Looked(s, Tail(s, t), t, mark)
  {
  }

  /** The same for the two steps that end with such a look. */
  lemma GotEventLooks(s: Pool, t: ThreadId)
    requires At(s, t, Entering)
    ensures Looked(s.(idle := Without(s.idle, t)), GotEvent(s, t), t, |s.stage|)
  {
    hide Loop, Looked, Without;
    var w := s.workers[t].(kicked := false);
    if t in s.idle {
      var s1 := Set(Fail(s, !w.armed), t, w.(armed := false)).(idle := Without(s.idle, t));
      LoopLooks(s1, t, s.seqTail, |s.stage|);
      LooksFrom(s.(idle := Without(s.idle, t)), s1, GotEvent(s, t), t, |s.stage|);
    } else {
      LoopLooks(Set(s, t, w), t, s.seqTail, |s.stage|);
      LooksFrom(s.(idle := Without(s.idle, t)), Set(s, t, w), GotEvent(s, t), t, |s.stage|);
    }
  }

  lemma LooksFrom(s: Pool, s1: Pool, s': Pool, t: ThreadId, mark: nat)
    requires Looked(s1, s', t, mark)
    requires s1.completed == s.completed && s1.owner == s.owner && s1.done == s.done && s1.idle == s.idle
    requires s1.shutting == s.shutting && s1.neededPosted == s.neededPosted
    requires forall x :: x in s1.workers && x != t ==> x in s.workers && s1.workers[x] == s.workers[x]
    ensures Looked(s, s', t, mark)
  {
  }

  lemma FinishLooks(s: Pool, t: ThreadId)
    requires t in s.workers && s.workers[t].pc.Working? && s.workers[t].pc.item < |s.stage|
    ensures Looked(s.(done := s.done + [s.workers[t].pc.item]), Finish(s, t), t, s.workers[t].pc.mark)
  {
    hide Loop;
    var pc := s.workers[t].pc;
    var s1 := Set(s, t, s.workers[t].(pc := Entering)).(
      evPosted := s.evPosted || s.done == [], done := s.done + [pc.item], stage := s.stage[pc.item := Done]);
    LoopLooks(s1, t, pc.lastSeq, pc.mark);
  }

  lemma NotFreed(s: Pool, a: Step)
    requires Inv(s) && Enabled(s, a)
    ensures Fail(s, s.freed > 0) == s
    ensures a.DoFinish? ==> a.t !in s.idle && s.workers[a.t].pc.item < |s.stage|
    ensures a.DoComplete? ==> s.owner.items[0] < |s.stage|
  {
    if a.DoFinish? {
      assert WorkerOk(s.workers[a.t], a.t in s.idle, s.shutting);
    }
    if a.DoComplete? {
      assert s.owner.items[0] in OwnerItems(s);
    }
  }

  /** Completions are called in the order in which `work` has returned. */
  lemma CompletedInOrder(s: Pool, a: Step)
    requires Reachable(s) && Enabled(s, a)
    ensures Finished(Apply(s, a)) == Finished(s) + if a.DoFinish? then [s.workers[a.t].pc.item] else []
  {
    hide Inv, Reachable, GotEvent, Finish, Submit, Needed, IdleTimeout, Put, Collect, Complete, Leave, Finished;
    ReachableOk(s);
    NotFreed(s, a);
    assert Finished(s) + [] == Finished(s);
    match a {
      case DoSubmit =>
        SubmitLists(s, true);
        SameFinished(s, Submit(s, true));
      case DoContinue(_) =>
        SubmitLists(s, false);
        SameFinished(s, Submit(s, false));
      case DoFinish(t) => MoreFinished(s, t);
      case DoGotEvent(t) =>
        GotEventLooks(s, t);
        SameFinished(s, GotEvent(s, t));
      case DoIdleTimeout(t) =>
        TimeoutLists(s, t);
        SameFinished(s, IdleTimeout(s, t));
      case DoStart(_) => SameFinished(s, Apply(s, a));
      case DoTakeKick(_) => SameFinished(s, Apply(s, a));
      case DoTimerFires(_) => SameFinished(s, Apply(s, a));
      case _ => OwnerFinished(s, a);
    }
  }

  lemma SameFinished(s: Pool, s': Pool)
    requires s'.completed == s.completed && s'.owner == s.owner && s'.done == s.done
    ensures Finished(s') == Finished(s)
  {
  }

  lemma MoreFinished(s: Pool, t: ThreadId)
    requires t in s.workers && s.workers[t].pc.Working? && s.workers[t].pc.item < |s.stage|
    ensures Finished(Finish(s, t)) == Finished(s) + [s.workers[t].pc.item]
  {
    hide Finish;
    FinishLooks(s, t);
  }

  /** Whatever the owner does, items only move from one list to the next. */
  lemma OwnerFinished(s: Pool, a: Step)
    requires Enabled(s, a) && Fail(s, s.freed > 0) == s && (a.DoComplete? ==> s.owner.items[0] < |s.stage|)
    requires a.DoPut? || a.DoTakeNeeded? || a.DoNeeded? || a.DoTakeEv? || a.DoSteal? || a.DoComplete? || a.DoLeave?
    ensures Finished(Apply(s, a)) == Finished(s)
  {
    hide Complete;
    if a.DoComplete? {
      CompleteFinished(s);
    }
  }

  lemma CompleteFinished(s: Pool)
    requires Enabled(s, DoComplete) && s.owner.items[0] < |s.stage|
    ensures Finished(Complete(s)) == Finished(s)
  {
    assert s.owner.items == [s.owner.items[0]] + s.owner.items[1..];
  }

  lemma SubmitLists(s: Pool, fromOwner: bool)
    ensures var s' := Submit(s, fromOwner);
      && s'.completed == s.completed && s'.owner == s.owner && s'.done == s.done
      && s'.shutting == s.shutting && (s.neededPosted ==> s'.neededPosted)
  {
    var s1 := Enqueue(s);
    assert s1.completed == s.completed && s1.owner == s.owner && s1.done == s.done;
    assert s1.shutting == s.shutting && s1.neededPosted == s.neededPosted;
    hide Enqueue;
  }

  lemma TimeoutLists(s: Pool, t: ThreadId)
    requires t in s.workers
    ensures var s' := IdleTimeout(s, t);
      && s'.completed == s.completed && s'.owner == s.owner && s'.done == s.done
      && s'.shutting == s.shutting && s'.neededPosted == s.neededPosted
  {
  }

  /**
   A submission tells somebody: the worker that went idle last, or, if none is idle and more threads
   are allowed, a new one, which the owner starts itself and a worker has the owner start.
   */
  lemma SubmissionIsTold(s: Pool, a: Step)
    requires Reachable(s) && Enabled(s, a) && (a.DoSubmit? || a.DoContinue?)
    ensures var s' := Apply(s, a);
      && s'.queue == s.queue + [|s.stage|] && s'.stage == s.stage + [Queued] && s'.idle == s.idle
      && (s.idle != [] ==>
            var t := s.idle[0];
            && t in s.workers && s'.workers.Keys == s.workers.Keys && s'.workers[t].kicked && s'.workers[t].kickPosted
            && forall x :: x in s.workers && x != t ==> s'.workers[x] == s.workers[x])
      && (s.idle == [] && |s.workers| < s.max && a.DoSubmit? ==> StartsOne(s, s'))
      && (s.idle == [] && |s.workers| < s.max && a.DoContinue? ==> s'.neededPosted && s'.workers == s.workers)
      && (s.idle == [] && |s.workers| == s.max ==> s'.workers == s.workers && s'.neededPosted == s.neededPosted)
  {
    ReachableOk(s);
    assert s.idle != [] ==> s.idle[0] in s.idle && s.idle[0] in s.workers;
    assert s.freed == 0 && s.started == |s.workers|;
    NewThread(s);
    hide Inv, Reachable;
  }

  /** One more thread, which is starting. */
  ghost predicate StartsOne(s: Pool, s': Pool)
  {
    && s'.started == s.started + 1
    && exists t: ThreadId :: t !in s.workers && s'.workers == s.workers[t := Worker(Starting, false, false, false)]
  }

  lemma NewThread(s: Pool)
    requires Inv(s)
    ensures s.nextThread !in s.workers
  {
    hide Distinct;
  }

  /** The owner starts a thread for a worker's submission, unless that has become unnecessary. */
  lemma NeededIsStarted(s: Pool)
    requires Reachable(s) && Enabled(s, DoNeeded)
    ensures var s' := Apply(s, DoNeeded);
      if s.idle == [] && |s.workers| < s.max then StartsOne(s, s') else s'.workers == s.workers
  {
    ReachableOk(s);
    assert s.freed == 0 && s.started == |s.workers|;
    NewThread(s);
    hide Inv, Reachable;
  }

  /** The request for a thread reaches the owner, who then looks whether one is to be started; only the end of the pool cancels it. */
  lemma NeededIsNotForgotten(s: Pool, a: Step)
    requires Reachable(s) && Enabled(s, a) && s.neededPosted
    ensures var s' := Apply(s, a);
      s'.neededPosted || (a.DoTakeNeeded? && Enabled(s', DoNeeded) && s'.workers == s.workers) || (a.DoLeave? && s'.freed == 1)
  {
    hide Inv, Reachable, InWindow, GotEvent, Finish, Submit, IdleTimeout;
    ReachableOk(s);
    NotFreed(s, a);
    FreedOnceAndLast(s);
    match a {
      case DoSubmit => SubmitLists(s, true);
      case DoContinue(_) => SubmitLists(s, false);
      case DoGotEvent(t) => GotEventLooks(s, t);
      case DoFinish(t) => FinishLooks(s, t);
      case DoIdleTimeout(t) => TimeoutLists(s, t);
      case _ =>
    }
  }

  /** A thread that stays idle leaves, unless it has been kicked meanwhile. */
  lemma IdleThreadLeaves(s: Pool, t: ThreadId)
    requires Reachable(s) && Enabled(s, DoIdleTimeout(t))
    ensures var s' := Apply(s, DoIdleTimeout(t));
      if s.workers[t].kicked
      then t in s'.workers && s'.idle == s.idle && s'.workers[t].armed && s'.workers[t].pc.Waiting?
      else s'.workers == s.workers - {t} && s'.idle == Without(s.idle, t) && s'.started == s.started - 1
  {
  }

  /** Who goes idle is the next to be kicked. */
  lemma LastIdleFirst(s: Pool, a: Step)
    requires Reachable(s) && Enabled(s, a) && (a.DoGotEvent? || a.DoFinish?)
    ensures a.t in Apply(s, a).idle ==> Apply(s, a).idle == [a.t] + Without(s.idle, a.t)
    ensures a.t !in Apply(s, a).idle ==> Apply(s, a).idle == Without(s.idle, a.t)
  {
    ReachableOk(s);
    NotFreed(s, a);
    hide Inv, Reachable, GotEvent, Finish;
    if a.DoGotEvent? {
      GotEventLooks(s, a.t);
    } else {
      FinishLooks(s, a.t);
    }
  }

  /** How a visit to the queue ends, after `took` items: with the next item, idle, gone, or about to come back. */
  ghost predicate VisitEnds(s': Pool, t: ThreadId, took: nat, mark: nat)
  {
    if took < mark then
      t in s'.workers && s'.workers[t].pc.Working? && s'.workers[t].pc.item == took && t !in s'.idle
    else if s'.queue != [] then
      t in s'.workers && s'.workers[t].pc.Waiting? && s'.workers[t].kickPosted && t !in s'.idle
    else if s'.shutting then t !in s'.workers
    else t in s'.workers && s'.workers[t].pc.Waiting? && s'.workers[t].armed && t in s'.idle
  }

  lemma LoopEnds(s: Pool, t: ThreadId, lastSeq: nat, mark: nat)
    requires InLoop(s, t) && lastSeq == mark % WORD && mark <= |s.stage|
    requires |s.queue| < WORD / 2 && |s.began| - mark < WORD / 2
    ensures VisitEnds(Loop(s, t, lastSeq, mark), t, |s.began|, mark)
  {
    hide Distinct, Without, WorkersOk, Attended, WorkOk, PlacesOk;
    WrappedOrder(mark, |s.began|);
    WrappedOrder(|s.stage|, |s.began|);
  }

  /**
   A worker takes the next item if it was there when the visit began.  Otherwise it comes back if items wait,
   and if none do it goes idle, with its timer set, or leaves a pool that has been put.
   */
  lemma EndOfVisit(s: Pool, a: Step)
    requires Reachable(s) && Enabled(s, a) && (a.DoGotEvent? || a.DoFinish?)
    ensures VisitEnds(Apply(s, a), a.t, |s.began|, if a.DoFinish? then s.workers[a.t].pc.mark else |s.stage|)
  {
    hide Inv, Reachable, Loop, VisitEnds, InWindow;
    ReachableOk(s);
    NotFreed(s, a);
    if a.DoGotEvent? {
      GotEventEnds(s, a.t);
    } else {
      FinishEnds(s, a.t);
    }
  }

  lemma GotEventEnds(s: Pool, t: ThreadId)
    requires Inv(s) && InWindow(s) && At(s, t, Entering)
    ensures VisitEnds(GotEvent(s, t), t, |s.began|, |s.stage|)
  {
    hide Distinct, WorkOk, Attended, PlacesOk, Loop, Without, WorkersOk, VisitEnds;
    assert s.seqTail == |s.stage| % WORD && |s.began| <= |s.stage|;
    hide CountersOk;
    HandlerInLoop(s, t);
    var w := s.workers[t].(kicked := false, armed := false);
    var idle' := if t in s.idle then Without(s.idle, t) else s.idle;
    LoopEnds(s.(workers := s.workers[t := w], idle := idle'), t, s.seqTail, |s.stage|);
  }

  lemma FinishEnds(s: Pool, t: ThreadId)
    requires Inv(s) && InWindow(s) && t in s.workers && s.workers[t].pc.Working?
    ensures VisitEnds(Finish(s, t), t, |s.began|, s.workers[t].pc.mark)
  {
    hide Inv, Loop, VisitEnds;
    FinishInLoop(s, t);
    var w, pc := s.workers[t].(pc := Entering), s.workers[t].pc;
    LoopEnds(s.(workers := s.workers[t := w], evPosted := s.evPosted || s.done == [], done := s.done + [pc.item],
                stage := s.stage[pc.item := Done]), t, pc.lastSeq, pc.mark);
  }

  /** The owner is told of an item when no other waits for it, and of the end of the last worker of a pool that was put. */
  lemma OwnerIsTold(s: Pool, t: ThreadId)
    requires Reachable(s) && Enabled(s, DoFinish(t))
    ensures var s' := Apply(s, DoFinish(t));
      s'.evPosted <==> s.evPosted || s.done == [] || (s.shutting && s'.workers == map[])
  {
    hide Inv, Reachable, InWindow, Loop;
    ReachableOk(s);
    NotFreed(s, DoFinish(t));
    FinishInLoop(s, t);
    var w, pc := s.workers[t].(pc := Entering), s.workers[t].pc;
    LoopTells(s.(workers := s.workers[t := w], evPosted := s.evPosted || s.done == [], done := s.done + [pc.item],
                 stage := s.stage[pc.item := Done]), t, pc.lastSeq, pc.mark);
  }

  lemma LoopTells(s: Pool, t: ThreadId, lastSeq: nat, mark: nat)
    requires InLoop(s, t)
    ensures var s' := Loop(s, t, lastSeq, mark);
      s'.evPosted <==> s.evPosted || (s.shutting && s'.workers == map[])
  {
    assert s.started == |s.workers|;
    hide Inv;
    var s' := Loop(s, t, lastSeq, mark);
    LastOne(s.workers, t);
    assert t in s'.workers ==> s'.workers != map[];
  }

  lemma LastOne(workers: Workers, t: ThreadId)
    requires t in workers
    ensures workers - {t} == map[] <==> |workers| == 1
  {
    assert (workers - {t}).Keys == workers.Keys - {t} && |(workers - {t}).Keys| == |workers| - 1;
  }

  /** On one visit to the queue a worker takes only items that were there when the visit began. */
  lemma VisitIsBounded(s: Pool, a: Step, t: ThreadId)
    requires Reachable(s) && Enabled(s, a) && InWindow(Apply(s, a))
    ensures var s' := Apply(s, a);
      t in s'.workers && s'.workers[t].pc.Working? ==>
        && s'.workers[t].pc.item < s'.workers[t].pc.mark
        && (a == DoGotEvent(t) ==> s'.workers[t].pc.mark == |s.stage|)
        && (a != DoGotEvent(t) ==>
              t in s.workers && s.workers[t].pc.Working? && s'.workers[t].pc.mark == s.workers[t].pc.mark)
  {
    hide Inv, Reachable, InWindow, GotEvent, Finish, Submit, Needed, IdleTimeout;
    ReachableOk(s);
    StepKeeps(s, a);
    NotFreed(s, a);
    ItemBeforeMark(Apply(s, a), t);
    match a {
      case DoGotEvent(x) => GotEventLooks(s, x);
      case DoFinish(x) => FinishLooks(s, x);
      case DoSubmit => SubmitWorkers(s, true);
      case DoContinue(_) => SubmitWorkers(s, false);
      case DoNeeded => NeededWorkers(s);
      case DoIdleTimeout(x) => TimeoutWorkers(s, x);
      case DoPut =>
        assert SameWork(s, Put(s));
      case _ =>
    }
  }

  lemma ItemBeforeMark(s: Pool, t: ThreadId)
    requires Inv(s)
    ensures t in s.workers && s.workers[t].pc.Working? ==> s.workers[t].pc.item < s.workers[t].pc.mark
  {
    hide Distinct, CountersOk, PlacesOk, Attended, WorkersOk;
  }

  /** The threads at work in `s'` are at work in `s`. */
  ghost predicate SameWork(s: Pool, s': Pool)
  {
    forall t :: t in s'.workers && s'.workers[t].pc.Working? ==> t in s.workers && s.workers[t].pc == s'.workers[t].pc
  }

  lemma SubmitWorkers(s: Pool, fromOwner: bool)
    ensures SameWork(s, Submit(s, fromOwner))
  {
  }

  lemma NeededWorkers(s: Pool)
    ensures SameWork(s, Needed(s))
  {
  }

  lemma TimeoutWorkers(s: Pool, t: ThreadId)
    requires t in s.workers
    ensures SameWork(s, IdleTimeout(s, t))
  {
  }

  /** A pool that has been put is shutting down from then on. */
  lemma {:induction false} PutIsRemembered(s: Pool, run: seq<Step>)
    requires Legal(s, run) && (s.shutting || DoPut in run)
    ensures Exec(s, run).shutting
    decreases |run|
  {
    if run != [] {
      StaysPut(s, run[0]);
      hide Apply, Enabled, InWindow;
      assert run == [run[0]] + run[1..];
      PutIsRemembered(Apply(s, run[0]), run[1..]);
    }
  }

  lemma StaysPut(s: Pool, a: Step)
    requires Enabled(s, a)
    ensures Apply(s, a).shutting == (s.shutting || a.DoPut?)
  {
    hide GotEvent, Submit, IdleTimeout, Loop, Looked;
    var f := Fail(s, s.freed > 0);
    match a {
      case DoSubmit => SubmitLists(f, true);
      case DoContinue(_) => SubmitLists(f, false);
      case DoGotEvent(t) => GotEventStaysPut(f, t);
      case DoFinish(t) => FinishStaysPut(f, t);
      case DoIdleTimeout(t) => TimeoutLists(f, t);
      case _ =>
    }
  }

  lemma GotEventStaysPut(s: Pool, t: ThreadId)
    requires At(s, t, Entering)
    ensures GotEvent(s, t).shutting == s.shutting
  {
    hide GotEvent;
    GotEventLooks(s, t);
  }

  lemma FinishStaysPut(s: Pool, t: ThreadId)
    requires t in s.workers && s.workers[t].pc.Working?
    ensures Finish(s, t).shutting == s.shutting
  {
    hide Loop;
    if s.workers[t].pc.item < |s.stage| {
      FinishLooks(s, t);
    }
  }

  // ---------- Progress ----------

  /** Steps the pool takes by itself: not the user's calls, and not the passing of time. */
  predicate Internal(a: Step)
  {
    !a.DoSubmit? && !a.DoContinue? && !a.DoPut? && !a.DoTimerFires?
  }

  ghost predicate Quiet(s: Pool)
  {
    forall a :: Internal(a) ==> !Enabled(s, a)
  }

  lemma QuietOwner(s: Pool)
    requires Inv(s) && Quiet(s)
    ensures s.owner.Away? && !s.evPosted
  {
    hide Distinct, CountersOk, WorkOk, Attended, WorkersOk;
    if s.owner.Collecting? && s.owner.items != [] {
      assert s.owner.items[0] in OwnerItems(s);
    }
    assert !Enabled(s, DoComplete);
    hide PlacesOk;
    assert !Enabled(s, DoTakeEv) && !Enabled(s, DoSteal) && !Enabled(s, DoLeave) && !Enabled(s, DoNeeded);
  }

  lemma QuietWorker(s: Pool, t: ThreadId)
    requires Inv(s) && Quiet(s) && t in s.workers
    ensures t in s.idle && s.workers[t].pc.Waiting? && !s.workers[t].kickPosted
  {
    hide Distinct, CountersOk, WorkOk, Attended, PlacesOk;
    assert WorkerOk(s.workers[t], t in s.idle, s.shutting);
    hide WorkersOk;
    assert !Enabled(s, DoStart(t)) && !Enabled(s, DoTakeKick(t)) && !Enabled(s, DoGotEvent(t));
    assert !Enabled(s, DoFinish(t)) && !Enabled(s, DoIdleTimeout(t));
  }

  /** When the pool comes to rest, every item has completed, and a pool that was put has been freed. */
  lemma RestMeansDone(s: Pool)
    requires Reachable(s) && Quiet(s)
    ensures AllCompleted(s) && (s.shutting ==> s.freed == 1)
  {
    ReachableOk(s);
    QuietOwner(s);
    forall t | t in s.workers
      ensures t in s.idle && s.workers[t].pc.Waiting? && !s.workers[t].kickPosted
    {
      QuietWorker(s, t);
    }
    hide Distinct, Reachable, Quiet, Enabled;
    assert s.queue == [] && s.done == [];
    forall i | 0 <= i < |s.stage|
      ensures s.stage[i] == Completed
    {
      assert i !in s.done && i !in OwnerItems(s);
    }
    hide CountersOk, PlacesOk, WorkOk;
    if s.shutting {
      assert s.workers.Keys == {};
    }
  }

  function ItemWeight(x: Stage): nat
  {
    match x
    case Queued => 7
    case InWork(_) => 10
    case Done => 1
    case Collected => 1
    case Completed => 0
  }

  function ItemsWeight(stage: seq<Stage>): nat
  {
    if stage == [] then 0 else ItemsWeight(stage[..|stage| - 1]) + ItemWeight(stage[|stage| - 1])
  }

  lemma {:induction false} ItemsWeightUpdate(stage: seq<Stage>, i: ItemId, x: Stage)
    requires i < |stage|
    ensures ItemsWeight(stage[i := x]) == ItemsWeight(stage) - ItemWeight(stage[i]) + ItemWeight(x)
  {
    var n := |stage| - 1;
    if i == n {
      assert stage[i := x][..n] == stage[..n];
    } else {
      ItemsWeightUpdate(stage[..n], i, x);
      assert stage[i := x][..n] == stage[..n][i := x];
    }
  }

  lemma {:induction false} ItemsWeightSame(stage: seq<Stage>, stage': seq<Stage>)
    requires |stage| == |stage'| && forall i :: 0 <= i < |stage| ==> ItemWeight(stage[i]) == ItemWeight(stage'[i])
    ensures ItemsWeight(stage) == ItemsWeight(stage')
  {
    if stage != [] {
      ItemsWeightSame(stage[..|stage| - 1], stage'[..|stage| - 1]);
    }
  }

  function WorkerWeight(w: Worker): nat
  {
    (match w.pc case Starting => 6 case Entering => 4 case TimingOut => 4 case _ => 0)
    + (if w.kickPosted then 5 else 0)
  }

  function WorkersWeight(workers: Workers, n: nat): nat
  {
    if n == 0 then 0
    else WorkersWeight(workers, n - 1) + if n - 1 in workers then WorkerWeight(workers[n - 1]) else 0
  }

  lemma {:induction false} WorkersWeightSame(workers: Workers, workers': Workers, n: nat)
    requires forall t :: t < n ==> (t in workers <==> t in workers')
    requires forall t :: t < n && t in workers && t in workers' ==> workers[t] == workers'[t]
    ensures WorkersWeight(workers, n) == WorkersWeight(workers', n)
  {
    if n > 0 {
      WorkersWeightSame(workers, workers', n - 1);
    }
  }

  lemma {:induction false} WorkersWeightUpdate(workers: Workers, n: nat, t: ThreadId, w: Worker)
    requires t in workers && t < n
    ensures WorkersWeight(workers[t := w], n) == WorkersWeight(workers, n) - WorkerWeight(workers[t]) + WorkerWeight(w)
    ensures WorkersWeight(workers - {t}, n) == WorkersWeight(workers, n) - WorkerWeight(workers[t])
  {
    if t == n - 1 {
      WorkersWeightSame(workers, workers[t := w], n - 1);
      WorkersWeightSame(workers, workers - {t}, n - 1);
    } else {
      WorkersWeightUpdate(workers, n - 1, t, w);
    }
  }

  function Rank(s: Pool): nat
  {
    ItemsWeight(s.stage) + WorkersWeight(s.workers, s.nextThread)
    + (if s.evPosted then 3 else 0) + (if s.neededPosted then 8 else 0)
    + match s.owner case Away => 0 case Needing => 7 case Stealing => 2 case Collecting(_) => 1
  }

  lemma PopRank(s: Pool, t: ThreadId, lastSeq: nat, mark: nat)
    requires InLoop(s, t) && s.queue != []
    ensures Rank(Pop(s, t, lastSeq, mark)) < Rank(s)
  {
    hide Distinct, Attended, WorkOk;
    assert t < s.nextThread;
    hide WorkersOk;
    assert s.queue[0] == |s.began| && s.stage[|s.began|] == Queued;
    hide CountersOk, PlacesOk;
    ItemsWeightUpdate(s.stage, |s.began|, InWork(t));
    WorkersWeightUpdate(s.workers, s.nextThread, t, s.workers[t].(pc := Working(s.queue[0], lastSeq, mark)));
  }

  lemma TailRank(s: Pool, t: ThreadId)
    requires InLoop(s, t)
    ensures Rank(Tail(s, t)) <= Rank(s) + 1
    ensures s.seqHead == s.seqTail ==> Rank(Tail(s, t)) < Rank(s)
  {
    hide Distinct, Attended, WorkOk, CountersOk, PlacesOk;
    assert t < s.nextThread;
    hide WorkersOk;
    var w := s.workers[t].(pc := Waiting);
    WorkersWeightUpdate(s.workers, s.nextThread, t, w.(armed := true));
    WorkersWeightUpdate(s.workers, s.nextThread, t, w.(kickPosted := true));
  }

  /** One look of a worker at the queue. */
  lemma LoopRank(s: Pool, t: ThreadId, lastSeq: nat, mark: nat)
    requires InLoop(s, t) && lastSeq == mark % WORD && mark <= |s.stage|
    requires |s.queue| < WORD / 2 && |s.began| - mark < WORD / 2
    ensures Rank(Loop(s, t, lastSeq, mark)) <= Rank(s) + 1
    ensures mark == |s.stage| ==> Rank(Loop(s, t, lastSeq, mark)) < Rank(s)
  {
    hide Distinct, Without, WorkersOk, Attended, WorkOk, PlacesOk, Pop, Tail, Rank;
    WrappedOrder(mark, |s.began|);
    if mark > |s.began| {
      PopRank(s, t, lastSeq, mark);
    } else {
      TailRank(s, t);
    }
  }

  lemma GotEventRank(s: Pool, t: ThreadId)
    requires Inv(s) && InWindow(s) && At(s, t, Entering)
    ensures Rank(GotEvent(s, t)) < Rank(s)
  {
    hide Distinct, WorkOk, Attended, PlacesOk, Loop, Without;
    assert s.seqTail == |s.stage| % WORD && |s.began| <= |s.stage|;
    hide CountersOk;
    var w := s.workers[t].(kicked := false, armed := false);
    var idle' := if t in s.idle then Without(s.idle, t) else s.idle;
    var s1 := s.(workers := s.workers[t := w], idle := idle');
    HandlerInLoop(s, t);
    WorkersWeightUpdate(s.workers, s.nextThread, t, w);
    LoopRank(s1, t, s.seqTail, |s.stage|);
  }

  lemma FinishRank(s: Pool, t: ThreadId)
    requires Inv(s) && InWindow(s) && t in s.workers && s.workers[t].pc.Working?
    ensures Rank(Finish(s, t)) < Rank(s)
  {
    hide Distinct, Attended, CountersOk, PlacesOk, Loop;
    var w, pc := s.workers[t].(pc := Entering), s.workers[t].pc;
    FinishInLoop(s, t);
    var s1 := s.(workers := s.workers[t := w], evPosted := s.evPosted || s.done == [], done := s.done + [pc.item],
                 stage := s.stage[pc.item := Done]);
    WorkersWeightUpdate(s.workers, s.nextThread, t, w);
    ItemsWeightUpdate(s.stage, pc.item, Done);
    LoopRank(s1, t, pc.lastSeq, pc.mark);
  }

  lemma NeededRank(s: Pool)
    requires Inv(s) && s.owner.Needing?
    ensures Rank(Needed(s)) < Rank(s)
  {
    hide Distinct, Attended, CountersOk, WorkOk, PlacesOk;
    var w := Worker(Starting, false, false, false);
    assert s.nextThread !in s.workers;
    hide WorkersOk;
    WorkersWeightSame(s.workers, s.workers[s.nextThread := w], s.nextThread);
  }

  lemma CompleteRank(s: Pool)
    requires Inv(s) && Enabled(s, DoComplete)
    ensures Rank(Complete(s)) < Rank(s)
  {
    hide Distinct, Attended, CountersOk, WorkOk, WorkersOk;
    assert s.owner.items[0] in OwnerItems(s);
    ItemsWeightUpdate(s.stage, s.owner.items[0], Completed);
    hide PlacesOk;
  }

  lemma OwnerRank(s: Pool, a: Step)
    requires !s.broken && s.freed == 0 && Enabled(s, a)
    requires a.DoTakeNeeded? || a.DoTakeEv? || a.DoSteal? || a.DoLeave?
    ensures Rank(Apply(s, a)) < Rank(s)
  {
    if a.DoSteal? {
      ItemsWeightSame(s.stage, Collect(s).stage);
    }
  }

  lemma IdleTimeoutRank(s: Pool, t: ThreadId)
    requires Inv(s) && At(s, t, TimingOut)
    ensures Rank(IdleTimeout(s, t)) < Rank(s)
  {
    hide Distinct, Attended, CountersOk, WorkOk, PlacesOk, Without;
    assert t < s.nextThread;
    hide WorkersOk;
    WorkersWeightUpdate(s.workers, s.nextThread, t, s.workers[t].(pc := Waiting, armed := true));
  }

  lemma WakeRank(s: Pool, a: Step)
    requires Inv(s) && s.freed == 0 && Enabled(s, a) && (a.DoStart? || a.DoTakeKick?)
    ensures Rank(Apply(s, a)) < Rank(s)
  {
    hide Distinct, Attended, CountersOk, WorkOk, PlacesOk;
    assert WorkerOk(s.workers[a.t], a.t in s.idle, s.shutting) && a.t < s.nextThread;
    hide WorkersOk;
    WorkersWeightUpdate(s.workers, s.nextThread, a.t, Apply(s, a).workers[a.t]);
  }

  /** Everything the pool does by itself brings it closer to rest. */
  lemma InternalStepRank(s: Pool, a: Step)
    requires Inv(s) && InWindow(s) && Enabled(s, a) && Internal(a)
    ensures Rank(Apply(s, a)) < Rank(s)
  {
    assert s.freed == 0 && !s.broken;
    hide Inv, InWindow, Rank, GotEvent, Finish, IdleTimeout, Needed, Complete;
    match a {
      case DoGotEvent(t) => GotEventRank(s, t);
      case DoFinish(t) => FinishRank(s, t);
      case DoIdleTimeout(t) => IdleTimeoutRank(s, t);
      case DoStart(_) => WakeRank(s, a);
      case DoTakeKick(_) => WakeRank(s, a);
      case DoNeeded => NeededRank(s);
      case DoComplete => CompleteRank(s);
      case _ => OwnerRank(s, a);
    }
  }

  /** Left to itself the pool comes to rest, within a bound known at the start. */
  lemma {:induction false} ComesToRest(s: Pool, run: seq<Step>)
    requires Inv(s) && InWindow(s) && Legal(s, run) && forall k :: 0 <= k < |run| ==> Internal(run[k])
    ensures |run| <= Rank(s)
    decreases |run|
  {
    hide Inv, InWindow, Rank, Apply, Enabled;
    if run != [] {
      StepKeeps(s, run[0]);
      InternalStepRank(s, run[0]);
      ComesToRest(Apply(s, run[0]), run[1..]);
    }
  }

  lemma {:induction false} ExecConcat(s: Pool, r1: seq<Step>, r2: seq<Step>)
    requires Legal(s, r1) && Legal(Exec(s, r1), r2)
    ensures Legal(s, r1 + r2) && Exec(s, r1 + r2) == Exec(Exec(s, r1), r2)
    decreases |r1|
  {
    hide Apply, Enabled, InWindow;
    if r1 == [] {
      assert r1 + r2 == r2;
    } else {
      ExecConcat(Apply(s, r1[0]), r1[1..], r2);
      assert (r1 + r2)[1..] == r1[1..] + r2;
    }
  }

  /** A pool left to itself completes every item, and is freed if it was put. */
  lemma EverythingCompletes(s: Pool, run: seq<Step>)
    requires Reachable(s) && Legal(s, run) && (forall k :: 0 <= k < |run| ==> Internal(run[k]))
    ensures |run| <= Rank(s)
    ensures var s' := Exec(s, run); Quiet(s') ==> AllCompleted(s') && (s'.shutting ==> s'.freed == 1)
  {
    hide Inv, InWindow, Rank, Apply, Enabled;
    ReachableOk(s);
    ComesToRest(s, run);
    var max: nat, before :| max >= 1 && Legal(Init(max), before) && s == Exec(Init(max), before);
    ExecConcat(Init(max), before, run);
    if Quiet(Exec(s, run)) {
      RestMeansDone(Exec(s, run));
    }
  }
}
