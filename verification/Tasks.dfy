/**
 The task runner (src/iv_task.c).  A pass takes the pending tasks off the list and runs
 them; a task registered from a handler joins the running pass, unless it has taken part in
 it already, which its epoch tells.
 */
module Tasks {
  import opened Lists

  const WORD := 0x1_0000_0000

  class Task {
    var epoch: nat

    constructor (epoch: nat)
      ensures this.epoch == epoch
    {
      this.epoch := epoch;
    }
  }

  /** A call a handler may make; calls that would be fatal are not made. */
  datatype Op = Register(t: Task) | Unregister(t: Task) | Initialise(t: Task)

  function Ops(script: seq<seq<Op>>, k: nat): seq<Op> { if k < |script| then script[k] else [] }

  // ---------- What calls and passes do ----------

  /** The pending tasks, the list of the running pass if there is one, and the epochs. */
  datatype State = State(running: bool, epoch: nat, tasks: seq<Task>, current: seq<Task>, epochs: map<Task, nat>)

  predicate IsRegistered(p: State, t: Task)
  {
    t in p.tasks || t in p.current
  }

  /** The task has taken part in the pass. */
  predicate Took(p: State, t: Task)
  {
    t in p.epochs && p.epochs[t] == p.epoch
  }

  function AfterOp(p: State, op: Op): State
  {
    match op
    case Register(t) =>
      if IsRegistered(p, t) then p
      else if !p.running || Took(p, t) then p.(tasks := p.tasks + [t])
      else p.(current := p.current + [t])
    case Unregister(t) => p.(tasks := Without(p.tasks, t), current := Without(p.current, t))
    case Initialise(t) => if IsRegistered(p, t) then p else p.(epochs := p.epochs[t := p.epoch])
  }

  function AfterOps(p: State, ops: seq<Op>): State
  {
    if ops == [] then p else AfterOp(AfterOps(p, ops[..|ops| - 1]), ops[|ops| - 1])
  }

  lemma {:induction false} AfterOpsConcat(p: State, ops: seq<Op>, more: seq<Op>)
    ensures AfterOps(p, ops + more) == AfterOps(AfterOps(p, ops), more)
  {
    if more == [] {
      assert ops + more == ops;
    } else {
      var all, n := ops + more, |more| - 1;
      assert all[..|all| - 1] == ops + more[..n] && all[|all| - 1] == more[n];
      AfterOpsConcat(p, ops, more[..n]);
    }
  }

  lemma OneOp(p: State, op: Op)
    ensures AfterOps(p, [op]) == AfterOp(p, op)
  {
    assert [op][..0] == [];
  }

  /** The pending tasks become the list of a pass. */
  function Begun(p: State): State
  {
    State(true, (p.epoch + 1) % WORD, [], p.tasks, p.epochs)
  }

  /** The first task on the list leaves it to run. */
  function Started(p: State): State
    requires p.current != []
  {
    p.(current := p.current[1..], epochs := p.epochs[p.current[0] := p.epoch])
  }

  /** Where a pass stands after `k` tasks have run. */
  function PassAfter(p: State, script: seq<seq<Op>>, k: nat): State
  {
    if k == 0 then p else
      var q := PassAfter(p, script, k - 1);
      if q.current == [] then q else AfterOps(Started(q), Ops(script, k - 1))
  }

  /** The tasks that a pass runs, up to the first `k`. */
  function RanOf(p: State, script: seq<seq<Op>>, k: nat): seq<Task>
  {
    if k == 0 then [] else
      var q := PassAfter(p, script, k - 1);
      RanOf(p, script, k - 1) + if q.current == [] then [] else [q.current[0]]
  }

  lemma PassNext(p: State, script: seq<seq<Op>>, k: nat)
    ensures var q := PassAfter(p, script, k);
      q.current != [] ==>
        && PassAfter(p, script, k + 1) == AfterOps(Started(q), Ops(script, k))
        && RanOf(p, script, k + 1) == RanOf(p, script, k) + [q.current[0]]
  {
  }

  /** `ran` is what the pass runs: always the first task on its list, until the list is empty. */
  predicate RunsThrough(p: State, script: seq<seq<Op>>, ran: seq<Task>)
  {
    && PassAfter(p, script, |ran|).current == []
    && ran == RanOf(p, script, |ran|)
  }

  // ---------- What that means for users ----------

  /** One of the first `n` handlers of the pass makes this call. */
  ghost predicate Asked(op: Op, script: seq<seq<Op>>, n: nat)
  {
    exists k: nat :: k < n && op in Ops(script, k)
  }

  ghost predicate Separate(p: State)
  {
    Distinct(p.tasks) && Distinct(p.current) && forall t :: t in p.tasks ==> t !in p.current
  }

  lemma OpSeparate(p: State, op: Op)
    requires Separate(p)
    ensures Separate(AfterOp(p, op))
  {
    hide Distinct;
    WithoutDistinct(p.tasks, op.t);
    WithoutDistinct(p.current, op.t);
    if !IsRegistered(p, op.t) {
      AppendDistinct(p.tasks, op.t);
      AppendDistinct(p.current, op.t);
    }
  }

  lemma {:induction false} OpsSeparate(p: State, ops: seq<Op>)
    requires Separate(p)
    ensures Separate(AfterOps(p, ops))
  {
    hide Separate, AfterOp;
    if ops != [] {
      OpsSeparate(p, ops[..|ops| - 1]);
      OpSeparate(AfterOps(p, ops[..|ops| - 1]), ops[|ops| - 1]);
    }
  }

  lemma OpMove(p: State, op: Op, t: Task)
    ensures var q := AfterOp(p, op);
      && (t in p.current && op != Unregister(t) ==> t in q.current)
      && (t in p.tasks && op != Unregister(t) ==> t in q.tasks)
      && (op == Register(t) ==> IsRegistered(q, t))
      && (IsRegistered(p, t) && op != Unregister(t) ==> IsRegistered(q, t))
      && (IsRegistered(q, t) ==> IsRegistered(p, t) || op == Register(t))
  {
  }

  /** A task leaves the lists only by being unregistered, and joins them only by being registered. */
  lemma {:induction false} OpsMove(p: State, ops: seq<Op>, t: Task)
    ensures var q := AfterOps(p, ops);
      && (t in p.current && Unregister(t) !in ops ==> t in q.current)
      && (t in p.tasks && Unregister(t) !in ops ==> t in q.tasks)
      && (Register(t) in ops && Unregister(t) !in ops ==> IsRegistered(q, t))
      && (IsRegistered(q, t) ==> IsRegistered(p, t) || Register(t) in ops)
  {
    if ops != [] {
      var n := |ops| - 1;
      var some, op := ops[..n], ops[n];
      assert ops == some + [op];
      OpMove(AfterOps(p, some), op, t);
      hide AfterOp, IsRegistered;
      OpsMove(p, some, t);
    }
  }

  /** Who has taken part in the pass does not join it again. */
  lemma {:induction false} OpsOnce(p: State, ops: seq<Op>, t: Task)
    requires p.running && Took(p, t) && t !in p.current
    ensures var q := AfterOps(p, ops); q.running && q.epoch == p.epoch && Took(q, t) && t !in q.current
  {
    if ops != [] {
      OpsOnce(p, ops[..|ops| - 1], t);
    }
  }

  lemma {:induction false} OpsKeepEpoch(p: State, ops: seq<Op>)
    ensures AfterOps(p, ops).running == p.running && AfterOps(p, ops).epoch == p.epoch
  {
    if ops != [] {
      OpsKeepEpoch(p, ops[..|ops| - 1]);
    }
  }

  lemma StartedSeparate(p: State)
    requires Separate(p) && p.current != []
    ensures Separate(Started(p)) && p.current[0] !in p.current[1..] && p.current[0] !in p.tasks
  {
    TailDistinct(p.current);
    assert p.current[0] in p.current;
  }

  /** No task runs twice in a pass. */
  lemma {:induction false} RanOnce(p: State, script: seq<seq<Op>>, k: nat)
    requires Separate(p) && p.running
    ensures var q, ran := PassAfter(p, script, k), RanOf(p, script, k);
      && q.running && q.epoch == p.epoch && Separate(q)
      && Distinct(ran) && forall t :: t in ran ==> Took(q, t) && t !in q.current
    decreases k
  {
    hide Separate, Distinct, AfterOps, Took;
    if k == 0 {
      NoneRan(RanOf(p, script, 0));
    } else {
      RanOnce(p, script, k - 1);
      RunsOneMore(PassAfter(p, script, k - 1), RanOf(p, script, k - 1), Ops(script, k - 1));
      assert RanOf(p, script, k - 1) + [] == RanOf(p, script, k - 1);
    }
  }

  lemma NoneRan(ran: seq<Task>)
    requires ran == []
    ensures Distinct(ran)
  {
  }

  lemma RunsOneMore(p: State, ran: seq<Task>, ops: seq<Op>)
    requires Separate(p) && p.running && Distinct(ran) && forall t :: t in ran ==> Took(p, t) && t !in p.current
    ensures p.current != [] ==>
              var q := AfterOps(Started(p), ops);
              && q.running && q.epoch == p.epoch && Separate(q) && Distinct(ran + [p.current[0]])
              && forall t :: t in ran + [p.current[0]] ==> Took(q, t) && t !in q.current
  {
    if p.current != [] {
      var x, q := p.current[0], Started(p);
      assert x in p.current;
      StartedSeparate(p);
      assert forall t :: t in ran + [x] ==> Took(q, t) && t !in q.current;
      hide Separate, Distinct, AfterOps, Took, Started;
      AppendDistinct(ran, x);
      OpsSeparate(q, ops);
      OpsKeepEpoch(q, ops);
      forall t | t in ran + [x]
        ensures var r := AfterOps(q, ops); Took(r, t) && t !in r.current
      {
        OpsOnce(q, ops, t);
      }
    }
  }

  /** A task that is on the list after `m` tasks have run runs or stays there, unless a handler unregisters it. */
  lemma {:induction false} WaitingRuns(p: State, script: seq<seq<Op>>, m: nat, k: nat, t: Task)
    requires m <= k && t in PassAfter(p, script, m).current && |RanOf(p, script, k)| == k
    ensures t in RanOf(p, script, k)[m..] || t in PassAfter(p, script, k).current || Asked(Unregister(t), script, k)
    decreases k
  {
    if m < k {
      hide RanOf, PassAfter, AfterOps, Started, Asked, Ops;
      LastRan(p, script, k);
      AskedBefore(Unregister(t), script, k);
      var q, some := PassAfter(p, script, k - 1), RanOf(p, script, k - 1);
      WaitingRuns(p, script, m, k - 1, t);
      OpsMove(Started(q), Ops(script, k - 1), t);
      DropAppend(some, q.current[0], m);
    }
  }

  /** Every task that was on the list runs or waits, unless a handler has unregistered it. */
  lemma PendingRuns(p: State, script: seq<seq<Op>>, k: nat, t: Task)
    requires t in p.current && |RanOf(p, script, k)| == k
    ensures t in RanOf(p, script, k) || t in PassAfter(p, script, k).current || Asked(Unregister(t), script, k)
  {
    WaitingRuns(p, script, 0, k, t);
    assert RanOf(p, script, k)[0..] == RanOf(p, script, k);
  }

  /** The last of `k` tasks to run. */
  lemma LastRan(p: State, script: seq<seq<Op>>, k: nat)
    requires k > 0 && |RanOf(p, script, k)| == k
    ensures var q, some := PassAfter(p, script, k - 1), RanOf(p, script, k - 1);
      && |some| == k - 1 && q.current != []
      && RanOf(p, script, k) == some + [q.current[0]]
      && PassAfter(p, script, k) == AfterOps(Started(q), Ops(script, k - 1))
      && (forall t :: t in q.current ==> t == q.current[0] || t in Started(q).current)
      && (forall t :: IsRegistered(Started(q), t) ==> IsRegistered(q, t))
      && (forall t :: IsRegistered(q, t) ==> t == q.current[0] || IsRegistered(Started(q), t))
  {
    RanLength(p, script, k);
    var q := PassAfter(p, script, k - 1);
    assert q.current == [q.current[0]] + q.current[1..];
  }

  lemma AskedBefore(op: Op, script: seq<seq<Op>>, k: nat)
    requires k > 0
    ensures Asked(op, script, k - 1) ==> Asked(op, script, k)
    ensures op in Ops(script, k - 1) ==> Asked(op, script, k)
  {
  }

  lemma DropAppend(s: seq<Task>, x: Task, m: nat)
    requires m <= |s|
    ensures (s + [x])[m..] == s[m..] + [x]
  {
  }

  lemma {:induction false} RanLength(p: State, script: seq<seq<Op>>, k: nat)
    ensures |RanOf(p, script, k)| <= k
    ensures k > 0 && |RanOf(p, script, k)| == k ==>
              |RanOf(p, script, k - 1)| == k - 1 && PassAfter(p, script, k - 1).current != []
  {
    if k > 0 {
      RanLength(p, script, k - 1);
    }
  }

  /** Only tasks that were there, or that a handler has registered, run or are registered. */
  lemma {:induction false} OnlyAsked(p: State, script: seq<seq<Op>>, k: nat, t: Task)
    requires t in RanOf(p, script, k) || IsRegistered(PassAfter(p, script, k), t)
    ensures IsRegistered(p, t) || Asked(Register(t), script, k)
    decreases k
  {
    if k > 0 {
      var q := PassAfter(p, script, k - 1);
      if q.current != [] {
        OpsMove(Started(q), Ops(script, k - 1), t);
      }
      if t in RanOf(p, script, k - 1) || IsRegistered(q, t) {
        OnlyAsked(p, script, k - 1, t);
        assert Asked(Register(t), script, k - 1) ==> Asked(Register(t), script, k);
      }
    }
  }

  /** A task that the m-th handler registers runs later or stays registered, unless a handler unregisters it. */
  lemma {:induction false} RegisteredRuns(p: State, script: seq<seq<Op>>, k: nat, m: nat, t: Task)
    requires m < k && |RanOf(p, script, k)| == k && Register(t) in Ops(script, m)
    ensures t in RanOf(p, script, k)[m + 1..] || IsRegistered(PassAfter(p, script, k), t) || Asked(Unregister(t), script, k)
    decreases k
  {
    hide RanOf, PassAfter, AfterOps, Started, Asked, Ops;
    LastRan(p, script, k);
    AskedBefore(Unregister(t), script, k);
    var q, some := PassAfter(p, script, k - 1), RanOf(p, script, k - 1);
    OpsMove(Started(q), Ops(script, k - 1), t);
    if m < k - 1 {
      RegisteredRuns(p, script, k - 1, m, t);
      DropAppend(some, q.current[0], m + 1);
    }
  }

  /** After its unregistration, and as long as it is not registered again, a task is on no list. */
  lemma OpsUnregister(p: State, ops: seq<Op>, i: nat, t: Task)
    requires i < |ops| && ops[i] == Unregister(t) && Register(t) !in ops[i + 1..]
    ensures !IsRegistered(AfterOps(p, ops), t)
  {
    var a, b, c := ops[..i], [ops[i]], ops[i + 1..];
    assert ops == a + (b + c);
    AfterOpsConcat(p, a, b + c);
    AfterOpsConcat(AfterOps(p, a), b, c);
    OneOp(AfterOps(p, a), ops[i]);
    OpsMove(AfterOp(AfterOps(p, a), ops[i]), c, t);
  }

  /** A task that a handler unregisters, and that is not registered later, does not run any more and is not pending after the pass. */
  lemma {:induction false} UnregisteredStays(p: State, script: seq<seq<Op>>, k: nat, m: nat, i: nat, t: Task)
    requires m < k && |RanOf(p, script, k)| == k && i < |Ops(script, m)| && Ops(script, m)[i] == Unregister(t)
    requires Register(t) !in Ops(script, m)[i + 1..] && forall n: nat :: m < n < k ==> Register(t) !in Ops(script, n)
    ensures t !in RanOf(p, script, k)[m + 1..] && !IsRegistered(PassAfter(p, script, k), t)
    decreases k
  {
    LastRan(p, script, k);
    hide RanOf, PassAfter, AfterOps, Started;
    var q, some := PassAfter(p, script, k - 1), RanOf(p, script, k - 1);
    if m == k - 1 {
      OpsUnregister(Started(q), Ops(script, m), i, t);
    } else {
      UnregisteredStays(p, script, k - 1, m, i, t);
      OpsMove(Started(q), Ops(script, k - 1), t);
      DropAppend(some, q.current[0], m + 1);
      assert q.current[0] in q.current;
    }
  }

  /** Who has taken part in the pass: those that have run, and those initialised in it. */
  lemma {:induction false} OpsTook(p: State, ops: seq<Op>, t: Task)
    requires !Took(p, t) && Initialise(t) !in ops
    ensures !Took(AfterOps(p, ops), t)
  {
    if ops != [] {
      assert ops[|ops| - 1] in ops;
      OpsKeepEpoch(p, ops[..|ops| - 1]);
      OpsTook(p, ops[..|ops| - 1], t);
    }
  }

  lemma {:induction false} TookPartBy(p: State, script: seq<seq<Op>>, k: nat, t: Task)
    requires !Took(p, t) && !Asked(Initialise(t), script, k) && t !in RanOf(p, script, k)
    ensures !Took(PassAfter(p, script, k), t) && PassAfter(p, script, k).epoch == p.epoch
    decreases k
  {
    if k > 0 {
      assert Asked(Initialise(t), script, k - 1) ==> Asked(Initialise(t), script, k);
      TookPartBy(p, script, k - 1, t);
      var q := PassAfter(p, script, k - 1);
      if q.current != [] {
        OpsTook(Started(q), Ops(script, k - 1), t);
        OpsKeepEpoch(Started(q), Ops(script, k - 1));
      }
    }
  }

  /** While a pass is running, only tasks that have taken part in it are pending for the next one. */
  ghost predicate NextOnesTook(p: State)
  {
    p.running && forall t :: t in p.tasks ==> Took(p, t)
  }

  lemma {:induction false} OpsNextOnes(p: State, ops: seq<Op>)
    requires NextOnesTook(p)
    ensures NextOnesTook(AfterOps(p, ops))
  {
    if ops != [] {
      OpsNextOnes(p, ops[..|ops| - 1]);
    }
  }

  lemma {:induction false} PassNextOnes(p: State, script: seq<seq<Op>>, k: nat)
    requires NextOnesTook(p)
    ensures NextOnesTook(PassAfter(p, script, k))
  {
    if k > 0 {
      PassNextOnes(p, script, k - 1);
      var q := PassAfter(p, script, k - 1);
      if q.current != [] {
        OpsNextOnes(Started(q), Ops(script, k - 1));
      }
    }
  }

  /** A task that has not taken part in the pass and that a handler registers runs in it, unless a handler unregisters it. */
  lemma JoinsPass(p: State, script: seq<seq<Op>>, k: nat, m: nat, t: Task)
    requires p.running && p.tasks == [] && m < k && |RanOf(p, script, k)| == k && PassAfter(p, script, k).current == []
    requires Register(t) in Ops(script, m)
    requires !Took(p, t) && t !in RanOf(p, script, m + 1) && !Asked(Initialise(t), script, m + 1)
    ensures t in RanOf(p, script, k)[m + 1..] || Asked(Unregister(t), script, k)
  {
    RanPrefix(p, script, m + 1, k);
    RanLength(p, script, m + 1);
    TookPartBy(p, script, m + 1, t);
    PassNextOnes(p, script, m + 1);
    OpsMove(Started(PassAfter(p, script, m)), Ops(script, m), t);
    if Unregister(t) !in Ops(script, m) {
      WaitingRuns(p, script, m + 1, k, t);
    }
  }

  lemma {:induction false} RanPrefix(p: State, script: seq<seq<Op>>, m: nat, k: nat)
    requires m <= k && |RanOf(p, script, k)| == k
    ensures |RanOf(p, script, m)| == m && RanOf(p, script, m) <= RanOf(p, script, k)
    decreases k
  {
    if m < k {
      RanLength(p, script, k);
      RanPrefix(p, script, m, k - 1);
    }
  }

  /** A task that a handler initialises waits for the next pass. */
  lemma {:induction false} InitialisedWaits(p: State, script: seq<seq<Op>>, k: nat, m: nat, i: nat, t: Task)
    requires p.running && m < k && |RanOf(p, script, k)| == k && i < |Ops(script, m)| && Ops(script, m)[i] == Initialise(t)
    requires PassAfter(p, script, m).current != []
    requires !IsRegistered(AfterOps(Started(PassAfter(p, script, m)), Ops(script, m)[..i]), t)
    ensures t !in RanOf(p, script, k)[m + 1..]
    ensures var q := PassAfter(p, script, k); q.running && Took(q, t) && t !in q.current
    decreases k
  {
    hide RanOf, PassAfter, AfterOps;
    LastRan(p, script, k);
    PassKeepsEpoch(p, script, k - 1);
    var q, some, ops := PassAfter(p, script, k - 1), RanOf(p, script, k - 1), Ops(script, k - 1);
    if m == k - 1 {
      OpsInitialise(Started(q), ops, i, t);
    } else {
      InitialisedWaits(p, script, k - 1, m, i, t);
      OpsOnce(Started(q), ops, t);
      DropAppend(some, q.current[0], m + 1);
      assert q.current[0] in q.current;
    }
  }

  lemma OpsInitialise(p: State, ops: seq<Op>, i: nat, t: Task)
    requires p.running && i < |ops| && ops[i] == Initialise(t) && !IsRegistered(AfterOps(p, ops[..i]), t)
    ensures var q := AfterOps(p, ops); q.running && Took(q, t) && t !in q.current
  {
    var a, b, c := ops[..i], [ops[i]], ops[i + 1..];
    assert ops == a + (b + c);
    AfterOpsConcat(p, a, b + c);
    AfterOpsConcat(AfterOps(p, a), b, c);
    OneOp(AfterOps(p, a), ops[i]);
    OpsKeepEpoch(p, a);
    OpsOnce(AfterOp(AfterOps(p, a), ops[i]), c, t);
  }

  lemma {:induction false} PassKeepsEpoch(p: State, script: seq<seq<Op>>, k: nat)
    ensures PassAfter(p, script, k).running == p.running && PassAfter(p, script, k).epoch == p.epoch
  {
    if k > 0 {
      PassKeepsEpoch(p, script, k - 1);
      var q := PassAfter(p, script, k - 1);
      if q.current != [] {
        OpsKeepEpoch(Started(q), Ops(script, k - 1));
      }
    }
  }

  // ---------- In which order tasks run ----------

  ghost predicate Before(s: seq<Task>, a: Task, b: Task)
  {
    exists i, j :: 0 <= i < j < |s| && s[i] == a && s[j] == b
  }

  lemma {:induction false} WithoutBefore(s: seq<Task>, x: Task, a: Task, b: Task)
    requires Before(s, a, b) && x != a && x != b
    ensures Before(Without(s, x), a, b)
  {
    var i, j :| 0 <= i < j < |s| && s[i] == a && s[j] == b;
    var rest := s[1..];
    if i > 0 {
      assert rest[i - 1] == a && rest[j - 1] == b;
      WithoutBefore(rest, x, a, b);
      PrependBefore(s[0], Without(rest, x), a, b);
    } else {
      assert rest[j - 1] == b && b in Without(rest, x);
      var w := Without(rest, x);
      var k :| 0 <= k < |w| && w[k] == b;
      assert ([a] + w)[0] == a && ([a] + w)[k + 1] == b;
    }
  }

  lemma PrependBefore(x: Task, s: seq<Task>, a: Task, b: Task)
    requires Before(s, a, b)
    ensures Before([x] + s, a, b)
  {
    var i, j :| 0 <= i < j < |s| && s[i] == a && s[j] == b;
    assert ([x] + s)[i + 1] == a && ([x] + s)[j + 1] == b;
  }

  lemma AppendBefore(s: seq<Task>, x: Task, a: Task, b: Task)
    ensures Before(s, a, b) ==> Before(s + [x], a, b)
    ensures a in s && x == b ==> Before(s + [x], a, b)
  {
    if Before(s, a, b) {
      var i, j :| 0 <= i < j < |s| && s[i] == a && s[j] == b;
      assert (s + [x])[i] == a && (s + [x])[j] == b;
    }
    if a in s && x == b {
      var i :| 0 <= i < |s| && s[i] == a;
      assert (s + [x])[i] == a && (s + [x])[|s|] == b;
    }
  }

  lemma {:induction false} OpsKeepOrder(p: State, ops: seq<Op>, a: Task, b: Task)
    requires Before(p.current, a, b) && Unregister(a) !in ops && Unregister(b) !in ops
    ensures Before(AfterOps(p, ops).current, a, b)
  {
    if ops != [] {
      var n := |ops| - 1;
      assert ops[n] in ops;
      OpsKeepOrder(p, ops[..n], a, b);
      var q, t := AfterOps(p, ops[..n]), ops[n].t;
      hide Before, AfterOps;
      AppendBefore(q.current, t, a, b);
      if ops[n].Unregister? {
        WithoutBefore(q.current, t, a, b);
      }
    }
  }

  /** Where two tasks are of which the first was listed before the second. */
  ghost predicate InTurn(q: State, ran: seq<Task>, a: Task, b: Task)
  {
    || Before(ran, a, b)
    || (a in ran && b in q.current && b !in ran)
    || (Before(q.current, a, b) && a !in ran && b !in ran)
  }

  /** Tasks run in the order of the list, unless they are unregistered. */
  lemma {:induction false} RunsInOrder(p: State, script: seq<seq<Op>>, k: nat, a: Task, b: Task)
    requires Separate(p) && p.running && Before(p.current, a, b)
    requires !Asked(Unregister(a), script, k) && !Asked(Unregister(b), script, k)
    ensures b in RanOf(p, script, k) ==> Before(RanOf(p, script, k), a, b)
    ensures InTurn(PassAfter(p, script, k), RanOf(p, script, k), a, b)
    decreases k
  {
    if k > 0 {
      assert Asked(Unregister(a), script, k - 1) ==> Asked(Unregister(a), script, k);
      assert Asked(Unregister(b), script, k - 1) ==> Asked(Unregister(b), script, k);
      RunsInOrder(p, script, k - 1, a, b);
      RanOnce(p, script, k - 1);
      var q, ran := PassAfter(p, script, k - 1), RanOf(p, script, k - 1);
      if q.current == [] {
        assert ran + [] == ran;
      } else {
        TurnComes(q, ran, Ops(script, k - 1), a, b);
      }
    }
  }

  lemma TurnComes(q: State, ran: seq<Task>, ops: seq<Op>, a: Task, b: Task)
    requires q.current != [] && InTurn(q, ran, a, b) && Unregister(a) !in ops && Unregister(b) !in ops && Distinct(q.current)
    requires forall t :: t in ran ==> t !in q.current
    ensures InTurn(AfterOps(Started(q), ops), ran + [q.current[0]], a, b)
  {
    var x, r := q.current[0], Started(q);
    TailDistinct(q.current);
    AppendBefore(ran, x, a, b);
    OpsMove(r, ops, b);
    if Before(q.current, a, b) && a !in ran && b !in ran {
      var i, j :| 0 <= i < j < |q.current| && q.current[i] == a && q.current[j] == b;
      assert b == q.current[1..][j - 1];
      if x != a {
        assert a == q.current[1..][i - 1] && x != b;
        assert Before(r.current, a, b);
        OpsKeepOrder(r, ops, a, b);
      }
    }
  }

  lemma OpsOfScript(script: seq<seq<Op>>, k: nat)
    ensures Ops(script, k) == [] || Ops(script, k) in script
  {
  }

  /** The same for all tasks, after a pass. */
  lemma WhatRan(p: State, script: seq<seq<Op>>, k: nat)
    requires |RanOf(p, script, k)| == k && PassAfter(p, script, k).current == [] && p.tasks == []
    ensures var q, ran := PassAfter(p, script, k), RanOf(p, script, k);
      && (forall t :: t in p.current ==> t in ran || Asked(Unregister(t), script, k))
      && (forall t :: t in ran + q.tasks ==> t in p.current || Asked(Register(t), script, k))
      && (forall m, op :: 0 <= m < k && op in Ops(script, m) && op.Register? ==>
            op.t in ran[m + 1..] || op.t in q.tasks || Asked(Unregister(op.t), script, k))
  {
    var q, ran := PassAfter(p, script, k), RanOf(p, script, k);
    hide Asked, RanOf, PassAfter;
    forall t | t in p.current
      ensures t in ran || Asked(Unregister(t), script, k)
    {
      PendingRuns(p, script, k, t);
    }
    forall t | t in ran + q.tasks
      ensures t in p.current || Asked(Register(t), script, k)
    {
      OnlyAsked(p, script, k, t);
    }
    forall m, op | 0 <= m < k && op in Ops(script, m) && op.Register?
      ensures op.t in ran[m + 1..] || op.t in q.tasks || Asked(Unregister(op.t), script, k)
    {
      RegisteredRuns(p, script, k, m, op.t);
    }
  }

  class TaskRunner {
    var tasks: seq<Task>
    /** The list of the running pass, if there is one. */
    var running: bool
    var current: seq<Task>
    var epoch: nat
    var numobjs: int
    /** How many objects of other kinds there are. */
    ghost var others: int

    ghost predicate Valid()
      reads this
    {
      && epoch < WORD
      && Distinct(tasks) && Distinct(current) && (forall t :: t in tasks ==> t !in current)
      && (!running ==> current == [])
      && numobjs == others + |tasks| + |current|
    }

    constructor ()
      ensures Valid() && tasks == [] && !running && others == 0
    {
      tasks, running, current, epoch, numobjs, others := [], false, [], 0, 0, 0;
    }

    /** `iv_task_registered`. */
    predicate Registered(t: Task)
      reads this
    {
      t in tasks || t in current
    }

    /** `iv_task_register`. */
    method RegisterTask(t: Task)
      requires Valid() && !Registered(t)
      modifies this`tasks, this`current, this`numobjs
      ensures Valid() && numobjs == old(numobjs) + 1
      ensures tasks == if !running || t.epoch == epoch then old(tasks) + [t] else old(tasks)
      ensures current == if !running || t.epoch == epoch then old(current) else old(current) + [t]
    {
      numobjs := numobjs + 1;
      if !running || t.epoch == epoch {
        AppendDistinct(tasks, t);
        tasks := tasks + [t];
      } else {
        AppendDistinct(current, t);
        current := current + [t];
      }
    }

    /** `iv_task_unregister`. */
    method UnregisterTask(t: Task)
      requires Valid() && Registered(t)
      modifies this`tasks, this`current, this`numobjs
      ensures Valid() && numobjs == old(numobjs) - 1 && !Registered(t)
      ensures tasks == Without(old(tasks), t) && current == Without(old(current), t)
    {
      numobjs := numobjs - 1;
      WithoutDistinct(tasks, t);
      WithoutDistinct(current, t);
      tasks, current := Without(tasks, t), Without(current, t);
    }

    // ---------- A pass ----------

    /** The tasks that can still run in this pass: those on its list, and those whose epoch lets them join. */
    ghost function Eligible(all: set<Task>): set<Task>
      reads this, all
    {
      set t | t in all && (t in current || t.epoch != epoch)
    }

    ghost predicate Knows(all: set<Task>)
      reads this`tasks, this`current
    {
      (forall t :: t in tasks ==> t in all) && (forall t :: t in current ==> t in all)
    }

    ghost function StateOf(all: set<Task>): State
      reads this, all
    {
      State(running, epoch, tasks, current, map t | t in all :: t.epoch)
    }

    lemma OnList(all: set<Task>)
      ensures var p := StateOf(all); p.current == current && p.tasks == tasks && p.running == running && p.epoch == epoch
    {
    }

    lemma TookPart(ran: seq<Task>, all: set<Task>)
      requires forall t :: t in ran ==> Took(StateOf(all), t)
      ensures forall t :: t in ran ==> t in all && t.epoch == epoch
    {
    }

    /** One call made by a handler.  It makes no task eligible. */
    method Perform(op: Op, ghost all: set<Task>)
      requires Valid() && Knows(all) && op.t in all
      modifies this`tasks, this`current, this`numobjs, all
      ensures Valid() && Knows(all) && Eligible(all) <= old(Eligible(all))
      ensures StateOf(all) == AfterOp(old(StateOf(all)), op)
    {
      match op
      case Register(t) =>
        if !Registered(t) {
          RegisterTask(t);
        }
      case Unregister(t) =>
        if Registered(t) {
          UnregisterTask(t);
        }
      case Initialise(t) =>
        if !Registered(t) {
          t.epoch := epoch;
        }
    }

    /** A handler makes its calls. */
    method RunHandler(ops: seq<Op>, ghost all: set<Task>)
      requires Valid() && Knows(all) && forall op :: op in ops ==> op.t in all
      modifies this`tasks, this`current, this`numobjs, all
      ensures Valid() && Knows(all) && Eligible(all) <= old(Eligible(all))
      ensures StateOf(all) == AfterOps(old(StateOf(all)), ops)
    {
      hide Valid, AfterOp, StateOf, Knows, Eligible;
      var k := 0;
      assert ops[..0] == [];
      while k < |ops|
        invariant k <= |ops| && Valid() && Knows(all) && Eligible(all) <= old(Eligible(all))
        invariant StateOf(all) == AfterOps(old(StateOf(all)), ops[..k])
      {
        assert ops[k] in ops && ops[..k + 1] == ops[..k] + [ops[k]];
        AfterOpsConcat(old(StateOf(all)), ops[..k], [ops[k]]);
        OneOp(AfterOps(old(StateOf(all)), ops[..k]), ops[k]);
        Perform(ops[k], all);
        k := k + 1;
      }
      assert ops[..|ops|] == ops;
    }

    /** The pending tasks become the list of the pass. */
    method BeginPass(ghost all: set<Task>)
      requires Valid() && !running && Knows(all)
      modifies this
      ensures Valid() && running && Knows(all) && others == old(others) && StateOf(all) == Begun(old(StateOf(all)))
    {
      current, tasks := tasks, [];
      epoch := (epoch + 1) % WORD;
      running := true;
    }

    method EndPass(ghost all: set<Task>)
      requires Valid() && running && current == []
      modifies this`running
      ensures Valid() && !running && StateOf(all) == old(StateOf(all)).(running := false)
    {
      running := false;
    }

    /** Take the next task off the list of the pass. */
    method Next(ghost all: set<Task>) returns (t: Task)
      requires Valid() && running && Knows(all) && current != []
      modifies this`current, this`numobjs, all
      ensures Valid() && Knows(all) && Eligible(all) < old(Eligible(all))
      ensures t == old(current[0]) && StateOf(all) == Started(old(StateOf(all)))
    {
      t := current[0];
      assert t in current;
      TailDistinct(current);
      current := current[1..];
      numobjs := numobjs - 1;
      t.epoch := epoch;
      assert t in old(Eligible(all)) && t !in Eligible(all);
    }

    /**
     `iv_run_tasks`, where the handler of the k-th task to run makes the calls `script[k]`.
     Whatever they are, and wherever the epoch counter stands, the pass ends; which tasks run and
     which are pending in the end is what `RanOf` and `PassAfter` say.  No task runs
     twice, and none that was neither pending nor registered by a handler; every task
     that was pending runs unless a handler has unregistered it; a task that a handler
     registers runs later in this pass or is pending after it, unless one unregisters it.
     */
    method RunTasks(script: seq<seq<Op>>, ghost all: set<Task>) returns (ran: seq<Task>)
      requires Valid() && !running && Knows(all) && forall ops, op :: ops in script && op in ops ==> op.t in all
      modifies this, all
      ensures Valid() && !running && Knows(all) && epoch == (old(epoch) + 1) % WORD && others == old(others)
      ensures var p := Begun(old(StateOf(all)));
        RunsThrough(p, script, ran) && StateOf(all) == PassAfter(p, script, |ran|).(running := false)
      ensures Distinct(ran) && forall t :: t in ran ==> t in all && t.epoch == epoch
      ensures forall t :: t in old(tasks) ==> t in ran || Asked(Unregister(t), script, |ran|)
      ensures forall t :: t in ran || t in tasks ==> t in old(tasks) || Asked(Register(t), script, |ran|)
      ensures forall k, op :: 0 <= k < |ran| && op in Ops(script, k) && op.Register? ==>
                op.t in ran[k + 1..] || op.t in tasks || Asked(Unregister(op.t), script, |ran|)
    {
      ghost var p := Begun(StateOf(all));
      assert Separate(p) && p.current == tasks && p.epoch == (epoch + 1) % WORD;
      hide Distinct, Separate, Valid, Eligible, Knows, StateOf;
      BeginPass(all);
      ran := [];
      while current != []
        invariant Valid() && running && Knows(all) && others == old(others)
        invariant StateOf(all) == PassAfter(p, script, |ran|) && ran == RanOf(p, script, |ran|)
        decreases Eligible(all)
      {
        hide *;
        PassNext(p, script, |ran|);
        OnList(all);
        var t := Next(all);
        var ops := Ops(script, |ran|);
        assert ops == [] || ops in script by {
          OpsOfScript(script, |ran|);
        }
        RunHandler(ops, all);
        ran := ran + [t];
      }
      OnList(all);
      RanOnce(p, script, |ran|);
      WhatRan(p, script, |ran|);
      TookPart(ran, all);
      EndPass(all);
    }
  }
}
