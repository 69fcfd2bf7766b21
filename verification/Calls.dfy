/**
 Handlers that act on timers and on tasks alike.  On each of the two they have the effect
 that their calls of that kind alone have.
 */
module Calls {
  import opened Lists
  import K = Tasks
  import Q = TimerQueue
  import R = RadixTree

  /** A call that a handler may make. */
  datatype Op = OnTimer(timerOp: Q.Op) | OnTask(taskOp: K.Op)

  /** The registered timers, the timers whose handlers have yet to be called, and the tasks. */
  datatype World = World(times: Q.Times, expired: seq<R.Timer>, tasks: K.State)

  function AfterOp(w: World, op: Op): World
  {
    match op
    case OnTimer(o) =>
      w.(times := Q.AfterOp(w.times, w.expired, o), expired := if o.Unreg? then Without(w.expired, o.t) else w.expired)
    case OnTask(o) => w.(tasks := K.AfterOp(w.tasks, o))
  }

  function AfterOps(w: World, ops: seq<Op>): World
    decreases |ops|
  {
    if ops == [] then w else AfterOps(AfterOp(w, ops[0]), ops[1..])
  }

  function TimerOps(ops: seq<Op>): seq<Q.Op>
  {
    if ops == [] then [] else (if ops[0].OnTimer? then [ops[0].timerOp] else []) + TimerOps(ops[1..])
  }

  function TaskOps(ops: seq<Op>): seq<K.Op>
  {
    if ops == [] then [] else (if ops[0].OnTask? then [ops[0].taskOp] else []) + TaskOps(ops[1..])
  }

  lemma {:induction false} TimerOpsConcat(ops: seq<Op>, more: seq<Op>)
    ensures TimerOps(ops + more) == TimerOps(ops) + TimerOps(more)
  {
    if ops == [] {
      assert ops + more == more;
    } else {
      var first := if ops[0].OnTimer? then [ops[0].timerOp] else [];
      assert (ops + more)[1..] == ops[1..] + more && (ops + more)[0] == ops[0];
      TimerOpsConcat(ops[1..], more);
      assert first + (TimerOps(ops[1..]) + TimerOps(more)) == (first + TimerOps(ops[1..])) + TimerOps(more);
    }
  }

  lemma {:induction false} TaskOpsConcat(ops: seq<Op>, more: seq<Op>)
    ensures TaskOps(ops + more) == TaskOps(ops) + TaskOps(more)
  {
    if ops == [] {
      assert ops + more == more;
    } else {
      var first := if ops[0].OnTask? then [ops[0].taskOp] else [];
      assert (ops + more)[1..] == ops[1..] + more && (ops + more)[0] == ops[0];
      TaskOpsConcat(ops[1..], more);
      assert first + (TaskOps(ops[1..]) + TaskOps(more)) == (first + TaskOps(ops[1..])) + TaskOps(more);
    }
  }

  /** Each call is in the selection of its kind, behind those of its kind that come before it, and nothing else is. */
  lemma Selected(ops: seq<Op>, i: nat)
    requires i < |ops|
    ensures var n, m := |TimerOps(ops[..i])|, |TaskOps(ops[..i])|;
      && n + m == i
      && (ops[i].OnTimer? ==> n < |TimerOps(ops)| && TimerOps(ops)[n] == ops[i].timerOp)
      && (ops[i].OnTask? ==> m < |TaskOps(ops)| && TaskOps(ops)[m] == ops[i].taskOp)
    ensures |TimerOps(ops)| + |TaskOps(ops)| == |ops|
  {
    var a, b, c := ops[..i], [ops[i]], ops[i + 1..];
    assert ops == a + (b + c);
    TimerOpsConcat(a, b + c);
    TimerOpsConcat(b, c);
    TaskOpsConcat(a, b + c);
    TaskOpsConcat(b, c);
    SelectedAll(a);
    SelectedAll(ops);
  }

  lemma {:induction false} SelectedAll(ops: seq<Op>)
    ensures |TimerOps(ops)| + |TaskOps(ops)| == |ops|
  {
    if ops != [] {
      SelectedAll(ops[1..]);
    }
  }

  /** A handler acts on timers as its calls about timers do, and on tasks as those about tasks do. */
  lemma {:induction false} ActsSeparately(w: World, ops: seq<Op>)
    ensures AfterOps(w, ops) == World(Q.AfterOps(w.times, w.expired, TimerOps(ops)), Q.Strike(w.expired, TimerOps(ops)),
                                      K.AfterOps(w.tasks, TaskOps(ops)))
    decreases |ops|
  {
    if ops != [] {
      var op, rest := ops[0], ops[1..];
      ActsSeparately(AfterOp(w, op), rest);
      if op.OnTimer? {
        assert ([op.timerOp] + TimerOps(rest))[1..] == TimerOps(rest);
        assert [] + TaskOps(rest) == TaskOps(rest);
      } else {
        assert [] + TimerOps(rest) == TimerOps(rest);
        K.AfterOpsConcat(w.tasks, [op.taskOp], TaskOps(rest));
        K.OneOp(w.tasks, op.taskOp);
      }
    }
  }

  // ---------- The handlers of a pass ----------

  function Ops(script: seq<seq<Op>>, k: nat): seq<Op> { if k < |script| then script[k] else [] }

  function TimerScript(script: seq<seq<Op>>): seq<seq<Q.Op>>
  {
    seq(|script|, k requires 0 <= k < |script| => TimerOps(script[k]))
  }

  function TaskScript(script: seq<seq<Op>>): seq<seq<K.Op>>
  {
    seq(|script|, k requires 0 <= k < |script| => TaskOps(script[k]))
  }

  lemma ScriptOps(script: seq<seq<Op>>, k: nat)
    ensures Q.Ops(TimerScript(script), k) == TimerOps(Ops(script, k))
    ensures K.Ops(TaskScript(script), k) == TaskOps(Ops(script, k))
  {
  }

  /** What the first `n` handlers do to timers, and to tasks. */
  function TimerCalls(script: seq<seq<Op>>, n: nat): seq<Q.Op>
  {
    if n == 0 then [] else TimerCalls(script, n - 1) + TimerOps(Ops(script, n - 1))
  }

  function TaskCalls(script: seq<seq<Op>>, n: nat): seq<K.Op>
  {
    if n == 0 then [] else TaskCalls(script, n - 1) + TaskOps(Ops(script, n - 1))
  }

  lemma {:induction false} NothingToStrike(ops: seq<Q.Op>)
    ensures Q.Strike([], ops) == []
    decreases |ops|
  {
    if ops != [] {
      NothingToStrike(ops[1..]);
    }
  }

  lemma TimerCallsNext(times: Q.Times, script: seq<seq<Op>>, n: nat)
    ensures Q.AfterOps(times, [], TimerCalls(script, n + 1)) ==
            Q.AfterOps(Q.AfterOps(times, [], TimerCalls(script, n)), [], TimerOps(Ops(script, n)))
  {
    var some, more := TimerCalls(script, n), TimerOps(Ops(script, n));
    var calls := some + more;
    assert calls[..|some|] == some && calls[|some|..] == more;
    Q.AfterOpsSplit(times, [], calls, |some|);
    NothingToStrike(some);
  }

  lemma TaskCallsNext(p: K.State, script: seq<seq<Op>>, n: nat)
    ensures K.AfterOps(p, TaskCalls(script, n + 1)) ==
            K.AfterOps(K.AfterOps(p, TaskCalls(script, n)), TaskOps(Ops(script, n)))
  {
    K.AfterOpsConcat(p, TaskCalls(script, n), TaskOps(Ops(script, n)));
  }
}
