/**
 The timer queue of `iv_timer.c`: a binary heap, numbered from 1, whose slots live
 in the radix tree.  Each timer records its own index, so that any timer can be
 taken out.
 */
module TimerQueue {
  import opened Lists
  import opened RadixTree

  /** `timespec_gt`. */
  predicate Gt(a: Timespec, b: Timespec) {
    a.sec > b.sec || (a.sec == b.sec && a.nsec > b.nsec)
  }

  predicate Le(a: Timespec, b: Timespec) { !Gt(a, b) }

  // ---------- Heap order ----------

  /** `e` holds expiry times; the entry of heap index `i` is `e[i - 1]`. */
  ghost predicate Fits(e: seq<Timespec>, i: int)
    requires 2 <= i <= |e|
  {
    Le(e[i / 2 - 1], e[i - 1])
  }

  ghost predicate Ordered(e: seq<Timespec>) {
    forall i :: 2 <= i <= |e| ==> Fits(e, i)
  }

  /** The entry at `i`, a child of `k`, is no sooner than the parent of `k`. */
  ghost predicate Spans(e: seq<Timespec>, k: int, i: int)
    requires 2 <= i <= |e| && i / 2 == k >= 2
  {
    Le(e[k / 2 - 1], e[i - 1])
  }

  /** Order is broken at most between `k` and its children. */
  ghost predicate OrderedAbove(e: seq<Timespec>, k: int) {
    && (forall i :: 2 <= i <= |e| && i / 2 != k ==> Fits(e, i))
    && (forall i :: 2 <= i <= |e| && i / 2 == k >= 2 ==> Spans(e, k, i))
  }

  /** Order is broken at most between `k` and its parent and, as long as `k` is `k0`, its children. */
  ghost predicate OrderedAround(e: seq<Timespec>, k: int, k0: int) {
    && (forall i :: 2 <= i <= |e| && i != k && (k == k0 ==> i / 2 != k0) ==> Fits(e, i))
    && (forall i :: 2 <= i <= |e| && i / 2 == k >= 2 ==> Spans(e, k, i))
  }

  /** The root of an ordered heap is no later than any other entry. */
  lemma {:induction false} RootIsMinimum(e: seq<Timespec>, i: int)
    requires Ordered(e) && 1 <= i <= |e|
    ensures Le(e[0], e[i - 1])
    decreases i
  {
    if i > 1 {
      RootIsMinimum(e, i / 2);
      assert Fits(e, i);
    }
  }

  /** `s` with the entries of heap indices `i` and `j` exchanged. */
  ghost function Swap<T>(s: seq<T>, i: int, j: int): seq<T> {
    if 1 <= i <= |s| && 1 <= j <= |s| then s[i - 1 := s[j - 1]][j - 1 := s[i - 1]] else s
  }

  /** Exchanging an entry with a later parent moves the trouble up. */
  lemma SwapUp(e: seq<Timespec>, k: int, k0: int)
    requires 2 <= k <= |e| && OrderedAround(e, k, k0) && !Fits(e, k) && k / 2 != k0
    ensures OrderedAround(Swap(e, k, k / 2), k / 2, k0)
  {
    var p, s := k / 2, Swap(e, k, k / 2);
    forall i | 2 <= i <= |s| && i != p
      ensures Fits(s, i)
    {
      if i / 2 == k {
        assert Spans(e, k, i);
      } else if i != k {
        assert Fits(e, i);
      }
    }
    forall i | 2 <= i <= |s| && i / 2 == p >= 2
      ensures Spans(s, p, i)
    {
      assert Fits(e, p);
      assert i != k ==> Fits(e, i);
    }
  }

  /** Exchanging an entry with its soonest child moves the trouble down. */
  lemma SwapDown(e: seq<Timespec>, k: int, c: int)
    requires 2 <= c <= |e| && c / 2 == k && OrderedAbove(e, k) && Gt(e[k - 1], e[c - 1])
    requires forall i :: 2 <= i <= |e| && i / 2 == k ==> Le(e[c - 1], e[i - 1])
    ensures OrderedAbove(Swap(e, k, c), c)
  {
    var s := Swap(e, k, c);
    forall i | 2 <= i <= |s| && i / 2 != c
      ensures Fits(s, i)
    {
      if i == k {
        assert Spans(e, k, c);
      } else if i / 2 != k {
        assert Fits(e, i);
      }
    }
    forall i | 2 <= i <= |s| && i / 2 == c
      ensures Spans(s, c, i)
    {
      assert Fits(e, i);
    }
  }

  /** `s` with its last entry in the place of the one at heap index `k`. */
  ghost function MoveLast<T>(s: seq<T>, k: int): (r: seq<T>)
    requires 1 <= k <= |s|
    ensures |r| == |s| - 1
    ensures forall i :: 0 <= i < |r| ==> r[i] == if i == k - 1 then s[|s| - 1] else s[i]
  {
    var r := s[..|s| - 1];
    if k == |s| then r else r[k - 1 := s[|s| - 1]]
  }

  lemma MoveLastOrder(e: seq<Timespec>, k: int)
    requires Ordered(e) && 1 <= k <= |e|
    ensures k < |e| ==> OrderedAround(MoveLast(e, k), k, k)
    ensures k == |e| ==> Ordered(MoveLast(e, k))
  {
    var s := MoveLast(e, k);
    forall i | 2 <= i <= |s| && i != k && i / 2 != k
      ensures Fits(s, i)
    {
      assert Fits(e, i);
    }
    forall i | 2 <= i <= |s| && i / 2 == k >= 2
      ensures Spans(s, k, i)
    {
      assert Fits(e, i) && Fits(e, k);
    }
  }

  /** Once an entry fits below its parent, trouble is left at most below `k0`. */
  lemma Settled(e: seq<Timespec>, k: int, k0: int)
    requires 1 <= k <= |e| && 1 <= k0 && OrderedAround(e, k, k0) && (k > 1 ==> Fits(e, k))
    ensures OrderedAbove(e, k0)
  {
    if k != k0 {
      forall i | 2 <= i <= |e| && i / 2 == k0 >= 2
        ensures Spans(e, k0, i)
      {
        assert Fits(e, i);
        assert k0 <= |e| ==> Fits(e, k0);
      }
    }
  }

  // ---------- Handlers ----------

  /** A call a handler may make. */
  datatype Op = Reg(t: Timer, at: Timespec) | Unreg(t: Timer)

  /** The list of expired timers after these calls: unregistering strikes a timer off. */
  function Strike(s: seq<Timer>, ops: seq<Op>): seq<Timer>
    decreases |ops|
  {
    if ops == [] then s
    else Strike(if ops[0].Unreg? then Without(s, ops[0].t) else s, ops[1..])
  }

  /** What the k-th handler of a pass does. */
  function Ops(script: seq<seq<Op>>, k: nat): seq<Op> { if k < |script| then script[k] else [] }

  /**
   The order in which handlers run: the next timer on the list, unless the handler
   of one that ran before it has struck it off.
   */
  function FireOrder(s: seq<Timer>, script: seq<seq<Op>>, k: nat): (r: seq<Timer>)
    ensures s == [] ==> r == []
    decreases |s|
  {
    if s == [] then []
    else
      StrikeShorter(s[1..], Ops(script, k));
      [s[0]] + FireOrder(Strike(s[1..], Ops(script, k)), script, k + 1)
  }

  lemma FireStep(fired: seq<Timer>, s: seq<Timer>, script: seq<seq<Op>>)
    requires s != []
    ensures fired + FireOrder(s, script, |fired|)
         == (fired + [s[0]]) + FireOrder(Strike(s[1..], Ops(script, |fired|)), script, |fired| + 1)
  {
  }

  lemma PassStep(times: Times, s: seq<Timer>, script: seq<seq<Op>>, k: nat)
    requires s != []
    ensures AfterPass(times, s, script, k)
         == AfterPass(AfterOps(times, s[1..], Ops(script, k)), Strike(s[1..], Ops(script, k)), script, k + 1)
  {
  }

  lemma {:induction false} StrikeShorter(s: seq<Timer>, ops: seq<Op>)
    ensures |Strike(s, ops)| <= |s|
    decreases |ops|
  {
    if ops != [] {
      StrikeShorter(if ops[0].Unreg? then Without(s, ops[0].t) else s, ops[1..]);
    }
  }

  /** When each timer expires. */
  type Times = map<Timer, Timespec>

  predicate NoLater(a: Timer, b: Timer, times: Times) { a in times && b in times && Le(times[a], times[b]) }

  /** `s` is sorted by expiry time. */
  ghost predicate InOrder(s: seq<Timer>, times: Times) {
    forall i, j :: 0 <= i < j < |s| ==> NoLater(s[i], s[j], times)
  }

  /** Striking timers off a list leaves the others in order. */
  lemma {:induction false} StrikeFacts(s: seq<Timer>, ops: seq<Op>, times: Times)
    requires Distinct(s) && InOrder(s, times)
    ensures Distinct(Strike(s, ops)) && InOrder(Strike(s, ops), times)
    ensures forall t :: t in Strike(s, ops) ==> t in s && Unreg(t) !in ops
    ensures forall t :: t in s && Unreg(t) !in ops ==> t in Strike(s, ops)
    decreases |ops|
  {
    if ops != [] {
      var s' := if ops[0].Unreg? then Without(s, ops[0].t) else s;
      WithoutFacts(s, ops[0].t);
      WithoutInOrder(s, ops[0].t, times);
      StrikeFacts(s', ops[1..], times);
      assert ops == [ops[0]] + ops[1..];
    }
  }

  lemma {:induction false} WithoutInOrder(s: seq<Timer>, t: Timer, times: Times)
    requires InOrder(s, times)
    ensures InOrder(Without(s, t), times)
  {
    hide NoLater;
    if s != [] {
      var s', w := s[1..], Without(s[1..], t);
      assert InOrder(s', times) by {
        assert forall i :: 0 <= i < |s'| ==> s'[i] == s[i + 1];
      }
      WithoutInOrder(s', t, times);
      WithoutFacts(s', t);
      forall j | 0 <= j < |w|
        ensures NoLater(s[0], w[j], times)
      {
        assert w[j] in s';
        var i :| 0 <= i < |s'| && s'[i] == w[j];
        assert s[i + 1] == w[j];
      }
    }
  }

  /** The k-th handler of a pass unregisters `t`. */
  predicate Strikes(script: seq<seq<Op>>, k: nat, t: Timer) { Unreg(t) in Ops(script, k) }

  lemma TailInOrder(s: seq<Timer>, times: Times)
    requires s != [] && Distinct(s) && InOrder(s, times)
    ensures Distinct(s[1..]) && InOrder(s[1..], times) && s[0] !in s[1..]
    ensures forall t :: t in s[1..] ==> NoLater(s[0], t, times)
  {
    TailDistinct(s);
    hide Distinct, NoLater;
    var s' := s[1..];
    assert forall i :: 0 <= i < |s'| ==> s'[i] == s[i + 1];
    forall t | t in s'
      ensures NoLater(s[0], t, times)
    {
      var i :| 0 <= i < |s'| && s'[i] == t;
      assert s[i + 1] == t;
    }
  }

  lemma PrependInOrder(x: Timer, g: seq<Timer>, times: Times)
    requires Distinct(g) && InOrder(g, times) && x !in g
    requires forall t :: t in g ==> NoLater(x, t, times)
    ensures Distinct([x] + g) && InOrder([x] + g, times)
  {
    PrependDistinct(x, g);
    hide Distinct, NoLater;
    var f := [x] + g;
    forall i, j | 0 <= i < j < |f|
      ensures NoLater(f[i], f[j], times)
    {
      assert f[j] == g[j - 1] && g[j - 1] in g;
      if i == 0 {
        assert f[i] == x;
      } else {
        assert f[i] == g[i - 1];
        assert NoLater(g[i - 1], g[j - 1], times);
      }
    }
  }

  /** Each handler runs at most once, and handlers run in the order of the list. */
  lemma {:induction false} FireOrderInOrder(s: seq<Timer>, script: seq<seq<Op>>, k: nat, times: Times)
    requires Distinct(s) && InOrder(s, times)
    ensures var f := FireOrder(s, script, k);
      Distinct(f) && InOrder(f, times) && forall t :: t in f ==> t in s
    decreases |s|
  {
    if s != [] {
      var rest := Strike(s[1..], Ops(script, k));
      TailInOrder(s, times);
      StrikeFacts(s[1..], Ops(script, k), times);
      StrikeShorter(s[1..], Ops(script, k));
      FireOrderInOrder(rest, script, k + 1, times);
      PrependInOrder(s[0], FireOrder(rest, script, k + 1), times);
    }
  }

  /**
   A handler runs for a listed timer if and only if no handler that runs before it
   unregisters that timer.
   */
  lemma {:induction false} FireOrderExact(s: seq<Timer>, script: seq<seq<Op>>, k: nat, times: Times)
    requires Distinct(s) && InOrder(s, times)
    ensures var f := FireOrder(s, script, k);
      && (forall j, m: nat :: 0 <= j < |f| && k <= m < k + j ==> !Strikes(script, m, f[j]))
      && (forall t :: t in s && t !in f ==> exists m: nat :: k <= m < k + |f| && Strikes(script, m, t))
    decreases |s|
  {
    if s != [] {
      var rest := Strike(s[1..], Ops(script, k));
      TailInOrder(s, times);
      StrikeFacts(s[1..], Ops(script, k), times);
      StrikeShorter(s[1..], Ops(script, k));
      FireOrderExact(rest, script, k + 1, times);
      FireOrderInOrder(rest, script, k + 1, times);
      FireOrderHead(s, script, k, rest, FireOrder(rest, script, k + 1));
    }
  }

  lemma FireOrderHead(s: seq<Timer>, script: seq<seq<Op>>, k: nat, rest: seq<Timer>, g: seq<Timer>)
    requires s != []
    requires forall t :: t in rest ==> !Strikes(script, k, t)
    requires forall t :: t in s[1..] && t !in rest ==> Strikes(script, k, t)
    requires forall t :: t in g ==> t in rest
    requires forall j, m: nat :: 0 <= j < |g| && k + 1 <= m < k + 1 + j ==> !Strikes(script, m, g[j])
    requires forall t :: t in rest && t !in g ==> exists m: nat :: k + 1 <= m < k + 1 + |g| && Strikes(script, m, t)
    ensures var f := [s[0]] + g;
      && (forall j, m: nat :: 0 <= j < |f| && k <= m < k + j ==> !Strikes(script, m, f[j]))
      && (forall t :: t in s && t !in f ==> exists m: nat :: k <= m < k + |f| && Strikes(script, m, t))
  {
    hide Strikes;
    var f := [s[0]] + g;
    forall j, m: nat | 0 <= j < |f| && k <= m < k + j
      ensures !Strikes(script, m, f[j])
    {
      assert f[j] == g[j - 1] && g[j - 1] in rest;
    }
    forall t | t in s && t !in f
      ensures exists m: nat :: k <= m < k + |f| && Strikes(script, m, t)
    {
      assert s == [s[0]] + s[1..];
      assert t in s[1..] && t !in g;
    }
  }

  // ---------- Which timers are registered ----------

  /** The registered timers after one call, given the list of expired timers at that time. */
  function AfterOp(times: Times, listed: seq<Timer>, op: Op): Times {
    match op
    case Reg(t, at) => if t in times || t in listed then times else times[t := at]
    case Unreg(t) => times - {op.t}
  }

  /** The registered timers after the calls of one handler. */
  function AfterOps(times: Times, listed: seq<Timer>, ops: seq<Op>): Times
    decreases |ops|
  {
    if ops == [] then times
    else AfterOps(AfterOp(times, listed, ops[0]), if ops[0].Unreg? then Without(listed, ops[0].t) else listed, ops[1..])
  }

  /** The registered timers after the handlers of the listed timers have run. */
  function AfterPass(times: Times, listed: seq<Timer>, script: seq<seq<Op>>, k: nat): (r: Times)
    ensures listed == [] ==> r == times
    decreases |listed|
  {
    if listed == [] then times
    else
      StrikeShorter(listed[1..], Ops(script, k));
      AfterPass(AfterOps(times, listed[1..], Ops(script, k)), Strike(listed[1..], Ops(script, k)), script, k + 1)
  }

  predicate Mentioned(t: Timer, ops: seq<Op>) { exists op :: op in ops && op.t == t }

  lemma {:induction false} AfterOpsKeeps(times: Times, listed: seq<Timer>, ops: seq<Op>, t: Timer)
    requires !Mentioned(t, ops)
    ensures t in AfterOps(times, listed, ops) <==> t in times
    ensures t in times ==> AfterOps(times, listed, ops)[t] == times[t]
    decreases |ops|
  {
    if ops != [] {
      var rest := ops[1..];
      assert ops[0] in ops && forall op :: op in rest ==> op in ops;
      AfterOpsKeeps(AfterOp(times, listed, ops[0]), if ops[0].Unreg? then Without(listed, ops[0].t) else listed, rest, t);
    }
  }

  predicate Registers(t: Timer, ops: seq<Op>) { exists op :: op in ops && op.Reg? && op.t == t }

  /** An unregistered timer stays so until it is registered; a registered one keeps its time until it is unregistered. */
  lemma {:induction false} StaysAsItIs(times: Times, listed: seq<Timer>, ops: seq<Op>, t: Timer)
    ensures t !in times && !Registers(t, ops) ==> t !in AfterOps(times, listed, ops)
    ensures t in times && Unreg(t) !in ops ==> t in AfterOps(times, listed, ops) && AfterOps(times, listed, ops)[t] == times[t]
    decreases |ops|
  {
    if ops != [] {
      var rest := ops[1..];
      assert ops[0] in ops && forall op :: op in rest ==> op in ops;
      StaysAsItIs(AfterOp(times, listed, ops[0]), if ops[0].Unreg? then Without(listed, ops[0].t) else listed, rest, t);
    }
  }

  /** After its unregistration, and as long as it is not registered again, a timer is neither registered nor listed. */
  lemma LastUnregistered(times: Times, listed: seq<Timer>, ops: seq<Op>, i: nat, t: Timer)
    requires i < |ops| && ops[i] == Unreg(t) && !Registers(t, ops[i + 1..])
    ensures t !in AfterOps(times, listed, ops) && t !in Strike(listed, ops)
  {
    AfterOpsSplit(times, listed, ops, i);
    var ts, l, rest := AfterOps(times, listed, ops[..i]), Strike(listed, ops[..i]), ops[i..];
    assert rest[0] == ops[i] && rest[1..] == ops[i + 1..];
    StaysAsItIs(ts - {t}, Without(l, t), ops[i + 1..], t);
    StrikeSubset(Without(l, t), ops[i + 1..]);
  }

  /** None of the handlers that run in a pass registers `t`, or unregisters it. */
  ghost predicate NoneRegisters(t: Timer, s: seq<Timer>, script: seq<seq<Op>>, k: nat)
  {
    forall m: nat :: k <= m < k + |FireOrder(s, script, k)| ==> !Registers(t, Ops(script, m))
  }

  ghost predicate NoneUnregisters(t: Timer, s: seq<Timer>, script: seq<seq<Op>>, k: nat)
  {
    forall m: nat :: k <= m < k + |FireOrder(s, script, k)| ==> Unreg(t) !in Ops(script, m)
  }

  /** The same over a pass. */
  lemma {:induction false} PassLeavesAsItIs(times: Times, listed: seq<Timer>, script: seq<seq<Op>>, k: nat, t: Timer)
    ensures t !in times && NoneRegisters(t, listed, script, k) ==> t !in AfterPass(times, listed, script, k)
    ensures t in times && NoneUnregisters(t, listed, script, k) ==>
              t in AfterPass(times, listed, script, k) && AfterPass(times, listed, script, k)[t] == times[t]
    decreases |listed|
  {
    if listed != [] {
      var ops := Ops(script, k);
      var rest := Strike(listed[1..], ops);
      StrikeShorter(listed[1..], ops);
      assert |FireOrder(listed, script, k)| == 1 + |FireOrder(rest, script, k + 1)|;
      StaysAsItIs(times, listed[1..], ops, t);
      PassLeavesAsItIs(AfterOps(times, listed[1..], ops), rest, script, k + 1, t);
    }
  }

  /** A pass changes nothing about a timer that no handler of it mentions, but that it is taken off the list. */
  lemma AfterPassKeeps(times: Times, listed: seq<Timer>, script: seq<seq<Op>>, k: nat, t: Timer)
    requires forall m: nat :: k <= m < k + |FireOrder(listed, script, k)| ==> !Mentioned(t, Ops(script, m))
    ensures t in AfterPass(times, listed, script, k) <==> t in times
    ensures t in times ==> AfterPass(times, listed, script, k)[t] == times[t]
  {
    assert NoneRegisters(t, listed, script, k) && NoneUnregisters(t, listed, script, k);
    PassLeavesAsItIs(times, listed, script, k, t);
  }

  lemma {:induction false} AfterOpsSplit(times: Times, listed: seq<Timer>, ops: seq<Op>, i: nat)
    requires i <= |ops|
    ensures AfterOps(times, listed, ops)
         == AfterOps(AfterOps(times, listed, ops[..i]), Strike(listed, ops[..i]), ops[i..])
    ensures Strike(listed, ops) == Strike(Strike(listed, ops[..i]), ops[i..])
    decreases |ops|
  {
    if i == 0 {
      assert ops[..0] == [] && ops[0..] == ops;
    } else {
      var op := ops[0];
      var times', listed' := AfterOp(times, listed, op), if op.Unreg? then Without(listed, op.t) else listed;
      AfterOpsSplit(times', listed', ops[1..], i - 1);
      assert ops[..i][0] == op && ops[..i][1..] == ops[1..][..i - 1] && ops[1..][i - 1..] == ops[i..];
    }
  }

  lemma {:induction false} StrikeSubset(s: seq<Timer>, ops: seq<Op>)
    ensures forall t :: t in Strike(s, ops) ==> t in s
    decreases |ops|
  {
    if ops != [] {
      StrikeSubset(if ops[0].Unreg? then Without(s, ops[0].t) else s, ops[1..]);
    }
  }

  lemma {:induction false} FireOrderSubset(s: seq<Timer>, script: seq<seq<Op>>, k: nat)
    ensures forall t :: t in FireOrder(s, script, k) ==> t in s
    decreases |s|
  {
    if s != [] {
      StrikeShorter(s[1..], Ops(script, k));
      StrikeSubset(s[1..], Ops(script, k));
      FireOrderSubset(Strike(s[1..], Ops(script, k)), script, k + 1);
    }
  }

  /** The list of expired timers, and the registered ones, when the m-th handler from here is called. */
  function ListAt(s: seq<Timer>, script: seq<seq<Op>>, k: nat, m: nat): seq<Timer>
    decreases m
  {
    if m == 0 || s == [] then s else ListAt(Strike(s[1..], Ops(script, k)), script, k + 1, m - 1)
  }

  function TimesAt(times: Times, s: seq<Timer>, script: seq<seq<Op>>, k: nat, m: nat): Times
    decreases m
  {
    if m == 0 || s == [] then times
    else TimesAt(AfterOps(times, s[1..], Ops(script, k)), Strike(s[1..], Ops(script, k)), script, k + 1, m - 1)
  }

  /** The i-th call of the m-th handler registers `t`, then neither registered nor listed, and the handler leaves it so. */
  predicate RegistersFor(times: Times, s: seq<Timer>, script: seq<seq<Op>>, k: nat, m: nat, i: nat, t: Timer, at: Timespec)
  {
    var l, ts, ops := ListAt(s, script, k, m), TimesAt(times, s, script, k, m), Ops(script, k + m);
    && l != [] && i < |ops| && ops[i] == Reg(t, at)
    && t !in AfterOps(ts, l[1..], ops[..i]) && t !in Strike(l[1..], ops[..i])
    && Unreg(t) !in ops[i + 1..]
  }

  lemma RegistersNow(times: Times, s: seq<Timer>, script: seq<seq<Op>>, k: nat, i: nat, t: Timer, at: Timespec)
    requires RegistersFor(times, s, script, k, 0, i, t, at)
    ensures var ops := Ops(script, k);
      && t in AfterOps(times, s[1..], ops) && AfterOps(times, s[1..], ops)[t] == at
      && t !in Strike(s[1..], ops)
  {
    var ops := Ops(script, k);
    var ts, l, rest := AfterOps(times, s[1..], ops[..i]), Strike(s[1..], ops[..i]), ops[i..];
    AfterOpsSplit(times, s[1..], ops, i);
    assert rest[0] == ops[i] && rest[1..] == ops[i + 1..];
    StaysAsItIs(ts[t := at], l, rest[1..], t);
    StrikeSubset(l, rest);
  }

  /** No handler that runs after the m-th one unregisters `t`, or registers it. */
  ghost predicate NotUnregisteredAfter(t: Timer, s: seq<Timer>, script: seq<seq<Op>>, k: nat, m: nat)
  {
    forall n: nat :: k + m < n < k + |FireOrder(s, script, k)| ==> Unreg(t) !in Ops(script, n)
  }

  ghost predicate NotRegisteredAfter(t: Timer, s: seq<Timer>, script: seq<seq<Op>>, k: nat, m: nat)
  {
    forall n: nat :: k + m < n < k + |FireOrder(s, script, k)| ==> !Registers(t, Ops(script, n))
  }

  /**
   A timer that a handler registers during a pass, and that no later one unregisters, is registered for
   that time after it, and does not fire any more in it: a periodic timer fires once a pass.
   */
  lemma {:induction false} RegisteredWaits(times: Times, s: seq<Timer>, script: seq<seq<Op>>, k: nat, m: nat, i: nat,
                                           t: Timer, at: Timespec)
    requires RegistersFor(times, s, script, k, m, i, t, at) && NotUnregisteredAfter(t, s, script, k, m)
    ensures t in AfterPass(times, s, script, k) && AfterPass(times, s, script, k)[t] == at
    ensures m < |FireOrder(s, script, k)| && t !in FireOrder(s, script, k)[m + 1..]
    decreases m
  {
    var ops := Ops(script, k);
    var rest := Strike(s[1..], ops);
    StrikeShorter(s[1..], ops);
    var g := FireOrder(rest, script, k + 1);
    assert FireOrder(s, script, k) == [s[0]] + g;
    if m == 0 {
      RegistersNow(times, s, script, k, i, t, at);
      assert NoneUnregisters(t, rest, script, k + 1);
      PassLeavesAsItIs(AfterOps(times, s[1..], ops), rest, script, k + 1, t);
      FireOrderSubset(rest, script, k + 1);
      assert ([s[0]] + g)[1..] == g;
    } else {
      assert NotUnregisteredAfter(t, rest, script, k + 1, m - 1);
      RegisteredWaits(AfterOps(times, s[1..], ops), rest, script, k + 1, m - 1, i, t, at);
      assert ([s[0]] + g)[m + 1..] == g[m..];
    }
  }

  /**
   A timer that a handler unregisters during a pass, and that is not registered later, is not
   registered after it, and does not fire any more in it.
   */
  lemma {:induction false} UnregisteredStays(times: Times, s: seq<Timer>, script: seq<seq<Op>>, k: nat, m: nat, i: nat, t: Timer)
    requires m < |FireOrder(s, script, k)| && i < |Ops(script, k + m)| && Ops(script, k + m)[i] == Unreg(t)
    requires !Registers(t, Ops(script, k + m)[i + 1..]) && NotRegisteredAfter(t, s, script, k, m)
    ensures t !in AfterPass(times, s, script, k) && t !in FireOrder(s, script, k)[m + 1..]
    decreases m
  {
    var ops := Ops(script, k);
    var rest := Strike(s[1..], ops);
    StrikeShorter(s[1..], ops);
    var g := FireOrder(rest, script, k + 1);
    assert FireOrder(s, script, k) == [s[0]] + g;
    assert AfterPass(times, s, script, k) == AfterPass(AfterOps(times, s[1..], ops), rest, script, k + 1);
    hide FireOrder, AfterPass, Strike, AfterOps, Registers;
    if m == 0 {
      LastUnregistered(times, s[1..], ops, i, t);
      assert NoneRegisters(t, rest, script, k + 1);
      PassLeavesAsItIs(AfterOps(times, s[1..], ops), rest, script, k + 1, t);
      FireOrderSubset(rest, script, k + 1);
      assert ([s[0]] + g)[1..] == g;
    } else {
      assert NotRegisteredAfter(t, rest, script, k + 1, m - 1);
      UnregisteredStays(AfterOps(times, s[1..], ops), rest, script, k + 1, m - 1, i, t);
      assert ([s[0]] + g)[m + 1..] == g[m..];
    }
  }

  /** When the handler of a timer is called, the timer is neither registered nor listed, so that it can be registered again. */
  lemma {:induction false} FreeWhenCalled(times: Times, s: seq<Timer>, script: seq<seq<Op>>, k: nat, m: nat)
    requires Distinct(s) && (forall x :: x in s ==> x !in times) && m < |FireOrder(s, script, k)|
    ensures var t, l := FireOrder(s, script, k)[m], ListAt(s, script, k, m);
      l != [] && l[0] == t && t !in l[1..] && t !in TimesAt(times, s, script, k, m)
    decreases m
  {
    var ops := Ops(script, k);
    var rest := Strike(s[1..], ops);
    StrikeShorter(s[1..], ops);
    TailDistinct(s);
    if m > 0 {
      StrikeSubset(s[1..], ops);
      forall x | x in rest
        ensures x !in AfterOps(times, s[1..], ops)
      {
        ListedStaysOut(times, s[1..], ops, x);
      }
      StrikeDistinct(s[1..], ops);
      FreeWhenCalled(AfterOps(times, s[1..], ops), rest, script, k + 1, m - 1);
    }
  }

  lemma {:induction false} StrikeDistinct(s: seq<Timer>, ops: seq<Op>)
    requires Distinct(s)
    ensures Distinct(Strike(s, ops))
    decreases |ops|
  {
    if ops != [] {
      WithoutDistinct(s, ops[0].t);
      StrikeDistinct(if ops[0].Unreg? then Without(s, ops[0].t) else s, ops[1..]);
    }
  }

  /** While a timer is listed it is not registered, whatever is tried. */
  lemma {:induction false} ListedStaysOut(times: Times, listed: seq<Timer>, ops: seq<Op>, t: Timer)
    requires t !in times && t in Strike(listed, ops)
    ensures t !in AfterOps(times, listed, ops)
    decreases |ops|
  {
    StrikeSubset(listed, ops);
    if ops != [] {
      ListedStaysOut(AfterOp(times, listed, ops[0]), if ops[0].Unreg? then Without(listed, ops[0].t) else listed, ops[1..], t);
    }
  }

  /** The timers that are not due. */
  function NotDue(times: Times, now: Timespec): Times {
    map t | t in times && Gt(times[t], now) :: times[t]
  }

  /**
   After a pass, a timer that was not due is registered as before unless a handler unregisters it, and
   one that was due is not registered unless a handler registers it.
   */
  lemma WhoWaits(times: Times, now: Timespec, order: seq<Timer>, script: seq<seq<Op>>, t: Timer)
    requires t in times
    ensures var after := AfterPass(NotDue(times, now), order, script, 0);
      && (Gt(times[t], now) && NoneUnregisters(t, order, script, 0) ==> t in after && after[t] == times[t])
      && (Le(times[t], now) && NoneRegisters(t, order, script, 0) ==> t !in after)
  {
    PassLeavesAsItIs(NotDue(times, now), order, script, 0, t);
  }

  /** `s` lists the timers that are due, each once, soonest first. */
  ghost predicate IsDueOrder(s: seq<Timer>, times: Times, now: Timespec) {
    && Distinct(s)
    && (forall t :: t in s ==> t in times && Le(times[t], now))
    && (forall t :: t in times && Le(times[t], now) ==> t in s)
    && InOrder(s, times)
  }

  /** The timers have been divided into `rest` and the list `s`, which is in order and before everything in `rest`. */
  ghost predicate Collecting(s: seq<Timer>, rest: set<Timer>, times: Times, now: Timespec) {
    && Distinct(s) && rest <= times.Keys
    && (forall t :: t in s ==> t in times && t !in rest && Le(times[t], now))
    && (forall t :: t in times ==> t in rest || t in s)
    && InOrder(s, times)
    && (forall i, t :: 0 <= i < |s| && t in rest ==> NoLater(s[i], t, times))
  }

  lemma CollectOne(s: seq<Timer>, rest: set<Timer>, times: Times, now: Timespec, t: Timer)
    requires Collecting(s, rest, times, now) && t in rest && Le(times[t], now)
    requires forall x :: x in rest ==> Le(times[t], times[x])
    ensures Collecting(s + [t], rest - {t}, times, now)
  {
  }

  lemma CollectDone(s: seq<Timer>, rest: set<Timer>, times: Times, now: Timespec)
    requires Collecting(s, rest, times, now) && forall t :: t in rest ==> Gt(times[t], now)
    ensures IsDueOrder(s, times, now) && forall t :: t in times ==> t in rest || t in s
  {
  }

  // ---------- The queue ----------

  datatype Option<T> = None | Some(value: T)

  lemma WithoutFacts(s: seq<Timer>, t: Timer)
    ensures forall x :: x in Without(s, t) ==> x in s && x != t
    ensures forall x :: x in s && x != t ==> x in Without(s, t)
    ensures t !in s ==> Without(s, t) == s
    ensures Distinct(s) ==> Distinct(Without(s, t))
  {
    if Distinct(s) {
      WithoutDistinct(s, t);
    }
  }

  /** `h` lists the timers in `ts`, each of which records its own place and when it is due. */
  ghost predicate TaggedAs(h: seq<Timer>, d: seq<Timespec>, ts: set<Timer>)
    reads ts
  {
    && |d| == |h|
    && (forall i :: 0 <= i < |h| ==> h[i] in ts && h[i].index == i + 1 && h[i].expires == d[i])
    && (forall t :: t in ts ==> 1 <= t.index <= |h| && h[t.index - 1] == t)
  }

  lemma TaggedMeans(h: seq<Timer>, d: seq<Timespec>, ts: set<Timer>)
    requires TaggedAs(h, d, ts)
    ensures |d| == |h| && Distinct(h) && (forall t :: t in ts ==> t in h)
    ensures forall i :: 0 <= i < |h| ==> h[i] in ts && h[i].index == i + 1 && h[i].expires == d[i]
  {
    forall i, j | 0 <= i < j < |h|
      ensures h[i] != h[j]
    {
      assert h[i].index == i + 1 && h[j].index == j + 1;
    }
  }

  lemma TaggedFrom(h: seq<Timer>, d: seq<Timespec>, ts: set<Timer>)
    requires |d| == |h| && (forall i :: 0 <= i < |h| ==> h[i] in ts && h[i].index == i + 1 && h[i].expires == d[i])
    requires forall t :: t in ts ==> t in h
    ensures TaggedAs(h, d, ts)
  {
  }

  lemma MoveLastElements(h: seq<Timer>, k: int, ts: set<Timer>)
    requires 1 <= k <= |h| && Distinct(h) && (forall x :: x in h ==> x in ts) && (forall x :: x in ts ==> x in h)
    ensures var r := MoveLast(h, k);
      && (forall i :: 0 <= i < |r| ==> r[i] in ts - {h[k - 1]} && (i != k - 1 ==> r[i] != h[|h| - 1]))
      && forall x :: x in ts - {h[k - 1]} ==> x in r
  {
    var r := MoveLast(h, k);
    hide MoveLast;
    forall i | 0 <= i < |r|
      ensures r[i] in ts - {h[k - 1]} && (i != k - 1 ==> r[i] != h[|h| - 1])
    {
      assert r[i] in h;
    }
    forall x | x in ts - {h[k - 1]}
      ensures x in r
    {
      var i :| 0 <= i < |h| && h[i] == x;
      assert i < |h| - 1 ==> r[i] == x;
      assert i == |h| - 1 ==> r[k - 1] == x;
    }
  }

  class TimerQueue {
    const tree: RadixTree
    var numTimers: nat
    /** What timers contribute to the number of objects that keeps the main loop going. */
    var numobjs: int
    /** The timer at heap index `i` is `heap[i - 1]`, and it is due at `due[i - 1]`. */
    ghost var heap: seq<Timer>
    ghost var due: seq<Timespec>
    ghost var timers: set<Timer>
    /** The list of timers whose handlers the current pass has yet to call. */
    var expired: seq<Timer>

    /** The tree holds exactly `h`: every slot beyond the last timer is empty. */
    ghost predicate Holds(h: seq<Timer>)
      reads tree, tree.at.Keys
    {
      && tree.Valid() && tree.depth <= 3 && |h| < tree.Capacity()
      && (forall i :: 1 <= i <= |h| ==> tree.Read(i) == Slot(h[i - 1]))
      && (forall i :: |h| < i < tree.Capacity() ==> tree.Read(i) == Null)
    }

    ghost predicate Stored()
      reads this`heap, this`numTimers, tree, tree.at.Keys
    {
      Holds(heap) && numTimers == |heap|
    }

    /** Every timer knows its own index. */
    ghost predicate Tagged()
      reads this`heap, this`due, this`timers, timers
    {
      TaggedAs(heap, due, timers)
    }

    /** `iv_timer_get_node`, for an index in use: nothing changes. */
    method GetNode(index: nat) returns (leaf: Node, off: nat)
      requires Stored() && 1 <= index <= numTimers < MAX_INDEX
      modifies tree, tree.at.Keys
      ensures Stored() && tree.lv == old(tree.lv) && tree.at == old(tree.at) && tree.depth == old(tree.depth)
      ensures IsSlot(leaf, off, index)
    {
      leaf, off := tree.GetNode(index);
    }

    constructor ()
      ensures Valid() && timers == {} && expired == [] && fresh(tree) && fresh(tree.at.Keys)
    {
      tree := new RadixTree();
      numTimers, numobjs := 0, 0;
      heap, due, timers, expired := [], [], {}, [];
    }

    /** The slot of a heap index, as `GetNode` returns it. */
    ghost predicate IsSlot(leaf: Node, off: nat, i: nat)
      requires Stored()
      reads this`heap, this`numTimers, tree, tree.at.Keys
    {
      1 <= i <= numTimers && leaf in tree.at && leaf == tree.lv[0][i / SPLIT_NODES] && off == i % SPLIT_NODES
    }

    /** Record a new index in each of two timers that have changed places. */
    method Retag(a: Timer, i: nat, b: Timer, j: nat, ghost h: seq<Timer>, ghost d: seq<Timespec>)
      requires TaggedAs(h, d, timers) && 1 <= i <= |h| && 1 <= j <= |h| && i != j
      requires heap == Swap(h, i, j) && due == Swap(d, i, j) && a == heap[i - 1] && b == heap[j - 1]
      modifies {a, b}`index
      ensures Tagged()
    {
      a.index := i;
      b.index := j;
    }

    /** Exchange the timers of two slots. */
    method SwapSlots(i: nat, leafI: Node, offI: nat, j: nat, leafJ: Node, offJ: nat) returns (a: Timer, b: Timer)
      requires Stored() && i != j && IsSlot(leafI, offI, i) && IsSlot(leafJ, offJ, j)
      modifies this`heap, tree.at.Keys
      ensures Stored() && heap == old(Swap(heap, i, j)) && a == heap[i - 1] && b == heap[j - 1]
    {
      hide RadixTree.Valid, RadixTree.Read;
      tree.Swap(leafI, offI, leafJ, offJ, i, j);
      heap := Swap(heap, i, j);
      a, b := leafI[offI].timer, leafJ[offJ].timer;
    }

    lemma KnownSlot(i: nat)
      requires Stored() && Tagged() && 1 <= i <= numTimers
      ensures |due| == |heap| == numTimers && heap[i - 1] in timers
    {
      hide RadixTree.Valid, RadixTree.Read;
    }

    /** Exchange the timers of two slots, and their recorded indices. */
    method Exchange(i: nat, leafI: Node, offI: nat, j: nat, leafJ: Node, offJ: nat)
      requires Stored() && Tagged() && i != j && IsSlot(leafI, offI, i) && IsSlot(leafJ, offJ, j)
      modifies this`heap, this`due, tree.at.Keys, timers`index
      ensures Stored() && Tagged()
      ensures heap == old(Swap(heap, i, j)) && due == old(Swap(due, i, j))
    {
      hide RadixTree.Valid, RadixTree.Read, Stored, TaggedAs;
      ghost var h, d := heap, due;
      KnownSlot(i);
      KnownSlot(j);
      var a, b := SwapSlots(i, leafI, offI, j, leafJ, offJ);
      due := Swap(due, i, j);
      Retag(a, i, b, j, h, d);
    }

    function SlotOf(leaf: Node, off: nat, ghost i: nat): (t: Timer)
      requires Stored() && IsSlot(leaf, off, i)
      reads this`heap, this`numTimers, tree, tree.at.Keys
      ensures t == heap[i - 1]
    {
      assert tree.Read(i) == Slot(heap[i - 1]);
      leaf[off].timer
    }

    function ExpiresAt(leaf: Node, off: nat, ghost i: nat): (ts: Timespec)
      requires Stored() && Tagged() && IsSlot(leaf, off, i)
      reads this, tree, tree.at.Keys, timers
      ensures ts == due[i - 1]
    {
      SlotOf(leaf, off, i).expires
    }

    method PullUp(start: nat, leaf0: Node, off0: nat)
      requires Stored() && Tagged() && IsSlot(leaf0, off0, start)
      requires start <= numTimers == |due| < MAX_INDEX && OrderedAround(due, start, start)
      modifies this`heap, this`due, tree, tree.at.Keys, timers`index
      ensures Stored() && Tagged()
      ensures tree.lv == old(tree.lv) && tree.at == old(tree.at) && tree.depth == old(tree.depth)
      ensures OrderedAbove(due, start) && |due| == numTimers
    {
      hide Stored, Tagged, OrderedAround, OrderedAbove;
      var index, leaf, off := start, leaf0, off0;
      while index != 1
        invariant Stored() && Tagged()
        invariant tree.lv == old(tree.lv) && tree.at == old(tree.at) && tree.depth == old(tree.depth)
        invariant 1 <= index <= start && IsSlot(leaf, off, index) && |due| == numTimers
        invariant OrderedAround(due, index, start)
      {
        var parent := index / 2;
        var pleaf, poff := GetNode(parent);
        if !Gt(ExpiresAt(pleaf, poff, parent), ExpiresAt(leaf, off, index)) {
          break;
        }
        SwapUp(due, index, start);
        Exchange(index, leaf, off, parent, pleaf, poff);
        index, leaf, off := parent, pleaf, poff;
      }
      Settled(due, index, start);
    }

    /** The slot after that of an even index is in the same leaf: `p[1]` is the next heap entry, or null. */
    lemma NextSlot(leaf: Node, off: nat, i: nat)
      requires Stored() && Tagged() && IsSlot(leaf, off, i) && i % 2 == 0
      ensures off + 1 < leaf.Length
      ensures leaf[off + 1] == if i + 1 <= numTimers then Slot(heap[i]) else Null
      ensures i + 1 <= numTimers ==> IsSlot(leaf, off + 1, i + 1) && heap[i].expires == due[i]
    {
      assert (i + 1) / SPLIT_NODES == i / SPLIT_NODES && (i + 1) % SPLIT_NODES == off + 1;
      assert tree.Read(i + 1) == leaf[off + 1];
    }

    /** The soonest of the timer at `index` and its children. */
    method SoonestOf(index: nat, leaf: Node, off: nat) returns (indexMin: nat, leafMin: Node, offMin: nat)
      requires Stored() && Tagged() && IsSlot(leaf, off, index) && numTimers == |due| < MAX_INDEX
      modifies tree, tree.at.Keys
      ensures Stored() && Tagged() && tree.lv == old(tree.lv) && tree.at == old(tree.at) && tree.depth == old(tree.depth)
      ensures IsSlot(leafMin, offMin, indexMin) && (indexMin == index || indexMin / 2 == index)
      ensures forall i :: 2 <= i <= |due| && i / 2 == index ==> Le(due[indexMin - 1], due[i - 1])
      ensures indexMin != index ==> Gt(due[index - 1], due[indexMin - 1])
    {
      hide RadixTree.Valid, RadixTree.Read, Holds, Stored, Tagged, TaggedAs;
      indexMin, leafMin, offMin := index, leaf, off;
      if 2 * index <= numTimers {
        var p, q := GetNode(2 * index);
        if Gt(ExpiresAt(leafMin, offMin, indexMin), ExpiresAt(p, q, 2 * index)) {
          indexMin, leafMin, offMin := 2 * index, p, q;
        }
        NextSlot(p, q, 2 * index);
        if p[q + 1] != Null && Gt(ExpiresAt(leafMin, offMin, indexMin), p[q + 1].timer.expires) {
          indexMin, leafMin, offMin := 2 * index + 1, p, q + 1;
        }
      }
      TwoChildren(due, index, due[indexMin - 1]);
    }

    lemma TwoChildren(e: seq<Timespec>, index: nat, soonest: Timespec)
      requires index > 0
      requires 2 * index <= |e| ==> Le(soonest, e[2 * index - 1])
      requires 2 * index + 1 <= |e| ==> Le(soonest, e[2 * index])
      ensures forall i :: 2 <= i <= |e| && i / 2 == index ==> Le(soonest, e[i - 1])
    {
    }

    method PushDown(start: nat, leaf0: Node, off0: nat)
      requires Stored() && Tagged() && IsSlot(leaf0, off0, start)
      requires start <= numTimers == |due| < MAX_INDEX && OrderedAbove(due, start)
      modifies this`heap, this`due, tree, tree.at.Keys, timers`index
      ensures Stored() && Tagged()
      ensures tree.lv == old(tree.lv) && tree.at == old(tree.at) && tree.depth == old(tree.depth)
      ensures Ordered(due) && |due| == numTimers
    {
      hide Stored, TaggedAs;
      var index, leaf, off := start, leaf0, off0;
      while true
        invariant Stored() && Tagged()
        invariant tree.lv == old(tree.lv) && tree.at == old(tree.at) && tree.depth == old(tree.depth)
        invariant 1 <= index && IsSlot(leaf, off, index) && |due| == numTimers
        invariant OrderedAbove(due, index)
        decreases numTimers - index
      {
        var indexMin, leafMin, offMin := SoonestOf(index, leaf, off);
        if index == indexMin {
          break;
        }
        SwapDown(due, index, indexMin);
        Exchange(index, leaf, off, indexMin, leafMin, offMin);
        index, leaf, off := indexMin, leafMin, offMin;
      }
    }

    // ---------- Public operations ----------

    ghost predicate Valid()
      reads this, tree, tree.at.Keys, timers, expired
    {
      && Stored() && Tagged() && Ordered(due)
      && numTimers < MAX_INDEX && (tree.depth > 0 ==> Pow128(tree.depth) <= numTimers) && numobjs == numTimers
      && (forall t :: t in expired ==> t.index == 0) && Distinct(expired)
    }

    /** Put `t` in the slot after the last one. */
    method AddLast(t: Timer) returns (leaf: Node, off: nat)
      requires Stored() && numTimers + 1 < MAX_INDEX
      modifies this`numTimers, this`heap, tree, tree.at.Keys
      ensures Stored() && IsSlot(leaf, off, numTimers) && heap == old(heap) + [t]
      ensures tree.depth == old(tree.depth) || Pow128(tree.depth) <= numTimers
      ensures fresh(tree.at.Keys - old(tree.at.Keys))
    {
      hide RadixTree.Valid, RadixTree.Read;
      numTimers := numTimers + 1;
      leaf, off := tree.GetNode(numTimers);
      tree.Put(leaf, off, Slot(t), numTimers);
      heap := heap + [t];
    }

    lemma OrderedBelowLast(e: seq<Timespec>, x: Timespec)
      requires Ordered(e)
      ensures OrderedAround(e + [x], |e| + 1, |e| + 1)
    {
      var s := e + [x];
      forall i | 2 <= i <= |s| && i != |s|
        ensures Fits(s, i)
      {
        assert Fits(e, i);
      }
    }

    /** The new timer at the end of the heap, not yet in heap order. */
    method Enter(t: Timer) returns (leaf: Node, off: nat)
      requires Stored() && Tagged() && Ordered(due) && t !in timers && numTimers + 1 < MAX_INDEX
      modifies this`numTimers, this`heap, this`due, this`timers, tree, tree.at.Keys, t`index
      ensures Stored() && Tagged() && IsSlot(leaf, off, numTimers) && numTimers == old(numTimers) + 1 == |due|
      ensures OrderedAround(due, numTimers, numTimers) && timers == old(timers) + {t}
      ensures tree.depth == old(tree.depth) || Pow128(tree.depth) <= numTimers
      ensures fresh(tree.at.Keys - old(tree.at.Keys))
    {
      hide RadixTree.Valid, RadixTree.Read, Holds, Ordered, OrderedAround;
      OrderedBelowLast(due, t.expires);
      leaf, off := AddLast(t);
      t.index := numTimers;
      due, timers := due + [t.expires], timers + {t};
    }

    /** Put a timer in the heap, in order. */
    method Insert(t: Timer)
      requires Stored() && Tagged() && Ordered(due) && t !in timers && numTimers + 1 < MAX_INDEX
      requires tree.depth > 0 ==> Pow128(tree.depth) <= numTimers
      modifies this`numTimers, this`heap, this`due, this`timers, tree, tree.at.Keys, timers`index, t`index
      ensures Stored() && Tagged() && Ordered(due) && numTimers == old(numTimers) + 1 && timers == old(timers) + {t}
      ensures tree.depth > 0 ==> Pow128(tree.depth) <= numTimers
      ensures fresh(tree.at.Keys - old(tree.at.Keys))
    {
      hide Stored, Holds, TaggedAs, OrderedAround;
      var leaf, off := Enter(t);
      PullUp(numTimers, leaf, off);
    }

    /** Register a timer; it is fatal if the timer is registered already. */
    method Register(t: Timer) returns (fatal: bool)
      requires Valid() && numTimers + 1 < MAX_INDEX
      modifies this, tree, tree.at.Keys, timers`index, t`index
      ensures fatal <==> old(t.index) != -1
      ensures fatal ==> unchanged(this) && unchanged(t)
      ensures Valid() && expired == old(expired)
      ensures !fatal ==> timers == old(timers) + {t} && numTimers == old(numTimers) + 1
      ensures fresh(tree.at.Keys - old(tree.at.Keys))
    {
      hide Stored, Holds, TaggedAs, Ordered, Distinct;
      if t.index != -1 {
        return true;
      }
      IndexTells();
      assert t !in timers && forall x :: x in expired ==> x !in timers;
      numobjs := numobjs + 1;
      Insert(t);
      return false;
    }

    /** Move the last timer to the slot of index `k`, and clear the slot it came from. */
    method TakeLast(k: nat, leaf: Node, off: nat) returns (last: Timer, same: bool)
      requires Stored() && numTimers < MAX_INDEX && IsSlot(leaf, off, k)
      modifies tree, tree.at.Keys
      ensures Holds(MoveLast(heap, k)) && tree.lv == old(tree.lv) && tree.at == old(tree.at) && tree.depth == old(tree.depth)
      ensures last == heap[|heap| - 1] && (same <==> k == numTimers)
    {
      hide RadixTree.Valid, RadixTree.Read, MoveLast;
      tree.SlotsDiffer(k, numTimers);
      var mleaf, moff := GetNode(numTimers);
      last := SlotOf(mleaf, moff, numTimers);
      tree.Put(leaf, off, Slot(last), k);
      tree.Put(mleaf, moff, Null, numTimers);
      same := leaf == mleaf && off == moff;
    }

    /** Drop a level when the last index that needed it is gone, and forget that index. */
    method ForgetLast(ghost h: seq<Timer>)
      requires Holds(h) && |h| + 1 == numTimers && numTimers < tree.Capacity()
      requires tree.depth > 0 ==> Pow128(tree.depth) <= numTimers
      modifies this`numTimers, tree, tree.at.Keys
      ensures Holds(h) && numTimers == |h| && tree.at == old(tree.at)
      ensures tree.depth > 0 ==> Pow128(tree.depth) <= numTimers
      ensures tree.lv[0] <= old(tree.lv[0]) && numTimers < tree.Capacity()
    {
      hide RadixTree.Valid, RadixTree.Read;
      if tree.depth > 0 && numTimers == Pow128(tree.depth) {
        tree.Shrink();
      }
      numTimers := numTimers - 1;
    }

    /** The last timer records its new index. */
    method RetagLast(last: Timer, k: nat, t: Timer)
      requires Tagged() && 1 <= k <= |heap| && t == heap[k - 1] && last == heap[|heap| - 1]
      modifies last`index
      ensures TaggedAs(MoveLast(heap, k), MoveLast(due, k), timers - {t})
    {
      ghost var h, d, ts := MoveLast(heap, k), MoveLast(due, k), timers - {t};
      TaggedMeans(heap, due, timers);
      MoveLastElements(heap, k, timers);
      hide MoveLast, TaggedAs, Distinct;
      last.index := k;
      forall i | 0 <= i < |h|
        ensures h[i].index == i + 1 && h[i].expires == d[i]
      {
        var j := if i == k - 1 then |heap| - 1 else i;
        assert h[i] == heap[j] && d[i] == due[j] && old(heap[j].index) == j + 1;
      }
      TaggedFrom(h, d, ts);
    }

    /** Take the timer at index `k` out of the heap; the last timer takes its place, out of order. */
    method Vacate(t: Timer, k: nat, leaf: Node, off: nat) returns (same: bool)
      requires Stored() && Tagged() && Ordered(due) && numTimers < MAX_INDEX && IsSlot(leaf, off, k) && t == heap[k - 1]
      requires |due| == |heap| && t in timers && heap[|heap| - 1] in timers && numTimers < tree.Capacity()
      requires tree.depth > 0 ==> Pow128(tree.depth) <= numTimers
      modifies this`numTimers, this`heap, this`due, this`timers, tree, tree.at.Keys, timers`index
      ensures Stored() && Tagged() && numTimers == old(numTimers) - 1 == |due| && timers == old(timers) - {t}
      ensures tree.depth > 0 ==> Pow128(tree.depth) <= numTimers
      ensures tree.at == old(tree.at)
      ensures if same then Ordered(due) else OrderedAround(due, k, k) && IsSlot(leaf, off, k)
    {
      hide RadixTree.Valid, RadixTree.Read, Holds, TaggedAs, MoveLast, Ordered, OrderedAround;
      MoveLastOrder(due, k);
      var last;
      last, same := TakeLast(k, leaf, off);
      RetagLast(last, k, t);
      heap, due, timers := MoveLast(heap, k), MoveLast(due, k), timers - {t};
      ForgetLast(heap);
    }

    /** Take the timer at index `k` out of the heap and restore the order. */
    method Withdraw(t: Timer, k: nat, leaf: Node, off: nat)
      requires Stored() && Tagged() && Ordered(due) && numTimers < MAX_INDEX && IsSlot(leaf, off, k) && t == heap[k - 1]
      requires tree.depth > 0 ==> Pow128(tree.depth) <= numTimers
      modifies this`numTimers, this`heap, this`due, this`timers, tree, tree.at.Keys, timers`index
      ensures Stored() && Tagged() && Ordered(due) && numTimers == old(numTimers) - 1 && timers == old(timers) - {t}
      ensures tree.depth > 0 ==> Pow128(tree.depth) <= numTimers
      ensures tree.at == old(tree.at)
    {
      hide RadixTree.Valid, RadixTree.Read;
      assert |due| == |heap| == numTimers < tree.Capacity() && t in timers && heap[|heap| - 1] in timers;
      hide Stored, Holds, TaggedAs, MoveLast, Ordered, OrderedAround, OrderedAbove;
      var same := Vacate(t, k, leaf, off);
      if !same {
        PullUp(k, leaf, off);
        PushDown(k, leaf, off);
      }
    }

    /** The part of unregistering that concerns a timer with a heap index. */
    method UnregisterFromHeap(t: Timer) returns (fatal: bool)
      requires Stored() && Tagged() && Ordered(due) && numTimers < MAX_INDEX && t.index > 0
      requires tree.depth > 0 ==> Pow128(tree.depth) <= numTimers
      modifies this`numTimers, this`numobjs, this`heap, this`due, this`timers, tree, tree.at.Keys, timers`index
      ensures Stored() && Tagged() && Ordered(due) && tree.at == old(tree.at)
      ensures numTimers == old(numTimers) - if t in old(timers) then 1 else 0
      ensures numobjs == old(numobjs) - if t in old(timers) then 1 else 0
      ensures tree.depth > 0 ==> Pow128(tree.depth) <= numTimers
      ensures fatal <==> t !in old(timers)
      ensures timers == old(timers) - {t}
      ensures fatal ==> heap == old(heap) && due == old(due) && numTimers == old(numTimers) && forall x :: x in timers ==> x.index == old(x.index)
    {
      hide RadixTree.Valid, RadixTree.Read, Holds, Ordered;
      if t.index > numTimers {
        return true;
      }
      var leaf, off := GetNode(t.index);
      if SlotOf(leaf, off, t.index) != t {
        return true;
      }
      Withdraw(t, t.index, leaf, off);
      numobjs := numobjs - 1;
      return false;
    }

    /**
     Unregister a timer, from the heap or from the list of expired timers.  It is
     fatal if the timer is on neither.
     */
    method Unregister(t: Timer) returns (fatal: bool)
      requires Valid() && t.index >= -1 && (t.index == 0 ==> t in expired)
      modifies this, tree, tree.at.Keys, timers`index, t`index
      ensures Valid() && tree.at == old(tree.at)
      ensures fatal <==> t !in old(timers) && t !in old(expired)
      ensures timers == old(timers) - {t} && expired == Without(old(expired), t)
      ensures numTimers == old(numTimers) - if t in old(timers) then 1 else 0
      ensures fatal ==> t.index == old(t.index)
      ensures !fatal ==> t.index == -1
    {
      hide RadixTree.Valid, RadixTree.Read, Holds, Ordered;
      WithoutFacts(expired, t);
      if t.index == -1 {
        return true;
      }
      if t.index != 0 {
        fatal := UnregisterFromHeap(t);
        if fatal {
          return true;
        }
      } else {
        expired := Without(expired, t);
      }
      t.index := -1;
      return false;
    }

    /** The timer in slot 1 of the first leaf. */
    method Soonest() returns (t: Timer)
      requires Valid() && numTimers > 0
      ensures t in timers && t.index == 1 && forall x :: x in timers ==> Le(t.expires, x.expires)
    {
      t := SlotOf(tree.firstLeaf, 1, 1);
      hide RadixTree.Valid, RadixTree.Read, Holds;
      forall x | x in timers
        ensures Le(due[0], x.expires)
      {
        RootIsMinimum(due, x.index);
      }
    }

    /** The earliest expiry time of any registered timer. */
    method SoonestTimeout() returns (abs: Option<Timespec>)
      requires Valid()
      ensures abs.None? <==> timers == {}
      ensures abs.Some? ==> (exists t :: t in timers && t.expires == abs.value) && forall t :: t in timers ==> Le(abs.value, t.expires)
    {
      IndexTells();
      if numTimers > 0 {
        var t := Soonest();
        abs := Some(t.expires);
      } else {
        abs := None;
      }
    }

    // ---------- The expiry pass ----------

    /** `all` contains every timer there is; a timer that is on neither list is unregistered. */
    ghost predicate Knows(all: set<Timer>)
      reads this, all
    {
      && |all| + 1 < MAX_INDEX && timers <= all && (forall t :: t in expired ==> t in all)
      && (forall t :: t in all ==> t in timers || t in expired || t.index == -1)
    }

    lemma IndexTells()
      requires Valid()
      ensures forall t :: t in timers ==> 1 <= t.index <= numTimers
      ensures forall t :: t in expired ==> t.index == 0
    {
      hide RadixTree.Valid, RadixTree.Read;
    }

    /** Timers keep the main loop going exactly as long as one is registered. */
    lemma Counted()
      requires Valid()
      ensures numobjs >= 0 && (numobjs == 0 <==> timers == {})
    {
      IndexTells();
      assert numTimers > 0 ==> heap[0] in timers;
    }

    /** There cannot be more registered timers than timers. */
    lemma EnoughRoom(all: set<Timer>)
      requires Valid() && Knows(all)
      ensures numTimers <= |all|
    {
      hide RadixTree.Valid, RadixTree.Read;
      forall i, j | 0 <= i < j < |heap|
        ensures heap[i] != heap[j]
      {
        assert heap[i].index == i + 1 && heap[j].index == j + 1;
      }
      DistinctSize(heap, all);
    }

    /** What a handler does: the calls it makes that are permitted when it makes them. */
    method RunHandler(ops: seq<Op>, ghost all: set<Timer>)
      requires Valid() && Knows(all) && forall op :: op in ops ==> op.t in all
      modifies this, tree, tree.at.Keys, all
      ensures Valid() && Knows(all) && fresh(tree.at.Keys - old(tree.at.Keys))
      ensures expired == Strike(old(expired), ops)
      ensures TimesOf() == old(AfterOps(TimesOf(), expired, ops))
    {
      hide Valid, Knows, TimesOf, AfterOp;
      var k := 0;
      while k < |ops|
        invariant k <= |ops| && Valid() && Knows(all) && fresh(tree.at.Keys - old(tree.at.Keys))
        invariant Strike(expired, ops[k..]) == Strike(old(expired), ops)
        invariant AfterOps(TimesOf(), expired, ops[k..]) == old(AfterOps(TimesOf(), expired, ops))
      {
        var op := ops[k];
        assert ops[k..][1..] == ops[k + 1..];
        Perform(op, all);
        k := k + 1;
      }
    }

    method Perform(op: Op, ghost all: set<Timer>)
      requires Valid() && Knows(all) && op.t in all
      modifies this, tree, tree.at.Keys, all
      ensures Valid() && Knows(all) && fresh(tree.at.Keys - old(tree.at.Keys))
      ensures expired == if op.Unreg? then Without(old(expired), op.t) else old(expired)
      ensures TimesOf() == old(AfterOp(TimesOf(), expired, op))
    {
      hide Valid, Knows;
      match op
      case Reg(t, at) => RegisterAt(t, at, all);
      case Unreg(t) => Cancel(t, all);
    }

    /** Register a timer to expire at a given time, unless it is registered. */
    method RegisterAt(t: Timer, at: Timespec, ghost all: set<Timer>)
      requires Valid() && Knows(all) && t in all
      modifies this, tree, tree.at.Keys, all
      ensures Valid() && Knows(all) && fresh(tree.at.Keys - old(tree.at.Keys)) && expired == old(expired)
      ensures TimesOf() == old(if t in timers || t in expired then TimesOf() else TimesOf()[t := at])
    {
      hide Valid, Knows, TimesOf;
      IsFree(t, all);
      if t.index == -1 {
        SetExpiry(t, at, all);
        RegisterKnown(t, all);
      }
    }

    lemma IsFree(t: Timer, all: set<Timer>)
      requires Valid() && Knows(all) && t in all
      ensures t.index == -1 <==> t !in timers && t !in expired
    {
      IndexTells();
      hide Valid;
    }

    /** The user sets the expiry time of a timer that is not registered. */
    method SetExpiry(t: Timer, at: Timespec, ghost all: set<Timer>)
      requires Valid() && Knows(all) && t !in timers
      modifies t`expires
      ensures Valid() && Knows(all) && TimesOf() == old(TimesOf()) && t.expires == at
    {
      hide RadixTree.Valid, RadixTree.Read, Holds, Ordered;
      t.expires := at;
    }

    method RegisterKnown(t: Timer, ghost all: set<Timer>)
      requires Valid() && Knows(all) && t in all && t.index == -1
      modifies this, tree, tree.at.Keys, all`index
      ensures Valid() && Knows(all) && fresh(tree.at.Keys - old(tree.at.Keys)) && expired == old(expired)
      ensures TimesOf() == old(TimesOf()[t := t.expires])
    {
      EnoughRoom(all);
      hide Valid;
      var fatal := Register(t);
    }

    /** Unregister a timer, unless it is not registered. */
    method Cancel(t: Timer, ghost all: set<Timer>)
      requires Valid() && Knows(all) && t in all
      modifies this, tree, tree.at.Keys, all`index
      ensures Valid() && Knows(all) && tree.at == old(tree.at) && expired == Without(old(expired), t)
      ensures TimesOf() == old(TimesOf()) - {t}
    {
      IndexTells();
      WithoutFacts(expired, t);
      hide Valid;
      if t.index != -1 {
        var fatal := Unregister(t);
      }
    }

    /** Move the soonest timer, if it is due, from the heap to the end of the list of expired timers. */
    method PopIfDue(now: Timespec) returns (t: Timer, popped: bool, fatal: bool)
      requires Valid() && numTimers > 0
      modifies this, tree, tree.at.Keys, timers`index
      ensures Valid() && tree.at == old(tree.at) && !fatal
      ensures t in old(timers) && forall x :: x in old(timers) ==> Le(t.expires, x.expires)
      ensures popped <==> Le(t.expires, now)
      ensures timers == if popped then old(timers) - {t} else old(timers)
      ensures expired == if popped then old(expired) + [t] else old(expired)
    {
      IndexTells();
      t := Soonest();
      WithoutFacts(expired, t);
      hide Valid;
      if t.index != 1 {
        return t, false, true;
      }
      if Gt(t.expires, now) {
        return t, false, false;
      }
      fatal := Unregister(t);
      Expire(t);
      popped := true;
    }

    method Expire(t: Timer)
      requires Valid() && t !in timers && t !in expired
      modifies this`expired, t`index
      ensures Valid() && expired == old(expired) + [t]
    {
      hide Stored, TaggedAs, Ordered;
      expired := expired + [t];
      t.index := 0;
    }

    ghost function TimesOf(): Times
      reads this, timers`expires
    {
      map t | t in timers :: t.expires
    }

    /** Move every due timer to the list of expired timers, soonest first. */
    method Collect(now: Timespec) returns (fatal: bool)
      requires Valid() && expired == []
      modifies this, tree, tree.at.Keys, timers`index
      ensures Valid() && tree.at == old(tree.at) && !fatal
      ensures timers <= old(timers) && forall t :: t in timers ==> Gt(t.expires, now)
      ensures forall t :: t in old(timers) ==> t in timers || t in expired
      ensures IsDueOrder(expired, old(TimesOf()), now)
    {
      ghost var times := TimesOf();
      hide Valid, IsDueOrder;
      fatal := false;
      while numTimers > 0
        invariant Valid() && tree.at == old(tree.at) && !fatal && timers <= old(timers)
        invariant Collecting(expired, timers, times, now)
        decreases |timers|
      {
        hide Collecting;
        ghost var s, rest := expired, timers;
        var t, popped;
        t, popped, fatal := PopIfDue(now);
        if fatal {
          return;
        }
        if !popped {
          CollectDone(s, rest, times, now);
          return;
        }
        CollectOne(s, rest, times, now, t);
      }
      IndexTells();
      CollectDone(expired, timers, times, now);
    }

    /** The same, for all the timers there are. */
    method CollectKnown(now: Timespec, ghost all: set<Timer>) returns (fatal: bool)
      requires Valid() && Knows(all) && expired == []
      modifies this, tree, tree.at.Keys, all`index
      ensures Valid() && Knows(all) && tree.at == old(tree.at) && !fatal
      ensures IsDueOrder(expired, old(TimesOf()), now) && TimesOf() == NotDue(old(TimesOf()), now)
    {
      hide Valid;
      fatal := Collect(now);
    }

    /** Take the first timer off the list of expired timers. */
    method Unlist(ghost all: set<Timer>) returns (t: Timer)
      requires Valid() && Knows(all) && expired != []
      modifies this`expired, all`index
      ensures Valid() && Knows(all) && t == old(expired[0]) && expired == old(expired[1..]) && t.index == -1
      ensures TimesOf() == old(TimesOf())
    {
      IndexTells();
      assert expired[0] !in timers;
      hide Stored, TaggedAs, Ordered;
      t := expired[0];
      assert expired == [t] + expired[1..];
      expired := expired[1..];
      t.index := -1;
    }

    /** Take the next expired timer off the list and run its handler. */
    method FireNext(ops: seq<Op>, ghost all: set<Timer>) returns (t: Timer)
      requires Valid() && Knows(all) && expired != [] && forall op :: op in ops ==> op.t in all
      modifies this, tree, tree.at.Keys, all
      ensures Valid() && Knows(all) && fresh(tree.at.Keys - old(tree.at.Keys))
      ensures t == old(expired[0]) && expired == Strike(old(expired[1..]), ops) && |expired| < old(|expired|)
      ensures TimesOf() == old(AfterOps(TimesOf(), expired[1..], ops))
    {
      hide Valid, Knows;
      t := Unlist(all);
      StrikeShorter(expired, ops);
      RunHandler(ops, all);
    }

    /** Run the handlers of the expired timers until none is left. */
    method FireAll(script: seq<seq<Op>>, ghost all: set<Timer>) returns (fired: seq<Timer>)
      requires Valid() && Knows(all) && forall ops, op :: ops in script && op in ops ==> op.t in all
      modifies this, tree, tree.at.Keys, all
      ensures Valid() && Knows(all) && expired == [] && fired == FireOrder(old(expired), script, 0)
      ensures TimesOf() == old(AfterPass(TimesOf(), expired, script, 0))
      ensures fresh(tree.at.Keys - old(tree.at.Keys))
    {
      hide Valid, Knows, FireOrder, AfterPass, AfterOps, Strike, TimesOf;
      ghost var total, last := FireOrder(expired, script, 0), AfterPass(TimesOf(), expired, script, 0);
      fired := [];
      while expired != []
        invariant Valid() && Knows(all) && fresh(tree.at.Keys - old(tree.at.Keys))
        invariant fired + FireOrder(expired, script, |fired|) == total
        invariant AfterPass(TimesOf(), expired, script, |fired|) == last
        decreases |expired|
      {
        FireStep(fired, expired, script);
        PassStep(TimesOf(), expired, script, |fired|);
        var t := FireNext(Ops(script, |fired|), all);
        fired := fired + [t];
      }
    }

    /** The first part of a pass: `order` are the timers that are due. */
    method BeginPass(now: Timespec, ghost all: set<Timer>) returns (ghost order: seq<Timer>, fatal: bool)
      requires Valid() && Knows(all) && expired == []
      modifies this, tree, tree.at.Keys, all`index
      ensures Valid() && Knows(all) && expired == order && !fatal && tree.at == old(tree.at)
      ensures IsDueOrder(order, old(TimesOf()), now) && TimesOf() == NotDue(old(TimesOf()), now)
    {
      IndexTells();
      fatal := false;
      hide Valid, Knows;
      if numTimers > 0 {
        fatal := CollectKnown(now, all);
      }
      order := expired;
    }

    /**
     One expiry pass at time `now`.  `script[k]` is what the handler of the k-th
     timer to fire does.
     */
    method RunTimers(now: Timespec, script: seq<seq<Op>>, ghost all: set<Timer>)
      returns (fired: seq<Timer>, ghost order: seq<Timer>, fatal: bool)
      requires Valid() && Knows(all) && expired == []
      requires forall ops, op :: ops in script && op in ops ==> op.t in all
      modifies this, tree, tree.at.Keys, all
      ensures Valid() && Knows(all) && expired == [] && !fatal
      ensures IsDueOrder(order, old(TimesOf()), now) && fired == FireOrder(order, script, 0)
      ensures TimesOf() == AfterPass(NotDue(old(TimesOf()), now), order, script, 0)
      ensures fresh(tree.at.Keys - old(tree.at.Keys))
    {
      hide Valid, Knows;
      order, fatal := BeginPass(now, all);
      if !fatal {
        fired := FireAll(script, all);
      }
    }
  }
}
