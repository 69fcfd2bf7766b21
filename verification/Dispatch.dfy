/**
 Calling the handlers of the descriptors that a poll found ready (src/iv_fd.c).
 Handlers may register, change and unregister any descriptor, the one being handled
 included.
 */
module Dispatch {
  import opened FdTable
  import opened Lists

  datatype Band = Err | In | Out

  function Has(b: Bands, band: Band): bool
  {
    match band case Err => b.error case In => b.input case Out => b.output
  }

  function Handles(f: Fd, band: Band): bool
    reads f
  {
    match band case Err => f.onErr case In => f.onIn case Out => f.onOut
  }

  datatype Call = Call(f: Fd, band: Band)

  /** The calls made for one descriptor, in their order. */
  ghost function CallsOf(calls: seq<Call>, f: Fd): seq<Call>
  {
    if calls == [] then [] else
      var n := |calls| - 1;
      CallsOf(calls[..n], f) + if calls[n].f == f then [calls[n]] else []
  }

  // ---------- What handlers do to descriptors ----------

  /** What a handler may do to a descriptor; calls that would be fatal are not made. */
  datatype Op =
    | Register(f: Fd)
    | Unregister(f: Fd)
    | SetHandlers(f: Fd, onIn: bool, onOut: bool, onErr: bool)

  datatype Entry = Entry(registered: bool, handlers: Bands)

  type Entries = map<Fd, Entry>

  /** How a pass finds the descriptors, and which bands the poll found ready. */
  datatype Found = Found(entries: Entries, ready: map<Fd, Bands>)

  function AfterOp(e: Entries, op: Op): (r: Entries)
    ensures r.Keys == e.Keys && forall f :: f in e && f != op.f ==> r[f] == e[f]
  {
    if op.f !in e then e else
      match op
      case Register(f) => e[f := e[f].(registered := true)]
      case Unregister(f) => e[f := e[f].(registered := false)]
      case SetHandlers(f, onIn, onOut, onErr) =>
        if e[f].registered then e[f := e[f].(handlers := Bands(onIn, onOut, onErr))] else e
  }

  function AfterOps(e: Entries, ops: seq<Op>): (r: Entries)
    ensures r.Keys == e.Keys
  {
    if ops == [] then e else AfterOp(AfterOps(e, ops[..|ops| - 1]), ops[|ops| - 1])
  }

  lemma OneOp(e: Entries, op: Op)
    ensures AfterOps(e, [op]) == AfterOp(e, op)
  {
    assert [op][..0] == [];
  }

  lemma {:induction false} AfterOpsConcat(e: Entries, ops: seq<Op>, more: seq<Op>)
    ensures AfterOps(e, ops + more) == AfterOps(AfterOps(e, ops), more)
  {
    if more == [] {
      assert ops + more == ops;
    } else {
      var all, n := ops + more, |more| - 1;
      assert all[..|all| - 1] == ops + more[..n] && all[|all| - 1] == more[n];
      AfterOpsConcat(e, ops, more[..n]);
    }
  }

  predicate Gone(f: Fd, ops: seq<Op>)
  {
    Unregister(f) in ops
  }

  predicate Untouched(f: Fd, ops: seq<Op>)
  {
    forall op :: op in ops ==> op.f != f
  }

  lemma {:induction false} UntouchedKept(e: Entries, ops: seq<Op>, f: Fd)
    requires f in e && Untouched(f, ops)
    ensures AfterOps(e, ops)[f] == e[f]
  {
    if ops != [] {
      assert ops[|ops| - 1] in ops;
      UntouchedKept(e, ops[..|ops| - 1], f);
    }
  }

  predicate Sets(op: Op, f: Fd)
  {
    op.SetHandlers? && op.f == f
  }

  /** The j-th call is the last to set the handlers of `f`. */
  ghost predicate SetLast(ops: seq<Op>, f: Fd, j: int)
  {
    0 <= j < |ops| && Sets(ops[j], f) && forall i :: j < i < |ops| ==> !Sets(ops[i], f)
  }

  /** As long as a descriptor stays registered, it has the handlers that it was given last. */
  lemma {:induction false} HandlersNow(e: Entries, ops: seq<Op>, f: Fd)
    requires f in e && e[f].registered && !Gone(f, ops)
    ensures var x := AfterOps(e, ops)[f];
      && x.registered
      && (forall j :: SetLast(ops, f, j) ==> x.handlers == Bands(ops[j].onIn, ops[j].onOut, ops[j].onErr))
      && ((forall op :: op in ops ==> !Sets(op, f)) ==> x.handlers == e[f].handlers)
  {
    if ops != [] {
      var n := |ops| - 1;
      var some, op := ops[..n], ops[n];
      HandlersNow(e, some, f);
      assert op in ops && !Gone(f, some);
      forall j | SetLast(ops, f, j) && j < n
        ensures SetLast(some, f, j)
      {
        assert !Sets(ops[n], f) && forall i :: 0 <= i < n ==> some[i] == ops[i];
      }
    }
  }

  predicate Enrols(op: Op, f: Fd)
  {
    op == Register(f) || op == Unregister(f)
  }

  /** The j-th call is the last to register or unregister `f`. */
  ghost predicate EnrolsLast(ops: seq<Op>, f: Fd, j: int)
  {
    0 <= j < |ops| && Enrols(ops[j], f) && forall i :: j < i < |ops| ==> !Enrols(ops[i], f)
  }

  /** A descriptor is registered exactly if the last call to register or unregister it registers it. */
  lemma {:induction false} RegisteredNow(e: Entries, ops: seq<Op>, f: Fd, j: nat)
    requires f in e && EnrolsLast(ops, f, j)
    ensures AfterOps(e, ops)[f].registered <==> ops[j] == Register(f)
  {
    var n := |ops| - 1;
    if j < n {
      var some := ops[..n];
      assert !Enrols(ops[n], f) && forall i :: 0 <= i < n ==> some[i] == ops[i];
      RegisteredNow(e, some, f, j);
    }
  }

  /** The handlers are those last set while the descriptor was registered. */
  lemma {:induction false} HandlersSet(e: Entries, ops: seq<Op>, f: Fd, j: nat)
    requires f in e && SetLast(ops, f, j)
    ensures var x, y := AfterOps(e, ops)[f], AfterOps(e, ops[..j])[f];
      x.handlers == if y.registered then Bands(ops[j].onIn, ops[j].onOut, ops[j].onErr) else y.handlers
  {
    var n := |ops| - 1;
    var some, op := ops[..n], ops[n];
    if j < n {
      assert some[..j] == ops[..j] && !Sets(ops[n], f) && forall i :: 0 <= i < n ==> some[i] == ops[i];
      HandlersSet(e, some, f, j);
    }
  }

  /** Those that none of the calls unregisters. */
  ghost function Spared(s: seq<Fd>, ops: seq<Op>): (r: seq<Fd>)
    ensures forall f :: f in r ==> f in s && !Gone(f, ops)
    ensures forall f :: f in s && !Gone(f, ops) ==> f in r
    ensures |r| <= |s|
  {
    if s == [] then [] else (if Gone(s[0], ops) then [] else [s[0]]) + Spared(s[1..], ops)
  }

  lemma {:induction false} SparedConcat(s: seq<Fd>, ops: seq<Op>, more: seq<Op>)
    ensures Spared(s, ops + more) == Spared(Spared(s, ops), more)
  {
    if s != [] {
      SparedConcat(s[1..], ops, more);
      var f, rest := s[0], Spared(s[1..], ops);
      assert Spared(s, ops) == if Gone(f, ops) then rest else [f] + rest;
      assert Gone(f, ops + more) <==> Gone(f, ops) || Gone(f, more);
      assert ([f] + rest)[1..] == rest;
    }
  }

  lemma {:induction false} SparedOne(s: seq<Fd>, op: Op)
    ensures Spared(s, [op]) == if op.Unregister? then Without(s, op.f) else s
  {
    if s != [] {
      assert s == [s[0]] + s[1..];
      SparedOne(s[1..], op);
    }
  }

  lemma {:induction false} SparedAll(s: seq<Fd>)
    ensures Spared(s, []) == s
  {
    if s != [] {
      assert s == [s[0]] + s[1..];
      SparedAll(s[1..]);
    }
  }

  // ---------- Which calls a pass makes ----------

  function Ops(script: seq<seq<Op>>, k: nat): seq<Op> { if k < |script| then script[k] else [] }

  /** What the first `n` handlers of the pass do. */
  function Sofar(script: seq<seq<Op>>, n: nat): seq<Op>
  {
    if n == 0 then [] else Sofar(script, n - 1) + Ops(script, n - 1)
  }

  /** No handler of this pass does anything to `f`. */
  ghost predicate LeftAlone(f: Fd, script: seq<seq<Op>>)
  {
    forall ops :: ops in script ==> Untouched(f, ops)
  }

  lemma {:induction false} LeftAloneSofar(f: Fd, script: seq<seq<Op>>, n: nat)
    requires LeftAlone(f, script)
    ensures Untouched(f, Sofar(script, n))
  {
    if n > 0 {
      LeftAloneSofar(f, script, n - 1);
      assert Ops(script, n - 1) == [] || Ops(script, n - 1) in script;
    }
  }

  /**
   Whether a call that comes up after `n` handlers have run is made, in terms of what was there when
   the pass began: the band was found ready, none of the `n` handlers has unregistered
   the descriptor, and there is a handler now.
   */
  predicate IsDue(found: Found, script: seq<seq<Op>>, n: nat, c: Call)
  {
    && c.f in found.ready && Has(found.ready[c.f], c.band)
    && !Gone(c.f, Sofar(script, n))
    && c.f in found.entries && Has(AfterOps(found.entries, Sofar(script, n))[c.f].handlers, c.band)
  }

  /** The order in which calls come up: descriptor by descriptor, errors first, then input, then output. */
  ghost function Turns(order: seq<Fd>): seq<Call>
  {
    if order == [] then [] else
      var n := |order| - 1;
      TurnsWith(Turns(order[..n]), order[n])
  }

  ghost function TurnsWith(turns: seq<Call>, f: Fd): seq<Call>
  {
    turns + [Call(f, Err)] + [Call(f, In)] + [Call(f, Out)]
  }

  lemma TurnsNext(order: seq<Fd>, j: nat)
    requires j < |order|
    ensures Turns(order[..j + 1]) == TurnsWith(Turns(order[..j]), order[j])
  {
    assert order[..j + 1][..j] == order[..j];
  }

  lemma {:induction false} TurnsOnly(order: seq<Fd>)
    ensures forall c :: c in Turns(order) ==> c.f in order
  {
    if order != [] {
      TurnsOnly(order[..|order| - 1]);
    }
  }

  lemma {:induction false} TurnsDistinct(order: seq<Fd>)
    requires Distinct(order)
    ensures Distinct(Turns(order))
  {
    if order != [] {
      var n := |order| - 1;
      var turns, f := Turns(order[..n]), order[n];
      assert f !in order[..n];
      TurnsOnly(order[..n]);
      TurnsDistinct(order[..n]);
      hide Distinct, Turns;
      AppendDistinct(turns, Call(f, Err));
      AppendDistinct(turns + [Call(f, Err)], Call(f, In));
      AppendDistinct(turns + [Call(f, Err)] + [Call(f, In)], Call(f, Out));
    }
  }

  function MadeAt(c: Call, n: nat, found: Found, script: seq<seq<Op>>): (made: seq<Call>)
    ensures |made| <= 1 && forall d :: d in made ==> d == c && c.f in found.ready && Has(found.ready[c.f], c.band)
  {
    if IsDue(found, script, n, c) then [c] else []
  }

  /** The calls that are made if these come up. */
  ghost function CallsMade(turns: seq<Call>, found: Found, script: seq<seq<Op>>): seq<Call>
  {
    if turns == [] then [] else
      var n := |turns| - 1;
      var before := CallsMade(turns[..n], found, script);
      before + MadeAt(turns[n], |before|, found, script)
  }

  lemma MadeNext(turns: seq<Call>, c: Call, found: Found, script: seq<seq<Op>>)
    ensures var before := CallsMade(turns, found, script);
      CallsMade(turns + [c], found, script) == before + MadeAt(c, |before|, found, script)
  {
    hide MadeAt;
    assert (turns + [c])[..|turns|] == turns;
  }

  lemma {:induction false} CallsMadeOnly(turns: seq<Call>, found: Found, script: seq<seq<Op>>)
    ensures forall c :: c in CallsMade(turns, found, script) ==>
              c in turns && c.f in found.ready && Has(found.ready[c.f], c.band)
  {
    if turns != [] {
      hide MadeAt;
      CallsMadeOnly(turns[..|turns| - 1], found, script);
    }
  }

  lemma {:induction false} CallsMadeDistinct(turns: seq<Call>, found: Found, script: seq<seq<Op>>)
    requires Distinct(turns)
    ensures Distinct(CallsMade(turns, found, script))
  {
    if turns != [] {
      var n := |turns| - 1;
      var before := CallsMade(turns[..n], found, script);
      assert turns[n] !in turns[..n];
      CallsMadeOnly(turns[..n], found, script);
      CallsMadeDistinct(turns[..n], found, script);
      hide Distinct, IsDue;
      if IsDue(found, script, |before|, turns[n]) {
        AppendDistinct(before, turns[n]);
      }
    }
  }

  /** Each descriptor has three turns. */
  lemma {:induction false} TurnAt(order: seq<Fd>, k: nat)
    requires k < |order|
    ensures |Turns(order)| == 3 * |order|
    ensures Turns(order)[3 * k..3 * k + 3] == [Call(order[k], Err), Call(order[k], In), Call(order[k], Out)]
  {
    var n := |order| - 1;
    var some := order[..n];
    if n > 0 {
      TurnAt(some, if k < n then k else 0);
    }
    assert |Turns(some)| == 3 * n;
  }

  /** Calls are made in the order of the turns. */
  lemma {:induction false} CallsInTurn(turns: seq<Call>, found: Found, script: seq<seq<Op>>, i: nat, j: nat) returns (a: nat, b: nat)
    requires i <= j < |CallsMade(turns, found, script)|
    ensures a <= b < |turns| && (i < j ==> a < b)
    ensures turns[a] == CallsMade(turns, found, script)[i] && turns[b] == CallsMade(turns, found, script)[j]
  {
    hide IsDue;
    var n := |turns| - 1;
    var some := turns[..n];
    var before := CallsMade(some, found, script);
    if j < |before| {
      a, b := CallsInTurn(some, found, script, i, j);
    } else if i < j {
      a, b := CallsInTurn(some, found, script, i, i);
      b := n;
    } else {
      a, b := n, n;
    }
  }

  /** None of the calls takes the handler away: the last to set handlers sets this one, or it was there and none sets any. */
  ghost predicate InPlace(handlers: Bands, ops: seq<Op>, f: Fd, band: Band)
  {
    || (exists j :: SetLast(ops, f, j) && Has(Bands(ops[j].onIn, ops[j].onOut, ops[j].onErr), band))
    || ((forall op :: op in ops ==> !Sets(op, f)) && Has(handlers, band))
  }

  lemma {:induction false} SomeSetLast(ops: seq<Op>, f: Fd) returns (j: int)
    ensures SetLast(ops, f, j) || forall op :: op in ops ==> !Sets(op, f)
  {
    j := |ops| - 1;
    if ops != [] && !Sets(ops[j], f) {
      var some := ops[..j];
      assert forall op :: op in ops ==> op in some || op == ops[|ops| - 1];
      j := SomeSetLast(some, f);
    }
  }

  lemma IsDueExactly(found: Found, script: seq<seq<Op>>, n: nat, c: Call)
    requires c.f in found.entries && c.f in found.ready && found.entries[c.f].registered
    ensures var ops := Sofar(script, n);
      IsDue(found, script, n, c) <==>
        Has(found.ready[c.f], c.band) && !Gone(c.f, ops) && InPlace(found.entries[c.f].handlers, ops, c.f, c.band)
  {
    var ops := Sofar(script, n);
    if !Gone(c.f, ops) {
      HandlersNow(found.entries, ops, c.f);
      var j := SomeSetLast(ops, c.f);
    }
  }

  /**
   A call is made exactly if its band was found ready and none of the handlers called before it has
   unregistered the descriptor or taken that handler away.
   */
  lemma CallMadeExactly(order: seq<Fd>, i: nat, found: Found, script: seq<seq<Op>>)
    requires Distinct(order) && i < |Turns(order)|
    requires forall f :: f in order ==> f in found.entries && f in found.ready && found.entries[f].registered
    ensures var c, calls := Turns(order)[i], CallsMade(Turns(order), found, script);
      var before := CallsMade(Turns(order)[..i], found, script);
      var ops := Sofar(script, |before|);
      && before <= calls
      && c.f in order
      && (c in calls <==>
            Has(found.ready[c.f], c.band) && !Gone(c.f, ops) && InPlace(found.entries[c.f].handlers, ops, c.f, c.band))
  {
    TurnsDistinct(order);
    TurnsOnly(order);
    assert Turns(order)[i] in Turns(order);
    MadeExactly(Turns(order), i, found, script);
    IsDueExactly(found, script, |CallsMade(Turns(order)[..i], found, script)|, Turns(order)[i]);
  }

  lemma {:induction false} MadeExactly(turns: seq<Call>, i: nat, found: Found, script: seq<seq<Op>>)
    requires Distinct(turns) && i < |turns|
    ensures var before := CallsMade(turns[..i], found, script);
      && before <= CallsMade(turns, found, script)
      && (turns[i] in CallsMade(turns, found, script) <==> IsDue(found, script, |before|, turns[i]))
  {
    var n := |turns| - 1;
    var some, c := turns[..n], turns[i];
    if i < n {
      assert some[..i] == turns[..i] && some[i] == c != turns[n];
      MadeExactly(some, i, found, script);
      hide Distinct, IsDue;
    } else {
      assert c !in some;
      CallsMadeOnly(some, found, script);
      hide Distinct, IsDue;
    }
  }

  /** The calls that are due to a descriptor with these handlers and bands, in the order in which bands are served. */
  function DueCalls(f: Fd, handlers: Bands, ready: Bands): seq<Call>
  {
    (if ready.error && handlers.error then [Call(f, Err)] else []) +
    (if ready.input && handlers.input then [Call(f, In)] else []) +
    (if ready.output && handlers.output then [Call(f, Out)] else [])
  }

  lemma DueInTurn(f: Fd, handlers: Bands, ready: Bands)
    ensures DueCalls(f, handlers, ready) ==
            DueCall(f, Err, handlers, ready) + DueCall(f, In, handlers, ready) + DueCall(f, Out, handlers, ready)
  {
  }

  function DueCall(f: Fd, band: Band, handlers: Bands, ready: Bands): seq<Call>
  {
    if Has(handlers, band) && Has(ready, band) then [Call(f, band)] else []
  }

  lemma CallsOfNext(turns: seq<Call>, c: Call, f: Fd, found: Found, script: seq<seq<Op>>)
    requires f in found.entries && f in found.ready && LeftAlone(f, script)
    ensures CallsOf(CallsMade(turns + [c], found, script), f) ==
            CallsOf(CallsMade(turns, found, script), f) +
            if c.f == f then DueCall(f, c.band, found.entries[f].handlers, found.ready[f]) else []
  {
    hide CallsMade, CallsOf, LeftAlone, IsDue, DueCall;
    var before := CallsMade(turns, found, script);
    MadeNext(turns, c, found, script);
    CallsOfAppend(before, c, f);
    if c.f == f {
      LeftAloneMade(f, c.band, |before|, found, script);
    }
    assert before + [] == before && CallsOf(before, f) + [] == CallsOf(before, f);
  }

  lemma CallsOfAppend(calls: seq<Call>, c: Call, f: Fd)
    ensures CallsOf(calls + [c], f) == CallsOf(calls, f) + if c.f == f then [c] else []
  {
    assert (calls + [c])[..|calls|] == calls;
  }

  lemma LeftAloneMade(f: Fd, band: Band, n: nat, found: Found, script: seq<seq<Op>>)
    requires f in found.entries && f in found.ready && LeftAlone(f, script)
    ensures MadeAt(Call(f, band), n, found, script) == DueCall(f, band, found.entries[f].handlers, found.ready[f])
  {
    LeftAloneSofar(f, script, n);
    hide Sofar, AfterOps;
    UntouchedKept(found.entries, Sofar(script, n), f);
  }

  lemma CallsOfTurns(turns: seq<Call>, g: Fd, f: Fd, found: Found, script: seq<seq<Op>>)
    requires f in found.entries && f in found.ready && LeftAlone(f, script)
    ensures CallsOf(CallsMade(TurnsWith(turns, g), found, script), f) ==
            CallsOf(CallsMade(turns, found, script), f) +
            if g == f then DueCalls(f, found.entries[f].handlers, found.ready[f]) else []
  {
    hide CallsMade, CallsOf, LeftAlone, DueCall, DueCalls;
    var sofar := CallsOf(CallsMade(turns, found, script), f);
    CallsOfNext(turns, Call(g, Err), f, found, script);
    CallsOfNext(turns + [Call(g, Err)], Call(g, In), f, found, script);
    CallsOfNext(turns + [Call(g, Err)] + [Call(g, In)], Call(g, Out), f, found, script);
    if g == f {
      var handlers, ready := found.entries[f].handlers, found.ready[f];
      var err, input, output := DueCall(f, Err, handlers, ready), DueCall(f, In, handlers, ready), DueCall(f, Out, handlers, ready);
      DueInTurn(f, handlers, ready);
      assert sofar + err + input + output == sofar + (err + input + output);
    } else {
      assert sofar + [] + [] + [] == sofar + [];
    }
  }

  /** A descriptor that handlers leave alone gets the calls it is due, whatever they do to others. */
  lemma {:induction false} LeftAloneCalls(order: seq<Fd>, f: Fd, found: Found, script: seq<seq<Op>>)
    requires Distinct(order) && f in found.entries && f in found.ready && LeftAlone(f, script)
    ensures CallsOf(CallsMade(Turns(order), found, script), f) ==
            if f in order then DueCalls(f, found.entries[f].handlers, found.ready[f]) else []
  {
    if order != [] {
      var n := |order| - 1;
      assert order[n] !in order[..n] && (f in order <==> f in order[..n] || f == order[n]);
      LeftAloneCalls(order[..n], f, found, script);
      hide CallsMade, CallsOf, Distinct, LeftAlone, DueCalls, TurnsWith;
      CallsOfTurns(Turns(order[..n]), order[n], f, found, script);
    }
  }

  lemma NoTurns(found: Found, script: seq<seq<Op>>)
    ensures CallsMade(Turns([]), found, script) == []
  {
  }

  /** The turn of a descriptor that is gone brings no calls. */
  lemma GoneTurns(turns: seq<Call>, f: Fd, found: Found, script: seq<seq<Op>>)
    requires Gone(f, Sofar(script, |CallsMade(turns, found, script)|))
    ensures CallsMade(TurnsWith(turns, f), found, script) == CallsMade(turns, found, script)
  {
    hide CallsMade, Sofar, AfterOps, Gone;
    MadeNext(turns, Call(f, Err), found, script);
    MadeNext(turns + [Call(f, Err)], Call(f, In), found, script);
    MadeNext(turns + [Call(f, Err)] + [Call(f, In)], Call(f, Out), found, script);
  }

  lemma SparedFrom(order: seq<Fd>, j: nat, ops: seq<Op>)
    requires j < |order|
    ensures Spared(order[j..], ops) == (if Gone(order[j], ops) then [] else [order[j]]) + Spared(order[j + 1..], ops)
  {
    assert order[j..][1..] == order[j + 1..];
  }

  /** From the j-th descriptor on, find the next that is still there. */
  lemma {:induction false} NextSpared(order: seq<Fd>, j: nat, found: Found, script: seq<seq<Op>>) returns (i: nat)
    requires j <= |order|
    ensures var calls := CallsMade(Turns(order[..j]), found, script);
      var ops := Sofar(script, |calls|);
      && j <= i <= |order| && CallsMade(Turns(order[..i]), found, script) == calls
      && Spared(order[j..], ops) == (if i < |order| then [order[i]] + Spared(order[i + 1..], ops) else [])
      && (i < |order| ==> !Gone(order[i], ops))
    decreases |order| - j
  {
    hide CallsMade, Sofar, Gone, Turns, TurnsWith, Spared;
    i := j;
    var turns := Turns(order[..j]);
    var ops := Sofar(script, |CallsMade(turns, found, script)|);
    if j < |order| {
      SparedFrom(order, j, ops);
      if Gone(order[j], ops) {
        TurnsNext(order, j);
        GoneTurns(turns, order[j], found, script);
        i := NextSpared(order, j + 1, found, script);
      }
    }
  }

  lemma LeftAloneKept(e: Entries, script: seq<seq<Op>>, n: nat)
    ensures forall f :: f in e && LeftAlone(f, script) ==> AfterOps(e, Sofar(script, n))[f] == e[f]
  {
    forall f | f in e && LeftAlone(f, script)
      ensures AfterOps(e, Sofar(script, n))[f] == e[f]
    {
      LeftAloneSofar(f, script, n);
      UntouchedKept(e, Sofar(script, n), f);
    }
  }

  /** What follows for the calls that a pass makes. */
  lemma MadeProperly(order: seq<Fd>, calls: seq<Call>, found: Found, script: seq<seq<Op>>)
    requires Distinct(order) && calls == CallsMade(Turns(order), found, script)
    requires forall f :: f in order ==> f in found.entries && f in found.ready
    ensures Distinct(calls)
    ensures forall c :: c in calls ==> c.f in order && Has(found.ready[c.f], c.band)
    ensures forall f :: f in order && LeftAlone(f, script) ==>
              CallsOf(calls, f) == DueCalls(f, found.entries[f].handlers, found.ready[f])
  {
    hide *;
    TurnsDistinct(order);
    TurnsOnly(order);
    CallsMadeDistinct(Turns(order), found, script);
    CallsMadeOnly(Turns(order), found, script);
    forall f | f in order && LeftAlone(f, script)
      ensures CallsOf(calls, f) == DueCalls(f, found.entries[f].handlers, found.ready[f])
    {
      LeftAloneCalls(order, f, found, script);
    }
  }

  class Dispatcher {
    var active: seq<Fd>
    /** The descriptor handled last; null if it has been unregistered since, or if there was none. */
    var handled: Fd?

    ghost predicate Valid(all: set<Fd>)
      reads this, all
    {
      && Distinct(active) && (forall f :: f in active ==> f in all && f.registered)
      && (handled != null ==> handled in all && handled.registered)
    }

    constructor ()
      ensures Valid({}) && active == [] && handled == null
    {
      active, handled := [], null;
    }

    /** `iv_fd_make_ready`: bands accumulate, and a descriptor is listed once. */
    method MakeReady(f: Fd, bands: Bands, ghost all: set<Fd>)
      requires Valid(all) && f in all && f.registered
      modifies this`active, f`ready
      ensures Valid(all)
      ensures active == if f in old(active) then old(active) else old(active) + [f]
      ensures f.ready.input == (bands.input || (f in old(active) && old(f.ready.input)))
      ensures f.ready.output == (bands.output || (f in old(active) && old(f.ready.output)))
      ensures f.ready.error == (bands.error || (f in old(active) && old(f.ready.error)))
    {
      if f !in active {
        f.ready := NONE;
        AppendDistinct(active, f);
        active := active + [f];
      }
      f.ready := Bands(f.ready.input || bands.input, f.ready.output || bands.output, f.ready.error || bands.error);
    }

    ghost function EntryOf(f: Fd): Entry
      reads f`registered, f`onIn, f`onOut, f`onErr
    {
      Entry(f.registered, Bands(f.onIn, f.onOut, f.onErr))
    }

    ghost function EntriesOf(all: set<Fd>): Entries
      reads all`registered, all`onIn, all`onOut, all`onErr
    {
      map f | f in all :: EntryOf(f)
    }

    ghost function FoundBy(all: set<Fd>): Found
      reads all
    {
      Found(EntriesOf(all), map f | f in all :: f.ready)
    }

    /** What calls made from a handler come to: those waiting stay as they were found, but for being taken off the list. */
    twostate predicate Did(ops: seq<Op>, all: set<Fd>)
      reads this, all
    {
      && EntriesOf(all) == AfterOps(old(EntriesOf(all)), ops)
      && active == Spared(old(active), ops)
      && handled == (if old(handled) != null && Gone(old(handled), ops) then null else old(handled))
      && (forall x :: x in all && (x in active || x == handled) ==> x.ready == old(x.ready))
    }

    /** `iv_fd_register`, as far as the dispatch loop is concerned. */
    method Enter(g: Fd, ghost all: set<Fd>)
      requires Valid(all) && g in all
      modifies this, all
      ensures Valid(all) && Did([Register(g)], all) && g.ready == (if old(g.registered) then old(g.ready) else NONE)
    {
      hide Spared, AfterOps, Distinct;
      SparedOne(active, Register(g));
      OneOp(EntriesOf(all), Register(g));
      if !g.registered {
        g.registered := true;
        g.ready := NONE;
      }
    }

    /** `iv_fd_unregister`. */
    method Leave(g: Fd, ghost all: set<Fd>)
      requires Valid(all) && g in all
      modifies this, all
      ensures Valid(all) && Did([Unregister(g)], all)
    {
      hide Spared, AfterOps, Distinct;
      SparedOne(active, Unregister(g));
      ghost var e := EntriesOf(all);
      OneOp(e, Unregister(g));
      assert AfterOp(e, Unregister(g)) == e[g := e[g].(registered := false)];
      hide AfterOp;
      WithoutDistinct(active, g);
      assert forall x :: Gone(x, [Unregister(g)]) <==> x == g;
      hide Gone;
      if g.registered {
        g.registered := false;
        active := Without(active, g);
        if handled == g {
          handled := null;
        }
      }
      assert EntriesOf(all) == AfterOp(e, Unregister(g));
    }

    /** `iv_fd_set_handler_in`, `iv_fd_set_handler_out` and `iv_fd_set_handler_err`. */
    method Change(g: Fd, onIn: bool, onOut: bool, onErr: bool, ghost all: set<Fd>)
      requires Valid(all) && g in all
      modifies this, all
      ensures Valid(all) && Did([SetHandlers(g, onIn, onOut, onErr)], all)
    {
      hide Spared, AfterOps, Distinct;
      ghost var e, op := EntriesOf(all), SetHandlers(g, onIn, onOut, onErr);
      SparedOne(active, op);
      OneOp(e, op);
      assert handled != null ==> !Gone(handled, [op]);
      hide Gone;
      if g.registered {
        g.onIn, g.onOut, g.onErr := onIn, onOut, onErr;
      }
      assert EntriesOf(all) == AfterOp(e, op);
    }

    /** One call made from a handler: of a descriptor, or of an event that is run from within the poll. */
    method Perform(op: Op, ghost all: set<Fd>)
      requires Valid(all) && op.f in all
      modifies this, all
      ensures Valid(all) && Did([op], all)
    {
      hide Valid, Did;
      match op
      case Register(g) => Enter(g, all);
      case Unregister(g) => Leave(g, all);
      case SetHandlers(g, onIn, onOut, onErr) => Change(g, onIn, onOut, onErr, all);
    }

    /** All calls made from a handler. */
    method PerformAll(ops: seq<Op>, ghost all: set<Fd>)
      requires Valid(all) && forall op :: op in ops ==> op.f in all
      modifies this, all
      ensures Valid(all) && Did(ops, all)
    {
      var k := 0;
      SparedAll(active);
      while k < |ops|
        invariant k <= |ops| && Valid(all) && Did(ops[..k], all)
      {
        hide Valid, Spared, AfterOps;
        assert ops[k] in ops && ops[..k + 1] == ops[..k] + [ops[k]];
        AfterOpsConcat(old(EntriesOf(all)), ops[..k], [ops[k]]);
        SparedConcat(old(active), ops[..k], [ops[k]]);
        Perform(ops[k], all);
        k := k + 1;
      }
      assert ops[..|ops|] == ops;
    }

    /** Call a handler of a descriptor that is registered, ready, and has that handler set. */
    method CallHandler(f: Fd, band: Band, ops: seq<Op>, ghost all: set<Fd>)
      requires Valid(all) && f in all && f.registered && Has(f.ready, band) && Handles(f, band)
      requires forall op :: op in ops ==> op.f in all
      modifies this, all
      ensures Valid(all) && Did(ops, all)
    {
      PerformAll(ops, all);
    }

    ghost predicate Known(script: seq<seq<Op>>, all: set<Fd>)
    {
      forall ops, op :: ops in script && op in ops ==> op.f in all
    }

    /** Where a pass stands that began with `found`: `ops` have been done since, and `waiting` were listed behind. */
    ghost predicate Midway(found: Found, ops: seq<Op>, waiting: seq<Fd>, all: set<Fd>)
      reads this, all
    {
      && Valid(all) && EntriesOf(all) == AfterOps(found.entries, ops) && found.ready.Keys == all
      && active == Spared(waiting, ops) && forall f :: f in active ==> f.ready == found.ready[f]
    }

    /** `f` is being served, unless it has been unregistered since the pass began. */
    ghost predicate Handling(f: Fd, found: Found, ops: seq<Op>, all: set<Fd>)
      reads this, all
    {
      && f in all && handled == (if Gone(f, ops) then null else f)
      && (handled == f ==> f in found.ready && f.ready == found.ready[f])
    }

    /** The n-th handler of the pass is called. */
    method CallNext(f: Fd, band: Band, n: nat, script: seq<seq<Op>>,
                    ghost found: Found, ghost waiting: seq<Fd>, ghost all: set<Fd>)
      requires Midway(found, Sofar(script, n), waiting, all) && Known(script, all)
      requires Handling(f, found, Sofar(script, n), all) && handled == f && Has(f.ready, band) && Handles(f, band)
      modifies this, all
      ensures Midway(found, Sofar(script, n + 1), waiting, all)
      ensures Handling(f, found, Sofar(script, n + 1), all)
    {
      var ops := Ops(script, n);
      ghost var done := Sofar(script, n);
      assert ops in script || ops == [];
      assert Sofar(script, n + 1) == done + ops;
      AfterOpsConcat(found.entries, done, ops);
      SparedConcat(waiting, done, ops);
      hide Valid, AfterOps, Spared, EntriesOf, Sofar, Ops;
      CallHandler(f, band, ops, all);
    }

    /** Call one handler of `f` if there is one and its band is ready; the k-th handler called does `script[k]`. */
    method Offer(f: Fd, band: Band, calls: seq<Call>, script: seq<seq<Op>>,
                 ghost found: Found, ghost waiting: seq<Fd>, ghost all: set<Fd>)
      returns (calls': seq<Call>)
      requires Midway(found, Sofar(script, |calls|), waiting, all) && Known(script, all)
      requires Handling(f, found, Sofar(script, |calls|), all) && handled == f
      modifies this, all
      ensures Midway(found, Sofar(script, |calls'|), waiting, all)
      ensures Handling(f, found, Sofar(script, |calls'|), all)
      ensures calls' == calls + MadeAt(Call(f, band), |calls|, found, script)
    {
      hide Spared, Distinct, Sofar;
      calls' := calls;
      assert EntriesOf(all)[f] == AfterOps(found.entries, Sofar(script, |calls|))[f];
      assert IsDue(found, script, |calls|, Call(f, band)) <==> Has(f.ready, band) && Handles(f, band);
      hide Midway, Handling, Known, IsDue;
      if Has(f.ready, band) && Handles(f, band) {
        CallNext(f, band, |calls|, script, found, waiting, all);
        calls' := calls + [Call(f, band)];
      }
    }

    /** Call the handlers of one descriptor, as long as it stays registered. */
    method Serve(f: Fd, calls: seq<Call>, script: seq<seq<Op>>,
                 ghost turns: seq<Call>, ghost found: Found, ghost waiting: seq<Fd>, ghost all: set<Fd>)
      returns (calls': seq<Call>)
      requires Midway(found, Sofar(script, |calls|), waiting, all) && Known(script, all)
      requires Handling(f, found, Sofar(script, |calls|), all) && handled == f
      requires calls == CallsMade(turns, found, script)
      modifies this, all
      ensures Midway(found, Sofar(script, |calls'|), waiting, all)
      ensures calls' == CallsMade(TurnsWith(turns, f), found, script)
    {
      hide Midway, Known, AfterOps, Sofar, CallsMade;
      MadeNext(turns, Call(f, Err), found, script);
      MadeNext(turns + [Call(f, Err)], Call(f, In), found, script);
      MadeNext(turns + [Call(f, Err)] + [Call(f, In)], Call(f, Out), found, script);
      calls' := Offer(f, Err, calls, script, found, waiting, all);
      if handled != null {
        calls' := Offer(f, In, calls', script, found, waiting, all);
      }
      if handled != null {
        calls' := Offer(f, Out, calls', script, found, waiting, all);
      }
    }

    /** Take the next descriptor off the list. */
    method Next(ghost all: set<Fd>) returns (f: Fd)
      requires Valid(all) && active != []
      modifies this
      ensures Valid(all) && f == old(active[0]) && active == old(active[1..]) && handled == f
    {
      f := active[0];
      assert f in active;
      TailDistinct(active);
      active := active[1..];
      handled := f;
    }

    /** One round of the loop below: the descriptors before the j-th of `order` have been served. */
    method ServeNext(calls: seq<Call>, script: seq<seq<Op>>,
                     ghost j: nat, ghost order: seq<Fd>, ghost found: Found, ghost all: set<Fd>)
      returns (calls': seq<Call>, ghost j': nat)
      requires j <= |order| && Midway(found, Sofar(script, |calls|), order[j..], all) && Known(script, all) && active != []
      requires calls == CallsMade(Turns(order[..j]), found, script)
      modifies this, all
      ensures j < j' <= |order| && Midway(found, Sofar(script, |calls'|), order[j'..], all)
      ensures calls' == CallsMade(Turns(order[..j']), found, script)
    {
      hide Distinct, CallsMade, Sofar, AfterOps, EntriesOf, Valid, Known, Spared, Turns, TurnsWith;
      ghost var i := NextSpared(order, j, found, script);
      j' := i + 1;
      var f := Next(all);
      assert Midway(found, Sofar(script, |calls|), order[j'..], all) && Handling(f, found, Sofar(script, |calls|), all);
      TurnsNext(order, i);
      hide Midway, Handling;
      calls' := Serve(f, calls, script, Turns(order[..i]), found, order[j'..], all);
    }

    /**
     The dispatch loop of `iv_fd_poll_and_run`, after any number of earlier ones; the k-th
     handler called does `script[k]`.  It ends, makes exactly the calls of `CallsMade`, and leaves the
     descriptors as these leave them.  So no handler is called twice, none for a
     band that was not found ready, and a descriptor that handlers leave alone gets exactly the
     calls it is due.
     */
    method Run(script: seq<seq<Op>>, ghost all: set<Fd>) returns (calls: seq<Call>)
      requires Valid(all) && Known(script, all)
      modifies this, all
      ensures Valid(all) && active == []
      ensures calls == CallsMade(Turns(old(active)), old(FoundBy(all)), script)
      ensures EntriesOf(all) == AfterOps(old(EntriesOf(all)), Sofar(script, |calls|))
      ensures Distinct(calls) && forall c :: c in calls ==> c.f in old(active)
      ensures forall c :: c in calls ==>
                match c.band case Err => old(c.f.ready.error) case In => old(c.f.ready.input) case Out => old(c.f.ready.output)
      ensures forall f :: f in old(active) && LeftAlone(f, script) ==>
                CallsOf(calls, f) == DueCalls(f, Bands(old(f.onIn), old(f.onOut), old(f.onErr)), old(f.ready))
      ensures forall f :: f in all && LeftAlone(f, script) ==>
                f.registered == old(f.registered) && f.onIn == old(f.onIn) && f.onOut == old(f.onOut) && f.onErr == old(f.onErr)
    {
      hide Distinct, Spared, CallsMade, LeftAlone, CallsOf, DueCalls, Turns;
      calls := [];
      ghost var found, order, j := FoundBy(all), active, 0;
      PassBegins(found, script, all);
      assert order[0..] == order && order[..0] == [];
      while active != []
        invariant j <= |order| && Midway(found, Sofar(script, |calls|), order[j..], all)
        invariant calls == CallsMade(Turns(order[..j]), found, script)
        decreases |order| - j
      {
        hide *;
        calls, j := ServeNext(calls, script, j, order, found, all);
      }
      hide AfterOps, Sofar;
      j := NextSpared(order, j, found, script);
      assert order[..|order|] == order;
      MadeProperly(order, calls, found, script);
      LeftAloneKept(found.entries, script, |calls|);
      assert forall f :: f in all ==> EntriesOf(all)[f] == EntryOf(f) && found.entries[f] == old(EntryOf(f));
    }

    lemma PassBegins(found: Found, script: seq<seq<Op>>, all: set<Fd>)
      requires Valid(all) && found == FoundBy(all)
      ensures Midway(found, Sofar(script, 0), active, all) && CallsMade(Turns([]), found, script) == []
    {
      SparedAll(active);
      NoTurns(found, script);
    }
  }
}
