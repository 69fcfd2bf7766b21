/**
 Hand-off of signals between the process-wide interests of src/iv_signal.c.

 Threads register and unregister interests, signals arrive, and every interest
 runs its handler in its own thread some time after it was woken.  Each signal is
 followed through the wakeups that carry it until a handler runs for it.
 */
module SignalHandOff {
  import opened Signals

  type SignalNo = nat

  /** One arrival of a signal; `staying` are the interests registered ever since. */
  datatype Arrival = Arrival(signum: nat, staying: set<Interest>)

  /**
   `active` and `posted` are the flag of an interest and its raw event; `taken` are the
   interests whose event has been taken but that have not cleared their flag yet.
   `carries` says which arrivals woke an interest since it last ran, `handled` for which
   arrivals a handler has run.
   */
  datatype State = State(
    live: set<Interest>, active: set<Interest>, posted: set<Interest>, taken: set<Interest>,
    arrivals: seq<Arrival>, carries: map<Interest, set<SignalNo>>, handled: set<SignalNo>)

  function Init(): State
  {
    State({}, {}, {}, {}, [], map[], {})
  }

  ghost function Carried(s: State, i: Interest): set<SignalNo>
  {
    if i in s.carries then s.carries[i] else {}
  }

  /** Wake everybody the signal goes to, with these arrivals. */
  ghost function Wake(s: State, signum: nat, load: set<SignalNo>): State
  {
    var w := Woken(s.live, signum);
    s.(active := s.active + w, posted := s.posted + w,
       carries := map i | i in s.carries.Keys + w :: if i in w then Carried(s, i) + load else Carried(s, i))
  }

  datatype Step =
    | Register(i: Interest)
    | Unregister(i: Interest)
    | Signal(signum: nat)
    | Take(i: Interest)
    | Handle(i: Interest)

  predicate Enabled(s: State, a: Step)
  {
    match a
    case Register(i) => i !in s.live
    case Unregister(i) => i in s.live && i !in s.taken
    case Signal(_) => true
    case Take(i) => i in s.posted && i !in s.taken
    case Handle(i) => i in s.taken
  }

  ghost function Leave(s: State, i: Interest): State
  {
    s.(live := s.live - {i}, active := s.active - {i}, posted := s.posted - {i}, carries := s.carries - {i},
       arrivals := seq(|s.arrivals|, g requires 0 <= g < |s.arrivals| =>
                         s.arrivals[g].(staying := s.arrivals[g].staying - {i})))
  }

  ghost function Apply(s: State, a: Step): State
  {
    match a
    case Register(i) => s.(live := s.live + {i})
    case Unregister(i) =>
      if i.exclusive && i in s.active then Wake(Leave(s, i), i.signum, Carried(s, i)) else Leave(s, i)
    case Signal(signum) =>
      Wake(s.(arrivals := s.arrivals + [Arrival(signum, Interested(s.live, signum))]), signum, {|s.arrivals|})
    case Take(i) => s.(posted := s.posted - {i}, taken := s.taken + {i})
    case Handle(i) => s.(taken := s.taken - {i}, active := s.active - {i}, carries := s.carries - {i},
                         handled := s.handled + Carried(s, i))
  }

  ghost predicate Legal(s: State, run: seq<Step>)
    decreases |run|
  {
    run == [] || (Enabled(s, run[0]) && Legal(Apply(s, run[0]), run[1..]))
  }

  ghost function Exec(s: State, run: seq<Step>): State
    requires Legal(s, run)
    decreases |run|
  {
    if run == [] then s else Exec(Apply(s, run[0]), run[1..])
  }

  // ---------- The invariant ----------

  /** An exclusive interest carries the arrival, or everybody who stayed does. */
  ghost predicate InGoodHands(s: State, g: SignalNo)
    requires g < |s.arrivals|
  {
    || (exists x :: x in s.live && x.exclusive && x.signum == s.arrivals[g].signum && g in Carried(s, x))
    || (forall i :: i in s.arrivals[g].staying ==> g in Carried(s, i))
  }

  ghost predicate Inv(s: State)
  {
    && s.active <= s.live && s.posted <= s.live && s.taken <= s.live
    && (forall i :: i in s.active ==> i in s.posted || i in s.taken)
    && (forall i :: i in s.carries ==> i in s.active)
    && (forall g :: 0 <= g < |s.arrivals| ==>
          forall i :: i in s.arrivals[g].staying ==> i in s.live && i.signum == s.arrivals[g].signum)
    && (forall g :: 0 <= g < |s.arrivals| && g !in s.handled && s.arrivals[g].staying != {} ==> InGoodHands(s, g))
  }

  lemma WokenFacts(live: set<Interest>, signum: nat)
    ensures Woken(live, signum) <= Interested(live, signum)
    ensures Exclusives(live, signum) != {} ==>
            exists x :: x in Woken(live, signum) && x in live && x.exclusive && x.signum == signum
    ensures Exclusives(live, signum) == {} ==> Woken(live, signum) == Interested(live, signum)
  {
    if Exclusives(live, signum) != {} {
      var x := OneExclusive(live, signum);
      assert x in Woken(live, signum);
    }
  }

  /** What a wakeup changes, point by point. */
  lemma WakeFacts(s: State, signum: nat, load: set<SignalNo>)
    ensures var s' := Wake(s, signum, load);
      && s'.live == s.live && s'.taken == s.taken && s'.arrivals == s.arrivals && s'.handled == s.handled
      && s'.active == s.active + Woken(s.live, signum) && s'.posted == s.posted + Woken(s.live, signum)
      && s'.carries.Keys == s.carries.Keys + Woken(s.live, signum)
      && (forall i :: Carried(s, i) <= Carried(s', i))
      && (forall i :: i in Woken(s.live, signum) ==> load <= Carried(s', i))
  {
  }

  /** After a wakeup for its number an arrival in the load is in good hands. */
  lemma WakePasses(s: State, signum: nat, load: set<SignalNo>, g: SignalNo)
    requires g < |s.arrivals| && g in load && s.arrivals[g].signum == signum
    requires s.arrivals[g].staying <= Interested(s.live, signum)
    ensures InGoodHands(Wake(s, signum, load), g)
  {
    WakeFacts(s, signum, load);
    WokenFacts(s.live, signum);
    hide Woken, Wake;
  }

  lemma WakeKeepsHands(s: State, signum: nat, load: set<SignalNo>, g: SignalNo)
    requires g < |s.arrivals| && InGoodHands(s, g)
    ensures InGoodHands(Wake(s, signum, load), g)
  {
    WakeFacts(s, signum, load);
    hide Woken, Wake;
  }

  lemma SignalKeeps(s: State, signum: nat)
    requires Inv(s)
    ensures Inv(Apply(s, Signal(signum)))
  {
    var load, s1 := {|s.arrivals|}, s.(arrivals := s.arrivals + [Arrival(signum, Interested(s.live, signum))]);
    var s' := Wake(s1, signum, load);
    WakeFacts(s1, signum, load);
    WokenFacts(s.live, signum);
    forall g | 0 <= g < |s'.arrivals| && g !in s'.handled && s'.arrivals[g].staying != {}
      ensures InGoodHands(s', g)
    {
      if g == |s.arrivals| {
        WakePasses(s1, signum, load, g);
      } else {
        assert InGoodHands(s, g) && InGoodHands(s1, g);
        WakeKeepsHands(s1, signum, load, g);
      }
    }
    hide Woken, Wake, InGoodHands;
  }

  lemma LeaveFacts(s: State, i: Interest, g: SignalNo)
    requires Inv(s) && g < |s.arrivals|
    requires g !in s.handled && s.arrivals[g].staying - {i} != {}
    ensures var s' := Leave(s, i);
      InGoodHands(s', g) || (i.exclusive && i.signum == s.arrivals[g].signum && i in s.active && g in Carried(s, i))
  {
    assert InGoodHands(s, g);
    var s' := Leave(s, i);
    assert forall x :: x != i ==> Carried(s', x) == Carried(s, x);
    assert s'.arrivals[g].staying == s.arrivals[g].staying - {i};
  }

  lemma UnregisterKeeps(s: State, i: Interest)
    requires Inv(s) && Enabled(s, Unregister(i))
    ensures Inv(Apply(s, Unregister(i)))
  {
    var s1, s' := Leave(s, i), Apply(s, Unregister(i));
    WakeFacts(s1, i.signum, Carried(s, i));
    WokenFacts(s1.live, i.signum);
    forall g | 0 <= g < |s'.arrivals| && g !in s'.handled && s'.arrivals[g].staying != {}
      ensures InGoodHands(s', g)
    {
      LeaveFacts(s, i, g);
      if i.exclusive && i in s.active {
        if InGoodHands(s1, g) {
          WakeKeepsHands(s1, i.signum, Carried(s, i), g);
        } else {
          WakePasses(s1, i.signum, Carried(s, i), g);
        }
      }
    }
    hide Woken, Wake, InGoodHands;
  }

  lemma HandleKeeps(s: State, i: Interest)
    requires Inv(s) && Enabled(s, Handle(i))
    ensures Inv(Apply(s, Handle(i)))
  {
    var s' := Apply(s, Handle(i));
    assert forall x :: x != i ==> Carried(s', x) == Carried(s, x);
    forall g | 0 <= g < |s'.arrivals| && g !in s'.handled && s'.arrivals[g].staying != {}
      ensures InGoodHands(s', g)
    {
      assert InGoodHands(s, g);
    }
    hide InGoodHands;
  }

  lemma StepKeeps(s: State, a: Step)
    requires Inv(s) && Enabled(s, a)
    ensures Inv(Apply(s, a))
  {
    match a {
      case Signal(signum) => SignalKeeps(s, signum);
      case Unregister(i) => UnregisterKeeps(s, i);
      case Handle(i) => HandleKeeps(s, i);
      case Register(i) => FlagsOnly(s, a);
      case Take(i) => FlagsOnly(s, a);
    }
  }

  lemma FlagsOnly(s: State, a: Step)
    requires Inv(s) && Enabled(s, a) && (a.Register? || a.Take?)
    ensures Inv(Apply(s, a))
  {
    var s' := Apply(s, a);
    forall g | 0 <= g < |s'.arrivals| && g !in s'.handled && s'.arrivals[g].staying != {}
      ensures InGoodHands(s', g)
    {
      assert InGoodHands(s, g);
    }
    hide InGoodHands;
  }

  lemma {:induction false} RunKeeps(s: State, run: seq<Step>)
    requires Inv(s) && Legal(s, run)
    ensures Inv(Exec(s, run))
    decreases |run|
  {
    hide Inv, Apply, Enabled;
    if run != [] {
      StepKeeps(s, run[0]);
      RunKeeps(Apply(s, run[0]), run[1..]);
    }
  }

  // ---------- Who is registered ----------

  predicate Concerns(a: Step, i: Interest)
  {
    a == Register(i) || a == Unregister(i)
  }

  lemma LiveAfter(s: State, a: Step, i: Interest)
    ensures i in Apply(s, a).live <==> a == Register(i) || (i in s.live && a != Unregister(i))
  {
  }

  lemma {:induction false} StaysLive(s: State, run: seq<Step>, i: Interest)
    requires Legal(s, run) && forall a :: a in run ==> !Concerns(a, i)
    ensures i in Exec(s, run).live <==> i in s.live
    decreases |run|
  {
    if run != [] {
      assert run[0] in run;
      LiveAfter(s, run[0], i);
      hide Apply, Enabled;
      StaysLive(Apply(s, run[0]), run[1..], i);
    }
  }

  /** An interest is registered exactly if the last step about it registered it, and a signal then counts it. */
  lemma {:induction false} LiveSince(s: State, run: seq<Step>, j: nat, i: Interest)
    requires Legal(s, run) && j < |run| && Concerns(run[j], i) && forall a :: a in run[j + 1..] ==> !Concerns(a, i)
    ensures i in Exec(s, run).live <==> run[j] == Register(i)
    decreases |run|
  {
    LiveAfter(s, run[0], i);
    hide Apply, Enabled;
    if j == 0 {
      StaysLive(Apply(s, run[0]), run[1..], i);
    } else {
      assert run[1..][j..] == run[j + 1..];
      LiveSince(Apply(s, run[0]), run[1..], j - 1, i);
    }
  }

  /** A signal goes down with all who are interested in it then. */
  lemma ArrivalCounts(s: State, signum: nat, i: Interest)
    ensures var s' := Apply(s, Signal(signum));
      && |s'.arrivals| == |s.arrivals| + 1 && s'.arrivals[|s.arrivals|].signum == signum
      && (i in s'.arrivals[|s.arrivals|].staying <==> i in s.live && i.signum == signum)
  {
  }

  // ---------- Nobody is woken for nothing ----------

  /** The arrivals are of this number. */
  ghost predicate AllOf(arrivals: seq<Arrival>, load: set<SignalNo>, signum: nat)
  {
    forall g :: g in load ==> g < |arrivals| && arrivals[g].signum == signum
  }

  /** Whoever is active carries an arrival, and arrivals are carried by interests in their number only. */
  ghost predicate Purposeful(s: State)
  {
    && (forall i :: i in s.active ==> Carried(s, i) != {})
    && (forall i :: AllOf(s.arrivals, Carried(s, i), i.signum))
  }

  lemma WakePurposeful(s: State, signum: nat, load: set<SignalNo>)
    requires Purposeful(s) && load != {} && AllOf(s.arrivals, load, signum)
    ensures Purposeful(Wake(s, signum, load))
  {
    WokenFacts(s.live, signum);
    var w, s' := Woken(s.live, signum), Wake(s, signum, load);
    hide Woken;
    forall i
      ensures Carried(s', i) == if i in w then Carried(s, i) + load else Carried(s, i)
      ensures i in s'.active ==> Carried(s', i) != {}
      ensures AllOf(s'.arrivals, Carried(s', i), i.signum)
    {
      assert AllOf(s.arrivals, Carried(s, i), i.signum);
      var x :| x in load;
      assert i in w ==> x in Carried(s', i);
    }
  }

  /** Arrivals may be added, and lose interests, but keep their numbers. */
  lemma SamePurpose(s: State, s': State)
    requires Purposeful(s) && s'.active <= s.active && |s.arrivals| <= |s'.arrivals|
    requires forall g :: 0 <= g < |s.arrivals| ==> s'.arrivals[g].signum == s.arrivals[g].signum
    requires forall i :: i in s'.active ==> Carried(s', i) == Carried(s, i)
    requires forall i :: Carried(s', i) <= Carried(s, i)
    ensures Purposeful(s')
  {
    forall i
      ensures AllOf(s'.arrivals, Carried(s', i), i.signum)
    {
      assert AllOf(s.arrivals, Carried(s, i), i.signum);
    }
  }

  lemma StepPurposeful(s: State, a: Step)
    requires Purposeful(s) && Enabled(s, a)
    ensures Purposeful(Apply(s, a))
  {
    match a {
      case Signal(signum) =>
        var s1 := s.(arrivals := s.arrivals + [Arrival(signum, Interested(s.live, signum))]);
        SamePurpose(s, s1);
        WakePurposeful(s1, signum, {|s.arrivals|});
      case Unregister(i) =>
        SamePurpose(s, Leave(s, i));
        if i.exclusive && i in s.active {
          assert AllOf(s.arrivals, Carried(s, i), i.signum);
          WakePurposeful(Leave(s, i), i.signum, Carried(s, i));
        }
      case _ =>
        SamePurpose(s, Apply(s, a));
    }
  }

  lemma {:induction false} RunPurposeful(s: State, run: seq<Step>)
    requires Purposeful(s) && Legal(s, run)
    ensures Purposeful(Exec(s, run))
    decreases |run|
  {
    hide Purposeful, Apply, Enabled;
    if run != [] {
      StepPurposeful(s, run[0]);
      RunPurposeful(Apply(s, run[0]), run[1..]);
    }
  }

  /** An interest is active only because a signal of its number has arrived, or has been handed on, since it last ran. */
  lemma WokenForASignal(run: seq<Step>, i: Interest) returns (g: SignalNo)
    requires Legal(Init(), run) && i in Exec(Init(), run).active
    ensures var s := Exec(Init(), run); g in Carried(s, i) && g < |s.arrivals| && s.arrivals[g].signum == i.signum
  {
    RunPurposeful(Init(), run);
    var s := Exec(Init(), run);
    assert AllOf(s.arrivals, Carried(s, i), i.signum);
    g :| g in Carried(s, i);
  }

  /** An unregistration wakes others only if it leaves an exclusive wakeup unconsumed, and then those the signal is for without it. */
  lemma HandsOn(s: State, i: Interest, x: Interest)
    requires Enabled(s, Unregister(i)) && x != i
    ensures x in Apply(s, Unregister(i)).posted <==>
            x in s.posted || (i.exclusive && i in s.active && x in Woken(s.live - {i}, i.signum))
  {
    WakeFacts(Leave(s, i), i.signum, Carried(s, i));
    hide Woken, Wake;
  }

  /** Nothing is left to do for the library. */
  ghost predicate Quiet(s: State)
  {
    forall i :: !Enabled(s, Take(i)) && !Enabled(s, Handle(i))
  }

  lemma QuietCarriesNothing(s: State, x: Interest)
    requires Inv(s) && Quiet(s)
    ensures Carried(s, x) == {}
  {
    hide InGoodHands;
    assert !Enabled(s, Take(x)) && !Enabled(s, Handle(x));
  }

  /** The library has at most two things to do for every event posted. */
  lemma {:induction false} ComesToRest(s: State, run: seq<Step>)
    requires Legal(s, run) && forall k :: 0 <= k < |run| ==> run[k].Take? || run[k].Handle?
    ensures |run| <= 2 * |s.posted| + |s.taken|
    decreases |run|
  {
    if run != [] {
      ComesToRest(Apply(s, run[0]), run[1..]);
    }
  }

  /**
   No signal is lost: in every run, once the woken threads have run, a handler has been
   called for every signal that arrived, unless all who were interested in it then have
   unregistered since.
   */
  lemma NoSignalLost(run: seq<Step>, g: SignalNo)
    requires Legal(Init(), run) && Quiet(Exec(Init(), run)) && g < |Exec(Init(), run).arrivals|
    ensures var s := Exec(Init(), run); g in s.handled || s.arrivals[g].staying == {}
  {
    RunKeeps(Init(), run);
    var s := Exec(Init(), run);
    forall x
      ensures Carried(s, x) == {}
    {
      QuietCarriesNothing(s, x);
    }
    hide Carried, Quiet, Exec, Legal;
  }
}
