/**
 Waiting for a deadline (src/iv_fd.c, src/iv_fd_epoll.c, src/iv_private.h): the
 latch that hands a deadline requested five times in a row to a kernel timer, and the
 conversion of deadlines to relative times.
 */
module Deadlines {
  import opened RadixTree
  import opened TimerQueue

  const SECOND := 1_000_000_000
  const LATCH := 5

  predicate Normal(t: Timespec)
  {
    t.sec >= 0 && 0 <= t.nsec < SECOND
  }

  function Nanos(t: Timespec): int
  {
    t.sec * SECOND + t.nsec
  }

  /** `timespec_cmp`: a missing deadline is later than any other. */
  function Compare(a: Option<Timespec>, b: Timespec): int
  {
    if a.None? || Gt(a.value, b) then 1 else if Gt(b, a.value) then -1 else 0
  }

  lemma NanosOrder(a: Timespec, b: Timespec)
    requires Normal(a) && Normal(b)
    ensures Gt(a, b) <==> Nanos(a) > Nanos(b)
    ensures a == b <==> Nanos(a) == Nanos(b)
  {
  }

  const ZERO := Timespec(0, 0)

  /** A kernel timer set to zero would be disarmed, so zero is replaced by one nanosecond. */
  function ArmTime(abs: Timespec): Timespec
  {
    if abs == ZERO then Timespec(0, 1) else abs
  }

  /** The earlier of two deadlines, either of which may be missing. */
  function Earlier(a: Option<Timespec>, b: Option<Timespec>): Option<Timespec>
  {
    if a.None? then b else if b.None? || Le(a.value, b.value) then a else b
  }

  /** At time `now`, with the deadline gone by, a sleeper that is to wake at `wake` sleeps on. */
  predicate Oversleeps(now: Timespec, abs: Timespec, wake: Timespec)
  {
    Gt(wake, abs) && Gt(wake, now) && Le(abs, now)
  }

  /**
   The state of the latch: whether the poll method with a kernel timer is in use, whether the
   timer has been created, and how often in a row which deadline has been asked for.
   */
  datatype Latch = Latch(usesTimer: bool, created: bool, count: int, lastAbs: Timespec)

  /** A deadline that is latched stays so until an earlier one is asked for. */
  predicate Latched(l: Latch, abs: Option<Timespec>)
  {
    l.count == LATCH && Compare(abs, l.lastAbs) >= 0
  }

  /** The fifth request in a row arms the kernel timer, if there is one. */
  predicate Fifth(l: Latch, abs: Option<Timespec>)
  {
    l.count == LATCH - 1 && Compare(abs, l.lastAbs) == 0
  }

  /** The kernel timer will take care of this deadline: it does already, or this is the fifth request in a row. */
  predicate Latches(l: Latch, supported: bool, abs: Option<Timespec>)
  {
    l.usesTimer && (Latched(l, abs) || (Fifth(l, abs) && (l.created || supported)))
  }

  /** How often in a row the deadline will have been asked for, and which one it is. */
  function NextCount(l: Latch, abs: Option<Timespec>): int
  {
    if Latched(l, abs) then LATCH
    else if abs.None? then 0
    else if abs.value == l.lastAbs then l.count + 1
    else 1
  }

  function NextAbs(l: Latch, abs: Option<Timespec>): Timespec
  {
    if Latched(l, abs) || abs.None? then l.lastAbs else abs.value
  }

  /** What the kernel timer is armed for while a poll with this deadline waits, if the poll relies on it. */
  function TimerFor(l: Latch, supported: bool, abs: Option<Timespec>): Option<Timespec>
  {
    if Latches(l, supported, abs) then Some(ArmTime(NextAbs(l, abs))) else None
  }

  /** The latch after a poll.  A timer that is found expired is used up, and the count starts again. */
  function AfterPoll(l: Latch, supported: bool, reported: bool, abs: Option<Timespec>): Latch
  {
    if !l.usesTimer then l else
      Latch(!Fifth(l, abs) || l.created || supported, l.created || (Fifth(l, abs) && supported),
            if reported && Latches(l, supported, abs) then 0 else NextCount(l, abs), NextAbs(l, abs))
  }

  /** Whether timers are to be run after the poll. */
  predicate AsksForTimers(l: Latch, supported: bool, reported: bool, abs: Option<Timespec>)
  {
    !AfterPoll(l, supported, reported, abs).usesTimer || if Latches(l, supported, abs) then reported else abs.Some?
  }

  class PollLatch {
    var lastAbs: Timespec
    var count: int
    /** Whether the poll method with a kernel timer is in use, and whether the timer has been created. */
    var usesTimer: bool
    var created: bool
    /** When the kernel timer will go off. */
    ghost var armed: Option<Timespec>

    /** A full count is a kernel timer armed at the latched deadline, and nothing else is. */
    ghost predicate Valid()
      reads this
    {
      && 0 <= count <= LATCH && Normal(lastAbs)
      && (armed.Some? <==> usesTimer && count == LATCH)
      && (armed.Some? ==> armed.value == ArmTime(lastAbs) && created)
    }

    function State(): Latch
      reads this
    {
      Latch(usesTimer, created, count, lastAbs)
    }

    constructor (usesTimer: bool)
      ensures Valid() && count == 0 && this.usesTimer == usesTimer
    {
      lastAbs, count, this.usesTimer, created, armed := ZERO, 0, usesTimer, false, None;
    }

    /** `iv_fd_epoll_timerfd_set_poll_timeout`; without kernel support another method takes over. */
    method SetPollTimeout(abs: Timespec, supported: bool) returns (ok: bool)
      modifies this`usesTimer, this`created, this`armed
      ensures ok == (old(created) || supported)
      ensures if ok then usesTimer == old(usesTimer) && created && armed == Some(ArmTime(abs))
              else !usesTimer && created == old(created) && armed == old(armed)
    {
      if !created && !supported {
        usesTimer := false;
        return false;
      }
      created := true;
      armed := Some(ArmTime(abs));
      return true;
    }

    /** `iv_fd_timeout_check`: whether the kernel timer takes care of the deadline. */
    method TimeoutCheck(abs: Option<Timespec>, supported: bool) returns (latched: bool)
      requires Valid() && usesTimer && (abs.Some? ==> Normal(abs.value))
      modifies this
      ensures Valid() && (latched <==> armed.Some?) && latched == Latches(old(State()), supported, abs)
      ensures State() == AfterPoll(old(State()), supported, false, abs)
      ensures latched && abs.Some? ==> Le(lastAbs, abs.value)
    {
      var cmp := Compare(abs, lastAbs);
      if count == LATCH {
        if cmp >= 0 {
          return true;
        }
        armed := None;
      }
      if cmp == 0 {
        if count < LATCH {
          count := count + 1;
        }
        if count == LATCH {
          latched := SetPollTimeout(abs.value, supported);
          return;
        }
      } else if abs.Some? {
        count := 1;
        lastAbs := abs.value;
      } else {
        count := 0;
      }
      return false;
    }

    /**
     The waiting part of `iv_fd_poll_and_run`.  The kernel waits until `wake`, the earlier
     of its timer, armed for `timer`, and the deadline `passed` to poll; `reported` is
     whether it finds the timer expired.
     */
    method Poll(abs: Option<Timespec>, supported: bool, reported: bool)
      returns (passed: Option<Timespec>, runTimers: bool, ghost wake: Option<Timespec>, ghost timer: Option<Timespec>)
      requires Valid() && (abs.Some? ==> Normal(abs.value))
      modifies this
      ensures Valid() && passed in {None, abs}
      // The wait is never longer than asked for, except by a nanosecond when a zero deadline is latched.
      ensures abs.Some? ==>
              wake.Some? && (Gt(wake.value, abs.value) <==> abs.value == ZERO && Latches(old(State()), supported, abs))
      ensures abs.Some? && Gt(wake.value, abs.value) ==> wake.value == Timespec(0, 1)
      // So once the clock has started to run, nobody sleeps past a deadline.
      ensures abs.Some? ==> forall now :: Le(Timespec(0, 1), now) ==> !Oversleeps(now, abs.value, wake.value)
      ensures abs.None? && wake.Some? ==> passed.None? && wake == Some(ArmTime(lastAbs))
      ensures wake == Earlier(timer, passed) && timer == TimerFor(old(State()), supported, abs)
      ensures passed == if timer.Some? then None else abs
      ensures State() == AfterPoll(old(State()), supported, reported, abs)
      ensures runTimers == AsksForTimers(old(State()), supported, reported, abs)
      ensures runTimers <==> !usesTimer || passed.Some? || (reported && timer.Some?)
      ensures usesTimer <==> old(usesTimer) && (old(count) == LATCH - 1 && abs == Some(old(lastAbs)) ==> old(created) || supported)
      // A poll after which timers are not run leaves a kernel timer behind that covers the deadline.
      ensures !runTimers ==> usesTimer && passed.None? &&
                             (abs.Some? ==> armed.Some? && armed == wake && Le(lastAbs, abs.value))
    {
      var latched := false;
      if usesTimer {
        latched := TimeoutCheck(abs, supported);
      }
      passed := if latched then None else abs;
      timer := armed;
      wake := Earlier(armed, passed);
      if usesTimer {
        runTimers := passed.Some?;
        if reported && latched {
          armed := None;
          count := 0;
          runTimers := true;
        }
      } else {
        runTimers := true;
      }
    }
  }

  /** A timer armed for a zero deadline goes off after it; for any other deadline it does not. */
  lemma ZeroIsArmedLate(abs: Timespec)
    ensures Gt(ArmTime(abs), abs) <==> abs == ZERO
    ensures abs != ZERO ==> ArmTime(abs) == abs
    ensures ArmTime(ZERO) == Timespec(0, 1)
  {
  }

  /**
   Asking for the same deadline five times in a row latches it: the last wait is left to
   the kernel timer, which goes off too late exactly for a deadline of zero.
   */
  method FiveRequests(abs: Timespec) returns (latch: PollLatch, ghost wake: Option<Timespec>)
    requires Normal(abs)
    ensures latch.Valid() && latch.count == LATCH && latch.armed == Some(ArmTime(abs))
    ensures wake == Some(ArmTime(abs)) && (Gt(wake.value, abs) <==> abs == ZERO)
  {
    latch := new PollLatch(true);
    wake := None;
    var k := 0;
    while k < LATCH
      invariant 0 <= k <= LATCH && latch.Valid() && latch.usesTimer && latch.count == k && fresh(latch)
      invariant k > 0 ==> latch.lastAbs == abs
      invariant k == LATCH ==> wake == Some(ArmTime(abs))
    {
      var passed, runTimers;
      ghost var timer;
      passed, runTimers, wake, timer := latch.Poll(Some(abs), true, false);
      k := k + 1;
    }
  }

  // ---------- Many polls ----------

  datatype Request = Request(abs: Option<Timespec>, supported: bool, reported: bool)

  function LatchAfter(l: Latch, requests: seq<Request>): Latch
  {
    if requests == [] then l else
      var n := |requests| - 1;
      var r := requests[n];
      AfterPoll(LatchAfter(l, requests[..n]), r.supported, r.reported, r.abs)
  }

  /** The count says how many requests in a row have asked for the same deadline. */
  lemma {:induction false} CountsInARow(l: Latch, requests: seq<Request>)
    requires l.count == 0
    ensures var x := LatchAfter(l, requests);
      x.usesTimer ==>
        && 0 <= x.count <= LATCH
        && (x.count < LATCH ==>
              x.count <= |requests| && forall k :: |requests| - x.count <= k < |requests| ==> requests[k].abs == Some(x.lastAbs))
  {
    if requests != [] {
      var n := |requests| - 1;
      CountsInARow(l, requests[..n]);
      assert forall k :: 0 <= k < n ==> requests[..n][k] == requests[k];
    }
  }

  /** The kernel timer is armed for a deadline only when it has been asked for five times in a row. */
  lemma ArmedAfterFive(l: Latch, requests: seq<Request>, r: Request)
    requires l.count == 0
    requires var x := LatchAfter(l, requests); x.count != LATCH && TimerFor(x, r.supported, r.abs).Some?
    ensures r.abs.Some? && |requests| >= LATCH - 1
    ensures forall k :: |requests| - (LATCH - 1) <= k < |requests| ==> requests[k].abs == r.abs
    ensures TimerFor(LatchAfter(l, requests), r.supported, r.abs) == Some(ArmTime(r.abs.value))
  {
    CountsInARow(l, requests);
  }

  /** It stays armed until it is found expired or an earlier deadline is asked for. */
  lemma {:induction false} StaysArmed(l: Latch, requests: seq<Request>)
    requires l.usesTimer && l.count == LATCH
    requires forall r :: r in requests ==> !r.reported && (r.abs.Some? ==> Le(l.lastAbs, r.abs.value))
    ensures LatchAfter(l, requests) == l
  {
    if requests != [] {
      var n := |requests| - 1;
      assert requests[n] in requests;
      StaysArmed(l, requests[..n]);
    }
  }

  // ---------- Relative times ----------

  /** `to_relative`. */
  function ToRelative(now: Timespec, abs: Timespec): Timespec
  {
    if Gt(abs, now) then
      var sec, nsec := abs.sec - now.sec, abs.nsec - now.nsec;
      if nsec < 0 then Timespec(sec - 1, nsec + SECOND) else Timespec(sec, nsec)
    else
      ZERO
  }

  /** `to_msec`: rounded up, and at most one day. */
  function ToMsec(now: Timespec, abs: Option<Timespec>): int
  {
    if abs.None? then -1 else
      var rel := ToRelative(now, abs.value);
      if rel.sec < 86400 then 1000 * rel.sec + (rel.nsec + 999_999) / 1_000_000 else 86400_000
  }

  lemma RelativeIsExact(now: Timespec, abs: Timespec)
    requires Normal(now) && Normal(abs)
    ensures var rel := ToRelative(now, abs);
      Normal(rel) && Nanos(rel) == if Nanos(abs) > Nanos(now) then Nanos(abs) - Nanos(now) else 0
  {
    NanosOrder(abs, now);
  }

  /** The millisecond wait is shorter than the exact one only when it is cut to a day, and longer by less than 1 ms. */
  lemma MsecRoundsUp(now: Timespec, abs: Timespec)
    requires Normal(now) && Normal(abs)
    ensures var wait, ms := Nanos(ToRelative(now, abs)), ToMsec(now, Some(abs));
      && 0 <= ms <= 86400_000
      && (wait < 86400 * SECOND ==> wait <= ms * 1_000_000 < wait + 1_000_000)
      && (wait >= 86400 * SECOND ==> ms == 86400_000)
      && (ms == 0 <==> Nanos(abs) <= Nanos(now))
  {
    RelativeIsExact(now, abs);
    var rel := ToRelative(now, abs);
    var q := (rel.nsec + 999_999) / 1_000_000;
    assert rel.nsec <= q * 1_000_000 < rel.nsec + 1_000_000;
    assert q <= 1000;
  }
}
