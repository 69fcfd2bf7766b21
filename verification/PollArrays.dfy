/**
 The arrays handed to poll(2) (src/iv_fd_poll.c): dense, with each descriptor
 knowing its own position, so that it can be taken out by moving the last entry.
 */
module PollArrays {
  import opened FdTable

  const MAXFD := 65536

  datatype Events = Events(input: bool, output: bool, hangup: bool)

  /** `bits_to_poll_mask` of this poll method. */
  function ToEvents(b: Bands): Events { Events(b.input, b.output, b.input || b.output || b.error) }

  datatype Entry = Entry(fd: int, events: Events)

  /** Distinct numbers below `n` fill at most `n` places. */
  lemma {:induction false} NumbersFit(s: seq<int>, n: nat)
    requires forall i :: 0 <= i < |s| ==> 0 <= s[i] < n
    requires forall i, j :: 0 <= i < j < |s| ==> s[i] != s[j]
    ensures |s| <= n
  {
    if s != [] {
      assert 0 <= s[0] < n;
      if n - 1 in s {
        var k :| 0 <= k < |s| && s[k] == n - 1;
        var r := s[..k] + s[k + 1..];
        assert forall i :: 0 <= i < |r| ==> r[i] == s[if i < k then i else i + 1];
        NumbersFit(r, n - 1);
      } else {
        NumbersFit(s, n - 1);
      }
    }
  }

  class PollSet {
    const pfds: array<Entry>
    const fds: array<Fd?>
    var num: nat
    /** The registered descriptors. */
    ghost var members: set<Fd>

    ghost predicate MemberOk(f: Fd)
      reads this, f, fds
    {
      && 0 <= f.fd < MAXFD && (f.index == -1 <==> f.wanted == NONE)
      && (f.index != -1 ==> 0 <= f.index < num && f.index < fds.Length && fds[f.index] == f)
    }

    /** The first `num` entries are exactly the descriptors that want something. */
    ghost predicate Valid()
      reads this, members, pfds, fds
    {
      && pfds.Length == fds.Length == MAXFD && num <= MAXFD
      && (forall i :: 0 <= i < num ==> fds[i] != null && fds[i] in members && fds[i].index == i)
      && (forall i :: 0 <= i < num ==> pfds[i] == Entry(fds[i].fd, ToEvents(fds[i].wanted)))
      && (forall f :: f in members ==> MemberOk(f))
      && (forall f, g :: f in members && g in members && f != g ==> f.fd != g.fd)
    }

    /** What poll(2) is asked: for each descriptor with bands, its number and these bands, and always for hang-ups. */
    ghost predicate Polls()
      reads this, members, pfds, fds
      requires Valid()
    {
      && (forall g :: g in members ==>
            (g.wanted.input || g.wanted.output || g.wanted.error <==> exists i :: 0 <= i < num && fds[i] == g))
      && (forall i :: 0 <= i < num ==>
            && pfds[i].fd == fds[i].fd && pfds[i].events.hangup
            && pfds[i].events.input == fds[i].wanted.input && pfds[i].events.output == fds[i].wanted.output)
    }

    constructor ()
      ensures Valid() && num == 0 && members == {} && fresh(pfds) && fresh(fds)
    {
      pfds := new Entry[MAXFD](_ => Entry(0, Events(false, false, false)));
      fds := new Fd?[MAXFD](_ => null);
      num, members := 0, {};
    }

    /** The arrays cannot overflow: descriptor numbers are distinct and below their length. */
    lemma RoomForOne(f: Fd)
      requires Valid() && f in members && f.index == -1
      ensures num < MAXFD
    {
      var p := pfds[..num];
      var s := seq(|p|, i requires 0 <= i < |p| => p[i].fd);
      assert forall i :: 0 <= i < num ==> s[i] == fds[i].fd && fds[i] in members && fds[i].index == i && fds[i] != f;
      NumbersFit(s + [f.fd], MAXFD);
    }

    /** `iv_fd_poll_register_fd`. */
    method Register(f: Fd)
      requires Valid() && f !in members && 0 <= f.fd < MAXFD && f.wanted == NONE
      requires forall g :: g in members ==> g.fd != f.fd
      modifies this`members, f`index
      ensures Valid() && members == old(members) + {f} && !InBounds(f.index, NONE)
    {
      f.index := -1;
      members := members + {f};
    }

    method Append(f: Fd, wanted: Bands)
      requires Valid() && f in members && f.index == -1 && wanted != NONE
      modifies this`num, pfds, fds, f`index, f`wanted
      ensures Valid() && f.wanted == wanted && num == old(num) + 1
    {
      RoomForOne(f);
      f.wanted := wanted;
      f.index := num;
      num := num + 1;
      pfds[f.index] := Entry(f.fd, ToEvents(f.wanted));
      fds[f.index] := f;
    }

    /** Move the last entry to the place of `f`. */
    method Remove(f: Fd)
      requires Valid() && f in members && f.index != -1
      modifies this`num, pfds, fds, members`index, f`wanted
      ensures Valid() && f.wanted == NONE && num == old(num) - 1
    {
      f.wanted := NONE;
      num := num - 1;
      if f.index != num {
        pfds[f.index] := pfds[num];
        var last: Fd := fds[num];
        last.index := f.index;
        fds[f.index] := last;
      }
      f.index := -1;
    }

    method Change(f: Fd, wanted: Bands)
      requires Valid() && f in members && f.index != -1 && wanted != NONE
      modifies pfds, f`wanted
      ensures Valid() && f.wanted == wanted
    {
      f.wanted := wanted;
      pfds[f.index] := Entry(pfds[f.index].fd, ToEvents(f.wanted));
    }

    /**
     `iv_fd_poll_notify_fd`, after the wanted bands have become `wanted`.  A descriptor that
     is not in the arrays and wants nothing would fall into the last branch and write
     outside of them: see `WritesInside`.
     */
    method Notify(f: Fd, wanted: Bands)
      requires Valid() && f in members && InBounds(f.index, wanted)
      modifies this`num, pfds, fds, members`index, f`wanted
      ensures Valid() && f.wanted == wanted
      ensures num == old(num) + (if wanted != NONE then 1 else 0) - (if old(f.wanted) != NONE then 1 else 0)
      ensures forall g :: g in members && g != f ==> g.wanted == old(g.wanted)
      ensures Polls()
    {
      if f.index == -1 && wanted != NONE {
        Append(f, wanted);
      } else if f.index != -1 && wanted == NONE {
        Remove(f);
      } else {
        Change(f, wanted);
      }
      AsksForBands();
    }

    lemma AsksForBands()
      requires Valid()
      ensures Polls()
    {
      forall g | g in members && g.wanted != NONE
        ensures exists i :: 0 <= i < num && fds[i] == g
      {
        assert MemberOk(g) && fds[g.index] == g;
      }
      forall i | 0 <= i < num
        ensures fds[i].wanted != NONE
      {
        assert MemberOk(fds[i]);
      }
    }

    /** The entry that `iv_fd_poll_notify_fd` writes is in the arrays in every case but one. */
    lemma WritesInside(f: Fd, wanted: Bands)
      requires Valid() && f in members
      ensures 0 <= Target(f.index, num, wanted) < MAXFD <==> InBounds(f.index, wanted)
    {
      if f.index == -1 {
        RoomForOne(f);
      }
    }

    /**
     The one case is that of any registered descriptor without handlers, for example one just
     registered: a further notification without bands writes the entry before the first.
     */
    lemma BeforeTheFirst(f: Fd)
      requires Valid() && f in members
      ensures f.wanted == NONE <==> Target(f.index, num, NONE) == -1
    {
    }

    /** Taking a descriptor out of the table, as `iv_fd_unregister` does through the last notification. */
    method Unregister(f: Fd)
      requires Valid() && f in members && InBounds(f.index, NONE)
      modifies this`num, this`members, pfds, fds, members`index, f`wanted
      ensures Valid() && members == old(members) - {f}
      ensures forall i :: 0 <= i < num ==> fds[i] != f
    {
      Notify(f, NONE);
      members := members - {f};
    }
  }

  /** The place that `iv_fd_poll_notify_fd` writes to. */
  function Target(index: int, num: int, wanted: Bands): int
  {
    if index == -1 && wanted != NONE then num else index
  }

  /** The descriptor is in the arrays, or is about to be. */
  predicate InBounds(index: int, wanted: Bands)
  {
    index != -1 || wanted != NONE
  }
}
