/**
 File descriptor registration (src/iv_fd.c) over the two poll methods that keep a copy
 of what the kernel has been told and send changes later: epoll
 (src/iv_fd_epoll.c) and /dev/poll (src/iv_fd_dev_poll.c).

 The kernel is a ghost map from descriptor numbers to what is watched on them.
 */
module FdTable {
  import opened Lists

  // ---------- Bands ----------

  datatype Bands = Bands(input: bool, output: bool, error: bool)

  const NONE := Bands(false, false, false)

  /** What the kernel is asked to watch; errors and hang-ups are reported in any case. */
  datatype Mask = Mask(input: bool, output: bool)

  /** `bits_to_poll_mask`. */
  function ToMask(b: Bands): Mask { Mask(b.input, b.output) }

  function Union(a: Mask, b: Mask): Mask { Mask(a.input || b.input, a.output || b.output) }

  /** `a & ~b` is not empty. */
  predicate Exceeds(a: Bands, b: Bands)
  {
    (a.input && !b.input) || (a.output && !b.output) || (a.error && !b.error)
  }

  class Fd {
    const fd: int
    var onIn: bool
    var onOut: bool
    var onErr: bool
    var registered: bool
    var wanted: Bands
    var known: Bands
    /** What the last poll found. */
    var ready: Bands
    /** Where the descriptor is in the arrays of the poll method; -1 if it is not there. */
    var index: int

    constructor (fd: int, onIn: bool, onOut: bool, onErr: bool)
      ensures this.fd == fd && this.onIn == onIn && this.onOut == onOut && this.onErr == onErr && !registered
    {
      this.fd, this.onIn, this.onOut, this.onErr, registered := fd, onIn, onOut, onErr, false;
      wanted, known, ready, index := NONE, NONE, NONE, -1;
    }

    /** `recompute_wanted_flags`. */
    function Asked(): Bands
      reads this
    {
      if registered then Bands(onIn, onOut, onErr) else NONE
    }
  }

  // ---------- Kernels ----------

  type Kernel = map<int, Mask>

  datatype CtlOp = Add | Mod | Del

  /** What epoll accepts. */
  predicate CtlLegal(kernel: Kernel, op: CtlOp, fd: int)
  {
    op.Add? <==> fd !in kernel
  }

  function Ctl(kernel: Kernel, op: CtlOp, fd: int, mask: Mask): Kernel
  {
    if op.Del? then kernel - {fd} else kernel[fd := mask]
  }

  /** One record written to /dev/poll. */
  datatype PollFd = PollFd(fd: int, remove: bool, events: Mask)

  /** /dev/poll adds the events of a record to those it watches already. */
  function Written(kernel: Kernel, p: PollFd): Kernel
  {
    if p.remove then kernel - {p.fd}
    else kernel[p.fd := if p.fd in kernel then Union(kernel[p.fd], p.events) else p.events]
  }

  function AllWritten(kernel: Kernel, ps: seq<PollFd>): Kernel
  {
    if ps == [] then kernel else Written(AllWritten(kernel, ps[..|ps| - 1]), ps[|ps| - 1])
  }

  // ---------- The table ----------

  const UPLOAD_BATCH := 1024

  /** The kernel watches a descriptor as the copy of its bands says. */
  ghost predicate Watched(kernel: Kernel, f: Fd)
    reads f`known
  {
    && (f.fd in kernel <==> f.known != NONE)
    && (f.fd in kernel ==> kernel[f.fd] == ToMask(f.known))
  }

  /** The records that bring the kernel from one copy of the bands to another. */
  function Upload(fd: int, known: Bands, wanted: Bands): seq<PollFd>
  {
    (if Exceeds(known, wanted) then [PollFd(fd, true, Mask(false, false))] else [])
    + (if wanted != NONE then [PollFd(fd, false, ToMask(wanted))] else [])
  }

  lemma {:induction false} AllWrittenConcat(kernel: Kernel, ps: seq<PollFd>, qs: seq<PollFd>)
    ensures AllWritten(kernel, ps + qs) == AllWritten(AllWritten(kernel, ps), qs)
  {
    if qs == [] {
      assert ps + qs == ps;
    } else {
      var n := |qs| - 1;
      assert (ps + qs)[..|ps| + n] == ps + qs[..n];
      AllWrittenConcat(kernel, ps, qs[..n]);
    }
  }

  lemma OneWritten(kernel: Kernel, p: PollFd)
    ensures AllWritten(kernel, [p]) == Written(kernel, p)
  {
    assert [p][..0] == [];
  }

  lemma NothingWritten(kernel: Kernel, ps: seq<PollFd>)
    requires |ps| == 0
    ensures AllWritten(kernel, ps) == kernel
  {
  }

  /** Although events accumulate, the records leave exactly the wanted events. */
  lemma UploadWorks(kernel: Kernel, fd: int, known: Bands, wanted: Bands)
    requires known != wanted && (fd in kernel <==> known != NONE) && (fd in kernel ==> kernel[fd] == ToMask(known))
    ensures AllWritten(kernel, Upload(fd, known, wanted))
         == if wanted == NONE then kernel - {fd} else kernel[fd := ToMask(wanted)]
  {
    var drop, take := PollFd(fd, true, Mask(false, false)), PollFd(fd, false, ToMask(wanted));
    OneWritten(kernel, drop);
    OneWritten(kernel, take);
    OneWritten(kernel - {fd}, take);
    AllWrittenConcat(kernel, [drop], [take]);
    hide AllWritten;
    if Exceeds(known, wanted) {
      if wanted == NONE {
        assert Upload(fd, known, wanted) == [drop];
      } else {
        assert Upload(fd, known, wanted) == [drop] + [take];
        assert (kernel - {fd})[fd := ToMask(wanted)] == kernel[fd := ToMask(wanted)];
      }
    } else {
      assert Upload(fd, known, wanted) == [take];
    }
  }

  class FdTable {
    /** Which of the two poll methods is in use. */
    const epoll: bool
    var notify: seq<Fd>
    /** The registered descriptors, also by number, and what the kernel watches. */
    ghost var fds: set<Fd>
    ghost var table: map<int, Fd>
    ghost var kernel: Kernel
    /** The object that epoll reports with the events of a number. */
    ghost var owners: map<int, Fd>

    ghost predicate Shaped()
      reads this
    {
      && Distinct(notify)
      && (forall f :: f in notify ==> f in fds)
      && (forall f :: f in fds ==> f.fd in table && table[f.fd] == f)
      && (forall n :: n in table ==> table[n] in fds && table[n].fd == n)
      && (forall n :: n in kernel ==> n in table)
      && (epoll ==> forall n :: n in kernel ==> n in owners && owners[n] == table[n])
    }

    /** A descriptor waits to be flushed exactly when the kernel's view of it is out of date. */
    ghost predicate Listed(f: Fd)
      reads this`notify, f`known, f`wanted
    {
      f in notify <==> f.known != f.wanted
    }

    /** The copies are right, and everything that is out of date is listed. */
    ghost predicate Synced()
      reads this, fds
    {
      Shaped() && forall f :: f in fds ==> Watched(kernel, f) && Listed(f)
    }

    /** Moreover what is wanted is what the handlers ask for. */
    ghost predicate Valid()
      reads this, fds
    {
      Synced() && forall f :: f in fds ==> f.registered && f.wanted == f.Asked()
    }

    constructor (epoll: bool)
      ensures Valid() && fds == {} && table == map[] && kernel == map[] && this.epoll == epoll
    {
      this.epoll := epoll;
      notify, fds, table, kernel, owners := [], {}, map[], map[], map[];
    }

    // ---------- Poll methods ----------

    /** Everything in order but for the place of `f` on the list. */
    ghost predicate SyncedBut(f: Fd)
      reads this, fds
    {
      && Shaped() && f in fds && Watched(kernel, f)
      && forall x :: x in fds && x != f ==> Watched(kernel, x) && Listed(x)
    }

    /** `iv_fd_epoll_notify_fd` and `iv_fd_dev_poll_notify_fd`. */
    method Notify(f: Fd)
      requires SyncedBut(f)
      modifies this`notify
      ensures Synced()
    {
      WithoutDistinct(notify, f);
      notify := Without(notify, f);
      if f.known != f.wanted {
        notify := notify + [f];
      }
    }

    /** `epoll_ctl`, which is only ever asked for what it accepts. */
    ghost method EpollCtl(op: CtlOp, f: Fd, accept: bool)
      requires CtlLegal(kernel, op, f.fd)
      modifies this`kernel, this`owners
      ensures kernel == if accept then Ctl(old(kernel), op, f.fd, ToMask(f.wanted)) else old(kernel)
      ensures owners == if accept then old(owners)[f.fd := f] else old(owners)
    {
      if accept {
        kernel := Ctl(kernel, op, f.fd, ToMask(f.wanted));
        owners := owners[f.fd := f];
      }
    }

    /** `__iv_fd_epoll_flush_one`; every request is one that epoll accepts. */
    method EpollFlushOne(f: Fd, accept: bool) returns (ok: bool)
      requires SyncedBut(f)
      modifies this`notify, this`kernel, this`owners, f`known
      ensures SyncedBut(f) && f !in notify && |notify| <= old(|notify|) && (f in old(notify) ==> |notify| < old(|notify|))
      ensures ok == (accept || old(f.known) == f.wanted)
      ensures if ok then f.known == f.wanted else f.known == old(f.known) && kernel == old(kernel)
      ensures forall n :: n in kernel && n != f.fd ==> n in old(kernel) && kernel[n] == old(kernel)[n]
    {
      WithoutDistinct(notify, f);
      notify := Without(notify, f);
      if f.known == f.wanted {
        return true;
      }
      var op;
      if f.known == NONE && f.wanted != NONE {
        op := Add;
      } else if f.known != NONE && f.wanted == NONE {
        op := Del;
      } else {
        op := Mod;
      }
      EpollCtl(op, f, accept);
      if accept {
        f.known := f.wanted;
      }
      return accept;
    }

    /** `iv_fd_epoll_flush_pending`. */
    method EpollFlushPending()
      requires Synced()
      modifies this`notify, this`kernel, this`owners, fds`known
      ensures Synced() && notify == []
    {
      while notify != []
        invariant Synced()
        decreases |notify|
      {
        var f := notify[0];
        assert f in notify;
        var ok := EpollFlushOne(f, true);
      }
    }

    // With a batch of /dev/poll records that have not been written yet.
    ghost predicate SyncedAfter(k: Kernel)
      reads this`notify, this`fds, this`table, fds
    {
      && Distinct(notify)
      && (forall f :: f in notify ==> f in fds)
      && (forall f :: f in fds ==> f.fd in table && table[f.fd] == f)
      && (forall n :: n in table ==> table[n] in fds && table[n].fd == n)
      && (forall n :: n in k ==> n in table)
      && (forall f :: f in fds ==> Watched(k, f) && Listed(f))
    }

    lemma HeadOfList(k: Kernel)
      requires SyncedAfter(k) && notify != []
      ensures notify[0] in notify && notify[0] in fds && Watched(k, notify[0]) && Listed(notify[0])
    {
      hide Watched, Listed;
    }

    /** Put the records for one descriptor in the batch. */
    method FillBatch(f: Fd, batch: array<PollFd>, num: nat) returns (num': nat)
      requires num + 2 <= batch.Length && f.known != f.wanted
      modifies batch
      ensures num' <= num + 2 && batch[..num'] == old(batch[..num]) + Upload(f.fd, f.known, f.wanted)
    {
      num' := num;
      if Exceeds(f.known, f.wanted) {
        batch[num'] := PollFd(f.fd, true, Mask(false, false));
        num' := num' + 1;
      }
      if f.wanted != NONE {
        batch[num'] := PollFd(f.fd, false, ToMask(f.wanted));
        num' := num' + 1;
      }
    }

    /** Take a descriptor off the list once the kernel is, or will be, up to date. */
    method Settle(f: Fd, ghost k: Kernel, ghost k': Kernel)
      requires SyncedAfter(k) && f in notify
      requires k' == if f.wanted == NONE then k - {f.fd} else k[f.fd := ToMask(f.wanted)]
      modifies this`notify, f`known
      ensures SyncedAfter(k') && |notify| < old(|notify|)
    {
      WithoutDistinct(notify, f);
      notify := Without(notify, f);
      f.known := f.wanted;
    }

    /** One round of the loop below. */
    method UploadOne(batch: array<PollFd>, num: nat) returns (num': nat)
      requires num + 2 <= batch.Length && notify != [] && SyncedAfter(AllWritten(kernel, batch[..num]))
      modifies batch, this`notify, fds`known
      ensures num' <= num + 2 && |notify| < old(|notify|) && SyncedAfter(AllWritten(kernel, batch[..num']))
    {
      hide SyncedAfter, AllWritten, Upload;
      ghost var k := AllWritten(kernel, batch[..num]);
      var f := notify[0];
      HeadOfList(k);
      UploadWorks(k, f.fd, f.known, f.wanted);
      AllWrittenConcat(kernel, batch[..num], Upload(f.fd, f.known, f.wanted));
      num' := FillBatch(f, batch, num);
      Settle(f, k, AllWritten(kernel, batch[..num']));
    }

    /** `iv_fd_dev_poll_flush_pending`. */
    method DevPollFlushPending()
      requires Synced() && !epoll
      modifies this`notify, this`kernel, fds`known
      ensures Synced() && notify == []
    {
      hide SyncedAfter, AllWritten;
      NothingPending();
      var batch := new PollFd[UPLOAD_BATCH](_ => PollFd(0, false, Mask(false, false)));
      var num: nat := 0;
      NothingWritten(kernel, batch[..0]);
      while notify != []
        invariant num <= UPLOAD_BATCH && SyncedAfter(AllWritten(kernel, batch[..num]))
        decreases |notify|
      {
        if num > UPLOAD_BATCH - 2 {
          kernel := AllWritten(kernel, batch[..num]);
          num := 0;
          NothingWritten(kernel, batch[..0]);
        }
        num := UploadOne(batch, num);
      }
      kernel := AllWritten(kernel, batch[..num]);
      NothingPending();
    }

    lemma NothingPending()
      requires !epoll
      ensures Synced() <==> SyncedAfter(kernel)
    {
    }

    // ---------- Registration ----------

    /** A poll flushes what is pending; then the kernel watches what the handlers ask for, and nothing else. */
    method FlushPending()
      requires Valid()
      modifies this`notify, this`kernel, this`owners, fds`known
      ensures Valid() && notify == []
      ensures forall f :: f in fds ==> f.registered && (f.fd in kernel <==> f.onIn || f.onOut || f.onErr)
      ensures forall f :: f in fds && f.fd in kernel ==> kernel[f.fd].input == f.onIn && kernel[f.fd].output == f.onOut
      ensures forall n :: n in kernel ==> n in table && (epoll ==> n in owners && owners[n] == table[n])
    {
      if epoll {
        EpollFlushPending();
      } else {
        DevPollFlushPending();
      }
    }

    /** Enter `f` in the table; nothing is known to the kernel about it yet. */
    ghost method Enter(f: Fd)
      requires Valid() && f !in fds && f.fd !in table && f.known == NONE
      modifies this`table, this`fds
      ensures table == old(table)[f.fd := f] && fds == old(fds) + {f}
      ensures SyncedBut(f)
    {
      table := table[f.fd := f];
      fds := fds + {f};
    }

    /** Take `f` out of the table. */
    ghost method Withdraw(f: Fd)
      requires SyncedBut(f) && f !in notify && f.known == NONE
      modifies this`table, this`fds
      ensures table == old(table) - {f.fd} && fds == old(fds) - {f}
      ensures Synced() && f.fd !in kernel
    {
      table := table - {f.fd};
      fds := fds - {f};
    }

    ghost predicate OthersValid(f: Fd)
      reads this, fds
    {
      SyncedBut(f) && forall x :: x in fds && x != f ==> x.registered && x.wanted == x.Asked()
    }

    /** `iv_fd_register_prologue`. */
    method Prologue(f: Fd)
      requires Valid() && !f.registered && f.fd >= 0 && f.fd !in table
      modifies this`table, this`fds, f`registered, f`known
      ensures OthersValid(f) && f !in notify && f.known == NONE && f.registered
      ensures table == old(table)[f.fd := f] && fds == old(fds) + {f}
    {
      f.registered, f.known := true, NONE;
      Enter(f);
    }

    /** `iv_fd_register`. */
    method Register(f: Fd)
      requires Valid() && !f.registered && f.fd >= 0 && f.fd !in table
      modifies this, f
      ensures Valid() && table == old(table)[f.fd := f] && fds == old(fds) + {f} && kernel == old(kernel)
      ensures forall x :: x in old(notify) ==> x in notify
      ensures f in notify <==> f.onIn || f.onOut || f.onErr
      ensures f.onIn == old(f.onIn) && f.onOut == old(f.onOut) && f.onErr == old(f.onErr)
    {
      Prologue(f);
      f.wanted := f.Asked();
      Notify(f);
    }

    /** `iv_fd_unregister`: the kernel is told at once, so that the number can be used again. */
    method Unregister(f: Fd)
      requires Valid() && f in fds
      modifies this, f, fds`known
      ensures Valid() && table == old(table) - {f.fd} && fds == old(fds) - {f}
      ensures !f.registered && f.fd !in kernel && f !in notify
    {
      f.registered := false;
      f.wanted := f.Asked();
      Notify(f);
      if f in notify {
        if epoll {
          var ok := EpollFlushOne(f, true);
        } else {
          DevPollFlushPending();
        }
      }
      Withdraw(f);
    }

    /** `iv_fd_epoll_notify_fd_sync` and `iv_fd_dev_poll_notify_fd_sync`, for a descriptor just entered. */
    method NotifySync(f: Fd, accept: bool) returns (ok: bool)
      requires SyncedBut(f) && f !in notify && f.known == NONE && f.wanted != NONE
      modifies this`notify, this`kernel, this`owners, f`known
      ensures SyncedBut(f) && f !in notify && ok == accept
      ensures if ok then f.known == f.wanted else f.known == NONE && kernel == old(kernel)
      ensures forall n :: n in kernel && n != f.fd ==> n in old(kernel) && kernel[n] == old(kernel)[n]
    {
      if epoll {
        ok := EpollFlushOne(f, accept);
      } else {
        if accept {
          kernel := Written(kernel, PollFd(f.fd, false, ToMask(f.wanted)));
          f.known := f.wanted;
        }
        return accept;
      }
    }

    /** Ask the kernel about the wanted bands, or about both directions if there are none. */
    method Probe(f: Fd, accept: bool) returns (ok: bool)
      requires OthersValid(f) && f !in notify && f.known == NONE && f.registered
      modifies this`notify, this`kernel, this`owners, f`known, f`wanted
      ensures OthersValid(f) && f !in notify && ok == accept
      ensures if ok then f.known == f.wanted && (f.Asked() != NONE ==> f.wanted == f.Asked())
              else f.known == NONE && kernel == old(kernel)
      ensures f.wanted != NONE && forall n :: n in kernel && n != f.fd ==> n in old(kernel) && kernel[n] == old(kernel)[n]
    {
      f.wanted := f.Asked();
      if f.wanted == NONE {
        f.wanted := Bands(true, true, false);
      }
      ok := NotifySync(f, accept);
    }

    /**
     `iv_fd_register_try`: the kernel is asked at once, about both directions if no
     handler is set; a refusal leaves everything as it was.
     */
    method RegisterTry(f: Fd, accept: bool) returns (ret: int)
      requires Valid() && !f.registered && f.fd >= 0 && f.fd !in table
      modifies this, f
      ensures Valid() && ret == if accept then 0 else -1
      ensures f.onIn == old(f.onIn) && f.onOut == old(f.onOut) && f.onErr == old(f.onErr)
      ensures f.registered == accept
      ensures table == if accept then old(table)[f.fd := f] else old(table)
      ensures fds == if accept then old(fds) + {f} else old(fds)
      ensures !accept ==> kernel == old(kernel)
      // After success the kernel watches the bands, or both directions for now if there are none.
      ensures accept ==> f.fd in kernel && (f in notify <==> !f.onIn && !f.onOut && !f.onErr)
      ensures accept && f !in notify ==> kernel[f.fd].input == f.onIn && kernel[f.fd].output == f.onOut
      ensures forall n :: n in kernel && n != f.fd ==> n in old(kernel) && kernel[n] == old(kernel)[n]
    {
      Prologue(f);
      var ok := Probe(f, accept);
      if !ok {
        f.registered := false;
        Withdraw(f);
        assert table == old(table) && fds == old(fds);
        return -1;
      }
      if f.Asked() == NONE {
        f.wanted := NONE;
        Notify(f);
      }
      return 0;
    }

    /** `iv_fd_set_handler_in`, `_out` and `_err`. */
    method SetHandlers(f: Fd, onIn: bool, onOut: bool, onErr: bool)
      requires Valid() && f in fds
      modifies this`notify, f
      ensures Valid() && f.onIn == onIn && f.onOut == onOut && f.onErr == onErr
    {
      f.onIn, f.onOut, f.onErr := onIn, onOut, onErr;
      f.wanted := f.Asked();
      Notify(f);
    }
  }
}
