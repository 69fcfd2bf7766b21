/**
 The byte pump of src/iv_fd_pump.c: it relays what it reads from one descriptor to
 another through a buffer of bytes or through a pipe, and keeps unused buffers for later.
 */
module Pump {

  const MAX_CACHED_BUFS := 20
  const BUF_SIZE := 4096
  const SPLICE_SIZE := 1048576

  type Byte = x: int | 0 <= x < 256

  /** A buffer; `data` is used without splice(2), and the contents of a pipe with it. */
  class Buffer {
    const data: array<Byte>
    ghost var pipe: seq<Byte>

    constructor ()
      ensures pipe == [] && data.Length == BUF_SIZE && fresh(data)
    {
      data := new Byte[BUF_SIZE](_ => 0);
      pipe := [];
    }
  }

  // ---------- The cache ----------

  class Cache {
    const splice: bool
    var num: nat
    var bufs: seq<Buffer>

    /** A pipe that is kept is empty. */
    ghost predicate Valid()
      reads this, bufs
    {
      && num == |bufs| <= MAX_CACHED_BUFS
      && (forall i, j :: 0 <= i < j < |bufs| ==> bufs[i] != bufs[j] && bufs[i].data != bufs[j].data)
      && (forall b :: b in bufs ==> b.data.Length == BUF_SIZE && (splice ==> b.pipe == []))
    }

    /** The buffer is not kept, and shares no memory with one that is. */
    ghost predicate Apart(buf: Buffer)
      reads this
    {
      forall b :: b in bufs ==> b != buf && b.data != buf.data
    }

    /** The memory behind the kept buffers. */
    ghost function Memory(): set<object>
      reads this
    {
      (set b: Buffer | b in bufs :: b as object) + (set b: Buffer | b in bufs :: b.data as object)
    }

    constructor (splice: bool)
      ensures Valid() && this.splice == splice && bufs == []
    {
      this.splice := splice;
      num, bufs := 0, [];
    }

    /** `buf_get`: a kept buffer, or a new one if it can be had. */
    method Get(available: bool) returns (buf: Buffer?)
      requires Valid()
      modifies this
      ensures Valid() && bufs == (if old(bufs) != [] then old(bufs)[1..] else []) && (old(bufs) != [] ==> buf == old(bufs)[0])
      ensures buf == null <==> old(bufs) == [] && !available
      ensures buf != null ==> Apart(buf) && buf.data.Length == BUF_SIZE && (splice ==> buf.pipe == [])
      ensures buf != null ==> buf in old(bufs) || (fresh(buf) && fresh(buf.data))
    {
      if bufs != [] {
        num := num - 1;
        buf := bufs[0];
        assert buf in bufs;
        bufs := bufs[1..];
      } else if available {
        buf := new Buffer();
      } else {
        buf := null;
      }
    }

    /** `buf_put`: keep the buffer, unless there are enough of them or it is a pipe with something left in it. */
    method Put(buf: Buffer, bytes: nat)
      requires Valid() && Apart(buf) && buf.data.Length == BUF_SIZE && (splice ==> |buf.pipe| == bytes)
      modifies this
      ensures Valid()
      ensures bufs == if (splice && bytes > 0) || old(num) >= MAX_CACHED_BUFS then old(bufs) else [buf] + old(bufs)
    {
      if splice && bytes > 0 {
        return;
      }
      if num < MAX_CACHED_BUFS {
        num := num + 1;
        bufs := [buf] + bufs;
      }
    }
  }

  // ---------- What the kernel may answer ----------

  /** `pending` is what FIONREAD reports. */
  datatype Input = Data(bytes: seq<Byte>) | Eof | NotNow(pending: int) | Broken

  datatype Output = Wrote(count: nat) | Later | Failed

  // ---------- The pump ----------

  function Min(a: nat, b: nat): nat { if a < b then a else b }

  /** Data that arrives is taken from its beginning, as much as there is room for, and nothing else is. */
  ghost predicate Takes(input: Input, before: seq<Byte>, after: seq<Byte>, room: int)
  {
    if input.Data? then room > 0 && after == before + input.bytes[..Min(room, |input.bytes|)] else after == before
  }

  /** `memmove` of `n` bytes from position `from` to the beginning. */
  method MoveDown(a: array<Byte>, from: nat, n: nat)
    requires from + n <= a.Length
    modifies a
    ensures a[..n] == old(a[from..from + n])
  {
    var i := 0;
    while i < n
      invariant i <= n
      invariant forall k :: 0 <= k < i ==> a[k] == old(a[from + k])
      invariant forall k :: i <= k < a.Length ==> a[k] == old(a[k])
    {
      a[i] := a[from + i];
      i := i + 1;
    }
  }

  /** One answer of the kernel: how much can be read and written now, and whether there is memory for a buffer. */
  datatype Answer = Answer(read: nat, pending: int, available: bool, broken: bool, output: Output)

  /** Something can be read and something can be written. */
  predicate Eager(a: Answer)
  {
    a.read > 0 && a.available && !a.broken && a.output.Wrote?
  }

  /** Nothing goes wrong: at worst nothing can be read or written now. */
  predicate Harmless(a: Answer)
  {
    a.available && !a.broken && !a.output.Failed?
  }

  function Eagers(answers: seq<Answer>): nat
  {
    if answers == [] then 0 else Eagers(answers[..|answers| - 1]) + if Eager(answers[|answers| - 1]) then 1 else 0
  }

  lemma EagersNext(answers: seq<Answer>, k: nat)
    requires k < |answers|
    ensures Eagers(answers[..k + 1]) == Eagers(answers[..k]) + if Eager(answers[k]) then 1 else 0
  {
    assert answers[..k + 1][..k] == answers[..k];
  }

  /** What a read finds when `pos` bytes of the stream have been read before. */
  function InputOf(stream: seq<Byte>, pos: nat, a: Answer): Input
    requires pos <= |stream|
  {
    if a.broken then Broken
    else if a.read == 0 then NotNow(a.pending)
    else if pos == |stream| then Eof
    else Data(stream[pos..Min(pos + a.read, |stream|)])
  }

  /** Reading goes on where it stopped, and an end is only found at the end. */
  lemma ReadsOn(stream: seq<Byte>, a: Answer, before: seq<Byte>, after: seq<Byte>, room: int)
    requires before <= stream && Takes(InputOf(stream, |before|, a), before, after, room)
    ensures after <= stream && (InputOf(stream, |before|, a).Eof? ==> after == stream)
  {
    var m := Min(|before| + a.read, |stream|);
    assert before + stream[|before|..m] == stream[..m];
  }

  class Pump {
    const cache: Cache
    const relayEof: bool
    var buf: Buffer?
    var bytes: nat
    var full: bool
    var sawFin: int
    /** The bands last asked for. */
    var bandIn: bool
    var bandOut: bool
    /** Everything read so far; the pump does not look at it, but a run has to know where in its input it is. */
    var received: seq<Byte>
    /** Everything written so far, and how often the output has been shut down. */
    ghost var sent: seq<Byte>
    ghost var shutdowns: nat

    /** The bytes that have been read and not written. */
    ghost function Held(): seq<Byte>
      reads this, buf, if buf != null then {buf.data} else {}
    {
      if buf == null then []
      else if cache.splice then buf.pipe
      else if bytes <= buf.data.Length then buf.data[..bytes]
      else []
    }

    /** How much a read may take. */
    ghost function Room(): int
      reads this
    {
      if cache.splice then SPLICE_SIZE else BUF_SIZE - bytes
    }

    ghost predicate BufferOk()
      reads this, cache, buf, if buf != null then {buf.data} else {}
    {
      && (buf == null ==> bytes == 0) && |Held()| == bytes
      && (buf != null ==> cache.Apart(buf) && buf.data.Length == BUF_SIZE)
      && (full ==> bytes > 0)
      && (!cache.splice ==> bytes <= BUF_SIZE && (full <==> bytes == BUF_SIZE))
    }

    ghost predicate Valid()
      reads this, cache, cache.bufs, buf, if buf != null then {buf.data} else {}
    {
      && cache.Valid() && BufferOk()
      && received == sent + Held()
      && 0 <= sawFin <= 2 && (sawFin == 1 ==> bytes > 0) && (sawFin == 2 ==> bytes == 0)
      && shutdowns == if relayEof && sawFin == 2 then 1 else 0
    }

    constructor (cache: Cache, relayEof: bool)
      requires cache.Valid()
      ensures Valid() && this.cache == cache && received == sent == [] && bandIn && !bandOut
    {
      this.cache, this.relayEof := cache, relayEof;
      buf, bytes, full, sawFin := null, 0, false, 0;
      bandIn, bandOut := true, false;
      received, sent, shutdowns := [], [], 0;
    }

    /** `read`, or `splice` into the pipe; asking for nothing would make an answer of 0 ambiguous. */
    method Read(len: nat, input: Input) returns (count: nat)
      requires BufferOk() && buf != null && len > 0 && input.Data? && input.bytes != []
      requires !cache.splice ==> bytes + len <= BUF_SIZE
      modifies this`received, buf`pipe, buf.data
      ensures 0 < count <= len
      ensures received == old(received) + input.bytes[..Min(len, |input.bytes|)]
      ensures count == Min(len, |input.bytes|)
      ensures cache.splice ==> buf.pipe == old(buf.pipe) + input.bytes[..count]
      ensures !cache.splice ==> buf.pipe == old(buf.pipe)
      ensures !cache.splice ==> buf.data[..bytes + count] == old(buf.data[..bytes]) + input.bytes[..count]
    {
      count := Min(len, |input.bytes|);
      received := received + input.bytes[..count];
      if cache.splice {
        buf.pipe := buf.pipe + input.bytes[..count];
      } else {
        forall k | 0 <= k < count {
          buf.data[bytes + k] := input.bytes[k];
        }
      }
    }

    /** `shutdown`: at most once, and only when everything read has been written. */
    method Shutdown()
      requires shutdowns == 0 && bytes == 0 && received == sent
      modifies this`shutdowns
      ensures shutdowns == 1
    {
      shutdowns := 1;
    }

    ghost function Mine(): set<object>
      reads this, cache
    {
      {this, cache} + cache.Memory() + if buf != null then {buf, buf.data} else {}
    }

    lemma Tells()
      requires Valid()
      ensures cache.Valid() && |cache.bufs| <= MAX_CACHED_BUFS && sent <= received && |received| == |sent| + bytes
      ensures received == sent <==> bytes == 0
      ensures (buf == null ==> bytes == 0) && (!cache.splice ==> (full <==> bytes == BUF_SIZE))
      ensures 0 <= sawFin <= 2 && (sawFin == 1 ==> bytes > 0) && (sawFin == 2 ==> bytes == 0)
      ensures shutdowns == if relayEof && sawFin == 2 then 1 else 0
    {
    }

    /** A buffer is kept, or the first of the cache is taken; the cache loses no other. */
    ghost predicate BufferTaken(before: Buffer?, now: Buffer?, kept: seq<Buffer>, kept': seq<Buffer>)
    {
      if before != null || now == null then now == before && kept' == kept
      else if kept != [] then now == kept[0] && kept' == kept[1..]
      else kept' == []
    }

    /** Have a buffer. */
    method Grab(available: bool) returns (ok: bool)
      requires Valid()
      modifies this`buf, cache
      ensures Valid() && ok == (buf != null) && ok == (available || old(buf) != null || old(cache.bufs) != [])
      ensures buf == null || buf == old(buf) || buf in old(cache.bufs) || (fresh(buf) && fresh(buf.data))
      ensures forall b :: b in cache.bufs ==> b in old(cache.bufs)
      ensures BufferTaken(old(buf), buf, old(cache.bufs), cache.bufs)
    {
      if buf == null {
        buf := cache.Get(available);
      }
      return buf != null;
    }

    /** Data has arrived. */
    method Absorb(input: Input)
      requires Valid() && !full && sawFin == 0 && buf != null && input.Data? && input.bytes != []
      modifies this`bytes, this`full, this`received, buf, buf.data
      ensures Valid() && Takes(input, old(received), received, old(Room())) && (cache.splice ==> !full)
    {
      hide Cache.Valid;
      ghost var held := Held();
      var count := Read(if cache.splice then SPLICE_SIZE else BUF_SIZE - bytes, input);
      bytes := bytes + count;
      if !cache.splice && bytes == BUF_SIZE {
        full := true;
      }
      assert Held() == held + input.bytes[..count];
      assert sent + (held + input.bytes[..count]) == (sent + held) + input.bytes[..count];
    }

    /** The end of the input has been reached. */
    method Finish()
      requires Valid() && sawFin == 0
      modifies this`sawFin, this`shutdowns
      ensures Valid() && sawFin == if bytes == 0 then 2 else 1
    {
      sawFin := 1;
      if bytes == 0 {
        if relayEof {
          Shutdown();
        }
        sawFin := 2;
      }
    }

    /** `iv_fd_pump_try_input`, from the system call on. */
    method Fill(input: Input) returns (ret: int)
      requires Valid() && !full && sawFin == 0 && buf != null && (input.Data? ==> input.bytes != [])
      modifies this`bytes, this`full, this`received, this`sawFin, this`shutdowns, buf, buf.data
      ensures Valid() && ret in {0, -1}
      ensures if ret == 0 then Takes(input, old(received), received, old(Room())) else received == old(received)
      ensures ret == 0 && input.Eof? <==> sawFin != 0
      ensures ret == -1 <==> input.Broken?
      ensures cache.splice ==> (full <==> input.NotNow? && input.pending > 0 && bytes > 0)
    {
      hide Cache.Valid;
      ret := 0;
      match input {
        case Broken =>
          ret := -1;
        case NotNow(pending) =>
          if cache.splice && bytes > 0 {
            if pending > 0 {
              full := true;
            }
          }
        case Eof =>
          Finish();
        case Data(_) =>
          Absorb(input);
      }
    }

    /** `iv_fd_pump_try_input`. */
    method TryInput(input: Input, available: bool) returns (ret: int)
      requires Valid() && !full && sawFin == 0 && (input.Data? ==> input.bytes != [])
      modifies Mine()
      ensures Valid() && ret in {0, -1} && sent == old(sent)
      ensures if ret == 0 then Takes(input, old(received), received, old(Room())) else received == old(received)
      ensures ret == 0 && input.Eof? <==> sawFin != 0
      ensures ret == -1 <==> input.Broken? || (!available && old(buf) == null && old(cache.bufs) == [])
      ensures ret == 0 && cache.splice ==> (full <==> input.NotNow? && input.pending > 0 && bytes > 0)
      ensures buf == null || buf == old(buf) || buf in old(cache.bufs) || (fresh(buf) && fresh(buf.data))
      ensures forall b :: b in cache.bufs ==> b in old(cache.bufs)
      ensures BufferTaken(old(buf), buf, old(cache.bufs), cache.bufs)
    {
      var ok := Grab(available);
      if !ok {
        return -1;
      }
      ret := Fill(input);
    }

    /** Some of the bytes have been written. */
    method Drain(count: nat)
      requires Valid() && buf != null && 0 < count <= bytes && sawFin != 2
      modifies this`full, this`bytes, this`sent, buf, buf.data
      ensures !full && cache.Valid() && BufferOk() && received == sent + Held() && old(sent) <= sent && |sent| == old(|sent|) + count
      ensures bytes == old(bytes) - count
    {
      hide Cache.Valid;
      ghost var held := Held();
      full := false;
      sent := sent + held[..count];
      bytes := bytes - count;
      if cache.splice {
        buf.pipe := buf.pipe[count..];
      } else {
        MoveDown(buf.data, count, bytes);
      }
      assert Held() == held[count..];
      assert held == held[..count] + held[count..];
      assert old(sent) + (held[..count] + held[count..]) == (old(sent) + held[..count]) + held[count..];
    }

    /** `iv_fd_pump_try_output`. */
    method TryOutput(output: Output) returns (ret: int)
      requires Valid() && bytes > 0 && buf != null && (output.Wrote? ==> 0 < output.count)
      modifies this`full, this`bytes, this`sent, this`sawFin, this`shutdowns, buf, buf.data
      ensures Valid() && ret in {0, -1} && old(sent) <= sent && old(sawFin) <= sawFin
      ensures sawFin != 0 <==> old(sawFin) != 0
      ensures |sent| == old(|sent|) + if output.Wrote? then Min(output.count, old(bytes)) else 0
      ensures full == (old(full) && !output.Wrote?)
      ensures ret == -1 <==> output.Failed?
    {
      match output {
        case Later => return 0;
        case Failed => return -1;
        case Wrote(_) =>
      }
      hide Cache.Valid;
      Drain(Min(output.count, bytes));
      if bytes == 0 && sawFin == 1 {
        if relayEof {
          Shutdown();
        }
        sawFin := 2;
      }
      return 0;
    }

    method SetBands(input: bool, output: bool)
      modifies this`bandIn, this`bandOut
      ensures bandIn == input && bandOut == output
    {
      bandIn, bandOut := input, output;
    }

    /** The last part of `__iv_fd_pump_pump`. */
    method AskBands() returns (ret: int)
      requires Valid()
      modifies this`bandIn, this`bandOut
      ensures Valid() && ret == if sawFin == 2 then 0 else 1
      ensures bandIn == (sawFin == 0 && !full) && bandOut == (bytes > 0)
    {
      hide Cache.Valid;
      match sawFin {
        case 0 =>
          SetBands(!full, bytes > 0);
          return 1;
        case 1 =>
          SetBands(false, true);
          return 1;
        case _ =>
          SetBands(false, false);
          return 0;
      }
    }

    predicate WantsInput()
      reads this
    {
      !full && sawFin == 0
    }

    /** The input is broken, or no buffer can be had for it. */
    predicate InputFails(input: Input, available: bool)
      reads this, cache
    {
      input.Broken? || (!available && buf == null && cache.bufs == [])
    }

    /** More input is there, but the pipe takes no more of it. */
    predicate Clogged(input: Input)
      reads this
    {
      input.NotNow? && input.pending > 0 && bytes > 0
    }

    /** `__iv_fd_pump_pump`. */
    method Once(input: Input, available: bool, output: Output) returns (ret: int)
      requires Valid() && (input.Data? ==> input.bytes != []) && (output.Wrote? ==> output.count > 0)
      modifies Mine()
      ensures Valid() && ret in {-1, 0, 1} && old(sent) <= sent
      ensures buf == null || buf == old(buf) || buf in old(cache.bufs) || (fresh(buf) && fresh(buf.data))
      ensures forall b :: b in cache.bufs ==> b in old(cache.bufs)
      ensures BufferTaken(old(buf), buf, old(cache.bufs), cache.bufs)
      ensures received == old(received) || Takes(input, old(received), received, old(Room()))
      ensures ret >= 0 ==> (sawFin != 0 <==> old(sawFin) != 0 || (!old(full) && input.Eof?))
      ensures ret >= 0 ==>
              if old(WantsInput()) then Takes(input, old(received), received, old(Room())) else received == old(received)
      ensures ret >= 0 ==> |sent| == old(|sent|) + if output.Wrote? then Min(output.count, |received| - old(|sent|)) else 0
      ensures ret >= 0 && cache.splice ==> full == (!output.Wrote? && (old(full) || old(WantsInput() && Clogged(input))))
      ensures ret == -1 <==> old(WantsInput() && InputFails(input, available)) || (output.Failed? && |received| > old(|sent|))
      ensures ret >= 0 ==> ret == (if sawFin == 2 then 0 else 1)
      ensures ret >= 0 ==> bandIn == (sawFin == 0 && !full) && bandOut == (bytes > 0)
    {
      hide Cache.Valid, Held;
      if !full && sawFin == 0 {
        var r := TryInput(input, available);
        if r != 0 {
          return -1;
        }
      }
      if bytes > 0 {
        var r := TryOutput(output);
        if r != 0 {
          return -1;
        }
      }
      ret := AskBands();
    }

    /**
     `iv_fd_pump_pump`: whatever the system calls answer, what has been written is what
     has been read, in order and up to what is held.
     */
    method Step(input: Input, available: bool, output: Output) returns (ret: int)
      requires Valid() && (input.Data? ==> input.bytes != []) && (output.Wrote? ==> output.count > 0)
      modifies Mine()
      ensures ret in {-1, 0, 1} && old(sent) <= sent <= received && cache.Valid()
      ensures buf == null || buf == old(buf) || buf in old(cache.bufs) || (fresh(buf) && fresh(buf.data))
      ensures forall b :: b in cache.bufs ==> b in old(cache.bufs) || b == old(buf) || (fresh(b) && fresh(b.data))
      ensures fresh(Mine() - old(Mine()))
      ensures received == old(received) || Takes(input, old(received), received, old(Room()))
      // Input is taken when it is wanted, and is not asked for after its end.
      ensures ret >= 0 ==>
              if old(WantsInput()) then Takes(input, old(received), received, old(Room())) else received == old(received)
      // Output is written when there is anything to write.
      ensures ret >= 0 ==> |sent| == old(|sent|) + if output.Wrote? then Min(output.count, |received| - old(|sent|)) else 0
      ensures ret == -1 <==> old(WantsInput() && InputFails(input, available)) || (output.Failed? && |received| > old(|sent|))
      ensures ret >= 0 ==> Valid()
      // Input is asked for as long as it has not ended and there is room, output as long as something is held.
      ensures ret >= 0 ==> bandIn == (sawFin == 0 && !full) && bandOut == (|received| > |sent|)
      ensures ret >= 0 ==> full == if cache.splice then !output.Wrote? && (old(full) || old(WantsInput() && Clogged(input)))
                                   else |received| - |sent| == BUF_SIZE
      // Done: the input has ended, all of it has been written, and the output is shut down if that was asked for.
      ensures ret >= 0 ==> (sawFin != 0 <==> old(sawFin) != 0 || (!old(full) && input.Eof?))
      ensures ret >= 0 ==> (ret == 0 <==> sawFin != 0 && received == sent) && (ret == 0 <==> sawFin == 2)
      ensures ret == 0 ==> shutdowns == if relayEof then 1 else 0
      // A buffer is held exactly while there is something in it, and goes back to the cache it may have come from.
      ensures buf == null <==> ret < 0 || received == sent
      ensures buf == null ==> HandedBack(old(buf), old(cache.bufs), cache.bufs, |received| - |sent|)
    {
      Tells();
      hide Cache.Valid, Valid, BufferOk, Held, HandedBack, BufferTaken, Kept;
      ret := Once(input, available, output);
      Tells();
      ghost var taken, kept := buf, cache.bufs;
      if ret < 0 || bytes == 0 {
        Release();
        TakenAndHandedBack(old(buf), taken, old(cache.bufs), kept, cache.bufs, bytes);
      }
    }

    /** A buffer that is handed back is kept, unless it is a pipe with something in it or there are enough. */
    predicate Kept(bytes: nat, num: nat)
    {
      !(cache.splice && bytes > 0) && num < MAX_CACHED_BUFS
    }

    /** Afterwards the cache has the buffer that was held before the call; one taken from it is back in its place. */
    ghost predicate HandedBack(before: Buffer?, kept: seq<Buffer>, kept': seq<Buffer>, bytes: int)
    {
      && (before != null && bytes >= 0 ==> kept' == if Kept(bytes, |kept|) then [before] + kept else kept)
      && (before == null && kept != [] && bytes >= 0 && Kept(bytes, 0) ==> kept' == kept)
    }

    lemma TakenAndHandedBack(before: Buffer?, taken: Buffer?, kept: seq<Buffer>, kept1: seq<Buffer>, kept2: seq<Buffer>, bytes: nat)
      requires BufferTaken(before, taken, kept, kept1) && |kept| <= MAX_CACHED_BUFS
      requires kept2 == if taken != null && Kept(bytes, |kept1|) then [taken] + kept1 else kept1
      ensures HandedBack(before, kept, kept2, bytes)
    {
    }

    /** Hand the buffer back. */
    method Release()
      requires Valid()
      modifies this`buf, cache
      ensures buf == null && cache.Valid() && (bytes == 0 ==> Valid())
      ensures forall b :: b in cache.bufs ==> b in old(cache.bufs) || b == old(buf)
      ensures cache.bufs == if old(buf) != null && Kept(bytes, old(|cache.bufs|)) then [old(buf)] + old(cache.bufs)
                            else old(cache.bufs)
    {
      if buf != null {
        cache.Put(buf, bytes);
        buf := null;
      }
    }

    // ---------- Whole runs ----------

    /** What has been read is the beginning of the stream, and the end has been found at its end. */
    ghost predicate OnStream(stream: seq<Byte>)
      reads this
    {
      sent <= received <= stream && (sawFin != 0 ==> received == stream)
    }

    ghost function Progress(): nat
      reads this
    {
      |received| + |sent| + if sawFin != 0 then 1 else 0
    }

    lemma ProgressEnds(stream: seq<Byte>)
      requires sent <= received <= stream
      ensures Progress() <= 2 * |stream| + 1
    {
    }

    /** One call of the pump, reading from the stream. */
    method RelayOnce(stream: seq<Byte>, a: Answer) returns (ret: int)
      requires Valid() && OnStream(stream) && (a.output.Wrote? ==> a.output.count > 0)
      modifies Mine()
      ensures ret in {-1, 0, 1} && sent <= received <= stream && fresh(Mine() - old(Mine()))
      ensures ret >= 0 ==> Valid() && OnStream(stream) && bandIn == WantsInput() && bandOut == (|received| > |sent|)
      ensures ret == 1 ==> bandIn || bandOut
      ensures ret == 0 ==> sent == stream && shutdowns == if relayEof then 1 else 0
      ensures Harmless(a) ==> ret >= 0
      ensures ret >= 0 ==> Progress() >= old(Progress())
      ensures ret == 1 && Eager(a) ==> Progress() > old(Progress())
    {
      hide Cache.Valid, Held, Mine;
      var input := InputOf(stream, |received|, a);
      ret := Step(input, a.available, a.output);
      if Takes(input, old(received), received, old(Room())) {
        ReadsOn(stream, a, old(received), received, old(Room()));
      }
    }

    /**
     Call the pump with one answer of the kernel after another, until it is done, it fails, or
     the answers are used up.  `stream` is what the input holds: a read gets some of what
     is left of it, and the end of the input once nothing is left.  What has been written is
     always the beginning of the stream, and when the pump is done it is all of the stream.
     It gets there if the kernel lets something through often enough.
     */
    method Relay(stream: seq<Byte>, answers: seq<Answer>) returns (ret: int)
      requires Valid() && received == [] && sawFin == 0
      requires forall a :: a in answers ==> (a.output.Wrote? ==> a.output.count > 0)
      modifies Mine()
      ensures ret in {-1, 0, 1} && sent <= received <= stream && fresh(Mine() - old(Mine()))
      ensures ret >= 0 ==> Valid()
      ensures ret == 1 && answers != [] ==> bandIn == WantsInput() && bandOut == (|received| > |sent|) && (bandIn || bandOut)
      ensures ret == 0 ==> sent == stream && shutdowns == if relayEof then 1 else 0
      ensures (forall a :: a in answers ==> Harmless(a)) && Eagers(answers) > 2 * |stream| + 1 ==> ret == 0
    {
      ghost var harmless := forall a :: a in answers ==> Harmless(a);
      assert sent == [] && OnStream(stream) && Eagers(answers[..0]) == 0;
      hide Valid, Mine, Eagers, Eager, Harmless, OnStream, Progress;
      ret := 1;
      var k := 0;
      while ret == 1 && k < |answers|
        invariant k <= |answers| && ret in {-1, 0, 1} && sent <= received <= stream && fresh(Mine() - old(Mine()))
        invariant (ret >= 0 ==> Valid() && OnStream(stream)) && (ret == 1 && k > 0 ==> bandIn || bandOut)
        invariant ret == 1 && k > 0 ==> bandIn == WantsInput() && bandOut == (|received| > |sent|)
        invariant ret == 0 ==> sent == stream && shutdowns == if relayEof then 1 else 0
        invariant harmless ==> ret >= 0
        invariant ret == 1 ==> Progress() >= Eagers(answers[..k])
      {
        var a := answers[k];
        assert a in answers;
        EagersNext(answers, k);
        ret := RelayOnce(stream, a);
        k := k + 1;
      }
      assert answers[..|answers|] == answers;
      ProgressEnds(stream);
    }
  }

  // ---------- Several pumps of one thread ----------

  /** The buffers that pumps hold. */
  ghost function HeldBuffers(pumps: set<Pump>): set<Buffer>
    reads pumps
  {
    set p | p in pumps && p.buf != null :: p.buf
  }

  /** The pumps of a thread share its cache, and no two of them hold the same buffer. */
  ghost predicate Together(pumps: set<Pump>, cache: Cache)
    reads pumps, cache, cache.bufs, HeldBuffers(pumps), set b | b in HeldBuffers(pumps) :: b.data
  {
    && cache.Valid()
    && (forall p :: p in pumps ==> p.cache == cache && p.Valid())
    && (forall p, q :: p in pumps && q in pumps && p != q && p.buf != null && q.buf != null ==>
          p.buf != q.buf && p.buf.data != q.buf.data)
  }

  /** What a pump holds is not within the reach of another one. */
  lemma OutOfReach(p: Pump, q: Pump, pumps: set<Pump>, cache: Cache)
    requires Together(pumps, cache) && p in pumps && q in pumps && p != q
    ensures q !in p.Mine() && (q.buf != null ==> q.buf !in p.Mine() && q.buf.data !in p.Mine())
  {
    hide Cache.Valid, Pump.Held;
  }

  /** The others keep what they hold. */
  twostate predicate SameHold(q: Pump)
    reads q, q.buf, if q.buf != null then {q.buf.data} else {}
  {
    && q.buf == old(q.buf) && q.bytes == old(q.bytes) && q.full == old(q.full) && q.sawFin == old(q.sawFin)
    && q.received == old(q.received) && q.sent == old(q.sent) && q.shutdowns == old(q.shutdowns)
    && q.Held() == old(q.Held())
  }

  twostate lemma StaysValid(q: Pump)
    requires old(q.Valid()) && q.cache.Valid() && SameHold(q) && (q.buf != null ==> q.cache.Apart(q.buf))
    ensures q.Valid()
  {
    hide Cache.Valid, Pump.Held;
  }

  /** Whatever one pump does, the others keep what they hold; one that has failed has nothing left. */
  method StepOne(p: Pump, input: Input, available: bool, output: Output, ghost pumps: set<Pump>, ghost cache: Cache)
    returns (ret: int)
    requires Together(pumps, cache) && p in pumps
    requires (input.Data? ==> input.bytes != []) && (output.Wrote? ==> output.count > 0)
    modifies p.Mine()
    ensures ret >= 0 ==> Together(pumps, cache)
    ensures ret < 0 ==> Together(pumps - {p}, cache)
    ensures forall q :: q in pumps && q != p ==> SameHold(q)
    ensures fresh(p.Mine() - old(p.Mine()))
    ensures ret >= 0 ==>
            if old(p.WantsInput()) then Takes(input, old(p.received), p.received, old(p.Room())) else p.received == old(p.received)
    ensures ret >= 0 ==>
            |p.sent| == old(|p.sent|) + if output.Wrote? then Min(output.count, |p.received| - old(|p.sent|)) else 0
    ensures ret == -1 <==>
            old(p.WantsInput() && p.InputFails(input, available)) || (output.Failed? && |p.received| > old(|p.sent|))
  {
    forall q | q in pumps && q != p
      ensures q !in p.Mine() && (q.buf != null ==> q.buf !in p.Mine() && q.buf.data !in p.Mine())
    {
      OutOfReach(p, q, pumps, cache);
    }
    assert p.cache == cache && p.Valid();
    hide Pump.Valid, Pump.Mine, Cache.Valid;
    ret := p.Step(input, available, output);
    forall q | q in pumps && q != p
      ensures q.Valid() && SameHold(q)
      ensures p.buf != null && q.buf != null ==> p.buf != q.buf && p.buf.data != q.buf.data
    {
      assert SameHold(q);
      assert q.buf != null ==> old(cache.Apart(q.buf)) && cache.Apart(q.buf);
      StaysValid(q);
    }
  }
}
