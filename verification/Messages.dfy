/** Messages in the byte ring: a 4-byte length, the bytes of a C string, and its NUL. */
module Messages {
  import opened Bits
  import opened ByteRing

  /** The bytes of a C string before its NUL. */
  type Message = seq<Byte>

  const INT_SIZE := 4
  const INT_LIMIT := 0x8000_0000

  /** A string whose framed size is a C int. */
  predicate IsString(m: Message)
  {
    |m| + 1 + INT_SIZE < INT_LIMIT && forall i :: 0 <= i < |m| ==> m[i] != 0
  }

  /** An int as it lies in memory, least significant byte first. */
  function IntBytes(n: nat): (s: seq<Byte>)
    requires n < INT_LIMIT
    ensures |s| == INT_SIZE
  {
    [n % 256, n / 256 % 256, n / 65536 % 256, n / 16777216]
  }

  function IntOf(s: seq<Byte>): nat
    requires |s| == INT_SIZE
  {
    var b0: nat, b1: nat, b2: nat, b3: nat := s[0], s[1], s[2], s[3];
    b0 + 256 * b1 + 65536 * b2 + 16777216 * b3
  }

  lemma IntRoundTrip(n: nat)
    requires n < INT_LIMIT
    ensures IntOf(IntBytes(n)) == n
  {
    assert n / 256 / 256 == n / 65536 && n / 65536 / 256 == n / 16777216;
  }

  /** get_msg_size */
  function MsgSize(m: Message): nat
  {
    INT_SIZE + |m| + 1
  }

  function Frame(m: Message): (s: seq<Byte>)
    requires IsString(m)
    ensures |s| == MsgSize(m)
  {
    IntBytes(|m| + 1) + m + [0]
  }

  ghost predicate AllStrings(q: seq<Message>)
  {
    forall i :: 0 <= i < |q| ==> IsString(q[i])
  }

  function Used(q: seq<Message>): nat
  {
    if q == [] then 0 else MsgSize(q[0]) + Used(q[1..])
  }

  ghost function Frames(q: seq<Message>): (s: seq<Byte>)
    requires AllStrings(q)
    ensures |s| == Used(q)
  {
    if q == [] then [] else Frame(q[0]) + Frames(q[1..])
  }

  lemma {:induction false} UsedAppend(q: seq<Message>, m: Message)
    ensures Used(q + [m]) == Used(q) + MsgSize(m)
  {
    if q == [] {
      assert q + [m] == [m];
    } else {
      assert (q + [m])[1..] == q[1..] + [m];
      UsedAppend(q[1..], m);
    }
  }

  lemma {:induction false} FramesAppend(q: seq<Message>, m: Message)
    requires AllStrings(q) && IsString(m)
    ensures AllStrings(q + [m]) && Frames(q + [m]) == Frames(q) + Frame(m)
    ensures Used(q + [m]) == Used(q) + MsgSize(m)
  {
    hide Frame, Used, MsgSize;
    UsedAppend(q, m);
    var r := q + [m];
    assert AllStrings(r);
    if q == [] {
      assert Frames(r[1..]) == [];
      assert Frames(r) == Frame(m) + Frames(r[1..]);
    } else {
      assert r[1..] == q[1..] + [m] && r[0] == q[0];
      FramesAppend(q[1..], m);
      assert Frames(r) == Frame(q[0]) + (Frames(q[1..]) + Frame(m));
    }
  }

  /** The first four bytes give the length of the first text. */
  lemma FirstFrame(q: seq<Message>)
    requires AllStrings(q) && q != []
    ensures var s := Frames(q); var n := |q[0]| + 1;
      && |s| >= INT_SIZE + n && IntOf(s[..INT_SIZE]) == n
      && s[INT_SIZE..][..n] == q[0] + [0] && s[INT_SIZE..][n..] == Frames(q[1..])
  {
    hide IntOf, IntBytes;
    var m := q[0];
    IntRoundTrip(|m| + 1);
    FirstParts(q);
    hide Frames;
    ThreeParts(IntBytes(|m| + 1), m + [0], Frames(q[1..]));
  }

  lemma FirstParts(q: seq<Message>)
    requires AllStrings(q) && q != []
    ensures Frames(q) == IntBytes(|q[0]| + 1) + (q[0] + [0]) + Frames(q[1..])
  {
    hide IntBytes;
    var a, b, c := IntBytes(|q[0]| + 1), q[0], Frames(q[1..]);
    assert a + b + [0] + c == a + (b + [0]) + c;
  }

  lemma ThreeParts(a: seq<Byte>, b: seq<Byte>, c: seq<Byte>)
    ensures (a + b + c)[..|a|] == a && (a + b + c)[|a|..][..|b|] == b && (a + b + c)[|a|..][|b|..] == c
  {
  }

  datatype Status = Success | ClosedError | BufferError | SpecialMessage

  /** What a call does under the lock: return, go to sleep, or leave to signal. */
  datatype Outcome =
    | Returned(status: Status)          // unlocked and returned without a signal
    | Sleeps                            // in pthread_cond_wait
    | SignalsBoth(status: Status)       // will signal chconrec, then chconsend
    | Sent                              // will signal chconsend
    | Received(data: seq<Byte>)         // will signal chconrec

  /** The channel as the protocol sees it. */
  datatype Chan = Chan(size: nat, isopen: bool, queue: seq<Message>)

  function Avail(c: Chan): int
  {
    c.size - Used(c.queue)
  }

  // ---------- the critical sections of helper.c, as functions of the channel ----------

  /** The while loop of buffer_send, entered with the buffer open: sleep, or add and go. */
  function SendLoop(c: Chan, m: Message): (Chan, Outcome)
  {
    if Avail(c) <= MsgSize(m) then (c, Sleeps) else (c.(queue := c.queue + [m]), Sent)
  }

  /** buffer_send from the lock on. */
  function SendEnter(c: Chan, m: Message): (Chan, Outcome)
  {
    if !c.isopen then (c, Returned(ClosedError)) else SendLoop(c, m)
  }

  /** buffer_send after pthread_cond_wait returned. */
  function SendResume(c: Chan, m: Message): (Chan, Outcome)
  {
    if !c.isopen then (c, SignalsBoth(ClosedError)) else SendLoop(c, m)
  }

  function ReceiveLoop(c: Chan): (Chan, Outcome)
  {
    if Avail(c) >= c.size || c.queue == [] then (c, Sleeps)
    else (c.(queue := c.queue[1..]), Received(c.queue[0] + [0]))
  }

  function ReceiveEnter(c: Chan): (Chan, Outcome)
  {
    if !c.isopen then (c, Returned(ClosedError)) else ReceiveLoop(c)
  }

  function ReceiveResume(c: Chan): (Chan, Outcome)
  {
    if !c.isopen then (c, SignalsBoth(ClosedError)) else ReceiveLoop(c)
  }

  function CloseSection(c: Chan): (Chan, Outcome)
  {
    if !c.isopen then (c, SignalsBoth(ClosedError)) else (c.(isopen := false), SignalsBoth(Success))
  }

  /** What buffer_receive makes of the data it read. */
  function ReceiveStatus(data: seq<Byte>): Status
  {
    if data == SPLMSG then SpecialMessage else Success
  }

  const SPLMSG: seq<Byte> := [115, 112, 108, 109, 115, 103, 0]   // "splmsg"

  // ---------- state_t ----------

  class Buffer {
    var isopen: bool
    var fifoQ: Fifo
    ghost var queue: seq<Message>

    ghost predicate Valid()
      reads this, fifoQ, fifoQ.buf
    {
      && fifoQ.Ring() && fifoQ.Consistent()
      && AllStrings(queue) && fifoQ.Stored() == Frames(queue)
    }

    /** The channel that this buffer represents. */
    ghost function Abs(): Chan
      reads this, fifoQ
    {
      Chan(fifoQ.size, isopen, queue)
    }

    /** buffer_create */
    constructor (capacity: nat)
      requires capacity >= 1
      ensures Valid() && Abs() == Chan(capacity, true, []) && fresh(fifoQ) && fresh(fifoQ.buf)
    {
      fifoQ := new Fifo.Init(capacity);
      isopen := true;
      queue := [];
    }

    /** buffer_add_Q */
    method AddQ(data: Message) returns (status: Status)
      requires Valid() && IsString(data)
      modifies this`queue, fifoQ, fifoQ.buf
      ensures Valid() && fifoQ.size == old(fifoQ.size) && fifoQ.buf == old(fifoQ.buf)
      ensures old(Avail(Abs())) > MsgSize(data) ==> status == Success && queue == old(queue) + [data]
      ensures old(Avail(Abs())) <= MsgSize(data) ==>
        status == BufferError && queue == old(queue) && fifoQ.Stored() == old(fifoQ.Stored())
    {
      var sizeData := |data| + 1;
      if fifoQ.avilSize > INT_SIZE + sizeData {
        WriteMessage(data);
        FramesAppend(queue, data);
        queue := queue + [data];
        return Success;
      }
      return BufferError;
    }

    /** The two fifo_write calls that put one message on the ring; neither takes the "no room" exit. */
    method WriteMessage(data: Message)
      requires fifoQ.Ring() && IsString(data) && |fifoQ.Stored()| + MsgSize(data) < fifoQ.size
      modifies fifoQ`head, fifoQ`avilSize, fifoQ.buf
      ensures fifoQ.Ring() && fifoQ.Stored() == old(fifoQ.Stored()) + Frame(data)
      ensures fifoQ.avilSize == old(fifoQ.avilSize) - MsgSize(data)
    {
      hide Fifo.Stored;
      ghost var s0 := fifoQ.Stored();
      var n := fifoQ.Write(IntBytes(|data| + 1));
      assert n == INT_SIZE;
      var text: seq<Byte> := data + [0];
      n := fifoQ.Write(text);
      assert n == |data| + 1;
      assert s0 + IntBytes(|data| + 1) + text == s0 + Frame(data);
    }

    /**
     * The two fifo_read calls that take one message off the ring. When the ring is empty they read
     * nothing, and the size is still the one that the caller's local held before.
     */
    method ReadMessage(ghost q: seq<Message>, before: int) returns (data: seq<Byte>, size: int, moved: int)
      requires fifoQ.Ring() && AllStrings(q) && fifoQ.Stored() == Frames(q)
      modifies fifoQ`tail, fifoQ`avilSize
      ensures fifoQ.Ring() && moved == fifoQ.avilSize - old(fifoQ.avilSize)
      ensures q == [] ==> data == [] && fifoQ.Stored() == Frames(q)
      ensures q != [] ==> data == q[0] + [0] && moved == MsgSize(q[0]) && fifoQ.Stored() == Frames(q[1..])
    {
      hide Fifo.Stored, IsString, IntOf;
      ghost var s0 := fifoQ.Stored();
      var header, k := fifoQ.Read(INT_SIZE);
      size := before;
      if header != [] {
        FirstFrame(q);
        size := IntOf(header);
      }
      data, moved := fifoQ.Read(size);
      moved := k + moved;
    }

    /** buffer_remove_Q */
    method RemoveQ() returns (status: Status, data: seq<Byte>)
      requires Valid()
      modifies this`queue, fifoQ`tail, fifoQ`avilSize
      ensures Valid()
      ensures old(queue) == [] ==> status == BufferError && queue == []
      ensures old(queue) != [] ==>
        status == Success && data == old(queue)[0] + [0] && queue == old(queue)[1..]
    {
      data := [];
      if fifoQ.avilSize < fifoQ.size {
        var actualDataSize: int := *;
        var text, _, _ := ReadMessage(queue, actualDataSize);
        data := text;
        queue := queue[1..];
        return Success, data;
      }
      return BufferError, data;
    }

    /**
     * buffer_top_message: the index-th message, counted from 1, or the last one if there are fewer;
     * the ring is as before.
     */
    method TopMessage(index: int) returns (status: Status, data: seq<Byte>)
      requires Valid()
      modifies fifoQ`tail, fifoQ`head, fifoQ`avilSize
      ensures Valid() && Abs() == old(Abs()) && status == Success
      ensures index > 0 && queue != [] ==> data == queue[Min(index, |queue|) - 1] + [0]
      ensures index <= 0 || queue == [] ==> data == []
      ensures fifoQ.tail == old(fifoQ.tail) && fifoQ.head == old(fifoQ.head)
      ensures fifoQ.avilSize == old(fifoQ.avilSize)
    {
      hide Fifo.Stored, IsString, Frames;
      var actualDataSize: int := *;
      var oldTail, oldHead := fifoQ.tail, fifoQ.head;
      var moveBytes := 0;
      data := [];
      var i := 0;
      while i < index
        invariant 0 <= i && fifoQ.Ring() && fifoQ.head == oldHead && AllStrings(queue[Min(i, |queue|)..])
        invariant fifoQ.Stored() == Frames(queue[Min(i, |queue|)..])
        invariant fifoQ.avilSize == old(fifoQ.avilSize) + moveBytes
        invariant data == if i == 0 || queue == [] then [] else queue[Min(i, |queue|) - 1] + [0]
        invariant i <= index || i == 0
      {
        ghost var rest := queue[Min(i, |queue|)..];
        var text, moved;
        text, actualDataSize, moved := ReadMessage(rest, actualDataSize);
        if text != [] { data := text; }
        moveBytes := moveBytes + moved;
        i := i + 1;
        assert rest != [] ==> rest[1..] == queue[Min(i, |queue|)..];
      }
      fifoQ.avilSize := fifoQ.avilSize - moveBytes;
      fifoQ.tail := oldTail;
      fifoQ.head := oldHead;
      return Success, data;
    }

    // ---------- critical sections ----------

    method SendLoopSection(data: Message) returns (o: Outcome)
      requires Valid() && IsString(data)
      modifies this, fifoQ, fifoQ.buf
      ensures Valid() && fifoQ == old(fifoQ) && fifoQ.buf == old(fifoQ.buf)
      ensures (Abs(), o) == SendLoop(old(Abs()), data)
    {
      var msgSize := MsgSize(data);
      var avail := fifoQ.AvailSize();
      if avail <= msgSize { return Sleeps; }
      var _ := AddQ(data);
      return Sent;
    }

    method SendEnterSection(data: Message) returns (o: Outcome)
      requires Valid() && IsString(data)
      modifies this, fifoQ, fifoQ.buf
      ensures Valid() && fifoQ == old(fifoQ) && fifoQ.buf == old(fifoQ.buf)
      ensures (Abs(), o) == SendEnter(old(Abs()), data)
    {
      if !isopen { return Returned(ClosedError); }
      o := SendLoopSection(data);
    }

    method SendResumeSection(data: Message) returns (o: Outcome)
      requires Valid() && IsString(data)
      modifies this, fifoQ, fifoQ.buf
      ensures Valid() && fifoQ == old(fifoQ) && fifoQ.buf == old(fifoQ.buf)
      ensures (Abs(), o) == SendResume(old(Abs()), data)
    {
      if !isopen { return SignalsBoth(ClosedError); }
      o := SendLoopSection(data);
    }

    method ReceiveLoopSection() returns (o: Outcome)
      requires Valid()
      modifies this, fifoQ, fifoQ.buf
      ensures Valid() && fifoQ == old(fifoQ) && fifoQ.buf == old(fifoQ.buf)
      ensures (Abs(), o) == ReceiveLoop(old(Abs()))
    {
      if fifoQ.avilSize >= fifoQ.size { return Sleeps; }
      var _, data := RemoveQ();
      return Received(data);
    }

    method ReceiveEnterSection() returns (o: Outcome)
      requires Valid()
      modifies this, fifoQ, fifoQ.buf
      ensures Valid() && fifoQ == old(fifoQ) && fifoQ.buf == old(fifoQ.buf)
      ensures (Abs(), o) == ReceiveEnter(old(Abs()))
    {
      if !isopen { return Returned(ClosedError); }
      o := ReceiveLoopSection();
    }

    method ReceiveResumeSection() returns (o: Outcome)
      requires Valid()
      modifies this, fifoQ, fifoQ.buf
      ensures Valid() && fifoQ == old(fifoQ) && fifoQ.buf == old(fifoQ.buf)
      ensures (Abs(), o) == ReceiveResume(old(Abs()))
    {
      if !isopen { return SignalsBoth(ClosedError); }
      o := ReceiveLoopSection();
    }

    method CloseSectionUnderLock() returns (o: Outcome)
      requires Valid()
      modifies this`isopen
      ensures Valid() && (Abs(), o) == CloseSection(old(Abs()))
    {
      if !isopen { return SignalsBoth(ClosedError); }
      isopen := false;
      return SignalsBoth(Success);
    }
  }
}
