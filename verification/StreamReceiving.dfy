/** The receive side of ASIOStreamBaseTransport with buffered messages, over the byte queue of
  * BrowserWebSocketTransportConnection: frames cut out of WebSocket messages of any length. */
module StreamReceiving {
  import opened Numbers
  import opened Results
  import opened Messages
  import Layout

  /** What the deserialiser makes of a frame. */
  datatype Parsed = Unreadable | Readable(entries: nat)

  /** The handler of the outstanding read: EndReceiveMessage1 or EndReceiveMessage2 and its start. */
  datatype Phase = InSeed(startPos: nat) | InBody(startPos: nat, size: uint32)

  const SEED := 8
  const INT32_MAX: nat := 0x7FFF_FFFF

  function SizeOf(seed: Bytes): uint32
  {
    if |seed| == SEED then
      Widths();
      FromLittleBound(seed[4..8]);
      FromLittle(seed[4..8])
    else 0
  }

  /** The checks of EndReceiveMessage1. */
  function CheckSeed(seed: Bytes, maxMessageSize: nat): Result<uint32>
    requires |seed| == SEED
  {
    if seed[..4] != Layout.MAGIC then Err(ProtocolError)
    else if SizeOf(seed) < 8 then Err(ProtocolError)
    else if SizeOf(seed) > INT32_MAX then Err(NumericCastError)
    else if SizeOf(seed) > maxMessageSize then Err(ProtocolError)
    else Ok(SizeOf(seed))
  }

  /** The first eight bytes are taken exactly when they are RRAC and a size, the low byte first, of at
    * least eight, within the maximum, and within 31 bits. */
  lemma GoodSeed(seed: Bytes, maxMessageSize: nat)
    requires |seed| == SEED
    ensures var a, b, c, d: int := seed[4], seed[5], seed[6], seed[7];
            var n := a + 0x100 * b + 0x1_0000 * c + 0x100_0000 * d;
            && (CheckSeed(seed, maxMessageSize).Ok? <==>
                seed[..4] == [0x52, 0x52, 0x41, 0x43] && 8 <= n <= maxMessageSize && n < 0x8000_0000)
            && (CheckSeed(seed, maxMessageSize).Ok? ==> CheckSeed(seed, maxMessageSize).value == n)
  {
    var b := seed[4..8];
    assert b == [seed[4], seed[5], seed[6], seed[7]];
    FourDigits(seed[4], seed[5], seed[6], seed[7]);
    hide FromLittle;
  }

  /** A frame: a whole message, of the size it says. */
  predicate Framed(f: Bytes, maxMessageSize: nat)
  {
    |f| >= SEED && CheckSeed(f[..SEED], maxMessageSize) == Ok(|f|)
  }

  /** EndReceiveMessage2 reads the version behind the eight bytes before anything else. */
  function Deserialised(parse: Bytes -> Parsed, f: Bytes): Parsed
  {
    if |f| < 10 then Unreadable else parse(f)
  }

  /** After such a frame the next one is read. */
  predicate Accepts(parse: Bytes -> Parsed, f: Bytes)
  {
    Deserialised(parse, f).Readable? && Deserialised(parse, f).entries > 0
  }

  predicate BadHeader(s: Bytes, maxMessageSize: nat)
  {
    |s| >= SEED && CheckSeed(s[..SEED], maxMessageSize).Err?
  }

  /** What a stream should lead to: its whole frames, up to the first that is not accepted. */
  function HandedOver(parse: Bytes -> Parsed, s: Bytes, maxMessageSize: nat): seq<Bytes>
    decreases |s|
  {
    if |s| < SEED || CheckSeed(s[..SEED], maxMessageSize).Err? then []
    else
      var n := CheckSeed(s[..SEED], maxMessageSize).value;
      if |s| < n then [] else [s[..n]] + if Accepts(parse, s[..n]) then HandedOver(parse, s[n..], maxMessageSize)
          else []
  }

  /** Whether the connection is to be closed: for a bad header or for a frame that cannot be read. */
  predicate Refuses(parse: Bytes -> Parsed, s: Bytes, maxMessageSize: nat)
    decreases |s|
  {
    && |s| >= SEED
    && (CheckSeed(s[..SEED], maxMessageSize).Err? ||
        var n := CheckSeed(s[..SEED], maxMessageSize).value;
        && |s| >= n
        && if Accepts(parse, s[..n]) then Refuses(parse, s[n..], maxMessageSize)
            else Deserialised(parse, s[..n]).Unreadable?)
  }

  function Flatten(q: seq<Bytes>): Bytes
  {
    if q == [] then [] else q[0] + Flatten(q[1..])
  }

  lemma {:induction false} FlattenAppend(q: seq<Bytes>, b: Bytes)
    ensures Flatten(q + [b]) == Flatten(q) + b
  {
    if q == [] {
      assert [b][1..] == [] && b + [] == b;
    } else {
      FlattenAppend(q[1..], b);
      assert (q + [b])[1..] == q[1..] + [b];
    }
  }

  lemma FrameFirst(parse: Bytes -> Parsed, f: Bytes, t: Bytes, maxMessageSize: nat)
    requires Framed(f, maxMessageSize)
    ensures HandedOver(parse, f + t, maxMessageSize) == [f]
              + if Accepts(parse, f) then HandedOver(parse, t, maxMessageSize) else []
    ensures Refuses(parse, f + t, maxMessageSize) <==>
              if Accepts(parse, f) then Refuses(parse, t, maxMessageSize) else Deserialised(parse, f).Unreadable?
  {
    hide CheckSeed, Accepts, Deserialised;
    var s := f + t;
    assert s[..SEED] == f[..SEED] && s[..|f|] == f && s[|f|..] == t;
  }

  predicate AllFramed(fs: seq<Bytes>, maxMessageSize: nat)
  {
    forall i | 0 <= i < |fs| :: Framed(fs[i], maxMessageSize)
  }

  predicate AllAccepted(parse: Bytes -> Parsed, fs: seq<Bytes>)
  {
    forall i | 0 <= i < |fs| :: Accepts(parse, fs[i])
  }

  /** The last frame, and no other, is not accepted. */
  predicate Ended(parse: Bytes -> Parsed, fs: seq<Bytes>)
  {
    fs != [] && AllAccepted(parse, fs[..|fs| - 1]) && !Accepts(parse, fs[|fs| - 1])
  }

  /** Accepted frames that follow each other are found again, whatever comes after. */
  lemma {:induction false} AfterAccepted(parse: Bytes -> Parsed, fs: seq<Bytes>, t: Bytes, maxMessageSize: nat)
    requires AllFramed(fs, maxMessageSize) && AllAccepted(parse, fs)
    ensures HandedOver(parse, Flatten(fs) + t, maxMessageSize) == fs + HandedOver(parse, t, maxMessageSize)
    ensures Refuses(parse, Flatten(fs) + t, maxMessageSize) <==> Refuses(parse, t, maxMessageSize)
  {
    hide Framed, HandedOver, Refuses, Accepts, Deserialised;
    if fs == [] {
      assert [] + t == t && [] + HandedOver(parse, t, maxMessageSize) == HandedOver(parse, t, maxMessageSize);
    } else {
      assert Flatten(fs) + t == fs[0] + (Flatten(fs[1..]) + t);
      FrameFirst(parse, fs[0], Flatten(fs[1..]) + t, maxMessageSize);
      AfterAccepted(parse, fs[1..], t, maxMessageSize);
      assert [fs[0]] + (fs[1..] + HandedOver(parse, t, maxMessageSize)) == fs + HandedOver(parse, t, maxMessageSize);
    }
  }

  /** A frame that is not accepted is the last, whatever comes after. */
  lemma AfterEnded(parse: Bytes -> Parsed, fs: seq<Bytes>, t: Bytes, maxMessageSize: nat)
    requires AllFramed(fs, maxMessageSize) && Ended(parse, fs)
    ensures HandedOver(parse, Flatten(fs) + t, maxMessageSize) == fs
    ensures Refuses(parse, Flatten(fs) + t, maxMessageSize) <==> Deserialised(parse, fs[|fs| - 1]).Unreadable?
  {
    hide Framed, HandedOver, Refuses, Accepts, Deserialised, Flatten;
    var front, last := fs[..|fs| - 1], fs[|fs| - 1];
    assert fs == front + [last];
    FlattenAppend(front, last);
    assert Flatten(fs) + t == Flatten(front) + (last + t);
    AfterAccepted(parse, front, last + t, maxMessageSize);
    FrameFirst(parse, last, t, maxMessageSize);
    assert [last] + [] == [last];
  }

  // ---------------------------------------------------------------- the receive buffer

  // the limits that SetMaxMessageSize keeps
  const LEAST_MAX_MESSAGE_SIZE := 16 * 1024
  const GREATEST_MAX_MESSAGE_SIZE := 100 * 1024 * 1024

  /** recvbuf_len = size * 12 / 10, in 32 bits */
  function GrownLength(size: uint32): uint32 { Wrap(size * 12) / 10 }

  /** No size that is accepted makes the product wrap: the grown buffer always covers the frame. */
  lemma GrownLengthCovers(seed: Bytes, maxMessageSize: nat)
    requires |seed| == SEED && maxMessageSize <= GREATEST_MAX_MESSAGE_SIZE && CheckSeed(seed, maxMessageSize).Ok?
    ensures var size := CheckSeed(seed, maxMessageSize).value;
            size * 12 <= UINT32_MAX && GrownLength(size) == size * 12 / 10 >= size
  {
    var size := CheckSeed(seed, maxMessageSize).value;
    assert Wrap(size * 12) == size * 12;
  }

  /** A frame was not readable, or the bytes behind the frames are no header. */
  predicate GoodReason(parse: Bytes -> Parsed, delivered: seq<Bytes>, behind: Bytes, maxMessageSize: nat)
  {
    || (AllAccepted(parse, delivered) && BadHeader(behind, maxMessageSize))
    || (Ended(parse, delivered) && Deserialised(parse, delivered[|delivered| - 1]).Unreadable?)
  }

  class StreamReceiver {
    const parse: Bytes -> Parsed
    const maxMessageSize: nat
    var connected: bool
    var receiving: bool
    var recvPauseRequest: bool
    var recvPaused: bool
    var recvQueue: seq<Bytes>     // recv_buf
    var active: Option<nat>       // active_read_handler waits; the length of active_read_buffers
    var posted: Option<nat>       // the read's handler is posted with this many bytes transferred
    var phase: Phase
    var streamSeed: Bytes
    var recvBuf: Bytes
    var delivered: seq<Bytes>     // the buffers handed to the deserialiser
    ghost var arrived: Bytes      // the bytes of all WebSocket messages
    ghost var lost: bool          // reading has been given up
    ghost var failed: bool        // because the transport has reported an error

    /** The part of the current frame that has been copied. */
    ghost function Partial(): Bytes
      requires Sized()
      reads `streamSeed, `recvBuf, `active, `posted, `phase
    {
      var n := phase.startPos + if posted.Some? then posted.value else 0;
      if phase.InSeed? then streamSeed[..n] else recvBuf[..n]
    }

    ghost predicate Sized()
      reads `streamSeed, `recvBuf, `active, `posted, `phase
    {
      && |streamSeed| == SEED
      && !(active.Some? && posted.Some?)
      && var t := if posted.Some? then posted.value else 0;
         match phase
         case InSeed(p) =>
           && p + t <= SEED && p < SEED && (active.Some? ==> active.value == SEED - p)
         case InBody(p, size) =>
           && SEED <= p && p + t <= size <= |recvBuf| && (p == SEED || p < size)
               && CheckSeed(streamSeed, maxMessageSize) == Ok(size)
           && recvBuf[..SEED] == streamSeed && (active.Some? ==> active.value == size - p)
    }

    /** Every byte that has arrived is in a delivered frame, in the current one or in the queue, in
      * order; and reading is given up for a bad header, an unreadable frame or an error only. */
    ghost predicate Valid()
      reads this
    {
      && Sized() && LEAST_MAX_MESSAGE_SIZE <= maxMessageSize <= GREATEST_MAX_MESSAGE_SIZE
      && AllFramed(delivered, maxMessageSize)
      && (!lost ==> arrived == Flatten(delivered) + (Partial() + Flatten(recvQueue)))
      && (!lost ==> AllAccepted(parse, delivered) || (Ended(parse, delivered) && Idle()))
      && (lost ==> !connected && active == None && posted == None && Cause())
      && (failed ==> lost)
      && (!receiving ==> Idle())
      // a read waits only when there is nothing to read
      && (active.Some? ==> Flatten(recvQueue) == [])
    }

    ghost predicate Idle()
      reads `active, `posted, `phase
    {
      active == None && posted == None && phase == InSeed(0)
    }

    /** Why reading has been given up. */
    ghost predicate Cause()
      reads `delivered, `arrived, `failed
    {
      && Flatten(delivered) <= arrived
      && if failed then AllAccepted(parse, delivered)
         else GoodReason(parse, delivered, arrived[|Flatten(delivered)|..], maxMessageSize)
    }

    constructor (parse: Bytes -> Parsed, maxMessageSize: nat)
      requires LEAST_MAX_MESSAGE_SIZE <= maxMessageSize <= GREATEST_MAX_MESSAGE_SIZE
      ensures Live() && connected && receiving && !lost && !failed && !recvPauseRequest
      ensures arrived == [] && delivered == [] && active == Some(SEED)
      ensures this.maxMessageSize == maxMessageSize && this.parse == parse
    {
      this.parse, this.maxMessageSize := parse, maxMessageSize;
      connected, receiving, recvPauseRequest, recvPaused := true, true, false, false;
      recvQueue, active, posted, phase := [], Some(SEED), None, InSeed(0);
      streamSeed, recvBuf := [0, 0, 0, 0, 0, 0, 0, 0], Blank(4 * 1024);
      delivered, arrived, lost, failed := [], [], false, false;
    }

    // -------------------------------------------------------------- the byte queue

    /** What is left of the destination of the outstanding read. */
    function Wanted(): nat
      reads `phase
    {
      match phase
      case InSeed(p) => if p <= SEED then SEED - p else 0
      case InBody(p, size) => if p <= size then size - p else 0
    }

    /** buffer_copy into the destination of the outstanding read. */
    method CopyIn(b: Bytes)
      requires Sized() && active.None? && posted.None? && |b| <= Wanted()
      modifies `streamSeed, `recvBuf, `posted
      ensures Sized() && posted == Some(|b|) && Partial() == old(Partial()) + b
    {
      match phase {
        case InSeed(p) => streamSeed := streamSeed[..p] + b + streamSeed[p + |b|..];
        case InBody(p, size) =>
          recvBuf := recvBuf[..p] + b + recvBuf[p + |b|..];
          assert recvBuf[..SEED] == old(recvBuf)[..SEED];
      }
      posted := Some(|b|);
    }

    method DropEmpty()
      modifies `recvQueue
      ensures Flatten(recvQueue) == old(Flatten(recvQueue)) && (recvQueue != [] ==> recvQueue[0] != [])
    {
      hide Flatten;
      while recvQueue != [] && recvQueue[0] == []
        invariant Flatten(recvQueue) == old(Flatten(recvQueue))
        decreases |recvQueue|
      {
        FlattenHead(recvQueue);
        assert [] + Flatten(recvQueue[1..]) == Flatten(recvQueue[1..]);
        recvQueue := recvQueue[1..];
      }
    }

    /** async_read_some: takes what is there, or waits for the next WebSocket message. */
    method AsyncReadSome()
      requires Sized() && active.None? && posted.None?
      modifies `recvQueue, `active, `posted, `streamSeed, `recvBuf
      ensures Sized() && (active.Some? <==> posted.None?)
      ensures Partial() + Flatten(recvQueue) == old(Partial() + Flatten(recvQueue))
      ensures active.Some? ==> Flatten(recvQueue) == []
      ensures posted.Some? ==> |Flatten(recvQueue)| == old(|Flatten(recvQueue)|) - posted.value
      ensures posted.Some? && Wanted() > 0 ==> posted.value > 0
    {
      hide CheckSeed, Flatten, StreamReceiver.Partial;
      DropEmpty();
      FlattenNone();
      if recvQueue == [] {
        StartWaiting();
        return;
      }
      var front, rest := recvQueue[0], recvQueue[1..];
      FlattenHead(recvQueue);
      var l := if |front| <= Wanted() then |front| else Wanted();
      ghost var before := Partial();
      CopyIn(front[..l]);
      recvQueue := if l == |front| then rest else [front[l..]] + rest;
      FrontTaken(front, rest, l, recvQueue);
      assert before + (front[..l] + Flatten(recvQueue)) == (before + front[..l]) + Flatten(recvQueue);
    }

    /** active_read_handler = handler */
    method StartWaiting()
      requires Sized() && active.None? && posted.None?
      modifies `active
      ensures Sized() && active == Some(Wanted()) && Partial() == old(Partial())
    {
      hide CheckSeed;
      active := Some(Wanted());
    }

    /** The read that waits gets what fits of a message. */
    method ServeActive(data: Bytes) returns (rest: Bytes)
      requires Sized() && active.Some?
      modifies `active, `posted, `streamSeed, `recvBuf
      ensures Sized() && active.None? && posted.Some? && Partial() + rest == old(Partial()) + data
    {
      hide CheckSeed, StreamReceiver.Partial;
      ghost var before := Partial();
      StopWaiting();
      var l := if |data| <= Wanted() then |data| else Wanted();
      CopyIn(data[..l]);
      rest := data[l..];
      assert before + (data[..l] + rest) == (before + data[..l]) + rest && data == data[..l] + rest;
    }

    method StopWaiting()
      requires Sized() && active.Some?
      modifies `active
      ensures Sized() && active.None? && posted.None? && Partial() == old(Partial())
    {
      hide CheckSeed;
      active := None;
    }

    /** websocket_message_received: a read that waits is served, the remainder is queued. */
    method WebSocketMessageReceived(data: Bytes)
      requires Live()
      modifies `recvQueue, `active, `posted, `streamSeed, `recvBuf, `arrived
      ensures Live() && arrived == old(arrived) + data
    {
      hide CheckSeed, Flatten, StreamReceiver.Partial, AllFramed, AllAccepted, Ended, Deserialised, GoodReason;
      ghost var d, p, q := Flatten(delivered), Partial(), Flatten(recvQueue);
      if lost { CauseStays(arrived, data); }
      arrived := arrived + data;
      var buffer := data;
      if active.Some? {
        buffer := ServeActive(data);
        assert d + (p + []) + data == d + (p + data);
        if |buffer| == 0 {
          assert d + (Partial() + []) == d + (p + data);
          return;
        }
        assert Partial() + (q + buffer) == Partial() + buffer;
      } else {
        assert d + (p + q) + data == d + (p + (q + data));
      }
      FlattenAppend(recvQueue, buffer);
      recvQueue := recvQueue + [buffer];
    }

    /** More bytes do not change why reading was given up. */
    lemma CauseStays(before: Bytes, data: Bytes)
      requires Cause() && before == arrived
      ensures Flatten(delivered) <= before + data
      ensures !failed ==> GoodReason(parse, delivered, (before + data)[|Flatten(delivered)|..], maxMessageSize)
    {
      hide CheckSeed, Flatten, Ended, Deserialised, AllAccepted;
      var n := |Flatten(delivered)|;
      assert (before + data)[n..] == before[n..] + data;
      if BadHeader(before[n..], maxMessageSize) {
        assert (before[n..] + data)[..SEED] == before[n..][..SEED];
      }
    }

    // -------------------------------------------------------------- the framing

    /** Close; reading has been given up, so no read is outstanding. */
    method Close(ghost error: bool)
      requires Valid() && !lost
      requires if error then AllAccepted(parse, delivered)
               else GoodReason(parse, delivered, Partial() + Flatten(recvQueue), maxMessageSize)
      modifies `connected, `phase, `posted, `active, `lost, `failed
      ensures Valid() && !connected && lost && failed == error && Idle()
    {
      hide CheckSeed, Flatten, StreamReceiver.Partial, GoodReason, AllFramed, AllAccepted, Ended;
      ghost var d := Flatten(delivered);
      assert arrived[|d|..] == Partial() + Flatten(recvQueue);
      connected := false;
      phase, posted, active, lost, failed := InSeed(0), None, None, true, error;
    }

    /** BeginReceiveMessage1 */
    method BeginReceiveMessage1()
      requires Valid() && Idle() && !lost && AllAccepted(parse, delivered)
      modifies `receiving, `recvQueue, `active, `posted, `streamSeed, `recvBuf
      ensures Valid() && receiving && (active.Some? <==> posted.None?) && phase == InSeed(0)
      ensures |Flatten(recvQueue)| <= old(|Flatten(recvQueue)|)
                && (posted.Some? ==> |Flatten(recvQueue)| < old(|Flatten(recvQueue)|))
    {
      hide CheckSeed, Flatten, StreamReceiver.Partial, StreamReceiver.Sized, AllFramed, AllAccepted, Ended,
           StreamReceiver.Cause;
      receiving := true;
      AsyncReadSome();
    }

    /** EndReceiveMessage4: the next read, or a pause. */
    method EndReceiveMessage4()
      requires Valid() && Idle() && !lost && AllAccepted(parse, delivered)
      modifies `receiving, `recvPaused, `recvQueue, `active, `posted, `streamSeed, `recvBuf
      ensures Valid() && phase == InSeed(0)
      ensures recvPauseRequest ==> !receiving && recvPaused && Idle()
      ensures !recvPauseRequest ==> receiving && !recvPaused && (active.Some? <==> posted.None?)
      ensures |Flatten(recvQueue)| <= old(|Flatten(recvQueue)|)
                && (posted.Some? ==> |Flatten(recvQueue)| < old(|Flatten(recvQueue)|))
    {
      hide CheckSeed, Flatten, StreamReceiver.Partial, StreamReceiver.Sized, AllFramed, AllAccepted, Ended,
           StreamReceiver.Cause;
      if recvPauseRequest {
        receiving := false;
        recvPaused := true;
        return;
      }
      recvPaused := false;
      BeginReceiveMessage1();
    }

    /** The read went on for posted.value bytes. */
    method Advance()
      requires Valid() && posted.Some? && posted.value < Wanted()
      modifies `phase, `posted
      ensures Valid() && posted.None? && Wanted() > 0
      ensures match old(phase)
              case InSeed(p) => phase == InSeed(p + old(posted).value)
              case InBody(p, size) => phase == InBody(p + old(posted).value, size)
    {
      hide CheckSeed, Flatten, AllFramed, AllAccepted, Ended, StreamReceiver.Cause;
      phase := match phase
        case InSeed(p) => InSeed(p + posted.value)
        case InBody(p, size) => InBody(p + posted.value, size);
      posted := None;
    }

    /** EndReceiveMessage1, without an error: a part of the first eight bytes goes on; whole, they
      * lead to the body, or to the end of the connection when they are no header. */
    method EndReceiveMessage1()
      requires Valid() && posted.Some? && phase.InSeed?
      modifies `connected, `phase, `recvQueue, `active, `posted, `streamSeed, `recvBuf, `lost, `failed
      ensures Valid() && failed == old(failed) && connected == (old(connected) && !lost)
      ensures old(Steps()) > Steps() || posted.None?
      ensures var p := old(phase.startPos + posted.value);
              if p < SEED then !lost && phase == InSeed(p) && (active.Some? <==> posted.None?)
              else
                match CheckSeed(old(streamSeed), maxMessageSize)
                case Ok(size) => !lost && phase == InBody(SEED, size) && (active.Some? <==> posted.None?)
                case Err(_) => lost
    {
      hide CheckSeed, Flatten, StreamReceiver.Partial, AllFramed, AllAccepted, Ended, StreamReceiver.Cause;
      if posted.value < SEED - phase.startPos {
        Advance();
        AsyncReadSome();
        return;
      }
      var size := CheckSeed(streamSeed, maxMessageSize);
      if size.Err? {
        HeaderIsBad();
        Close(false);
        return;
      }
      BeginBody(size.value);
      AsyncReadSome();
    }

    lemma HeaderIsBad()
      requires Valid() && posted.Some? && phase.InSeed? && phase.startPos + posted.value == SEED
      requires CheckSeed(streamSeed, maxMessageSize).Err?
      ensures GoodReason(parse, delivered, Partial() + Flatten(recvQueue), maxMessageSize)
    {
      hide CheckSeed, Flatten, AllFramed, AllAccepted, Ended, Deserialised;
      assert Partial() == streamSeed && (Partial() + Flatten(recvQueue))[..SEED] == streamSeed;
    }

    /** The body goes behind the first eight bytes, into a longer buffer if need be. */
    method BeginBody(size: uint32)
      requires Valid() && posted.Some? && phase.InSeed? && phase.startPos + posted.value == SEED
      requires CheckSeed(streamSeed, maxMessageSize) == Ok(size)
      modifies `phase, `posted, `recvBuf
      ensures Valid() && posted.None? && phase == InBody(SEED, size) && size <= |recvBuf|
    {
      hide Flatten, AllFramed, AllAccepted, Ended, StreamReceiver.Cause;
      if |recvBuf| < size {
        GrownLengthCovers(streamSeed, maxMessageSize);
        recvBuf := Blank(GrownLength(size));
      }
      ghost var p := Partial();
      recvBuf := streamSeed + recvBuf[SEED..];
      assert p == streamSeed && recvBuf[..SEED] == streamSeed;
      phase, posted := InBody(SEED, size), None;
    }

    /** In every reachable state the buffer covers the frame that is read into it. */
    lemma BufferCovers()
      requires Valid() && phase.InBody?
      ensures SEED <= phase.startPos <= phase.size <= |recvBuf|
    {
    }

    /** EndReceiveMessage2 and 3, without an error: a part of the frame goes on; whole, it is handed
      * over, and the next is read, or the connection closed when the frame is unreadable. */
    method EndReceiveMessage2()
      requires Valid() && posted.Some? && phase.InBody?
      modifies `connected, `phase, `recvQueue, `active, `posted, `streamSeed, `recvBuf, `delivered, `receiving,
                `recvPaused, `lost, `failed
      ensures Valid() && failed == old(failed) && connected == (old(connected) && !lost)
      ensures old(Steps()) > Steps() || posted.None?
      ensures var p, size := old(phase.startPos + posted.value), old(phase.size);
              if p < size then
                && delivered == old(delivered) && receiving == old(receiving) && recvPaused == old(recvPaused)
                && !lost && phase == InBody(p, size) && (active.Some? <==> posted.None?)
              else
                var frame := old(recvBuf)[..size];
                && delivered == old(delivered) + [frame]
                && (lost <==> Deserialised(parse, frame).Unreadable?)
                && if Accepts(parse, frame) then Next()
                   else Idle() && receiving == old(receiving) && recvPaused == old(recvPaused)
    {
      hide CheckSeed, Flatten, StreamReceiver.Partial, AllFramed, AllAccepted, Ended, StreamReceiver.Cause;
      if posted.value < phase.size - phase.startPos {
        Advance();
        AsyncReadSome();
        return;
      }
      var frame := Deliver();
      match Deserialised(parse, frame) {
        case Unreadable =>
          Close(false);
        case Readable(entries) =>
          if entries > 0 { EndReceiveMessage4(); }
      }
    }

    /** Either the next read is under way or the pause has taken effect. */
    ghost predicate Next()
      reads `recvPauseRequest, `receiving, `recvPaused, `active, `posted, `phase
    {
      if recvPauseRequest then !receiving && recvPaused && Idle()
      else receiving && !recvPaused && (active.Some? <==> posted.None?)
    }

    /** The frame goes to the deserialiser. */
    method Deliver() returns (frame: Bytes)
      requires Valid() && posted.Some? && phase.InBody? && phase.startPos + posted.value == phase.size
      modifies `phase, `posted, `delivered
      ensures Valid() && Idle() && frame == old(recvBuf[..phase.size])
      ensures delivered == old(delivered) + [frame] && !lost
      ensures if Accepts(parse, frame) then AllAccepted(parse, delivered) else Ended(parse, delivered)
    {
      hide Flatten, CheckSeed, Accepts, StreamReceiver.Cause;
      frame := recvBuf[..phase.size];
      assert frame[..SEED] == recvBuf[..SEED];
      FlattenAppend(delivered, frame);
      ghost var d, q := Flatten(delivered), Flatten(recvQueue);
      assert d + (frame + q) == (d + frame) + ([] + q);
      assert (delivered + [frame])[..|delivered|] == delivered;
      delivered := delivered + [frame];
      phase, posted := InSeed(0), None;
      assert streamSeed[..0] == [];
    }

    /** The posted handler of a read. */
    method EndRead(error: bool)
      requires Live() && posted.Some?
      modifies this
      ensures Live() && arrived == old(arrived) && recvPauseRequest == old(recvPauseRequest)
      ensures failed == (old(failed) || error)
      ensures old(Steps()) > Steps() || posted.None?
    {
      hide CheckSeed, Flatten, StreamReceiver.Partial, AllFramed, AllAccepted, StreamReceiver.Cause, Deserialised,
           StreamReceiver.Sized;
      if error {
        assert AllAccepted(parse, delivered);
        Close(true);
      } else if phase.InSeed? {
        EndReceiveMessage1();
      } else {
        BufferCovers();
        ghost var frame := recvBuf[..phase.size];
        EndReceiveMessage2();
        if delivered == old(delivered) + [frame] { LastDelivered(old(delivered), frame); }
      }
    }

    lemma LastDelivered(before: seq<Bytes>, frame: Bytes)
      requires delivered == before + [frame]
      ensures delivered != [] && delivered[|delivered| - 1] == frame
    {
    }

    /** Reading goes on by itself: it is given up, paused, at an end, or a read is outstanding. */
    ghost predicate Live()
      reads this
    {
      && Valid()
      && (connected <==> !lost)
      && (recvPaused ==> recvPauseRequest && (lost || !receiving))
      && (receiving || lost || (recvPauseRequest && recvPaused && AllAccepted(parse, delivered)))
      && (receiving && !lost ==>
            (active.Some? <==> posted.None?) ||
            (Ended(parse, delivered) && Idle() && Deserialised(parse, delivered[|delivered| - 1]).Readable?))
    }

    /** The measure of a run of handlers. */
    ghost function Steps(): nat
      reads `recvQueue, `phase
    {
      2 * |Flatten(recvQueue)| + if phase.InSeed? then 1 else 0
    }

    /** Runs up to n handlers that are posted, the ones they post included. */
    method RunHandlers(n: nat)
      requires Live()
      modifies this
      ensures Live() && arrived == old(arrived) && recvPauseRequest == old(recvPauseRequest) && failed == old(failed)
    {
      hide StreamReceiver.Live;
      for k := 0 to n
        invariant Live() && arrived == old(arrived) && recvPauseRequest == old(recvPauseRequest)
                  && failed == old(failed)
      {
        if posted.Some? { EndRead(false); }
      }
    }

    /** Runs the handlers that are posted until none is left. */
    method Pump()
      requires Live()
      modifies this
      ensures Live() && arrived == old(arrived) && recvPauseRequest == old(recvPauseRequest) && failed == old(failed)
      ensures posted.None?
      ensures !failed && (receiving || !connected) ==> Exact()
    {
      hide StreamReceiver.Live;
      while posted.Some?
        invariant Live() && arrived == old(arrived) && recvPauseRequest == old(recvPauseRequest)
                  && failed == old(failed)
        decreases posted.Some?, Steps()
      {
        EndRead(false);
      }
      if receiving || !connected { NothingLeft(); }
    }

    /** Exactly the frames that should be have been handed over, and the connection is given up
      * exactly when it should be. A last frame of nothing but the eight bytes, which cannot be read,
      * may still wait for a WebSocket message behind it. */
    ghost predicate Exact()
      reads `delivered, `arrived, `lost
    {
      var should := HandedOver(parse, arrived, maxMessageSize);
      || (delivered == should && (lost <==> Refuses(parse, arrived, maxMessageSize)))
      || (should != [] && |should[|should| - 1]| == SEED && delivered == should[..|should| - 1] && !lost)
    }

    lemma NothingLeft()
      requires Live() && posted.None? && (receiving || !connected)
      ensures !failed ==> Exact()
    {
      hide CheckSeed, Flatten, HandedOver, Refuses, Framed, Accepts, Deserialised, StreamReceiver.Partial,
           StreamReceiver.Sized;
      if lost {
        if !failed { GivenUp(); }
      } else {
        var rest := Partial() + Flatten(recvQueue);
        if active.Some? {
          assert rest == Partial();
          Waiting();
        } else {
          AfterEnded(parse, delivered, rest, maxMessageSize);
        }
      }
    }

    lemma GivenUp()
      requires Valid() && lost && !failed
      ensures delivered == HandedOver(parse, arrived, maxMessageSize) && Refuses(parse, arrived, maxMessageSize)
    {
      hide CheckSeed, Flatten, Framed, Accepts, Deserialised, StreamReceiver.Partial, StreamReceiver.Sized;
      var t := arrived[|Flatten(delivered)|..];
      assert arrived == Flatten(delivered) + t;
      if AllAccepted(parse, delivered) {
        hide AllAccepted, AllFramed, Ended;
        AfterAccepted(parse, delivered, t, maxMessageSize);
        if BadHeader(t, maxMessageSize) {
          assert delivered + [] == delivered;
        } else {
          NotBoth();
        }
      } else {
        AfterEnded(parse, delivered, t, maxMessageSize);
      }
    }

    lemma NotBoth()
      requires Ended(parse, delivered)
      ensures !AllAccepted(parse, delivered)
    {
    }

    lemma Waiting()
      requires Valid() && active.Some? && !lost
      ensures arrived == Flatten(delivered) + Partial()
      ensures Exact()
    {
      hide CheckSeed, Flatten, Framed, Accepts, Deserialised, HandedOver, Refuses;
      var p := Partial();
      assert p + [] == p;
      AfterAccepted(parse, delivered, p, maxMessageSize);
      Incomplete(parse, p, maxMessageSize);
      assert delivered + [] == delivered;
      if phase.InBody? {
        assert p[..SEED] == streamSeed;
        if phase.startPos == phase.size {
          assert (delivered + [p])[..|delivered|] == delivered;
        }
      }
    }

    /** At every moment, errors included, what has been handed over begins what should be. */
    lemma AlwaysInOrder()
      requires Valid()
      ensures delivered <= HandedOver(parse, arrived, maxMessageSize)
    {
      hide CheckSeed, Flatten, Framed, Accepts, Deserialised, HandedOver, Refuses, StreamReceiver.Partial,
           StreamReceiver.Sized;
      var t := arrived[|Flatten(delivered)|..];
      assert arrived == Flatten(delivered) + t;
      if AllAccepted(parse, delivered) {
        AfterAccepted(parse, delivered, t, maxMessageSize);
      } else {
        AfterEnded(parse, delivered, t, maxMessageSize);
      }
    }

    /** AsyncPauseReceive: at once between messages, else after the message at hand. */
    method AsyncPauseReceive() returns (r: Result<()>)
      requires Live()
      modifies `recvPauseRequest, `recvPaused
      ensures Live() && (r.Err? <==> old(recvPauseRequest || recvPaused)) && recvPauseRequest
      ensures posted == old(posted)
    {
      hide CheckSeed, Flatten, StreamReceiver.Partial, StreamReceiver.Sized, AllFramed, AllAccepted, Ended,
           StreamReceiver.Cause;
      if recvPauseRequest || recvPaused { return Err(InvalidOperation); }
      if !receiving { recvPaused := true; }
      recvPauseRequest := true;
      return Ok(());
    }

    /** AsyncResumeReceive: reading goes on where it stopped. */
    method AsyncResumeReceive() returns (r: Result<()>)
      requires Live()
      modifies `recvPauseRequest, `recvPaused, `receiving, `recvQueue, `active, `posted, `streamSeed, `recvBuf
      ensures Live() && (r.Err? <==> old(recvPauseRequest && !recvPaused))
      ensures recvPauseRequest == (old(recvPauseRequest) && r.Err?)
    {
      hide CheckSeed, Flatten, StreamReceiver.Partial, StreamReceiver.Sized, AllFramed, AllAccepted, Ended,
           StreamReceiver.Cause, Deserialised;
      if !recvPauseRequest { return Ok(()); }
      if recvPauseRequest && !recvPaused { return Err(InvalidOperation); }
      recvPauseRequest := false;
      recvPaused := false;
      if !connected { return Ok(()); }
      if receiving { return Ok(()); }
      BeginReceiveMessage1();
      return Ok(());
    }
  }

  /** Bytes without a whole frame, and a frame of nothing but eight bytes. */
  lemma Incomplete(parse: Bytes -> Parsed, s: Bytes, maxMessageSize: nat)
    ensures |s| < SEED ==> HandedOver(parse, s, maxMessageSize) == [] && !Refuses(parse, s, maxMessageSize)
    ensures |s| >= SEED && CheckSeed(s[..SEED], maxMessageSize).Ok? ==>
              && (|s| < CheckSeed(s[..SEED], maxMessageSize).value ==>
                    HandedOver(parse, s, maxMessageSize) == [] && !Refuses(parse, s, maxMessageSize))
              && (|s| == CheckSeed(s[..SEED], maxMessageSize).value == SEED ==>
                  HandedOver(parse, s, maxMessageSize) == [s])
  {
    hide CheckSeed;
    assert s[..|s|] == s && s[|s|..] == [];
  }

  // ---------------------------------------------------------------- whole runs

  /** What happens to a receiver between two WebSocket messages: handlers run, and pauses come and go. */
  datatype Event = Arrival(data: Bytes) | Handlers(n: nat) | Pause | Resume

  function Data(events: seq<Event>): Bytes
  {
    if events == [] then [] else (if events[0].Arrival? then events[0].data else []) + Data(events[1..])
  }

  lemma {:induction false} DataAppend(events: seq<Event>, e: Event)
    ensures Data(events + [e]) == Data(events) + if e.Arrival? then e.data else []
  {
    if events == [] {
      assert [e][1..] == [] && events + [e] == [e];
    } else {
      DataAppend(events[1..], e);
      assert (events + [e])[1..] == events[1..] + [e];
    }
  }

  /** Over every interleaving of WebSocket messages of any length, handlers, pauses and resumes:
    * once reading goes on and no handler is left, exactly the right frames have been handed over,
    * and the connection is open unless a header was bad or a frame unreadable. */
  method Receive(receiver: StreamReceiver, events: seq<Event>)
    requires receiver.Live() && !receiver.failed && receiver.arrived == []
    modifies receiver
    ensures receiver.Live() && !receiver.failed && receiver.posted.None? && receiver.arrived == Data(events)
    ensures receiver.Exact()
  {
    hide StreamReceiver.Live, StreamReceiver.Exact, Data;
    NoData();
    for k := 0 to |events|
      invariant receiver.Live() && !receiver.failed && receiver.arrived == Data(events[..k])
    {
      assert events[..k + 1] == events[..k] + [events[k]];
      DataAppend(events[..k], events[k]);
      match events[k] {
        case Arrival(data) => receiver.WebSocketMessageReceived(data);
        case Handlers(n) => receiver.RunHandlers(n);
        case Pause => var _ := receiver.AsyncPauseReceive();
        case Resume => var _ := receiver.AsyncResumeReceive();
      }
    }
    assert events[..|events|] == events;
    receiver.Pump();
    if !receiver.receiving && receiver.connected {
      NotReceiving(receiver);
      var _ := receiver.AsyncResumeReceive();
      StillReceiving(receiver);
      receiver.Pump();
      StillReceiving(receiver);
    }
  }

  lemma NoData()
    ensures Data([]) == []
  {
  }

  lemma NotReceiving(receiver: StreamReceiver)
    requires receiver.Live() && !receiver.receiving && receiver.connected
    ensures receiver.recvPauseRequest && receiver.recvPaused
  {
  }

  lemma StillReceiving(receiver: StreamReceiver)
    requires receiver.Live() && !receiver.recvPauseRequest
    ensures receiver.receiving || !receiver.connected
  {
  }

  /** End-to-end framing: readable frames, sent one after the other, cut into WebSocket messages in
    * any way and read in between in any way, are handed over exactly as they were sent; and unless
    * something bad follows them the connection stays. */
  method ReceiveAll(receiver: StreamReceiver, events: seq<Event>, ghost frames: seq<Bytes>, ghost rest: Bytes)
    requires receiver.Live() && !receiver.failed && receiver.arrived == []
    requires Data(events) == Flatten(frames) + rest
    requires forall f | f in frames :: Framed(f, receiver.maxMessageSize) && Accepts(receiver.parse, f)
    requires HandedOver(receiver.parse, rest, receiver.maxMessageSize) == []
    modifies receiver
    ensures receiver.Live() && receiver.delivered == frames
    ensures receiver.lost <==> BadHeader(rest, receiver.maxMessageSize)
  {
    hide CheckSeed, Framed, Accepts, StreamReceiver.Live, HandedOver, Refuses, Data, Flatten;
    Receive(receiver, events);
    AfterAccepted(receiver.parse, frames, rest, receiver.maxMessageSize);
    assert frames + [] == frames;
    OnlyBadHeader(receiver.parse, rest, receiver.maxMessageSize);
    if frames != [] { LongerThanSeed(receiver.parse, frames[|frames| - 1]); }
  }

  lemma OnlyBadHeader(parse: Bytes -> Parsed, rest: Bytes, maxMessageSize: nat)
    requires HandedOver(parse, rest, maxMessageSize) == []
    ensures Refuses(parse, rest, maxMessageSize) <==> BadHeader(rest, maxMessageSize)
  {
    hide CheckSeed;
  }

  lemma LongerThanSeed(parse: Bytes -> Parsed, f: Bytes)
    requires Accepts(parse, f)
    ensures |f| > SEED
  {
  }

  function Blank(n: nat): (b: Bytes)
    ensures |b| == n
  {
    if n == 0 then [] else [0] + Blank(n - 1)
  }

  lemma FlattenNone()
    ensures Flatten([]) == []
  {
  }

  lemma FlattenHead(q: seq<Bytes>)
    requires q != []
    ensures Flatten(q) == q[0] + Flatten(q[1..])
  {
  }

  lemma FrontTaken(front: Bytes, rest: seq<Bytes>, l: nat, q: seq<Bytes>)
    requires l <= |front| && q == if l == |front| then rest else [front[l..]] + rest
    ensures front + Flatten(rest) == front[..l] + Flatten(q)
    ensures |Flatten(q)| == |front| + |Flatten(rest)| - l
  {
    if l < |front| {
      FlattenHead(q);
      assert q[1..] == rest;
      assert front[..l] + (front[l..] + Flatten(rest)) == (front[..l] + front[l..]) + Flatten(rest);
    }
  }
}
