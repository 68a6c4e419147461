/** The send side of ASIOStreamBaseTransport with buffered messages, over
  * BrowserWebSocketTransportConnection::async_write_some: one message on the wire at a time, the
  * others in a queue that keeps only the newest value of a wire. */
module StreamSending {
  import opened Numbers
  import opened Results
  import opened Messages

  /** The header fields that must agree for a queued message to be superseded. */
  datatype Route = Route(receiverNodeName: Bytes, senderNodeName: Bytes, receiverNodeID: NodeID, senderNodeID: NodeID,
                         senderEndpoint: uint32, receiverEndpoint: uint32)

  datatype EntryKind = ConnectionTest | WirePacket | OtherKind

  datatype OutEntry = OutEntry(kind: EntryKind, servicePath: Bytes, memberName: Bytes)

  /** encoding: what Write or Write4 puts into the send buffer. */
  datatype OutMessage = OutMessage(route: Route, entries: seq<OutEntry>, encoding: Bytes)

  type Callback = nat

  datatype Queued = Queued(message: OutMessage, callback: Callback)

  /** The handler of async_write_some: EndSendMessage bound to what it needs, and the bytes written. */
  datatype PendingWrite = PendingWrite(message: OutMessage, callback: Callback, startPos: nat, transferred: nat)

  /** A callback that has been called or posted, and with what. */
  datatype Fired = Fired(callback: Callback, error: Option<Error>)

  const MAX_WRITE := 65536
  const INT32_MAX: nat := 0x7FFF_FFFF

  // ---------------------------------------------------------------- what supersedes what

  predicate IsTest(m: OutMessage) { |m.entries| == 1 && m.entries[0].kind == ConnectionTest }

  predicate IsWirePacket(m: OutMessage) { |m.entries| == 1 && m.entries[0].kind == WirePacket }

  /** Connection tests between the same ends. */
  predicate SameTest(a: OutMessage, b: OutMessage) { IsTest(a) && IsTest(b) && a.route == b.route }

  /** Values of one wire: the same but for what is sent. */
  predicate SameWire(a: OutMessage, b: OutMessage) { IsWirePacket(b) && a.(encoding := b.encoding) == b }

  /** All that two values of one wire have in common. */
  lemma SameWireFields(a: OutMessage, b: OutMessage)
    ensures SameWire(a, b) <==>
            && a.route.receiverNodeName == b.route.receiverNodeName && a.route.senderNodeName == b.route.senderNodeName
            && a.route.receiverNodeID == b.route.receiverNodeID && a.route.senderNodeID == b.route.senderNodeID
            && a.route.senderEndpoint == b.route.senderEndpoint && a.route.receiverEndpoint == b.route.receiverEndpoint
            && |a.entries| == |b.entries| == 1
            && a.entries[0].kind == b.entries[0].kind == WirePacket
            && a.entries[0].servicePath == b.entries[0].servicePath
            && a.entries[0].memberName == b.entries[0].memberName
  {
    if |a.entries| == |b.entries| == 1 && a.entries[0] == b.entries[0] {
      assert a.entries == [a.entries[0]] && b.entries == [b.entries[0]];
    }
  }

  /** No two queued messages could be one. */
  predicate Coalesced(q: seq<Queued>)
  {
    forall i, j | 0 <= i < j < |q| :: !SameTest(q[i].message, q[j].message) && !SameWire(q[i].message, q[j].message)
  }

  function Waiting(q: seq<Queued>): (t: seq<Callback>)
    ensures |t| == |q| && forall i | 0 <= i < |q| :: t[i] == q[i].callback
  {
    if q == [] then [] else [q[0].callback] + Waiting(q[1..])
  }

  function Done(fs: seq<Fired>): (t: seq<Callback>)
    ensures |t| == |fs| && forall i | 0 <= i < |fs| :: t[i] == fs[i].callback
  {
    if fs == [] then [] else [fs[0].callback] + Done(fs[1..])
  }

  function InFlight(p: Option<PendingWrite>): multiset<Callback>
  {
    if p.Some? then multiset{p.value.callback} else multiset{}
  }

  /** Every accepted callback has fired, is in flight or is waiting, exactly once. */
  predicate Accounted(accepted: multiset<Callback>, fired: seq<Fired>, p: Option<PendingWrite>, q: seq<Queued>)
  {
    accepted == multiset(Done(fired)) + InFlight(p) + multiset(Waiting(q))
  }

  /** The handler of a pause, called when the pause takes effect or the connection is closed. */
  function Called(handler: Option<Callback>, error: Option<Error>): seq<Fired>
  {
    if handler.Some? then [Fired(handler.value, error)] else []
  }

  /** Every handler of a pause that has been accepted has been called or still waits, exactly once. */
  ghost predicate PausesAccounted(asked: multiset<Callback>, called: seq<Fired>, waits: Option<Callback>)
  {
    asked == multiset(Done(called)) + if waits.Some? then multiset{waits.value} else multiset{}
  }

  lemma PauseCalled(asked: multiset<Callback>, called: seq<Fired>, waits: Option<Callback>, error: Option<Error>)
    requires PausesAccounted(asked, called, waits)
    ensures PausesAccounted(asked, called + Called(waits, error), None)
  {
    hide Done;
    if waits.Some? {
      DoneAppend(called, Fired(waits.value, error));
    } else {
      assert called + [] == called;
    }
  }

  lemma PauseAsked(asked: multiset<Callback>, called: seq<Fired>, handler: Callback)
    requires PausesAccounted(asked, called, None)
    ensures PausesAccounted(asked + multiset{handler}, called + [Fired(handler, None)], None)
    ensures PausesAccounted(asked + multiset{handler}, called, Some(handler))
  {
    hide Done;
    DoneAppend(called, Fired(handler, None));
  }

  function Encodings(ms: seq<OutMessage>): Bytes
  {
    if ms == [] then [] else Encodings(ms[..|ms| - 1]) + ms[|ms| - 1].encoding
  }

  lemma MultisetAppend<T>(s: seq<T>, x: T)
    ensures multiset(s + [x]) == multiset(s) + multiset{x}
  {
  }

  lemma MultisetUpdate<T>(s: seq<T>, i: nat, x: T)
    requires i < |s|
    ensures multiset(s[i := x]) + multiset{s[i]} == multiset(s) + multiset{x}
  {
    assert s[i] in multiset(s);
  }

  lemma MultisetHead<T>(s: seq<T>)
    requires s != []
    ensures multiset(s) == multiset{s[0]} + multiset(s[1..])
  {
    assert s == [s[0]] + s[1..];
  }

  lemma WaitingAppend(q: seq<Queued>, e: Queued)
    ensures Waiting(q + [e]) == Waiting(q) + [e.callback]
  {
  }

  lemma DoneAppend(fs: seq<Fired>, f: Fired)
    ensures Done(fs + [f]) == Done(fs) + [f.callback]
  {
  }

  lemma AccountedLast(accepted: multiset<Callback>, fired: seq<Fired>, p: Option<PendingWrite>, q: seq<Queued>,
                      e: Queued)
    requires Accounted(accepted, fired, p, q)
    ensures Accounted(accepted + multiset{e.callback}, fired, p, q + [e])
  {
    hide Done, Waiting, InFlight;
    WaitingAppend(q, e);
    MultisetAppend(Waiting(q), e.callback);
  }

  lemma AccountedReplaced(accepted: multiset<Callback>, fired: seq<Fired>, p: Option<PendingWrite>, q: seq<Queued>,
                          i: nat, e: Queued)
    requires Accounted(accepted, fired, p, q) && i < |q|
    ensures Accounted(accepted + multiset{e.callback}, fired + [Fired(q[i].callback, None)], p, q[i := e])
  {
    hide Done, Waiting, InFlight;
    assert Waiting(q[i := e]) == Waiting(q)[i := e.callback];
    MultisetUpdate(Waiting(q), i, e.callback);
    DoneAppend(fired, Fired(q[i].callback, None));
    MultisetAppend(Done(fired), q[i].callback);
  }

  lemma AccountedStarted(accepted: multiset<Callback>, fired: seq<Fired>, p: PendingWrite, q: seq<Queued>)
    requires Accounted(accepted, fired, None, q)
    ensures Accounted(accepted + multiset{p.callback}, fired, Some(p), q)
  {
    hide Done, Waiting;
  }

  /** A queued message whose place a newer value of its wire has taken. */
  datatype Superseded = Superseded(older: Queued, newer: Queued)

  /** A callback has fired without an error only for a message that has gone out whole or has been
    * superseded by a newer value of its wire. */
  ghost predicate Explained(fs: seq<Fired>, whole: seq<Queued>, superseded: seq<Superseded>)
  {
    && (forall p | p in superseded :: SameWire(p.older.message, p.newer.message))
    && forall f | f in fs && f.error == None :: IsWhole(f.callback, whole) || IsSuperseded(f.callback, superseded)
  }

  ghost predicate IsWhole(c: Callback, whole: seq<Queued>) { exists q | q in whole :: q.callback == c }

  ghost predicate IsSuperseded(c: Callback, superseded: seq<Superseded>) { exists p | p in superseded ::
                                                                          p.older.callback == c }

  lemma ExplainedError(fs: seq<Fired>, whole: seq<Queued>, superseded: seq<Superseded>, errors: seq<Fired>)
    requires Explained(fs, whole, superseded) && forall f | f in errors :: f.error.Some?
    ensures Explained(fs + errors, whole, superseded)
  {
    hide IsWhole, IsSuperseded, SameWire;
  }

  lemma ExplainedWhole(fs: seq<Fired>, whole: seq<Queued>, superseded: seq<Superseded>, q: Queued)
    requires Explained(fs, whole, superseded)
    ensures Explained(fs + [Fired(q.callback, None)], whole + [q], superseded)
  {
    hide SameWire;
    assert (whole + [q])[|whole|] == q;
    forall c | IsWhole(c, whole) ensures IsWhole(c, whole + [q]) {
      var x :| x in whole && x.callback == c;
      assert x in whole + [q];
    }
  }

  lemma ExplainedSuperseded(fs: seq<Fired>, whole: seq<Queued>, superseded: seq<Superseded>, p: Superseded)
    requires Explained(fs, whole, superseded) && SameWire(p.older.message, p.newer.message)
    ensures Explained(fs + [Fired(p.older.callback, None)], whole, superseded + [p])
  {
    hide SameWire;
    assert (superseded + [p])[|superseded|] == p;
    forall c | IsSuperseded(c, superseded) ensures IsSuperseded(c, superseded + [p]) {
      var x :| x in superseded && x.older.callback == c;
      assert x in superseded + [p];
    }
  }

  lemma {:induction false} FailedAreErrors(q: seq<Queued>)
    ensures forall f | f in Failed(q) :: f.error.Some?
  {
    if q != [] { FailedAreErrors(q[1..]); }
  }

  lemma TwoParts(before: Bytes, b: Bytes, k: nat, n: nat)
    requires k + n <= |b|
    ensures (before + b[..k]) + b[k..k + n] == before + b[..k + n]
    ensures before + b[..0] == before
  {
    assert b[..k] + b[k..k + n] == b[..k + n];
  }

  /** The sizes that AsyncSendMessage takes. */
  predicate Sendable(m: OutMessage, largeTransferAuthorized: bool, maxMessageSize: nat)
  {
    |m.encoding| <= INT32_MAX && |m.encoding| <= maxMessageSize - 100
        && (largeTransferAuthorized || |m.encoding| <= 512 * 1024)
  }

  /** What AsyncSendMessage compares of a queued message x and a new one: the ends, and of single entries
    * the kind, and for wire packets the path and the member. */
  method Compare(x: OutMessage, m: OutMessage) returns (test: bool, wire: bool)
    ensures test <==> SameTest(x, m)
    ensures wire <==> SameWire(x, m)
  {
    SameWireFields(x, m);
    hide SameWire;
    test, wire := false, false;
    var h1, h2 := m.route, x.route;
    if h1.receiverNodeName == h2.receiverNodeName && h1.senderNodeName == h2.senderNodeName
        && h1.receiverNodeID == h2.receiverNodeID && h1.senderNodeID == h2.senderNodeID
        && h1.senderEndpoint == h2.senderEndpoint && h1.receiverEndpoint == h2.receiverEndpoint {
      if |x.entries| == |m.entries| == 1 {
        var e1, e2 := m.entries[0], x.entries[0];
        if e2.kind == ConnectionTest && e1.kind == ConnectionTest {
          test := true;
        } else if e2.kind == WirePacket && e1.kind == WirePacket {
          wire := e2.servicePath == e1.servicePath && e2.memberName == e1.memberName;
        }
      }
    }
  }

  class StreamSender {
    var connected: bool
    var sending: bool
    var sendPaused: bool
    var sendPauseRequest: bool
    var sendPauseRequestHandler: Option<Callback>
    var sendQueue: seq<Queued>
    var sendBuf: Bytes                  // what the last BeginSendMessage put there
    var pending: Option<PendingWrite>   // the posted handler of async_write_some
    var wire: Bytes                     // every byte handed to the socket
    var fired: seq<Fired>               // callbacks of messages, in the order called or posted
    var pausesFired: seq<Fired>         // callbacks of AsyncPauseSend
    const maxMessageSize: nat
    ghost var started: seq<OutMessage>  // messages put on the wire, in order
    ghost var accepted: multiset<Callback>
    ghost var whole: seq<Queued>            // messages that have gone out whole, in order
    ghost var superseded: seq<Superseded>
    ghost var pausesAsked: multiset<Callback>   // accepted by AsyncPauseSend

    /** The send buffer holds the message of the pending write, and the wire all before it and the
      * part of it that has been written. */
    ghost predicate Writing()
      reads `pending, `started, `sendBuf, `wire
    {
      pending.Some? ==>
        var w := pending.value;
        && started != [] && started[|started| - 1] == w.message && sendBuf == w.message.encoding
        && w.startPos + w.transferred <= |sendBuf| && (w.transferred == 0 ==> w.startPos == |sendBuf|)
        && wire == Encodings(started[..|started| - 1]) + sendBuf[..w.startPos + w.transferred]
    }

    /** The handler of a pause waits until the pause takes effect. */
    ghost predicate Pausing()
      reads `sendPauseRequest, `sendPaused, `sendPauseRequestHandler, `pausesFired, `pausesAsked
    {
      && (sendPauseRequestHandler.Some? ==> sendPauseRequest && !sendPaused)
      && PausesAccounted(pausesAsked, pausesFired, sendPauseRequestHandler)
    }

    ghost predicate Valid()
      reads this
    {
      ValidWith(fired)
    }

    /** Messages go out in the order started; fs are the callbacks fired. */
    ghost predicate Books(fs: seq<Fired>)
      reads `whole, `superseded, `started, `wire
    {
      && Explained(fs, whole, superseded)
      && |whole| <= |started| && (forall i | 0 <= i < |whole| :: whole[i].message == started[i])
      && Encodings(started[..|whole|]) <= wire
    }

    /** In order, if fs are the callbacks fired. */
    ghost predicate ValidWith(fs: seq<Fired>)
      reads this
    {
      && (sending <==> pending.Some?)
      && (sendPaused ==> sendPauseRequest && !sending)
      && (connected && sendPauseRequest && !sendPaused ==> sending)
      && Pausing()
      // nothing waits in vain
      && (sendQueue != [] ==> connected && (sending || sendPaused))
      && Coalesced(sendQueue)
      // whole messages, one after the other
      && Writing() && (pending.None? ==> wire <= Encodings(started) && (connected ==> wire == Encodings(started)))
      && Books(fs) && (pending.Some? ==> |whole| + 1 == |started|)
          && (pending.None? && connected ==> |whole| == |started|)
      // every accepted callback is waiting, in flight or fired, once
      && Accounted(accepted, fs, pending, sendQueue)
    }

    constructor (maxMessageSize: nat)
      ensures Valid() && connected && sendQueue == [] && pending == None && wire == [] && fired == []
                && accepted == multiset{} && pausesAsked == multiset{} && pausesFired == []
    {
      connected, sending, sendPaused, sendPauseRequest := true, false, false, false;
      sendPauseRequestHandler, sendQueue, sendBuf, pending, wire, fired, pausesFired := None, [], [], None, [], [], [];
      this.maxMessageSize := maxMessageSize;
      started, accepted, whole, superseded, pausesAsked := [], multiset{}, [], [], multiset{};
      new;
      hide Coalesced, Accounted;
      NothingCoalesced();
      NothingAccounted();
    }

    /** BrowserWebSocketTransportConnection::async_write_some: at most 65536 bytes at once. */
    method AsyncWriteSome(message: OutMessage, callback: Callback, startPos: nat)
      requires startPos <= |sendBuf|
      modifies `wire, `pending
      ensures pending.Some? && pending.value.message == message && pending.value.callback == callback
      ensures pending.value.startPos == startPos
      ensures var n := pending.value.transferred;
              && n == (if |sendBuf| - startPos <= 65536 then |sendBuf| - startPos else 65536)
              && wire == old(wire) + sendBuf[startPos..startPos + n]
    {
      var l := |sendBuf| - startPos;
      if l > MAX_WRITE {
        l := MAX_WRITE;
      }
      wire := wire + sendBuf[startPos..startPos + l];
      pending := Some(PendingWrite(message, callback, startPos, l));
    }

    /** BeginSendMessage with the buffered writer, which is taken to succeed. */
    method BeginSendMessage(m: OutMessage, callback: Callback)
      requires pending.None? && wire == Encodings(started)
      modifies `sendBuf, `wire, `pending, `sending, `started
      ensures sending && pending.Some? && pending.value.message == m && pending.value.callback == callback
      ensures Writing() && started == old(started) + [m] && |wire| <= old(|wire|) + MAX_WRITE
    {
      hide Encodings;
      sendBuf := m.encoding;
      started := started + [m];
      AsyncWriteSome(m, callback, 0);
      assert started[..|started| - 1] == old(started);
      TwoParts(Encodings(old(started)), sendBuf, 0, pending.value.transferred);
      sending := true;
    }

    /** AsyncSendMessage: on the wire at once if nothing is in the way, into the queue otherwise. */
    method AsyncSendMessage(m: OutMessage, callback: Callback, largeTransferAuthorized: bool) returns (r: Result<()>)
      requires Valid()
      modifies `sendQueue, `fired, `accepted, `superseded, `sendBuf, `wire, `pending, `sending, `started
      ensures Valid() && connected == old(connected)
      ensures r.Ok? <==> old(connected) && Sendable(m, largeTransferAuthorized, maxMessageSize)
      ensures r.Err? ==> unchanged(this)
      ensures r.Ok? && !old(sending || sendPaused) ==>
                && started == old(started) + [m] && sendQueue == old(sendQueue) && fired == old(fired)
                && accepted == old(accepted) + multiset{callback}
      ensures r.Ok? && old(sending || sendPaused) ==>
                && started == old(started) && wire == old(wire) && pending == old(pending)
                && Enqueued(old(sendQueue), m, callback, sendQueue, old(fired), fired)
                && accepted == if Dropped(old(sendQueue), m) then old(accepted) else old(accepted) + multiset{callback}
    {
      hide Coalesced, Accounted, Encodings, Enqueued, Dropped, Explained, StreamSender.Pausing;
      if !connected { return Err(ConnectionError); }
      if |m.encoding| > INT32_MAX { return Err(NumericCastError); }
      if |m.encoding| > maxMessageSize - 100 { return Err(ProtocolError); }
      if !largeTransferAuthorized && |m.encoding| > 512 * 1024 { return Err(ProtocolError); }
      if sending || sendPaused {
        Enqueue(m, callback);
      } else {
        ghost var before := accepted;
        accepted := accepted + multiset{callback};
        BeginSendMessage(m, callback);
        assert started[..|whole|] == old(started) == started[..|started| - 1];
        AccountedStarted(before, fired, pending.value, sendQueue);
      }
      return Ok(());
    }

    /** Looks for an older wire packet or connection test in the queue. */
    method Enqueue(m: OutMessage, callback: Callback)
      requires Valid() && connected && (sending || sendPaused)
      modifies `sendQueue, `fired, `accepted, `superseded
      ensures Valid()
      ensures Enqueued(old(sendQueue), m, callback, sendQueue, old(fired), fired)
      ensures accepted == if Dropped(old(sendQueue), m) then old(accepted) else old(accepted) + multiset{callback}
    {
      hide Coalesced, Accounted, SameTest, SameWire, Encodings, Explained, StreamSender.Pausing;
      var e := Queued(m, callback);
      var replaced := false;
      ghost var q := sendQueue;
      ghost var at := 0;
      var i := 0;
      while i < |sendQueue|
        invariant i <= |sendQueue| == |q|
        invariant forall k | 0 <= k < i :: !SameTest(q[k].message, m)
        invariant !replaced ==>
                    && sendQueue == q && fired == old(fired) && superseded == old(superseded)
                    && forall k | 0 <= k < i :: !SameWire(q[k].message, m)
        invariant replaced ==>
                    && at < i && SameWire(q[at].message, m) && sendQueue == q[at := e]
                    && fired == old(fired) + [Fired(q[at].callback, None)] && superseded == old(superseded)
                        + [Superseded(q[at], e)]
        invariant accepted == old(accepted)
      {
        var x := sendQueue[i];
        var test, remove := Compare(x.message, m);
        if test {
          if replaced { TestIsNoWire(x.message, q[at].message, m); }
          return;
        }
        if remove {
          fired := fired + [Fired(x.callback, None)];
          if replaced {
            OneWire(q, at, i, m);
            assert false;   // the queue holds one value of a wire
          }
          sendQueue := sendQueue[i := e];
          superseded := superseded + [Superseded(x, e)];
          replaced := true;
          at := i;
        }
        i := i + 1;
      }
      if !replaced {
        AccountedLast(accepted, fired, pending, q, e);
        sendQueue := sendQueue + [e];
        AppendCoalesced(q, e);
      } else {
        AccountedReplaced(accepted, old(fired), pending, q, at, e);
        ExplainedSuperseded(old(fired), whole, old(superseded), Superseded(q[at], e));
        UpdateCoalesced(q, at, e);
      }
      accepted := accepted + multiset{callback};
    }

    method FailQueue()
      modifies `sendQueue, `fired
      ensures sendQueue == [] && fired == old(fired) + Failed(old(sendQueue))
    {
      ghost var q := sendQueue;
      while sendQueue != []
        invariant fired + Failed(sendQueue) == old(fired) + Failed(q)
        decreases |sendQueue|
      {
        var f := Fired(sendQueue[0].callback, Some(ConnectionError));
        assert fired + ([f] + Failed(sendQueue[1..])) == (fired + [f]) + Failed(sendQueue[1..]);
        sendQueue := sendQueue[1..];
        fired := fired + [f];
      }
      assert fired + [] == fired;
    }

    /** A pause that has not taken effect fails. */
    method GiveUpPause()
      requires Pausing()
      modifies `sendPauseRequestHandler, `pausesFired
      ensures Pausing() && sendPauseRequestHandler == None
      ensures pausesFired == old(pausesFired) + Called(old(sendPauseRequestHandler), Some(ConnectionError))
    {
      hide PausesAccounted;
      PauseCalled(pausesAsked, pausesFired, sendPauseRequestHandler, Some(ConnectionError));
      if sendPauseRequestHandler.Some? {
        pausesFired := pausesFired + [Fired(sendPauseRequestHandler.value, Some(ConnectionError))];
        sendPauseRequestHandler := None;
      } else {
        assert pausesFired + [] == pausesFired;
      }
    }

    /** Close: what waits fails. */
    method Close()
      requires Pausing()
      modifies `connected, `sendPauseRequestHandler, `sendQueue, `fired, `pausesFired
      ensures !connected && Pausing() && (old(Valid()) ==> Valid())
      ensures sendQueue == if old(connected) then [] else old(sendQueue)
      ensures fired == old(fired) + if old(connected) then Failed(old(sendQueue)) else []
      ensures sendPauseRequestHandler == if old(connected) then None else old(sendPauseRequestHandler)
      ensures pausesFired == old(pausesFired)
                + if old(connected) then Called(old(sendPauseRequestHandler), Some(ConnectionError)) else []
    {
      hide Coalesced, Accounted, Encodings, Done, Waiting, StreamSender.Writing, Explained, Failed,
           StreamSender.Pausing;
      ghost var valid := Valid();
      var c := connected;
      connected := false;
      if !c {
        assert pausesFired + [] == pausesFired;
        return;
      }
      GiveUpPause();
      ghost var q := sendQueue;
      FailedAreErrors(q);
      if valid {
        AccountedFailed(accepted, fired, pending, q);
        ExplainedError(fired, whole, superseded, Failed(q));
      }
      FailQueue();
      assert fired == old(fired) + Failed(q);
      NothingCoalesced();
    }

    /** The error branch of EndSendMessage. */
    method WriteFailed(w: PendingWrite)
      requires sending && pending.None? && !sendPaused && (sendQueue != [] ==> connected)
      requires Accounted(accepted, fired, Some(w), sendQueue) && wire <= Encodings(started)
      requires Books(fired) && Pausing()
      modifies `connected, `sendPauseRequestHandler, `sendQueue, `fired, `pausesFired, `sending
      ensures Valid() && !connected && sendQueue == []
      ensures pausesFired == old(pausesFired)
                + if old(connected) then Called(old(sendPauseRequestHandler), Some(ConnectionError)) else []
    {
      hide Coalesced, Accounted, Encodings, Done, Waiting, Failed, Explained, StreamSender.Pausing, Called;
      ghost var was, q := fired, sendQueue;
      ghost var c := connected;
      Close();
      sending := false;
      FailedAreErrors(q);
      if c {
        ExplainedError(was, whole, superseded, Failed(q));
        AccountedFailed(accepted, was, Some(w), q);
      } else {
        NoneFailed();
        assert was + [] == was;
      }
      AccountedTaken(accepted, fired, w, sendQueue, Some(ConnectionError));
      ExplainedError(fired, whole, superseded, [Fired(w.callback, Some(ConnectionError))]);
      fired := fired + [Fired(w.callback, Some(ConnectionError))];
      NothingCoalesced();
    }

    /** The next part of a message that is too long for one write. */
    method WriteOn(w: PendingWrite)
      requires pending.None? && started != [] && started[|started| - 1] == w.message && sendBuf == w.message.encoding
      requires w.transferred < |sendBuf| - w.startPos
      requires wire == Encodings(started[..|started| - 1]) + sendBuf[..w.startPos + w.transferred]
      requires Accounted(accepted, fired, Some(w), sendQueue)
      modifies `wire, `pending
      ensures pending.Some? && pending.value.callback == w.callback && Writing()
                && Accounted(accepted, fired, pending, sendQueue)
      ensures w.startPos + w.transferred < pending.value.startPos + pending.value.transferred
      ensures |wire| <= old(|wire|) + MAX_WRITE
    {
      hide Encodings, Accounted;
      var k := w.startPos + w.transferred;
      AsyncWriteSome(w.message, w.callback, k);
      TwoParts(Encodings(started[..|started| - 1]), sendBuf, k, pending.value.transferred);
      SameInFlight(accepted, fired, w, pending.value, sendQueue);
    }

    /** EndSendMessage: the handler of the pending write. A message that is not yet out goes on; the
      * next one is begun before the callback of the last is called. */
    method EndSendMessage(error: bool)
      requires Valid() && pending.Some?
      modifies `connected, `sending, `sendPaused, `sendPauseRequestHandler, `sendQueue, `sendBuf, `pending, `wire,
                `fired, `pausesFired, `started, `whole
      ensures Valid()
      ensures !error ==> connected == old(connected)
      ensures error ==>
                && !connected && sendQueue == [] && pending == None && started == old(started) && wire == old(wire)
                && pausesFired == old(pausesFired)
                    + if old(connected) then Called(old(sendPauseRequestHandler), Some(ConnectionError)) else []
      ensures !error && old(Unsent()) > 0 ==>
                && sendQueue == old(sendQueue) && started == old(started) && fired == old(fired)
                && pending.Some? && pending.value.callback == old(pending).value.callback && Unsent() < old(Unsent())
                && |wire| <= old(|wire|) + MAX_WRITE && pausesFired == old(pausesFired)
      ensures !error && old(Unsent()) == 0 ==>
                && fired == old(fired) + [Fired(old(pending).value.callback, None)]
                && if old(connected && sendQueue != [] && !sendPauseRequest) then
                     && sendQueue == old(sendQueue[1..]) && started == old(started) + [old(sendQueue[0]).message]
                     && pending.Some? && pending.value.callback == old(sendQueue[0]).callback
                     && |wire| <= old(|wire|) + MAX_WRITE && pausesFired == old(pausesFired)
                   else
                     && pending == None && sendQueue == old(sendQueue) && started == old(started) && wire == old(wire)
                     && sendPaused == sendPauseRequest && sendPauseRequestHandler == None
                     && pausesFired == old(pausesFired) + Called(old(sendPauseRequestHandler), None)
    {
      hide Coalesced, Accounted, Encodings, Done, Waiting, Failed, Explained, StreamSender.Pausing, Called;
      var w := pending.value;
      pending := None;
      if error {
        PartWritten(started, sendBuf, w.startPos + w.transferred, wire);
        WriteFailed(w);
      } else if w.transferred < |sendBuf| - w.startPos {
        WriteOn(w);
      } else {
        LastWritten(started, sendBuf, wire);
        MessageSent(w);
      }
    }

    /** The message of the last write is whole on the wire. */
    method MessageSent(w: PendingWrite)
      requires sending && pending.None? && wire == Encodings(started) && !sendPaused && Pausing()
      requires Coalesced(sendQueue) && (sendQueue != [] ==> connected) && Books(fired)
      requires |whole| + 1 == |started| && started[|whole|] == w.message
      requires Accounted(accepted, fired, Some(w), sendQueue)
      modifies `sending, `sendPaused, `sendPauseRequestHandler, `pausesFired, `sendQueue, `sendBuf, `wire, `pending,
                `started, `whole, `fired
      ensures Valid() && fired == old(fired) + [Fired(w.callback, None)]
      ensures if old(connected && sendQueue != [] && !sendPauseRequest) then
                && sendQueue == old(sendQueue[1..]) && started == old(started) + [old(sendQueue[0]).message]
                && pending.Some? && pending.value.callback == old(sendQueue[0]).callback
                && |wire| <= old(|wire|) + MAX_WRITE && pausesFired == old(pausesFired)
              else
                && pending == None && sendQueue == old(sendQueue) && started == old(started) && wire == old(wire)
                && sendPaused == sendPauseRequest && sendPauseRequestHandler == None
                && pausesFired == old(pausesFired) + Called(old(sendPauseRequestHandler), None)
    {
      hide Coalesced, Accounted, Encodings, Done, Waiting, Failed, Explained, StreamSender.Pausing, Called;
      AccountedTaken(accepted, fired, w, sendQueue, None);
      ExplainedWhole(fired, whole, superseded, Queued(w.message, w.callback));
      whole := whole + [Queued(w.message, w.callback)];
      assert started[..|whole|] == started;
      EndSendMessage1(Fired(w.callback, None));
      fired := fired + [Fired(w.callback, None)];
    }

    /** EndSendMessage1: the next message, or an end of sending and perhaps a pause. f: the callback
      * that is about to be called. */
    method EndSendMessage1(ghost f: Fired)
      requires sending && pending.None? && wire == Encodings(started) && !sendPaused
      requires Coalesced(sendQueue) && (sendQueue != [] ==> connected)
      requires Accounted(accepted, fired + [f], None, sendQueue) && Books(fired + [f]) && |whole| == |started|
      requires Pausing()
      modifies `sending, `sendPaused, `sendPauseRequestHandler, `pausesFired, `sendQueue, `sendBuf, `wire, `pending,
                `started
      ensures ValidWith(fired + [f])
      ensures if old(connected && sendQueue != [] && !sendPauseRequest) then
                && sendQueue == old(sendQueue[1..]) && started == old(started) + [old(sendQueue[0]).message]
                && pending.Some? && pending.value.callback == old(sendQueue[0]).callback
                && |wire| <= old(|wire|) + MAX_WRITE && pausesFired == old(pausesFired)
              else
                && pending == None && sendQueue == old(sendQueue) && started == old(started) && wire == old(wire)
                && sendPaused == sendPauseRequest && sendPauseRequestHandler == None
                && pausesFired == old(pausesFired) + Called(old(sendPauseRequestHandler), None)
    {
      hide Coalesced, Accounted, Encodings, Done, Waiting, Explained, StreamSender.Pausing;
      if |sendQueue| != 0 && connected && !sendPauseRequest {
        TakeNext(fired + [f]);
      } else {
        sending := false;
        PauseNow();
      }
    }

    /** A pause that has been asked for takes effect. */
    method PauseNow()
      requires Pausing() && !sendPaused
      modifies `sendPaused, `sendPauseRequestHandler, `pausesFired
      ensures Pausing() && sendPaused == sendPauseRequest && sendPauseRequestHandler == None
      ensures pausesFired == old(pausesFired) + Called(old(sendPauseRequestHandler), None)
    {
      hide PausesAccounted;
      PauseCalled(pausesAsked, pausesFired, sendPauseRequestHandler, None);
      assert pausesFired + [] == pausesFired;
      if sendPauseRequest && !sendPaused {
        sendPaused := true;
        if sendPauseRequestHandler.Some? {
          pausesFired := pausesFired + [Fired(sendPauseRequestHandler.value, None)];
        }
        sendPauseRequestHandler := None;
      }
    }

    method TakeNext(ghost fs: seq<Fired>)
      requires sendQueue != [] && connected && !sendPauseRequest && !sendPaused && pending.None?
                && wire == Encodings(started)
      requires Coalesced(sendQueue) && Accounted(accepted, fs, None, sendQueue) && Books(fs) && |whole| == |started|
      requires Pausing()
      modifies `sending, `sendQueue, `sendBuf, `wire, `pending, `started
      ensures ValidWith(fs)
      ensures sendQueue == old(sendQueue[1..]) && started == old(started) + [old(sendQueue[0]).message]
      ensures pending.Some? && pending.value.callback == old(sendQueue[0]).callback && |wire| <= old(|wire|) + MAX_WRITE
    {
      hide Coalesced, Accounted, Encodings, Done, Waiting, Explained, StreamSender.Pausing;
      var m := sendQueue[0];
      ghost var q := sendQueue;
      sendQueue := sendQueue[1..];
      BeginSendMessage(m.message, m.callback);
      TailCoalesced(q);
      AccountedBegun(accepted, fs, pending.value, q);
    }

    /** AsyncPauseSend: at once when nothing is on the wire, else after the message that is. */
    method AsyncPauseSend(handler: Callback) returns (r: Result<()>)
      requires Valid()
      modifies `sendPauseRequest, `sendPaused, `sendPauseRequestHandler, `pausesFired, `pausesAsked
      ensures Valid()
      ensures r.Err? <==> old(sendPauseRequest)
      ensures r.Ok? ==>
                sendPauseRequest && sendPaused == !sending && pausesAsked == old(pausesAsked) + multiset{handler}
      // the handler is called at once or waits for the end of the message
      ensures r.Ok? && !sending ==>
                pausesFired == old(pausesFired) + [Fired(handler, None)] && sendPauseRequestHandler == None
      ensures r.Ok? && sending ==> pausesFired == old(pausesFired) && sendPauseRequestHandler == Some(handler)
      ensures r.Err? ==> unchanged(this)
    {
      hide Coalesced, Accounted, Encodings, PausesAccounted, Explained;
      if sendPauseRequest || sendPaused { return Err(InvalidOperation); }
      PauseAsked(pausesAsked, pausesFired, handler);
      pausesAsked := pausesAsked + multiset{handler};
      if !sending {
        sendPauseRequest := true;
        sendPaused := true;
        pausesFired := pausesFired + [Fired(handler, None)];
      } else {
        sendPauseRequest := true;
        sendPauseRequestHandler := Some(handler);
      }
      return Ok(());
    }

    /** AsyncResumeSend: the queue goes on. */
    method AsyncResumeSend() returns (r: Result<()>)
      requires Valid()
      modifies `sendPauseRequest, `sendPaused, `sending, `sendQueue, `sendBuf, `wire, `pending, `started
      ensures Valid()
      ensures r.Err? <==> old(sendPauseRequest && !sendPaused)
      ensures r.Err? ==> unchanged(this)
      ensures r.Ok? ==> !sendPauseRequest && !sendPaused
      ensures r.Ok? && old(sendPauseRequest && sendQueue != []) ==>
                sending && sendQueue == old(sendQueue[1..]) && started == old(started) + [old(sendQueue[0]).message]
      ensures r.Ok? && !old(sendPauseRequest && sendQueue != []) ==>
                started == old(started) && sendQueue == old(sendQueue)
    {
      hide Coalesced, Accounted, Encodings, PausesAccounted, Explained;
      if !sendPauseRequest { return Ok(()); }
      if sendPauseRequest && !sendPaused { return Err(InvalidOperation); }
      sendPauseRequest := false;
      sendPaused := false;
      if |sendQueue| != 0 && connected && !sendPauseRequest && !sending {
        TakeNext(fired);
      }
      return Ok(());
    }

    /** The bytes of the message on the wire that are still to be written. */
    ghost function Unsent(): nat
      requires Valid() && pending.Some?
      reads this
    {
      |sendBuf| - pending.value.startPos - pending.value.transferred
    }

    /** No lost wakeup: when the pending writes complete, a sender that is not asked to pause has
      * sent everything it accepted, whole and in the order of the queue, and called every callback. */
    method Drain()
      requires Valid() && !sendPauseRequest && connected
      modifies this
      ensures Valid() && pending == None && sendQueue == [] && connected
      ensures started == old(started) + InOrder(old(sendQueue)) && wire == Encodings(started)
      ensures accepted == old(accepted) && multiset(Done(fired)) == accepted
    {
      hide Coalesced, Accounted, Encodings, Done, Waiting, Explained, StreamSender.Pausing, Called;
      ghost var q := sendQueue;
      assert started + InOrder(q) == old(started) + InOrder(q);
      while pending.Some?
        invariant Valid() && !sendPauseRequest && connected && accepted == old(accepted)
        invariant started + InOrder(sendQueue) == old(started) + InOrder(q)
        decreases |sendQueue|, pending.Some?, if pending.Some? then Unsent() else 0
      {
        ghost var before := sendQueue;
        EndSendMessage(false);
        if sendQueue != before {
          assert (started[..|started| - 1] + [before[0].message]) + InOrder(before[1..]) == started[..|started| - 1]
              + ([before[0].message] + InOrder(before[1..]));
        }
      }
      assert started + [] == started;
      AllFired(accepted, fired);
    }

    method HandleSend(m: OutMessage, callback: Callback, authorized: bool)
      returns (refused: seq<Callback>, dropped: seq<Callback>)
      requires Valid()
      modifies `sendQueue, `fired, `accepted, `superseded, `sendBuf, `wire, `pending, `sending, `started
      ensures Valid()
      ensures accepted + multiset(refused) + multiset(dropped) == old(accepted) + multiset{callback}
      ensures refused == if connected && Sendable(m, authorized, maxMessageSize) then [] else [callback]
      ensures refused != [] ==> unchanged(this)
      ensures forall q | q in sendQueue :: q in old(sendQueue) || (refused == [] && q.message == m)
      ensures started == old(started) || (refused == [] && started == old(started) + [m])
      ensures dropped == [] || (dropped == [callback] && IsTest(m)
                                && exists q | q in old(sendQueue) :: IsTest(q.message) && q.message.route == m.route)
    {
      hide StreamSender.Valid, Enqueued, Dropped, Sendable, IsTest;
      refused, dropped := [], [];
      var d := (sending || sendPaused) && Dropped(sendQueue, m);
      var r := AsyncSendMessage(m, callback, authorized);
      if r.Err? {
        refused := [callback];
      } else if d {
        dropped := [callback];
        DroppedBehindTest(old(sendQueue), m);
      }
      if r.Ok? && old(sending || sendPaused) {
        EnqueuedFrom(old(sendQueue), m, callback, sendQueue, old(fired), fired);
      }
    }

    method HandleCompletion(error: bool)
      requires Valid()
      modifies `connected, `sending, `sendPaused, `sendPauseRequestHandler, `sendQueue, `sendBuf, `pending, `wire,
                `fired, `pausesFired, `started, `whole
      ensures Valid() && connected == (old(connected) && !(error && old(pending).Some?))
      ensures forall q | q in sendQueue :: q in old(sendQueue)
      ensures started == old(started)
              || (old(sendQueue) != [] && started == old(started) + [old(sendQueue)[0].message])
    {
      hide StreamSender.Valid, Called;
      if pending.Some? {
        EndSendMessage(error);
        OneMoreStarted(old(started), started);
      }
    }

    method HandleResume()
      requires Valid()
      modifies `sendPauseRequest, `sendPaused, `sending, `sendQueue, `sendBuf, `wire, `pending, `started
      ensures Valid() && forall q | q in sendQueue :: q in old(sendQueue)
      ensures started == old(started)
              || (old(sendQueue) != [] && started == old(started) + [old(sendQueue)[0].message])
    {
      hide StreamSender.Valid;
      var _ := AsyncResumeSend();
    }

    method HandleClose()
      requires Valid()
      modifies `connected, `sendPauseRequestHandler, `sendQueue, `fired, `pausesFired
      ensures Valid() && !connected && forall q | q in sendQueue :: q in old(sendQueue)
    {
      hide StreamSender.Valid, Failed, Called;
      PauseWaits();
      Close();
    }

    /** What happens to a sender, one step. refused, dropped: the callback that the step has refused with
      * an exception or dropped with a second connection test. */
    method Handle(e: SendEvent) returns (refused: seq<Callback>, dropped: seq<Callback>)
      requires Valid()
      modifies this
      ensures Valid() && old(started) <= started
      ensures accepted + multiset(refused) + multiset(dropped) == old(accepted)
                + multiset(if e.Send? then [e.callback] else [])
      ensures refused == if e.Send? && !(old(connected) && Sendable(e.message, e.authorized, maxMessageSize)) then
                [e.callback] else []
      ensures forall q | q in sendQueue :: q in old(sendQueue) || (Offers(e, maxMessageSize) && q.message == e.message)
      ensures || started == old(started)
              || (Offers(e, maxMessageSize) && started == old(started) + [e.message])
              || (old(sendQueue) != [] && started == old(started) + [old(sendQueue)[0].message])
      // only behind a connection test between the same ends that waits
      ensures dropped != [] ==>
                && e.Send? && dropped == [e.callback] && IsTest(e.message)
                && exists q | q in old(sendQueue) :: IsTest(q.message) && q.message.route == e.message.route
      ensures connected == (old(connected) && !(Ends(e) && (e.Completion? ==> old(pending).Some?)))
      ensures pausesAsked == old(pausesAsked)
                + if e.PauseSend? && !old(sendPauseRequest) then multiset{e.handler} else multiset{}
    {
      hide StreamSender.Valid, Called, Sendable, IsTest;
      refused, dropped := [], [];
      match e {
        case Send(m, callback, authorized) => refused, dropped := HandleSend(m, callback, authorized);
        case Completion(error) => HandleCompletion(error);
        case PauseSend(handler) => var _ := AsyncPauseSend(handler);
        case ResumeSend => HandleResume();
        case CloseConnection => HandleClose();
      }
    }

    lemma PauseWaits()
      requires Valid()
      ensures Pausing()
    {
    }

    method HandleAll(events: seq<SendEvent>) returns (open: nat, refused: seq<Callback>, dropped: seq<Callback>)
      requires Valid() && sendQueue == [] && accepted == multiset{}
      modifies this
      ensures Valid() && old(started) <= started && open <= |events|
      ensures AllSent(started[|old(started)|..], events, maxMessageSize)
      ensures Settled(events, |events|, old(connected), connected, maxMessageSize, open, accepted, refused, dropped)
    {
      hide StreamSender.Valid, AllSent, AllQueuedSent, Settled, Ends, Sendable, Offers, IsTest, TestAgain;
      open, refused, dropped := 0, [], [];
      assert started[|old(started)|..] == [];
      NothingSent(events, connected, maxMessageSize);
      for k := 0 to |events|
        invariant Valid() && old(started) <= started && AllSent(started[|old(started)|..], events[..k], maxMessageSize)
                  && AllQueuedSent(sendQueue, events[..k], maxMessageSize)
        invariant open <= k && Settled(events, k, old(connected), connected, maxMessageSize, open, accepted, refused,
                                       dropped)
      {
        ghost var before, q, was := accepted, sendQueue, started;
        var isOpen := connected;
        var r, d := Handle(events[k]);
        if d != [] { TestBefore(q, events, k, maxMessageSize); }
        OneMoreSettled(events, k, old(connected), isOpen, connected, maxMessageSize, open, before, refused, dropped,
                       accepted, r, d);
        MoreSent(q, sendQueue, old(started), was, started, events, k, maxMessageSize);
        if isOpen { open := k + 1; }
        refused, dropped := refused + r, dropped + d;
      }
      assert events[..|events|] == events;
    }

    /** Send serialisation: over every interleaving of sends, completed or failed writes, pauses, resumes
      * and closes, the wire holds whole encodings of messages sent one after the other, the last perhaps
      * in part; at most one message of a kind waits, and nothing waits in vain; exactly the sends that are
      * too large or come after the first `open` events, with which the connection ends, are refused; and
      * each callback handed over is refused, dropped with a connection test, in flight, waiting or fired,
      * exactly once. */
    method Run(events: seq<SendEvent>) returns (open: nat, refused: seq<Callback>, dropped: seq<Callback>)
      requires Valid() && wire == Encodings(started) && pending == None && sendQueue == [] && fired == []
                && accepted == multiset{}
      modifies this
      ensures Valid() && old(started) <= started && AllSent(started[|old(started)|..], events, maxMessageSize)
      ensures multiset(SentCallbacks(events)) ==
              multiset(refused) + multiset(dropped) + InFlight(pending) + multiset(Waiting(sendQueue))
                  + multiset(Done(fired))
      ensures open <= |events| && (connected ==> open == |events|)
      ensures old(connected) && !connected ==> open > 0 && Ends(events[open - 1])
      ensures refused == TooLarge(events[..open], maxMessageSize) + SentCallbacks(events[open..])
      ensures OfTests(dropped, events)
      ensures Coalesced(sendQueue) && (sendQueue != [] ==> connected && (sending || sendPaused))
      ensures wire <= Encodings(started) && (connected && pending == None ==> wire == Encodings(started))
      ensures pending.Some? ==> started != [] && Encodings(started[..|started| - 1]) <= wire
      // the handler of a pause that was accepted has been called once, or waits
      ensures pausesAsked == multiset(Done(pausesFired))
                + if sendPauseRequestHandler.Some? then multiset{sendPauseRequestHandler.value} else multiset{}
      // no two that wait are connection tests between the same ends or values of the same wire
      ensures forall i, j | 0 <= i < j < |sendQueue| && |sendQueue[i].message.entries| == 1 ::
                var a, b := sendQueue[i].message, sendQueue[j].message;
                a.route == b.route && |b.entries| == 1 && a.entries[0].kind == b.entries[0].kind ==>
                  && a.entries[0].kind != ConnectionTest
                  && (a.entries[0].kind == WirePacket ==>
                        a.entries[0].servicePath != b.entries[0].servicePath
                            || a.entries[0].memberName != b.entries[0].memberName)
      // a callback fires without an error only for a message that is whole on the wire or superseded
      ensures Explained(fired, whole, superseded)
      ensures |whole| <= |started| && Encodings(started[..|whole|]) <= wire
      ensures forall i | 0 <= i < |whole| :: whole[i].message == started[i]
      // and superseded by a newer value of the same wire only
      ensures forall p | p in superseded ::
                var a, b := p.older.message, p.newer.message;
                && a.route.receiverNodeName == b.route.receiverNodeName
                && a.route.senderNodeName == b.route.senderNodeName
                && a.route.receiverNodeID == b.route.receiverNodeID && a.route.senderNodeID == b.route.senderNodeID
                && a.route.senderEndpoint == b.route.senderEndpoint
                && a.route.receiverEndpoint == b.route.receiverEndpoint
                && |a.entries| == |b.entries| == 1
                && a.entries[0].kind == b.entries[0].kind == WirePacket
                && a.entries[0].servicePath == b.entries[0].servicePath
                && a.entries[0].memberName == b.entries[0].memberName
    {
      hide StreamSender.Valid, Explained, Waiting, Done, Encodings, Coalesced, SentCallbacks, OfTests, TooLarge,
          AllSent, Settled, Accounted,
           InFlight, Ends;
      open, refused, dropped := HandleAll(events);
      AllSettled(events, old(connected), connected, maxMessageSize, open, accepted, refused, dropped);
      WholeMessages();
      WaitingDiffer(sendQueue);
      SupersededFields(fired, whole, superseded);
      Conserved(accepted, refused, dropped, SentCallbacks(events), fired, pending, sendQueue);
    }

    lemma WholeMessages()
      requires Valid()
      ensures PausesAccounted(pausesAsked, pausesFired, sendPauseRequestHandler)
      ensures Accounted(accepted, fired, pending, sendQueue)
      ensures Coalesced(sendQueue) && (sendQueue != [] ==> connected && (sending || sendPaused))
      ensures wire <= Encodings(started) && (connected && pending == None ==> wire == Encodings(started))
      ensures pending.Some? ==> started != [] && Encodings(started[..|started| - 1]) <= wire
      ensures Explained(fired, whole, superseded)
      ensures |whole| <= |started| && Encodings(started[..|whole|]) <= wire
      ensures forall i | 0 <= i < |whole| :: whole[i].message == started[i]
    {
      hide Accounted, Coalesced, Explained;
      if pending.Some? {
        var n := |started| - 1;
        assert Encodings(started) == Encodings(started[..n]) + started[n].encoding;
      }
    }
  }

  lemma WaitingDiffer(q: seq<Queued>)
    requires Coalesced(q)
    ensures forall i, j | 0 <= i < j < |q| && |q[i].message.entries| == 1 ::
              var a, b := q[i].message, q[j].message;
              a.route == b.route && |b.entries| == 1 && a.entries[0].kind == b.entries[0].kind ==>
                && a.entries[0].kind != ConnectionTest
                && (a.entries[0].kind == WirePacket ==>
                      a.entries[0].servicePath != b.entries[0].servicePath
                          || a.entries[0].memberName != b.entries[0].memberName)
  {
    hide SameWire;
    forall i, j | 0 <= i < j < |q|
      ensures !SameTest(q[i].message, q[j].message) && !SameWire(q[i].message, q[j].message)
    {
    }
    forall i, j | 0 <= i < j < |q| { SameWireFields(q[i].message, q[j].message); }
  }

  lemma SupersededFields(fs: seq<Fired>, whole: seq<Queued>, superseded: seq<Superseded>)
    requires Explained(fs, whole, superseded)
    ensures forall p | p in superseded ::
              var a, b := p.older.message, p.newer.message;
              && a.route.receiverNodeName == b.route.receiverNodeName
              && a.route.senderNodeName == b.route.senderNodeName
              && a.route.receiverNodeID == b.route.receiverNodeID && a.route.senderNodeID == b.route.senderNodeID
              && a.route.senderEndpoint == b.route.senderEndpoint
              && a.route.receiverEndpoint == b.route.receiverEndpoint
              && |a.entries| == |b.entries| == 1
              && a.entries[0].kind == b.entries[0].kind == WirePacket
              && a.entries[0].servicePath == b.entries[0].servicePath
              && a.entries[0].memberName == b.entries[0].memberName
  {
    hide SameWire, IsWhole, IsSuperseded;
    forall p | p in superseded ensures SameWire(p.older.message, p.newer.message) { }
    forall p | p in superseded { SameWireFields(p.older.message, p.newer.message); }
  }

  datatype SendEvent =
    | Send(message: OutMessage, callback: Callback, authorized: bool)
    | Completion(error: bool)   // of the write that is pending
    | PauseSend(handler: Callback)
    | ResumeSend
    | CloseConnection

  predicate Ends(e: SendEvent) { e == CloseConnection || e == Completion(true) }

  lemma DroppedBehindTest(q: seq<Queued>, m: OutMessage)
    requires Dropped(q, m)
    ensures IsTest(m) && exists x | x in q :: IsTest(x.message) && x.message.route == m.route
  {
    var k :| 0 <= k < |q| && SameTest(q[k].message, m);
    assert q[k] in q;
  }

  lemma OneMoreStarted(a: seq<OutMessage>, b: seq<OutMessage>)
    requires b == a || (b != [] && b[..|b| - 1] == a)
    ensures a <= b
  {
  }

  function SentCallbacks(events: seq<SendEvent>): seq<Callback>
  {
    if events == [] then [] else (if events[0].Send? then [events[0].callback] else []) + SentCallbacks(events[1..])
  }

  function TooLarge(events: seq<SendEvent>, maxMessageSize: nat): seq<Callback>
  {
    if events == [] then []
    else
      var n := |events| - 1;
      TooLarge(events[..n], maxMessageSize) +
      if events[n].Send? && !Sendable(events[n].message, events[n].authorized, maxMessageSize) then
          [events[n].callback] else []
  }

  /** What has become of the callbacks of the first k events; the connection ended with the first
    * `open` of them, unless it still stands. */
  ghost predicate Settled(events: seq<SendEvent>, k: nat, first: bool, connected: bool, maxMessageSize: nat, open: nat,
                          accepted: multiset<Callback>, refused: seq<Callback>, dropped: seq<Callback>)
    requires open <= k <= |events|
  {
    && accepted + multiset(refused) + multiset(dropped) == multiset(SentCallbacks(events[..k]))
    && (connected ==> open == k)
    && (first && !connected ==> open > 0 && Ends(events[open - 1]))
    && refused == TooLarge(events[..open], maxMessageSize) + SentCallbacks(events[open..k])
    && OfTests(dropped, events)
  }

  lemma NothingSent(events: seq<SendEvent>, connected: bool, maxMessageSize: nat)
    ensures Settled(events, 0, connected, connected, maxMessageSize, 0, multiset{}, [], [])
    ensures AllSent([], events[..0], maxMessageSize) && AllQueuedSent([], events[..0], maxMessageSize)
  {
    assert SentCallbacks([]) == [] && TooLarge([], maxMessageSize) == [];
  }

  lemma OneMoreSettled(events: seq<SendEvent>, k: nat, first: bool, was: bool, connected: bool, maxMessageSize: nat,
                       open: nat,
                       before: multiset<Callback>, refused: seq<Callback>, dropped: seq<Callback>,
                       after: multiset<Callback>, r: seq<Callback>, d: seq<Callback>)
    requires open <= k < |events| && Settled(events, k, first, was, maxMessageSize, open, before, refused, dropped)
    requires var e := events[k];
             && after + multiset(r) + multiset(d) == before + multiset(if e.Send? then [e.callback] else [])
             && r == (if e.Send? && !(was && Sendable(e.message, e.authorized, maxMessageSize)) then [e.callback]
                      else [])
             && (d != [] ==> TestAgain(events, k) && d == [e.callback])
             && (connected ==> was) && (was && !connected ==> Ends(e))
    ensures Settled(events, k + 1, first, connected, maxMessageSize, if was then k + 1 else open, after, refused
                    + r, dropped + d)
  {
    hide SentCallbacks, TooLarge, OfTests, TestAgain, Sendable;
    SentAppend(events, 0, k);
    assert events[0..k] == events[..k] && events[0..k + 1] == events[..k + 1];
    OneMoreRefused(events, open, k, was, maxMessageSize);
    JoinedFates(before, refused, dropped, SentCallbacks(events[..k]), after, r, d,
                if events[k].Send? then [events[k].callback] else []);
    MoreTests(dropped, d, events, k);
  }

  lemma AllSettled(events: seq<SendEvent>, first: bool, connected: bool, maxMessageSize: nat, open: nat,
                   accepted: multiset<Callback>, refused: seq<Callback>, dropped: seq<Callback>)
    requires open <= |events| && Settled(events, |events|, first, connected, maxMessageSize, open, accepted, refused,
                                         dropped)
    ensures accepted + multiset(refused) + multiset(dropped) == multiset(SentCallbacks(events))
    ensures connected ==> open == |events|
    ensures first && !connected ==> open > 0 && Ends(events[open - 1])
    ensures refused == TooLarge(events[..open], maxMessageSize) + SentCallbacks(events[open..])
    ensures OfTests(dropped, events)
  {
    hide SentCallbacks, TooLarge, OfTests;
    assert events[..|events|] == events && events[open..|events|] == events[open..];
  }

  lemma {:induction false} SentLast(events: seq<SendEvent>, e: SendEvent)
    ensures SentCallbacks(events + [e]) == SentCallbacks(events) + if e.Send? then [e.callback] else []
  {
    if events == [] {
      assert [e][1..] == [] && events + [e] == [e];
    } else {
      SentLast(events[1..], e);
      assert (events + [e])[1..] == events[1..] + [e];
    }
  }

  lemma SentAppend(events: seq<SendEvent>, i: nat, k: nat)
    requires i <= k < |events|
    ensures SentCallbacks(events[i..k + 1]) == SentCallbacks(events[i..k])
              + if events[k].Send? then [events[k].callback] else []
  {
    hide SentCallbacks;
    assert events[i..k + 1] == events[i..k] + [events[k]];
    SentLast(events[i..k], events[k]);
  }

  /** The k-th event is refused when it is too large or the connection is gone. */
  lemma OneMoreRefused(events: seq<SendEvent>, open: nat, k: nat, connected: bool, maxMessageSize: nat)
    requires open <= k < |events| && (connected ==> open == k)
    ensures var e := events[k];
            var more := if e.Send? && !(connected && Sendable(e.message, e.authorized, maxMessageSize)) then
                [e.callback] else [];
            var n := if connected then k + 1 else open;
            TooLarge(events[..n], maxMessageSize) + SentCallbacks(events[n..k + 1]) ==
            (TooLarge(events[..open], maxMessageSize) + SentCallbacks(events[open..k])) + more
  {
    hide Sendable;
    if connected {
      assert events[..k + 1][..k] == events[..k] && events[k + 1..k + 1] == [] == events[k..k];
    } else {
      SentAppend(events, open, k);
    }
  }

  /** m has been handed over, and its size was taken. */
  ghost predicate HandedOver(m: OutMessage, events: seq<SendEvent>, maxMessageSize: nat)
  {
    exists k :: 0 <= k < |events| && events[k].Send? && events[k].message == m
                && Sendable(m, events[k].authorized, maxMessageSize)
  }

  /** All of these messages have been handed over to be sent. */
  ghost predicate AllSent(ms: seq<OutMessage>, events: seq<SendEvent>, maxMessageSize: nat)
  {
    forall i | 0 <= i < |ms| :: HandedOver(ms[i], events, maxMessageSize)
  }

  ghost predicate AllQueuedSent(q: seq<Queued>, events: seq<SendEvent>, maxMessageSize: nat)
  {
    forall x | x in q :: HandedOver(x.message, events, maxMessageSize)
  }

  /** What the first k events have handed over the first k + 1 have, and the next one its own message. */
  lemma HandedOverLater(events: seq<SendEvent>, k: nat, maxMessageSize: nat)
    requires k < |events|
    ensures forall m | HandedOver(m, events[..k], maxMessageSize) :: HandedOver(m, events[..k + 1], maxMessageSize)
    ensures events[k].Send? && Sendable(events[k].message, events[k].authorized, maxMessageSize) ==>
              HandedOver(events[k].message, events[..k + 1], maxMessageSize)
  {
    hide Sendable;
    var later := events[..k + 1];
    assert later[k] == events[k];
    forall m | HandedOver(m, events[..k], maxMessageSize) ensures HandedOver(m, later, maxMessageSize) {
      var i :| 0 <= i < k && events[..k][i].Send? && events[..k][i].message == m
                && Sendable(m, events[..k][i].authorized, maxMessageSize);
      assert later[i] == events[..k][i];
    }
  }

  /** What is newly in the queue or on the wire comes from the queue or from the event at hand. */
  lemma MoreSent(q: seq<Queued>, q': seq<Queued>, first: seq<OutMessage>, was: seq<OutMessage>, now: seq<OutMessage>,
                 events: seq<SendEvent>, k: nat, maxMessageSize: nat)
    requires k < |events| && first <= was && AllSent(was[|first|..], events[..k], maxMessageSize)
    requires AllQueuedSent(q, events[..k], maxMessageSize)
    requires forall x | x in q' :: x in q || (Offers(events[k], maxMessageSize) && x.message == events[k].message)
    requires now == was || (Offers(events[k], maxMessageSize) && now == was + [events[k].message])
              || (q != [] && now == was + [q[0].message])
    ensures AllQueuedSent(q', events[..k + 1], maxMessageSize)
    ensures first <= now && AllSent(now[|first|..], events[..k + 1], maxMessageSize)
  {
    hide HandedOver, Sendable;
    HandedOverLater(events, k, maxMessageSize);
    if q != [] { assert q[0] in q; }
    var a, b := was[|first|..], now[|first|..];
    assert now != was ==> b == a + [now[|was|]];
    forall i | 0 <= i < |b| ensures HandedOver(b[i], events[..k + 1], maxMessageSize) {
      if i < |a| { assert HandedOver(a[i], events[..k], maxMessageSize); }
    }
  }

  /** A send of a size that is taken. */
  predicate Offers(e: SendEvent, maxMessageSize: nat)
  {
    e.Send? && Sendable(e.message, e.authorized, maxMessageSize)
  }

  lemma EnqueuedFrom(q: seq<Queued>, m: OutMessage, callback: Callback, q': seq<Queued>, fired: seq<Fired>,
                     fired': seq<Fired>)
    requires Enqueued(q, m, callback, q', fired, fired')
    ensures forall x | x in q' :: x in q || x.message == m
  {
  }

  lemma Conserved(accepted: multiset<Callback>, refused: seq<Callback>, dropped: seq<Callback>, sent: seq<Callback>,
                  fired: seq<Fired>, p: Option<PendingWrite>, q: seq<Queued>)
    requires Accounted(accepted, fired, p, q) && accepted + multiset(refused) + multiset(dropped) == multiset(sent)
    ensures multiset(sent) == multiset(refused) + multiset(dropped) + InFlight(p) + multiset(Waiting(q))
              + multiset(Done(fired))
  {
    hide InFlight, Waiting, Done;
  }

  /** The k-th event is a connection test, and one between the same ends has been sent before. */
  ghost predicate TestAgain(events: seq<SendEvent>, k: nat)
    requires k < |events|
  {
    && events[k].Send? && IsTest(events[k].message)
    && exists i :: 0 <= i < k && events[i].Send? && IsTest(events[i].message)
                   && events[i].message.route == events[k].message.route
  }

  /** Every one of the callbacks came with such a connection test. */
  ghost predicate OfTests(callbacks: seq<Callback>, events: seq<SendEvent>)
  {
    forall c | c in callbacks :: exists k :: 0 <= k < |events| && TestAgain(events, k) && events[k].callback == c
  }

  lemma TestBefore(q: seq<Queued>, events: seq<SendEvent>, k: nat, maxMessageSize: nat)
    requires k < |events| && events[k].Send? && IsTest(events[k].message)
    requires AllQueuedSent(q, events[..k], maxMessageSize)
    requires exists x | x in q :: IsTest(x.message) && x.message.route == events[k].message.route
    ensures TestAgain(events, k)
  {
    hide Sendable, IsTest;
    var x :| x in q && IsTest(x.message) && x.message.route == events[k].message.route;
    var i :| 0 <= i < k && events[..k][i].Send? && events[..k][i].message == x.message
              && Sendable(x.message, events[..k][i].authorized, maxMessageSize);
    assert events[i] == events[..k][i];
  }

  lemma MoreTests(callbacks: seq<Callback>, more: seq<Callback>, events: seq<SendEvent>, k: nat)
    requires OfTests(callbacks, events) && k < |events|
    requires more != [] ==> TestAgain(events, k) && more == [events[k].callback]
    ensures OfTests(callbacks + more, events)
  {
    hide TestAgain;
  }

  lemma JoinedFates(before: multiset<Callback>, refused: seq<Callback>, dropped: seq<Callback>, sent: seq<Callback>,
                    after: multiset<Callback>, r: seq<Callback>, d: seq<Callback>, more: seq<Callback>)
    requires before + multiset(refused) + multiset(dropped) == multiset(sent)
    requires after + multiset(r) + multiset(d) == before + multiset(more)
    ensures after + multiset(refused + r) + multiset(dropped + d) == multiset(sent + more)
  {
    var left, right := after + multiset(refused + r) + multiset(dropped + d), multiset(sent + more);
    assert multiset(sent + more) == multiset(sent) + multiset(more);
    assert multiset(refused + r) == multiset(refused) + multiset(r) && multiset(dropped + d) == multiset(dropped)
        + multiset(d);
    forall c: Callback ensures left[c] == right[c] {
      assert (after + multiset(r) + multiset(d))[c] == (before + multiset(more))[c];
      assert (before + multiset(refused) + multiset(dropped))[c] == multiset(sent)[c];
    }
  }

  function InOrder(q: seq<Queued>): seq<OutMessage>
  {
    if q == [] then [] else [q[0].message] + InOrder(q[1..])
  }

  function Failed(q: seq<Queued>): seq<Fired>
  {
    if q == [] then [] else [Fired(q[0].callback, Some(ConnectionError))] + Failed(q[1..])
  }

  lemma NothingAccounted()
    ensures Accounted(multiset{}, [], None, [])
  {
  }

  lemma NothingCoalesced()
    ensures Coalesced([])
  {
  }

  lemma TailCoalesced(q: seq<Queued>)
    requires Coalesced(q) && q != []
    ensures Coalesced(q[1..])
  {
    hide SameTest, SameWire;
    var r := q[1..];
    forall i, j | 0 <= i < j < |r|
      ensures !SameTest(r[i].message, r[j].message) && !SameWire(r[i].message, r[j].message) {
      assert r[i] == q[i + 1] && r[j] == q[j + 1];
    }
  }

  lemma {:induction false} DoneFailed(q: seq<Queued>)
    ensures Done(Failed(q)) == Waiting(q)
  {
    if q != [] {
      DoneFailed(q[1..]);
      assert Failed(q)[1..] == Failed(q[1..]);
    }
  }

  lemma NoneFailed()
    ensures Failed([]) == []
  {
  }

  lemma DoneConcat(a: seq<Fired>, b: seq<Fired>)
    ensures Done(a + b) == Done(a) + Done(b)
  {
  }

  lemma AccountedFailed(accepted: multiset<Callback>, fired: seq<Fired>, p: Option<PendingWrite>, q: seq<Queued>)
    requires Accounted(accepted, fired, p, q)
    ensures Accounted(accepted, fired + Failed(q), p, [])
  {
    DoneFailed(q);
    DoneConcat(fired, Failed(q));
    assert multiset(Done(fired) + Waiting(q)) == multiset(Done(fired)) + multiset(Waiting(q));
  }

  lemma AccountedTaken(accepted: multiset<Callback>, fired: seq<Fired>, w: PendingWrite, q: seq<Queued>,
                       error: Option<Error>)
    requires Accounted(accepted, fired, Some(w), q)
    ensures Accounted(accepted, fired + [Fired(w.callback, error)], None, q)
  {
    hide Done, Waiting;
    DoneAppend(fired, Fired(w.callback, error));
    MultisetAppend(Done(fired), w.callback);
  }

  lemma AccountedBegun(accepted: multiset<Callback>, fired: seq<Fired>, w: PendingWrite, q: seq<Queued>)
    requires q != [] && Accounted(accepted, fired, None, q) && w.callback == q[0].callback
    ensures Accounted(accepted, fired, Some(w), q[1..])
  {
    hide Done;
    assert Waiting(q)[1..] == Waiting(q[1..]);
    MultisetHead(Waiting(q));
  }

  lemma SameInFlight(accepted: multiset<Callback>, fired: seq<Fired>, w: PendingWrite, w': PendingWrite, q: seq<Queued>)
    requires Accounted(accepted, fired, Some(w), q) && w'.callback == w.callback
    ensures Accounted(accepted, fired, Some(w'), q)
  {
    hide Done, Waiting;
  }

  lemma AllFired(accepted: multiset<Callback>, fired: seq<Fired>)
    requires Accounted(accepted, fired, None, [])
    ensures accepted == multiset(Done(fired))
  {
    hide Done;
  }

  lemma PartWritten(started: seq<OutMessage>, sendBuf: Bytes, k: nat, wire: Bytes)
    requires started != [] && sendBuf == started[|started| - 1].encoding && k <= |sendBuf|
    requires wire == Encodings(started[..|started| - 1]) + sendBuf[..k]
    ensures wire <= Encodings(started)
  {
  }

  lemma LastWritten(started: seq<OutMessage>, sendBuf: Bytes, wire: Bytes)
    requires started != [] && sendBuf == started[|started| - 1].encoding
    requires wire == Encodings(started[..|started| - 1]) + sendBuf[..|sendBuf|]
    ensures wire == Encodings(started)
  {
  }

  /** A connection test that waits already stands for the new one. */
  predicate Dropped(q: seq<Queued>, m: OutMessage)
  {
    exists k | 0 <= k < |q| :: SameTest(q[k].message, m)
  }

  /** How the queue takes a message: dropped, in the place of the older value of its wire, or last. */
  ghost predicate Enqueued(q: seq<Queued>, m: OutMessage, callback: Callback, q': seq<Queued>, fired: seq<Fired>,
                           fired': seq<Fired>)
  {
    if Dropped(q, m) then q' == q && fired' == fired
    else if exists k :: 0 <= k < |q| && SameWire(q[k].message, m) then
      exists k :: 0 <= k < |q| && SameWire(q[k].message, m)
                  && q' == q[k := Queued(m, callback)] && fired' == fired + [Fired(q[k].callback, None)]
    else q' == q + [Queued(m, callback)] && fired' == fired
  }

  lemma OneWire(q: seq<Queued>, i: nat, j: nat, m: OutMessage)
    requires Coalesced(q) && i < j < |q| && SameWire(q[i].message, m)
    ensures !SameWire(q[j].message, m)
  {
  }

  lemma TestIsNoWire(a: OutMessage, b: OutMessage, m: OutMessage)
    requires SameTest(a, m)
    ensures !SameWire(b, m)
  {
  }

  lemma AppendCoalesced(q: seq<Queued>, e: Queued)
    requires Coalesced(q)
    requires forall k | 0 <= k < |q| :: !SameTest(q[k].message, e.message) && !SameWire(q[k].message, e.message)
    ensures Coalesced(q + [e])
  {
  }

  lemma UpdateCoalesced(q: seq<Queued>, at: nat, e: Queued)
    requires Coalesced(q) && at < |q| && SameWire(q[at].message, e.message)
    ensures Coalesced(q[at := e])
  {
    var r := q[at := e];
    forall i, j | 0 <= i < j < |r|
      ensures !SameTest(r[i].message, r[j].message) && !SameWire(r[i].message, r[j].message) {
      assert !SameTest(q[i].message, q[j].message) && !SameWire(q[i].message, q[j].message);
    }
  }
}
