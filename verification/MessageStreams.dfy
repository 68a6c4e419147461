/** Messages over the stream: what a sender puts on the wire a receiver hands to the deserialiser. */
module MessageStreams {
  import opened Numbers
  import opened Results
  import opened Messages
  import Layout
  import WireBytes
  import opened StreamReceiving
  import S = StreamSending

  // ---------------------------------------------------------------- encodings are frames

  lemma Digits(n: uint32)
    ensures n == n % 256 + 0x100 * (n / 0x100 % 256) + 0x1_0000 * (n / 0x1_0000 % 256)
                 + 0x100_0000 * (n / 0x100_0000 % 256)
  {
    var a, b, c := n / 0x100, n / 0x1_0000, n / 0x100_0000;
    assert n == n % 256 + 0x100 * a;
    assert a == a % 256 + 0x100 * b by { assert a / 0x100 == b; }
    assert b == b % 256 + 0x100 * c by { assert b / 0x100 == c; }
    assert c < 256;
  }

  /** The size of n in the first eight bytes. */
  lemma SeedOfSize(n: uint32, seed: Bytes, maxMessageSize: nat)
    requires seed == [0x52, 0x52, 0x41, 0x43, n % 256, n / 0x100 % 256, n / 0x1_0000 % 256, n / 0x100_0000 % 256]
    ensures CheckSeed(seed, maxMessageSize).Ok? <==> 8 <= n <= maxMessageSize && n < 0x8000_0000
    ensures CheckSeed(seed, maxMessageSize).Ok? ==> CheckSeed(seed, maxMessageSize) == Ok(n)
  {
    hide CheckSeed;
    GoodSeed(seed, maxMessageSize);
    Digits(n);
    assert seed[..4] == [0x52, 0x52, 0x41, 0x43];
  }

  /** The encoding of a message is a frame of its length exactly when the length is within the maximum
    * and within 31 bits; the check of its first eight bytes finds no other fault. */
  lemma EncodingIsFrame(m: Message, maxMessageSize: nat)
    requires Layout.Consistent(m)
    ensures var b := Layout.Encode(m);
            && |b| >= 12
            && (Framed(b, maxMessageSize) <==> |b| <= maxMessageSize && |b| < 0x8000_0000)
            && (Framed(b, maxMessageSize) <==> CheckSeed(b[..8], maxMessageSize) == Ok(|b|))
            && (Framed(b, maxMessageSize) <==> CheckSeed(b[..8], maxMessageSize).Ok?)
  {
    var b := Layout.Encode(m);
    assert |b| == m.header.messageSize;
    WireBytes.EncodingStarts(m);
    var size := m.header.messageSize;
    hide Layout.Encode, CheckSeed, Layout.Consistent;
    SeedIsStart(b, size);
    SeedOfSize(size, b[..8], maxMessageSize);
  }

  lemma SeedIsStart(b: Bytes, n: uint32)
    requires |b| >= 10
    requires b[..10] == [0x52, 0x52, 0x41, 0x43,
                         n % 256, n / 0x100 % 256, n / 0x1_0000 % 256, n / 0x100_0000, 4, 0]
    ensures b[..8] == [0x52, 0x52, 0x41, 0x43, n % 256, n / 0x100 % 256, n / 0x1_0000 % 256, n / 0x100_0000 % 256]
  {
    assert b[..8] == b[..10][..8];
  }

  // ---------------------------------------------------------------- messages for a receiver

  /** A message that the receiver's limit admits and its deserialiser reads, with an entry. */
  ghost predicate Admitted(m: Message, parse: Bytes -> Parsed, maxMessageSize: nat)
  {
    && Layout.Consistent(m) && |Layout.Encode(m)| <= maxMessageSize
    && m.entries != [] && parse(Layout.Encode(m)) == Readable(|m.entries|)
  }

  function EncodingsOf(ms: seq<Message>): (fs: seq<Bytes>)
    ensures |fs| == |ms| && forall i | 0 <= i < |ms| :: fs[i] == Layout.Encode(ms[i])
  {
    seq(|ms|, i requires 0 <= i < |ms| => Layout.Encode(ms[i]))
  }

  lemma AdmittedFrame(m: Message, parse: Bytes -> Parsed, maxMessageSize: nat)
    requires Admitted(m, parse, maxMessageSize) && maxMessageSize <= GREATEST_MAX_MESSAGE_SIZE
    ensures Framed(Layout.Encode(m), maxMessageSize) && Accepts(parse, Layout.Encode(m))
  {
    EncodingIsFrame(m, maxMessageSize);
    hide Layout.Encode, Layout.Consistent, Framed;
  }

  /** Encodings of messages, one after the other and with anything behind them that holds no whole
    * frame, cut into WebSocket messages in any way and read in between in any way, are handed to the
    * deserialiser exactly as they were written; and the connection stays unless a bad header follows. */
  method ReceiveMessages(receiver: StreamReceiver, events: seq<Event>, ghost ms: seq<Message>, ghost rest: Bytes)
    requires receiver.Live() && !receiver.failed && receiver.arrived == []
    requires forall m | m in ms :: Admitted(m, receiver.parse, receiver.maxMessageSize)
    requires Data(events) == Flatten(EncodingsOf(ms)) + rest
    requires HandedOver(receiver.parse, rest, receiver.maxMessageSize) == []
    modifies receiver
    ensures receiver.Live() && receiver.delivered == EncodingsOf(ms)
    ensures receiver.lost <==> BadHeader(rest, receiver.maxMessageSize)
  {
    hide StreamReceiver.Live, Framed, Accepts, Admitted, HandedOver, BadHeader, Data, Flatten, Layout.Encode;
    ghost var frames := EncodingsOf(ms);
    LimitOf(receiver);
    forall f | f in frames ensures Framed(f, receiver.maxMessageSize) && Accepts(receiver.parse, f) {
      var i :| 0 <= i < |frames| && f == frames[i];
      assert ms[i] in ms;
      AdmittedFrame(ms[i], receiver.parse, receiver.maxMessageSize);
    }
    ReceiveAll(receiver, events, frames, rest);
  }

  lemma LimitOf(receiver: StreamReceiver)
    requires receiver.Live()
    ensures receiver.maxMessageSize <= GREATEST_MAX_MESSAGE_SIZE
  {
  }

  // ---------------------------------------------------------------- from a sender to a receiver

  function Sent(ms: seq<S.OutMessage>): (fs: seq<Bytes>)
    ensures |fs| == |ms| && forall i | 0 <= i < |ms| :: fs[i] == ms[i].encoding
  {
    seq(|ms|, i requires 0 <= i < |ms| => ms[i].encoding)
  }

  lemma {:induction false} EncodingsFlat(ms: seq<S.OutMessage>)
    ensures S.Encodings(ms) == Flatten(Sent(ms))
    decreases |ms|
  {
    if ms == [] {
      assert Sent(ms) == [];
    } else {
      var n := |ms| - 1;
      EncodingsFlat(ms[..n]);
      assert Sent(ms) == Sent(ms[..n]) + [ms[n].encoding];
      FlattenAppend(Sent(ms[..n]), ms[n].encoding);
    }
  }

  /** A part of a frame hands over nothing, and does no harm. */
  lemma PartOfFrame(parse: Bytes -> Parsed, f: Bytes, w: Bytes, maxMessageSize: nat)
    requires Framed(f, maxMessageSize) && w <= f && |w| < |f|
    ensures HandedOver(parse, w, maxMessageSize) == [] && !BadHeader(w, maxMessageSize)
  {
    hide CheckSeed;
    if |w| >= SEED { assert w[..SEED] == f[..SEED]; }
  }

  /** The first n frames are whole in w, and the next one is not. */
  ghost predicate WholeIn(fs: seq<Bytes>, w: Bytes, n: nat)
  {
    && n <= |fs| && Flatten(fs[..n]) <= w
    && var rest := w[|Flatten(fs[..n])|..];
       if n < |fs| then rest <= fs[n] && |rest| < |fs[n]| else rest == []
  }

  /** The beginning of some frames is whole frames and a part of the next. */
  lemma {:induction false} WholeFrames(fs: seq<Bytes>, w: Bytes) returns (n: nat)
    requires w <= Flatten(fs)
    ensures n <= |fs| && WholeIn(fs, w, n)
  {
    hide Flatten;
    n := 0;
    FlattenNone();
    assert fs[..0] == [] && w[0..] == w;
    if fs != [] {
      FlattenHead(fs);
      if |w| >= |fs[0]| {
        var k := |fs[0]|;
        assert w[..k] == Flatten(fs)[..k] == fs[0];
        assert w[k..] <= Flatten(fs[1..]);
        n := WholeFrames(fs[1..], w[k..]);
        NextWhole(fs, w, n);
        n := n + 1;
      }
    }
  }

  lemma NextWhole(fs: seq<Bytes>, w: Bytes, n: nat)
    requires fs != [] && fs[0] <= w && WholeIn(fs[1..], w[|fs[0]|..], n)
    ensures WholeIn(fs, w, n + 1)
  {
    hide Flatten;
    var k, tail := |fs[0]|, fs[1..][..n];
    assert fs[..n + 1][0] == fs[0] && fs[..n + 1][1..] == tail;
    FlattenHead(fs[..n + 1]);
    assert w == fs[0] + w[k..];
    assert w[k..] == Flatten(tail) + w[k..][|Flatten(tail)|..];
    assert w[k + |Flatten(tail)|..] == w[k..][|Flatten(tail)|..];
  }

  /** More frames than are whole do not go into w. */
  lemma WholeIsMost(fs: seq<Bytes>, w: Bytes, n: nat, k: nat)
    requires WholeIn(fs, w, n) && k <= |fs| && Flatten(fs[..k]) <= w
    ensures k <= n
  {
    hide Flatten;
    if k > n {
      FlattenMore(fs, n + 1, k);
      assert fs[..n + 1] == fs[..n] + [fs[n]];
      FlattenAppend(fs[..n], fs[n]);
    }
  }

  lemma {:induction false} FlattenMore(fs: seq<Bytes>, i: nat, k: nat)
    requires i <= k <= |fs|
    ensures |Flatten(fs[..i])| <= |Flatten(fs[..k])|
    decreases k
  {
    hide Flatten;
    if i < k {
      FlattenMore(fs, i, k - 1);
      assert fs[..k] == fs[..k - 1] + [fs[k - 1]];
      FlattenAppend(fs[..k - 1], fs[k - 1]);
    }
  }

  /** What is sent is the encoding of a message with an entry, which the deserialiser reads. */
  ghost predicate Carries(e: S.SendEvent, parse: Bytes -> Parsed)
  {
    e.Send? ==> exists m :: Encodes(e.message.encoding, m, parse)
  }

  ghost predicate Encodes(b: Bytes, m: Message, parse: Bytes -> Parsed)
  {
    Layout.Consistent(m) && b == Layout.Encode(m) && m.entries != [] && parse(b) == Readable(|m.entries|)
  }

  lemma SentIsFrame(b: S.OutMessage, sends: seq<S.SendEvent>, sendMax: nat, parse: Bytes -> Parsed, receiveMax: nat)
    requires S.HandedOver(b, sends, sendMax) && forall e | e in sends :: Carries(e, parse)
    requires sendMax - 100 <= receiveMax <= GREATEST_MAX_MESSAGE_SIZE
    ensures Framed(b.encoding, receiveMax) && Accepts(parse, b.encoding)
  {
    hide Layout.Encode, Layout.Consistent, Framed, Accepts;
    var k :| 0 <= k < |sends| && sends[k].Send? && sends[k].message == b
              && S.Sendable(b, sends[k].authorized, sendMax);
    assert Carries(sends[k], parse);
    var m :| Encodes(sends[k].message.encoding, m, parse);
    AdmittedFrame(m, parse, receiveMax);
  }

  /** From end to end: whatever is sent, paused, resumed, completed, failed or closed at the sender, and
    * however the bytes it has written by then are cut into WebSocket messages and read, the receiver
    * hands over the first n messages put on the wire, whole and in order: those whose last byte has been
    * written, and among them every one whose callback has fired without an error and that no newer
    * value has superseded. Nothing the sender accepts is refused by a receiver whose maximum is not
    * smaller. */
  method SendAndReceive(sender: S.StreamSender, sends: seq<S.SendEvent>, receiver: StreamReceiver,
                        cut: Bytes -> seq<Event>)
    returns (n: nat)
    requires sender.Valid() && sender.wire == [] && sender.started == [] && sender.pending == None
    requires sender.sendQueue == [] && sender.fired == [] && sender.accepted == multiset{}
    requires receiver.Live() && !receiver.failed && receiver.arrived == []
    requires sender.maxMessageSize - 100 <= receiver.maxMessageSize
    requires forall e | e in sends :: Carries(e, receiver.parse)
    requires forall b :: Data(cut(b)) == b
    modifies sender, receiver
    ensures sender.Valid() && receiver.Live() && !receiver.lost
    ensures n <= |sender.started| && receiver.delivered == Sent(sender.started[..n])
    ensures WholeIn(Sent(sender.started), sender.wire, n)
    ensures sender.connected && sender.pending == None ==> n == |sender.started|
    ensures S.Explained(sender.fired, sender.whole, sender.superseded)
    ensures |sender.whole| <= n && forall i | 0 <= i < |sender.whole| :: sender.whole[i].message == sender.started[i]
  {
    hide S.StreamSender.Valid, StreamReceiver.Live, Framed, Accepts, Carries, HandedOver, BadHeader, Data, Flatten,
         WholeIn, S.Explained, S.AllSent;
    SendAll(sender, sends);
    ghost var ms, fs := sender.started, Sent(sender.started);
    LimitOf(receiver);
    AllFrames(ms, sends, sender.maxMessageSize, receiver.parse, receiver.maxMessageSize);
    ghost var k := WholeFrames(fs, sender.wire);
    ghost var rest := RestOf(receiver.parse, fs, sender.wire, k, receiver.maxMessageSize);
    ReceiveAll(receiver, cut(sender.wire), fs[..k], rest);
    n := |receiver.delivered|;
    assert Sent(ms[..n]) == fs[..n];
    WholeIsMost(fs, sender.wire, n, |sender.whole|);
    if sender.wire == Flatten(fs) {
      assert fs[..|fs|] == fs;
      WholeIsMost(fs, sender.wire, n, |fs|);
    }
  }

  /** The sender's part: what it has written are the first bytes of what it has begun to write. */
  method SendAll(sender: S.StreamSender, sends: seq<S.SendEvent>)
    requires sender.Valid() && sender.wire == [] && sender.started == [] && sender.pending == None
    requires sender.sendQueue == [] && sender.fired == [] && sender.accepted == multiset{}
    modifies sender
    ensures sender.Valid() && S.AllSent(sender.started, sends, sender.maxMessageSize)
    ensures sender.wire <= Flatten(Sent(sender.started))
    ensures sender.connected && sender.pending == None ==> sender.wire == Flatten(Sent(sender.started))
    ensures S.Explained(sender.fired, sender.whole, sender.superseded)
    ensures |sender.whole| <= |sender.started|
    ensures Flatten(Sent(sender.started)[..|sender.whole|]) <= sender.wire
    ensures forall i | 0 <= i < |sender.whole| :: sender.whole[i].message == sender.started[i]
  {
    hide S.StreamSender.Valid, Flatten, S.Encodings, S.Explained, S.AllSent;
    NothingEncoded();
    var _, _, _ := sender.Run(sends);
    EncodingsFlat(sender.started);
    EncodingsFlat(sender.started[..|sender.whole|]);
    assert sender.started[0..] == sender.started;
    assert Sent(sender.started[..|sender.whole|]) == Sent(sender.started)[..|sender.whole|];
  }

  lemma AllFrames(ms: seq<S.OutMessage>, sends: seq<S.SendEvent>, sendMax: nat, parse: Bytes -> Parsed,
                  receiveMax: nat)
    requires S.AllSent(ms, sends, sendMax) && forall e | e in sends :: Carries(e, parse)
    requires sendMax - 100 <= receiveMax <= GREATEST_MAX_MESSAGE_SIZE
    ensures forall f | f in Sent(ms) :: Framed(f, receiveMax) && Accepts(parse, f)
  {
    hide Framed, Accepts, Carries, S.HandedOver;
    forall f | f in Sent(ms) ensures Framed(f, receiveMax) && Accepts(parse, f) {
      var i :| 0 <= i < |ms| && f == Sent(ms)[i];
      assert S.HandedOver(ms[i], sends, sendMax);
      SentIsFrame(ms[i], sends, sendMax, parse, receiveMax);
    }
  }

  lemma NothingEncoded()
    ensures S.Encodings([]) == []
  {
  }

  /** Behind the whole frames there is nothing to hand over. */
  lemma RestOf(parse: Bytes -> Parsed, fs: seq<Bytes>, w: Bytes, n: nat, maxMessageSize: nat) returns (rest: Bytes)
    requires WholeIn(fs, w, n) && forall f | f in fs :: Framed(f, maxMessageSize)
    ensures w == Flatten(fs[..n]) + rest
    ensures HandedOver(parse, rest, maxMessageSize) == [] && !BadHeader(rest, maxMessageSize)
  {
    hide Flatten, Framed;
    rest := w[|Flatten(fs[..n])|..];
    if n < |fs| {
      assert fs[n] in fs;
      PartOfFrame(parse, fs[n], rest, maxMessageSize);
    }
  }
}
