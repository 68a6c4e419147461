/** Messages from the writer to the reader: any quotas on one side, any cuts on the other. */
module Transfers {
  import opened Numbers
  import opened Results
  import opened Messages
  import opened Layout
  import opened Restriction
  import opened ReaderFrames
  import opened ReaderTurns
  import ReaderData
  import opened Sizes
  import opened Sizable
  import opened Fidelity
  import Frames
  import opened Pieces
  import opened Writers
  import opened Readers

  /** A receiver's choices: how many bytes a call gets, by its number and the bytes that have been
    * read, and whether the transport puts them straight into an array that waits for them. */
  datatype Cuts = Cuts(size: (nat, nat) -> nat, direct: nat -> bool)

  /** Twelve bytes first and then at least one each time; and the carry-over buffer and the chunk
    * together hold the piece at hand. */
  ghost predicate Feeds(cuts: Cuts, m: Message)
  {
    forall k, n :: cuts.size(k, n) >= (if k == 0 then 12 else 1) && HandFitsIn(m, n, Even(128 + cuts.size(k, n)))
  }

  /** One call, with the bytes of the stream from n on. */
  method Call(reader: AsyncMessageReader, ghost m: Message, stream: Bytes, n: nat, chunk: Bytes, cont: Bytes)
    returns (used: nat, done: bool)
    requires n + |cont| + |chunk| <= |stream| && cont + chunk == stream[n..n + |cont| + |chunk|]
    requires reader.Valid() && reader.wanted == Some(m) && Consistent(m) && Encode(m) <= stream
    requires reader.taken + reader.Carry() == stream[..n]
    requires |cont| <= reader.Lacking() && (cont == [] || chunk == []) && n + |cont| + |chunk| >= 12
    modifies reader, reader.buf
    ensures reader.Valid() && reader.wanted == Some(m)
    ensures used <= |chunk| && reader.taken + reader.Carry() == stream[..n + |cont| + used]
    ensures used < |chunk| ==> |reader.Carry()| == 128
    ensures done <==> n + |cont| + |chunk| >= |Encode(m)|
    ensures !done ==>
              && reader.readMessages == old(reader.readMessages)
              && (used < |chunk| ==> !HandFitsIn(m, |reader.taken|, Even(128 + |chunk| - used)))
    ensures |old(reader.taken)| <= |reader.taken|
    ensures Crosses(old(reader.Goal()), |reader.taken| - |old(reader.taken)|, reader.Goal(),
                    Even(128 + |chunk| + |cont|))
    ensures done ==> reader.taken == Encode(m) && reader.readMessages == old(reader.readMessages) + [RestrictMessage(m)]
  {
    hide Encode, Consistent, RestrictMessage, AsyncMessageReader.InTransit, WellFormed, AsyncMessageReader.Starves,
         AsyncMessageReader.Lacking, AsyncMessageReader.Goal, Wrap, Agrees, HandFitsIn, Crosses;
    var k := n + |cont| + |chunk|;
    assert reader.Offered(chunk, cont) == stream[..k] by { NothingFilled(reader, cont); }
    PrefixAgrees(stream, Encode(m), k);
    ghost var before := reader.Offered([], cont);
    assert before + chunk == reader.Offered(chunk, cont);
    var r;
    r, used := reader.Read4(chunk, cont);
    done := r.value == ReadDone;
    Used(stream, before, chunk, k, used);
  }

  /** One call: the next bytes of the stream as a chunk, or straight into the waiting array. It goes on
    * whenever the carry-over buffer and the chunk together can hold the piece at hand. */
  method Feed(reader: AsyncMessageReader, ghost m: Message, stream: Bytes, n: nat, size: nat, direct: bool)
    returns (n': nat, done: bool)
    requires reader.Valid() && reader.wanted == Some(m)
    requires Consistent(m) && Encode(m) <= stream && n < |Encode(m)|
    requires reader.taken + reader.Carry() == stream[..n]
    requires size >= 1 && (n >= 12 || size >= 12)
    modifies reader, reader.buf
    ensures reader.Valid() && reader.wanted == Some(m)
    ensures n <= n' <= |stream| && n' <= n + size && reader.taken + reader.Carry() == stream[..n'] && n' >= 12
    ensures HandFitsIn(m, |old(reader.taken)|, Even(128 + size)) ==> n < n'
    ensures |old(reader.taken)| <= |reader.taken|
    ensures Crosses(old(reader.Goal()), |reader.taken| - |old(reader.taken)|, reader.Goal(), Even(128 + size))
    ensures done ==> n + size >= |Encode(m)|
    ensures !done ==> n' < |Encode(m)| && reader.readMessages == old(reader.readMessages)
    ensures done ==> reader.taken == Encode(m) && reader.readMessages == old(reader.readMessages) + [RestrictMessage(m)]
  {
    hide Encode, Consistent, RestrictMessage, AsyncMessageReader.InTransit, WellFormed, AsyncMessageReader.Lacking,
         AsyncMessageReader.Goal, Wrap, HandFitsIn, Crosses;
    EncodingAtLeast12(m);
    var l := if size <= |stream| - n then size else |stream| - n;
    var lacking := reader.Lacking();
    var chunk, cont := stream[n..n + l], [];
    if n >= 12 && lacking > 0 && direct {   // no array waits before the header
      l := if l <= lacking then l else lacking;
      chunk, cont := [], stream[n..n + l];
    }
    assert cont + chunk == stream[n..n + l];
    var used;
    used, done := Call(reader, m, stream, n, chunk, cont);
    n' := n + |cont| + used;
    CrossesRoom(old(reader.Goal()), |reader.taken| - |old(reader.taken)|, reader.Goal(), Even(128 + |chunk| + |cont|),
                Even(128 + size));
    if n' == n && !done {
      assert |reader.taken| + 128 == n == |old(reader.taken)| + |old(reader.Carry())|;
      FitsMore(m, |reader.taken|, 128 + |chunk| - used, 128 + size);
    }
    assert done ==> |reader.taken + reader.Carry()| == n';
  }

  lemma FitsMore(m: Message, n: nat, a: nat, b: nat)
    requires a <= b
    ensures HandFitsIn(m, n, Even(a)) ==> HandFitsIn(m, n, Even(b))
  {
    hide Encode, AtHand;
  }

  lemma NothingFilled(reader: AsyncMessageReader, cont: Bytes)
    requires reader.stateStack != [] && (reader.Lacking() > 0 || cont == [])
    ensures reader.Filled(cont) == cont
  {
  }

  lemma Used(stream: Bytes, before: Bytes, chunk: Bytes, n: nat, used: nat)
    requires n <= |stream| && before + chunk == stream[..n] && used <= |chunk|
    ensures before + chunk[..used] == stream[..n - |chunk| + used]
  {
    assert (before + chunk)[..|before| + used] == before + chunk[..used];
  }

  /** Chunk independence: however the bytes of a consistent message, with anything behind it, are
    * cut, and whichever of them go straight into arrays, the reader throws nothing and the message
    * read is the one encoded. */
  method ReadAll(reader: AsyncMessageReader, ghost m: Message, stream: Bytes, cuts: Cuts) returns (n: nat)
    requires reader.Valid() && reader.wanted == Some(m) && reader.taken == [] && reader.Carry() == []
    requires Consistent(m) && Encode(m) <= stream && Feeds(cuts, m)
    modifies reader, reader.buf
    ensures reader.Valid() && reader.readMessages == old(reader.readMessages) + [RestrictMessage(m)]
    ensures reader.taken == Encode(m)
    ensures n <= |stream| && reader.taken + reader.Carry() == stream[..n]
  {
    hide Encode, Consistent, RestrictMessage, AsyncMessageReader.InTransit, WellFormed, HandFitsIn, Crosses,
        AsyncMessageReader.Goal,
         Wrap, Feeds, CutsTo;
    n := 0;
    var done, k := false, 0;
    EncodingAtLeast12(m);
    while !done
      invariant n <= |stream| && reader.Valid() && reader.wanted == Some(m)
      invariant reader.taken + reader.Carry() == stream[..n]
      invariant !done ==> n < |Encode(m)| && reader.readMessages == old(reader.readMessages) && (k == 0 || n >= 12)
      invariant done ==>
                  reader.taken == Encode(m) && reader.readMessages == old(reader.readMessages) + [RestrictMessage(m)]
      decreases !done, |stream| - n
    {
      n, done := FeedNext(reader, m, stream, n, cuts, k);
      k := k + 1;
    }
  }

  /** The k-th call of a receiver whose chunks always hold the piece at hand. */
  method FeedNext(reader: AsyncMessageReader, ghost m: Message, stream: Bytes, n: nat, cuts: Cuts, k: nat)
    returns (n': nat, done: bool)
    requires reader.Valid() && reader.wanted == Some(m) && Feeds(cuts, m)
    requires Consistent(m) && Encode(m) <= stream && n < |Encode(m)| && (k == 0 || n >= 12)
    requires reader.taken + reader.Carry() == stream[..n]
    modifies reader, reader.buf
    ensures reader.Valid() && reader.wanted == Some(m)
    ensures n <= n' <= |stream| && reader.taken + reader.Carry() == stream[..n']
    ensures !done ==> n < n' < |Encode(m)| && n' >= 12 && reader.readMessages == old(reader.readMessages)
    ensures done ==> reader.taken == Encode(m) && reader.readMessages == old(reader.readMessages) + [RestrictMessage(m)]
  {
    hide Encode, Consistent, RestrictMessage, AsyncMessageReader.InTransit, WellFormed, HandFitsIn, Crosses,
        AsyncMessageReader.Goal,
         Wrap, Feeds, CutsTo;
    ReadSoFar(reader, m);
    var pos := reader.messagePos;
    var size := cuts.size(k, pos);
    Fed(cuts, m, k, pos);
    assert HandFitsIn(m, |reader.taken|, Even(128 + size));
    n', done := Feed(reader, m, stream, n, size, cuts.direct(k));
  }

  lemma Fed(cuts: Cuts, m: Message, k: nat, n: nat)
    requires Feeds(cuts, m)
    ensures cuts.size(k, n) >= (if k == 0 then 12 else 1) && HandFitsIn(m, n, Even(128 + cuts.size(k, n)))
  {
    hide HandFitsIn;
  }

  /** The position of the reader is the number of bytes read. */
  lemma ReadSoFar(reader: AsyncMessageReader, m: Message)
    requires reader.Valid() && reader.wanted == Some(m) && Consistent(m)
    ensures reader.messagePos == |reader.taken| <= |Encode(m)|
    ensures CutsTo(MessagePieces(m), |reader.taken|, reader.Goal())
  {
    hide Frames.Good, Frames.Rest, Encode, WellFormed, MessagePieces, NoneSplit, CutsTo, Wrap;
    var gs := reader.goals;
    assert |reader.taken| + |Frames.Rest(gs, Frames.Top(gs).state)| == |Encode(m)|;
    WrapSmall(|reader.taken|);
  }

  /** Between calls the reader is inside of no piece that is read at once. */
  lemma TakenIsBoundary(reader: AsyncMessageReader, m: Message)
    requires reader.Valid() && reader.wanted == Some(m)
    ensures NoneSplit(MessagePieces(m), |reader.taken|)
  {
    hide Frames.Good, Frames.Rest, Encode, Consistent, WellFormed, MessagePieces, NoneSplit, CutsTo,
         AsyncMessageReader.Framing;
  }

  /** at[i]: how many bytes had been read before the i-th of some calls. */
  ghost predicate AllCallsHold(m: Message, at: seq<nat>, sizes: nat -> nat)
  {
    forall i | 0 <= i < |at| :: HandFitsIn(m, at[i], Even(128 + sizes(i)))
  }

  ghost predicate AtLeast(sizes: nat -> nat) { forall k :: sizes(k) >= if k == 0 then 12 else 1 }

  ghost predicate AtMost(sizes: nat -> nat, most: nat) { forall k :: 128 + sizes(k) <= most }

  /** Some calls, with chunks of any sizes, each of them as a chunk or straight into a waiting array.
    * When carry-over buffer and chunk always hold the piece at hand the message is done in time, and
    * while there is a piece that they never hold it is not, however often the reader is called. */
  method ReadInCalls(reader: AsyncMessageReader, ghost m: Message, stream: Bytes, sizes: nat -> nat,
                     direct: nat -> bool, calls: nat,
                     ghost most: nat)
    returns (at: seq<nat>, done: bool)
    requires reader.Valid() && reader.wanted == Some(m) && reader.taken == [] && reader.Carry() == []
    requires Consistent(m) && Encode(m) <= stream && AtLeast(sizes)
    modifies reader, reader.buf
    ensures reader.Valid() && |at| <= calls
    ensures done ==> reader.taken == Encode(m) && reader.readMessages == old(reader.readMessages) + [RestrictMessage(m)]
    ensures !done ==> reader.readMessages == old(reader.readMessages)
    ensures AllCallsHold(m, at, sizes) && calls >= |Encode(m)| ==> done
    ensures AtMost(sizes, most) && !AllFit(MessagePieces(m), Even(most)) ==> !done
  {
    hide Encode, Consistent, RestrictMessage, AsyncMessageReader.InTransit, WellFormed, HandFitsIn, Crosses,
        AsyncMessageReader.Goal,
         MessagePieces, AllFit, AllCallsHold, Passed, CutsTo, Wrap;
    EncodingAtLeast12(m);
    ghost var within := AtMost(sizes, most);
    var n, k := 0, 0;
    at, done := [], false;
    NothingPassed(m, most);
    while k < calls && !done
      invariant k == |at| <= calls && reader.Valid() && reader.wanted == Some(m) && n <= |stream|
      invariant reader.taken + reader.Carry() == stream[..n]
      invariant !done ==> n < |Encode(m)| && reader.readMessages == old(reader.readMessages) && (k == 0 || n >= 12)
      invariant done ==>
                  reader.taken == Encode(m) && reader.readMessages == old(reader.readMessages) + [RestrictMessage(m)]
      invariant AllCallsHold(m, at, sizes) && !done ==> n >= k
      invariant within ==> PassedBy(m, reader.taken, most)
      decreases calls - k, !done
    {
      ReadSoFar(reader, m);
      ghost var before, goal := |reader.taken|, reader.Goal();
      var size := sizes(k);
      at := at + [reader.messagePos];
      LastCallHolds(m, at, sizes);
      n, done := Feed(reader, m, stream, n, size, direct(k));
      if within {
        PassedOn(MessagePieces(m), before, goal, |reader.taken| - before, reader.Goal(), Even(128 + size), Even(most));
      }
      k := k + 1;
    }
    if within && done {
      PiecesCover(m);
      AllPassed(MessagePieces(m), Even(most));
    }
  }

  ghost predicate PassedBy(m: Message, taken: Bytes, most: nat) { Passed(MessagePieces(m), |taken|, Even(most)) }

  lemma NothingPassed(m: Message, most: nat)
    ensures PassedBy(m, [], most)
  {
  }

  lemma LastCallHolds(m: Message, at: seq<nat>, sizes: nat -> nat)
    requires at != []
    ensures AllCallsHold(m, at, sizes) ==>
              AllCallsHold(m, at[..|at| - 1], sizes) && HandFitsIn(m, at[|at| - 1], Even(128 + sizes(|at| - 1)))
  {
    hide HandFitsIn;
  }

  /** The exact condition for chunks of one size: with calls enough the message is done if and only if
    * a chunk and the carry-over buffer together can hold each of its pieces. */
  method ReadEvenly(reader: AsyncMessageReader, ghost m: Message, stream: Bytes, size: nat, direct: nat -> bool,
                    calls: nat)
    returns (done: bool)
    requires reader.Valid() && reader.wanted == Some(m) && reader.taken == [] && reader.Carry() == []
    requires Consistent(m) && Encode(m) <= stream && size >= 12 && calls >= |Encode(m)|
    modifies reader, reader.buf
    ensures done <==> AllFit(MessagePieces(m), Even(128 + size))
  {
    hide Encode, Consistent, RestrictMessage, AsyncMessageReader.Valid, MessagePieces, AllFit, HandFitsIn;
    var sizes := _ => size;
    var at;
    at, done := ReadInCalls(reader, m, stream, sizes, direct, calls, 128 + size);
    if AllFit(MessagePieces(m), Even(128 + size)) {
      forall i | 0 <= i < |at| ensures HandFitsIn(m, at[i],
                                                  Even(128 + sizes(i))) { AllHandsFit(m, at[i], Even(128 + size)); }
    }
  }

  lemma AllHandsFit(m: Message, n: nat, room: Room)
    requires AllFit(MessagePieces(m), room)
    ensures HandFitsIn(m, n, room)
  {
    hide AllFit, MessagePieces, AtHand, Encode;
    if n < |Encode(m)| { AllAtHandFit(m, n, room); }
  }

  /** For every size of chunks there is a message with a longer block. */
  function LongHeader(size: nat): Message
  {
    Message(PLAIN_HEADER.(extended := seq(129 + size, _ => 0)), [])
  }

  lemma LongHeaderIsConsistent(size: nat)
    requires size <= 0x4000_0000
    ensures UpdateMessage4(LongHeader(size)).Ok?
    ensures Consistent(UpdateMessage4(LongHeader(size)).value)
    ensures AtOnce(129 + size) in MessagePieces(UpdateMessage4(LongHeader(size)).value)
  {
    hide Consistent, Encode;
    var h := LongHeader(size).header;
    var body := HeaderBodySize(PrepareHeader4(h, 0));
    assert 140 <= body <= 160 + size;
    WrapSmall(body);
    SizePlusUintXIsLeast(body);
    ComputedSizeIsExact(LongHeader(size));
    var u := UpdateMessage4(LongHeader(size)).value;
    assert Has(u.header.messageFlags, EXTENDED) && |u.header.extended| == 129 + size;
    LastPiece(u.header);
    assert AtOnce(129 + size) in HeaderPieces(0, u.header);
  }

  lemma LastPiece(h: MessageHeader)
    requires Has(h.messageFlags, EXTENDED) && |h.extended| > 0
    ensures AtOnce(|h.extended|) in HeaderPieces(0, h)
  {
    hide HeaderPieces;
    HeaderPiecesStep(20, h);
    PiecesWithin(0, 20, h, AtOnce(|h.extended|));
  }

  lemma {:induction false} PiecesWithin(k: nat, j: nat, h: MessageHeader, p: Piece)
    requires k <= j <= 20 && p in HeaderPieces(j, h)
    ensures p in HeaderPieces(k, h)
    decreases j - k
  {
    hide HeaderPieces, HeaderFieldPieces;
    if k < j {
      PiecesWithin(k + 1, j, h, p);
      HeaderPiecesStep(k, h);
    }
  }

  /** Such a message is never read, by a reader that has just been made, however often it is called. */
  method NeverRead(size: nat, direct: nat -> bool, calls: nat, behind: Bytes) returns (done: bool)
    requires 12 <= size <= 0x4000_0000
    ensures !done
  {
    hide Encode, Consistent, UpdateMessage4, MessagePieces, AsyncMessageReader.Valid;
    LongHeaderIsConsistent(size);
    var m := UpdateMessage4(LongHeader(size)).value;
    var reader := new AsyncMessageReader(Some(m));
    var sizes := _ => size;
    var _, finished := ReadInCalls(reader, m, Encode(m) + behind, sizes, direct, calls, 128 + size);
    assert !Fits(AtOnce(129 + size), Even(128 + size));
    return finished;
  }

  /** The round trip: whatever quotas and work buffers the sender is given and however the bytes
    * are cut for the receiver, the receiver gets the message back. */
  method Transfer(m: Message, quotas: (nat, nat) -> nat, works: (nat, nat) -> nat, cuts: Cuts)
    returns (r: Result<Message>)
    requires UpdateMessage4(m).Ok? ==>
               var u := UpdateMessage4(m).value;
               FullMessage(m) <= UINT32_MAX && EachFits(u, quotas, works) && Feeds(cuts, u)
    ensures r.Ok? == UpdateMessage4(m).Ok? == SizableMessage(m)
    ensures FullMessage(m) <= UINT32_MAX ==> (r.Ok? <==> Describable(m))
    ensures r.Ok? ==> r.value == RestrictMessage(UpdateMessage4(m).value) && MessageKept(m, r.value)
  {
    hide Encode, Consistent, RestrictMessage, UpdateMessage4, MessageKept, Join, AsyncMessageReader.InTransit,
         WellFormed, Feeds, FullMessage, Frames.Good, Frames.Rest, EachFits, AsyncMessageWriter.Ahead, CutsTo,
         SizableMessage, Describable;
    SizedMessage(m);
    if FullMessage(m) <= UINT32_MAX { SizedWithin32Bits(m); }
    var writer := new AsyncMessageWriter();
    var begun := writer.BeginWrite(m);
    if begun.Err? { return Err(begun.error); }
    ghost var u := writer.message;
    var bufs := WriteAll(writer, quotas, works);
    var reader := new AsyncMessageReader(Some(u));
    var n := ReadAll(reader, u, Join(bufs), cuts);
    assert reader.readMessages == [RestrictMessage(u)];
    r := reader.GetNextMessage();
    assert [r.value] + reader.readMessages == [RestrictMessage(u)];
    assert ([r.value] + reader.readMessages)[0] == r.value;
    UpdatedMessageKept(m);
  }

  /** Chunk independence fails beyond the carry-over buffer: with the buffer full and an extended
    * block at hand that is longer than buffer and chunk together, every call hands its whole chunk
    * back and changes nothing, however often it is repeated. */
  method Stall(reader: AsyncMessageReader, chunks: seq<Bytes>) returns (used: nat)
    requires reader.Valid() && reader.wanted == None && |reader.Carry()| == 128
    requires forall i | 0 <= i < |chunks| :: reader.Starves(|chunks[i]|)
    modifies reader, reader.buf
    ensures used == 0 && reader.Valid()
    ensures reader.stateStack == old(reader.stateStack) && reader.taken == old(reader.taken)
              && reader.Carry() == old(reader.Carry())
  {
    hide WellFormed, Wrap;
    used := 0;
    for k := 0 to |chunks|
      invariant used == 0 && reader.Valid() && reader.wanted == None
      invariant reader.stateStack == old(reader.stateStack) && reader.taken == old(reader.taken)
      invariant reader.Carry() == old(reader.Carry()) && reader.messagePos == old(reader.messagePos)
    {
      var r, u := reader.Read4(chunks[k], []);
      assert |reader.taken + reader.Carry()| == |reader.taken| + 128 + u;
      used := used + u;
      assert reader.taken + reader.Carry() == reader.taken + old(reader.Carry());
      assert reader.Carry() == (reader.taken + reader.Carry())[|reader.taken|..];
    }
  }

  lemma EncodingAtLeast12(m: Message)
    requires Consistent(m)
    ensures |Encode(m)| >= 12
  {
    hide Encode, Consistent;
    ReaderData.HeaderSizes(m);
  }

  lemma PrefixAgrees(stream: Bytes, e: Bytes, n: nat)
    requires e <= stream && n <= |stream|
    ensures Agrees(stream[..n], e)
  {
  }
}
