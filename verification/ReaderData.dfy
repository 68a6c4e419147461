/** Reading array memory and interrupted strings, which arrive in pieces, and whole messages. */
module ReaderData {
  import opened Numbers
  import opened Results
  import opened Messages
  import opened Layout
  import opened Pieces
  import opened Restriction
  import opened Frames
  import opened ReaderFrames
  import opened ReaderTurns
  import opened ReaderFields

  // ---------------------------------------------------------------- arrays

  function MemoryOf(g: Frame): Bytes
  {
    if g.data.OfElement? && g.data.element.data.ArrayData? then g.data.element.data.items.memory else []
  }

  lemma ArraySuits(f: ReadFrame)
    requires f.part.ElementPart? && f.state == ElementArray1 && Suits(f)
    ensures IsArrayType(f.part.element.elementType)
  {
  }

  lemma ArrayGoal(f: ReadFrame, g: Frame)
    requires f.part.ElementPart? && f.state == ElementArray1 && TopTracks(f, g) && FrameOk(g.state, g)
    ensures g.data.OfElement? && g.data.element.data.ArrayData?
    ensures IsArrayType(f.part.element.elementType) && f.part.element.elementType == g.data.element.data.items.dataType
    ensures RRArrayElementSize(f.part.element.elementType) * f.part.element.dataCount == |MemoryOf(g)|
    ensures FrameRest(g.state, g) == MemoryOf(g)
  {
    hide ElementTail, RestrictElement, RRArrayElementSize;
  }

  lemma WholeArray(t: uint16, k: nat)
    requires IsArrayType(t)
    ensures (RRArrayElementSize(t) * k) % RRArrayElementSize(t) == 0
  {
    var s := RRArrayElementSize(t);
    assert s == 1 || s == 2 || s == 4 || s == 8 || s == 16;
    if s == 1 { assert (1 * k) % 1 == 0; }
    else if s == 2 { assert (2 * k) % 2 == 0; }
    else if s == 4 { assert (4 * k) % 4 == 0; }
    else if s == 8 { assert (8 * k) % 8 == 0; }
    else { assert (16 * k) % 16 == 0; }
  }

  /** The whole array is in. */
  function ArrayTaken(f: ReadFrame, value: Bytes): ReadFrame
    requires f.part.ElementPart?
  {
    Attach(f, ElementFinishData, ArrayPart(f.part.element.elementType, value))
  }

  /** The frame that goes on with the array. */
  function ArrayBegun(f: ReadFrame, value: Bytes, size: nat, limit: uint32): ReadFrame
    requires f.part.ElementPart?
  {
    ReadFrame(ElementArray2, ElementFinishData, limit, ArrayPart(f.part.element.elementType, value), |value|, size)
  }

  lemma ArrayTakenSuits(f: ReadFrame, value: Bytes)
    requires f.part.ElementPart?
    ensures SameThing(f, ArrayTaken(f, value)) && Suits(ArrayTaken(f, value)) && !ArrayTaken(f, value).part.ArrayPart?
  {
    hide RRArrayElementSize;
  }

  lemma ArrayTracks(f: ReadFrame, g: Frame)
    requires f.part.ElementPart? && f.state == ElementArray1 && TopTracks(f, g) && FrameOk(g.state, g)
    ensures KeepTracks(f, ArrayTaken(f, MemoryOf(g)), g, g.(state := ElementFinishData))
  {
    hide ElementTail, RestrictElement, RRArrayElementSize;
    RestrictedElement(ElementOf(g));
  }

  lemma ArrayWhole(wanted: bool, f: ReadFrame, g: Frame, value: Bytes, before: Bytes, after: Bytes, room: nat)
    requires f.part.ElementPart? && f.state == ElementArray1 && |before| <= |after|
    requires wanted ==>
               && TopTracks(f, g) && FrameOk(g.state, g)
               && value == MemoryOf(g) && after == before + value && g.limit == |before| + |value|
    ensures ReadTurned(wanted, f, g, before, after, room, Keep(ArrayTaken(f, value)),
                       Stay(g.(state := ElementFinishData)), Go)
  {
    hide FrameOk, FrameRest, TopTracks, KeepTracks, Turned, Suits, SameThing, ArrayTaken;
    ArrayTakenSuits(f, value);
    assert ArrayTaken(f, value).state == ElementFinishData by { ArrayTakenState(f, value); }
    if wanted {
      ArrayGoal(f, g);
      ArrayTracks(f, g);
      TopStates(f, g);
      assert value[..|value|] == value;
      ArrayTurned(g, |value|, before, after, Even(room + |value|), Even(room), Stay(g.(state := ElementFinishData)),
                  Go);
    }
  }

  lemma ArrayTakenState(f: ReadFrame, value: Bytes)
    requires f.part.ElementPart?
    ensures ArrayTaken(f, value).state == ElementFinishData
  {
  }

  lemma TopStates(f: ReadFrame, g: Frame)
    requires TopTracks(f, g)
    ensures f.state == g.state && f.popState == g.popState
  {
    hide Holds;
  }

  lemma ArrayBegunSuits(f: ReadFrame, value: Bytes, size: nat, limit: uint32)
    requires f.part.ElementPart? && IsArrayType(f.part.element.elementType) && |value| < size
    requires size % RRArrayElementSize(f.part.element.elementType) == 0
    ensures MoveOk(f, Push(f, ArrayBegun(f, value, size, limit)))
  {
  }

  /** Part of the array is in; the transport is to fill in the rest. */
  lemma ArrayPart1(wanted: bool, f: ReadFrame, g: Frame, value: Bytes, size: nat, limit: uint32,
                   before: Bytes, after: Bytes, room: nat)
    requires f.part.ElementPart? && f.state == ElementArray1 && |before| <= |after| && |value| < size
    requires IsArrayType(f.part.element.elementType) && size % RRArrayElementSize(f.part.element.elementType) == 0
    requires wanted ==>
               && TopTracks(f, g) && FrameOk(g.state, g) && room == 0
               && size == |MemoryOf(g)| && value == MemoryOf(g)[..|value|] && after == before + value
               && g.limit == |before| + size && limit == |after| + (size - |value|)
    ensures ReadTurned(wanted, f, g, before, after, room, Push(f, ArrayBegun(f, value, size, limit)),
                       Enter(g, Frame(ElementArray2, ElementFinishData, limit, OfArray(MemoryOf(g)), |value|, size)),
                           Yield)
  {
    hide FrameOk, FrameRest, KeepTracks, FlowOk, MoveOk, RRArrayElementSize, Holds, Rank;
    ArrayBegunSuits(f, value, size, limit);
    if wanted {
      ArrayGoal(f, g);
      ArrayTracks(f, g);
      TopStates(f, g);
      var gc := Frame(ElementArray2, ElementFinishData, limit, OfArray(MemoryOf(g)), |value|, size);
      ArrayTurned(g, |value|, before, after, Even(room + |value|), Even(room), Enter(g, gc), Yield);
      ArrayBegunTracks(ArrayBegun(f, value, size, limit), gc);
    }
  }

  lemma ArrayBegunTracks(f: ReadFrame, g: Frame)
    requires f.part.ArrayPart? && g.data.OfArray? && f.limit == g.limit
              && |f.part.memory| == g.param1 <= |g.data.memory|
    requires f.part.memory == g.data.memory[..g.param1] && f.param2 == |g.data.memory| && f.state == g.state
              && f.popState == g.popState
    ensures TopTracks(f, g) && Complete(f.part, g.data) == ArrayPart(f.part.dataType, g.data.memory)
  {
  }

  // ---------------------------------------------------------------- the rest of an array

  lemma ArrayHolds(f: ReadFrame, g: Frame)
    requires f.part.ArrayPart? && TopTracks(f, g) && FrameOk(g.state, g) && Suits(f)
    ensures g.data.OfArray? && g.param1 == f.param1 < f.param2 == |g.data.memory| && f.limit == g.limit
    ensures FrameRest(g.state, g) == g.data.memory[f.param1..] && f.part.memory == g.data.memory[..f.param1]
    ensures g.state == f.state && g.popState == f.popState
  {
    hide RRArrayElementSize;
  }

  lemma ArrayRoom(f: ReadFrame)
    requires f.part.ArrayPart? && Suits(f)
    ensures f.param1 < f.param2
  {
  }

  function ArrayMore(f: ReadFrame, b: Bytes): ReadFrame
    requires f.part.ArrayPart?
  {
    f.(param1 := f.param1 + |b|, part := f.part.(memory := f.part.memory + b))
  }

  /** b more bytes of the array are in, by whichever way they came. */
  lemma ArrayContinues(wanted: bool, f: ReadFrame, g: Frame, b: Bytes, before: Bytes, after: Bytes, room: nat)
    requires f.part.ArrayPart? && Suits(f) && f.popState == ElementFinishData
    requires f.param1 + |b| <= f.param2 && |after| == |before| + |b|
    requires wanted ==>
               && TopTracks(f, g) && FrameOk(g.state, g) && after == before + b
               && b <= g.data.memory[f.param1..]
               && (f.param1 + |b| < f.param2 ==> room == 0)
    ensures f.param1 + |b| == f.param2 ==>
              ReadTurned(wanted, f, g, before, after, room, Pop(ArrayMore(f, b).part), Leave, Go)
    ensures f.param1 + |b| < f.param2 ==>
              ReadTurned(wanted, f, g, before, after, room, Keep(ArrayMore(f, b)), Stay(g.(param1 := g.param1 + |b|)),
                         Yield)
  {
    hide FrameOk, FlowOk, RRArrayElementSize, TopTracks, Rank;
    if wanted {
      ArrayHolds(f, g);
      var m := g.data.memory;
      assert b == m[f.param1..f.param1 + |b|];
      assert m[..f.param1] + b == m[..f.param1 + |b|];
      assert m[..|m|] == m;
      var done := f.param1 + |b| == f.param2;
      Array2Turned(g, |b|, before, after, Even(room + |b|), Even(room),
                   if done then Leave else Stay(g.(param1 := g.param1 + |b|)), if done then Go else Yield);
      if !done { ArrayBegunTracks(ArrayMore(f, b), g.(param1 := g.param1 + |b|)); }
    }
    PopRanks(f);
  }

  lemma PopRanks(f: ReadFrame)
    ensures f.popState == ElementFinishData ==> Rank(f.popState) < LEVEL
  {
  }

  // ---------------------------------------------------------------- the rest of a string

  lemma StringHolds(f: ReadFrame, g: Frame)
    requires f.part.StringPart? && TopTracks(f, g) && FrameOk(g.state, g) && Suits(f)
    ensures g.data.OfString? && g.param1 == f.param1 < f.part.size == |g.data.text| && f.limit == g.limit
    ensures FrameRest(g.state, g) == g.data.text[f.param1..] && f.part.text == g.data.text[..f.param1]
    ensures g.state == f.state && g.popState == f.popState
  {
  }

  function StringMore(f: ReadFrame, b: Bytes): ReadFrame
    requires f.part.StringPart?
  {
    f.(param1 := f.param1 + |b|, part := f.part.(text := f.part.text + b))
  }

  lemma StringContinues(wanted: bool, f: ReadFrame, g: Frame, b: Bytes, before: Bytes, after: Bytes, room: nat)
    requires f.part.StringPart? && Suits(f) && IsFieldState(f.popState)
    requires f.param1 + |b| <= f.part.size && |after| == |before| + |b|
    requires wanted ==>
               && TopTracks(f, g) && FrameOk(g.state, g) && after == before + b
               && b <= g.data.text[f.param1..]
               && (f.param1 + |b| < f.part.size ==> room == 0)
    ensures f.param1 + |b| == f.part.size ==>
              ReadTurned(wanted, f, g, before, after, room, Pop(StringMore(f, b).part), Leave, Go)
    ensures f.param1 + |b| < f.part.size ==>
              ReadTurned(wanted, f, g, before, after, room, Keep(StringMore(f, b)),
                         Stay(g.(param1 := g.param1 + |b|)), Block)
  {
    hide FrameOk, FlowOk, Rank, Crosses, FramePieces, Stuck;
    if wanted {
      StringHolds(f, g);
      var m := g.data.text;
      assert b == m[f.param1..f.param1 + |b|];
      assert m[..f.param1] + b == m[..f.param1 + |b|];
      assert m[..|m|] == m;
      var done := f.param1 + |b| == f.part.size;
      StringTurned(g, |b|, before, after, Even(room + |b|), Even(room),
                   if done then Leave else Stay(g.(param1 := g.param1 + |b|)), if done then Go else Block);
    }
  }

  // ---------------------------------------------------------------- the message

  function GoalMessage(g: Frame): Message { if g.data.OfMessage? then g.data.message else NEW_MESSAGE }

  lemma MessageHolds(f: ReadFrame, g: Frame)
    requires f.part.MessagePart? && TopTracks(f, g) && FrameOk(g.state, g)
    ensures g.data.OfMessage? && g.state == f.state && Consistent(GoalMessage(g))
              && g.limit == GoalMessage(g).header.messageSize
    ensures f.state == MessageInit || f.state == HeaderInit ==> f.limit == 12 && g.param1 == 0
    ensures f.state != MessageInit && f.state != HeaderInit ==>
              && f.limit == g.limit && g.param1 <= |GoalMessage(g).entries|
              && f.part.message == Message(RestrictHeader(GoalMessage(g).header),
                                           RestrictEntries(GoalMessage(g).entries[..g.param1]))
    ensures f.state == EntryInit ==> g.param1 < |GoalMessage(g).entries|
  {
    hide Consistent, RestrictHeader, RestrictEntries;
  }

  lemma MessageBegins(wanted: bool, f: ReadFrame, g: Frame)
    requires f.part.MessagePart? && f.state == MessageInit
    requires wanted ==> TopTracks(f, g) && FrameOk(g.state, g)
    ensures Becomes(wanted, f, f.(state := HeaderInit, part := MessagePart(NEW_MESSAGE)), g, [],
                    g.(state := HeaderInit, param1 := 0))
  {
    hide Advances, Consistent, RestrictHeader, RestrictEntries, FrameRest;
    if wanted {
      MessageStarts(g);
    }
  }

  lemma MessageEntriesBecome(wanted: bool, f: ReadFrame, g: Frame)
    requires f.part.MessagePart? && f.state == MessageEntries && Suits(f)
    requires wanted ==> TopTracks(f, g) && FrameOk(g.state, g)
    ensures wanted ==> (|f.part.message.entries| >= f.part.message.header.entryCount <==>
                        g.param1 == |GoalMessage(g).entries|)
    ensures (wanted ==> g.param1 == |GoalMessage(g).entries|) ==>
              Becomes(wanted, f, f.(state := MessageDone), g, [], g.(state := MessageDone))
    ensures (wanted ==> g.param1 < |GoalMessage(g).entries|) ==>
              Becomes(wanted, f, f.(state := EntryInit), g, [], g.(state := EntryInit))
  {
    hide Advances, FrameRest, ConsistentEntries, Encode, HeaderTail;
    if wanted {
      MessageTurns(g);
    }
  }

  function NewEntry(f: ReadFrame): ReadFrame
  {
    ReadFrame(EntrySize, MessageEntries, f.limit, EntryPart(NEW_ENTRY), 0, 0)
  }

  function GoalEntry(g: Frame, pos: nat): Frame
    requires g.param1 < |GoalMessage(g).entries|
  {
    var e := GoalMessage(g).entries[g.param1];
    Frame(EntrySize, MessageEntries, pos + e.entrySize, OfEntry(e), 0, 0)
  }

  lemma MessageMoves(f: ReadFrame)
    requires f.part.MessagePart? && Suits(f)
    ensures f.state == EntryInit ==> MoveOk(f, Push(f, NewEntry(f)))
    ensures f.state == MessageDone ==> MoveOk(f, Keep(f))
  {
  }

  lemma MessageGrows(f: ReadFrame, g: Frame)
    requires f.part.MessagePart? && f.state == EntryInit && TopTracks(f, g) && g.data.OfMessage?
    requires g.param1 < |GoalMessage(g).entries|
    ensures KeepTracks(f, Attach(f, MessageEntries, EntryPart(RestrictEntry(GoalMessage(g).entries[g.param1]))),
                       g, g.(param1 := g.param1 + 1, state := MessageEntries))
  {
    hide RestrictHeader, RestrictEntry, RestrictEntries;
    RestrictEntriesExtend(GoalMessage(g).entries, g.param1);
  }

  lemma NewEntryHolds(f: ReadFrame, g: Frame, pos: nat)
    requires g.param1 < |GoalMessage(g).entries| && ConsistentEntry(GoalMessage(g).entries[g.param1])
    requires f.limit >= pos + GoalMessage(g).entries[g.param1].entrySize
    ensures TopTracks(NewEntry(f), GoalEntry(g, pos))
  {
    hide EntryTail, ConsistentElements, RestrictElements;
  }

  lemma EntriesConsistent(m: Message, i: nat)
    requires Consistent(m) && i < |m.entries|
    ensures ConsistentEntry(m.entries[i])
  {
    hide ConsistentEntry, ConsistentHeader, Encode;
    ConsistentEntryAt(m.entries, i);
  }

  /** The new entry holds nothing yet; once complete it is one more entry of the message. */
  lemma EntryChild(f: ReadFrame, g: Frame, pos: nat)
    requires f.part.MessagePart? && f.state == EntryInit && TopTracks(f, g) && FrameOk(g.state, g)
    requires g.limit == pos + |FrameRest(g.state, g)|
    ensures g.param1 < |GoalMessage(g).entries|
    ensures var gc := GoalEntry(g, pos);
      && Pushes(g, g.(param1 := g.param1 + 1), gc, pos)
      && MoveTracks(f, g, Push(f, NewEntry(f)), Enter(g.(param1 := g.param1 + 1), gc))
  {
    hide FrameRest, FrameOk, TopTracks, KeepTracks, RestrictEntry, Pushes, Attach, Consistent, ConsistentEntry;
    MessageHolds(f, g);
    EntryPushes(g, pos);
    EntriesConsistent(GoalMessage(g), g.param1);
    PushFits(g, g.(param1 := g.param1 + 1), GoalEntry(g, pos), pos);
    NewEntryHolds(f, g, pos);
    MessageGrows(f, g);
  }

  // ---------------------------------------------------------------- the start of the header

  const PREAMBLE := 10   // magic, message size and version

  function Preamble(size: uint32): (b: Bytes)
    ensures |b| == PREAMBLE
  {
    MAGIC + (Little(size, 4) + Little(VERSION, 2))
  }

  function HeaderBegun(size: uint32, limit: uint32): ReadFrame
  {
    ReadFrame(HeaderHeaderSize, MessageEntries, limit, HeaderPart(NEW_HEADER.(messageSize := size)), 0, 0)
  }

  function GoalHeader(g: Frame): Frame
  {
    Frame(HeaderHeaderSize, MessageEntries, GoalMessage(g).header.headerSize, OfHeader(GoalMessage(g).header), 0, 0)
  }

  lemma EncodeBegins(m: Message)
    ensures Encode(m) == Preamble(m.header.messageSize) + (HeaderTail(3, m.header) + EncodeEntries(m.entries))
    ensures |HeaderTail(0, m.header)| == PREAMBLE + |HeaderTail(3, m.header)| && |HeaderTail(3, m.header)| >= 2
  {
    hide Little, HeaderTail, EncodeEntries, UintX;
    HeaderTailStep(0, m.header); HeaderTailStep(1, m.header); HeaderTailStep(2, m.header);
    HeaderTailStep(3, m.header); HeaderTailStep(4, m.header);
    var a, b, c, d, e := MAGIC, Little(m.header.messageSize, 4), Little(VERSION, 2), HeaderTail(3, m.header),
        EncodeEntries(m.entries);
    assert (a + (b + (c + d))) + e == (a + (b + c)) + (d + e);
  }

  lemma HeaderBegunHolds(g: Frame, limit: uint32)
    requires g.data.OfMessage? && Consistent(g.data.message) && limit >= GoalMessage(g).header.headerSize
    ensures TopTracks(HeaderBegun(GoalMessage(g).header.messageSize, limit), GoalHeader(g))
  {
    hide Encode, ConsistentEntries, HeaderTail;
  }

  lemma HeaderJoins(f: ReadFrame, g: Frame)
    requires f.part.MessagePart? && TopTracks(f, g) && f.state == HeaderInit && g.data.OfMessage? && g.param1 == 0
    ensures var f' := f.(limit := GoalMessage(g).header.messageSize);
            KeepTracks(f, Attach(f', MessageEntries, HeaderPart(RestrictHeader(GoalMessage(g).header))), g,
                       g.(state := MessageEntries))
  {
    hide RestrictHeader;
    assert GoalMessage(g).entries[..0] == [];
  }

  lemma HeaderTurned(g: Frame, before: Bytes, after: Bytes, room: nat)
    requires FrameOk(g.state, g) && g.data.OfMessage? && g.state == HeaderInit && before == []
    requires after == Preamble(GoalMessage(g).header.messageSize)
    ensures Turned(g, before, after, Even(room + PREAMBLE), Even(room), Enter(g, GoalHeader(g)), Go)
  {
    hide Encode, HeaderTail, EncodeEntries, ConsistentEntries, Preamble, Rank, HeaderPieces, EntriesPieces, Crosses;
    var m := g.data.message;
    EncodeBegins(m);
    WholeMessage(g);
    assert [] + Encode(m) == Encode(m);
    PreambleCrossed(m.header, EntriesPieces(m.entries), Even(room + PREAMBLE));
  }

  /** Magic, message size and version are three pieces. */
  lemma PreambleCrossed(h: MessageHeader, tail: seq<Piece>, start: Room)
    requires start.quota >= PREAMBLE && start.work >= PREAMBLE
    ensures Crosses(HeaderPieces(0, h) + tail, PREAMBLE, HeaderPieces(3, h) + tail, start)
  {
    hide HeaderPieces, HeaderFieldPieces, Crosses;
    var a, b, c, d := HeaderPieces(0, h), HeaderPieces(1, h), HeaderPieces(2, h), HeaderPieces(3, h);
    HeaderPiecesStep(0, h);
    HeaderPiecesStep(1, h);
    HeaderPiecesStep(2, h);
    PreamblePieces(h);
    CrossesOnce(4, b, start);
    CrossesOnce(4, c, start);
    CrossesOnce(2, d, start);
    CrossesMore(a, 4, b, 4, c, start);
    CrossesMore(a, 8, c, 2, d, start);
    CrossesAppend(a, PREAMBLE, d, start, tail);
  }

  lemma PreamblePieces(h: MessageHeader)
    ensures HeaderFieldPieces(0, h) == Once(4) && HeaderFieldPieces(1, h) == Once(4)
              && HeaderFieldPieces(2, h) == Once(2)
  {
  }

  /** The message size has been read: the header goes on in a frame of its own. */
  lemma HeaderBegins(wanted: bool, f: ReadFrame, g: Frame, size: uint32, limit: uint32, before: Bytes, after: Bytes,
                     room: nat)
    requires f.part.MessagePart? && f.state == HeaderInit && |after| == |before| + PREAMBLE
    requires wanted ==>
               && TopTracks(f, g) && FrameOk(g.state, g) && before == []
               && size == GoalMessage(g).header.messageSize && after == Preamble(size) && limit == size
    ensures ReadTurned(wanted, f, g, before, after, room, Push(f.(limit := size), HeaderBegun(size, limit)),
                       Enter(g, GoalHeader(g)), Go)
  {
    hide FrameOk, FrameRest, TopTracks, Turned, Preamble, MoveTracks, MoveOk, Consistent;
    HeaderMoves(f, size, limit);
    if wanted {
      MessageHolds(f, g);
      HeaderTurned(g, before, after, room);
      HeaderTracks(f, g);
    }
  }

  lemma HeaderMoves(f: ReadFrame, size: uint32, limit: uint32)
    requires f.part.MessagePart?
    ensures MoveOk(f, Push(f.(limit := size), HeaderBegun(size, limit)))
  {
  }

  lemma HeaderTracks(f: ReadFrame, g: Frame)
    requires f.part.MessagePart? && f.state == HeaderInit && TopTracks(f, g) && FrameOk(g.state, g)
    ensures var size := GoalMessage(g).header.messageSize;
            MoveTracks(f, g, Push(f.(limit := size), HeaderBegun(size, size)), Enter(g, GoalHeader(g)))
  {
    hide FrameOk, TopTracks, KeepTracks, Attach, RestrictHeader, Consistent, Complete, HeaderBegun, GoalHeader;
    MessageHolds(f, g);
    HeaderSizes(GoalMessage(g));
    HeaderBegunHolds(g, GoalMessage(g).header.messageSize);
    HeaderCompletes(g, GoalMessage(g).header.messageSize);
    HeaderJoins(f, g);
  }

  lemma HeaderCompletes(g: Frame, limit: uint32)
    requires g.data.OfMessage?
    ensures var c, d := HeaderBegun(GoalMessage(g).header.messageSize, limit), GoalHeader(g);
            && c.popState == d.popState == MessageEntries
            && Complete(c.part, d.data) == HeaderPart(RestrictHeader(GoalMessage(g).header))
  {
    hide RestrictHeader;
  }

  lemma HeaderSizes(m: Message)
    requires Consistent(m)
    ensures m.header.headerSize <= m.header.messageSize == |Encode(m)| && m.header.messageSize >= 12
  {
    hide HeaderTail, EncodeEntries, ConsistentEntries;
    EncodeBegins(m);
  }

  function AsUint32(b: Bytes): uint32
  {
    if |b| == 4 then
      Widths();
      FromLittleBound(b);
      FromLittle(b)
    else 0
  }

  lemma PreambleMagic(size: uint32)
    ensures Preamble(size)[..4] == MAGIC && AsUint32(Preamble(size)[4..8]) == size
  {
    hide Little, FromLittle;
    Widths();
    LittleRoundTrip(size, 4);
    assert Preamble(size)[4..8] == Little(size, 4);
  }

  lemma WholeEncoding(g: Frame)
    requires g.data.OfMessage?
    ensures FrameRest(HeaderInit, g) == Encode(GoalMessage(g))
  {
    hide Encode;
  }

  lemma MessageFinished(wanted: bool, f: ReadFrame, g: Frame, out: Bytes, room: nat)
    requires f.part.MessagePart? && f.state == MessageDone && Suits(f)
    requires wanted ==> TopTracks(f, g) && FrameOk(g.state, g)
    ensures ReadTurned(wanted, f, g, out, out, room, Keep(f), Stay(g), Finish)
    ensures f.part.message.header.messageSize == f.limit
  {
    hide FrameRest, FrameOk, TopTracks, Turned, Consistent;
    SameAsItself(f);
    if wanted {
      MessageHolds(f, g);
      TopStates(f, g);
      DoneTurned(g, out, Even(room), Even(room));
    }
  }

  lemma MessageRead(fs: seq<ReadFrame>, gs: seq<Frame>)
    requires Tracks(fs, gs) && TopOf(fs).part.MessagePart? && TopOf(fs).state == MessageDone
    ensures Top(gs).data.OfMessage? && TopOf(fs).part.message == RestrictMessage(GoalMessage(Top(gs)))
  {
    hide RestrictHeader, RestrictEntries;
    var es := GoalMessage(Top(gs)).entries;
    assert es[..|es|] == es;
  }

  // ---------------------------------------------------------------- the stack after a turn

  lemma StackStands(fs: seq<ReadFrame>)
    requires WellFormed(fs)
    ensures TopOf(fs).part.MessagePart? || exists below :: Stands(below, TopOf(fs))
    ensures TopOf(fs).part.MessagePart? ==> |fs| == 1
    ensures TopOf(fs).part.ArrayPart? ==> TopOf(fs).popState == ElementFinishData
    ensures Suits(TopOf(fs))
  {
    hide Suits;
    if |fs| > 1 {
      assert Stands(fs[|fs| - 2], fs[|fs| - 1]);
    }
  }

  lemma ArrayOnTop(fs: seq<ReadFrame>, move: Move)
    requires WellFormed(fs) && MoveOk(TopOf(fs), move)
    requires move.Pop? ==> |fs| >= 2
    ensures AwaitsArray(move) <==> TopOf(Moved(fs, move)).part.ArrayPart?
  {
    hide Suits, Joined, SameKind;
    if move.Pop? {
      var n := |fs| - 1;
      assert Stands(fs[n - 1], fs[n]);
      AttachSuits(fs[n - 1], fs[n], move.done);
      ArrayKindStays(fs[n - 1], Attach(fs[n - 1], fs[n].popState, move.done));
    }
  }

  lemma TurnGrows(wanted: bool, f: ReadFrame, g: Frame, before: Bytes, after: Bytes, room: nat,
                  move: Move, flow: Flow, signal: Signal)
    requires ReadTurned(wanted, f, g, before, after, room, move, flow, signal)
    ensures |before| <= |after|
    ensures wanted ==> !move.Throw?
  {
    hide Turned;
  }

  /** What a turn leaves of the frame at hand is part of what is left in all. */
  lemma FlowRestWithin(gs: seq<Frame>, flow: Flow)
    requires Applicable(gs, flow)
    ensures var r := Apply(gs, flow); |FlowRest(flow)| <= |Rest(r, Top(r).state)|
  {
    hide FrameRest;
    var r := Apply(gs, flow);
    match flow {
      case Stay(g) => assert Top(r) == g;
      case Enter(g, child) =>
        assert Top(r) == child && Below(r) == Below(gs) + [g] && Top(Below(r)) == g;
      case Leave =>
    }
  }

  /** Before the header everything is still to be read. */
  lemma StartIsWhole(fs: seq<ReadFrame>, gs: seq<Frame>)
    requires WellFormed(fs) && Tracks(fs, gs) && TopOf(fs).state in {MessageInit, HeaderInit}
    requires gs[0].data.OfMessage?
    ensures Rest(gs, Top(gs).state) == Encode(gs[0].data.message)
  {
    hide Encode, Holds;
    TopIsMessage(fs);
    var e := Encode(gs[0].data.message);
    assert e + [] == e;
  }

  /** The stack fs and the bytes read are those of the point gs in the transfer of m. */
  predicate AtPoint(m: Message, fs: seq<ReadFrame>, gs: seq<Frame>, taken: Bytes)
  {
    && Consistent(m) && gs != [] && gs[0].data == OfMessage(m)
    && Good(gs, Top(gs).state, |taken|)
    && CutsTo(MessagePieces(m), |taken|, RestPieces(gs, Top(gs).state)) && NoneSplit(MessagePieces(m), |taken|)
    && taken + Rest(gs, Top(gs).state) == Encode(m)
    && Tracks(fs, gs)
  }

  lemma TurnKeepsPoint(m: Message, fs: seq<ReadFrame>, gs: seq<Frame>, before: Bytes, after: Bytes, start: nat,
                       room: nat,
                       flow: Flow, signal: Signal, fs': seq<ReadFrame>)
    requires AtPoint(m, fs, gs, before) && Turned(Top(gs), before, after, Even(start), Even(room), flow, signal)
    requires Applicable(gs, flow) && Tracks(fs', Apply(gs, flow))
    requires signal == Block || signal == Yield ==> room < |FlowRest(flow)|
    ensures AtPoint(m, fs', Apply(gs, flow), after)
    ensures var r := Apply(gs, flow);
      && Crosses(RestPieces(gs, Top(gs).state), |after| - |before|, RestPieces(r, Top(r).state), Even(start))
      && (signal == Block || signal == Yield ==>
            Stuck(RestPieces(r, Top(r).state), Even(room)) && (signal == Yield ==> room == 0) && |after|
                + room < |Encode(m)|)
    ensures signal == Finish ==> after == Encode(m)
  {
    hide FrameOk, FrameRest, Good, Rest, Rank, Consistent, Turned, FlowOk, FlowRest, Encode, Tracks, Apply,
         MessagePieces, RestPieces, Stuck, CutsTo, Crosses, NoneSplit;
    TurnedKeepsStack(gs, before, after, Even(start), Even(room), flow, signal);
    FlowRestWithin(gs, flow);
    var r := Apply(gs, flow);
    PointGoesOn(MessagePieces(m), |before|, RestPieces(gs, Top(gs).state), |after| - |before|,
                RestPieces(r, Top(r).state), Even(start));
    assert |after| + |Rest(r, Top(r).state)| == |Encode(m)|;
    assert after + [] == after;
  }

  lemma PointGoesOn(all: seq<Piece>, n: nat, ps: seq<Piece>, k: nat, rest: seq<Piece>, start: Room)
    requires CutsTo(all, n, ps) && NoneSplit(all, n) && Crosses(ps, k, rest, start)
    ensures CutsTo(all, n + k, rest) && NoneSplit(all, n + k)
  {
    hide CutsTo, NoneSplit, Crosses;
    CutOn(all, n, ps, k, rest, start);
    assert CutsTo(all, n, ps) && NoneSplit(ps, k) by { CrossesWhole(ps, k, rest, start); }
    NoneSplitOn(all, n, ps, k);
  }

  lemma CrossesWhole(ps: seq<Piece>, k: nat, rest: seq<Piece>, start: Room)
    requires Crosses(ps, k, rest, start)
    ensures NoneSplit(ps, k)
  {
  }

  lemma NoneSplitOn(all: seq<Piece>, n: nat, ps: seq<Piece>, k: nat)
    requires CutsTo(all, n, ps) && NoneSplit(all, n) && NoneSplit(ps, k)
    ensures NoneSplit(all, n + k)
  {
    NoneSplitMore(all, n, k);
  }

  /** The stack of a reader that has read nothing. */
  lemma StartPoint(m: Message, fs: seq<ReadFrame>, gs: seq<Frame>, popState: State)
    requires Consistent(m)
    requires fs == [ReadFrame(MessageInit, popState, 12, MessagePart(NEW_MESSAGE), 0, 0)]
    requires gs == [Frame(MessageInit, popState, m.header.messageSize, OfMessage(m), 0, 0)]
    ensures AtPoint(m, fs, gs, [])
  {
    hide Encode, ConsistentEntries, ConsistentHeader, MessagePieces;
    var e, ps := Encode(m), MessagePieces(m);
    assert e + [] == e && [] + e == e && ps + [] == ps;
  }

  lemma PointHasGoal(m: Message, fs: seq<ReadFrame>, gs: seq<Frame>, taken: Bytes)
    requires AtPoint(m, fs, gs, taken)
    ensures gs != [] && Tracks(fs, gs)
  {
    hide Good, Rest, Tracks, Consistent, Encode, MessagePieces, RestPieces;
  }

  lemma FinishedMessage(m: Message, fs: seq<ReadFrame>, gs: seq<Frame>, taken: Bytes)
    requires AtPoint(m, fs, gs, taken) && WellFormed(fs) && TopOf(fs).part.MessagePart?
              && TopOf(fs).state == MessageDone
    ensures TopOf(fs).part.message == RestrictMessage(m)
  {
    hide Good, Rest, Consistent, Encode, MessagePieces, RestPieces, RestrictMessage, Holds;
    StackStands(fs);
    assert Top(gs) == gs[0];
    MessageRead(fs, gs);
  }

  /** The top of the stack and the bytes ahead, seen from a point in the transfer. */
  lemma PointFollows(m: Message, fs: seq<ReadFrame>, gs: seq<Frame>, taken: Bytes, ahead: Bytes)
    requires WellFormed(fs) && AtPoint(m, fs, gs, taken) && Agrees(taken + ahead, Encode(m))
    ensures FrameOk(Top(gs).state, Top(gs)) && TopTracks(TopOf(fs), Top(gs))
    ensures Agrees(ahead, FrameRest(Top(gs).state, Top(gs)) + Tail(gs))
  {
    hide FrameOk, FrameRest, TopTracks, Rest, Good, Encode, Consistent, MessagePieces, RestPieces, Tail;
    GoodTop(gs, Top(gs).state, |taken|);
    RestTop(gs, Top(gs).state);
    AgreesOnFirst(taken + ahead, taken, Rest(gs, Top(gs).state));
    assert (taken + ahead)[|taken|..] == ahead && |taken + ahead| >= |taken|;
  }

  function GoalStart(m: Message): Frame
  {
    Frame(MessageInit, MessageInit, m.header.messageSize, OfMessage(m), 0, 0)
  }
}
