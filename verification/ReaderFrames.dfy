/** The state stack of AsyncMessageReaderImpl: when a stack is well formed, whatever was read, and
  * when it holds exactly what a point in the transfer of a given message calls for. That point is
  * a stack of the frames of module Frames, whose rest is what is still to be read. */
module ReaderFrames {
  import opened Numbers
  import opened Results
  import opened Messages
  import opened Layout
  import opened Restriction
  import opened Frames

  /** ptrdata of a string frame: the field an interrupted string goes to. */
  datatype Target =
    | SenderNodeName | ReceiverNodeName | HeaderMetaData | TableText
    | ServicePath | MemberName | EntryMetaData
    | ElementName | ElementTypeName | ElementMetaData

  /** data (or ptrdata and param3) of a frame: what has been read of the thing at hand. */
  datatype Part =
    | MessagePart(message: Message)
    | HeaderPart(header: MessageHeader)
    | EntryPart(entry: MessageEntry)
    | ElementPart(element: MessageElement)
    | NestedPart(dataType: uint16, typeName: Bytes, elements: seq<MessageElement>)
    | ArrayPart(dataType: uint16, memory: Bytes)
    | StringPart(target: Target, text: Bytes, size: nat)

  datatype ReadFrame = ReadFrame(state: State, popState: State, limit: uint32, part: Part, param1: nat, param2: nat)

  /** What one turn of the switch does to the stack. */
  datatype Move =
    | Keep(frame: ReadFrame)
    | Pop(done: Part)
    | Push(frame: ReadFrame, child: ReadFrame)
    | Throw(error: Error)

  const NEW_MESSAGE := Message(NEW_HEADER, [])

  // ---------------------------------------------------------------- finished parts

  /** *ptr_s = s */
  function Store(part: Part, target: Target, text: Bytes): Part
  {
    if part.HeaderPart? then
      var h := part.header;
      match target
      case SenderNodeName => HeaderPart(h.(senderNodeName := text))
      case ReceiverNodeName => HeaderPart(h.(receiverNodeName := text))
      case HeaderMetaData => HeaderPart(h.(metaData := text))
      case TableText =>
        if h.stringTable == [] then part
        else
          var last := |h.stringTable| - 1;
          HeaderPart(h.(stringTable := h.stringTable[last := h.stringTable[last].(text := text)]))
      case _ => part
    else if part.EntryPart? then
      var e := part.entry;
      match target
      case ServicePath => EntryPart(e.(servicePath := text))
      case MemberName => EntryPart(e.(memberName := text))
      case EntryMetaData => EntryPart(e.(metaData := text))
      case _ => part
    else if part.ElementPart? then
      var el := part.element;
      match target
      case ElementName => ElementPart(el.(elementName := text))
      case ElementTypeName => ElementPart(el.(elementTypeName := text))
      case ElementMetaData => ElementPart(el.(metaData := text))
      case _ => part
    else part
  }

  /** A part with a finished part of its own put in its place. */
  function Joined(part: Part, done: Part): Part
  {
    match done
    case HeaderPart(h) => if part.MessagePart? then MessagePart(part.message.(header := h)) else part
    case EntryPart(e) =>
      if part.MessagePart? then MessagePart(part.message.(entries := part.message.entries + [e])) else part
    case ElementPart(el) =>
      if part.EntryPart? then EntryPart(part.entry.(elements := part.entry.elements + [el]))
      else if part.NestedPart? then part.(elements := part.elements + [el])
      else part
    case NestedPart(t, n, es) =>
      if part.ElementPart? then ElementPart(part.element.(data := NestedData(t, n, es))) else part
    case ArrayPart(t, b) =>
      if part.ElementPart? && IsArrayType(t) && |b| % RRArrayElementSize(t) == 0 then
        ElementPart(part.element.(data := ArrayData(ArrayMemory(t, b))))
      else part
    case StringPart(target, s, _) => Store(part, target, s)
    case MessagePart(_) => part
  }

  function Attach(below: ReadFrame, next: State, done: Part): ReadFrame
  {
    below.(state := next, part := Joined(below.part, done))
  }

  /** The size of the extended block at hand, which is read in one piece. */
  function Unsplit(f: ReadFrame): nat
  {
    if f.part.HeaderPart? && f.state == HeaderExtended2 then |f.part.header.extended|
    else if f.part.EntryPart? && f.state == EntryExtended2 then |f.part.entry.extended|
    else if f.part.ElementPart? && f.state == ElementExtended2 then |f.part.element.extended|
    else 0
  }

  // ---------------------------------------------------------------- well-formed stacks

  /** The state suits what the frame holds. */
  predicate Suits(f: ReadFrame)
  {
    match f.part
    case MessagePart(m) =>
      IsMessageState(f.state) && (f.state != MessageInit && f.state != HeaderInit ==> m.header.messageSize == f.limit)
    case HeaderPart(h) =>
      HeaderHeaderSize <= f.state <= HeaderExtended2 && (f.state == HeaderStringTable3 ==> h.stringTable != [])
    case EntryPart(_) => IsEntryState(f.state)
    case ElementPart(el) =>
      && IsElementState(f.state)
      && (f.state == ElementArray1 ==> IsArrayType(el.elementType))
    case NestedPart(_, _, _) => f.state == ElementNested2
    case ArrayPart(t, b) =>
      && f.state == ElementArray2 && IsArrayType(t) && |b| == f.param1 < f.param2
      && f.param2 % RRArrayElementSize(t) == 0
    case StringPart(_, s, n) => f.state == HeaderString && |s| == f.param1 < n
  }

  predicate TargetSuits(part: Part, target: Target, next: State)
  {
    match target
    case SenderNodeName => part.HeaderPart? && next == HeaderRouting4
    case ReceiverNodeName => part.HeaderPart? && next == HeaderEndpoint1
    case HeaderMetaData => part.HeaderPart? && next == HeaderMessageId1
    case TableText => part.HeaderPart? && next == HeaderStringTable2
    case ServicePath => part.EntryPart? && next == EntryServicePathCode
    case MemberName => part.EntryPart? && next == EntryMemberNameCode
    case EntryMetaData => part.EntryPart? && next == EntryExtended1
    case ElementName => part.ElementPart? && next == ElementNameCode
    case ElementTypeName => part.ElementPart? && next == ElementTypeCode
    case ElementMetaData => part.ElementPart? && next == ElementExtended1
  }

  /** Frame f may stand on frame below. */
  predicate Stands(below: ReadFrame, f: ReadFrame)
  {
    match f.part
    case MessagePart(_) => false
    case HeaderPart(h) => below.part.MessagePart? && f.popState == MessageEntries && h.messageSize == below.limit
    case EntryPart(_) =>
      && below.part.MessagePart? && f.popState == MessageEntries
      && below.part.message.header.messageSize == below.limit
    case ElementPart(_) =>
      || (below.part.EntryPart? && f.popState == EntryElements)
      || (below.part.NestedPart? && f.popState == ElementNested2)
    case NestedPart(_, _, _) => below.part.ElementPart? && f.popState == ElementFinishData
    case ArrayPart(_, _) => below.part.ElementPart? && f.popState == ElementFinishData
    case StringPart(target, _, _) => TargetSuits(below.part, target, f.popState)
  }

  function TopOf(fs: seq<ReadFrame>): ReadFrame
    requires fs != []
  {
    fs[|fs| - 1]
  }

  function BelowOf(fs: seq<ReadFrame>): seq<ReadFrame>
    requires fs != []
  {
    fs[..|fs| - 1]
  }

  predicate WellFormed(fs: seq<ReadFrame>)
  {
    && fs != [] && Suits(TopOf(fs)) && fs[0].part.MessagePart?
    && forall i | 0 < i < |fs| :: Stands(fs[i - 1], fs[i])
  }

  /** The same thing is being read. */
  predicate SameKind(p: Part, q: Part)
  {
    match p
    case MessagePart(_) => q.MessagePart?
    case HeaderPart(h) => q.HeaderPart? && q.header.messageSize == h.messageSize   // which has been read by then
    case EntryPart(_) => q.EntryPart?
    case ElementPart(_) => q.ElementPart?
    case NestedPart(t, n, _) => q.NestedPart? && q.dataType == t && q.typeName == n
    case ArrayPart(t, _) => q.ArrayPart? && q.dataType == t
    case StringPart(target, _, n) => q.StringPart? && q.target == target && q.size == n
  }

  predicate SameThing(f: ReadFrame, f': ReadFrame)
  {
    SameKind(f.part, f'.part) && f'.popState == f.popState
  }

  /** A turn on frame f kept the stack well formed. */
  predicate MoveOk(f: ReadFrame, move: Move)
  {
    match move
    case Keep(f') => SameThing(f, f') && Suits(f')
    case Push(f', child) => SameThing(f, f') && Suits(child) && Stands(f', child)
    case Pop(done) => !f.part.MessagePart? && SameKind(f.part, done)
    case Throw(_) => false
  }

  /** push_state and pop_state; the part of a popped frame goes to the frame below. */
  function Moved(fs: seq<ReadFrame>, move: Move): (r: seq<ReadFrame>)
    requires fs != [] && !move.Throw? && (move.Pop? ==> |fs| >= 2)
    ensures r != []
  {
    match move
    case Keep(f) => BelowOf(fs) + [f]
    case Push(f, child) => BelowOf(fs) + [f] + [child]
    case Pop(done) => Popped(fs, done)
  }

  function Popped(fs: seq<ReadFrame>, done: Part): (r: seq<ReadFrame>)
    requires |fs| >= 2
    ensures |r| == |fs| - 1
  {
    BelowOf(BelowOf(fs)) + [Attach(TopOf(BelowOf(fs)), TopOf(fs).popState, done)]
  }

  lemma AttachSuits(below: ReadFrame, f: ReadFrame, done: Part)
    requires Stands(below, f) && SameKind(f.part, done)
    ensures Suits(Attach(below, f.popState, done))
    ensures SameThing(below, Attach(below, f.popState, done))
    ensures !below.part.ArrayPart? && !below.part.StringPart?
  {
  }

  lemma SameStands(below: ReadFrame, f: ReadFrame, f': ReadFrame)
    requires SameThing(f, f')
    ensures Stands(below, f) <==> Stands(below, f')
  {
  }

  lemma MoveKeepsWellFormed(fs: seq<ReadFrame>, move: Move)
    requires WellFormed(fs) && MoveOk(TopOf(fs), move)
    ensures move.Pop? ==> |fs| >= 2
    ensures WellFormed(Moved(fs, move))
  {
    hide Suits, Stands, SameThing, Joined, Store, SameKind;
    var f := TopOf(fs);
    var n := |fs| - 1;
    if n > 0 { assert Stands(fs[n - 1], fs[n]); }
    match move {
      case Keep(f') =>
        if n > 0 { SameStands(fs[n - 1], f, f'); }
        KindStays(f, f');
      case Push(f', child) =>
        if n > 0 { SameStands(fs[n - 1], f, f'); }
        KindStays(f, f');
      case Pop(done) =>
        AttachSuits(fs[n - 1], f, done);
        var b' := Attach(fs[n - 1], f.popState, done);
        if n > 1 { SameStands(fs[n - 2], fs[n - 1], b'); }
        KindStays(fs[n - 1], b');
    }
  }

  lemma KindStays(f: ReadFrame, f': ReadFrame)
    requires SameThing(f, f')
    ensures f.part.MessagePart? <==> f'.part.MessagePart?
  {
  }

  // ---------------------------------------------------------------- termination

  /** A move that reads nothing lowers the measure. */
  predicate Sinks(f: ReadFrame, move: Move)
  {
    match move
    case Keep(f') => Rank(f'.state) < Rank(f.state)
    case Push(_, child) => LEVEL + Rank(child.state) < Rank(f.state)
    case Pop(_) => Rank(f.popState) < LEVEL + Rank(f.state)
    case Throw(_) => true
  }

  lemma MoveSinks(fs: seq<ReadFrame>, move: Move)
    requires fs != [] && !move.Throw? && (move.Pop? ==> |fs| >= 2) && Sinks(TopOf(fs), move)
    ensures LEVEL * |Moved(fs, move)| + Rank(TopOf(Moved(fs, move)).state) < LEVEL * |fs| + Rank(TopOf(fs).state)
  {
    hide Rank, Joined;
  }

  // ---------------------------------------------------------------- reading a given message

  /** The header with the part of its string table that has been read. */
  function HeaderAt(st: State, gh: MessageHeader, g: Frame): MessageHeader
  {
    if st == HeaderStringTable2 && g.param1 <= |gh.stringTable| then
      HeaderUpTo(gh, 16).(stringTable := gh.stringTable[..g.param1])
    else if st == HeaderStringTable3 && g.param2 < |gh.stringTable| then
      HeaderUpTo(gh, 16).(stringTable := gh.stringTable[..g.param2] + [TableEntry(gh.stringTable[g.param2].code, [])])
    else HeaderUpTo(gh, Order(st))
  }

  /** f holds what the frame g, in the state of f, calls for. */
  predicate Holds(f: ReadFrame, g: Frame)
  {
    match g.data
    case OfMessage(gm) =>
      && f.part.MessagePart? && g.limit == gm.header.messageSize
      && if f.state == MessageInit || f.state == HeaderInit then f.part.message == NEW_MESSAGE && f.limit == 12
         else
           && f.limit == g.limit && g.param1 <= |gm.entries|
           && (f.state == MessageDone ==> g.param1 == |gm.entries|)
           && f.part.message == Message(RestrictHeader(gm.header), RestrictEntries(gm.entries[..g.param1]))
    case OfHeader(gh) =>
      && f.part.HeaderPart? && f.part.header == HeaderAt(f.state, gh, g)
      && (if f.state == HeaderHeaderSize then f.limit >= g.limit else f.limit == g.limit)
      && (!Has(gh.messageFlags, MULTIPLE_ENTRIES) ==> gh.entryCount == 1)
      && g.limit == gh.headerSize
      && (f.state == HeaderStringTable2 || f.state == HeaderStringTable3 ==> f.param1 + g.param1 == |gh.stringTable|)
    case OfEntry(ge) =>
      && f.part.EntryPart? && ge.entrySize == |EntryTail(0, ge)|
      && (if f.state == EntrySize then f.limit >= g.limit else f.limit == g.limit)
      && if IsEntryFieldState(f.state) then f.part.entry == EntryUpTo(ge, Order(f.state))
         else
           && g.param1 <= |ge.elements|
           && f.part.entry == EntryUpTo(ge, ENTRY_FIELDS).(elements := RestrictElements(ge.elements[..g.param1]))
           && (f.state == EntryElements || f.state == ElementInit ==> f.param1 == |ge.elements|)
           && (f.state == EntryFinish ==> g.param1 == |ge.elements|)
    case OfElement(gl) =>
      && f.part.ElementPart?
      && (if f.state == ElementSize then f.limit >= g.limit else f.limit == g.limit)
      && f.part.element == if IsElementFieldState(f.state) then ElementUpTo(gl, Order(f.state))
                           else if f.state == ElementFinishData then RestrictElement(gl)
                           else ElementUpTo(gl, ELEMENT_FIELDS)
    case OfNested(ges) =>
      && f.part.NestedPart? && f.limit == g.limit && g.param1 <= |ges|
      && f.part.elements == RestrictElements(ges[..g.param1]) && f.param1 == |ges|
    case OfArray(gb) =>
      && f.part.ArrayPart? && f.limit == g.limit && g.param1 <= |gb|
      && f.part.memory == gb[..g.param1] && f.param2 == |gb|
    case OfString(gs) =>
      && f.part.StringPart? && f.limit == g.limit && g.param1 <= |gs|
      && f.part.text == gs[..g.param1] && f.part.size == |gs|
  }

  /** What the part will be when the frame is popped. */
  function Complete(part: Part, data: FrameData): Part
  {
    match data
    case OfMessage(m) => MessagePart(RestrictMessage(m))
    case OfHeader(h) => HeaderPart(RestrictHeader(h))
    case OfEntry(e) => EntryPart(RestrictEntry(e))
    case OfElement(el) => ElementPart(RestrictElement(el))
    case OfNested(es) => if part.NestedPart? then part.(elements := RestrictElements(es)) else part
    case OfArray(b) => if part.ArrayPart? then part.(memory := b) else part
    case OfString(s) => if part.StringPart? then part.(text := s) else part
  }

  predicate TopTracks(f: ReadFrame, g: Frame)
  {
    Holds(f, g) && f.state == g.state && f.popState == g.popState
  }

  /** The stack fs holds what the point gs in the transfer calls for: its top frame does, and once
    * that frame is complete and popped so does the stack below. */
  predicate Tracks(fs: seq<ReadFrame>, gs: seq<Frame>)
    decreases |fs|
  {
    && |fs| == |gs| >= 1
    && TopTracks(TopOf(fs), Top(gs))
    && (|fs| > 1 ==> Tracks(Popped(fs, Complete(TopOf(fs).part, Top(gs).data)), Apply(gs, Leave)))
  }

  /** The top frame changed and is still the same thing. */
  predicate KeepTracks(f: ReadFrame, f': ReadFrame, g: Frame, g': Frame)
  {
    TopTracks(f', g') && SameThing(f, f') && SameFrame(g, g')
  }

  predicate MoveTracks(f: ReadFrame, g: Frame, move: Move, flow: Flow)
  {
    match move
    case Keep(f') => flow.Stay? && KeepTracks(f, f', g, flow.frame)
    case Pop(done) => flow.Leave? && done == Complete(f.part, g.data)
    case Push(f', c) =>
      && flow.Enter? && TopTracks(c, flow.child) && f'.popState == f.popState
      && KeepTracks(f, Attach(f', c.popState, Complete(c.part, flow.child.data)), g,
                    flow.frame.(state := flow.child.popState))
    case Throw(_) => false
  }

  lemma SameComplete(p: Part, q: Part, data: FrameData)
    requires SameKind(p, q)
    ensures data.OfNested? || data.OfArray? || data.OfString? || Complete(p, data) == Complete(q, data)
    ensures p.NestedPart? && data.OfNested? ==> Complete(p, data) == Complete(q, data)
    ensures p.ArrayPart? && data.OfArray? ==> Complete(p, data) == Complete(q, data)
    ensures p.StringPart? && data.OfString? ==> Complete(p, data) == Complete(q, data)
  {
    hide RestrictMessage, RestrictHeader, RestrictEntry, RestrictElement, RestrictElements;
  }

  lemma HoldsKind(f: ReadFrame, g: Frame)
    requires Holds(f, g)
    ensures f.part.NestedPart? <==> g.data.OfNested?
    ensures f.part.ArrayPart? <==> g.data.OfArray?
    ensures f.part.StringPart? <==> g.data.OfString?
    ensures f.part.MessagePart? <==> g.data.OfMessage?
  {
    hide RestrictHeader, RestrictEntries, RestrictElements, RestrictElement, HeaderAt, EntryUpTo, ElementUpTo;
  }

  lemma KeepKeepsTracks(fs: seq<ReadFrame>, gs: seq<Frame>, f': ReadFrame, g': Frame)
    requires Tracks(fs, gs) && KeepTracks(TopOf(fs), f', Top(gs), g')
    ensures Tracks(BelowOf(fs) + [f'], Below(gs) + [g'])
  {
    hide Holds, SameKind, Complete, Joined;
    var f, g := TopOf(fs), Top(gs);
    var fs', gs' := BelowOf(fs) + [f'], Below(gs) + [g'];
    assert TopOf(fs') == f' && Top(gs') == g';
    if |fs| > 1 {
      HoldsKind(f, g);
      SameComplete(f.part, f'.part, g.data);
      assert BelowOf(fs') == BelowOf(fs) && Below(gs') == Below(gs);
      assert Popped(fs', Complete(f'.part, g'.data)) == Popped(fs, Complete(f.part, g.data));
      assert Apply(gs', Leave) == Apply(gs, Leave);
    }
  }

  lemma PushKeepsTracks(fs: seq<ReadFrame>, gs: seq<Frame>, f': ReadFrame, c: ReadFrame, g': Frame, gc: Frame)
    requires Tracks(fs, gs) && TopTracks(c, gc)
    requires var under := Attach(f', c.popState, Complete(c.part, gc.data));
             KeepTracks(TopOf(fs), under, Top(gs), g'.(state := gc.popState))
    ensures Tracks(BelowOf(fs) + [f'] + [c], Below(gs) + [g'] + [gc])
  {
    hide TopTracks, KeepTracks, Complete, Attach;
    var under := Attach(f', c.popState, Complete(c.part, gc.data));
    var gUnder := g'.(state := gc.popState);
    KeepKeepsTracks(fs, gs, under, gUnder);
    var mid, gMid := BelowOf(fs) + [f'], Below(gs) + [g'];
    var fs', gs' := mid + [c], gMid + [gc];
    assert TopOf(fs') == c && Top(gs') == gc && BelowOf(fs') == mid && Below(gs') == gMid;
    assert TopOf(mid) == f' && BelowOf(mid) == BelowOf(fs);
    assert Top(gMid) == g' && Below(gMid) == Below(gs);
    assert Popped(fs', Complete(c.part, gc.data)) == BelowOf(fs) + [under];
    assert Apply(gs', Leave) == Below(gs) + [gUnder];
  }

  lemma MoveKeepsTracks(fs: seq<ReadFrame>, gs: seq<Frame>, move: Move, flow: Flow)
    requires Tracks(fs, gs) && MoveTracks(TopOf(fs), Top(gs), move, flow)
    requires move.Pop? ==> |fs| >= 2
    ensures Applicable(gs, flow) && Tracks(Moved(fs, move), Apply(gs, flow))
  {
    hide Holds, KeepTracks, Complete, Attach;
    match move {
      case Keep(f') => KeepKeepsTracks(fs, gs, f', flow.frame);
      case Pop(_) =>
      case Push(f', c) => PushKeepsTracks(fs, gs, f', c, flow.frame, flow.child);
    }
  }

  /** Beyond the first twelve bytes the message length is that of the message. */
  lemma {:induction false} BottomTracks(fs: seq<ReadFrame>, gs: seq<Frame>)
    requires WellFormed(fs) && Tracks(fs, gs) && gs[0].data.OfMessage?
    ensures fs[0].limit == gs[0].limit || (|fs| == 1 && fs[0].state in {MessageInit, HeaderInit})
    ensures |fs| > 1 ==> TopOf(fs).state !in {MessageInit, HeaderInit}
  {
    hide Suits, Holds, Joined;
    TopIsMessage(fs);
    if |fs| > 1 {
      assert Stands(fs[0], fs[1]);
      BottomLimits(fs, gs);
    } else {
      BottomHolds(fs[0], gs[0]);
    }
  }

  lemma TopIsMessage(fs: seq<ReadFrame>)
    requires WellFormed(fs)
    ensures |fs| > 1 ==> TopOf(fs).state !in {MessageInit, HeaderInit}
    ensures |fs| > 1 ==> fs[1].popState == MessageEntries
  {
    if |fs| > 1 {
      assert Stands(fs[|fs| - 2], fs[|fs| - 1]) && Stands(fs[0], fs[1]);
    }
  }

  lemma BottomHolds(f: ReadFrame, g: Frame)
    requires Holds(f, g) && g.data.OfMessage?
    ensures f.limit == g.limit || f.state in {MessageInit, HeaderInit}
  {
    hide RestrictHeader, RestrictEntries;
  }

  lemma {:induction false} BottomLimits(fs: seq<ReadFrame>, gs: seq<Frame>)
    requires |fs| > 1 && Tracks(fs, gs) && gs[0].data.OfMessage? && fs[1].popState == MessageEntries
    ensures fs[0].limit == gs[0].limit
    decreases |fs|
  {
    hide Holds, Joined;
    var fs', gs' := Popped(fs, Complete(TopOf(fs).part, Top(gs).data)), Apply(gs, Leave);
    assert fs'[0].limit == fs[0].limit && gs'[0].limit == gs[0].limit && gs'[0].data == gs[0].data;
    if |fs| > 2 {
      assert fs'[1].popState == fs[1].popState;
      BottomLimits(fs', gs');
    } else {
      BottomHolds(fs'[0], gs'[0]);
    }
  }
}
