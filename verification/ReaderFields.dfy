/** Reading the fields of headers, entries and elements: each field read takes a part that holds
  * the first k fields of its goal to one that holds k + 1, as the transfer writes field k. */
module ReaderFields {
  import opened Numbers
  import opened Results
  import opened Messages
  import opened Layout
  import opened Pieces
  import opened Restriction
  import opened Sizes
  import opened Frames
  import opened ReaderFrames
  import opened ReaderTurns

  // ---------------------------------------------------------------- the header

  function HeaderOf(g: Frame): MessageHeader { if g.data.OfHeader? then g.data.header else NEW_HEADER }

  lemma HeaderHolds(f: ReadFrame, g: Frame)
    requires f.part.HeaderPart? && TopTracks(f, g)
    ensures g.data.OfHeader? && g.state == f.state
    ensures PlainHeaderState(f.state) ==> f.part.header == HeaderUpTo(HeaderOf(g), Order(f.state))
    ensures Order(f.state) > 4 ==> f.part.header.messageFlags == HeaderOf(g).messageFlags
    ensures !Has(HeaderOf(g).messageFlags, MULTIPLE_ENTRIES) ==> HeaderOf(g).entryCount == 1
    ensures g.limit == HeaderOf(g).headerSize
    ensures f.state != HeaderHeaderSize ==> f.limit == g.limit
    ensures f.state == HeaderExtended2 && Has(HeaderOf(g).messageFlags, EXTENDED) ==>
              |f.part.header.extended| == |HeaderOf(g).extended|
  {
  }

  lemma HeaderSuits(f: ReadFrame, next: State, limit: uint32, h: MessageHeader, p1: nat)
    requires f.part.HeaderPart? && HeaderHeaderSize <= next <= HeaderExtended2 && next != HeaderStringTable3
    requires h.messageSize == f.part.header.messageSize
    ensures var f' := f.(state := next, limit := limit, part := HeaderPart(h), param1 := p1);
            Suits(f') && SameThing(f, f') && !f.part.ArrayPart?
  {
  }

  /** Whatever was read, the frame of a header stays one. */
  lemma HeaderAlways(f: ReadFrame, g: Frame)
    requires f.part.HeaderPart?
    ensures forall next: State, l: uint32, h: MessageHeader, p1: nat, g': Frame ::
              HeaderHeaderSize <= next <= HeaderExtended2 && next != HeaderStringTable3
                  && h.messageSize == f.part.header.messageSize ==>
                Becomes(false, f, ReadFrame(next, f.popState, l, HeaderPart(h), p1, f.param2), g, [], g')
  {
  }

  lemma TableItemAlways(f: ReadFrame, g: Frame)
    requires f.part.HeaderPart? && f.param1 > 0
    ensures forall code: uint32, g': Frame :: Becomes(false, f, TableItem(f, code), g, [], g')
  {
  }

  lemma HeaderDone(f: ReadFrame)
    requires f.part.HeaderPart? && f.popState == MessageEntries
    ensures forall h: MessageHeader :: h.messageSize == f.part.header.messageSize ==> MoveOk(f, Pop(HeaderPart(h)))
  {
  }

  predicate HeaderNext(f: ReadFrame, g: Frame, next: State)
  {
    && f.part.HeaderPart? && g.data.OfHeader? && TopTracks(f, g) && FrameOk(g.state, g) && FrameOk(next, g)
    && PlainHeaderState(f.state) && PlainHeaderState(next) && Order(f.state) < Order(next)
  }

  lemma HeaderBecomes(wanted: bool, f: ReadFrame, g: Frame, p: Bytes, next: State, limit: uint32, h: MessageHeader)
    requires f.part.HeaderPart? && HeaderHeaderSize <= next <= HeaderExtended2 && next != HeaderStringTable3
    requires h.messageSize == f.part.header.messageSize
    requires wanted ==>
               && HeaderNext(f, g, next) && Order(next) == Order(f.state) + 1
               && p == HeaderField(Order(f.state), HeaderOf(g)) && !IsHeaderText(Order(f.state))
               && h == HeaderUpTo(HeaderOf(g), Order(next)) && limit == HeaderOf(g).headerSize
    ensures Becomes(wanted, f, f.(state := next, limit := limit, part := HeaderPart(h)), g, p, g.(state := next))
  {
    hide HeaderField, HeaderUpTo, Advances, FrameOk, FramePieces, Suits, SameThing;
    HeaderSuits(f, next, limit, h, f.param1);
    if wanted {
      HeaderAdvances(g, p, next);
    }
  }

  lemma HeaderBecomesText(wanted: bool, f: ReadFrame, g: Frame, target: Target, next: State, text: Bytes)
    requires TargetSuits(f.part, target, next) && f.part.HeaderPart?
    requires wanted ==>
               && HeaderNext(f, g, next) && Order(next) == Order(f.state) + 1 && f.limit == g.limit
               && HeaderField(Order(f.state), HeaderOf(g)) == Counted(text)
               && HeaderFieldPieces(Order(f.state), HeaderOf(g)) == TextPieces(text)
               && Store(f.part, target, text) == HeaderPart(HeaderUpTo(HeaderOf(g), Order(next)))
    ensures BecomesText(wanted, f, target, next, g, text)
  {
    hide HeaderField, HeaderFieldPieces, TextPieces, HeaderUpTo, AdvancesText, FrameOk, Store, TargetSuits, Suits,
         Counted;
    TextSuits(f, target, next, text);
    if wanted {
      HeaderAdvancesText(g, text, next);
    }
  }

  /** A group whose flag is off. */
  lemma HeaderPasses(wanted: bool, f: ReadFrame, g: Frame, next: State)
    requires f.part.HeaderPart? && HeaderHeaderSize <= next <= HeaderExtended2 && next != HeaderStringTable3
    requires wanted ==>
               && HeaderNext(f, g, next) && f.limit == g.limit
               && HeaderTail(Order(f.state), HeaderOf(g)) == HeaderTail(Order(next), HeaderOf(g))
               && HeaderUpTo(HeaderOf(g), Order(next)) == HeaderUpTo(HeaderOf(g), Order(f.state))
    ensures Becomes(wanted, f, f.(state := next), g, [], g.(state := next))
  {
    hide HeaderTail, HeaderUpTo, Advances, FrameOk, Suits, SameThing;
    HeaderSuits(f, next, f.limit, f.part.header, f.param1);
    if wanted {
      HeaderJumps(g, next);
    }
  }

  lemma {:induction false} TableCount(table: seq<TableEntry>)
    ensures |table| <= |EncodeTable(table)|
  {
    hide UintX, Counted;
    if table != [] {
      TableCount(table[1..]);
    }
  }

  /** The number of items, as a number the reader can read. */
  lemma TableFits(g: Frame)
    requires g.data.OfHeader? && g.state == HeaderStringTable1 && |FrameRest(g.state, g)| < 0x1_0000_0000
    requires Has(g.data.header.messageFlags, STRING_TABLE)
    ensures |g.data.header.stringTable| <= UINT32_MAX
  {
    hide UintX, HeaderTail, EncodeTable, HeaderField;
    TableInHeader(g.data.header);
    TableCount(g.data.header.stringTable);
    assert FrameRest(g.state, g) == HeaderTail(15, g.data.header);
  }

  lemma TableInHeader(h: MessageHeader)
    requires Has(h.messageFlags, STRING_TABLE)
    ensures |HeaderTail(15, h)| >= |EncodeTable(h.stringTable)|
  {
    hide UintX, HeaderTail, EncodeTable;
    HeaderTailStep(15, h);
    HeaderTailStep(16, h);
  }

  /** The string table: its count, then code and text of each item. */
  lemma TableBecomes(wanted: bool, f: ReadFrame, g: Frame)
    requires f.part.HeaderPart? && Suits(f)
    requires wanted ==> TopTracks(f, g) && FrameOk(g.state, g) && g.data.OfHeader?
    ensures f.state == HeaderStringTable1 && (wanted ==> Has(HeaderOf(g).messageFlags, STRING_TABLE)) ==>
              Becomes(wanted, f, f.(state := HeaderStringTable2, param1 := |HeaderOf(g).stringTable|),
                      g, UintX(|HeaderOf(g).stringTable|), g.(state := HeaderStringTable2, param1 := 0))
    ensures wanted && f.state == HeaderStringTable2 ==>
              f.param1 + g.param1 == |HeaderOf(g).stringTable|
    ensures f.state == HeaderStringTable2 && f.param1 == 0 ==>
              Becomes(wanted, f, f.(state := HeaderEntryCount), g, [], g.(state := HeaderEntryCount))
    ensures wanted && f.state == HeaderStringTable2 && f.param1 > 0 ==>
              Becomes(wanted, f, TableItem(f, HeaderOf(g).stringTable[g.param1].code),
                      g, UintX(HeaderOf(g).stringTable[g.param1].code),
                      g.(state := HeaderStringTable3, param1 := g.param1 + 1, param2 := g.param1))
  {
    hide UintX, HeaderUpTo, Advances, FrameRest;
    if wanted {
      TableAdvances(g);
      HeaderUpToEnd(HeaderOf(g));
      assert HeaderOf(g).stringTable[..0] == [];
      assert HeaderOf(g).stringTable[..|HeaderOf(g).stringTable|] == HeaderOf(g).stringTable;
    }
  }

  /** The frame after the code of an item has been read. */
  function TableItem(f: ReadFrame, code: uint32): ReadFrame
    requires f.part.HeaderPart? && f.param1 > 0
  {
    var h := f.part.header;
    f.(state := HeaderStringTable3, param1 := f.param1 - 1,
       part := HeaderPart(h.(stringTable := h.stringTable + [TableEntry(code, [])])))
  }

  lemma TableTextBecomes(wanted: bool, f: ReadFrame, g: Frame)
    requires f.part.HeaderPart? && Suits(f) && f.state == HeaderStringTable3
    requires wanted ==> TopTracks(f, g) && FrameOk(g.state, g) && g.data.OfHeader?
    ensures wanted ==> g.param2 < |HeaderOf(g).stringTable|
    ensures var text := if wanted then HeaderOf(g).stringTable[g.param2].text else [];
            BecomesText(wanted, f, TableText, HeaderStringTable2, g, text)
  {
    hide HeaderUpTo, AdvancesText, FrameRest;
    if wanted {
      TableAdvances(g);
      var table, i := HeaderOf(g).stringTable, g.param2;
      assert (table[..i] + [TableEntry(table[i].code, [])])[i := table[i]] == table[..i + 1];
    }
  }

  lemma EntryCountBecomes(wanted: bool, f: ReadFrame, g: Frame)
    requires f.part.HeaderPart? && Suits(f) && f.state == HeaderEntryCount
    requires wanted ==> TopTracks(f, g) && FrameOk(g.state, g) && g.data.OfHeader?
    ensures var gh := HeaderOf(g);
            var p := if Has(gh.messageFlags, MULTIPLE_ENTRIES) then UintX(gh.entryCount) else [];
            Becomes(wanted, f, f.(state := HeaderExtended1,
                                  part := HeaderPart(f.part.header.(entryCount := gh.entryCount))),
                    g, p, g.(state := HeaderExtended1, param1 := 0))
  {
    hide UintX, HeaderUpTo, Advances, FrameRest;
    if wanted {
      EntryCountAdvances(g);
      HeaderUpToEnd(HeaderOf(g));
    }
  }

  lemma HeaderComplete(f: ReadFrame, g: Frame)
    requires f.part.HeaderPart? && TopTracks(f, g) && FrameOk(g.state, g)
    ensures f.state == HeaderExtended1 && !Has(HeaderOf(g).messageFlags, EXTENDED) ==>
              f.part == Complete(f.part, g.data)
    ensures f.state == HeaderExtended2 ==>
              && |f.part.header.extended| == |HeaderOf(g).extended|
              && HeaderPart(f.part.header.(extended := HeaderOf(g).extended)) == Complete(f.part, g.data)
              && (HeaderOf(g).extended == [] ==> f.part == Complete(f.part, g.data))
  {
    hide FrameRest;
    HeaderUpToEnd(HeaderOf(g));
  }

  // ---------------------------------------------------------------- entries

  function EntryOf(g: Frame): MessageEntry { if g.data.OfEntry? then g.data.entry else NEW_ENTRY }

  lemma EntryHolds(f: ReadFrame, g: Frame)
    requires f.part.EntryPart? && TopTracks(f, g)
    ensures g.data.OfEntry? && g.state == f.state && EntryOf(g).entrySize == |EntryTail(0, EntryOf(g))|
    ensures f.state != EntrySize ==> f.limit == g.limit
    ensures IsEntryFieldState(f.state) ==> f.part.entry == EntryUpTo(EntryOf(g), Order(f.state))
    ensures IsEntryFieldState(f.state) && Order(f.state) > 1 ==> f.part.entry.entryFlags == EntryOf(g).entryFlags
    ensures f.state == EntryExtended2 && Has(EntryOf(g).entryFlags, EXTENDED) ==>
              |f.part.entry.extended| == |EntryOf(g).extended|
  {
    hide EntryTail, RestrictElements;
  }

  lemma EntrySuits(f: ReadFrame, next: State, limit: uint32, e: MessageEntry, p1: nat)
    requires f.part.EntryPart? && IsEntryState(next)
    ensures var f' := f.(state := next, limit := limit, part := EntryPart(e), param1 := p1);
            Suits(f') && SameThing(f, f') && !f.part.ArrayPart?
  {
  }

  lemma EntryAlways(f: ReadFrame, g: Frame)
    requires f.part.EntryPart?
    ensures forall next: State, l: uint32, e: MessageEntry, p1: nat, g': Frame ::
              IsEntryState(next) ==> Becomes(false, f, ReadFrame(next, f.popState, l, EntryPart(e), p1, f.param2), g,
                                             [], g')
  {
  }

  lemma EntryMoves(f: ReadFrame)
    requires f.part.EntryPart? && f.popState == MessageEntries
    ensures MoveOk(f, Pop(f.part))
    ensures MoveOk(f, Push(f, NewElement(f, EntryElements)))
  {
  }

  predicate EntryNext(f: ReadFrame, g: Frame, next: State)
  {
    && f.part.EntryPart? && g.data.OfEntry? && TopTracks(f, g) && FrameOk(g.state, g) && FrameOk(next, g)
    && IsEntryFieldState(f.state) && IsEntryFieldState(next) && Order(next) == Order(f.state) + 1
  }

  lemma EntryBecomes(wanted: bool, f: ReadFrame, g: Frame, p: Bytes, next: State, limit: uint32, e: MessageEntry)
    requires f.part.EntryPart? && IsEntryFieldState(next) && next != EntrySize
    requires wanted ==>
               && EntryNext(f, g, next)
               && p == EntryField(Order(f.state), EntryOf(g))
               && (if p == [] then Order(f.state) > 0 else !IsEntryText(Order(f.state)))
               && e == EntryUpTo(EntryOf(g), Order(next)) && limit == g.limit
    ensures Becomes(wanted, f, f.(state := next, limit := limit, part := EntryPart(e)), g, p, g.(state := next))
  {
    hide EntryField, EntryUpTo, EntryTail, Advances, FrameOk, FramePieces, Suits, SameThing, RestrictElements;
    EntrySuits(f, next, limit, e, f.param1);
    if wanted {
      EntryAdvances(g, p, next);
    }
  }

  lemma EntryBecomesText(wanted: bool, f: ReadFrame, g: Frame, target: Target, next: State, text: Bytes)
    requires TargetSuits(f.part, target, next) && f.part.EntryPart?
    requires wanted ==>
               && EntryNext(f, g, next) && f.state != EntrySize
               && EntryField(Order(f.state), EntryOf(g)) == Counted(text) && Order(next) <= 10
               && EntryFieldPieces(Order(f.state), EntryOf(g)) == TextPieces(text)
               && Store(f.part, target, text) == EntryPart(EntryUpTo(EntryOf(g), Order(next)))
    ensures BecomesText(wanted, f, target, next, g, text)
  {
    hide EntryField, EntryFieldPieces, TextPieces, EntryUpTo, EntryTail, AdvancesText, FrameOk, Store, TargetSuits,
         Suits, Counted, RestrictElements;
    TextSuits(f, target, next, text);
    if wanted {
      EntryAdvancesText(g, text, next);
    }
  }

  lemma {:induction false} ElementsCount(es: seq<MessageElement>)
    ensures |es| <= |EncodeElements(es)|
  {
    hide UintX;
    if es != [] {
      ElementsCount(es[1..]);
      ElementTailStep(0, es[0]);
    }
  }

  /** An entry is at least its size, flags, type and element count. */
  lemma EntryLengths(e: MessageEntry)
    requires ConsistentElements(e.elements)
    ensures |EntryTail(0, e)| >= 5
  {
    hide EntryTail, EncodeElements, ConsistentElements;
    ElementSizesAreLengths(e.elements);
    EntryLength(e);
  }

  lemma CountOfElements(e: MessageEntry)
    ensures |e.elements| <= |EntryTail(12, e)|
  {
    hide UintX, EntryTail, EncodeElements, EntryField;
    ElementsCount(e.elements);
    EntryTailStep(12, e);
    EntryTailStep(13, e);
  }

  lemma EntrySkips(wanted: bool, f: ReadFrame, g: Frame)
    requires f.part.EntryPart? && f.state == EntryExtended1
    requires wanted ==>
               && TopTracks(f, g) && FrameOk(g.state, g) && g.data.OfEntry?
               && !Has(EntryOf(g).entryFlags, EXTENDED)
    ensures Becomes(wanted, f, f.(state := EntryElementCount), g, [], g.(state := EntryElementCount))
  {
    hide EntryUpTo, EntryTail, Advances, FrameRest;
    if wanted {
      EntryUpToEnd(EntryOf(g));
      EntrySkipsExtended(g);
    }
  }

  /** The element count, and the turns between elements. */
  lemma EntryElementsBecome(wanted: bool, f: ReadFrame, g: Frame)
    requires f.part.EntryPart?
    requires wanted ==> TopTracks(f, g) && FrameOk(g.state, g) && g.data.OfEntry?
    ensures f.state == EntryElementCount ==>
              Becomes(wanted, f, f.(state := EntryElements, param1 := |EntryOf(g).elements|),
                      g, UintX(|EntryOf(g).elements|), g.(state := EntryElements, param1 := 0))
    ensures wanted && f.state == EntryElements ==>
              (|f.part.entry.elements| >= f.param1 <==> g.param1 == |EntryOf(g).elements|)
    ensures f.state == EntryElements && (wanted ==> g.param1 == |EntryOf(g).elements|) ==>
              Becomes(wanted, f, f.(state := EntryFinish), g, [], g.(state := EntryFinish))
    ensures f.state == EntryElements && (wanted ==> g.param1 < |EntryOf(g).elements|) ==>
              Becomes(wanted, f, f.(state := ElementInit), g, [], g.(state := ElementInit))
  {
    hide EntryUpTo, EntryTail, Advances, FrameRest, UintX, ConsistentElements;
    if wanted {
      EntryUpToEnd(EntryOf(g));
      assert EntryOf(g).elements[..0] == [];
      assert EntryUpTo(EntryOf(g), ENTRY_FIELDS) == EntryUpTo(EntryOf(g), ENTRY_FIELDS).(elements := []);
      if f.state == EntryElementCount { EntryCountsElements(g); }
      if f.state == EntryElements { EntryElementTurns(g); }
    }
  }

  lemma EntryComplete(f: ReadFrame, g: Frame)
    requires f.part.EntryPart? && TopTracks(f, g) && f.state == EntryFinish
    ensures f.part == Complete(f.part, g.data)
  {
    hide EntryUpTo, RestrictElements;
    var es := EntryOf(g).elements;
    assert es[..|es|] == es;
  }

  function NewElement(f: ReadFrame, popState: State): ReadFrame
  {
    ReadFrame(ElementSize, popState, f.limit, ElementPart(NEW_ELEMENT), 0, 0)
  }

  function GoalElement(g: Frame, es: seq<MessageElement>, pos: nat): Frame
    requires g.param1 < |es|
  {
    Frame(ElementSize, if g.data.OfNested? then ElementNested2 else EntryElements,
          pos + es[g.param1].elementSize, OfElement(es[g.param1]), 0, 0)
  }

  lemma NewElementHolds(f: ReadFrame, g: Frame, es: seq<MessageElement>, pos: nat)
    requires g.param1 < |es| && f.limit >= pos + es[g.param1].elementSize
    ensures TopTracks(NewElement(f, if g.data.OfNested? then ElementNested2 else EntryElements),
                      GoalElement(g, es, pos))
  {
    hide RestrictElement;
  }

  lemma PushFits(g: Frame, g': Frame, gc: Frame, pos: nat)
    requires Pushes(g, g', gc, pos) && g.limit == pos + |FrameRest(g.state, g)|
    ensures gc.limit <= g.limit && SameFrame(g, g')
  {
    hide FrameRest, FrameOk, Linked, FramePieces, Rank;
  }

  lemma EntryGrows(f: ReadFrame, g: Frame)
    requires f.part.EntryPart? && f.state == ElementInit && TopTracks(f, g) && g.data.OfEntry?
    requires g.param1 < |EntryOf(g).elements|
    ensures KeepTracks(f, Attach(f, EntryElements, ElementPart(RestrictElement(EntryOf(g).elements[g.param1]))),
                       g, g.(param1 := g.param1 + 1, state := EntryElements))
  {
    hide EntryUpTo, EntryTail, Store, RestrictElement, RestrictElements;
    RestrictElementsExtend(EntryOf(g).elements, g.param1);
  }

  /** The new element holds nothing yet; once complete it is one more element of the entry. */
  lemma EntryElementChild(f: ReadFrame, g: Frame, pos: nat)
    requires f.part.EntryPart? && f.state == ElementInit && TopTracks(f, g) && FrameOk(g.state, g) && g.data.OfEntry?
    requires g.limit == pos + |FrameRest(g.state, g)| && f.limit == g.limit && g.state == f.state
    ensures g.param1 < |EntryOf(g).elements|
    ensures var gc := GoalElement(g, EntryOf(g).elements, pos);
      && Pushes(g, g.(param1 := g.param1 + 1), gc, pos)
      && MoveTracks(f, g, Push(f, NewElement(f, EntryElements)), Enter(g.(param1 := g.param1 + 1), gc))
  {
    hide FrameRest, TopTracks, KeepTracks, RestrictElement, Pushes, Attach, ConsistentElements;
    var es := EntryOf(g).elements;
    ElementPushes(g, es, pos);
    PushFits(g, g.(param1 := g.param1 + 1), GoalElement(g, es, pos), pos);
    NewElementHolds(f, g, es, pos);
    EntryGrows(f, g);
  }

  // ---------------------------------------------------------------- elements

  function ElementOf(g: Frame): MessageElement { if g.data.OfElement? then g.data.element else NEW_ELEMENT }

  lemma ElementHolds(f: ReadFrame, g: Frame)
    requires f.part.ElementPart? && TopTracks(f, g)
    ensures g.data.OfElement? && g.state == f.state
    ensures f.state != ElementSize ==> f.limit == g.limit
    ensures IsElementFieldState(f.state) ==> f.part.element == ElementUpTo(ElementOf(g), Order(f.state))
    ensures IsElementFieldState(f.state) && Order(f.state) > 1 ==>
              f.part.element.elementFlags == ElementOf(g).elementFlags
    ensures f.state == ElementExtended2 && Has(ElementOf(g).elementFlags, EXTENDED) ==>
              |f.part.element.extended| == |ElementOf(g).extended|
    ensures f.state == ElementData || f.state == ElementArray1 || f.state == ElementNested1 ==>
              f.part.element == ElementUpTo(ElementOf(g), ELEMENT_FIELDS)
    ensures f.state == ElementFinishData ==> f.part.element == RestrictElement(ElementOf(g))
  {
    hide RestrictElement;
  }

  lemma ElementSuits(f: ReadFrame, next: State, limit: uint32, el: MessageElement)
    requires f.part.ElementPart? && IsElementState(next) && (next == ElementArray1 ==> IsArrayType(el.elementType))
    ensures var f' := f.(state := next, limit := limit, part := ElementPart(el));
            Suits(f') && SameThing(f, f') && !f.part.ArrayPart?
  {
  }

  lemma ElementAlways(f: ReadFrame, g: Frame)
    requires f.part.ElementPart?
    ensures forall next: State, l: uint32, el: MessageElement, g': Frame ::
              IsElementState(next) && next != ElementArray1 ==>
                Becomes(false, f, ReadFrame(next, f.popState, l, ElementPart(el), f.param1, f.param2), g, [], g')
  {
  }

  predicate ElementNext(f: ReadFrame, g: Frame, next: State)
  {
    && f.part.ElementPart? && g.data.OfElement? && TopTracks(f, g) && FrameOk(g.state, g) && FrameOk(next, g)
    && IsElementFieldState(f.state) && IsElementFieldState(next) && Order(next) == Order(f.state) + 1
  }

  lemma ElementBecomes(wanted: bool, f: ReadFrame, g: Frame, p: Bytes, next: State, limit: uint32, el: MessageElement)
    requires f.part.ElementPart? && IsElementFieldState(next) && next != ElementSize
    requires wanted ==>
               && ElementNext(f, g, next)
               && p == ElementField(Order(f.state), ElementOf(g))
               && (if p == [] then Order(f.state) > 0 else !IsElementText(Order(f.state)))
               && el == ElementUpTo(ElementOf(g), Order(next)) && limit == g.limit
    ensures Becomes(wanted, f, f.(state := next, limit := limit, part := ElementPart(el)), g, p, g.(state := next))
  {
    hide ElementField, ElementUpTo, Advances, FrameOk, FramePieces, Suits, SameThing, RestrictElement;
    ElementSuits(f, next, limit, el);
    if wanted {
      ElementAdvances(g, p, next);
    }
  }

  lemma ElementBecomesText(wanted: bool, f: ReadFrame, g: Frame, target: Target, next: State, text: Bytes)
    requires TargetSuits(f.part, target, next) && f.part.ElementPart?
    requires wanted ==>
               && ElementNext(f, g, next) && f.state != ElementSize
               && ElementField(Order(f.state), ElementOf(g)) == Counted(text) && Order(next) <= 9
               && ElementFieldPieces(Order(f.state), ElementOf(g)) == TextPieces(text)
               && Store(f.part, target, text) == ElementPart(ElementUpTo(ElementOf(g), Order(next)))
    ensures BecomesText(wanted, f, target, next, g, text)
  {
    hide ElementField, ElementFieldPieces, TextPieces, ElementUpTo, AdvancesText, FrameOk, Store, TargetSuits, Suits,
         Counted, RestrictElement;
    TextSuits(f, target, next, text);
    if wanted {
      ElementAdvancesText(g, text, next);
    }
  }

  /** An element is at least its size, flags, type and data count. */
  lemma ElementLengths(el: MessageElement)
    requires ConsistentElement(el)
    ensures |ElementTail(0, el)| >= 5
  {
    hide ElementTail;
    if el.data.NestedData? { ElementSizesAreLengths(el.data.elements); }
    ElementLength(el);
  }

  lemma ElementSkips(wanted: bool, f: ReadFrame, g: Frame)
    requires f.part.ElementPart? && f.state == ElementExtended1
    requires wanted ==>
               && TopTracks(f, g) && FrameOk(g.state, g) && g.data.OfElement?
               && !Has(ElementOf(g).elementFlags, EXTENDED)
    ensures Becomes(wanted, f, f.(state := ElementDataCount), g, [], g.(state := ElementDataCount))
  {
    hide ElementUpTo, Advances, FrameRest, RestrictElement;
    if wanted {
      ElementUpToEnd(ElementOf(g));
      ElementSkipsExtended(g);
    }
  }

  lemma ElementMoves(f: ReadFrame)
    requires f.part.ElementPart?
    ensures MoveOk(f, Pop(f.part))
    ensures forall el: MessageElement :: MoveOk(f, Pop(ElementPart(el)))
    ensures forall t: uint16, n: Bytes, k: nat ::
              MoveOk(f, Push(f, ReadFrame(ElementNested2, ElementFinishData, f.limit, NestedPart(t, n, []), k, 0)))
  {
  }

  /** From the data count to the content. */
  lemma ElementDataBecomes(wanted: bool, f: ReadFrame, g: Frame)
    requires f.part.ElementPart?
    requires wanted ==> TopTracks(f, g) && FrameOk(g.state, g) && g.data.OfElement?
    ensures f.state == ElementDataCount ==>
              Becomes(wanted, f, f.(state := ElementData,
                                    part := ElementPart(f.part.element.(dataCount := ElementOf(g).dataCount))),
                      g, UintX(ElementOf(g).dataCount), g.(state := ElementData))
    ensures f.state == ElementData && IsArrayType(f.part.element.elementType) ==>
              Becomes(wanted, f, f.(state := ElementArray1), g, [], g.(state := ElementArray1))
    ensures f.state == ElementData && IsNestedType(f.part.element.elementType) ==>
              Becomes(wanted, f, f.(state := ElementNested1), g, [], g.(state := ElementNested1))
    ensures wanted && f.state == ElementData ==>
              var t := f.part.element.elementType;
              t == ElementOf(g).elementType && (t == VOID_T || IsArrayType(t) || IsNestedType(t))
  {
    hide Advances, FrameRest, RestrictElement, UintX, ConsistentElements;
    if wanted {
      ElementUpToEnd(ElementOf(g));
      ElementDataTurns(g);
    }
  }

  lemma ElementComplete(f: ReadFrame, g: Frame)
    requires f.part.ElementPart? && TopTracks(f, g) && FrameOk(g.state, g) && g.data.OfElement?
    requires f.state == ElementFinishData || (f.state == ElementData && f.part.element.elementType == VOID_T)
    ensures f.part == Complete(f.part, g.data)
  {
    hide FrameRest, ConsistentElements, ElementTail, RestrictElement;
    RestrictedElement(ElementOf(g));
  }

  lemma NestedGrows(f: ReadFrame, g: Frame, es: seq<MessageElement>)
    requires f.part.ElementPart? && f.state == ElementNested1 && TopTracks(f, g) && g.data.OfElement?
    requires ElementOf(g).data.NestedData? && ElementOf(g).data.elements == es
    ensures var el := f.part.element;
            KeepTracks(f, Attach(f, ElementFinishData,
                                 NestedPart(el.elementType, el.elementTypeName, RestrictElements(es))),
                       g, g.(state := ElementFinishData))
  {
    hide RestrictElement, RestrictElements;
    RestrictedElement(ElementOf(g));
  }

  /** The list holds nothing yet; once complete it is the content of the element. */
  lemma NestedChild(f: ReadFrame, g: Frame, pos: nat)
    requires f.part.ElementPart? && f.state == ElementNested1 && TopTracks(f, g) && FrameOk(g.state, g)
              && g.data.OfElement?
    requires g.limit == pos + |FrameRest(g.state, g)| && f.limit == g.limit && g.state == f.state
    ensures ElementOf(g).data.NestedData?
    ensures var gc := Frame(ElementNested2, ElementFinishData, g.limit, OfNested(ElementOf(g).data.elements), 0, 0);
            var el := f.part.element;
            var child := ReadFrame(ElementNested2, ElementFinishData, f.limit,
                                   NestedPart(el.elementType, el.elementTypeName, []), el.dataCount, 0);
      Pushes(g, g, gc, pos) && MoveTracks(f, g, Push(f, child), Enter(g, gc))
  {
    hide FrameRest, KeepTracks, RestrictElement, RestrictElements, Pushes, Attach, ConsistentElements, ElementTail;
    ElementHolds(f, g);
    var es := ElementOf(g).data.elements;
    NestedPushes(g, pos);
    NestedGrows(f, g, es);
    assert es[..0] == [];
  }

  // ---------------------------------------------------------------- nested lists

  lemma NestedHolds(f: ReadFrame, g: Frame)
    requires f.part.NestedPart? && TopTracks(f, g)
    ensures g.data.OfNested? && f.limit == g.limit && g.param1 <= |g.data.elements|
    ensures |f.part.elements| >= f.param1 <==> g.param1 == |g.data.elements|
    ensures g.param1 == |g.data.elements| ==> f.part == Complete(f.part, g.data)
  {
    hide RestrictElement;
    var es := if g.data.OfNested? then g.data.elements else [];
    assert es[..|es|] == es;
  }

  lemma NestedMoves(f: ReadFrame)
    requires f.part.NestedPart? && f.popState == ElementFinishData
    ensures MoveOk(f, Pop(f.part))
    ensures MoveOk(f, Push(f, NewElement(f, ElementNested2)))
  {
  }

  lemma NestedListGrows(f: ReadFrame, g: Frame)
    requires f.part.NestedPart? && TopTracks(f, g) && g.data.OfNested? && g.param1 < |g.data.elements|
              && f.state == ElementNested2
    ensures KeepTracks(f, Attach(f, ElementNested2, ElementPart(RestrictElement(g.data.elements[g.param1]))),
                       g, g.(param1 := g.param1 + 1, state := ElementNested2))
  {
    hide RestrictElement, RestrictElements;
    RestrictElementsExtend(g.data.elements, g.param1);
  }

  lemma NestedElementChild(f: ReadFrame, g: Frame, pos: nat)
    requires f.part.NestedPart? && TopTracks(f, g) && FrameOk(g.state, g) && g.data.OfNested?
    requires g.limit == pos + |FrameRest(g.state, g)| && g.state == f.state == ElementNested2
              && g.param1 < |g.data.elements|
    requires f.limit == g.limit
    ensures var gc := GoalElement(g, g.data.elements, pos);
      && Pushes(g, g.(param1 := g.param1 + 1), gc, pos)
      && MoveTracks(f, g, Push(f, NewElement(f, ElementNested2)), Enter(g.(param1 := g.param1 + 1), gc))
  {
    hide FrameRest, TopTracks, KeepTracks, RestrictElement, Pushes, Attach, ConsistentElements;
    var es := g.data.elements;
    ElementPushes(g, es, pos);
    PushFits(g, g.(param1 := g.param1 + 1), GoalElement(g, es, pos), pos);
    NewElementHolds(f, g, es, pos);
    NestedListGrows(f, g);
  }
}
