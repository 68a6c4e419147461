/** The version 4 byte layout, field by field. Each field of the format is a state of the
  * resumable reader and writer; `…Rest(st, x)` is what the encoding of x still holds from
  * state st on, and the whole encoding (Message::Write4) is the rest from the first state. */
module Layout {
  import opened Numbers
  import opened Results
  import opened Messages

  /** state_type: the enumerators of the reader and the writer, in one list. */
  type State = s: int | 0 <= s <= 61

  // message
  const MessageInit: State := 0
  const MessageDone: State := 1
  const HeaderInit: State := 2
  // header
  const HeaderMagic: State := 3
  const HeaderMessageSize: State := 4
  const HeaderVersion: State := 5
  const HeaderHeaderSize: State := 6
  const HeaderFlags: State := 7
  const HeaderRouting1: State := 8
  const HeaderRouting2: State := 9
  const HeaderRouting3: State := 10
  const HeaderRouting4: State := 11
  const HeaderEndpoint1: State := 12
  const HeaderEndpoint2: State := 13
  const HeaderPriority: State := 14
  const HeaderMetaInfo: State := 15
  const HeaderMessageId1: State := 16
  const HeaderMessageId2: State := 17
  const HeaderStringTable1: State := 18
  const HeaderStringTable2: State := 19
  const HeaderStringTable3: State := 20
  const HeaderEntryCount: State := 21
  const HeaderExtended1: State := 22
  const HeaderExtended2: State := 23
  // entries of the message
  const MessageEntries: State := 24
  const EntryInit: State := 25
  const EntryFinish: State := 26
  // entry
  const EntrySize: State := 27
  const EntryFlags: State := 28
  const EntryEntryType: State := 29
  const EntryServicePathStr: State := 30
  const EntryServicePathCode: State := 31
  const EntryMemberNameStr: State := 32
  const EntryMemberNameCode: State := 33
  const EntryRequestId: State := 34
  const EntryError: State := 35
  const EntryMetaInfo: State := 36
  const EntryExtended1: State := 37
  const EntryExtended2: State := 38
  const EntryElementCount: State := 39
  const EntryElements: State := 40
  const ElementInit: State := 41
  // element
  const ElementSize: State := 42
  const ElementFlags: State := 43
  const ElementNameStr: State := 44
  const ElementNameCode: State := 45
  const ElementNumber: State := 46
  const ElementElementType: State := 47
  const ElementTypeStr: State := 48
  const ElementTypeCode: State := 49
  const ElementMetaInfo: State := 50
  const ElementExtended1: State := 51
  const ElementExtended2: State := 52
  const ElementDataCount: State := 53
  // element data
  const ElementData: State := 54
  const ElementFinishData: State := 55
  const ElementArray1: State := 56
  const ElementArray2: State := 57
  const ElementNested1: State := 58
  const ElementNested2: State := 59
  const ElementNested3: State := 60
  // interrupted string
  const HeaderString: State := 61

  const MAGIC: Bytes := [0x52, 0x52, 0x41, 0x43]   // "RRAC"
  const VERSION: nat := 4

  predicate IsHeaderState(st: State) { HeaderMagic <= st <= HeaderExtended2 }

  predicate IsEntryFieldState(st: State) { EntrySize <= st <= EntryElementCount }

  predicate IsElementFieldState(st: State) { ElementSize <= st <= ElementDataCount }

  predicate IsFieldState(st: State) { IsHeaderState(st) || IsEntryFieldState(st) || IsElementFieldState(st) }

  predicate IsEntryState(st: State)
  {
    IsEntryFieldState(st) || st == EntryElements || st == ElementInit || st == EntryFinish
  }

  predicate IsElementState(st: State)
  {
    IsElementFieldState(st) || st == ElementData || st == ElementArray1 || st == ElementNested1
        || st == ElementFinishData
  }

  predicate IsMessageState(st: State)
  {
    st == MessageInit || st == HeaderInit || st == MessageEntries || st == EntryInit || st == MessageDone
  }

  /** Position of a field state within its header, entry or element. */
  function Order(st: State): nat
  {
    if IsHeaderState(st) then st - HeaderMagic
    else if IsEntryFieldState(st) then st - EntrySize
    else if IsElementFieldState(st) then st - ElementSize
    else 0
  }

  /** A measure for the moves that neither read nor write a byte: such a move makes
    * LEVEL * (stack depth) + Rank(top state) smaller. */
  const LEVEL := 100

  function Rank(st: State): nat
  {
    if IsHeaderState(st) then 40 - Order(st)
    else if IsFieldState(st) then if Order(st) == 0 then 1 else 40 - Order(st)
    else if st == MessageInit then 2 * LEVEL + 1
    else if st == HeaderInit then 2 * LEVEL
    else if st == MessageEntries || st == EntryElements || st == ElementNested2 then LEVEL + 3
    else if st == EntryInit || st == ElementInit || st == ElementNested3 then LEVEL + 2
    else if st == ElementData then 2 * LEVEL + 5
    else if st == ElementNested1 then 2 * LEVEL + 4
    else if st == ElementArray1 then 6
    else if st == EntryFinish || st == ElementFinishData then 4
    else if st == MessageDone then 0
    else 1
  }

  function When(on: bool, b: Bytes): Bytes { if on then b else [] }

  /** A string or block behind its own length (WriteString8WithXLen). */
  function Counted(s: Bytes): Bytes { UintX(|s|) + s }

  // ---------------------------------------------------------------- elements

  const ELEMENT_FIELDS := 12

  function ElementField(k: nat, el: MessageElement): Bytes
  {
    if k == 0 then UintX(el.elementSize)
    else if k == 1 then [FlagByte(el.elementFlags)]
    else if k == 2 then When(Has(el.elementFlags, ELEMENT_NAME_STR), Counted(el.elementName))
    else if k == 3 then When(Has(el.elementFlags, ELEMENT_NAME_CODE), UintX(el.elementNameCode))
    else if k == 4 then When(Has(el.elementFlags, ELEMENT_NUMBER), IntX(el.elementNumber))
    else if k == 5 then Little(el.elementType, 2)
    else if k == 6 then When(Has(el.elementFlags, ELEMENT_TYPE_NAME_STR), Counted(el.elementTypeName))
    else if k == 7 then When(Has(el.elementFlags, ELEMENT_TYPE_NAME_CODE), UintX(el.elementTypeNameCode))
    else if k == 8 then When(Has(el.elementFlags, ELEMENT_META_INFO), Counted(el.metaData))
    else if k == 9 then When(Has(el.elementFlags, EXTENDED), UintX(|el.extended|))
    else if k == 10 then When(Has(el.elementFlags, EXTENDED), el.extended)
    else UintX(el.dataCount)
  }

  /** The fields from the k-th on, then the content. */
  function ElementTail(k: nat, el: MessageElement): Bytes
    decreases el, 100 - k
  {
    if k < ELEMENT_FIELDS then ElementField(k, el) + ElementTail(k + 1, el)
    else EncodeContent(el.data)
  }

  function ElementRest(st: State, el: MessageElement): Bytes
  {
    if IsElementFieldState(st) then ElementTail(Order(st), el)
    else if st == ElementData || st == ElementArray1 || st == ElementNested1 then EncodeContent(el.data)
    else []
  }

  function EncodeContent(data: ElementContent): Bytes
    decreases data, 0
  {
    match data
    case NoData => []
    case ArrayData(a) => a.memory
    case NestedData(_, _, es) => EncodeElements(es)
  }

  function EncodeElements(es: seq<MessageElement>): Bytes
    decreases es, 0
  {
    if es == [] then [] else ElementTail(0, es[0]) + EncodeElements(es[1..])
  }

  // ---------------------------------------------------------------- entries

  const ENTRY_FIELDS := 13

  function EntryField(k: nat, e: MessageEntry): Bytes
  {
    if k == 0 then UintX(e.entrySize)
    else if k == 1 then [FlagByte(e.entryFlags)]
    else if k == 2 then Little(e.entryType, 2)
    else if k == 3 then When(Has(e.entryFlags, SERVICE_PATH_STR), Counted(e.servicePath))
    else if k == 4 then When(Has(e.entryFlags, SERVICE_PATH_CODE), UintX(e.servicePathCode))
    else if k == 5 then When(Has(e.entryFlags, MEMBER_NAME_STR), Counted(e.memberName))
    else if k == 6 then When(Has(e.entryFlags, MEMBER_NAME_CODE), UintX(e.memberNameCode))
    else if k == 7 then When(Has(e.entryFlags, REQUEST_ID), UintX(e.requestID))
    else if k == 8 then When(Has(e.entryFlags, ERROR), Little(e.error, 2))
    else if k == 9 then When(Has(e.entryFlags, ENTRY_META_INFO), Counted(e.metaData))
    else if k == 10 then When(Has(e.entryFlags, EXTENDED), UintX(|e.extended|))
    else if k == 11 then When(Has(e.entryFlags, EXTENDED), e.extended)
    else UintX(|e.elements|)
  }

  function EntryTail(k: nat, e: MessageEntry): Bytes
    decreases 100 - k
  {
    if k < ENTRY_FIELDS then EntryField(k, e) + EntryTail(k + 1, e)
    else EncodeElements(e.elements)
  }

  /** i: how many elements have been begun. */
  function EntryRest(st: State, e: MessageEntry, i: nat): Bytes
  {
    if IsEntryFieldState(st) then EntryTail(Order(st), e)
    else if st == EntryElements || st == ElementInit then EncodeElementsFrom(e.elements, i)
    else []
  }

  function EncodeElementsFrom(es: seq<MessageElement>, i: nat): Bytes
  {
    if i <= |es| then EncodeElements(es[i..]) else []
  }

  function EncodeEntries(es: seq<MessageEntry>): Bytes
  {
    if es == [] then [] else EntryTail(0, es[0]) + EncodeEntries(es[1..])
  }

  function EncodeEntriesFrom(es: seq<MessageEntry>, i: nat): Bytes
  {
    if i <= |es| then EncodeEntries(es[i..]) else []
  }

  // ---------------------------------------------------------------- header

  const HEADER_FIELDS := 21

  function HeaderField(k: nat, h: MessageHeader): Bytes
  {
    if k == 0 then MAGIC
    else if k == 1 then Little(h.messageSize, 4)
    else if k == 2 then Little(VERSION, 2)
    else if k == 3 then UintX(h.headerSize)
    else if k == 4 then [FlagByte(h.messageFlags)]
    else if k == 5 then When(Has(h.messageFlags, ROUTING_INFO), h.senderNodeID)
    else if k == 6 then When(Has(h.messageFlags, ROUTING_INFO), h.receiverNodeID)
    else if k == 7 then When(Has(h.messageFlags, ROUTING_INFO), Counted(h.senderNodeName))
    else if k == 8 then When(Has(h.messageFlags, ROUTING_INFO), Counted(h.receiverNodeName))
    else if k == 9 then When(Has(h.messageFlags, ENDPOINT_INFO), UintX(h.senderEndpoint))
    else if k == 10 then When(Has(h.messageFlags, ENDPOINT_INFO), UintX(h.receiverEndpoint))
    else if k == 11 then When(Has(h.messageFlags, PRIORITY), Little(h.priority, 2))
    else if k == 12 then When(Has(h.messageFlags, HEADER_META_INFO), Counted(h.metaData))
    else if k == 13 then When(Has(h.messageFlags, HEADER_META_INFO), Little(h.messageID, 2))
    else if k == 14 then When(Has(h.messageFlags, HEADER_META_INFO), Little(h.messageResID, 2))
    else if k == 15 then When(Has(h.messageFlags, STRING_TABLE), UintX(|h.stringTable|))
    else if k == 16 then When(Has(h.messageFlags, STRING_TABLE), EncodeTable(h.stringTable))
    else if k == 17 then []   // the text of a string table item
    else if k == 18 then When(Has(h.messageFlags, MULTIPLE_ENTRIES), UintX(h.entryCount))
    else if k == 19 then When(Has(h.messageFlags, EXTENDED), UintX(|h.extended|))
    else When(Has(h.messageFlags, EXTENDED), h.extended)
  }

  function HeaderTail(k: nat, h: MessageHeader): Bytes
    decreases 100 - k
  {
    if k < HEADER_FIELDS then HeaderField(k, h) + HeaderTail(k + 1, h) else []
  }

  function EncodeTable(table: seq<TableEntry>): Bytes
  {
    if table == [] then []
    else UintX(table[0].code) + (Counted(table[0].text) + EncodeTable(table[1..]))
  }

  function EncodeTableFrom(table: seq<TableEntry>, i: nat): Bytes
  {
    if i <= |table| then EncodeTable(table[i..]) else []
  }

  /** i: the index of the string table item in hand. */
  function HeaderRest(st: State, h: MessageHeader, i: nat): Bytes
  {
    if st == HeaderStringTable2 then EncodeTableFrom(h.stringTable, i) + HeaderTail(18, h)
    else if st == HeaderStringTable3 then
      if i < |h.stringTable| then
        Counted(h.stringTable[i].text) + (EncodeTableFrom(h.stringTable, i + 1) + HeaderTail(18, h))
      else []
    else HeaderTail(Order(st), h)
  }

  // ---------------------------------------------------------------- messages

  function Encode(m: Message): Bytes
  {
    HeaderTail(0, m.header) + EncodeEntries(m.entries)
  }

  /** i: how many entries have been begun. */
  function MessageRest(st: State, m: Message, i: nat): Bytes
  {
    if st == MessageInit || st == HeaderInit then Encode(m)
    else if st == MessageEntries || st == EntryInit then EncodeEntriesFrom(m.entries, i)
    else []
  }

  // ---------------------------------------------------------------- absent fields

  lemma HeaderTailStep(k: nat, h: MessageHeader)
    ensures HeaderTail(k, h) == if k < HEADER_FIELDS then HeaderField(k, h) + HeaderTail(k + 1, h) else []
  {
    hide HeaderField;
  }

  lemma HeaderAbsent(k: nat, h: MessageHeader)
    requires k < HEADER_FIELDS && HeaderField(k, h) == []
    ensures HeaderTail(k, h) == HeaderTail(k + 1, h)
  {
    hide HeaderField;
  }

  lemma EntryTailStep(k: nat, e: MessageEntry)
    ensures EntryTail(k, e) == if k < ENTRY_FIELDS then EntryField(k, e) + EntryTail(k + 1, e)
              else EncodeElements(e.elements)
  {
    hide EntryField;
  }

  lemma ElementTailStep(k: nat, el: MessageElement)
    ensures ElementTail(k, el) == if k < ELEMENT_FIELDS then ElementField(k, el) + ElementTail(k + 1, el)
              else EncodeContent(el.data)
  {
    hide ElementField, EncodeContent;
  }

  // Where a flag is off the layout goes straight to the next group.

  lemma NoRouting(h: MessageHeader)
    requires !Has(h.messageFlags, ROUTING_INFO)
    ensures HeaderTail(5, h) == HeaderTail(9, h)
  {
    hide HeaderTail;
    HeaderAbsent(5, h); HeaderAbsent(6, h); HeaderAbsent(7, h); HeaderAbsent(8, h);
  }

  lemma NoEndpoints(h: MessageHeader)
    requires !Has(h.messageFlags, ENDPOINT_INFO)
    ensures HeaderTail(9, h) == HeaderTail(11, h)
  {
    hide HeaderTail;
    HeaderAbsent(9, h); HeaderAbsent(10, h);
  }

  lemma NoMetaInfo(h: MessageHeader)
    requires !Has(h.messageFlags, HEADER_META_INFO)
    ensures HeaderTail(12, h) == HeaderTail(15, h)
  {
    hide HeaderTail;
    HeaderAbsent(12, h); HeaderAbsent(13, h); HeaderAbsent(14, h);
  }

  lemma NoTable(h: MessageHeader)
    requires !Has(h.messageFlags, STRING_TABLE)
    ensures HeaderTail(15, h) == HeaderTail(18, h)
  {
    hide HeaderTail;
    HeaderAbsent(15, h); HeaderAbsent(16, h); HeaderAbsent(17, h);
  }

  lemma WholeTable(h: MessageHeader)
    requires Has(h.messageFlags, STRING_TABLE)
    ensures HeaderTail(16, h) == EncodeTableFrom(h.stringTable, 0) + HeaderTail(18, h)
  {
    hide HeaderTail;
    HeaderTailStep(16, h);
    HeaderAbsent(17, h);
    assert h.stringTable[0..] == h.stringTable;
  }

  lemma NoExtended(h: MessageHeader)
    requires !Has(h.messageFlags, EXTENDED)
    ensures HeaderTail(19, h) == []
  {
    hide HeaderTail;
    HeaderAbsent(19, h); HeaderAbsent(20, h);
    HeaderTailStep(21, h);
  }

  // ---------------------------------------------------------------- consistency

  /** Sizes, types and counts say what the bytes are. */
  predicate ConsistentElement(el: MessageElement)
    decreases el, 1
  {
    && el.elementSize == |ElementTail(0, el)|
    && el.elementType == TypeOf(el.data)
    && match el.data
       case NoData => true
       case ArrayData(a) => |a.memory| == RRArrayElementSize(a.dataType) * el.dataCount
       case NestedData(t, _, es) => IsNestedType(t) && |es| == el.dataCount && ConsistentElements(es)
  }

  predicate ConsistentElements(es: seq<MessageElement>)
    decreases es, 0
  {
    es == [] || (ConsistentElement(es[0]) && ConsistentElements(es[1..]))
  }

  predicate ConsistentEntry(e: MessageEntry)
  {
    && e.entrySize == |EntryTail(0, e)|
    && ConsistentElements(e.elements)
  }

  predicate ConsistentEntries(es: seq<MessageEntry>)
  {
    es == [] || (ConsistentEntry(es[0]) && ConsistentEntries(es[1..]))
  }

  predicate ConsistentHeader(h: MessageHeader)
  {
    && h.headerSize == |HeaderTail(0, h)|
    && (!Has(h.messageFlags, MULTIPLE_ENTRIES) ==> h.entryCount == 1)
  }

  predicate Consistent(m: Message)
  {
    && ConsistentHeader(m.header)
    && m.header.entryCount == |m.entries|
    && m.header.messageSize == |Encode(m)|
    && ConsistentEntries(m.entries)
  }

  lemma {:induction false} ConsistentElementAt(es: seq<MessageElement>, i: nat)
    requires ConsistentElements(es) && i < |es|
    ensures ConsistentElement(es[i])
  {
    if i > 0 {
      ConsistentElementAt(es[1..], i - 1);
    }
  }

  lemma {:induction false} ConsistentEntryAt(es: seq<MessageEntry>, i: nat)
    requires ConsistentEntries(es) && i < |es|
    ensures ConsistentEntry(es[i])
  {
    if i > 0 {
      ConsistentEntryAt(es[1..], i - 1);
    }
  }

  lemma ElementsFromStep(es: seq<MessageElement>, i: nat)
    requires i <= |es|
    ensures i < |es| ==> EncodeElementsFrom(es, i) == ElementTail(0, es[i]) + EncodeElementsFrom(es, i + 1)
    ensures i == |es| ==> EncodeElementsFrom(es, i) == []
  {
    hide ElementTail;
    if i < |es| { assert es[i..][1..] == es[i + 1..]; }
  }

  lemma EntriesFromStep(es: seq<MessageEntry>, i: nat)
    requires i <= |es|
    ensures i < |es| ==> EncodeEntriesFrom(es, i) == EntryTail(0, es[i]) + EncodeEntriesFrom(es, i + 1)
    ensures i == |es| ==> EncodeEntriesFrom(es, i) == []
  {
    hide EntryTail;
    if i < |es| { assert es[i..][1..] == es[i + 1..]; }
  }

  lemma TableFromStep(table: seq<TableEntry>, i: nat)
    requires i <= |table|
    ensures i < |table| ==>
              EncodeTableFrom(table, i) == UintX(table[i].code)
                  + (Counted(table[i].text) + EncodeTableFrom(table, i + 1))
    ensures i == |table| ==> EncodeTableFrom(table, i) == []
  {
    hide Counted, UintX;
    if i < |table| { assert table[i..][1..] == table[i + 1..]; }
  }
}
