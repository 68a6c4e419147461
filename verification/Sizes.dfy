/** The sizes ComputeSize4 stores are the lengths Write4 emits. */
module Sizes {
  import opened Numbers
  import opened Results
  import opened Messages
  import opened Layout

  lemma {:induction false} ElementSizesAreLengths(es: seq<MessageElement>)
    requires ConsistentElements(es)
    ensures ElementSizes(es) == |EncodeElements(es)|
  {
    if es != [] {
      ElementSizesAreLengths(es[1..]);
    }
  }

  /** A size computed in 32 bits is the full one as long as that fits 32 bits; and only then is it
    * the length of a prefix and so many bytes. */
  lemma SizeOfBody(body: nat, t: uint32)
    requires SizePlusUintX(Wrap(body)) == Ok(t)
    ensures FullPlusPrefix(body) <= UINT32_MAX ==> t == FullPlusPrefix(body) == UintXByteCount(t) + body
    ensures t == UintXByteCount(t) + body ==> t == FullPlusPrefix(body)
  {
    SizePlusUintXIsLeast(Wrap(body));
    if body <= UINT32_MAX { WrapSmall(body); }
  }

  /** UpdateData4 leaves an element whose stored size, type and count match its bytes exactly when
    * the full size fits 32 bits, and then the stored size is the full one. */
  lemma {:induction false} UpdatedElementIsConsistent(el: MessageElement)
    requires UpdateElement4(el).Ok?
    ensures var u := UpdateElement4(el).value;
            && (ConsistentElement(u) <==> FullElement(el) <= UINT32_MAX)
            && (ConsistentElement(u) ==> u.elementSize == FullElement(el))
    decreases el, 1
  {
    hide ElementTail, ElementOwnSize, PrepareElement4, ConsistentElements, FullPlusPrefix, FullElements, ElementSizes,
         ElementBytes;
    var p := PrepareElement4(el).value;
    var u := UpdateElement4(el).value;
    var body := ElementBytes(el) + FullContent(el.data);
    PreparedElement(el);
    PreparedElementSize(el);
    PlusPrefixIsMore(body);
    ElementOwnSizeOmits(p, u.data, u.elementSize);
    if el.data.NestedData? {
      UpdatedElementsAreConsistent(el.data.elements);
      if ConsistentElements(u.data.elements) { ElementSizesAreLengths(u.data.elements); }
    }
    if el.data.NestedData? ==> ConsistentElements(u.data.elements) {
      ElementLength(u);
      SizeOfBody(body, u.elementSize);
    }
  }

  lemma PlusPrefixIsMore(s: nat)
    ensures FullPlusPrefix(s) > s
  {
  }

  lemma PreparedElement(el: MessageElement)
    requires PrepareElement4(el).Ok?
    ensures var p := PrepareElement4(el).value;
            && p.data == el.data && p.elementType == TypeOf(el.data)
            && match el.data
               case NoData => true
               case ArrayData(a) => |a.memory| == RRArrayElementSize(a.dataType) * p.dataCount
               case NestedData(t, _, es) => IsNestedType(t) && |es| == p.dataCount
  {
    if el.data.ArrayData? {
      var a := el.data.items;
      WholeElements(|a.memory|, RRArrayElementSize(a.dataType));
    }
  }

  /** The computed flags are those of what the sender has set. */
  lemma PreparedElementSize(el: MessageElement)
    requires PrepareElement4(el).Ok?
    ensures ElementOwnSize(PrepareElement4(el).value) == ElementBytes(el)
  {
    hide UintXByteCount, IntXByteCount, TooLong;
  }

  lemma PreparedEntrySize(e: MessageEntry)
    requires PrepareEntry4(e).Ok?
    ensures EntryOwnSize(PrepareEntry4(e).value) == EntryBytes(e)
  {
    hide UintXByteCount, TooLong;
  }

  lemma PreparedHeaderSize(h: MessageHeader, entryCount: uint16)
    ensures HeaderBodySize(PrepareHeader4(h, entryCount)) == HeaderBytes(h, entryCount)
  {
    hide UintXByteCount, TableSize;
  }

  lemma ElementOwnSizeOmits(el: MessageElement, data: ElementContent, n: uint32)
    ensures ElementOwnSize(el.(data := data, elementSize := n)) == ElementOwnSize(el)
    ensures ElementOwnSize(el.(data := data)) == ElementOwnSize(el)
  {
  }

  lemma EntryOwnSizeOmits(e: MessageEntry, elements: seq<MessageElement>, n: uint32)
    requires |elements| == |e.elements|
    ensures EntryOwnSize(e.(elements := elements, entrySize := n)) == EntryOwnSize(e)
    ensures EntryOwnSize(e.(elements := elements)) == EntryOwnSize(e)
  {
  }

  lemma HeaderBodySizeOmitsSizes(h: MessageHeader, n: uint32, m: uint32)
    ensures HeaderBodySize(h.(headerSize := n, messageSize := m)) == HeaderBodySize(h)
  {
  }

  lemma WholeElements(n: nat, k: nat)
    requires 1 <= k && n % k == 0
    ensures n == k * (n / k)
  {
  }

  function ElementFieldSize(k: nat, el: MessageElement): nat
  {
    if k == 0 then UintXByteCount(el.elementSize)
    else if k == 1 then 1
    else if k == 2 then SizeWhen(Has(el.elementFlags, ELEMENT_NAME_STR), CountedSize(el.elementName))
    else if k == 3 then SizeWhen(Has(el.elementFlags, ELEMENT_NAME_CODE), UintXByteCount(el.elementNameCode))
    else if k == 4 then SizeWhen(Has(el.elementFlags, ELEMENT_NUMBER), IntXByteCount(el.elementNumber))
    else if k == 5 then 2
    else if k == 6 then SizeWhen(Has(el.elementFlags, ELEMENT_TYPE_NAME_STR), CountedSize(el.elementTypeName))
    else if k == 7 then SizeWhen(Has(el.elementFlags, ELEMENT_TYPE_NAME_CODE), UintXByteCount(el.elementTypeNameCode))
    else if k == 8 then SizeWhen(Has(el.elementFlags, ELEMENT_META_INFO), CountedSize(el.metaData))
    else if k == 9 then SizeWhen(Has(el.elementFlags, EXTENDED), UintXByteCount(|el.extended|))
    else if k == 10 then SizeWhen(Has(el.elementFlags, EXTENDED), |el.extended|)
    else UintXByteCount(el.dataCount)
  }

  lemma ElementFieldLength(k: nat, el: MessageElement)
    ensures |ElementField(k, el)| == ElementFieldSize(k, el)
  {
  }

  function ElementSizesFrom(k: nat, el: MessageElement): nat
    decreases 100 - k
  {
    if k < ELEMENT_FIELDS then ElementFieldSize(k, el) + ElementSizesFrom(k + 1, el) else 0
  }

  lemma {:induction false} ElementTailLength(k: nat, el: MessageElement)
    ensures |ElementTail(k, el)| == ElementSizesFrom(k, el) + |EncodeContent(el.data)|
    decreases 100 - k
  {
    hide ElementField, ElementFieldSize;
    if k < ELEMENT_FIELDS {
      ElementFieldLength(k, el);
      ElementTailLength(k + 1, el);
    }
  }

  lemma ElementLength(el: MessageElement)
    requires ContentSize(el.data) == |EncodeContent(el.data)|
    ensures |ElementTail(0, el)| == UintXByteCount(el.elementSize) + ElementBodySize(el)
  {
    hide ElementTail, SizeWhen, CountedSize, UintXByteCount, Has;
    ElementTailLength(0, el);
  }

  function EntryFieldSize(k: nat, e: MessageEntry): nat
  {
    if k == 0 then UintXByteCount(e.entrySize)
    else if k == 1 then 1
    else if k == 2 then 2
    else if k == 3 then SizeWhen(Has(e.entryFlags, SERVICE_PATH_STR), CountedSize(e.servicePath))
    else if k == 4 then SizeWhen(Has(e.entryFlags, SERVICE_PATH_CODE), UintXByteCount(e.servicePathCode))
    else if k == 5 then SizeWhen(Has(e.entryFlags, MEMBER_NAME_STR), CountedSize(e.memberName))
    else if k == 6 then SizeWhen(Has(e.entryFlags, MEMBER_NAME_CODE), UintXByteCount(e.memberNameCode))
    else if k == 7 then SizeWhen(Has(e.entryFlags, REQUEST_ID), UintXByteCount(e.requestID))
    else if k == 8 then SizeWhen(Has(e.entryFlags, ERROR), 2)
    else if k == 9 then SizeWhen(Has(e.entryFlags, ENTRY_META_INFO), CountedSize(e.metaData))
    else if k == 10 then SizeWhen(Has(e.entryFlags, EXTENDED), UintXByteCount(|e.extended|))
    else if k == 11 then SizeWhen(Has(e.entryFlags, EXTENDED), |e.extended|)
    else UintXByteCount(|e.elements|)
  }

  lemma EntryFieldLength(k: nat, e: MessageEntry)
    ensures |EntryField(k, e)| == EntryFieldSize(k, e)
  {
  }

  function EntrySizesFrom(k: nat, e: MessageEntry): nat
    decreases 100 - k
  {
    if k < ENTRY_FIELDS then EntryFieldSize(k, e) + EntrySizesFrom(k + 1, e) else 0
  }

  lemma {:induction false} EntryTailLength(k: nat, e: MessageEntry)
    ensures |EntryTail(k, e)| == EntrySizesFrom(k, e) + |EncodeElements(e.elements)|
    decreases 100 - k
  {
    hide EntryField, EntryFieldSize;
    if k < ENTRY_FIELDS {
      EntryFieldLength(k, e);
      EntryTailLength(k + 1, e);
    }
  }

  lemma EntryLength(e: MessageEntry)
    requires ElementSizes(e.elements) == |EncodeElements(e.elements)|
    ensures |EntryTail(0, e)| == UintXByteCount(e.entrySize) + EntryBodySize(e)
  {
    hide EntryTail, SizeWhen, CountedSize, UintXByteCount, Has;
    EntryTailLength(0, e);
  }

  lemma {:induction false} TableLength(table: seq<TableEntry>)
    ensures |EncodeTable(table)| == TableSize(table)
  {
    if table != [] {
      TableLength(table[1..]);
    }
  }

  function HeaderFieldSize(k: nat, h: MessageHeader): nat
  {
    if k == 0 then 4
    else if k == 1 then 4
    else if k == 2 then 2
    else if k == 3 then UintXByteCount(h.headerSize)
    else if k == 4 then 1
    else if k == 5 then SizeWhen(Has(h.messageFlags, ROUTING_INFO), 16)
    else if k == 6 then SizeWhen(Has(h.messageFlags, ROUTING_INFO), 16)
    else if k == 7 then SizeWhen(Has(h.messageFlags, ROUTING_INFO), CountedSize(h.senderNodeName))
    else if k == 8 then SizeWhen(Has(h.messageFlags, ROUTING_INFO), CountedSize(h.receiverNodeName))
    else if k == 9 then SizeWhen(Has(h.messageFlags, ENDPOINT_INFO), UintXByteCount(h.senderEndpoint))
    else if k == 10 then SizeWhen(Has(h.messageFlags, ENDPOINT_INFO), UintXByteCount(h.receiverEndpoint))
    else if k == 11 then SizeWhen(Has(h.messageFlags, PRIORITY), 2)
    else if k == 12 then SizeWhen(Has(h.messageFlags, HEADER_META_INFO), CountedSize(h.metaData))
    else if k == 13 then SizeWhen(Has(h.messageFlags, HEADER_META_INFO), 2)
    else if k == 14 then SizeWhen(Has(h.messageFlags, HEADER_META_INFO), 2)
    else if k == 15 then SizeWhen(Has(h.messageFlags, STRING_TABLE), UintXByteCount(|h.stringTable|))
    else if k == 16 then SizeWhen(Has(h.messageFlags, STRING_TABLE), TableSize(h.stringTable))
    else if k == 17 then 0
    else if k == 18 then SizeWhen(Has(h.messageFlags, MULTIPLE_ENTRIES), UintXByteCount(h.entryCount))
    else if k == 19 then SizeWhen(Has(h.messageFlags, EXTENDED), UintXByteCount(|h.extended|))
    else SizeWhen(Has(h.messageFlags, EXTENDED), |h.extended|)
  }

  lemma HeaderFieldLength(k: nat, h: MessageHeader)
    ensures |HeaderField(k, h)| == HeaderFieldSize(k, h)
  {
    TableLength(h.stringTable);
  }

  function HeaderSizesFrom(k: nat, h: MessageHeader): nat
    decreases 100 - k
  {
    if k < HEADER_FIELDS then HeaderFieldSize(k, h) + HeaderSizesFrom(k + 1, h) else 0
  }

  lemma {:induction false} HeaderTailLength(k: nat, h: MessageHeader)
    ensures |HeaderTail(k, h)| == HeaderSizesFrom(k, h)
    decreases 100 - k
  {
    hide HeaderField, HeaderFieldSize;
    if k < HEADER_FIELDS {
      HeaderFieldLength(k, h);
      HeaderTailLength(k + 1, h);
    }
  }

  lemma HeaderLastSizes(h: MessageHeader)
    ensures HeaderSizesFrom(11, h) ==
      SizeWhen(Has(h.messageFlags, PRIORITY), 2)
      + SizeWhen(Has(h.messageFlags, HEADER_META_INFO), CountedSize(h.metaData))
      + SizeWhen(Has(h.messageFlags, HEADER_META_INFO), 2)
      + SizeWhen(Has(h.messageFlags, HEADER_META_INFO), 2)
      + SizeWhen(Has(h.messageFlags, STRING_TABLE), UintXByteCount(|h.stringTable|))
      + SizeWhen(Has(h.messageFlags, STRING_TABLE), TableSize(h.stringTable))
      + SizeWhen(Has(h.messageFlags, MULTIPLE_ENTRIES), UintXByteCount(h.entryCount))
      + SizeWhen(Has(h.messageFlags, EXTENDED), UintXByteCount(|h.extended|))
      + SizeWhen(Has(h.messageFlags, EXTENDED), |h.extended|)
  {
    hide SizeWhen, CountedSize, UintXByteCount, TableSize, Has;
  }

  lemma HeaderFirstSizes(h: MessageHeader)
    ensures HeaderSizesFrom(0, h) == 11 + UintXByteCount(h.headerSize)
      + SizeWhen(Has(h.messageFlags, ROUTING_INFO), 16)
      + SizeWhen(Has(h.messageFlags, ROUTING_INFO), 16)
      + SizeWhen(Has(h.messageFlags, ROUTING_INFO), CountedSize(h.senderNodeName))
      + SizeWhen(Has(h.messageFlags, ROUTING_INFO), CountedSize(h.receiverNodeName))
      + SizeWhen(Has(h.messageFlags, ENDPOINT_INFO), UintXByteCount(h.senderEndpoint))
      + SizeWhen(Has(h.messageFlags, ENDPOINT_INFO), UintXByteCount(h.receiverEndpoint))
      + HeaderSizesFrom(11, h)
  {
    hide SizeWhen, CountedSize, UintXByteCount, TableSize, Has;
  }

  lemma HeaderLength(h: MessageHeader)
    ensures |HeaderTail(0, h)| == UintXByteCount(h.headerSize) + HeaderBodySize(h)
  {
    hide HeaderTail, HeaderSizesFrom, UintXByteCount, CountedSize, SizeWhen, TableSize, Has;
    HeaderTailLength(0, h);
    HeaderFirstSizes(h);
    HeaderLastSizes(h);
  }

  lemma {:induction false} UpdatedElementsAreConsistent(es: seq<MessageElement>)
    requires UpdateElements4(es).Ok?
    ensures var us := UpdateElements4(es).value;
            && (ConsistentElements(us) ==> ElementSizes(us) == FullElements(es))
            && (FullElements(es) <= UINT32_MAX ==> ConsistentElements(us))
    decreases es, 0
  {
    hide UpdateElement4, ConsistentElement, FullElement;
    if es != [] {
      UpdatedElementIsConsistent(es[0]);
      UpdatedElementsAreConsistent(es[1..]);
      assert UpdateElements4(es).value[1..] == UpdateElements4(es[1..]).value;
    }
  }

  lemma UpdatedEntryIsConsistent(e: MessageEntry)
    requires UpdateEntry4(e).Ok?
    ensures var u := UpdateEntry4(e).value;
            && (ConsistentEntry(u) <==> FullEntry(e) <= UINT32_MAX)
            && (ConsistentEntry(u) ==> u.entrySize == FullEntry(e))
  {
    hide EntryTail, EntryOwnSize, PrepareEntry4, UpdateElements4, ConsistentElements, FullPlusPrefix, FullElements,
         ElementSizes, EntryBytes;
    var p := PrepareEntry4(e).value;
    var u := UpdateEntry4(e).value;
    var body := EntryBytes(e) + FullElements(e.elements);
    PreparedEntrySize(e);
    assert p.elements == e.elements by { PreparedEntry(e); }
    PlusPrefixIsMore(body);
    EntryOwnSizeOmits(p, u.elements, u.entrySize);
    UpdatedElementsAreConsistent(e.elements);
    if ConsistentElements(u.elements) {
      ElementSizesAreLengths(u.elements);
      EntryLength(u);
      SizeOfBody(body, u.entrySize);
    }
  }

  lemma PreparedEntry(e: MessageEntry)
    requires PrepareEntry4(e).Ok?
    ensures PrepareEntry4(e).value.elements == e.elements
  {
  }

  lemma {:induction false} UpdatedEntriesAreConsistent(es: seq<MessageEntry>)
    requires UpdateEntries4(es).Ok?
    ensures var us := UpdateEntries4(es).value;
            && (ConsistentEntries(us) ==> EntrySizes(us) == FullEntries(es) == |EncodeEntries(us)|)
            && (FullEntries(es) <= UINT32_MAX ==> ConsistentEntries(us))
  {
    hide UpdateEntry4, FullEntry, EntryTail, ConsistentElements;
    if es != [] {
      UpdatedEntryIsConsistent(es[0]);
      UpdatedEntriesAreConsistent(es[1..]);
      var us := UpdateEntries4(es).value;
      assert us[1..] == UpdateEntries4(es[1..]).value;
    }
  }

  lemma UpdatedHeaderIsConsistent(h: MessageHeader, s: uint32, entryCount: uint16)
    requires UpdateHeader4(h, s, entryCount).Ok?
    ensures var u := UpdateHeader4(h, s, entryCount).value;
            var full := FullPlusPrefix(HeaderBytes(h, entryCount));
            && (ConsistentHeader(u) <==> full <= UINT32_MAX)
            && (ConsistentHeader(u) ==> u.headerSize == full)
            && u.entryCount == entryCount && u.messageSize == Wrap(s + u.headerSize)
  {
    hide HeaderTail, HeaderBodySize, FullPlusPrefix, HeaderBytes;
    var p := PrepareHeader4(h, entryCount);
    var u := UpdateHeader4(h, s, entryCount).value;
    PreparedHeaderSize(h, entryCount);
    HeaderLength(u);
    HeaderBodySizeOmitsSizes(p, u.headerSize, u.messageSize);
    SizeOfBody(HeaderBodySize(p), u.headerSize);
  }

  /** The sizes of a message describe its bytes, at every level, if and only if the message in full
    * fits 32 bits; where it does not, a sum has wrapped and nothing has noticed. */
  lemma ComputedSizeIsExact(m: Message)
    requires UpdateMessage4(m).Ok?
    ensures Consistent(UpdateMessage4(m).value) <==> FullMessage(m) <= UINT32_MAX
    ensures Consistent(UpdateMessage4(m).value) ==> UpdateMessage4(m).value.header.messageSize == FullMessage(m)
  {
    hide HeaderTail, HeaderBodySize, UpdateEntries4, UpdateHeader4, EncodeEntries, EntrySizes, ConsistentEntries,
         ConsistentHeader, FullEntries, FullPlusPrefix, HeaderBytes;
    var u := UpdateMessage4(m).value;
    UpdatedEntriesAreConsistent(m.entries);
    UpdatedHeaderIsConsistent(m.header, EntrySizes(u.entries), |m.entries|);
    if ConsistentEntries(u.entries) && ConsistentHeader(u.header) {
      EncodedLength(u);
    }
  }

  lemma EncodedLength(m: Message)
    requires ConsistentHeader(m.header)
    ensures |Encode(m)| == m.header.headerSize + |EncodeEntries(m.entries)|
  {
    hide HeaderTail, EncodeEntries;
  }

  // ---------------------------------------------------------------- messages whose sizes wrap

  const NO_FLAGS: Flags := [false, false, false, false, false, false, false, false]
  const NO_ID: NodeID := [0, 0, 0, 0, 0, 0, 0, 0, 0, 0, 0, 0, 0, 0, 0, 0]
  const INT8_T: uint16 := 3

  const PLAIN_HEADER: MessageHeader :=
    MessageHeader(0, NO_FLAGS, NO_ID, NO_ID, [], [], 0, 0, 0, [], 0, 0, [], 0, [], 0)

  function PlainEntry(elements: seq<MessageElement>): MessageEntry
  {
    MessageEntry(0, NO_FLAGS, 0, [], 0, [], 0, 0, 0, [], [], elements)
  }

  /** An element with an array of n bytes. */
  function BytesElement(n: nat): MessageElement
  {
    MessageElement(0, NO_FLAGS, [], 0, 0, VOID_T, [], 0, [], [], 0, ArrayData(ArrayMemory(INT8_T, seq(n, _ => 0))))
  }

  lemma BytesElementSize(n: nat)
    requires 0x1_0000 <= n <= UINT32_MAX - 13
    ensures UpdateElement4(BytesElement(n)).Ok?
              && UpdateElement4(BytesElement(n)).value.elementSize == FullElement(BytesElement(n)) == n + 13
  {
    WrapSmall(n + 8);
    assert PrepareElement4(BytesElement(n)).Ok?;
  }

  lemma PlainEntrySize(es: seq<MessageElement>)
    requires UpdateElements4(es).Ok? && |es| <= 252
    requires Wrap(4 + ElementSizes(UpdateElements4(es).value)) <= UINT32_MAX - 5
    ensures UpdateEntry4(PlainEntry(es)).Ok?
    ensures UpdateEntry4(PlainEntry(es)).value.entrySize ==
              FullPlusPrefix(Wrap(4 + ElementSizes(UpdateElements4(es).value)))
  {
    hide UpdateElements4, ElementSizes, Wrap, PrepareEntry4, EntryOwnSize;
    var us := UpdateElements4(es).value;
    PlainEntryPrepared(es);
    PlainEntryOwnSize(us);
    assert EntryBodySize(PlainEntry(es).(elements := us)) == 4 + ElementSizes(us);
    SizePlusUintXIsLeast(Wrap(4 + ElementSizes(us)));
  }

  lemma PlainEntryPrepared(es: seq<MessageElement>)
    ensures PrepareEntry4(PlainEntry(es)) == Ok(PlainEntry(es))
  {
    assert SetBit(NO_FLAGS, REQUEST_ID, false) == NO_FLAGS && SetBit(NO_FLAGS, ERROR, false) == NO_FLAGS;
    assert SetBit(NO_FLAGS, ENTRY_META_INFO, false) == NO_FLAGS && SetBit(NO_FLAGS, EXTENDED, false) == NO_FLAGS;
  }

  lemma PlainEntryOwnSize(es: seq<MessageElement>)
    requires |es| <= 252
    ensures EntryOwnSize(PlainEntry(es)) == 4
  {
  }

  lemma PlainMessage(e: MessageEntry)
    requires UpdateEntry4(e).Ok?
    ensures var m := Message(PLAIN_HEADER, [e]);
            && UpdateMessage4(m).Ok?
            && UpdateMessage4(m).value.entries == [UpdateEntry4(e).value]
            && UpdateMessage4(m).value.header.messageSize == Wrap(UpdateEntry4(e).value.entrySize + 12)
  {
    hide UpdateEntry4;
    var u := UpdateEntry4(e).value;
    assert [e][1..] == [] && [u] + [] == [u];
    assert UpdateEntries4([e]) == Ok([u]);
    assert EntrySizes([u]) == u.entrySize + EntrySizes([u][1..]) == u.entrySize;
    WrapSmall(11);
  }

  lemma OneElement(el: MessageElement)
    requires UpdateElement4(el).Ok?
    ensures UpdateElements4([el]).Ok?
              && ElementSizes(UpdateElements4([el]).value) == UpdateElement4(el).value.elementSize
  {
    hide UpdateElement4;
    var u := UpdateElement4(el).value;
    assert [el][1..] == [] && [u] + [] == [u] && [u][1..] == [];
  }

  lemma TwoElements(el: MessageElement)
    requires UpdateElement4(el).Ok?
    ensures UpdateElements4([el, el]).Ok?
              && ElementSizes(UpdateElements4([el, el]).value) == 2 * UpdateElement4(el).value.elementSize
  {
    hide UpdateElement4;
    OneElement(el);
    var u, us := UpdateElement4(el).value, UpdateElements4([el]).value;
    assert [el, el][1..] == [el] && ([u] + us)[1..] == us;
  }

  /** Entries that just fit 32 bits, and a header: the message size is 11. */
  lemma MessageSizeWraps()
    ensures var m := Message(PLAIN_HEADER, [PlainEntry([BytesElement(UINT32_MAX - 22)])]);
            UpdateMessage4(m).Ok? && UpdateMessage4(m).value.header.messageSize == 11
                && !Consistent(UpdateMessage4(m).value)
  {
    hide UpdateElement4, UpdateEntry4, UpdateMessage4, Consistent, UpdateElements4, ElementSizes, FullMessage;
    var el := BytesElement(UINT32_MAX - 22);
    BytesElementSize(UINT32_MAX - 22);
    OneElement(el);
    WrapSmall(UINT32_MAX - 5);
    PlainEntrySize([el]);
    PlainMessage(PlainEntry([el]));
    var m := Message(PLAIN_HEADER, [PlainEntry([el])]);
    SmallerThanItsContent(m, el);
  }

  /** Two elements that share an array of 2 GiB: the entry size is 31 and the message size 43. */
  lemma EntrySizeWraps()
    ensures var el := BytesElement(0x8000_0000);
            var m := Message(PLAIN_HEADER, [PlainEntry([el, el])]);
            && UpdateMessage4(m).Ok? && UpdateMessage4(m).value.entries[0].entrySize == 31
            && UpdateMessage4(m).value.header.messageSize == 43 && !Consistent(UpdateMessage4(m).value)
  {
    hide UpdateElement4, UpdateEntry4, UpdateMessage4, Consistent, UpdateElements4, ElementSizes, FullMessage;
    var el := BytesElement(0x8000_0000);
    BytesElementSize(0x8000_0000);
    TwoElements(el);
    assert Wrap(4 + 2 * (0x8000_0000 + 13)) == 30;
    PlainEntrySize([el, el]);
    PlainMessage(PlainEntry([el, el]));
    WrapSmall(43);
    SmallerThanItsContent(Message(PLAIN_HEADER, [PlainEntry([el, el])]), el);
  }

  /** A size below that of an element of the message is not the size of the message. */
  lemma SmallerThanItsContent(m: Message, el: MessageElement)
    requires UpdateMessage4(m).Ok? && |m.entries| == 1 && el in m.entries[0].elements
    requires UpdateMessage4(m).value.header.messageSize < FullElement(el)
    ensures !Consistent(UpdateMessage4(m).value)
  {
    hide UpdateMessage4, Consistent, FullElement, HeaderBytes, EntryBytes;
    ComputedSizeIsExact(m);
    PartOfElements(m.entries[0].elements, el);
    PlusPrefixIsMore(EntryBytes(m.entries[0]) + FullElements(m.entries[0].elements));
    assert m.entries[1..] == [];
    assert FullMessage(m) >= FullElement(el);
  }

  lemma {:induction false} PartOfElements(es: seq<MessageElement>, el: MessageElement)
    requires el in es
    ensures FullElements(es) >= FullElement(el)
  {
    hide FullElement;
    if el != es[0] {
      PartOfElements(es[1..], el);
    }
  }
}
