/** Which messages can be sized: when ComputeSize4 and UpdateData4 throw nothing. */
module Sizable {
  import opened Numbers
  import opened Results
  import opened Messages
  import opened Layout
  import opened Sizes

  // ---------------------------------------------------------------- any message

  predicate ShortText(s: Bytes) { |s| < 0xFFFF_FFFA }

  /** A size before its own prefix, summed up in 32 bits. */
  predicate ShortBody(body: nat) { body % 0x1_0000_0000 <= 0xFFFF_FFFA }

  /** Structures, int32 maps, string maps, lists, and the types of pods and named arrays. */
  predicate NestsElements(t: uint16)
  {
    t == 101 || t == 102 || t == 103 || t == 108 || t == 109 || t == 110 || t == 111 || t == 115 || t == 116 || t == 117
  }

  /** Not both a name and a number. */
  predicate OneMark(el: MessageElement)
  {
    !Has(el.elementFlags, ELEMENT_NUMBER)
    || (!Has(el.elementFlags, ELEMENT_NAME_STR) && !Has(el.elementFlags, ELEMENT_NAME_CODE))
  }

  predicate SizableElement(el: MessageElement)
    decreases el, 1
  {
    && OneMark(el)
    && (Has(el.elementFlags, ELEMENT_NAME_STR) ==> ShortText(el.elementName))
    && ShortText(TypeNameOf(el)) && ShortText(el.metaData)
    && ItemCount(el.data) <= 0xFFFF_FFFF
    && (el.data.NestedData? ==> NestsElements(el.data.dataType) && AllSizable(el.data.elements))
    && ShortBody(ElementBytes(el) + StoredContent(el.data))
  }

  predicate AllSizable(es: seq<MessageElement>)
    decreases es, 0
  {
    es == [] || (SizableElement(es[0]) && AllSizable(es[1..]))
  }

  /** The size that is stored, where a sum has wrapped or not. */
  function StoredElement(el: MessageElement): nat
    decreases el, 1
  {
    FullPlusPrefix((ElementBytes(el) + StoredContent(el.data)) % 0x1_0000_0000)
  }

  function StoredContent(data: ElementContent): nat
    decreases data, 0
  {
    match data
    case NoData => 0
    case ArrayData(a) => |a.memory|
    case NestedData(_, _, es) => StoredElements(es)
  }

  function StoredElements(es: seq<MessageElement>): nat
    decreases es, 0
  {
    if es == [] then 0 else StoredElement(es[0]) + StoredElements(es[1..])
  }

  predicate SizableEntry(e: MessageEntry)
  {
    && (Has(e.entryFlags, SERVICE_PATH_STR) ==> ShortText(e.servicePath))
    && (Has(e.entryFlags, MEMBER_NAME_STR) ==> ShortText(e.memberName))
    && ShortText(e.metaData)
    && AllSizable(e.elements)
    && ShortBody(EntryBytes(e) + StoredElements(e.elements))
  }

  predicate AllEntriesSizable(es: seq<MessageEntry>)
  {
    es == [] || (SizableEntry(es[0]) && AllEntriesSizable(es[1..]))
  }

  function StoredEntries(es: seq<MessageEntry>): nat
  {
    if es == [] then 0
    else FullPlusPrefix((EntryBytes(es[0]) + StoredElements(es[0].elements)) % 0x1_0000_0000) + StoredEntries(es[1..])
  }

  predicate SizableHeader(h: MessageHeader, entryCount: nat)
  {
    && (Has(h.messageFlags, ROUTING_INFO) ==> ShortText(h.senderNodeName) && ShortText(h.receiverNodeName))
    && ShortText(h.metaData)
    && (Has(h.messageFlags, STRING_TABLE) ==>
          (forall e | e in h.stringTable :: ShortText(e.text)) && TableSize(h.stringTable) % 0x1_0000_0000 <= 1024)
    && ShortBody(HeaderBytes(h, entryCount))
  }

  predicate SizableMessage(m: Message)
  {
    && |m.entries| <= 0xFFFF
    && AllEntriesSizable(m.entries) && StoredEntries(m.entries) <= 0xFFFF_FFFF
    && SizableHeader(m.header, |m.entries|)
  }

  /** A size with its prefix, when there is one. */
  lemma SizedBody(body: nat)
    ensures SizePlusUintX(Wrap(body)).Ok? <==> ShortBody(body)
    ensures ShortBody(body) ==> SizePlusUintX(Wrap(body)) == Ok(FullPlusPrefix(body % 0x1_0000_0000))
  {
  }

  lemma PreparedWhen(el: MessageElement)
    ensures PrepareElement4(el).Ok? <==>
            && OneMark(el)
            && (Has(el.elementFlags, ELEMENT_NAME_STR) ==> ShortText(el.elementName))
            && ShortText(TypeNameOf(el)) && ShortText(el.metaData)
            && ItemCount(el.data) <= 0xFFFF_FFFF
            && (el.data.NestedData? ==> NestsElements(el.data.dataType))
  {
  }

  lemma {:induction false} SizedElement(el: MessageElement)
    ensures UpdateElement4(el).Ok? <==> SizableElement(el)
    ensures UpdateElement4(el).Ok? ==> UpdateElement4(el).value.elementSize == StoredElement(el)
    decreases el, 1
  {
    hide PrepareElement4, ElementOwnSize, ElementBytes, SizePlusUintX, ShortBody, ShortText, NestsElements, OneMark,
         FullPlusPrefix, UpdateElements4, ElementSizes, StoredElements, AllSizable, TypeNameOf, ItemCount, Wrap;
    PreparedWhen(el);
    if el.data.NestedData? { SizedElements(el.data.elements); }
    SizedBody(ElementBytes(el) + StoredContent(el.data));
    if PrepareElement4(el).Ok? && UpdateContent4(el.data).Ok? {
      var p, data := PrepareElement4(el).value, UpdateContent4(el.data).value;
      PreparedElementSize(el);
      ElementOwnSizeOmits(p, data, 0);
      assert ElementBodySize(p.(data := data)) == ElementBytes(el) + StoredContent(el.data);
    }
  }

  lemma {:induction false} SizedElements(es: seq<MessageElement>)
    ensures UpdateElements4(es).Ok? <==> AllSizable(es)
    ensures UpdateElements4(es).Ok? ==> ElementSizes(UpdateElements4(es).value) == StoredElements(es)
    decreases es, 0
  {
    hide UpdateElement4, SizableElement, StoredElement;
    if es != [] {
      SizedElement(es[0]);
      SizedElements(es[1..]);
      if UpdateElements4(es).Ok? { assert UpdateElements4(es).value[1..] == UpdateElements4(es[1..]).value; }
    }
  }

  lemma PreparedEntryWhen(e: MessageEntry)
    ensures PrepareEntry4(e).Ok? <==>
            && (Has(e.entryFlags, SERVICE_PATH_STR) ==> ShortText(e.servicePath))
            && (Has(e.entryFlags, MEMBER_NAME_STR) ==> ShortText(e.memberName))
            && ShortText(e.metaData)
  {
  }

  lemma SizedEntry(e: MessageEntry)
    ensures UpdateEntry4(e).Ok? <==> SizableEntry(e)
    ensures UpdateEntry4(e).Ok? ==>
              UpdateEntry4(e).value.entrySize ==
              FullPlusPrefix((EntryBytes(e) + StoredElements(e.elements)) % 0x1_0000_0000)
  {
    hide PrepareEntry4, EntryOwnSize, EntryBytes, SizePlusUintX, ShortBody, ShortText, FullPlusPrefix, UpdateElements4,
         ElementSizes, StoredElements, AllSizable, Wrap;
    PreparedEntryWhen(e);
    SizedElements(e.elements);
    SizedBody(EntryBytes(e) + StoredElements(e.elements));
    if PrepareEntry4(e).Ok? && UpdateElements4(e.elements).Ok? {
      var p, us := PrepareEntry4(e).value, UpdateElements4(e.elements).value;
      PreparedEntry(e);
      PreparedEntrySize(e);
      EntryOwnSizeOmits(p, us, 0);
      assert EntryBodySize(p.(elements := us)) == EntryBytes(e) + StoredElements(e.elements);
    }
  }

  lemma {:induction false} SizedEntries(es: seq<MessageEntry>)
    ensures UpdateEntries4(es).Ok? <==> AllEntriesSizable(es)
    ensures UpdateEntries4(es).Ok? ==> EntrySizes(UpdateEntries4(es).value) == StoredEntries(es)
  {
    hide UpdateEntry4, SizableEntry, FullPlusPrefix, StoredElements, EntryBytes;
    if es != [] {
      SizedEntry(es[0]);
      SizedEntries(es[1..]);
      if UpdateEntries4(es).Ok? { assert UpdateEntries4(es).value[1..] == UpdateEntries4(es[1..]).value; }
    }
  }

  lemma SizedHeader(h: MessageHeader, s: uint32, entryCount: uint16)
    ensures UpdateHeader4(h, s, entryCount).Ok? <==> SizableHeader(h, entryCount)
  {
    hide HeaderBodySize, HeaderBytes, TableSize, ShortBody, SizePlusUintX, FullPlusPrefix;
    PreparedHeaderSize(h, entryCount);
    SizedBody(HeaderBytes(h, entryCount));
    if ShortBody(HeaderBytes(h, entryCount)) { PrefixFits(HeaderBytes(h, entryCount)); }
  }

  lemma PrefixFits(body: nat)
    requires ShortBody(body)
    ensures FullPlusPrefix(body % 0x1_0000_0000) <= UINT32_MAX
  {
  }

  /** A message can be sized if and only if its entries are no more than 65535, its texts no longer than
    * strings may be, no element in it has a name and a number or nests elements under a code that is
    * none of those for that, its string table takes no more than 1024 bytes, no size before its prefix
    * is among the last five of 32 bits, and the entries together stay within 32 bits. */
  lemma SizedMessage(m: Message)
    ensures UpdateMessage4(m).Ok? <==> SizableMessage(m)
  {
    hide UpdateEntries4, AllEntriesSizable, EntrySizes, StoredEntries, UpdateHeader4, SizableHeader;
    SizedEntries(m.entries);
    if |m.entries| <= 0xFFFF && AllEntriesSizable(m.entries) && StoredEntries(m.entries) <= 0xFFFF_FFFF {
      SizedHeader(m.header, StoredEntries(m.entries), |m.entries|);
    }
  }

  // ---------------------------------------------------------------- messages within 32 bits

  predicate WellMarked(el: MessageElement)
    decreases el, 1
  {
    OneMark(el) && (el.data.NestedData? ==> NestsElements(el.data.dataType) && AllWellMarked(el.data.elements))
  }

  predicate AllWellMarked(es: seq<MessageElement>)
    decreases es, 0
  {
    es == [] || (WellMarked(es[0]) && AllWellMarked(es[1..]))
  }

  predicate Describable(m: Message)
  {
    && |m.entries| <= 0xFFFF
    && (Has(m.header.messageFlags, STRING_TABLE) ==> TableSize(m.header.stringTable) <= 1024)
    && forall e | e in m.entries :: AllWellMarked(e.elements)
  }

  /** A body within 32 bits with its prefix is short and is stored as it is. */
  lemma FullBody(body: nat)
    requires FullPlusPrefix(body) <= UINT32_MAX
    ensures body <= 0xFFFF_FFFA && ShortBody(body) && body % 0x1_0000_0000 == body
  {
  }

  /** Whatever is counted is shorter than the whole. */
  lemma CountedIsShort(el: MessageElement)
    requires ElementBytes(el) + FullContent(el.data) <= 0xFFFF_FFFA
    ensures Has(el.elementFlags, ELEMENT_NAME_STR) ==> ShortText(el.elementName)
    ensures ShortText(TypeNameOf(el)) && ShortText(el.metaData) && ItemCount(el.data) <= 0xFFFF_FFFF
  {
    hide TypeNameOf, FullElements, UintXByteCount, IntXByteCount;
    match el.data
    case NoData =>
    case ArrayData(a) => FewerItems(|a.memory|, RRArrayElementSize(a.dataType));
    case NestedData(_, _, es) => FewerElements(es);
  }

  lemma FewerItems(n: nat, k: nat)
    requires k >= 1
    ensures n / k <= n
  {
    var q, r := n / k, n % k;
    assert n == q * k + r;
    NotLess(q, k);
  }

  lemma NotLess(q: nat, k: nat)
    requires k >= 1
    ensures q * k >= q
  {
    assert q * (k - 1) >= 0;
  }

  lemma {:induction false} FewerElements(es: seq<MessageElement>)
    ensures |es| <= FullElements(es)
  {
    hide FullElement;
    if es != [] {
      FewerElements(es[1..]);
      FullIsPositive(es[0]);
    }
  }

  lemma FullIsPositive(el: MessageElement)
    ensures FullElement(el) > 0
  {
    hide ElementBytes, FullContent;
  }

  lemma {:induction false} SizedElementWithin(el: MessageElement)
    requires FullElement(el) <= UINT32_MAX
    ensures SizableElement(el) <==> WellMarked(el)
    ensures StoredElement(el) == FullElement(el)
    decreases el, 1
  {
    hide ElementBytes, FullPlusPrefix, OneMark, NestsElements, ShortText, ShortBody, FullElements, StoredElements,
         AllSizable, AllWellMarked, TypeNameOf, ItemCount;
    var body := ElementBytes(el) + FullContent(el.data);
    FullBody(body);
    CountedIsShort(el);
    if el.data.NestedData? { SizedElementsWithin(el.data.elements); }
  }

  lemma {:induction false} SizedElementsWithin(es: seq<MessageElement>)
    requires FullElements(es) <= UINT32_MAX
    ensures AllSizable(es) <==> AllWellMarked(es)
    ensures StoredElements(es) == FullElements(es)
    decreases es, 0
  {
    hide FullElement, SizableElement, WellMarked, StoredElement;
    if es != [] {
      SizedElementWithin(es[0]);
      SizedElementsWithin(es[1..]);
    }
  }

  lemma SizedEntryWithin(e: MessageEntry)
    requires FullEntry(e) <= UINT32_MAX
    ensures SizableEntry(e) <==> AllWellMarked(e.elements)
    ensures FullPlusPrefix((EntryBytes(e) + StoredElements(e.elements)) % 0x1_0000_0000) == FullEntry(e)
  {
    var body := EntryBytes(e) + FullElements(e.elements);
    FullBody(body);
    assert (Has(e.entryFlags, SERVICE_PATH_STR) ==> ShortText(e.servicePath))
        && (Has(e.entryFlags, MEMBER_NAME_STR) ==> ShortText(e.memberName)) && ShortText(e.metaData) by {
      hide UintXByteCount, FullElements, FullPlusPrefix;
    }
    hide EntryBytes, FullPlusPrefix, ShortText, ShortBody, FullElements, StoredElements, AllSizable, AllWellMarked;
    SizedElementsWithin(e.elements);
  }

  lemma {:induction false} SizedEntriesWithin(es: seq<MessageEntry>)
    requires FullEntries(es) <= UINT32_MAX
    ensures AllEntriesSizable(es) <==> forall e | e in es :: AllWellMarked(e.elements)
    ensures StoredEntries(es) == FullEntries(es)
  {
    hide FullEntry, SizableEntry, AllWellMarked, FullPlusPrefix, EntryBytes, StoredElements;
    if es != [] {
      SizedEntryWithin(es[0]);
      SizedEntriesWithin(es[1..]);
      assert forall e :: e in es <==> e == es[0] || e in es[1..];
    }
  }

  lemma {:induction false} TableTexts(table: seq<TableEntry>)
    ensures forall e | e in table :: |e.text| <= TableSize(table)
  {
    hide UintXByteCount;
    if table != [] { TableTexts(table[1..]); }
  }

  lemma SizedHeaderWithin(h: MessageHeader, entryCount: nat)
    requires FullPlusPrefix(HeaderBytes(h, entryCount)) <= UINT32_MAX
    ensures SizableHeader(h, entryCount) <==>
              (Has(h.messageFlags, STRING_TABLE) ==> TableSize(h.stringTable) <= 1024)
  {
    FullBody(HeaderBytes(h, entryCount));
    hide UintXByteCount, TableSize, FullPlusPrefix, ShortBody;
    TableTexts(h.stringTable);
  }

  /** A message that in full stays within 32 bits can be sized if and only if it has no more than 65535
    * entries, a string table of no more than 1024 bytes where it has one, and at every depth no
    * element with both a name and a number, or with elements under a code that nests none. */
  lemma SizedWithin32Bits(m: Message)
    requires FullMessage(m) <= UINT32_MAX
    ensures UpdateMessage4(m).Ok? <==> Describable(m)
  {
    hide UpdateMessage4, FullPlusPrefix, HeaderBytes, FullEntries, AllEntriesSizable, StoredEntries, SizableHeader,
         AllWellMarked, TableSize;
    SizedMessage(m);
    SizedEntriesWithin(m.entries);
    SizedHeaderWithin(m.header, |m.entries|);
  }

  /** And then every size in it, down to the nested elements, is that of its bytes. */
  lemma DescribedExactly(m: Message)
    requires FullMessage(m) <= UINT32_MAX && Describable(m)
    ensures UpdateMessage4(m).Ok? && Consistent(UpdateMessage4(m).value)
    ensures |Encode(UpdateMessage4(m).value)| == FullMessage(m)
  {
    hide UpdateMessage4, FullMessage, Describable, Encode, ConsistentHeader, ConsistentEntries;
    SizedWithin32Bits(m);
    ComputedSizeIsExact(m);
  }
}
