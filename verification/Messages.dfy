/** Messages and their version 4 sizes and flags (ComputeSize4, UpdateData4, UpdateHeader4). */
module Messages {
  import opened Numbers
  import opened Results

  type Bytes = seq<byte>
  type Flags = f: seq<bool> | |f| == 8 witness seq(8, _ => false)
  type NodeID = b: Bytes | |b| == 16 witness seq(16, _ => 0)

  // ---------------------------------------------------------------- data types

  const VOID_T: uint16 := 0

  predicate IsArrayType(t: uint16) { 1 <= t <= 14 }

  predicate IsNestedType(t: uint16)
  {
    101 <= t <= 103 || 108 <= t <= 111 || 115 <= t <= 117
  }

  function RRArrayElementSize(t: uint16): (n: nat)
    requires IsArrayType(t)
    ensures 1 <= n <= 16
  {
    match t
    case 1 => 8 case 2 => 4
    case 3 => 1 case 4 => 1
    case 5 => 2 case 6 => 2
    case 7 => 4 case 8 => 4
    case 9 => 8 case 10 => 8
    case 11 => 1
    case 12 => 16 case 13 => 8
    case 14 => 1
  }

  /** The memory of an RRArray of the given element type: always whole elements. */
  datatype ArrayMemory = ArrayMemory(dataType: uint16, memory: Bytes)
  type RRArray = a: ArrayMemory
    | IsArrayType(a.dataType) && |a.memory| % RRArrayElementSize(a.dataType) == 0
    witness ArrayMemory(4, [])

  // ---------------------------------------------------------------- the message tree

  datatype ElementContent =
    | NoData
    | ArrayData(items: RRArray)
    | NestedData(dataType: uint16, typeName: Bytes, elements: seq<MessageElement>)

  datatype MessageElement = MessageElement(
    elementSize: uint32,
    elementFlags: Flags,
    elementName: Bytes,
    elementNameCode: uint32,
    elementNumber: int32,
    elementType: uint16,
    elementTypeName: Bytes,
    elementTypeNameCode: uint32,
    metaData: Bytes,
    extended: Bytes,
    dataCount: uint32,
    data: ElementContent)

  datatype MessageEntry = MessageEntry(
    entrySize: uint32,
    entryFlags: Flags,
    entryType: uint16,
    servicePath: Bytes,
    servicePathCode: uint32,
    memberName: Bytes,
    memberNameCode: uint32,
    requestID: uint32,
    error: uint16,
    metaData: Bytes,
    extended: Bytes,
    elements: seq<MessageElement>)

  datatype TableEntry = TableEntry(code: uint32, text: Bytes)

  datatype MessageHeader = MessageHeader(
    headerSize: uint32,
    messageFlags: Flags,
    senderNodeID: NodeID,
    receiverNodeID: NodeID,
    senderNodeName: Bytes,
    receiverNodeName: Bytes,
    senderEndpoint: uint32,
    receiverEndpoint: uint32,
    priority: uint16,
    metaData: Bytes,
    messageID: uint16,
    messageResID: uint16,
    stringTable: seq<TableEntry>,
    entryCount: uint16,
    extended: Bytes,
    messageSize: uint32)

  datatype Message = Message(header: MessageHeader, entries: seq<MessageEntry>)

  // ---------------------------------------------------------------- flags

  // Flags are named by bit position: bit k is the mask 1 << k of the constants header.
  // message header
  const ROUTING_INFO := 0
  const ENDPOINT_INFO := 1
  const PRIORITY := 2
  const HEADER_META_INFO := 4
  const STRING_TABLE := 5
  const MULTIPLE_ENTRIES := 6
  // message entry
  const SERVICE_PATH_STR := 0
  const SERVICE_PATH_CODE := 1
  const MEMBER_NAME_STR := 2
  const MEMBER_NAME_CODE := 3
  const REQUEST_ID := 4
  const ERROR := 5
  const ENTRY_META_INFO := 6
  // message element
  const ELEMENT_NAME_STR := 0
  const ELEMENT_NAME_CODE := 1
  const ELEMENT_NUMBER := 2
  const ELEMENT_TYPE_NAME_STR := 3
  const ELEMENT_TYPE_NAME_CODE := 4
  const ELEMENT_META_INFO := 5
  // all three
  const EXTENDED := 7

  predicate Has(flags: Flags, bit: nat)
    requires bit < 8
  {
    flags[bit]
  }

  /** `flags |= mask` when on, `flags &= ~mask` when off. */
  function SetBit(flags: Flags, bit: nat, on: bool): Flags
    requires bit < 8
  {
    flags[bit := on]
  }

  function BitsValue(bits: seq<bool>): nat
  {
    if bits == [] then 0 else (if bits[0] then 1 else 0) + 2 * BitsValue(bits[1..])
  }

  function ValueBits(v: nat, n: nat): (bits: seq<bool>)
    ensures |bits| == n
  {
    if n == 0 then [] else [v % 2 == 1] + ValueBits(v / 2, n - 1)
  }

  function FlagByte(flags: Flags): byte
  {
    BitsBound(flags);
    BitsValue(flags)
  }

  function ByteFlags(b: byte): Flags { ValueBits(b, 8) }

  function Pow2(n: nat): (p: nat)
    ensures p > 0
  {
    if n == 0 then 1 else 2 * Pow2(n - 1)
  }

  lemma {:induction false} BitsBound(bits: seq<bool>)
    ensures BitsValue(bits) < Pow2(|bits|)
    ensures |bits| == 8 ==> Pow2(|bits|) == 256
  {
    if bits != [] {
      BitsBound(bits[1..]);
    }
    assert Pow2(4) == 16;
  }

  lemma {:induction false} BitsRoundTrip(bits: seq<bool>)
    ensures ValueBits(BitsValue(bits), |bits|) == bits
  {
    if bits != [] {
      BitsRoundTrip(bits[1..]);
      assert bits == [bits[0]] + bits[1..];
    }
  }

  /** The flags byte on the wire determines the flags. */
  lemma FlagBytes(flags: Flags)
    ensures ByteFlags(FlagByte(flags)) == flags
  {
    BitsRoundTrip(flags);
  }

  // ---------------------------------------------------------------- sizes and flags

  /** GetStringByteCount8WithXLen refuses longer strings. */
  predicate TooLong(s: Bytes) { |s| >= UINT32_MAX - 5 }

  function CountedSize(s: Bytes): nat { UintXByteCount(|s|) + |s| }

  function SizeWhen(on: bool, n: nat): nat { if on then n else 0 }

  function TypeOf(data: ElementContent): uint16
  {
    match data
    case NoData => VOID_T
    case ArrayData(a) => a.dataType
    case NestedData(t, _, _) => t
  }

  function Cast32(n: nat): Result<uint32>
  {
    if n > UINT32_MAX then Err(NumericCastError) else Ok(n)
  }

  function Cast16(n: nat): Result<uint16>
  {
    if n > UINT16_MAX then Err(NumericCastError) else Ok(n)
  }

  /** MessageElement::UpdateData4: type, count, type name and the computed flags follow from the
    * content; the sender chooses only the name and number flags. */
  function PrepareElement4(el: MessageElement): Result<MessageElement>
  {
    var t := TypeOf(el.data);
    if el.data.NestedData? && !IsNestedType(t) then Err(DataTypeError)
    else
      var count :- Cast32(match el.data
                          case NoData => 0
                          case ArrayData(a) => |a.memory| / RRArrayElementSize(t)
                          case NestedData(_, _, es) => |es|);
      var typeName :=
        if el.data.NestedData? && !Has(el.elementFlags, ELEMENT_TYPE_NAME_CODE) then el.data.typeName else [];
      if (Has(el.elementFlags, ELEMENT_NAME_STR) || Has(el.elementFlags, ELEMENT_NAME_CODE))
         && Has(el.elementFlags, ELEMENT_NUMBER) then
        Err(ProtocolError)
      else
        var flags := SetBit(SetBit(SetBit(el.elementFlags,
                     ELEMENT_TYPE_NAME_STR, |typeName| > 0),
                     ELEMENT_META_INFO, |el.metaData| > 0),
                     EXTENDED, |el.extended| > 0);
        if (Has(flags, ELEMENT_NAME_STR) && TooLong(el.elementName)) || TooLong(typeName) || TooLong(el.metaData) then
          Err(InvalidArgument)
        else
          Ok(el.(elementFlags := flags, elementType := t, elementTypeName := typeName, dataCount := count))
  }

  /** MessageElement::UpdateData4 with its ComputeSize4, which updates the nested elements. */
  function UpdateElement4(el: MessageElement): (r: Result<MessageElement>)
    decreases el, 1
  {
    var p :- PrepareElement4(el);
    var data :- UpdateContent4(el.data);
    var u := p.(data := data);
    var size :- SizePlusUintX(Wrap(ElementBodySize(u)));
    SizePlusUintXIsLeast(Wrap(ElementBodySize(u)));
    Ok(u.(elementSize := size))
  }

  /** ComputeSize4 before the element's own size field is added; the source adds up in size_t. */
  function ElementBodySize(el: MessageElement): nat
  {
    ElementOwnSize(el) + ContentSize(el.data)
  }

  function ElementOwnSize(el: MessageElement): nat
  {
    3
    + SizeWhen(Has(el.elementFlags, ELEMENT_NAME_STR), CountedSize(el.elementName))
    + SizeWhen(Has(el.elementFlags, ELEMENT_NAME_CODE), UintXByteCount(el.elementNameCode))
    + SizeWhen(Has(el.elementFlags, ELEMENT_NUMBER), IntXByteCount(el.elementNumber))
    + SizeWhen(Has(el.elementFlags, ELEMENT_TYPE_NAME_STR), CountedSize(el.elementTypeName))
    + SizeWhen(Has(el.elementFlags, ELEMENT_TYPE_NAME_CODE), UintXByteCount(el.elementTypeNameCode))
    + SizeWhen(Has(el.elementFlags, ELEMENT_META_INFO), CountedSize(el.metaData))
    + SizeWhen(Has(el.elementFlags, EXTENDED), UintXByteCount(|el.extended|))
        + SizeWhen(Has(el.elementFlags, EXTENDED), |el.extended|)
    + UintXByteCount(el.dataCount)
  }

  function UpdateContent4(data: ElementContent): Result<ElementContent>
    decreases data, 0
  {
    match data
    case NoData => Ok(data)
    case ArrayData(_) => Ok(data)
    case NestedData(t, n, es) => var us :- UpdateElements4(es); Ok(NestedData(t, n, us))
  }

  function UpdateElements4(es: seq<MessageElement>): (r: Result<seq<MessageElement>>)
    ensures r.Ok? ==> |r.value| == |es|
    decreases es, 0
  {
    if es == [] then Ok([])
    else
      var u :- UpdateElement4(es[0]);
      var us :- UpdateElements4(es[1..]);
      Ok([u] + us)
  }

  function ContentSize(data: ElementContent): nat
  {
    match data
    case NoData => 0
    case ArrayData(a) => |a.memory|
    case NestedData(_, _, es) => ElementSizes(es)
  }

  function ElementSizes(es: seq<MessageElement>): nat
  {
    if es == [] then 0 else es[0].elementSize + ElementSizes(es[1..])
  }

  /** MessageEntry::UpdateData4: the computed flags. */
  function PrepareEntry4(e: MessageEntry): Result<MessageEntry>
  {
    var flags := SetBit(SetBit(SetBit(SetBit(e.entryFlags,
                 REQUEST_ID, e.requestID != 0),
                 ERROR, e.error != 0),
                 ENTRY_META_INFO, |e.metaData| > 0),
                 EXTENDED, |e.extended| > 0);
    if (Has(flags, SERVICE_PATH_STR) && TooLong(e.servicePath))
       || (Has(flags, MEMBER_NAME_STR) && TooLong(e.memberName)) || TooLong(e.metaData) then
      Err(InvalidArgument)
    else
      Ok(e.(entryFlags := flags))
  }

  /** MessageEntry::UpdateData4 with its ComputeSize4. */
  function UpdateEntry4(e: MessageEntry): Result<MessageEntry>
  {
    var p :- PrepareEntry4(e);
    var elements :- UpdateElements4(e.elements);
    var u := p.(elements := elements);
    var size :- SizePlusUintX(Wrap(EntryBodySize(u)));
    SizePlusUintXIsLeast(Wrap(EntryBodySize(u)));
    Ok(u.(entrySize := size))
  }

  function EntryBodySize(e: MessageEntry): nat
  {
    EntryOwnSize(e) + ElementSizes(e.elements)
  }

  function EntryOwnSize(e: MessageEntry): nat
  {
    3
    + SizeWhen(Has(e.entryFlags, SERVICE_PATH_STR), CountedSize(e.servicePath))
    + SizeWhen(Has(e.entryFlags, SERVICE_PATH_CODE), UintXByteCount(e.servicePathCode))
    + SizeWhen(Has(e.entryFlags, MEMBER_NAME_STR), CountedSize(e.memberName))
    + SizeWhen(Has(e.entryFlags, MEMBER_NAME_CODE), UintXByteCount(e.memberNameCode))
    + SizeWhen(Has(e.entryFlags, REQUEST_ID), UintXByteCount(e.requestID))
    + SizeWhen(Has(e.entryFlags, ERROR), 2)
    + SizeWhen(Has(e.entryFlags, ENTRY_META_INFO), CountedSize(e.metaData))
    + SizeWhen(Has(e.entryFlags, EXTENDED), UintXByteCount(|e.extended|))
        + SizeWhen(Has(e.entryFlags, EXTENDED), |e.extended|)
    + UintXByteCount(|e.elements|)
  }

  function UpdateEntries4(es: seq<MessageEntry>): (r: Result<seq<MessageEntry>>)
    ensures r.Ok? ==> |r.value| == |es|
  {
    if es == [] then Ok([])
    else
      var u :- UpdateEntry4(es[0]);
      var us :- UpdateEntries4(es[1..]);
      Ok([u] + us)
  }

  function EntrySizes(es: seq<MessageEntry>): nat
  {
    if es == [] then 0 else es[0].entrySize + EntrySizes(es[1..])
  }

  function TableSize(table: seq<TableEntry>): nat
  {
    if table == [] then 0
    else UintXByteCount(table[0].code) + CountedSize(table[0].text) + TableSize(table[1..])
  }

  /** MessageHeader::ComputeSize4. */
  function HeaderSize4(h: MessageHeader): Result<nat>
  {
    if Has(h.messageFlags, ROUTING_INFO) && (TooLong(h.senderNodeName) || TooLong(h.receiverNodeName)) then
      Err(InvalidArgument)
    else if Has(h.messageFlags, HEADER_META_INFO) && TooLong(h.metaData) then
      Err(InvalidArgument)
    else if Has(h.messageFlags, STRING_TABLE)
        && exists i | 0 <= i < |h.stringTable| :: TooLong(h.stringTable[i].text) then
      Err(InvalidArgument)
    else if Has(h.messageFlags, STRING_TABLE) && Wrap(TableSize(h.stringTable)) > 1024 then
      Err(ProtocolError)
    else
      SizePlusUintX(Wrap(HeaderBodySize(h)))
  }

  function HeaderBodySize(h: MessageHeader): nat
  {
    11
    + SizeWhen(Has(h.messageFlags, ROUTING_INFO), 16) + SizeWhen(Has(h.messageFlags, ROUTING_INFO), 16)
    + SizeWhen(Has(h.messageFlags, ROUTING_INFO), CountedSize(h.senderNodeName))
    + SizeWhen(Has(h.messageFlags, ROUTING_INFO), CountedSize(h.receiverNodeName))
    + SizeWhen(Has(h.messageFlags, ENDPOINT_INFO), UintXByteCount(h.senderEndpoint))
    + SizeWhen(Has(h.messageFlags, ENDPOINT_INFO), UintXByteCount(h.receiverEndpoint))
    + SizeWhen(Has(h.messageFlags, PRIORITY), 2)
    + SizeWhen(Has(h.messageFlags, HEADER_META_INFO), CountedSize(h.metaData))
    + SizeWhen(Has(h.messageFlags, HEADER_META_INFO), 2) + SizeWhen(Has(h.messageFlags, HEADER_META_INFO), 2)
    + SizeWhen(Has(h.messageFlags, STRING_TABLE), TableSize(h.stringTable))
    + SizeWhen(Has(h.messageFlags, STRING_TABLE), UintXByteCount(|h.stringTable|))
    + SizeWhen(Has(h.messageFlags, MULTIPLE_ENTRIES), UintXByteCount(h.entryCount))
    + SizeWhen(Has(h.messageFlags, EXTENDED), UintXByteCount(|h.extended|))
        + SizeWhen(Has(h.messageFlags, EXTENDED), |h.extended|)
  }

  /** MessageHeader::UpdateHeader4: the computed flags. */
  function PrepareHeader4(h: MessageHeader, entryCount: uint16): MessageHeader
  {
    var flags := SetBit(SetBit(SetBit(h.messageFlags,
                 MULTIPLE_ENTRIES, entryCount != 1),
                 HEADER_META_INFO, !(|h.metaData| == 0 && h.messageID == 0 && h.messageResID == 0)),
                 EXTENDED, |h.extended| > 0);
    h.(messageFlags := flags, entryCount := entryCount)
  }

  /** MessageHeader::UpdateHeader4; the sum of the sizes is taken in 32 bits. */
  function UpdateHeader4(h: MessageHeader, messageEntrySize: uint32, entryCount: uint16): Result<MessageHeader>
  {
    var p := PrepareHeader4(h, entryCount);
    var size :- HeaderSize4(p);
    var size32 :- Cast32(size);
    Ok(p.(headerSize := size32, messageSize := Wrap(messageEntrySize + size32)))
  }

  /** Message::ComputeSize4. */
  function UpdateMessage4(m: Message): Result<Message>
  {
    var entryCount :- Cast16(|m.entries|);
    var entries :- UpdateEntries4(m.entries);
    var s := EntrySizes(entries);
    if s > UINT32_MAX then Err(ProtocolError)
    else
      var header :- UpdateHeader4(m.header, s, entryCount);
      Ok(Message(header, entries))
  }

  // ---------------------------------------------------------------- sizes in full

  /** What GetSizePlusUintX is to compute, in unbounded arithmetic. */
  function FullPlusPrefix(s: nat): nat
  {
    if s <= 251 then s + 1 else if s <= UINT16_MAX - 3 then s + 3 else s + 5
  }

  function BlockSize(b: Bytes): nat { if |b| > 0 then UintXByteCount(|b|) + |b| else 0 }

  function ItemCount(data: ElementContent): nat
  {
    match data
    case NoData => 0
    case ArrayData(a) => |a.memory| / RRArrayElementSize(a.dataType)
    case NestedData(_, _, es) => |es|
  }

  /** The type name that goes out with an element. */
  function TypeNameOf(el: MessageElement): Bytes
  {
    if el.data.NestedData? && !Has(el.elementFlags, ELEMENT_TYPE_NAME_CODE) then el.data.typeName else []
  }

  /** The bytes of an element as the sender has set it, without its size and its content. */
  function ElementBytes(el: MessageElement): nat
  {
    3
    + SizeWhen(Has(el.elementFlags, ELEMENT_NAME_STR), CountedSize(el.elementName))
    + SizeWhen(Has(el.elementFlags, ELEMENT_NAME_CODE), UintXByteCount(el.elementNameCode))
    + SizeWhen(Has(el.elementFlags, ELEMENT_NUMBER), IntXByteCount(el.elementNumber))
    + BlockSize(TypeNameOf(el))
    + SizeWhen(Has(el.elementFlags, ELEMENT_TYPE_NAME_CODE), UintXByteCount(el.elementTypeNameCode))
    + BlockSize(el.metaData) + BlockSize(el.extended)
    + UintXByteCount(ItemCount(el.data))
  }

  /** The bytes of an entry, without its size and its elements. */
  function EntryBytes(e: MessageEntry): nat
  {
    3
    + SizeWhen(Has(e.entryFlags, SERVICE_PATH_STR), CountedSize(e.servicePath))
    + SizeWhen(Has(e.entryFlags, SERVICE_PATH_CODE), UintXByteCount(e.servicePathCode))
    + SizeWhen(Has(e.entryFlags, MEMBER_NAME_STR), CountedSize(e.memberName))
    + SizeWhen(Has(e.entryFlags, MEMBER_NAME_CODE), UintXByteCount(e.memberNameCode))
    + SizeWhen(e.requestID != 0, UintXByteCount(e.requestID)) + SizeWhen(e.error != 0, 2)
    + BlockSize(e.metaData) + BlockSize(e.extended)
    + UintXByteCount(|e.elements|)
  }

  predicate HasMetaInfo(h: MessageHeader) { |h.metaData| > 0 || h.messageID != 0 || h.messageResID != 0 }

  /** The bytes of a header, without its size, for so many entries. */
  function HeaderBytes(h: MessageHeader, entryCount: nat): nat
  {
    11
    + SizeWhen(Has(h.messageFlags, ROUTING_INFO), 32 + CountedSize(h.senderNodeName) + CountedSize(h.receiverNodeName))
    + SizeWhen(Has(h.messageFlags, ENDPOINT_INFO),
               UintXByteCount(h.senderEndpoint) + UintXByteCount(h.receiverEndpoint))
    + SizeWhen(Has(h.messageFlags, PRIORITY), 2)
    + SizeWhen(HasMetaInfo(h), CountedSize(h.metaData) + 4)
    + SizeWhen(Has(h.messageFlags, STRING_TABLE), TableSize(h.stringTable) + UintXByteCount(|h.stringTable|))
    + SizeWhen(entryCount != 1, UintXByteCount(entryCount))
    + BlockSize(h.extended)
  }

  /** The size an element takes with all that is nested in it, whatever 32 bits hold. */
  function FullElement(el: MessageElement): nat
    decreases el, 1
  {
    FullPlusPrefix(ElementBytes(el) + FullContent(el.data))
  }

  function FullContent(data: ElementContent): nat
    decreases data, 0
  {
    match data
    case NoData => 0
    case ArrayData(a) => |a.memory|
    case NestedData(_, _, es) => FullElements(es)
  }

  function FullElements(es: seq<MessageElement>): nat
    decreases es, 0
  {
    if es == [] then 0 else FullElement(es[0]) + FullElements(es[1..])
  }

  function FullEntry(e: MessageEntry): nat { FullPlusPrefix(EntryBytes(e) + FullElements(e.elements)) }

  function FullEntries(es: seq<MessageEntry>): nat
  {
    if es == [] then 0 else FullEntry(es[0]) + FullEntries(es[1..])
  }

  function FullMessage(m: Message): nat
  {
    FullPlusPrefix(HeaderBytes(m.header, |m.entries|)) + FullEntries(m.entries)
  }
}
