/** What a reader makes of a message: the fields whose flags are set, the others at their
  * constructor's values. */
module Restriction {
  import opened Numbers
  import opened Messages
  import opened Layout

  const ZERO_ID: NodeID := [0, 0, 0, 0, 0, 0, 0, 0, 0, 0, 0, 0, 0, 0, 0, 0]

  // the Version2Compat flags of the constructors
  const HEADER_DEFAULT_FLAGS: Flags := [true, true, false, false, true, false, true, false]
  const ENTRY_DEFAULT_FLAGS: Flags := [true, false, true, false, true, true, true, false]
  const ELEMENT_DEFAULT_FLAGS: Flags := [true, false, false, true, false, true, false, false]

  const NEW_HEADER: MessageHeader :=
    MessageHeader(0, HEADER_DEFAULT_FLAGS, ZERO_ID, ZERO_ID, [], [], 0, 0, 0, [], 0, 0, [], 0, [], 0)
  const NEW_ENTRY: MessageEntry :=
    MessageEntry(0, ENTRY_DEFAULT_FLAGS, 0, [], 0, [], 0, 0, 0, [], [], [])
  const NEW_ELEMENT: MessageElement :=
    MessageElement(0, ELEMENT_DEFAULT_FLAGS, [], 0, 0, VOID_T, [], 0, [], [], 0, NoData)

  function Zeros(n: nat): (b: Bytes)
    ensures |b| == n
  {
    if n == 0 then [] else [0] + Zeros(n - 1)
  }

  /** g as it is after its fields 0..k-1 have been read, the string table apart. */
  function HeaderUpTo(g: MessageHeader, k: nat): MessageHeader
  {
    MessageHeader(
      headerSize := if k > 3 then g.headerSize else 0,
      messageFlags := if k > 4 then g.messageFlags else HEADER_DEFAULT_FLAGS,
      senderNodeID := if k > 5 && Has(g.messageFlags, ROUTING_INFO) then g.senderNodeID else ZERO_ID,
      receiverNodeID := if k > 6 && Has(g.messageFlags, ROUTING_INFO) then g.receiverNodeID else ZERO_ID,
      senderNodeName := if k > 7 && Has(g.messageFlags, ROUTING_INFO) then g.senderNodeName else [],
      receiverNodeName := if k > 8 && Has(g.messageFlags, ROUTING_INFO) then g.receiverNodeName else [],
      senderEndpoint := if k > 9 && Has(g.messageFlags, ENDPOINT_INFO) then g.senderEndpoint else 0,
      receiverEndpoint := if k > 10 && Has(g.messageFlags, ENDPOINT_INFO) then g.receiverEndpoint else 0,
      priority := if k > 11 && Has(g.messageFlags, PRIORITY) then g.priority else 0,
      metaData := if k > 12 && Has(g.messageFlags, HEADER_META_INFO) then g.metaData else [],
      messageID := if k > 13 && Has(g.messageFlags, HEADER_META_INFO) then g.messageID else 0,
      messageResID := if k > 14 && Has(g.messageFlags, HEADER_META_INFO) then g.messageResID else 0,
      stringTable := if k > 17 && Has(g.messageFlags, STRING_TABLE) then g.stringTable else [],
      entryCount := if k > 18 then g.entryCount else 0,
      extended := if k > 20 && Has(g.messageFlags, EXTENDED) then g.extended
                  else if k == 20 && Has(g.messageFlags, EXTENDED) then Zeros(|g.extended|) else [],
      messageSize := g.messageSize)
  }

  /** The fields before the elements. */
  function EntryUpTo(g: MessageEntry, k: nat): MessageEntry
  {
    MessageEntry(
      entrySize := if k > 0 then g.entrySize else 0,
      entryFlags := if k > 1 then g.entryFlags else ENTRY_DEFAULT_FLAGS,
      entryType := if k > 2 then g.entryType else 0,
      servicePath := if k > 3 && Has(g.entryFlags, SERVICE_PATH_STR) then g.servicePath else [],
      servicePathCode := if k > 4 && Has(g.entryFlags, SERVICE_PATH_CODE) then g.servicePathCode else 0,
      memberName := if k > 5 && Has(g.entryFlags, MEMBER_NAME_STR) then g.memberName else [],
      memberNameCode := if k > 6 && Has(g.entryFlags, MEMBER_NAME_CODE) then g.memberNameCode else 0,
      requestID := if k > 7 && Has(g.entryFlags, REQUEST_ID) then g.requestID else 0,
      error := if k > 8 && Has(g.entryFlags, ERROR) then g.error else 0,
      metaData := if k > 9 && Has(g.entryFlags, ENTRY_META_INFO) then g.metaData else [],
      extended := if k > 11 && Has(g.entryFlags, EXTENDED) then g.extended
                  else if k == 11 && Has(g.entryFlags, EXTENDED) then Zeros(|g.extended|) else [],
      elements := [])
  }

  /** The fields before the content. */
  function ElementUpTo(g: MessageElement, k: nat): MessageElement
  {
    MessageElement(
      elementSize := if k > 0 then g.elementSize else 0,
      elementFlags := if k > 1 then g.elementFlags else ELEMENT_DEFAULT_FLAGS,
      elementName := if k > 2 && Has(g.elementFlags, ELEMENT_NAME_STR) then g.elementName else [],
      elementNameCode := if k > 3 && Has(g.elementFlags, ELEMENT_NAME_CODE) then g.elementNameCode else 0,
      elementNumber := if k > 4 && Has(g.elementFlags, ELEMENT_NUMBER) then g.elementNumber else 0,
      elementType := if k > 5 then g.elementType else VOID_T,
      elementTypeName := if k > 6 && Has(g.elementFlags, ELEMENT_TYPE_NAME_STR) then g.elementTypeName else [],
      elementTypeNameCode := if k > 7 && Has(g.elementFlags, ELEMENT_TYPE_NAME_CODE) then g.elementTypeNameCode else 0,
      metaData := if k > 8 && Has(g.elementFlags, ELEMENT_META_INFO) then g.metaData else [],
      extended := if k > 10 && Has(g.elementFlags, EXTENDED) then g.extended
                  else if k == 10 && Has(g.elementFlags, EXTENDED) then Zeros(|g.extended|) else [],
      dataCount := if k > 11 then g.dataCount else 0,
      data := NoData)
  }

  // ---------------------------------------------------------------- one field further

  lemma HeaderUpToRouting(g: MessageHeader)
    ensures HeaderUpTo(g, 4) == HeaderUpTo(g, 3).(headerSize := g.headerSize)
    ensures HeaderUpTo(g, 5) == HeaderUpTo(g, 4).(messageFlags := g.messageFlags)
    ensures !Has(g.messageFlags, ROUTING_INFO) ==> HeaderUpTo(g, 9) == HeaderUpTo(g, 5)
    ensures Has(g.messageFlags, ROUTING_INFO) ==>
              && HeaderUpTo(g, 6) == HeaderUpTo(g, 5).(senderNodeID := g.senderNodeID)
              && HeaderUpTo(g, 7) == HeaderUpTo(g, 6).(receiverNodeID := g.receiverNodeID)
              && HeaderUpTo(g, 8) == HeaderUpTo(g, 7).(senderNodeName := g.senderNodeName)
              && HeaderUpTo(g, 9) == HeaderUpTo(g, 8).(receiverNodeName := g.receiverNodeName)
  {
  }

  lemma HeaderUpToMeta(g: MessageHeader)
    ensures !Has(g.messageFlags, ENDPOINT_INFO) ==> HeaderUpTo(g, 11) == HeaderUpTo(g, 9)
    ensures Has(g.messageFlags, ENDPOINT_INFO) ==>
              && HeaderUpTo(g, 10) == HeaderUpTo(g, 9).(senderEndpoint := g.senderEndpoint)
              && HeaderUpTo(g, 11) == HeaderUpTo(g, 10).(receiverEndpoint := g.receiverEndpoint)
    ensures HeaderUpTo(g, 12) == if Has(g.messageFlags, PRIORITY) then HeaderUpTo(g, 11).(priority := g.priority)
              else HeaderUpTo(g, 11)
    ensures !Has(g.messageFlags, HEADER_META_INFO) ==> HeaderUpTo(g, 15) == HeaderUpTo(g, 12)
    ensures Has(g.messageFlags, HEADER_META_INFO) ==>
              && HeaderUpTo(g, 13) == HeaderUpTo(g, 12).(metaData := g.metaData)
              && HeaderUpTo(g, 14) == HeaderUpTo(g, 13).(messageID := g.messageID)
              && HeaderUpTo(g, 15) == HeaderUpTo(g, 14).(messageResID := g.messageResID)
  {
  }

  lemma HeaderUpToEnd(g: MessageHeader)
    ensures HeaderUpTo(g, 16) == HeaderUpTo(g, 15) && HeaderUpTo(g, 15).stringTable == []
    ensures !Has(g.messageFlags, STRING_TABLE) ==> HeaderUpTo(g, 18) == HeaderUpTo(g, 15)
    ensures Has(g.messageFlags, STRING_TABLE) ==> HeaderUpTo(g, 18) == HeaderUpTo(g, 16).(stringTable := g.stringTable)
    ensures HeaderUpTo(g, 19) == HeaderUpTo(g, 18).(entryCount := g.entryCount)
    ensures !Has(g.messageFlags, EXTENDED) ==> HeaderUpTo(g, HEADER_FIELDS) == HeaderUpTo(g, 19)
    ensures Has(g.messageFlags, EXTENDED) ==>
              && HeaderUpTo(g, 20) == HeaderUpTo(g, 19).(extended := Zeros(|g.extended|))
              && HeaderUpTo(g, HEADER_FIELDS) == HeaderUpTo(g, 20).(extended := g.extended)
  {
  }

  lemma EntryUpToNames(g: MessageEntry)
    ensures EntryUpTo(g, 1) == EntryUpTo(g, 0).(entrySize := g.entrySize)
    ensures EntryUpTo(g, 2) == EntryUpTo(g, 1).(entryFlags := g.entryFlags)
    ensures EntryUpTo(g, 3) == EntryUpTo(g, 2).(entryType := g.entryType)
    ensures EntryUpTo(g, 4) == if Has(g.entryFlags, SERVICE_PATH_STR) then
              EntryUpTo(g, 3).(servicePath := g.servicePath) else EntryUpTo(g, 3)
    ensures EntryUpTo(g, 5) == if Has(g.entryFlags, SERVICE_PATH_CODE) then
              EntryUpTo(g, 4).(servicePathCode := g.servicePathCode) else EntryUpTo(g, 4)
    ensures EntryUpTo(g, 6) == if Has(g.entryFlags, MEMBER_NAME_STR) then EntryUpTo(g, 5).(memberName := g.memberName)
              else EntryUpTo(g, 5)
    ensures EntryUpTo(g, 7) == if Has(g.entryFlags, MEMBER_NAME_CODE) then
              EntryUpTo(g, 6).(memberNameCode := g.memberNameCode) else EntryUpTo(g, 6)
  {
  }

  lemma EntryUpToEnd(g: MessageEntry)
    ensures EntryUpTo(g, 8) == if Has(g.entryFlags, REQUEST_ID) then EntryUpTo(g, 7).(requestID := g.requestID)
              else EntryUpTo(g, 7)
    ensures EntryUpTo(g, 9) == if Has(g.entryFlags, ERROR) then EntryUpTo(g, 8).(error := g.error) else EntryUpTo(g, 8)
    ensures EntryUpTo(g, 10) == if Has(g.entryFlags, ENTRY_META_INFO) then EntryUpTo(g, 9).(metaData := g.metaData)
              else EntryUpTo(g, 9)
    ensures !Has(g.entryFlags, EXTENDED) ==> EntryUpTo(g, 12) == EntryUpTo(g, 10)
    ensures Has(g.entryFlags, EXTENDED) ==>
              && EntryUpTo(g, 11) == EntryUpTo(g, 10).(extended := Zeros(|g.extended|))
              && EntryUpTo(g, 12) == EntryUpTo(g, 11).(extended := g.extended)
    ensures EntryUpTo(g, ENTRY_FIELDS) == EntryUpTo(g, 12) && EntryUpTo(g, 12).elements == []
  {
  }

  lemma ElementUpToNames(g: MessageElement)
    ensures ElementUpTo(g, 1) == ElementUpTo(g, 0).(elementSize := g.elementSize)
    ensures ElementUpTo(g, 2) == ElementUpTo(g, 1).(elementFlags := g.elementFlags)
    ensures ElementUpTo(g, 3) == if Has(g.elementFlags, ELEMENT_NAME_STR) then
              ElementUpTo(g, 2).(elementName := g.elementName) else ElementUpTo(g, 2)
    ensures ElementUpTo(g, 4) == if Has(g.elementFlags, ELEMENT_NAME_CODE) then
              ElementUpTo(g, 3).(elementNameCode := g.elementNameCode) else ElementUpTo(g, 3)
    ensures ElementUpTo(g, 5) == if Has(g.elementFlags, ELEMENT_NUMBER) then
              ElementUpTo(g, 4).(elementNumber := g.elementNumber) else ElementUpTo(g, 4)
    ensures ElementUpTo(g, 6) == ElementUpTo(g, 5).(elementType := g.elementType)
  {
  }

  lemma ElementUpToEnd(g: MessageElement)
    ensures ElementUpTo(g, 7) == if Has(g.elementFlags, ELEMENT_TYPE_NAME_STR) then
              ElementUpTo(g, 6).(elementTypeName := g.elementTypeName) else ElementUpTo(g, 6)
    ensures ElementUpTo(g, 8) == if Has(g.elementFlags, ELEMENT_TYPE_NAME_CODE) then
              ElementUpTo(g, 7).(elementTypeNameCode := g.elementTypeNameCode) else ElementUpTo(g, 7)
    ensures ElementUpTo(g, 9) == if Has(g.elementFlags, ELEMENT_META_INFO) then
              ElementUpTo(g, 8).(metaData := g.metaData) else ElementUpTo(g, 8)
    ensures !Has(g.elementFlags, EXTENDED) ==> ElementUpTo(g, 11) == ElementUpTo(g, 9)
    ensures Has(g.elementFlags, EXTENDED) ==>
              && ElementUpTo(g, 10) == ElementUpTo(g, 9).(extended := Zeros(|g.extended|))
              && ElementUpTo(g, 11) == ElementUpTo(g, 10).(extended := g.extended)
    ensures ElementUpTo(g, ELEMENT_FIELDS) == ElementUpTo(g, 11).(dataCount := g.dataCount)
  {
  }

  // ---------------------------------------------------------------- whole messages

  function RestrictHeader(h: MessageHeader): MessageHeader { HeaderUpTo(h, HEADER_FIELDS) }

  function RestrictEntry(e: MessageEntry): MessageEntry
  {
    EntryUpTo(e, ENTRY_FIELDS).(elements := RestrictElements(e.elements))
  }

  function RestrictElement(el: MessageElement): MessageElement
    decreases el, 1
  {
    ElementUpTo(el, ELEMENT_FIELDS).(data := RestrictContent(el))
  }

  /** A nested list carries the type and type name its element was read with. */
  function RestrictContent(el: MessageElement): ElementContent
    decreases el, 0
  {
    match el.data
    case NoData => NoData
    case ArrayData(a) => ArrayData(a)
    case NestedData(_, _, es) =>
      NestedData(el.elementType, ElementUpTo(el, ELEMENT_FIELDS).elementTypeName, RestrictElements(es))
  }

  function RestrictElements(es: seq<MessageElement>): (r: seq<MessageElement>)
    ensures |r| == |es|
    decreases es, 0
  {
    if es == [] then [] else [RestrictElement(es[0])] + RestrictElements(es[1..])
  }

  function RestrictEntries(es: seq<MessageEntry>): (r: seq<MessageEntry>)
    ensures |r| == |es|
  {
    if es == [] then [] else [RestrictEntry(es[0])] + RestrictEntries(es[1..])
  }

  function RestrictMessage(m: Message): Message
  {
    Message(RestrictHeader(m.header), RestrictEntries(m.entries))
  }

  lemma RestrictedElement(el: MessageElement)
    ensures el.data.NoData? ==> RestrictElement(el) == ElementUpTo(el, ELEMENT_FIELDS)
    ensures el.data.ArrayData? ==> RestrictElement(el) == ElementUpTo(el, ELEMENT_FIELDS).(data := el.data)
    ensures el.data.NestedData? ==>
              var u := ElementUpTo(el, ELEMENT_FIELDS);
              RestrictElement(el) == u.(data := NestedData(u.elementType, u.elementTypeName,
                                                           RestrictElements(el.data.elements)))
  {
  }

  lemma {:induction false} RestrictElementsAt(es: seq<MessageElement>, i: nat)
    requires i < |es|
    ensures RestrictElements(es)[i] == RestrictElement(es[i])
  {
    hide RestrictElement;
    if i > 0 {
      RestrictElementsAt(es[1..], i - 1);
    }
  }

  lemma RestrictElementsExtend(es: seq<MessageElement>, i: nat)
    requires i < |es|
    ensures RestrictElements(es[..i + 1]) == RestrictElements(es[..i]) + [RestrictElement(es[i])]
  {
    hide RestrictElement, RestrictElements;
    forall j | 0 <= j <= i
      ensures RestrictElements(es[..i + 1])[j] == (RestrictElements(es[..i]) + [RestrictElement(es[i])])[j]
    {
      RestrictElementsAt(es[..i + 1], j);
      if j < i { RestrictElementsAt(es[..i], j); }
    }
  }

  lemma {:induction false} RestrictEntriesAt(es: seq<MessageEntry>, i: nat)
    requires i < |es|
    ensures RestrictEntries(es)[i] == RestrictEntry(es[i])
  {
    hide RestrictEntry;
    if i > 0 {
      RestrictEntriesAt(es[1..], i - 1);
    }
  }

  lemma RestrictEntriesExtend(es: seq<MessageEntry>, i: nat)
    requires i < |es|
    ensures RestrictEntries(es[..i + 1]) == RestrictEntries(es[..i]) + [RestrictEntry(es[i])]
  {
    hide RestrictEntry, RestrictEntries;
    forall j | 0 <= j <= i
      ensures RestrictEntries(es[..i + 1])[j] == (RestrictEntries(es[..i]) + [RestrictEntry(es[i])])[j]
    {
      RestrictEntriesAt(es[..i + 1], j);
      if j < i { RestrictEntriesAt(es[..i], j); }
    }
  }
}
