/** What a receiver gets back of the message that was handed to the sender. */
module Fidelity {
  import opened Numbers
  import opened Results
  import opened Messages
  import opened Layout
  import opened Restriction
  import opened Sizes

  // r is what arrives of the thing sent: everything the sender has set, except names, codes,
  // routing, endpoints, priority and string table where their flags are off.

  predicate HeaderKept(h: MessageHeader, r: MessageHeader)
  {
    && (Has(h.messageFlags, ROUTING_INFO) ==>
          && r.senderNodeID == h.senderNodeID && r.receiverNodeID == h.receiverNodeID
          && r.senderNodeName == h.senderNodeName && r.receiverNodeName == h.receiverNodeName)
    && (Has(h.messageFlags, ENDPOINT_INFO) ==>
        r.senderEndpoint == h.senderEndpoint && r.receiverEndpoint == h.receiverEndpoint)
    && (Has(h.messageFlags, PRIORITY) ==> r.priority == h.priority)
    && (Has(h.messageFlags, STRING_TABLE) ==> r.stringTable == h.stringTable)
    && r.metaData == h.metaData && r.messageID == h.messageID && r.messageResID == h.messageResID
    && r.extended == h.extended
  }

  predicate EntryKept(e: MessageEntry, r: MessageEntry)
  {
    && (Has(e.entryFlags, SERVICE_PATH_STR) ==> r.servicePath == e.servicePath)
    && (Has(e.entryFlags, SERVICE_PATH_CODE) ==> r.servicePathCode == e.servicePathCode)
    && (Has(e.entryFlags, MEMBER_NAME_STR) ==> r.memberName == e.memberName)
    && (Has(e.entryFlags, MEMBER_NAME_CODE) ==> r.memberNameCode == e.memberNameCode)
    && r.entryType == e.entryType && r.requestID == e.requestID && r.error == e.error
    && r.metaData == e.metaData && r.extended == e.extended
    && ElementsKept(e.elements, r.elements)
  }

  predicate ElementKept(el: MessageElement, r: MessageElement)
    decreases el, 1
  {
    && (Has(el.elementFlags, ELEMENT_NAME_STR) ==> r.elementName == el.elementName)
    && (Has(el.elementFlags, ELEMENT_NAME_CODE) ==> r.elementNameCode == el.elementNameCode)
    && (Has(el.elementFlags, ELEMENT_NUMBER) ==> r.elementNumber == el.elementNumber)
    && (Has(el.elementFlags, ELEMENT_TYPE_NAME_CODE) ==> r.elementTypeNameCode == el.elementTypeNameCode)
    && r.metaData == el.metaData && r.extended == el.extended
    && match el.data
       case NoData => r.data == NoData
       case ArrayData(_) => r.data == el.data
       case NestedData(t, n, es) =>
         && r.data.NestedData? && r.data.dataType == t
         && (!Has(el.elementFlags, ELEMENT_TYPE_NAME_CODE) ==> r.data.typeName == n)
         && ElementsKept(es, r.data.elements)
  }

  predicate ElementsKept(es: seq<MessageElement>, rs: seq<MessageElement>)
    decreases es, 0
  {
    && |rs| == |es|
    && (es != [] ==> ElementKept(es[0], rs[0]) && ElementsKept(es[1..], rs[1..]))
  }

  predicate EntriesKept(es: seq<MessageEntry>, rs: seq<MessageEntry>)
  {
    && |rs| == |es|
    && (es != [] ==> EntryKept(es[0], rs[0]) && EntriesKept(es[1..], rs[1..]))
  }

  predicate MessageKept(m: Message, r: Message)
  {
    HeaderKept(m.header, r.header) && EntriesKept(m.entries, r.entries)
  }

  // ---------------------------------------------------------------- elements

  /** The flags computed by the sender announce every field it has set. */
  lemma PreparedElementKept(el: MessageElement)
    requires PrepareElement4(el).Ok?
    ensures var p := PrepareElement4(el).value;
            var u := ElementUpTo(p, ELEMENT_FIELDS);
      && (Has(el.elementFlags, ELEMENT_NAME_STR) ==> u.elementName == el.elementName)
      && (Has(el.elementFlags, ELEMENT_NAME_CODE) ==> u.elementNameCode == el.elementNameCode)
      && (Has(el.elementFlags, ELEMENT_NUMBER) ==> u.elementNumber == el.elementNumber)
      && (Has(el.elementFlags, ELEMENT_TYPE_NAME_CODE) ==> u.elementTypeNameCode == el.elementTypeNameCode)
      && u.metaData == el.metaData && u.extended == el.extended
      && u.elementType == TypeOf(el.data)
      && (el.data.NestedData? && !Has(el.elementFlags, ELEMENT_TYPE_NAME_CODE) ==>
          u.elementTypeName == el.data.typeName)
  {
  }

  lemma RestDoesNotMatter(el: MessageElement, size: uint32, data: ElementContent)
    ensures var u, v := ElementUpTo(el, ELEMENT_FIELDS),
              ElementUpTo(el.(elementSize := size, data := data), ELEMENT_FIELDS);
            v == u.(elementSize := size) && u.data == NoData
  {
  }

  lemma {:induction false} UpdatedElementKept(el: MessageElement)
    requires UpdateElement4(el).Ok?
    ensures ElementKept(el, RestrictElement(UpdateElement4(el).value))
    decreases el, 1
  {
    hide PrepareElement4, ElementUpTo, ElementBodySize, SizePlusUintX, RestrictElement, UpdateElements4, ElementsKept;
    var p := PrepareElement4(el).value;
    var data := UpdateContent4(el.data).value;
    var u := UpdateElement4(el).value;
    PreparedElementKept(el);
    PreparedElement(el);
    RestDoesNotMatter(p, u.elementSize, data);
    RestrictedElement(u);
    assert u == p.(elementSize := u.elementSize, data := data);
    if el.data.NestedData? {
      UpdatedElementsKept(el.data.elements);
      assert data == NestedData(el.data.dataType, el.data.typeName, UpdateElements4(el.data.elements).value);
    }
  }

  lemma {:induction false} UpdatedElementsKept(es: seq<MessageElement>)
    requires UpdateElements4(es).Ok?
    ensures ElementsKept(es, RestrictElements(UpdateElements4(es).value))
    decreases es, 0
  {
    hide UpdateElement4, ElementKept, RestrictElement;
    if es != [] {
      UpdatedElementKept(es[0]);
      UpdatedElementsKept(es[1..]);
      var us := UpdateElements4(es[1..]).value;
      var u := UpdateElements4(es).value;
      assert u == [UpdateElement4(es[0]).value] + us && u[1..] == us;
      assert RestrictElements(u)[1..] == RestrictElements(us);
    }
  }

  // ---------------------------------------------------------------- entries and messages

  lemma PreparedEntryKept(e: MessageEntry, size: uint32, elements: seq<MessageElement>)
    requires PrepareEntry4(e).Ok? && ElementsKept(e.elements, RestrictElements(elements))
    ensures EntryKept(e, RestrictEntry(PrepareEntry4(e).value.(elements := elements, entrySize := size)))
  {
    hide ElementsKept, RestrictElements;
  }

  lemma UpdatedEntryKept(e: MessageEntry)
    requires UpdateEntry4(e).Ok?
    ensures EntryKept(e, RestrictEntry(UpdateEntry4(e).value))
  {
    hide PrepareEntry4, EntryBodySize, SizePlusUintX, UpdateElements4, RestrictEntry, EntryKept;
    UpdatedElementsKept(e.elements);
    PreparedEntryKept(e, UpdateEntry4(e).value.entrySize, UpdateElements4(e.elements).value);
  }

  lemma {:induction false} UpdatedEntriesKept(es: seq<MessageEntry>)
    requires UpdateEntries4(es).Ok?
    ensures EntriesKept(es, RestrictEntries(UpdateEntries4(es).value))
  {
    hide UpdateEntry4, EntryKept, RestrictEntry;
    if es != [] {
      UpdatedEntryKept(es[0]);
      UpdatedEntriesKept(es[1..]);
      var us := UpdateEntries4(es[1..]).value;
      var u := UpdateEntries4(es).value;
      assert u == [UpdateEntry4(es[0]).value] + us && u[1..] == us;
      assert RestrictEntries(u)[1..] == RestrictEntries(us);
    }
  }

  lemma UpdatedHeaderKept(h: MessageHeader, size: uint32, count: uint16)
    requires UpdateHeader4(h, size, count).Ok?
    ensures HeaderKept(h, RestrictHeader(UpdateHeader4(h, size, count).value))
    ensures RestrictHeader(UpdateHeader4(h, size, count).value).entryCount == count
  {
    hide HeaderSize4;
  }

  /** The receiver gets everything the sender has set and not switched off. */
  lemma UpdatedMessageKept(m: Message)
    requires UpdateMessage4(m).Ok?
    ensures MessageKept(m, RestrictMessage(UpdateMessage4(m).value))
  {
    hide UpdateEntries4, UpdateHeader4, HeaderKept, EntriesKept, RestrictHeader, RestrictEntries;
    var entries := UpdateEntries4(m.entries).value;
    UpdatedEntriesKept(m.entries);
    UpdatedHeaderKept(m.header, EntrySizes(entries), |m.entries|);
  }
}
