/** Python values through the whole way: packed, sized, written, read and unpacked. */
module ValuesOnWire {
  import opened Numbers
  import opened Messages
  import opened Results
  import Layout
  import opened Restriction
  import opened Fidelity
  import opened Sizes
  import opened Sizable
  import opened PythonValues
  import opened ValueTypes
  import opened Packing
  import opened Unpacking
  import opened PackRoundTrip

  /** As the packer leaves an element: the type name is that of the data, and no codes are used. */
  predicate AsPacked(el: MessageElement)
    decreases el
  {
    && el.elementType == TypeOf(el.data)
    && el.elementTypeName == (if el.data.NestedData? then el.data.typeName else [])
    && !Has(el.elementFlags, ELEMENT_TYPE_NAME_CODE)
    && (el.data.NestedData? ==> forall k :: 0 <= k < |el.data.elements| ==> AsPacked(el.data.elements[k]))
  }

  lemma {:induction false} PackedAsPacked(services: Services, v: Value, t: TypeDefinition)
    requires Pack(services, v, t).Done?
    ensures AsPacked(Pack(services, v, t).value)
    ensures Pack(services, v, t).value.elementName == t.name
    ensures Pack(services, v, t).value.elementFlags == ELEMENT_DEFAULT_FLAGS
    decreases Rank(v, t)
  {
    hide Open, PackParts, Rank;
    var c := Open(services, v, t).value;
    if c.Leaf? {
      LeafHasNoParts(services, v, t);
    } else {
      OpenedBelow(services, v, t);
      var n := Rank(v, t);
      var es := PackParts(services, c.parts, n).value;
      forall k | 0 <= k < |es| ensures AsPacked(es[k]) {
        PackedParts(services, c.parts, n, k);
        assert PartBelow(c.parts[k], n);
        PackedAsPacked(services, c.parts[k].value, c.parts[k].level.levelType);
      }
    }
  }

  lemma LeafHasNoParts(services: Services, v: Value, t: TypeDefinition)
    requires Open(services, v, t).Done? && Open(services, v, t).value.Leaf?
    ensures !Open(services, v, t).value.data.NestedData?
  {
    hide Items, IsUtf8, ClassName, SequenceParts, Int32Parts, TextParts, MemberParts;
  }

  /** The sender's preparation and the receiver's view of the element's own fields. */
  lemma PreparedConveys(el: MessageElement)
    requires PrepareElement4(el).Ok? && !Has(el.elementFlags, ELEMENT_TYPE_NAME_CODE)
    ensures var u := ElementUpTo(PrepareElement4(el).value, Layout.ELEMENT_FIELDS);
            && u.elementTypeName == (if el.data.NestedData? then el.data.typeName else [])
            && u.elementType == TypeOf(el.data) && SameMarks(el, u)
  {
  }

  lemma {:induction false} SentConveys(el: MessageElement)
    requires AsPacked(el) && UpdateElement4(el).Ok?
    ensures Conveys(el, RestrictElement(UpdateElement4(el).value))
              && SameMarks(el, RestrictElement(UpdateElement4(el).value))
    decreases el
  {
    hide PrepareElement4, ElementUpTo, ElementBodySize, SizePlusUintX, RestrictElement, UpdateElements4;
    var p := PrepareElement4(el).value;
    var data := UpdateContent4(el.data).value;
    var u := UpdateElement4(el).value;
    PreparedConveys(el);
    PreparedElement(el);
    RestDoesNotMatter(p, u.elementSize, data);
    RestrictedElement(u);
    assert u == p.(elementSize := u.elementSize, data := data);
    if el.data.NestedData? {
      var es := el.data.elements;
      var us := UpdateElements4(es).value;
      assert data == NestedData(el.data.dataType, el.data.typeName, us);
      forall k | 0 <= k < |es|
        ensures SameMarks(es[k], RestrictElements(us)[k]) && Conveys(es[k], RestrictElements(us)[k])
      {
        UpdateElementsAt(es, k);
        RestrictElementsAt(us, k);
        SentConveys(es[k]);
      }
    }
  }

  lemma {:induction false} UpdateElementsAt(es: seq<MessageElement>, k: nat)
    requires UpdateElements4(es).Ok? && k < |es|
    ensures UpdateElement4(es[k]).Ok? && UpdateElements4(es).value[k] == UpdateElement4(es[k]).value
  {
    hide UpdateElement4;
    if k > 0 {
      UpdateElementsAt(es[1..], k - 1);
    }
  }

  // ---------------------------------------------------------------- what is packed can be sized

  lemma CompoundNests(services: Services, v: Value, t: TypeDefinition)
    requires Open(services, v, t).Done? && Open(services, v, t).value.Compound?
    ensures NestsElements(Open(services, v, t).value.dataType)
  {
    hide Items, IsUtf8, ClassName, SequenceParts, Int32Parts, TextParts, MemberParts, PackNumbers;
  }

  lemma {:induction false} EachWellMarked(es: seq<MessageElement>)
    requires forall k :: 0 <= k < |es| ==> WellMarked(es[k])
    ensures AllWellMarked(es)
  {
    hide WellMarked;
    if es != [] {
      assert WellMarked(es[0]);
      forall k | 0 <= k < |es[1..]| ensures WellMarked(es[1..][k]) { assert es[1..][k] == es[k + 1]; }
      EachWellMarked(es[1..]);
    }
  }

  lemma TaggedWellMarked(el: MessageElement, tag: Tag)
    requires WellMarked(el) && el.elementFlags == ELEMENT_DEFAULT_FLAGS
    ensures WellMarked(Tagged(el, tag))
  {
    hide NestsElements, AllWellMarked;
  }

  /** What is packed nests elements only under the codes for that, and marks each in one way. */
  lemma {:induction false} PackedWellMarked(services: Services, v: Value, t: TypeDefinition)
    requires Pack(services, v, t).Done?
    ensures WellMarked(Pack(services, v, t).value)
    ensures Pack(services, v, t).value.elementFlags == ELEMENT_DEFAULT_FLAGS
    decreases Rank(v, t)
  {
    hide Open, PackParts, Rank, NestsElements, Tagged;
    var c := Open(services, v, t).value;
    if c.Leaf? {
      LeafHasNoParts(services, v, t);
    } else {
      CompoundNests(services, v, t);
      OpenedBelow(services, v, t);
      var n := Rank(v, t);
      var es := PackParts(services, c.parts, n).value;
      forall k | 0 <= k < |es| ensures WellMarked(es[k]) {
        PackedParts(services, c.parts, n, k);
        assert PartBelow(c.parts[k], n);
        var part := c.parts[k];
        PackedWellMarked(services, part.value, part.level.levelType);
        TaggedWellMarked(Pack(services, part.value, part.level.levelType).value, part.tag);
      }
      EachWellMarked(es);
    }
  }

  /** Every value of a type, packed, can be sized as long as the element with all that is nested in it
    * stays within 32 bits; and its size is then the full one. */
  lemma PackedCanBeSized(services: Services, v: Value, t: TypeDefinition)
    requires OfType(services, v, t) && FullElement(Packed(services, v, t)) <= UINT32_MAX
    ensures UpdateElement4(Packed(services, v, t)).Ok?
    ensures UpdateElement4(Packed(services, v, t)).value.elementSize == FullElement(Packed(services, v, t))
  {
    hide Pack, UpdateElement4, FullElement, SizableElement, StoredElement, WellMarked, OfType;
    var el := Packed(services, v, t);
    PackedWellMarked(services, v, t);
    SizedElement(el);
    SizedElementWithin(el);
  }

  ghost predicate HoldsValue(services: Services, el: MessageElement)
  {
    exists v, t :: OfType(services, v, t) && el == Packed(services, v, t)
  }

  /** A message of packed values can be sized if it has no more than 65535 entries and a short string
    * table, and in full stays within 32 bits. */
  lemma ValuesCanBeSized(services: Services, m: Message)
    requires forall e | e in m.entries :: forall el | el in e.elements :: HoldsValue(services, el)
    requires |m.entries| <= 0xFFFF && FullMessage(m) <= UINT32_MAX
    requires Has(m.header.messageFlags, STRING_TABLE) ==> TableSize(m.header.stringTable) <= 1024
    ensures UpdateMessage4(m).Ok?
  {
    hide Pack, OfType, UpdateMessage4, FullMessage, TableSize, WellMarked, HoldsValue;
    forall e | e in m.entries ensures AllWellMarked(e.elements) {
      forall k | 0 <= k < |e.elements| ensures WellMarked(e.elements[k]) {
        assert e.elements[k] in e.elements;
        HeldWellMarked(services, e.elements[k]);
      }
      EachWellMarked(e.elements);
    }
    SizedWithin32Bits(m);
  }

  lemma HeldWellMarked(services: Services, el: MessageElement)
    requires HoldsValue(services, el)
    ensures WellMarked(el)
  {
    hide Pack, OfType, WellMarked;
    var v, t :| OfType(services, v, t) && el == Packed(services, v, t);
    PackedWellMarked(services, v, t);
  }

  /** What a receiver unpacks of an element that was packed, sized, written and read. */
  lemma ValueArrives(services: Services, v: Value, t: TypeDefinition)
    requires OfType(services, v, t) && UpdateElement4(Packed(services, v, t)).Ok?
    ensures var r := RestrictElement(UpdateElement4(Packed(services, v, t)).value);
            && (Fits(services, v, t) ==> Unpack(services, r, t) == Done(Normal(services, v, t)))
            && (Unpack(services, r, t) == Done(v) <==> Fits(services, v, t) && Canonical(services, v, t))
  {
    hide Pack, Unpack, Fits, Normal, Canonical, Conveys, UpdateElement4, RestrictElement, AsPacked, OfType;
    var el := Packed(services, v, t);
    PackedAsPacked(services, v, t);
    SentConveys(el);
    PackedComesBack(services, v, t, RestrictElement(UpdateElement4(el).value));
    if Fits(services, v, t) {
      NormalOfCanonical(services, v, t);
    }
  }

  lemma {:induction false} UpdateEntriesAt(es: seq<MessageEntry>, i: nat)
    requires UpdateEntries4(es).Ok? && i < |es|
    ensures UpdateEntry4(es[i]).Ok? && UpdateEntries4(es).value[i] == UpdateEntry4(es[i]).value
  {
    hide UpdateEntry4;
    if i > 0 {
      UpdateEntriesAt(es[1..], i - 1);
    }
  }

  lemma EntryElementArrives(e: MessageEntry, j: nat)
    requires UpdateEntry4(e).Ok? && j < |e.elements|
    ensures UpdateElement4(e.elements[j]).Ok?
    ensures var r := RestrictEntry(UpdateEntry4(e).value);
            |r.elements| == |e.elements| && r.elements[j] == RestrictElement(UpdateElement4(e.elements[j]).value)
  {
    hide UpdateElement4, RestrictElement, UpdateElements4, RestrictElements, PrepareEntry4, EntryUpTo, EntryBodySize,
         SizePlusUintX;
    UpdateElementsAt(e.elements, j);
    var us := UpdateElements4(e.elements).value;
    assert UpdateEntry4(e).value.elements == us;
    RestrictElementsAt(us, j);
  }

  /** A value in any place of any message: what the receiver's reader makes of the message, by
    * Transfers.Transfer, has that value in that place exactly when it fits and is canonical. */
  lemma ValueInMessageArrives(services: Services, m: Message, i: nat, j: nat, v: Value, t: TypeDefinition)
    requires UpdateMessage4(m).Ok? && i < |m.entries| && j < |m.entries[i].elements|
    requires OfType(services, v, t) && m.entries[i].elements[j] == Packed(services, v, t)
    ensures var r := RestrictMessage(UpdateMessage4(m).value);
            && |r.entries| == |m.entries| && |r.entries[i].elements| == |m.entries[i].elements|
            && (Unpack(services, r.entries[i].elements[j], t) == Done(v) <==>
                Fits(services, v, t) && Canonical(services, v, t))
  {
    hide Pack, Unpack, Fits, Canonical, UpdateEntries4, UpdateEntry4, UpdateElement4, RestrictEntries, RestrictEntry,
         RestrictElement, UpdateHeader4, RestrictHeader, EntrySizes, OfType;
    UpdateEntriesAt(m.entries, i);
    RestrictEntriesAt(UpdateEntries4(m.entries).value, i);
    EntryElementArrives(m.entries[i], j);
    ValueArrives(services, v, t);
  }
}
