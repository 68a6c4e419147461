/** Unpacking what has been packed. */
module PackRoundTrip {
  import opened Numbers
  import opened Messages
  import opened Restriction
  import opened Results
  import opened PythonValues
  import opened ValueTypes
  import opened ElementTypes
  import opened Packing
  import opened Unpacking

  // ---------------------------------------------------------------- which values come back

  /** The array kind a leaf of the type is unpacked with. */
  function KindFor(services: Services, t: TypeDefinition): ArrayKind
  {
    match t.base
    case Named(_) => Scalar
    case _ => t.arrayKind
  }

  /** Every numpy array has a length that its type allows, and no dictionary has 2^31 items. */
  predicate Fits(services: Services, v: Value, t: TypeDefinition)
    decreases Rank(v, t)
  {
    match Open(services, v, t)
    case Failed(_, _) => true
    case Done(content) =>
      match content
      case Leaf(_) => v.Array? ==> LengthFits(KindFor(services, t), Count(v.numbers))
      case Compound(dataType, _, parts) =>
        OpenedBelow(services, v, t);
        (dataType == VECTOR_T || dataType == DICTIONARY_T ==> |parts| <= 0x7FFF_FFFF)
            && PartsFit(services, parts, Rank(v, t))
  }

  predicate PartsFit(services: Services, parts: seq<Part>, ghost n: nat)
    requires PartsBelow(parts, n)
    decreases n, 1
  {
    forall k :: 0 <= k < |parts| ==> PartFits(services, parts[k], n)
  }

  predicate PartFits(services: Services, part: Part, ghost n: nat)
    requires PartBelow(part, n)
    decreases n, 0
  {
    part.Part? ==> Fits(services, part.value, part.level.levelType)
  }

  function KindOf(dataType: uint16, typeName: Bytes): Kind
  {
    if dataType == LIST_T then ListKind
    else if dataType == STRUCTURE_T then StructKind(ClassName(typeName))
    else DictKind
  }

  function KeyOfLevel(level: Level): Key
  {
    match level.name
    case Index(n) => IntKey(n)
    case KeyOf(key) => TextKey(if IsUtf8(key) then key else [])
    case Field(name) => TextKey(if IsUtf8(name) then name else [])
  }

  function PartKeys(parts: seq<Part>): (r: seq<Key>)
    ensures |r| == |parts|
  {
    seq(|parts|, k requires 0 <= k < |parts| => if parts[k].Part? then KeyOfLevel(parts[k].level) else IntKey(0))
  }

  function NormalLeaf(v: Value, data: ElementContent, kind: ArrayKind): Value
  {
    if data.ArrayData? && IsNumeric(data.items.dataType) then
      if !kind.Scalar? then Array(data.items)
      else if Count(data.items) == 1 then OneOf(data.items, data.items.dataType) else v
    else v
  }

  /** The value as it comes back: sequences as lists or dictionaries, lists of numbers as arrays,
    * single numbers as numbers, structures with the attributes of their type in its order. */
  function Normal(services: Services, v: Value, t: TypeDefinition): Value
    decreases Rank(v, t)
  {
    match Open(services, v, t)
    case Failed(_, _) => v
    case Done(content) =>
      match content
      case Leaf(data) => NormalLeaf(v, data, KindFor(services, t))
      case Compound(dataType, typeName, parts) =>
        OpenedBelow(services, v, t);
        Assemble(KindOf(dataType, typeName), PartKeys(parts), NormalParts(services, parts, Rank(v, t)))
  }

  function NormalParts(services: Services, parts: seq<Part>, ghost n: nat): (r: seq<Value>)
    requires PartsBelow(parts, n)
    ensures |r| == |parts|
    decreases n, 1
  {
    seq(|parts|, k requires 0 <= k < |parts| => assert PartBelow(parts[k], n); NormalPart(services, parts[k], n))
  }

  function NormalPart(services: Services, part: Part, ghost n: nat): Value
    requires PartBelow(part, n)
    decreases n, 0
  {
    if part.BadPart? then NoneValue else Normal(services, part.value, part.level.levelType)
  }

  // ---------------------------------------------------------------- what a receiver needs of an element

  predicate SameMarks(el: MessageElement, r: MessageElement)
  {
    && Has(r.elementFlags, ELEMENT_NAME_STR) == Has(el.elementFlags, ELEMENT_NAME_STR)
    && Has(r.elementFlags, ELEMENT_NUMBER) == Has(el.elementFlags, ELEMENT_NUMBER)
    && (Has(el.elementFlags, ELEMENT_NAME_STR) ==> r.elementName == el.elementName)
    && (Has(el.elementFlags, ELEMENT_NUMBER) ==> r.elementNumber == el.elementNumber)
  }

  predicate Conveys(el: MessageElement, r: MessageElement)
    decreases el, 0
  {
    && r.elementType == el.elementType && r.elementTypeName == el.elementTypeName
    && match el.data
       case NoData => r.data == NoData
       case ArrayData(_) => r.data == el.data
       case NestedData(d, _, es) => r.data.NestedData? && r.data.dataType == d && AllConvey(es, r.data.elements)
  }

  predicate AllConvey(es: seq<MessageElement>, rs: seq<MessageElement>)
    decreases es, 1
  {
    |rs| == |es| && forall k :: 0 <= k < |es| ==> SameMarks(es[k], rs[k]) && Conveys(es[k], rs[k])
  }

  lemma {:induction false} EveryElementConveysItself(el: MessageElement)
    ensures Conveys(el, el)
  {
    if el.data.NestedData? {
      forall k | 0 <= k < |el.data.elements| ensures Conveys(el.data.elements[k], el.data.elements[k]) {
        EveryElementConveysItself(el.data.elements[k]);
      }
    }
  }

  // ---------------------------------------------------------------- part by part

  /** es[k] is the packed k-th part with its mark. */
  ghost predicate PackedAt(services: Services, parts: seq<Part>, es: seq<MessageElement>, k: nat)
    requires k < |parts| == |es|
  {
    && parts[k].Part?
    && Pack(services, parts[k].value, parts[k].level.levelType).Done?
    && es[k] == Tagged(Pack(services, parts[k].value, parts[k].level.levelType).value, parts[k].tag)
  }

  lemma {:induction false} PackedParts(services: Services, parts: seq<Part>, n: nat, k: nat)
    requires PartsBelow(parts, n) && PackParts(services, parts, n).Done? && k < |parts|
    ensures PackedAt(services, parts, PackParts(services, parts, n).value, k)
    decreases k
  {
    hide Pack, Tagged, Rank;
    assert PartBelow(parts[0], n) && forall j :: 0 < j < |parts| ==> parts[j] == parts[1..][j - 1];
    if k > 0 {
      PackedParts(services, parts[1..], n, k - 1);
      var es := PackParts(services, parts, n).value;
      assert es[k] == PackParts(services, parts[1..], n).value[k - 1];
    }
  }

  predicate MarkedAs(r: MessageElement, tag: Tag)
  {
    match tag
    case NumberTag(n) => Has(r.elementFlags, ELEMENT_NUMBER) && r.elementNumber == n
    case NameTag(name) =>
      !Has(r.elementFlags, ELEMENT_NUMBER) && Has(r.elementFlags, ELEMENT_NAME_STR) && r.elementName == name
  }

  lemma PackedMark(services: Services, v: Value, t: TypeDefinition, tag: Tag, r: MessageElement)
    requires Pack(services, v, t).Done?
    requires SameMarks(Tagged(Pack(services, v, t).value, tag), r)
    ensures MarkedAs(r, tag)
  {
    hide Open, PackParts;
    assert Pack(services, v, t).value.elementFlags == ELEMENT_DEFAULT_FLAGS;
  }

  lemma PackedConveys(el: MessageElement, tag: Tag, r: MessageElement)
    requires Conveys(Tagged(el, tag), r)
    ensures Conveys(el, r)
  {
    hide AllConvey;
  }

  /** qs is what the unpacker makes of the elements rs of the packed parts. */
  ghost predicate Faces(parts: seq<Part>, rs: seq<MessageElement>, qs: seq<ElementPart>)
  {
    && |qs| == |rs| == |parts|
    && forall k :: 0 <= k < |parts| ==> FacesAt(parts, rs, qs, k)
  }

  ghost predicate FacesAt(parts: seq<Part>, rs: seq<MessageElement>, qs: seq<ElementPart>, k: nat)
    requires k < |parts| == |rs| == |qs|
  {
    parts[k].Part? && qs[k] == ElementPart(parts[k].level, rs[k], Some(KeyOfLevel(parts[k].level)))
  }

  lemma SequenceFaces(values: seq<Value>, t: TypeDefinition, rs: seq<MessageElement>)
    requires |values| == |rs| <= 0x7FFF_FFFF
    requires forall k :: 0 <= k < |rs| ==> MarkedAs(rs[k], SequenceParts(values, t)[k].tag)
    ensures Faces(SequenceParts(values, t), rs, ListParts(rs, t))
    ensures Faces(SequenceParts(values, t), rs, VectorParts(rs, t))
  {
    hide LexicalCast, IsUtf8;
    var parts := SequenceParts(values, t);
    forall k | 0 <= k < |rs|
      ensures FacesAt(parts, rs, ListParts(rs, t), k) && FacesAt(parts, rs, VectorParts(rs, t), k)
    {
      assert MarkedAs(rs[k], parts[k].tag);
    }
  }

  lemma Int32Faces(items: seq<Item>, t: TypeDefinition, width: LongWidth, rs: seq<MessageElement>)
    requires |items| == |rs| && forall k :: 0 <= k < |items| ==> Int32Parts(items, t, width)[k].Part?
    requires forall k :: 0 <= k < |rs| ==> MarkedAs(rs[k], Int32Parts(items, t, width)[k].tag)
    ensures Faces(Int32Parts(items, t, width), rs, VectorParts(rs, t))
  {
    hide LexicalCast, IsUtf8;
    var parts := Int32Parts(items, t, width);
    forall k | 0 <= k < |rs| ensures FacesAt(parts, rs, VectorParts(rs, t), k) {
      assert MarkedAs(rs[k], parts[k].tag) && parts[k] == Int32Part(items[k], t, width);
    }
  }

  lemma TextFaces(items: seq<Item>, t: TypeDefinition, rs: seq<MessageElement>)
    requires |items| == |rs| && forall k :: 0 <= k < |items| ==> TextParts(items, t)[k].Part?
    requires forall k :: 0 <= k < |rs| ==> MarkedAs(rs[k], TextParts(items, t)[k].tag)
    ensures Faces(TextParts(items, t), rs, DictionaryParts(rs, t))
  {
    hide IsUtf8, CString;
    var parts := TextParts(items, t);
    forall k | 0 <= k < |rs| ensures FacesAt(parts, rs, DictionaryParts(rs, t), k) {
      assert MarkedAs(rs[k], parts[k].tag) && parts[k] == TextPart(items[k], t);
      CStringIsUtf8(items[k].key.text);
    }
  }

  lemma MemberFaces(attributes: seq<Item>, members: Members, rs: seq<MessageElement>)
    requires |members| == |rs| && forall k :: 0 <= k < |members| ==> MemberParts(attributes, members)[k].Part?
    requires forall k :: 0 <= k < |rs| ==> MarkedAs(rs[k], MemberParts(attributes, members)[k].tag)
    ensures Faces(MemberParts(attributes, members), rs, FieldParts(rs, members))
  {
    hide IsUtf8;
    var parts := MemberParts(attributes, members);
    assert forall k :: 0 <= k < |rs| ==> rs[k].elementName == members[k].name by {
      forall k | 0 <= k < |rs| ensures rs[k].elementName == members[k].name {
        assert MarkedAs(rs[k], parts[k].tag) && parts[k] == MemberPart(attributes, members[k]);
      }
    }
    forall k | 0 <= k < |rs| ensures FacesAt(parts, rs, FieldParts(rs, members), k) {
      assert parts[k] == MemberPart(attributes, members[k]);
      assert FindElement(rs, members[k].name) == k;
    }
  }

  // ---------------------------------------------------------------- the whole value

  /** q is the element of the packed part. */
  ghost predicate Comes(services: Services, part: Part, q: ElementPart)
  {
    && part.Part? && q.ElementPart? && q.level == part.level && q.key == Some(KeyOfLevel(part.level))
    && Pack(services, part.value, part.level.levelType).Done?
    && Conveys(Pack(services, part.value, part.level.levelType).value, q.element)
  }

  ghost predicate AllCome(services: Services, parts: seq<Part>, qs: seq<ElementPart>)
  {
    |qs| == |parts| && forall k :: 0 <= k < |parts| ==> Comes(services, parts[k], qs[k])
  }

  lemma FacesCome(services: Services, parts: seq<Part>, n: nat, rs: seq<MessageElement>, qs: seq<ElementPart>)
    requires PartsBelow(parts, n) && PackParts(services, parts, n).Done?
    requires AllConvey(PackParts(services, parts, n).value, rs) && Faces(parts, rs, qs)
    ensures AllCome(services, parts, qs)
  {
    hide Pack, PackParts, Conveys, SameMarks, KeyOfLevel, Rank, Tagged;
    var es := PackParts(services, parts, n).value;
    forall k | 0 <= k < |parts| ensures Comes(services, parts[k], qs[k]) {
      PackedParts(services, parts, n, k);
      assert FacesAt(parts, rs, qs, k) && Conveys(es[k], rs[k]);
      PackedConveys(Pack(services, parts[k].value, parts[k].level.levelType).value, parts[k].tag, rs[k]);
    }
  }

  lemma MarksArrive(services: Services, parts: seq<Part>, n: nat, rs: seq<MessageElement>)
    requires PartsBelow(parts, n) && PackParts(services, parts, n).Done?
    requires AllConvey(PackParts(services, parts, n).value, rs)
    ensures |rs| == |parts| && forall k :: 0 <= k < |parts| ==> parts[k].Part? && MarkedAs(rs[k], parts[k].tag)
  {
    hide Pack, PackParts, Conveys, SameMarks, Rank, Tagged, MarkedAs;
    var es := PackParts(services, parts, n).value;
    forall k | 0 <= k < |parts| ensures parts[k].Part? && MarkedAs(rs[k], parts[k].tag) {
      PackedParts(services, parts, n, k);
      assert SameMarks(es[k], rs[k]);
      PackedMark(services, parts[k].value, parts[k].level.levelType, parts[k].tag, rs[k]);
    }
  }

  predicate TooMany(dataType: uint16, parts: seq<Part>)
  {
    (dataType == VECTOR_T || dataType == DICTIONARY_T) && |parts| > 0x7FFF_FFFF
  }

  /** The unpacker opens what it gets of a packed container or structure into the same parts. */
  lemma OpensAlike(services: Services, v: Value, t: TypeDefinition, c: Content, r: MessageElement)
    requires Pack(services, v, t).Done? && Conveys(Pack(services, v, t).value, r)
    requires Open(services, v, t) == Done(c) && c.Compound?
    ensures PartsBelow(c.parts, Rank(v, t))
    ensures TooMany(c.dataType, c.parts) ==> OpenElement(services, r, t).Failed?
    ensures !TooMany(c.dataType, c.parts) ==>
              var view := OpenElement(services, r, t);
              && view.Done? && view.value.Nested? && view.value.kind == KindOf(c.dataType, c.typeName)
              && AllCome(services, c.parts, view.value.parts)
  {
    hide IsUtf8, ClassName, AllConvey, PackParts, PartsBelow, Rank, Items, SequenceParts, Int32Parts, TextParts,
        MemberParts,
         ListParts, VectorParts, DictionaryParts, FieldParts, MarkedAs, Faces, AllCome;
    OpenedBelow(services, v, t);
    var n := Rank(v, t);
    var rs := r.data.elements;
    MarksArrive(services, c.parts, n, rs);
    if v.Struct? {
      var members := services.types[t.base.typeName].members;
      MemberFaces(v.attributes, members, rs);
      FacesCome(services, c.parts, n, rs, FieldParts(rs, members));
    } else if t.container.TextMap? {
      TextFaces(v.items, Bare(t), rs);
      FacesCome(services, c.parts, n, rs, DictionaryParts(rs, Bare(t)));
    } else if v.Dict? {
      Int32Faces(v.items, Bare(t), services.longWidth, rs);
      FacesCome(services, c.parts, n, rs, VectorParts(rs, Bare(t)));
    } else {
      SequenceFaces(Items(v), Bare(t), rs);
      FacesCome(services, c.parts, n, rs, if t.container.ListContainer? then ListParts(rs, Bare(t))
                else VectorParts(rs, Bare(t)));
    }
  }

  lemma LeafComesBack(services: Services, v: Value, t: TypeDefinition, data: ElementContent, r: MessageElement)
    requires Pack(services, v, t).Done? && Conveys(Pack(services, v, t).value, r)
    requires Open(services, v, t) == Done(Leaf(data))
    ensures Fits(services, v, t) ==> Unpack(services, r, t) == Done(Normal(services, v, t))
    ensures !Fits(services, v, t) ==> Unpack(services, r, t).Failed?
  {
    hide Items, IsUtf8, ClassName, SequenceParts, Int32Parts, TextParts, MemberParts;
    if !v.NoneValue? && !t.base.TextType? {
      var code := if t.base.Numeric? then t.base.code else INT32_T;
      PackedNumbers(v, code, KindFor(services, t));
    }
  }

  /** What is packed of a list or a number has the length the type allows. */
  lemma PackedNumbers(v: Value, code: NumericType, kind: ArrayKind)
    requires PackNumbers(v, code, kind).Done?
    ensures var data := PackNumbers(v, code, kind).value;
            data.ArrayData? && data.items.dataType == code && (!v.Array? ==> LengthFits(kind, Count(data.items)))
  {
    hide Items, IsUtf8;
    if !v.Array? {
      var values := if v.Number? then [v] else Items(v);
      GatheredLength(values, code);
    }
  }

  lemma {:induction false} GatheredLength(values: seq<Value>, code: NumericType)
    requires Gather(values, code).Done?
    ensures |Gather(values, code).value| / NumberSize(code) == |values|
  {
    if values != [] {
      GatheredLength(values[1..], code);
      OneMore(|Gather(values[1..], code).value|, NumberSize(code));
    }
  }

  lemma KeysAlike(services: Services, parts: seq<Part>, qs: seq<ElementPart>)
    requires AllCome(services, parts, qs) && forall k :: 0 <= k < |qs| ==> HasKey(qs[k])
    ensures KeysOf(qs) == PartKeys(parts)
  {
    hide Pack, Conveys, KeyOfLevel;
    forall k | 0 <= k < |qs| ensures KeysOf(qs)[k] == PartKeys(parts)[k] {
      assert HasKey(qs[k]) && Comes(services, parts[k], qs[k]);
    }
  }

  /** Whatever the packer accepts is unpacked to its normal form when it fits, and refused when not. */
  lemma {:induction false} PackedComesBack(services: Services, v: Value, t: TypeDefinition, r: MessageElement)
    requires Pack(services, v, t).Done? && Conveys(Pack(services, v, t).value, r)
    ensures Fits(services, v, t) ==> Unpack(services, r, t) == Done(Normal(services, v, t))
    ensures !Fits(services, v, t) ==> Unpack(services, r, t).Failed?
    decreases Rank(v, t)
  {
    hide Open, OpenElement, Conveys, PackParts, UnpackParts, NormalParts, Rank, PartsBelow, ElementsBelow, AllCome,
        KeysOf, PartKeys,
         SetItems, ClassName, KindOf, PartsFit;
    var c := Open(services, v, t).value;
    if c.Leaf? {
      LeafComesBack(services, v, t, c.data, r);
    } else {
      OpensAlike(services, v, t, c, r);
      if !TooMany(c.dataType, c.parts) {
        var view := OpenElement(services, r, t).value;
        OpenedElementBelow(services, r, t);
        PartsComeBack(services, c.parts, view.parts, Rank(v, t), r);
        if PartsFit(services, c.parts, Rank(v, t)) {
          KeysAlike(services, c.parts, view.parts);
        }
      }
    }
  }

  lemma {:induction false} PartsComeBack(services: Services, parts: seq<Part>, qs: seq<ElementPart>, n: nat,
                                         el: MessageElement)
    requires PartsBelow(parts, n) && ElementsBelow(qs, el) && AllCome(services, parts, qs)
    ensures PartsFit(services, parts, n) ==> UnpackParts(services, qs, el) == Done(NormalParts(services, parts, n))
    ensures !PartsFit(services, parts, n) ==> UnpackParts(services, qs, el).Failed?
    decreases n, |parts|
  {
    hide Pack, Unpack, Normal, Conveys, Rank, Inside, KeyOfLevel, Fits;
    if parts == [] {
      assert NormalParts(services, parts, n) == [];
    } else {
      var p, q := parts[0], qs[0];
      assert PartBelow(p, n) && ElementBelow(q, el) && Comes(services, p, q);
      assert forall k :: 0 <= k < |parts[1..]| ==> parts[1..][k] == parts[k + 1] && qs[1..][k] == qs[k + 1];
      PackedComesBack(services, p.value, p.level.levelType, q.element);
      PartsComeBack(services, parts[1..], qs[1..], n, el);
      FirstAndRest(services, parts, n);
    }
  }

  lemma FirstAndRest(services: Services, parts: seq<Part>, n: nat)
    requires PartsBelow(parts, n) && parts != []
    ensures PartBelow(parts[0], n) && PartsBelow(parts[1..], n)
    ensures NormalParts(services, parts, n) == [NormalPart(services, parts[0], n)]
              + NormalParts(services, parts[1..], n)
    ensures PartsFit(services, parts, n) <==> PartFits(services, parts[0], n) && PartsFit(services, parts[1..], n)
  {
    hide PartBelow, NormalPart, PartFits;
    assert forall k :: 0 <= k < |parts[1..]| ==> parts[1..][k] == parts[k + 1];
    assert forall k :: 0 < k < |parts| ==> parts[k] == parts[1..][k - 1];
  }

  // ---------------------------------------------------------------- values that come back the same

  predicate DistinctKeys(items: seq<Item>)
  {
    forall i, j :: 0 <= i < j < |items| ==> items[i].key != items[j].key
  }

  function Zip(keys: seq<Key>, values: seq<Value>): (r: seq<Item>)
    requires |keys| == |values|
    ensures |r| == |keys|
  {
    seq(|keys|, k requires 0 <= k < |keys| => Item(keys[k], values[k]))
  }

  predicate NoNull(key: Key) { key.TextKey? ==> 0 !in key.text }

  /** v itself, its parts apart, is what the unpacker would make for the type. */
  predicate InShape(services: Services, v: Value, t: TypeDefinition)
  {
    v.NoneValue?
    || match t.container
       case ListContainer => v.List?
       case Int32Map => v.Dict? && DistinctKeys(v.items)
       case TextMap => v.Dict? && DistinctKeys(v.items) && forall k :: 0 <= k < |v.items| ==> NoNull(v.items[k].key)
       case NoContainer =>
         match t.base
         case Numeric(_) => if t.arrayKind.Scalar? then v.Number? else v.Array?
         case TextType => v.Text?
         case Named(n) =>
           if n in services.types && services.types[n].Structure? then
               v.Struct? && HasExactly(v.attributes, services.types[n].members)
           else v.Number?
  }

  predicate HasExactly(attributes: seq<Item>, members: seq<Member>)
  {
    |attributes| == |members| && forall k :: 0 <= k < |members| ==> attributes[k].key == TextKey(members[k].name)
  }

  /** v and all its parts are what the unpacker would make for their types. */
  predicate Canonical(services: Services, v: Value, t: TypeDefinition)
    decreases Rank(v, t)
  {
    && InShape(services, v, t)
    && match Open(services, v, t)
       case Failed(_, _) => true
       case Done(content) =>
         match content
         case Leaf(_) => true
         case Compound(_, _, parts) =>
           OpenedBelow(services, v, t);
           forall k :: 0 <= k < |parts| ==>
             assert PartBelow(parts[k], Rank(v, t));
             PartCanonical(services, parts[k], Rank(v, t))
  }

  predicate PartCanonical(services: Services, part: Part, ghost n: nat)
    requires PartBelow(part, n)
    decreases n, 0
  {
    part.Part? ==> Canonical(services, part.value, part.level.levelType)
  }

  lemma {:induction false} SetFresh(items: seq<Item>, keys: seq<Key>, values: seq<Value>)
    requires |keys| == |values|
    requires forall i, j :: 0 <= i < j < |keys| ==> keys[i] != keys[j]
    requires forall i, j :: 0 <= i < |items| && 0 <= j < |keys| ==> items[i].key != keys[j]
    ensures SetItems(items, keys, values) == items + Zip(keys, values)
    decreases |keys|
  {
    if keys != [] {
      var first := Item(keys[0], values[0]);
      assert SetItem(items, keys[0], values[0]) == items + [first];
      SetFresh(items + [first], keys[1..], values[1..]);
      assert Zip(keys, values) == [first] + Zip(keys[1..], values[1..]);
      assert (items + [first]) + Zip(keys[1..], values[1..]) == items + ([first] + Zip(keys[1..], values[1..]));
    }
  }

  lemma {:induction false} SetDistinct(items: seq<Item>, keys: seq<Key>, values: seq<Value>)
    requires |keys| == |values| && DistinctKeys(items)
    ensures DistinctKeys(SetItems(items, keys, values))
    ensures forall i :: 0 <= i < |SetItems(items, keys, values)| ==>
              SetItems(items, keys, values)[i].key in keys || KeyIn(SetItems(items, keys, values)[i].key, items)
    decreases |keys|
  {
    if keys != [] {
      var next := SetItem(items, keys[0], values[0]);
      SetDistinct(next, keys[1..], values[1..]);
      assert forall key :: KeyIn(key, next) ==> key == keys[0] || KeyIn(key, items);
    }
  }

  predicate KeyIn(key: Key, items: seq<Item>) { exists i :: 0 <= i < |items| && items[i].key == key }

  lemma ZipKeys(items: seq<Item>, keys: seq<Key>, values: seq<Value>)
    requires |keys| == |values| && Zip(keys, values) == items
    ensures |items| == |keys| && forall k :: 0 <= k < |items| ==> items[k].key == keys[k]
  {
  }

  lemma ZipValues(items: seq<Item>, keys: seq<Key>, values: seq<Value>)
    requires |keys| == |values| == |items| && forall k :: 0 <= k < |items| ==> items[k].key == keys[k]
    ensures Zip(keys, values) == items <==> forall k :: 0 <= k < |items| ==> values[k] == items[k].value
  {
    forall k | 0 <= k < |items| ensures Zip(keys, values)[k] == items[k] <==> values[k] == items[k].value {
      assert Zip(keys, values)[k] == Item(keys[k], values[k]);
    }
  }

  /** The keys of what has been set are distinct and among those given. */
  lemma RebuiltKeys(keys: seq<Key>, values: seq<Value>)
    requires |keys| == |values| && forall k :: 0 <= k < |keys| ==> NoNull(keys[k])
    ensures var r := SetItems([], keys, values); DistinctKeys(r) && forall k :: 0 <= k < |r| ==> NoNull(r[k].key)
  {
    hide SetItems, NoNull;
    var r := SetItems([], keys, values);
    SetDistinct([], keys, values);
    forall k | 0 <= k < |r| ensures NoNull(r[k].key) {
      assert r[k].key in keys;
    }
  }

  /** A dictionary is rebuilt exactly when its keys are distinct, unchanged, and its values are the same. */
  lemma DictRebuilt(items: seq<Item>, keys: seq<Key>, values: seq<Value>)
    requires |keys| == |values| == |items|
    requires forall k :: 0 <= k < |items| ==> NoNull(keys[k]) && (NoNull(items[k].key) ==> keys[k] == items[k].key)
    ensures SetItems([], keys, values) == items <==>
            && DistinctKeys(items) && (forall k :: 0 <= k < |items| ==> NoNull(items[k].key))
            && (forall k :: 0 <= k < |items| ==> values[k] == items[k].value)
  {
    hide SetItems, NoNull, Zip, DistinctKeys;
    RebuiltKeys(keys, values);
    if DistinctKeys(items) && forall k :: 0 <= k < |items| ==> NoNull(items[k].key) {
      SameKeysDistinct(items, keys);
      SetFresh([], keys, values);
      assert [] + Zip(keys, values) == Zip(keys, values);
      ZipValues(items, keys, values);
    }
  }

  lemma SameKeysDistinct(items: seq<Item>, keys: seq<Key>)
    requires |keys| == |items| && DistinctKeys(items) && forall k :: 0 <= k < |items| ==> keys[k] == items[k].key
    ensures forall i, j :: 0 <= i < j < |keys| ==> keys[i] != keys[j]
  {
  }

  /** The parts of v that come back the same are the canonical ones. */
  ghost predicate PartsSame(services: Services, parts: seq<Part>, n: nat)
    requires PartsBelow(parts, n)
  {
    forall k :: 0 <= k < |parts| ==> PartSame(services, parts, n, k)
  }

  ghost predicate PartSame(services: Services, parts: seq<Part>, n: nat, k: nat)
    requires PartsBelow(parts, n) && k < |parts|
  {
    assert PartBelow(parts[k], n);
    parts[k].Part? && (PartCanonical(services, parts[k], n) <==> NormalParts(services, parts, n)[k] == parts[k].value)
  }

  lemma TextDictSame(items: seq<Item>, t: TypeDefinition, values: seq<Value>)
    requires |values| == |items| && forall k :: 0 <= k < |items| ==> TextParts(items, t)[k].Part?
    ensures SetItems([], PartKeys(TextParts(items, t)), values) == items <==>
            && DistinctKeys(items) && (forall k :: 0 <= k < |items| ==> NoNull(items[k].key))
            && (forall k :: 0 <= k < |items| ==> values[k] == TextParts(items, t)[k].value)
  {
    hide CString, IsUtf8, SetItems, NoNull, DistinctKeys;
    var keys := PartKeys(TextParts(items, t));
    forall k | 0 <= k < |items|
      ensures NoNull(keys[k]) && (NoNull(items[k].key) ==> keys[k] == items[k].key)
                && TextParts(items, t)[k].value == items[k].value
    {
      hide SetItems;
      assert TextParts(items, t)[k] == TextPart(items[k], t);
      CStringIsUtf8(items[k].key.text);
      assert keys[k] == TextKey(CString(items[k].key.text));
      NullFree(items[k].key.text);
    }
    DictRebuilt(items, keys, values);
  }

  lemma NullFree(text: Utf8)
    ensures IsUtf8(CString(text)) && NoNull(TextKey(CString(text)))
    ensures NoNull(TextKey(text)) ==> CString(text) == text
  {
    CStringIsUtf8(text);
  }

  lemma Int32DictSame(items: seq<Item>, t: TypeDefinition, width: LongWidth, values: seq<Value>)
    requires |values| == |items| && forall k :: 0 <= k < |items| ==> Int32Parts(items, t, width)[k].Part?
    ensures SetItems([], PartKeys(Int32Parts(items, t, width)), values) == items <==>
            DistinctKeys(items) && (forall k :: 0 <= k < |items| ==> values[k] == Int32Parts(items, t, width)[k].value)
  {
    hide IsUtf8, SetItems, DistinctKeys;
    var keys := PartKeys(Int32Parts(items, t, width));
    forall k | 0 <= k < |items|
      ensures NoNull(keys[k]) && NoNull(items[k].key) && keys[k] == items[k].key
                && Int32Parts(items, t, width)[k].value == items[k].value
    {
      assert Int32Parts(items, t, width)[k] == Int32Part(items[k], t, width);
    }
    DictRebuilt(items, keys, values);
  }

  /** The attributes of the members, each in its place. */
  lemma MembersInPlace(attributes: seq<Item>, members: Members)
    requires HasExactly(attributes, members)
    ensures forall k :: 0 <= k < |members| ==>
              MemberParts(attributes, members)[k].Part?
                  && MemberParts(attributes, members)[k].value == attributes[k].value
  {
    hide IsUtf8;
    forall k | 0 <= k < |members| ensures MemberPart(attributes, members[k]).Part?
        && MemberPart(attributes, members[k]).value == attributes[k].value {
      assert Find(attributes, TextKey(members[k].name)) == k;
    }
  }

  lemma MemberKeys(attributes: seq<Item>, members: Members)
    requires forall k :: 0 <= k < |members| ==> MemberParts(attributes, members)[k].Part?
    ensures forall k :: 0 <= k < |members| ==> PartKeys(MemberParts(attributes, members))[k] == TextKey(members[k].name)
    ensures var keys := PartKeys(MemberParts(attributes, members)); forall i, j :: 0 <= i < j < |keys| ==>
              keys[i] != keys[j]
  {
    hide IsUtf8;
    forall k | 0 <= k < |members| ensures PartKeys(MemberParts(attributes, members))[k] == TextKey(members[k].name) {
      assert MemberParts(attributes, members)[k] == MemberPart(attributes, members[k]);
    }
  }

  lemma StructSame(attributes: seq<Item>, members: Members, values: seq<Value>)
    requires |values| == |members| && forall k :: 0 <= k < |members| ==> MemberParts(attributes, members)[k].Part?
    ensures SetItems([], PartKeys(MemberParts(attributes, members)), values) == attributes <==>
            && HasExactly(attributes, members)
            && forall k :: 0 <= k < |members| ==> values[k] == MemberParts(attributes, members)[k].value
  {
    hide IsUtf8, SetItems, Zip, MemberParts, PartKeys;
    var keys := PartKeys(MemberParts(attributes, members));
    MemberKeys(attributes, members);
    SetFresh([], keys, values);
    assert [] + Zip(keys, values) == Zip(keys, values);
    if Zip(keys, values) == attributes { ZipKeys(attributes, keys, values); }
    if HasExactly(attributes, members) {
      MembersInPlace(attributes, members);
      ZipValues(attributes, keys, values);
    }
  }

  lemma PartsNormal(services: Services, parts: seq<Part>, n: nat)
    requires PartsBelow(parts, n) && PartsSame(services, parts, n)
    ensures forall k :: 0 <= k < |parts| ==> parts[k].Part? && PartBelow(parts[k], n)
    ensures forall k :: 0 <= k < |parts| ==>
              (PartCanonical(services, parts[k], n) <==> NormalParts(services, parts, n)[k] == parts[k].value)
  {
    hide PartCanonical, NormalParts;
    forall k | 0 <= k < |parts| ensures parts[k].Part? && PartBelow(parts[k], n)
      ensures PartCanonical(services, parts[k], n) <==> NormalParts(services, parts, n)[k] == parts[k].value
    {
      assert PartSame(services, parts, n, k);
    }
  }

  lemma StructureSame(services: Services, v: Value, t: TypeDefinition, c: Content)
    requires Open(services, v, t) == Done(c) && c.Compound? && v.Struct?
    requires PartsBelow(c.parts, Rank(v, t)) && PartsSame(services, c.parts, Rank(v, t))
    ensures Normal(services, v, t) == v <==> Canonical(services, v, t)
  {
    hide IsUtf8, CString, ClassName, SetItems, SequenceParts, Int32Parts, TextParts, MemberParts, PartKeys, NormalParts,
         PartCanonical, Rank, DistinctKeys, NoNull, HasExactly, Items;
    var n := Rank(v, t);
    var values := NormalParts(services, c.parts, n);
    PartsNormal(services, c.parts, n);
    StructSame(v.attributes, services.types[t.base.typeName].members, values);
  }

  lemma ContainerSame(services: Services, v: Value, t: TypeDefinition, c: Content)
    requires Open(services, v, t) == Done(c) && c.Compound? && !v.Struct?
    requires PartsBelow(c.parts, Rank(v, t)) && PartsSame(services, c.parts, Rank(v, t))
    ensures Normal(services, v, t) == v <==> Canonical(services, v, t)
  {
    hide IsUtf8, CString, ClassName, SetItems, SequenceParts, Int32Parts, TextParts, MemberParts, PartKeys, NormalParts,
         PartCanonical, Rank, DistinctKeys, NoNull, HasExactly, Items;
    var n := Rank(v, t);
    var values := NormalParts(services, c.parts, n);
    PartsNormal(services, c.parts, n);
    if t.container.TextMap? {
      TextDictSame(v.items, Bare(t), values);
    } else if v.Dict? {
      Int32DictSame(v.items, Bare(t), services.longWidth, values);
    } else if v.List? {
      ListSame(v, Bare(t), values);
    }
  }

  lemma ListSame(v: Value, t: TypeDefinition, values: seq<Value>)
    requires v.List? && |values| == |Items(v)| <= 0x7FFF_FFFF
    ensures values == v.values <==> forall k :: 0 <= k < |values| ==> values[k] == SequenceParts(Items(v), t)[k].value
  {
    assert forall k :: 0 <= k < |values| ==> SequenceParts(Items(v), t)[k].value == v.values[k];
  }

  lemma LeafSame(services: Services, v: Value, t: TypeDefinition, data: ElementContent)
    requires Open(services, v, t) == Done(Leaf(data)) && Fits(services, v, t)
    ensures Normal(services, v, t) == v <==> Canonical(services, v, t)
  {
    hide Items, IsUtf8, ClassName, SequenceParts, Int32Parts, TextParts, MemberParts;
    if !v.NoneValue? && !t.base.TextType? {
      var code := if t.base.Numeric? then t.base.code else INT32_T;
      PackedNumbers(v, code, KindFor(services, t));
    }
  }

  /** A value is its own normal form exactly when it is canonical. */
  lemma {:induction false} NormalOfCanonical(services: Services, v: Value, t: TypeDefinition)
    requires Pack(services, v, t).Done? && Fits(services, v, t)
    ensures Normal(services, v, t) == v <==> Canonical(services, v, t)
    decreases Rank(v, t)
  {
    hide Open, PackParts, NormalParts, Rank, Normal, Canonical, Tagged, NewElement;
    var c := Open(services, v, t).value;
    if c.Leaf? {
      LeafSame(services, v, t, c.data);
    } else {
      OpenedBelow(services, v, t);
      var n := Rank(v, t);
      forall k | 0 <= k < |c.parts| ensures PartSame(services, c.parts, n, k) {
        PackedParts(services, c.parts, n, k);
        var part := c.parts[k];
        assert PartBelow(part, n) && PartFits(services, part, n);
        NormalOfCanonical(services, part.value, part.level.levelType);
        NormalPartAt(services, c.parts, n, k);
      }
      if v.Struct? { StructureSame(services, v, t, c); } else { ContainerSame(services, v, t, c); }
    }
  }

  lemma NormalPartAt(services: Services, parts: seq<Part>, n: nat, k: nat)
    requires PartsBelow(parts, n) && k < |parts|
    ensures PartBelow(parts[k], n) && NormalParts(services, parts, n)[k] == NormalPart(services, parts[k], n)
  {
    assert PartBelow(parts[k], n);
  }

  /** Every value of the type is packed, and unpacking gives the same value exactly when every numpy
    * array in it has a length its type allows and the value is of the kinds that unpacking makes. */
  lemma RoundTrip(services: Services, v: Value, t: TypeDefinition)
    requires OfType(services, v, t)
    ensures Unpack(services, Packed(services, v, t), t) == Done(v) <==>
              Fits(services, v, t) && Canonical(services, v, t)
  {
    hide Pack, Unpack, Fits, Normal, Canonical, Conveys, OfType;
    var el := Packed(services, v, t);
    EveryElementConveysItself(el);
    PackedComesBack(services, v, t, el);
    if Fits(services, v, t) {
      NormalOfCanonical(services, v, t);
    }
  }

  /** An array of the wrong length is packed, and only the receiver refuses it. */
  lemma WrongLengthIsPacked(services: Services, a: NumericArray, t: TypeDefinition)
    requires t.container.NoContainer? && t.base == Numeric(a.dataType) && !LengthFits(t.arrayKind, Count(a))
    ensures Pack(services, Array(a), t).Done? && Unpack(services, Pack(services, Array(a), t).value, t).Failed?
  {
    hide RRArrayElementSize;
    assert Open(services, Array(a), t) == Done(Leaf(ArrayData(a)));
  }

  /** A dictionary with a null in a key does not come back. */
  lemma NullInKeyIsLost(services: Services, items: seq<Item>, t: TypeDefinition, k: nat)
    requires t.container.TextMap? && k < |items| && items[k].key.TextKey? && 0 in items[k].key.text
    requires Pack(services, Dict(items), t).Done?
    ensures Unpack(services, Pack(services, Dict(items), t).value, t) != Done(Dict(items))
  {
    hide Pack, Unpack, Open, Fits, OfType;
    PackedWhenOfType(services, Dict(items), t);
    RoundTrip(services, Dict(items), t);
    assert !NoNull(items[k].key);
  }
}
