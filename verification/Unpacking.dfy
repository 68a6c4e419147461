/** UnpackMessageElementImpl::UnpackMessageElement: message elements to Python values. */
module Unpacking {
  import opened Numbers
  import opened Messages
  import opened Results
  import opened PythonValues
  import opened ElementTypes
  import opened Packing

  // ---------------------------------------------------------------- one level of an element

  /** A nested element with the key of its value; the key is missing where its text is no text. */
  datatype ElementPart =
    | ElementPart(level: Level, element: MessageElement, key: Option<Key>)
    | BadElement(problem: Problem, path: seq<Level>)

  datatype Kind = ListKind | DictKind | StructKind(className: Bytes)

  datatype View =
    | Plain(value: Value)
    | Nested(kind: Kind, parts: seq<ElementPart>)

  function ListPart(el: MessageElement, k: nat, t: TypeDefinition): ElementPart
  {
    var level := Level(Index(k), t);
    if Has(el.elementFlags, ELEMENT_NUMBER) then
      if SameIndex(k, el.elementNumber) then ElementPart(level, el, Some(IntKey(k)))
          else BadElement(WrongDataType, [level])
    else if Has(el.elementFlags, ELEMENT_NAME_STR) then
      match LexicalCast(el.elementName)
      case None => BadElement(BadNumberCast, [level])
      case Some(n) => if SameIndex(k, n) then ElementPart(level, el, Some(IntKey(k)))
          else BadElement(WrongDataType, [level])
    else BadElement(WrongDataType, [level])
  }

  function ListParts(es: seq<MessageElement>, t: TypeDefinition): (r: seq<ElementPart>)
    ensures |r| == |es|
  {
    seq(|es|, k requires 0 <= k < |es| => ListPart(es[k], k, t))
  }

  function VectorPart(el: MessageElement, t: TypeDefinition): ElementPart
  {
    if Has(el.elementFlags, ELEMENT_NUMBER) then
      ElementPart(Level(Index(el.elementNumber), t), el, Some(IntKey(el.elementNumber)))
    else if Has(el.elementFlags, ELEMENT_NAME_STR) then
      match LexicalCast(el.elementName)
      case None => BadElement(BadNumberCast, [])
      case Some(n) => ElementPart(Level(Index(n), t), el, Some(IntKey(n)))
    else BadElement(WrongDataType, [])
  }

  function VectorParts(es: seq<MessageElement>, t: TypeDefinition): (r: seq<ElementPart>)
    ensures |r| == |es|
  {
    seq(|es|, k requires 0 <= k < |es| => VectorPart(es[k], t))
  }

  function DictionaryPart(el: MessageElement, t: TypeDefinition): ElementPart
  {
    ElementPart(Level(KeyOf(el.elementName), t), el,
                if IsUtf8(el.elementName) then Some(TextKey(el.elementName)) else None)
  }

  function DictionaryParts(es: seq<MessageElement>, t: TypeDefinition): (r: seq<ElementPart>)
    ensures |r| == |es|
  {
    seq(|es|, k requires 0 <= k < |es| => DictionaryPart(es[k], t))
  }

  function FieldPart(es: seq<MessageElement>, m: Member): ElementPart
  {
    var level, k := Level(Field(m.name), m.fieldType), FindElement(es, m.name);
    if k < |es| then ElementPart(level, es[k], Some(TextKey(m.name))) else BadElement(MissingElement, [level])
  }

  function FieldParts(es: seq<MessageElement>, members: seq<Member>): (r: seq<ElementPart>)
    ensures |r| == |members|
  {
    seq(|members|, k requires 0 <= k < |members| => FieldPart(es, members[k]))
  }

  /** UnpackFromRRArray for an array of the type. */
  function UnpackNumbers(data: ElementContent, code: NumericType, kind: ArrayKind): Outcome<Value>
  {
    match data
    case NoData => if kind.Scalar? then Failed(WrongDataType, []) else Done(NoneValue)
    case NestedData(_, _, _) => Failed(WrongCast, [])
    case ArrayData(a) =>
      if a.dataType != code || !LengthFits(kind, Count(a)) then Failed(WrongDataType, [])
      else Done(if kind.Scalar? then OneOf(a, code) else Array(a))
  }

  function OneOf(a: RRArray, code: NumericType): Value
    requires a.dataType == code && Count(a) == 1
  {
    OneElement(|a.memory|, NumberSize(code));
    Number(a)
  }

  lemma OneElement(length: nat, n: nat)
    requires n > 0 && length % n == 0 && length / n == 1
    ensures length == n
  {
  }

  /** UnpackFromRRArray where the type is no numeric type. */
  function UnpackNoNumbers(data: ElementContent, kind: ArrayKind): Outcome<Value>
  {
    match data
    case NoData => if kind.Scalar? then Failed(WrongDataType, []) else Done(NoneValue)
    case NestedData(_, _, _) => Failed(WrongCast, [])
    case ArrayData(_) => Failed(WrongDataType, [])
  }

  function UnpackNone(services: Services, t: TypeDefinition): Outcome<Value>
  {
    if !t.container.NoContainer? then Done(NoneValue)
    else
      match t.base
      case Numeric(_) => Failed(WrongDataType, [])
      case TextType => Failed(WrongDataType, [])
      case Named(n) => if n in services.types then Done(NoneValue) else Failed(UnknownType, [])
  }

  function UnpackTyped(services: Services, data: ElementContent, t: TypeDefinition): Outcome<Value>
  {
    match t.base
    case Numeric(code) => UnpackNumbers(data, code, t.arrayKind)
    case TextType => UnpackNoNumbers(data, t.arrayKind)
    case Named(n) =>
      if n !in services.types then Failed(UnknownType, [])
      else if services.types[n].Enumeration? then UnpackNumbers(data, INT32_T, Scalar)
      else UnpackNoNumbers(data, t.arrayKind)
  }

  function UnpackText(data: ElementContent): Outcome<Value>
  {
    match data
    case NoData => Failed(NullData, [])
    case NestedData(_, _, _) => Failed(WrongCast, [])
    case ArrayData(a) =>
      if a.dataType != STRING_T then Failed(WrongCast, [])
      else if IsUtf8(a.memory) then Done(Text(a.memory))
      else Failed(NotText, [])
  }

  /** CastDataToNestedList, and the casts of the list's size. */
  function NestedElements(data: ElementContent, dataType: uint16, max: nat): Outcome<seq<MessageElement>>
  {
    match data
    case NoData => Failed(NullData, [])
    case ArrayData(_) => Failed(WrongCast, [])
    case NestedData(d, _, es) =>
      if d != dataType then Failed(WrongCast, [])
      else if |es| > max then Failed(BadNumberCast, [])
      else Done(es)
  }

  /** What UnpackMessageElement does with an element before it turns to the nested ones. */
  function OpenElement(services: Services, el: MessageElement, t: TypeDefinition): Outcome<View>
  {
    if el.elementType == VOID_T then var v :- UnpackNone(services, t); Done(Plain(v))
    else if IsNumeric(el.elementType) then var v :- UnpackTyped(services, el.data, t); Done(Plain(v))
    else if el.elementType == STRING_T then var v :- UnpackText(el.data); Done(Plain(v))
    else if el.elementType == STRUCTURE_T then OpenStructure(services, el)
    else if el.elementType == LIST_T then
      var es :- NestedElements(el.data, LIST_T, UINT32_MAX);
      Done(Nested(ListKind, ListParts(es, Bare(t))))
    else if el.elementType == VECTOR_T then
      var es :- NestedElements(el.data, VECTOR_T, 0x7FFF_FFFF);
      Done(Nested(DictKind, VectorParts(es, Bare(t))))
    else if el.elementType == DICTIONARY_T then
      var es :- NestedElements(el.data, DICTIONARY_T, 0x7FFF_FFFF);
      Done(Nested(DictKind, DictionaryParts(es, Bare(t))))
    else Failed(OtherKind, [])
  }

  /** The members come from the type the element names, not from the type that is expected. */
  function OpenStructure(services: Services, el: MessageElement): Outcome<View>
  {
    var n := el.elementTypeName;
    if n !in services.types || !services.types[n].Structure? then Failed(UnknownType, [])
    else
      var es :- NestedElements(el.data, STRUCTURE_T, if el.data.NestedData? then |el.data.elements| else 0);
      Done(Nested(StructKind(ClassName(n)), FieldParts(es, services.types[n].members)))
  }

  // ---------------------------------------------------------------- all levels

  ghost predicate ElementsBelow(parts: seq<ElementPart>, el: MessageElement)
  {
    forall k :: 0 <= k < |parts| ==> ElementBelow(parts[k], el)
  }

  ghost predicate Inside(x: MessageElement, el: MessageElement) { x < el }

  ghost predicate ElementBelow(part: ElementPart, el: MessageElement) { part.ElementPart? ==> Inside(part.element, el) }

  lemma OpenedElementBelow(services: Services, el: MessageElement, t: TypeDefinition)
    requires OpenElement(services, el, t).Done? && OpenElement(services, el, t).value.Nested?
    ensures ElementsBelow(OpenElement(services, el, t).value.parts, el)
  {
    hide IsUtf8, LexicalCast, ClassName, UnpackNone, UnpackTyped, UnpackText;
    var es := el.data.elements;
    assert forall k :: 0 <= k < |es| ==> es[k] < el;
  }

  predicate HasKey(part: ElementPart) { part.ElementPart? && part.key.Some? }

  function KeysOf(parts: seq<ElementPart>): (r: seq<Key>)
    requires forall k :: 0 <= k < |parts| ==> HasKey(parts[k])
    ensures |r| == |parts|
  {
    seq(|parts|, k requires 0 <= k < |parts| => assert HasKey(parts[k]); parts[k].key.value)
  }

  function Assemble(kind: Kind, keys: seq<Key>, values: seq<Value>): Value
    requires |keys| == |values|
  {
    match kind
    case ListKind => List(values)
    case DictKind => Dict(SetItems([], keys, values))
    case StructKind(className) => Struct(className, SetItems([], keys, values))
  }

  function Unpack(services: Services, el: MessageElement, t: TypeDefinition): Outcome<Value>
    decreases el
  {
    var view :- OpenElement(services, el, t);
    match view
    case Plain(v) => Done(v)
    case Nested(kind, parts) =>
      OpenedElementBelow(services, el, t);
      UnpackNested(services, kind, parts, el)
  }

  function UnpackNested(services: Services, kind: Kind, parts: seq<ElementPart>,
                        ghost el: MessageElement): Outcome<Value>
    requires ElementsBelow(parts, el)
    decreases el, |parts| + 1
  {
    var values :- UnpackParts(services, parts, el);
    Done(Assemble(kind, KeysOf(parts), values))
  }

  function UnpackParts(services: Services, parts: seq<ElementPart>, ghost el: MessageElement): (r: Outcome<seq<Value>>)
    requires ElementsBelow(parts, el)
    ensures r.Done? ==> |r.value| == |parts| && forall k :: 0 <= k < |parts| ==> HasKey(parts[k])
    decreases el, |parts|
  {
    if parts == [] then Done([])
    else
      assert ElementBelow(parts[0], el) && forall k :: 0 < k < |parts| ==> parts[k] == parts[1..][k - 1];
      if parts[0].BadElement? then Failed(parts[0].problem, parts[0].path)
      else
        assert Inside(parts[0].element, el);
        var v :- Unpack(services, parts[0].element, parts[0].level.levelType).At(parts[0].level);
        if parts[0].key.None? then Failed(WrongDataType, [parts[0].level])
        else
          var vs :- UnpackParts(services, parts[1..], el);
          Done([v] + vs)
  }

  // ---------------------------------------------------------------- which elements are unpacked

  ghost predicate PartUnpacks(services: Services, part: ElementPart)
  {
    HasKey(part) && Unpack(services, part.element, part.level.levelType).Done?
  }

  ghost predicate PartUnpackable(services: Services, part: ElementPart)
  {
    HasKey(part) && Unpackable(services, part.element, part.level.levelType)
  }

  lemma {:induction false} PartsUnpackedWhen(services: Services, parts: seq<ElementPart>, el: MessageElement)
    requires ElementsBelow(parts, el)
    ensures UnpackParts(services, parts, el).Done? <==> forall k | 0 <= k < |parts| :: PartUnpacks(services, parts[k])
    decreases |parts|
  {
    hide Unpack, Inside;
    if parts != [] {
      assert ElementBelow(parts[0], el) && forall j :: 0 < j < |parts| ==> parts[j] == parts[1..][j - 1];
      PartsUnpackedWhen(services, parts[1..], el);
    }
  }

  lemma PlainUnpackedWhen(services: Services, el: MessageElement, t: TypeDefinition)
    requires OpenElement(services, el, t).Failed? || OpenElement(services, el, t).value.Plain?
    ensures OpenElement(services, el, t).Done? <==> Unpackable(services, el, t)
  {
    hide IsUtf8, ClassName, LengthFits, Count, ListParts, VectorParts, DictionaryParts, FieldParts, LexicalCast;
  }

  lemma NestedUnpackableWhen(services: Services, el: MessageElement, t: TypeDefinition)
    requires OpenElement(services, el, t).Done? && OpenElement(services, el, t).value.Nested?
    ensures var parts := OpenElement(services, el, t).value.parts;
            Unpackable(services, el, t) <==> forall k | 0 <= k < |parts| :: PartUnpackable(services, parts[k])
  {
    hide IsUtf8, ClassName, LexicalCast, UnpackNone, UnpackTyped, UnpackText, SameIndex;
    var parts, es := OpenElement(services, el, t).value.parts, el.data.elements;
    if el.elementType == STRUCTURE_T {
      var members := services.types[el.elementTypeName].members;
      forall k | 0 <= k < |parts|
        ensures PartUnpackable(services, parts[k]) <==> MemberUnpackable(services, es, members[k]) {
      }
    } else if el.elementType == LIST_T {
      forall k | 0 <= k < |parts|
        ensures PartUnpackable(services, parts[k]) <==> IsMarked(es[k], k) && Unpackable(services, es[k], Bare(t)) {
      }
    } else if el.elementType == VECTOR_T {
      forall k | 0 <= k < |parts|
        ensures PartUnpackable(services, parts[k]) <==> MarkOf(es[k]).Some? && Unpackable(services, es[k], Bare(t)) {
      }
    } else {
      forall k | 0 <= k < |parts|
        ensures PartUnpackable(services, parts[k]) <==>
                  IsUtf8(es[k].elementName) && Unpackable(services, es[k], Bare(t)) {
      }
    }
  }

  /** An element is unpacked if and only if it is, at every depth, of the form its own type calls for. */
  lemma {:induction false} UnpackedWhenUnpackable(services: Services, el: MessageElement, t: TypeDefinition)
    ensures Unpack(services, el, t).Done? <==> Unpackable(services, el, t)
    decreases el
  {
    hide OpenElement, Unpackable, UnpackParts, Assemble, Inside;
    if OpenElement(services, el, t).Failed? || OpenElement(services, el, t).value.Plain? {
      PlainUnpackedWhen(services, el, t);
    } else {
      OpenedElementBelow(services, el, t);
      var parts := OpenElement(services, el, t).value.parts;
      PartsUnpackedWhen(services, parts, el);
      NestedUnpackableWhen(services, el, t);
      forall k | 0 <= k < |parts| ensures PartUnpacks(services, parts[k]) <==> PartUnpackable(services, parts[k]) {
        if parts[k].ElementPart? {
          assert ElementBelow(parts[k], el);
          IsInside(parts[k].element, el);
          UnpackedWhenUnpackable(services, parts[k].element, parts[k].level.levelType);
        }
      }
    }
  }

  lemma IsInside(x: MessageElement, el: MessageElement)
    requires Inside(x, el)
    ensures x < el
  {
  }

  /** The types that are expected do not matter to strings: any type gets one. */
  lemma TextForAnyType(services: Services, el: MessageElement, t: TypeDefinition, text: Utf8)
    requires el.elementType == STRING_T && el.data == ArrayData(ArrayMemory(STRING_T, text))
    ensures Unpack(services, el, t) == Done(Text(text))
  {
  }

  // ---------------------------------------------------------------- the unpacker

  /** The outcome of the parts when the first ones have given vs and the others give o. */
  function AfterValues(vs: seq<Value>, o: Outcome<seq<Value>>): Outcome<seq<Value>>
  {
    if o.Done? then Done(vs + o.value) else o
  }

  lemma NextElement(services: Services, parts: seq<ElementPart>, i: nat, el: MessageElement, vs: seq<Value>)
    requires ElementsBelow(parts, el) && i < |parts|
    ensures ElementsBelow(parts[i..], el) && ElementsBelow(parts[i + 1..], el) && ElementBelow(parts[i], el)
    ensures parts[i].BadElement? ==>
              AfterValues(vs, UnpackParts(services, parts[i..], el)) == Failed(parts[i].problem, parts[i].path)
    ensures parts[i].ElementPart? ==>
              var p := Unpack(services, parts[i].element, parts[i].level.levelType);
              AfterValues(vs, UnpackParts(services, parts[i..], el)) ==
              if p.Failed? then Failed(p.problem, [parts[i].level] + p.path)
              else if parts[i].key.None? then Failed(WrongDataType, [parts[i].level])
              else AfterValues(vs + [p.value], UnpackParts(services, parts[i + 1..], el))
  {
    hide Unpack, Inside;
    assert parts[i..][0] == parts[i] && parts[i..][1..] == parts[i + 1..];
    if parts[i].ElementPart? {
      var o := UnpackParts(services, parts[i + 1..], el);
      var p := Unpack(services, parts[i].element, parts[i].level.levelType);
      if p.Done? && o.Done? {
        assert vs + ([p.value] + o.value) == (vs + [p.value]) + o.value;
      }
    }
  }

  lemma NoElementsYet(services: Services, parts: seq<ElementPart>, el: MessageElement)
    requires ElementsBelow(parts, el)
    ensures parts[0..] == parts && AfterValues([], UnpackParts(services, parts, el)) == UnpackParts(services, parts, el)
  {
    hide UnpackParts;
    var o := UnpackParts(services, parts, el);
    assert o.Done? ==> [] + o.value == o.value;
  }

  lemma NoMoreElements(services: Services, parts: seq<ElementPart>, el: MessageElement, vs: seq<Value>)
    ensures parts[|parts|..] == [] && AfterValues(vs, UnpackParts(services, [], el)) == Done(vs)
  {
    assert vs + [] == vs;
  }

  lemma {:induction false} SetOneMore(items: seq<Item>, keys: seq<Key>, values: seq<Value>, key: Key, value: Value)
    requires |keys| == |values|
    ensures SetItems(items, keys + [key], values + [value]) == SetItem(SetItems(items, keys, values), key, value)
    decreases |keys|
  {
    hide SetItem;
    if keys != [] {
      assert (keys + [key])[1..] == keys[1..] + [key] && (values + [value])[1..] == values[1..] + [value];
      SetOneMore(SetItem(items, keys[0], values[0]), keys[1..], values[1..], key, value);
    } else {
      assert keys + [key] == [key] && values + [value] == [value];
      assert [key][1..] == [] && [value][1..] == [];
    }
  }

  /** The keys of the first i parts, as far as a loop over them has come. */
  ghost predicate KeysSoFar(parts: seq<ElementPart>, i: nat, keys: seq<Key>)
  {
    i <= |parts| && |keys| == i && forall j :: 0 <= j < i ==> HasKey(parts[j]) && keys[j] == parts[j].key.value
  }

  class UnpackMessageElementImpl {
    const services: Services
    var fields: seq<Level>   // field_name and field_type

    constructor (services: Services)
      ensures this.services == services && fields == []
    {
      this.services := services;
      fields := [];
    }

    method PushFieldLevel(level: Level)
      modifies this`fields
      ensures fields == old(fields) + [level]
    {
      fields := fields + [level];
    }

    method PopFieldLevel()
      requires fields != []
      modifies this`fields
      ensures fields == old(fields)[..|old(fields)| - 1]
    {
      fields := fields[..|fields| - 1];
    }

    /** One nested element, with its level pushed. */
    method UnpackPart(level: Level, element: MessageElement, ghost el: MessageElement) returns (r: Attempt<Value>)
      requires Inside(element, el)
      modifies this`fields
      ensures match Unpack(services, element, level.levelType)
              case Done(v) => r == Returned(v) && fields == old(fields) + [level]
              case Failed(problem, path) => r == Threw(problem) && fields == old(fields) + ([level] + path)
      decreases el, 0
    {
      hide Unpack;
      PushFieldLevel(level);
      r := UnpackMessageElement(element, level.levelType);
      if r.Threw? {
        ghost var path := Unpack(services, element, level.levelType).path;
        assert old(fields) + [level] + path == old(fields) + ([level] + path);
      }
    }

    method UnpackList(es: seq<MessageElement>, type2: TypeDefinition, ghost el: MessageElement)
      returns (r: Attempt<Value>)
      requires ElementsBelow(ListParts(es, type2), el)
      modifies this`fields
      ensures Follows(UnpackNested(services, ListKind, ListParts(es, type2), el), r, old(fields), fields)
      decreases el, 1
    {
      hide Unpack, UnpackParts, Inside, LexicalCast, SameIndex;
      ghost var parts := ListParts(es, type2);
      var ret: seq<Value> := [];
      var i := 0;
      NoElementsYet(services, parts, el);
      while i < |es|
        invariant i <= |es| && fields == old(fields) && ElementsBelow(parts[i..], el) && |ret| == i
        invariant UnpackParts(services, parts, el) == AfterValues(ret, UnpackParts(services, parts[i..], el))
      {
        NextElement(services, parts, i, el, ret);
        var el1 := es[i];
        if Has(el1.elementFlags, ELEMENT_NUMBER) {
          if !SameIndex(i, el1.elementNumber) { PushFieldLevel(Level(Index(i), type2)); return Threw(WrongDataType); }
        } else if Has(el1.elementFlags, ELEMENT_NAME_STR) {
          var n := LexicalCast(el1.elementName);
          if n.None? { PushFieldLevel(Level(Index(i), type2)); return Threw(BadNumberCast); }
          if !SameIndex(i, n.value) { PushFieldLevel(Level(Index(i), type2)); return Threw(WrongDataType); }
        } else {
          PushFieldLevel(Level(Index(i), type2));
          return Threw(WrongDataType);
        }
        var el2 := UnpackPart(Level(Index(i), type2), el1, el);
        if el2.Threw? { return el2; }
        ret := ret + [el2.value];
        PopFieldLevel();
        i := i + 1;
      }
      NoMoreElements(services, parts, el, ret);
      r := Returned(List(ret));
    }

    method UnpackVector(es: seq<MessageElement>, type2: TypeDefinition, ghost el: MessageElement)
      returns (r: Attempt<Value>)
      requires ElementsBelow(VectorParts(es, type2), el)
      modifies this`fields
      ensures Follows(UnpackNested(services, DictKind, VectorParts(es, type2), el), r, old(fields), fields)
      decreases el, 1
    {
      hide Unpack, UnpackParts, Inside, SetItem, SetItems, IsUtf8, LexicalCast;
      ghost var parts := VectorParts(es, type2);
      ghost var keys: seq<Key>, values: seq<Value> := [], [];
      var ret: seq<Item> := [];
      var i := 0;
      NoElementsYet(services, parts, el);
      NothingSet();
      while i < |es|
        invariant i <= |es| && fields == old(fields) && ElementsBelow(parts[i..], el)
        invariant KeysSoFar(parts, i, keys) && |values| == i && ret == SetItems([], keys, values)
        invariant UnpackParts(services, parts, el) == AfterValues(values, UnpackParts(services, parts[i..], el))
      {
        NextElement(services, parts, i, el, values);
        var el1 := es[i];
        var i2: int32 := el1.elementNumber;
        if !Has(el1.elementFlags, ELEMENT_NUMBER) {
          if !Has(el1.elementFlags, ELEMENT_NAME_STR) { return Threw(WrongDataType); }
          var n := LexicalCast(el1.elementName);
          if n.None? { return Threw(BadNumberCast); }
          i2 := n.value;
        }
        var el2 := UnpackPart(Level(Index(i2), type2), el1, el);
        if el2.Threw? { return el2; }
        SetOneMore([], keys, values, IntKey(i2), el2.value);
        ret := SetItem(ret, IntKey(i2), el2.value);
        PopFieldLevel();
        keys, values, i := keys + [IntKey(i2)], values + [el2.value], i + 1;
      }
      NoMoreElements(services, parts, el, values);
      assert keys == KeysOf(parts);
      r := Returned(Dict(ret));
    }

    method UnpackDictionary(es: seq<MessageElement>, type2: TypeDefinition, ghost el: MessageElement)
      returns (r: Attempt<Value>)
      requires ElementsBelow(DictionaryParts(es, type2), el)
      modifies this`fields
      ensures Follows(UnpackNested(services, DictKind, DictionaryParts(es, type2), el), r, old(fields), fields)
      decreases el, 1
    {
      hide Unpack, UnpackParts, Inside, SetItem, SetItems, IsUtf8;
      ghost var parts := DictionaryParts(es, type2);
      ghost var keys: seq<Key>, values: seq<Value> := [], [];
      var ret: seq<Item> := [];
      var i := 0;
      NoElementsYet(services, parts, el);
      NothingSet();
      while i < |es|
        invariant i <= |es| && fields == old(fields) && ElementsBelow(parts[i..], el)
        invariant KeysSoFar(parts, i, keys) && |values| == i && ret == SetItems([], keys, values)
        invariant UnpackParts(services, parts, el) == AfterValues(values, UnpackParts(services, parts[i..], el))
      {
        NextElement(services, parts, i, el, values);
        var name := es[i].elementName;
        var el2 := UnpackPart(Level(KeyOf(name), type2), es[i], el);
        if el2.Threw? { return el2; }
        if !IsUtf8(name) { return Threw(WrongDataType); }
        SetOneMore([], keys, values, TextKey(name), el2.value);
        ret := SetItem(ret, TextKey(name), el2.value);
        PopFieldLevel();
        keys, values, i := keys + [TextKey(name)], values + [el2.value], i + 1;
      }
      NoMoreElements(services, parts, el, values);
      assert keys == KeysOf(parts);
      r := Returned(Dict(ret));
    }

    method UnpackStructure(es: seq<MessageElement>, members: seq<Member>, className: Bytes, ghost el: MessageElement)
      returns (r: Attempt<Value>)
      requires ElementsBelow(FieldParts(es, members), el)
      modifies this`fields
      ensures Follows(UnpackNested(services, StructKind(className), FieldParts(es, members), el), r, old(fields),
                      fields)
      decreases el, 1
    {
      hide Unpack, UnpackParts, Inside, SetItem, SetItems, IsUtf8;
      ghost var parts := FieldParts(es, members);
      ghost var keys: seq<Key>, values: seq<Value> := [], [];
      var ret: seq<Item> := [];
      var i := 0;
      NoElementsYet(services, parts, el);
      NothingSet();
      while i < |members|
        invariant i <= |members| && fields == old(fields) && ElementsBelow(parts[i..], el)
        invariant KeysSoFar(parts, i, keys) && |values| == i && ret == SetItems([], keys, values)
        invariant UnpackParts(services, parts, el) == AfterValues(values, UnpackParts(services, parts[i..], el))
      {
        NextElement(services, parts, i, el, values);
        var p := members[i];
        var k := FindElement(es, p.name);
        if k == |es| {
          PushFieldLevel(Level(Field(p.name), p.fieldType));
          return Threw(MissingElement);
        }
        var el2 := UnpackPart(Level(Field(p.name), p.fieldType), es[k], el);
        if el2.Threw? { return el2; }
        SetOneMore([], keys, values, TextKey(p.name), el2.value);
        ret := SetItem(ret, TextKey(p.name), el2.value);
        PopFieldLevel();
        keys, values, i := keys + [TextKey(p.name)], values + [el2.value], i + 1;
      }
      NoMoreElements(services, parts, el, values);
      assert keys == KeysOf(parts);
      r := Returned(Struct(className, ret));
    }

    method UnpackMessageElement(element: MessageElement, type1: TypeDefinition) returns (r: Attempt<Value>)
      modifies this`fields
      ensures Follows(Unpack(services, element, type1), r, old(fields), fields)
      ensures r.Returned? <==> Unpackable(services, element, type1)
      decreases element
    {
      hide UnpackParts, UnpackNested, ElementsBelow, IsUtf8, ClassName, ListParts, VectorParts, DictionaryParts,
           FieldParts, UnpackNone, UnpackTyped, UnpackText, Unpackable;
      UnpackedWhenUnpackable(services, element, type1);
      var view := OpenElement(services, element, type1);
      if view.Failed? {
        assert view.path == [] by { NoPathInView(services, element, type1); }
        return Threw(view.problem);
      }
      if view.value.Plain? { return Returned(view.value.value); }
      OpenedElementBelow(services, element, type1);
      var es, type2 := element.data.elements, Bare(type1);
      if element.elementType == STRUCTURE_T {
        var n := element.elementTypeName;
        r := UnpackStructure(es, services.types[n].members, ClassName(n), element);
      } else if element.elementType == LIST_T {
        r := UnpackList(es, type2, element);
      } else if element.elementType == VECTOR_T {
        r := UnpackVector(es, type2, element);
      } else {
        r := UnpackDictionary(es, type2, element);
      }
    }
  }

  lemma NothingSet()
    ensures SetItems([], [], []) == []
  {
  }

  lemma NoPathInView(services: Services, el: MessageElement, t: TypeDefinition)
    ensures OpenElement(services, el, t).Failed? ==> OpenElement(services, el, t).path == []
  {
    hide IsUtf8, ClassName, ListParts, VectorParts, DictionaryParts, FieldParts;
  }
}
