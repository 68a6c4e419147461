/** PackMessageElementImpl::PackMessageElement: Python values to message elements. */
module Packing {
  import opened Numbers
  import opened Messages
  import opened Results
  import opened Restriction
  import opened PythonValues
  import opened ValueTypes

  // ---------------------------------------------------------------- elements

  /** How a container marks the element of one of its parts. */
  datatype Tag = NumberTag(number: int32) | NameTag(name: Bytes)

  function NewElement(name: Bytes, data: ElementContent, typeName: Bytes, count: uint32): MessageElement
  {
    NEW_ELEMENT.(elementName := name, elementType := TypeOf(data), elementTypeName := typeName,
                 elementSize := UINT32_MAX, dataCount := count, data := data)
  }

  function Tagged(el: MessageElement, tag: Tag): MessageElement
  {
    match tag
    case NumberTag(n) =>
      el.(elementFlags := SetBit(SetBit(el.elementFlags, ELEMENT_NAME_STR, false), ELEMENT_NUMBER, true),
          elementNumber := n)
    case NameTag(name) => el.(elementName := name)
  }

  // ---------------------------------------------------------------- one level of a value

  /** A part of a container or structure, or the exception that its key or name leads to. */
  datatype Part =
    | Part(level: Level, value: Value, tag: Tag)
    | BadPart(problem: Problem, path: seq<Level>)

  datatype Content =
    | Leaf(data: ElementContent)
    | Compound(dataType: uint16, typeName: Bytes, parts: seq<Part>)

  /** The memories of numbers of one type, in their order. */
  function Gather(values: seq<Value>, code: NumericType): (r: Outcome<Bytes>)
    ensures r.Done? ==> |r.value| % NumberSize(code) == 0
  {
    if values == [] then Done([])
    else if !values[0].Number? || values[0].number.dataType != code then Failed(WrongDataType, [])
    else
      var rest :- Gather(values[1..], code);
      OneMore(|rest|, NumberSize(code));
      Done(values[0].number.memory + rest)
  }

  lemma OneMore(m: nat, n: nat)
    requires n == 1 || n == 2 || n == 4 || n == 8 || n == 16
    requires m % n == 0
    ensures (n + m) % n == 0 && (n + m) / n == 1 + m / n
  {
  }

  /** PackToRRArray: lists and numbers have their length checked, arrays only their type. */
  function PackNumbers(v: Value, code: NumericType, kind: ArrayKind): Outcome<ElementContent>
  {
    if v.Array? then
      if v.numbers.dataType == code then Done(ArrayData(v.numbers)) else Failed(WrongDataType, [])
    else if v.Number? || IsSequence(v) then
      var values := if v.Number? then [v] else Items(v);
      if !LengthFits(kind, |values|) then Failed(WrongDataType, [])
      else
        var memory :- Gather(values, code);
        assert IsNumeric(code) && NumberSize(code) == RRArrayElementSize(code);
        Done(ArrayData(ArrayMemory(code, memory)))
    else Failed(WrongDataType, [])
  }

  function PackNone(services: Services, t: TypeDefinition): Outcome<Content>
  {
    if !t.container.NoContainer? then Done(Leaf(NoData))
    else
      match t.base
      case Numeric(_) => Failed(WrongDataType, [])
      case TextType => Failed(WrongDataType, [])
      case Named(n) => if n in services.types then Done(Leaf(NoData)) else Failed(UnknownType, [])
  }

  function SequenceParts(values: seq<Value>, t: TypeDefinition): (r: seq<Part>)
    requires |values| <= 0x7FFF_FFFF
    ensures |r| == |values|
  {
    seq(|values|, k requires 0 <= k < |values| => Part(Level(Index(k), t), values[k], NumberTag(k)))
  }

  predicate FitsLong(n: int, width: LongWidth)
  {
    match width
    case Long32 => -0x8000_0000 <= n <= 0x7FFF_FFFF
    case Long64 => -0x8000_0000_0000_0000 <= n <= 0x7FFF_FFFF_FFFF_FFFF
  }

  /** PyLong_AsLong: nothing, that is -1 and an error, for what is no number or does not fit. */
  function AsLong(key: Key, width: LongWidth): Option<int>
  {
    if key.IntKey? && FitsLong(key.n, width) then Some(key.n) else None
  }

  /** The level of a key is pushed before the key is found to be no int32. */
  function Int32Part(item: Item, t: TypeDefinition, width: LongWidth): Part
  {
    match AsLong(item.key, width)
    case Some(n) =>
      if -0x8000_0000 <= n <= 0x7FFF_FFFF then Part(Level(Index(n), t), item.value, NumberTag(n))
      else BadPart(WrongDataType, [Level(Index(n), t)])
    case None => BadPart(WrongDataType, [Level(Index(-1), t)])
  }

  function Int32Parts(items: seq<Item>, t: TypeDefinition, width: LongWidth): (r: seq<Part>)
    ensures |r| == |items|
  {
    seq(|items|, k requires 0 <= k < |items| => Int32Part(items[k], t, width))
  }

  /** Keys go through a C string. */
  function TextPart(item: Item, t: TypeDefinition): Part
  {
    match item.key
    case IntKey(_) => BadPart(WrongDataType, [])
    case TextKey(text) => Part(Level(KeyOf(CString(text)), t), item.value, NameTag(CString(text)))
  }

  function TextParts(items: seq<Item>, t: TypeDefinition): (r: seq<Part>)
    ensures |r| == |items|
  {
    seq(|items|, k requires 0 <= k < |items| => TextPart(items[k], t))
  }

  function MemberPart(attributes: seq<Item>, m: Member): Part
  {
    var k := Find(attributes, TextKey(m.name));
    if k < |attributes| then Part(Level(Field(m.name), m.fieldType), attributes[k].value, NameTag(m.name))
    else BadPart(WrongDataType, [])
  }

  function MemberParts(attributes: seq<Item>, members: seq<Member>): (r: seq<Part>)
    ensures |r| == |members|
  {
    seq(|members|, k requires 0 <= k < |members| => MemberPart(attributes, members[k]))
  }

  function OpenSequence(v: Value, t: TypeDefinition, dataType: uint16): Outcome<Content>
    requires IsSequence(v)
  {
    if |Items(v)| > 0x7FFF_FFFF then Failed(BadNumberCast, [])
    else Done(Compound(dataType, [], SequenceParts(Items(v), Bare(t))))
  }

  /** What PackMessageElement does with a value before it turns to the value's parts. */
  function Open(services: Services, v: Value, t: TypeDefinition): Outcome<Content>
  {
    if v.NoneValue? then PackNone(services, t)
    else
      match t.container
      case ListContainer => if IsSequence(v) then OpenSequence(v, t, LIST_T) else Failed(WrongDataType, [])
      case Int32Map =>
        if IsSequence(v) then OpenSequence(v, t, VECTOR_T)
        else if v.Dict? then Done(Compound(VECTOR_T, [], Int32Parts(v.items, Bare(t), services.longWidth)))
        else Failed(WrongDataType, [])
      case TextMap =>
        if v.Dict? then Done(Compound(DICTIONARY_T, [], TextParts(v.items, Bare(t)))) else Failed(WrongDataType, [])
      case NoContainer => OpenBare(services, v, t)
  }

  function OpenBare(services: Services, v: Value, t: TypeDefinition): Outcome<Content>
    requires t.container.NoContainer?
  {
    match t.base
    case Numeric(code) => var data :- PackNumbers(v, code, t.arrayKind); Done(Leaf(data))
    case TextType =>
      if v.Text? then Done(Leaf(ArrayData(ArrayMemory(STRING_T, v.text)))) else Failed(WrongDataType, [])
    case Named(n) =>
      if n !in services.types then Failed(UnknownType, [])
      else
        match services.types[n]
        case Enumeration => var data :- PackNumbers(v, INT32_T, Scalar); Done(Leaf(data))
        case Structure(members) =>
          if v.Struct? && v.className == ClassName(n) then
            Done(Compound(STRUCTURE_T, n, MemberParts(v.attributes, members)))
          else Failed(WrongDataType, [])
  }

  // ---------------------------------------------------------------- all levels

  /** Falls from a value with its type to each of its parts with theirs. */
  function Rank(v: Value, t: TypeDefinition): nat
  {
    2 * Depth(v) + if t.container.NoContainer? then 0 else 1
  }

  predicate PartsBelow(parts: seq<Part>, n: nat)
  {
    forall k :: 0 <= k < |parts| ==> PartBelow(parts[k], n)
  }

  predicate PartBelow(part: Part, n: nat) { part.Part? ==> Rank(part.value, part.level.levelType) < n }

  lemma OpenedBelow(services: Services, v: Value, t: TypeDefinition)
    requires Open(services, v, t).Done? && Open(services, v, t).value.Compound?
    ensures PartsBelow(Open(services, v, t).value.parts, Rank(v, t))
  {
    hide Items, PackNumbers, ClassName, IsUtf8;
    if t.container.NoContainer? {
      assert v.Struct?;
      forall k | 0 <= k < |v.attributes| ensures Depth(v.attributes[k].value) < Depth(v) {
        assert DepthOfItem(v.attributes[k]) <= DepthOfItems(v.attributes);
      }
    } else if v.Dict? {
      forall k | 0 <= k < |v.items| ensures Depth(v.items[k].value) < Depth(v) {
        assert DepthOfItem(v.items[k]) <= DepthOfItems(v.items);
      }
    }
  }

  function Pack(services: Services, v: Value, t: TypeDefinition): Outcome<MessageElement>
    decreases Rank(v, t)
  {
    var content :- Open(services, v, t);
    match content
    case Leaf(data) => Done(NewElement(t.name, data, [], 0))
    case Compound(dataType, typeName, parts) =>
      OpenedBelow(services, v, t);
      var es :- PackParts(services, parts, Rank(v, t));
      Done(NewElement(t.name, NestedData(dataType, typeName, es), typeName, |es| % 0x1_0000_0000))
  }

  function PackParts(services: Services, parts: seq<Part>, n: nat): (r: Outcome<seq<MessageElement>>)
    requires PartsBelow(parts, n)
    ensures r.Done? ==> |r.value| == |parts|
    decreases n, |parts|
  {
    if parts == [] then Done([])
    else
      assert PartBelow(parts[0], n) && forall k :: 0 < k < |parts| ==> parts[k] == parts[1..][k - 1];
      if parts[0].BadPart? then Failed(parts[0].problem, parts[0].path)
      else
        var el :- Pack(services, parts[0].value, parts[0].level.levelType).At(parts[0].level);
        var es :- PackParts(services, parts[1..], n);
        Done([Tagged(el, parts[0].tag)] + es)
  }

  // ---------------------------------------------------------------- which values are packed

  lemma {:induction false} GatheredWhen(values: seq<Value>, code: NumericType)
    ensures Gather(values, code).Done? <==>
              forall k | 0 <= k < |values| :: values[k].Number? && values[k].number.dataType == code
  {
    if values != [] {
      GatheredWhen(values[1..], code);
      assert forall k :: 0 < k < |values| ==> values[k] == values[1..][k - 1];
    }
  }

  lemma NumbersWhen(v: Value, code: NumericType, kind: ArrayKind)
    ensures PackNumbers(v, code, kind).Done? <==> NumbersOf(v, code, kind)
  {
    hide LengthFits;
    if v.Number? {
      GatheredWhen([v], code);
      assert [v][0] == v;
    } else if v.Text? || v.List? {
      GatheredWhen(Items(v), code);
      if v.Text? && Items(v) != [] { assert Items(v)[0].Text?; }
    }
  }

  /** The parts are packed when none of them is bad and each of them is packed. */
  ghost predicate PartPacks(services: Services, part: Part)
  {
    part.Part? && Pack(services, part.value, part.level.levelType).Done?
  }

  lemma {:induction false} PartsPackedWhen(services: Services, parts: seq<Part>, n: nat)
    requires PartsBelow(parts, n)
    ensures PackParts(services, parts, n).Done? <==> forall k | 0 <= k < |parts| :: PartPacks(services, parts[k])
    decreases |parts|
  {
    hide Pack, Rank, Tagged;
    if parts != [] {
      assert PartBelow(parts[0], n) && forall j :: 0 < j < |parts| ==> parts[j] == parts[1..][j - 1];
      PartsPackedWhen(services, parts[1..], n);
    }
  }

  /** Whether the parts of a value are of their types. */
  ghost predicate PartOfType(services: Services, part: Part)
  {
    part.Part? && OfType(services, part.value, part.level.levelType)
  }

  lemma CompoundOfType(services: Services, v: Value, t: TypeDefinition)
    requires Open(services, v, t).Done? && Open(services, v, t).value.Compound?
    ensures var parts := Open(services, v, t).value.parts;
            OfType(services, v, t) <==> forall k | 0 <= k < |parts| :: PartOfType(services, parts[k])
  {
    hide Items, IsUtf8, ClassName, CString, PackNumbers, NumbersOf;
    var parts := Open(services, v, t).value.parts;
    if v.Struct? {
      var members := services.types[t.base.typeName].members;
      forall k | 0 <= k < |parts|
        ensures PartOfType(services, parts[k]) <==> MemberOfType(services, v.attributes, members[k]) {
      }
    } else if v.Dict? && t.container.Int32Map? {
      forall k | 0 <= k < |parts|
        ensures PartOfType(services, parts[k]) <==>
                  IsInt32(v.items[k].key) && ItemOfType(services, v.items, k, Bare(t)) {
      }
    } else if v.Dict? {
      forall k | 0 <= k < |parts|
        ensures PartOfType(services, parts[k]) <==>
                  v.items[k].key.TextKey? && ItemOfType(services, v.items, k, Bare(t)) {
      }
    } else {
      forall k | 0 <= k < |parts|
        ensures PartOfType(services, parts[k]) <==> OfType(services, Items(v)[k], Bare(t)) {
      }
    }
  }

  lemma LeafOfType(services: Services, v: Value, t: TypeDefinition)
    requires Open(services, v, t).Failed? || Open(services, v, t).value.Leaf?
    ensures Open(services, v, t).Done? <==> OfType(services, v, t)
  {
    hide IsUtf8, ClassName, PackNumbers, Items, SequenceParts, Int32Parts, TextParts, MemberParts;
    NumbersWhen(v, INT32_T, Scalar);
    if t.base.Numeric? { NumbersWhen(v, t.base.code, t.arrayKind); }
  }

  /** A value is packed if and only if it is of the type. */
  lemma {:induction false} PackedWhenOfType(services: Services, v: Value, t: TypeDefinition)
    ensures Pack(services, v, t).Done? <==> OfType(services, v, t)
    decreases Rank(v, t)
  {
    hide Open, OfType, PackParts, Rank, Tagged, NewElement;
    if Open(services, v, t).Failed? || Open(services, v, t).value.Leaf? {
      LeafOfType(services, v, t);
    } else {
      OpenedBelow(services, v, t);
      var parts, n := Open(services, v, t).value.parts, Rank(v, t);
      PartsPackedWhen(services, parts, n);
      CompoundOfType(services, v, t);
      forall k | 0 <= k < |parts| ensures PartPacks(services, parts[k]) <==> PartOfType(services, parts[k]) {
        if parts[k].Part? {
          assert PartBelow(parts[k], n);
          PackedWhenOfType(services, parts[k].value, parts[k].level.levelType);
        }
      }
    }
  }

  /** The element of a value of the type. */
  function Packed(services: Services, v: Value, t: TypeDefinition): (el: MessageElement)
    requires OfType(services, v, t)
    ensures Pack(services, v, t) == Done(el)
  {
    PackedWhenOfType(services, v, t);
    Pack(services, v, t).value
  }

  // ---------------------------------------------------------------- the packer

  datatype Attempt<+T> = Returned(value: T) | Threw(problem: Problem)

  /** A call that ends as the outcome says: levels are popped unless an exception is thrown. */
  predicate Follows<T(==)>(o: Outcome<T>, r: Attempt<T>, before: seq<Level>, after: seq<Level>)
  {
    match o
    case Done(value) => r == Returned(value) && after == before
    case Failed(problem, path) => r == Threw(problem) && after == before + path
  }

  /** The outcome of the parts when the first ones have given es and the others give o. */
  function After(es: seq<MessageElement>, o: Outcome<seq<MessageElement>>): Outcome<seq<MessageElement>>
  {
    if o.Done? then Done(es + o.value) else o
  }

  lemma NextPart(services: Services, parts: seq<Part>, i: nat, n: nat, es: seq<MessageElement>)
    requires PartsBelow(parts, n) && i < |parts|
    ensures PartsBelow(parts[i..], n) && PartsBelow(parts[i + 1..], n) && PartBelow(parts[i], n)
    ensures parts[i].BadPart? ==>
              After(es, PackParts(services, parts[i..], n)) == Failed(parts[i].problem, parts[i].path)
    ensures parts[i].Part? ==>
              var p := Pack(services, parts[i].value, parts[i].level.levelType);
              After(es, PackParts(services, parts[i..], n)) ==
              if p.Failed? then Failed(p.problem, [parts[i].level] + p.path)
              else After(es + [Tagged(p.value, parts[i].tag)], PackParts(services, parts[i + 1..], n))
  {
    hide Pack, Tagged, Rank;
    assert parts[i..][0] == parts[i] && parts[i..][1..] == parts[i + 1..];
    if parts[i].Part? {
      var o := PackParts(services, parts[i + 1..], n);
      var p := Pack(services, parts[i].value, parts[i].level.levelType);
      if p.Done? && o.Done? {
        assert es + ([Tagged(p.value, parts[i].tag)] + o.value) == (es + [Tagged(p.value, parts[i].tag)]) + o.value;
      }
    }
  }

  class PackMessageElementImpl {
    const services: Services
    var fields: seq<Level>   // field_name and field_type

    constructor (services: Services)
      ensures this.services == services && fields == []
    {
      this.services := services;
      fields := [];
    }

    method PushFieldLevel(level: Level)
      modifies this`fields
      ensures fields == old(fields) + [level]
    {
      fields := fields + [level];
    }

    method PopFieldLevel()
      requires fields != []
      modifies this`fields
      ensures fields == old(fields)[..|old(fields)| - 1]
    {
      fields := fields[..|fields| - 1];
    }

    /** One part: its level is pushed, and popped when its value has been packed. */
    method PackPart(level: Level, value: Value, tag: Tag, ghost n: nat) returns (r: Attempt<MessageElement>)
      requires Rank(value, level.levelType) < n
      modifies this`fields
      ensures match Pack(services, value, level.levelType)
              case Done(el) => r == Returned(Tagged(el, tag)) && fields == old(fields)
              case Failed(problem, path) => r == Threw(problem) && fields == old(fields) + ([level] + path)
      decreases n, 0
    {
      hide Pack, Tagged, Rank;
      PushFieldLevel(level);
      r := PackMessageElement(value, level.levelType);
      if r.Threw? {
        ghost var path := Pack(services, value, level.levelType).path;
        assert old(fields) + [level] + path == old(fields) + ([level] + path);
        return;
      }
      r := Returned(Tagged(r.value, tag));
      PopFieldLevel();
    }

    method PackSequence(values: seq<Value>, type2: TypeDefinition, ghost n: nat)
      returns (r: Attempt<seq<MessageElement>>)
      requires |values| <= 0x7FFF_FFFF && PartsBelow(SequenceParts(values, type2), n)
      modifies this`fields
      ensures Follows(PackParts(services, SequenceParts(values, type2), n), r, old(fields), fields)
      decreases n, 1
    {
      hide Pack, PackParts, Tagged, Rank;
      ghost var parts := SequenceParts(values, type2);
      var mret: seq<MessageElement> := [];
      var i := 0;
      NoPartsYet(services, parts, n);
      while i < |values|
        invariant i <= |values| && fields == old(fields) && PartsBelow(parts[i..], n)
        invariant PackParts(services, parts, n) == After(mret, PackParts(services, parts[i..], n))
      {
        NextPart(services, parts, i, n, mret);
        var el := PackPart(Level(Index(i), type2), values[i], NumberTag(i), n);
        if el.Threw? { return Threw(el.problem); }
        mret := mret + [el.value];
        i := i + 1;
      }
      NoMoreParts(services, parts, n, mret);
      r := Returned(mret);
    }

    method PackInt32Items(items: seq<Item>, type2: TypeDefinition, ghost n: nat)
      returns (r: Attempt<seq<MessageElement>>)
      requires PartsBelow(Int32Parts(items, type2, services.longWidth), n)
      modifies this`fields
      ensures Follows(PackParts(services, Int32Parts(items, type2, services.longWidth), n), r, old(fields), fields)
      decreases n, 1
    {
      hide Pack, PackParts, Tagged, Rank;
      ghost var parts := Int32Parts(items, type2, services.longWidth);
      var mret: seq<MessageElement> := [];
      var i := 0;
      NoPartsYet(services, parts, n);
      while i < |items|
        invariant i <= |items| && fields == old(fields) && PartsBelow(parts[i..], n)
        invariant PackParts(services, parts, n) == After(mret, PackParts(services, parts[i..], n))
      {
        NextPart(services, parts, i, n, mret);
        var long := AsLong(items[i].key, services.longWidth);
        var key := if long.Some? then long.value else -1;
        if long.None? || !(-0x8000_0000 <= key <= 0x7FFF_FFFF) {
          PushFieldLevel(Level(Index(key), type2));
          return Threw(WrongDataType);
        }
        var el := PackPart(Level(Index(key), type2), items[i].value, NumberTag(key), n);
        if el.Threw? { return Threw(el.problem); }
        mret := mret + [el.value];
        i := i + 1;
      }
      NoMoreParts(services, parts, n, mret);
      r := Returned(mret);
    }

    method PackTextItems(items: seq<Item>, type2: TypeDefinition, ghost n: nat)
      returns (r: Attempt<seq<MessageElement>>)
      requires PartsBelow(TextParts(items, type2), n)
      modifies this`fields
      ensures Follows(PackParts(services, TextParts(items, type2), n), r, old(fields), fields)
      decreases n, 1
    {
      hide Pack, PackParts, Tagged, Rank, CString, IsUtf8;
      ghost var parts := TextParts(items, type2);
      var mret: seq<MessageElement> := [];
      var i := 0;
      NoPartsYet(services, parts, n);
      while i < |items|
        invariant i <= |items| && fields == old(fields) && PartsBelow(parts[i..], n)
        invariant PackParts(services, parts, n) == After(mret, PackParts(services, parts[i..], n))
      {
        NextPart(services, parts, i, n, mret);
        if !items[i].key.TextKey? { return Threw(WrongDataType); }
        var key := CString(items[i].key.text);
        var el := PackPart(Level(KeyOf(key), type2), items[i].value, NameTag(key), n);
        if el.Threw? { return Threw(el.problem); }
        mret := mret + [el.value];
        i := i + 1;
      }
      NoMoreParts(services, parts, n, mret);
      r := Returned(mret);
    }

    method PackMembers(attributes: seq<Item>, members: seq<Member>, ghost n: nat)
      returns (r: Attempt<seq<MessageElement>>)
      requires PartsBelow(MemberParts(attributes, members), n)
      modifies this`fields
      ensures Follows(PackParts(services, MemberParts(attributes, members), n), r, old(fields), fields)
      decreases n, 1
    {
      hide Pack, PackParts, Tagged, Rank, IsUtf8;
      ghost var parts := MemberParts(attributes, members);
      var mret: seq<MessageElement> := [];
      var i := 0;
      NoPartsYet(services, parts, n);
      while i < |members|
        invariant i <= |members| && fields == old(fields) && PartsBelow(parts[i..], n)
        invariant PackParts(services, parts, n) == After(mret, PackParts(services, parts[i..], n))
      {
        NextPart(services, parts, i, n, mret);
        var p := members[i];
        var k := Find(attributes, TextKey(p.name));
        if k == |attributes| { return Threw(WrongDataType); }
        var el := PackPart(Level(Field(p.name), p.fieldType), attributes[k].value, NameTag(p.name), n);
        if el.Threw? { return Threw(el.problem); }
        mret := mret + [el.value];
        i := i + 1;
      }
      NoMoreParts(services, parts, n, mret);
      r := Returned(mret);
    }

    method PackMessageElement(data: Value, type1: TypeDefinition) returns (r: Attempt<MessageElement>)
      modifies this`fields
      ensures Follows(Pack(services, data, type1), r, old(fields), fields)
      ensures r.Returned? <==> OfType(services, data, type1)
      decreases Rank(data, type1)
    {
      hide PackParts, PartsBelow, Rank, Items, IsUtf8, ClassName, PackNumbers, SequenceParts, Int32Parts, TextParts,
           MemberParts, OfType;
      PackedWhenOfType(services, data, type1);
      ghost var n := Rank(data, type1);
      var content := Open(services, data, type1);
      if content.Failed? {
        assert content.path == [] by { NoPathAtOnce(services, data, type1); }
        return Threw(content.problem);
      }
      if content.value.Leaf? {
        return Returned(NewElement(type1.name, content.value.data, [], 0));
      }
      OpenedBelow(services, data, type1);
      var type2, dataType, typeName := Bare(type1), content.value.dataType, content.value.typeName;
      var es: Attempt<seq<MessageElement>>;
      if type1.container.NoContainer? {
        es := PackMembers(data.attributes, services.types[type1.base.typeName].members, n);
      } else if type1.container.TextMap? {
        es := PackTextItems(data.items, type2, n);
      } else if IsSequence(data) {
        es := PackSequence(Items(data), type2, n);
      } else {
        es := PackInt32Items(data.items, type2, n);
      }
      if es.Threw? { return Threw(es.problem); }
      r := Returned(NewElement(type1.name, NestedData(dataType, typeName, es.value), typeName,
                               |es.value| % 0x1_0000_0000));
    }
  }

  lemma NoMoreParts(services: Services, parts: seq<Part>, n: nat, es: seq<MessageElement>)
    ensures parts[|parts|..] == [] && After(es, PackParts(services, [], n)) == Done(es)
  {
    assert es + [] == es;
  }

  lemma NoPartsYet(services: Services, parts: seq<Part>, n: nat)
    requires PartsBelow(parts, n)
    ensures parts[0..] == parts && After([], PackParts(services, parts, n)) == PackParts(services, parts, n)
  {
    hide PackParts;
    var o := PackParts(services, parts, n);
    assert o.Done? ==> [] + o.value == o.value;
  }

  lemma NoPathAtOnce(services: Services, v: Value, t: TypeDefinition)
    ensures Open(services, v, t).Failed? ==> Open(services, v, t).path == []
  {
    hide Items, IsUtf8, ClassName, SequenceParts, Int32Parts, TextParts, MemberParts;
    forall code: NumericType, kind ensures PackNumbers(v, code, kind).Failed? ==>
        PackNumbers(v, code, kind).path == [] {
      hide PackNumbers;
      NoPathInNumbers(v, code, kind);
    }
  }

  lemma NoPathInNumbers(v: Value, code: NumericType, kind: ArrayKind)
    ensures PackNumbers(v, code, kind).Failed? ==> PackNumbers(v, code, kind).path == []
  {
    forall values ensures Gather(values, code).Failed? ==> Gather(values, code).path == [] {
      NoPathInGather(values, code);
    }
  }

  lemma {:induction false} NoPathInGather(values: seq<Value>, code: NumericType)
    ensures Gather(values, code).Failed? ==> Gather(values, code).path == []
  {
    if values != [] { NoPathInGather(values[1..], code); }
  }

  // ---------------------------------------------------------------- where packing fails

  /** The levels lead from v of type t to w of type u. */
  ghost predicate Leads(services: Services, v: Value, t: TypeDefinition, path: seq<Level>, w: Value, u: TypeDefinition)
    decreases |path|
  {
    if path == [] then w == v && u == t
    else
      && Open(services, v, t).Done? && Open(services, v, t).value.Compound?
      && exists k :: 0 <= k < |Open(services, v, t).value.parts|
          && LeadsThrough(services, Open(services, v, t).value.parts[k], path, w, u)
  }

  ghost predicate LeadsThrough(services: Services, part: Part, path: seq<Level>, w: Value, u: TypeDefinition)
    requires path != []
    decreases |path|, 0
  {
    part.Part? && part.level == path[0] && Leads(services, part.value, part.level.levelType, path[1..], w, u)
  }

  /** w itself, or the key or the name of a part of it, is what the exception with these levels is about. */
  ghost predicate AtFault(services: Services, w: Value, u: TypeDefinition, problem: Problem, path: seq<Level>)
  {
    var o := Open(services, w, u);
    o == Failed(problem, path) || (o.Done? && o.value.Compound? && BadPart(problem, path) in o.value.parts)
  }

  /** When an exception is thrown, the levels on the stack are those from the whole value down to the
    * one at fault, so that the field named in the message is that value's; a bad key adds its own. */
  lemma {:induction false} FailureIsNamed(services: Services, v: Value, t: TypeDefinition)
    returns (w: Value, u: TypeDefinition, i: nat)
    requires Pack(services, v, t).Failed?
    ensures var f := Pack(services, v, t);
            && i <= |f.path| <= i + 1
            && Leads(services, v, t, f.path[..i], w, u) && AtFault(services, w, u, f.problem, f.path[i..])
    decreases Rank(v, t)
  {
    hide Open, Rank, PartsBelow, PartBelow, AtFault;
    var f := Pack(services, v, t);
    w, u, i := v, t, 0;
    assert f.path[0..] == f.path && f.path[..0] == [];
    if Open(services, v, t).Failed? {
      NoPathAtOnce(services, v, t);
      assert AtFault(services, v, t, f.problem, f.path) by { OwnFault(services, v, t); }
    } else {
      OpenedBelow(services, v, t);
      var parts := Open(services, v, t).value.parts;
      var k := FirstFailure(services, parts, Rank(v, t));
      var part := parts[k];
      if part.BadPart? {
        BadPartFault(services, v, t, k);
      } else {
        PartsRank(services, parts, Rank(v, t), k);
        w, u, i := FailureIsNamed(services, part.value, part.level.levelType);
        var inner := Pack(services, part.value, part.level.levelType).path;
        i := i + 1;
        assert f.path[..i] == [part.level] + inner[..i - 1] && f.path[..i][1..] == inner[..i - 1];
        assert f.path[i..] == inner[i - 1..];
        assert LeadsThrough(services, parts[k], f.path[..i], w, u);
      }
    }
  }

  lemma OwnFault(services: Services, v: Value, t: TypeDefinition)
    requires Open(services, v, t).Failed?
    ensures AtFault(services, v, t, Open(services, v, t).problem, Open(services, v, t).path)
  {
    hide Open;
  }

  lemma BadPartFault(services: Services, v: Value, t: TypeDefinition, k: nat)
    requires Open(services, v, t).Done? && Open(services, v, t).value.Compound?
    requires k < |Open(services, v, t).value.parts| && Open(services, v, t).value.parts[k].BadPart?
    ensures var p := Open(services, v, t).value.parts[k];
            |p.path| <= 1 && AtFault(services, v, t, p.problem, p.path)
  {
    hide Items, IsUtf8, ClassName, CString, PackNumbers;
  }

  lemma PartsRank(services: Services, parts: seq<Part>, n: nat, k: nat)
    requires PartsBelow(parts, n) && k < |parts| && parts[k].Part?
    ensures Rank(parts[k].value, parts[k].level.levelType) < n
  {
    hide Rank;
    assert PartBelow(parts[k], n);
  }

  lemma {:induction false} FirstFailure(services: Services, parts: seq<Part>, n: nat) returns (k: nat)
    requires PartsBelow(parts, n) && PackParts(services, parts, n).Failed?
    ensures k < |parts|
    ensures parts[k].BadPart? ==> PackParts(services, parts, n) == Failed(parts[k].problem, parts[k].path)
    ensures parts[k].Part? ==>
              var f := Pack(services, parts[k].value, parts[k].level.levelType);
              f.Failed? && PackParts(services, parts, n) == Failed(f.problem, [parts[k].level] + f.path)
    decreases |parts|
  {
    hide Pack, Rank, Tagged;
    assert PartBelow(parts[0], n) && forall j :: 0 < j < |parts| ==> parts[j] == parts[1..][j - 1];
    if parts[0].BadPart? || Pack(services, parts[0].value, parts[0].level.levelType).Failed? {
      k := 0;
    } else {
      k := FirstFailure(services, parts[1..], n);
      k := k + 1;
    }
  }

  // ---------------------------------------------------------------- bad keys

  /** The number in the name of the level. */
  function Shown(key: Key, width: LongWidth): int
  {
    var n := AsLong(key, width);
    if n.Some? then n.value else -1
  }

  /** The first item of an int32 map whose key is no int32, if all before it can be packed, ends the
    * packing; and the exception names the key if and only if the key is a number that fits a C long. */
  lemma BadKeyIsNamed(services: Services, items: seq<Item>, t: TypeDefinition, k: nat)
    requires t.container.Int32Map? && k < |items| && !IsInt32(items[k].key)
    requires forall j | 0 <= j < k :: IsInt32(items[j].key) && Pack(services, items[j].value, Bare(t)).Done?
    ensures var shown := Shown(items[k].key, services.longWidth);
            && Pack(services, Dict(items), t) == Failed(WrongDataType, [Level(Index(shown), Bare(t))])
            && (items[k].key == IntKey(shown) <==> items[k].key.IntKey? && FitsLong(items[k].key.n, services.longWidth))
  {
    hide Pack, PackParts, Rank, IsUtf8, Items;
    var v := Dict(items);
    var parts := Int32Parts(items, Bare(t), services.longWidth);
    assert Open(services, v, t) == Done(Compound(VECTOR_T, [], parts));
    OpenedBelow(services, v, t);
    forall j | 0 <= j < k ensures parts[j].Part? && Pack(services, parts[j].value, parts[j].level.levelType).Done? {
      assert parts[j] == Int32Part(items[j], Bare(t), services.longWidth);
    }
    assert parts[k] == Int32Part(items[k], Bare(t), services.longWidth);
    FirstBad(services, parts, Rank(v, t), k);
    FailsWithParts(services, v, t, parts);
  }

  lemma FailsWithParts(services: Services, v: Value, t: TypeDefinition, parts: seq<Part>)
    requires Open(services, v, t) == Done(Compound(VECTOR_T, [], parts)) && PartsBelow(parts, Rank(v, t))
    requires PackParts(services, parts, Rank(v, t)).Failed?
    ensures var f := PackParts(services, parts, Rank(v, t)); Pack(services, v, t) == Failed(f.problem, f.path)
  {
    hide Open, PackParts, Rank;
  }

  lemma {:induction false} FirstBad(services: Services, parts: seq<Part>, n: nat, k: nat)
    requires PartsBelow(parts, n) && k < |parts| && parts[k].BadPart?
    requires forall j | 0 <= j < k :: parts[j].Part? && Pack(services, parts[j].value, parts[j].level.levelType).Done?
    ensures PackParts(services, parts, n) == Failed(parts[k].problem, parts[k].path)
    decreases k
  {
    hide Pack, Rank, Tagged;
    assert PartBelow(parts[0], n) && forall j :: 0 < j < |parts| ==> parts[j] == parts[1..][j - 1];
    if k > 0 {
      FirstBad(services, parts[1..], n, k - 1);
    }
  }

  /** With a 32-bit long no such key is named: 2^31, for one, is reported as -1. */
  lemma NeverNamedIn32Bits(services: Services, n: int, v: Value, t: TypeDefinition)
    requires services.longWidth == Long32 && t.container.Int32Map? && !(-0x8000_0000 <= n <= 0x7FFF_FFFF)
    ensures Pack(services, Dict([Item(IntKey(n), v)]), t) == Failed(WrongDataType, [Level(Index(-1), Bare(t))])
  {
    hide Pack, Open;
    BadKeyIsNamed(services, [Item(IntKey(n), v)], t, 0);
  }
}
