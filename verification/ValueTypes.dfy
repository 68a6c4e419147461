/** Which Python values are of which Robot Raconteur type. */
module ValueTypes {
  import opened Numbers
  import opened Messages
  import opened PythonValues

  /** A number, or a sequence of as many as the kind allows; the length of an array is left to the
    * receiver. A string is a sequence of characters, which are no numbers. */
  predicate NumbersOf(v: Value, code: NumericType, kind: ArrayKind)
  {
    match v
    case Number(n) => n.dataType == code && LengthFits(kind, 1)
    case Array(a) => a.dataType == code
    case List(values) =>
      LengthFits(kind, |values|) && forall k | 0 <= k < |values| :: values[k].Number?
                                                                    && values[k].number.dataType == code
    case Text(text) => text == [] && LengthFits(kind, 0)
    case _ => false
  }

  predicate IsInt32(key: Key) { key.IntKey? && -0x8000_0000 <= key.n <= 0x7FFF_FFFF }

  /** None is of every container type and of every named type that is known; sequences are lists and
    * int32 maps; and structures have a member of the right type for each of their type. */
  predicate OfType(services: Services, v: Value, t: TypeDefinition)
    decreases Depth(v), if t.container.NoContainer? then 0 else 2
  {
    match t.container
    case ListContainer => v.NoneValue? || ItemsOfType(services, v, t)
    case Int32Map =>
      || v.NoneValue?
      || ItemsOfType(services, v, t)
      || (v.Dict? && forall k | 0 <= k < |v.items| :: IsInt32(v.items[k].key)
                                                      && ItemOfType(services, v.items, k, Bare(t)))
    case TextMap =>
      || v.NoneValue?
      || (v.Dict? && forall k | 0 <= k < |v.items| :: v.items[k].key.TextKey?
                                                      && ItemOfType(services, v.items, k, Bare(t)))
    case NoContainer =>
      match t.base
      case Numeric(code) => NumbersOf(v, code, t.arrayKind)
      case TextType => v.Text?
      case Named(n) => n in services.types && (v.NoneValue? || OfNamedType(services, v, n))
  }

  predicate ItemsOfType(services: Services, v: Value, t: TypeDefinition)
    requires !t.container.NoContainer?
    decreases Depth(v), 1
  {
    && IsSequence(v) && |Items(v)| <= 0x7FFF_FFFF
    && forall k | 0 <= k < |Items(v)| :: OfType(services, Items(v)[k], Bare(t))
  }

  predicate ItemOfType(services: Services, items: seq<Item>, k: nat, t: TypeDefinition)
    requires k < |items|
    decreases DepthOfItems(items), 3
  {
    assert DepthOfItem(items[k]) <= DepthOfItems(items);
    OfType(services, items[k].value, t)
  }

  predicate OfNamedType(services: Services, v: Value, n: Bytes)
    requires n in services.types
    decreases Depth(v), 0, 0
  {
    match services.types[n]
    case Enumeration => NumbersOf(v, INT32_T, Scalar)
    case Structure(members) =>
      && v.Struct? && v.className == ClassName(n)
      && forall i | 0 <= i < |members| :: MemberOfType(services, v.attributes, members[i])
  }

  predicate MemberOfType(services: Services, attributes: seq<Item>, m: Member)
    decreases DepthOfItems(attributes), 4
  {
    var k := Find(attributes, TextKey(m.name));
    k < |attributes| && ItemOfType(services, attributes, k, m.fieldType)
  }
}
