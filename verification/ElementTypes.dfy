/** Which message elements can be unpacked, and the marks of nested ones. */
module ElementTypes {
  import opened Numbers
  import opened Messages
  import opened Results
  import opened PythonValues

  // ---------------------------------------------------------------- numbers in names

  predicate IsDigit(b: byte) { 48 <= b <= 57 }

  function Digits(b: Bytes): Option<nat>
  {
    if b == [] then None
    else if !IsDigit(b[|b| - 1]) then None
    else if |b| == 1 then Some(b[0] - 48)
    else
      match Digits(b[..|b| - 1])
      case None => None
      case Some(n) => Some(10 * n + b[|b| - 1] - 48)
  }

  /** boost::lexical_cast<int32_t>. */
  function LexicalCast(b: Bytes): Option<int32>
  {
    var signed := b != [] && (b[0] == 43 || b[0] == 45);
    match Digits(if signed then b[1..] else b)
    case None => None
    case Some(n) =>
      var magnitude: int := n;
      var v := if signed && b[0] == 45 then -magnitude else magnitude;
      if -0x8000_0000 <= v <= 0x7FFF_FFFF then Some(v) else None
  }

  /** The index is compared in 32 unsigned bits. */
  predicate SameIndex(k: nat, n: int32) { k == n % 0x1_0000_0000 }

  /** The digits of a number. */
  function Decimal(n: nat): Bytes
  {
    if n < 10 then [48 + n] else Decimal(n / 10) + [48 + n % 10]
  }

  lemma {:induction false} DigitsOfDecimal(n: nat)
    ensures Decimal(n) != [] && IsDigit(Decimal(n)[0]) && Digits(Decimal(n)) == Some(n)
  {
    if n >= 10 {
      DigitsOfDecimal(n / 10);
      var b := Decimal(n / 10);
      assert (b + [48 + n % 10])[..|b|] == b;
    }
  }

  lemma Unsigned(b: Bytes, m: nat)
    requires b != [] && IsDigit(b[0]) && Digits(b) == Some(m) && m <= 0x7FFF_FFFF
    ensures LexicalCast(b) == Some(m)
  {
    hide Digits;
  }

  lemma Signed(sign: byte, b: Bytes, m: nat)
    requires (sign == '+' as int && m <= 0x7FFF_FFFF) || (sign == '-' as int && m <= 0x8000_0000)
    requires Digits(b) == Some(m)
    ensures LexicalCast([sign] + b) == Some(if sign == '-' as int then 0 - m else m)
  {
    hide Digits;
    assert ([sign] + b)[1..] == b;
  }

  /** lexical_cast reads every int32 from its digits, with a minus sign or perhaps a plus sign. */
  lemma CastOfDecimal(n: int)
    requires -0x8000_0000 <= n <= 0x7FFF_FFFF
    ensures n >= 0 ==> LexicalCast(Decimal(n)) == LexicalCast(['+' as int] + Decimal(n)) == Some(n)
    ensures n <= 0 ==> LexicalCast(['-' as int] + Decimal(-n)) == Some(n)
  {
    hide LexicalCast, Decimal, Digits;
    if n >= 0 {
      DigitsOfDecimal(n);
      Unsigned(Decimal(n), n);
      Signed('+' as int, Decimal(n), n);
    }
    if n <= 0 {
      DigitsOfDecimal(-n);
      Signed('-' as int, Decimal(-n), -n);
    }
  }

  // ---------------------------------------------------------------- nested elements

  /** MessageElement::FindElement: the first with the name, |es| when there is none. */
  function FindElement(es: seq<MessageElement>, name: Bytes): (k: nat)
    ensures k <= |es| && (k < |es| ==> es[k].elementName == name)
    ensures forall j :: 0 <= j < k ==> es[j].elementName != name
  {
    if es == [] || es[0].elementName == name then 0 else 1 + FindElement(es[1..], name)
  }

  /** The number of an element, or the one that its name says. */
  function MarkOf(el: MessageElement): Option<int32>
  {
    if Has(el.elementFlags, ELEMENT_NUMBER) then Some(el.elementNumber)
    else if Has(el.elementFlags, ELEMENT_NAME_STR) then LexicalCast(el.elementName)
    else None
  }

  /** The k-th of a list. */
  predicate IsMarked(el: MessageElement, k: nat) { MarkOf(el).Some? && SameIndex(k, MarkOf(el).value) }

  // ---------------------------------------------------------------- what can be unpacked

  predicate NumbersUnpackable(data: ElementContent, code: NumericType, kind: ArrayKind)
  {
    match data
    case NoData => !kind.Scalar?
    case ArrayData(a) => a.dataType == code && LengthFits(kind, Count(a))
    case NestedData(_, _, _) => false
  }

  /** An array is unpacked as the numbers of the type, whatever container that is of. */
  predicate ArrayUnpackable(services: Services, data: ElementContent, t: TypeDefinition)
  {
    match t.base
    case Numeric(code) => NumbersUnpackable(data, code, t.arrayKind)
    case TextType => data.NoData? && !t.arrayKind.Scalar?
    case Named(n) =>
      && n in services.types
      && if services.types[n].Enumeration? then NumbersUnpackable(data, INT32_T, Scalar)
         else data.NoData? && !t.arrayKind.Scalar?
  }

  /** Void for containers and known named types, arrays as above, UTF-8 for any type, and lists, maps
    * and structures of what can be unpacked, with their marks and names in order. */
  predicate Unpackable(services: Services, el: MessageElement, t: TypeDefinition)
    decreases el, 2
  {
    var code := el.elementType;
    if code == VOID_T then
      !t.container.NoContainer? || (t.base.Named? && t.base.typeName in services.types)
    else if code == STRING_T then
      el.data.ArrayData? && el.data.items.dataType == STRING_T && IsUtf8(el.data.items.memory)
    else if code <= 14 then ArrayUnpackable(services, el.data, t)
    else
      && el.data.NestedData? && el.data.dataType == code
      && var es := el.data.elements;
         if code == STRUCTURE_T then
           && el.elementTypeName in services.types && services.types[el.elementTypeName].Structure?
           && var members := services.types[el.elementTypeName].members;
              forall i | 0 <= i < |members| :: MemberUnpackable(services, es, members[i])
         else if code == VECTOR_T then
           && |es| <= 0x7FFF_FFFF
           && forall k | 0 <= k < |es| :: MarkOf(es[k]).Some? && Unpackable(services, es[k], Bare(t))
         else if code == DICTIONARY_T then
           && |es| <= 0x7FFF_FFFF
           && forall k | 0 <= k < |es| :: IsUtf8(es[k].elementName) && Unpackable(services, es[k], Bare(t))
         else
           && code == LIST_T && |es| <= 0xFFFF_FFFF
           && forall k | 0 <= k < |es| :: IsMarked(es[k], k) && Unpackable(services, es[k], Bare(t))
  }

  predicate MemberUnpackable(services: Services, es: seq<MessageElement>, m: Member)
    decreases es, 0
  {
    var k := FindElement(es, m.name);
    k < |es| && Unpackable(services, es[k], m.fieldType)
  }
}
