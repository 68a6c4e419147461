/** Python values, Robot Raconteur types, and what both sides of pack and unpack share. */
module PythonValues {
  import opened Numbers
  import opened Messages

  // ---------------------------------------------------------------- text

  predicate Within(x: byte, lo: byte, hi: byte) { lo <= x <= hi }

  /** The length of the first character of b by section 4 of RFC 3629, 0 when there is none. */
  function CharLength(b: Bytes): (n: nat)
    ensures n <= |b| && (n > 0 <==> CharLength(b) > 0)
  {
    if b == [] then 0
    else if b[0] < 0x80 then 1
    else if |b| >= 2 && Within(b[0], 0xC2, 0xDF) && Within(b[1], 0x80, 0xBF) then 2
    else if |b| >= 3 && Within(b[2], 0x80, 0xBF) && SecondOfThree(b[0], b[1]) then 3
    else if |b| >= 4 && Within(b[2], 0x80, 0xBF) && Within(b[3], 0x80, 0xBF) && SecondOfFour(b[0], b[1]) then 4
    else 0
  }

  predicate SecondOfThree(x: byte, y: byte)
  {
    || (x == 0xE0 && Within(y, 0xA0, 0xBF))
    || (x == 0xED && Within(y, 0x80, 0x9F))
    || (Within(x, 0xE1, 0xEF) && x != 0xED && Within(y, 0x80, 0xBF))
  }

  predicate SecondOfFour(x: byte, y: byte)
  {
    || (x == 0xF0 && Within(y, 0x90, 0xBF))
    || (x == 0xF4 && Within(y, 0x80, 0x8F))
    || (Within(x, 0xF1, 0xF3) && Within(y, 0x80, 0xBF))
  }

  /** The characters of Unicode: no surrogates, and nothing beyond 17 planes. */
  predicate IsScalar(c: nat) { c < 0xD800 || 0xE000 <= c < 0x11_0000 }

  /** A character in UTF-8: six bits to a byte behind the first. */
  function Utf8Of(c: nat): Bytes
    requires IsScalar(c)
  {
    if c < 0x80 then [c]
    else if c < 0x800 then [0xC0 + c / 0x40, 0x80 + c % 0x40]
    else if c < 0x1_0000 then [0xE0 + c / 0x1000, 0x80 + c / 0x40 % 0x40, 0x80 + c % 0x40]
    else [0xF0 + c / 0x4_0000, 0x80 + c / 0x1000 % 0x40, 0x80 + c / 0x40 % 0x40, 0x80 + c % 0x40]
  }

  lemma SixBits(h: nat, l: nat)
    requires l < 0x40
    ensures (0x40 * h + l) / 0x40 == h && (0x40 * h + l) % 0x40 == l
  {
  }

  lemma Sixths(c: nat)
    ensures c == 0x40 * (c / 0x40) + c % 0x40
    ensures c / 0x1000 == c / 0x40 / 0x40 && c / 0x4_0000 == c / 0x1000 / 0x40
  {
  }

  /** Every character is found whole, whatever follows it. */
  lemma CharacterFound(c: nat, rest: Bytes)
    requires IsScalar(c)
    ensures CharLength(Utf8Of(c) + rest) == |Utf8Of(c)|
  {
    var e := Utf8Of(c);
    var b := e + rest;
    Sixths(c);
    Sixths(c / 0x40);
    Sixths(c / 0x1000);
    assert forall k | 0 <= k < |e| :: b[k] == e[k];
  }

  /** And nothing else is found. */
  lemma OnlyCharacters(b: Bytes) returns (c: nat)
    requires CharLength(b) > 0
    ensures IsScalar(c) && b[..CharLength(b)] == Utf8Of(c)
  {
    var n := CharLength(b);
    var w: int := b[0];
    if n == 1 {
      c := w;
    } else {
      var x: int := b[1];
      if n == 2 {
        c := 0x40 * (w - 0xC0) + (x - 0x80);
        SixBits(w - 0xC0, x - 0x80);
      } else {
        var y: int := b[2];
        if n == 3 {
          c := FromThree(w, x, y);
        } else {
          c := FromFour(w, x, y, b[3]);
        }
      }
    }
  }

  lemma FromThree(w: byte, x: byte, y: byte) returns (c: nat)
    requires SecondOfThree(w, x) && Within(y, 0x80, 0xBF)
    ensures IsScalar(c) && 0x800 <= c < 0x1_0000 && Utf8Of(c) == [w, x, y]
  {
    var m: int := 0x40 * (w as int - 0xE0) + (x as int - 0x80);
    c := 0x40 * m + (y as int - 0x80);
    SixBits(m, y - 0x80);
    SixBits(w - 0xE0, x - 0x80);
    Sixths(c);
  }

  lemma FromFour(w: byte, x: byte, y: byte, z: byte) returns (c: nat)
    requires SecondOfFour(w, x) && Within(y, 0x80, 0xBF) && Within(z, 0x80, 0xBF)
    ensures IsScalar(c) && c >= 0x1_0000 && Utf8Of(c) == [w, x, y, z]
  {
    var l: int := 0x40 * (w as int - 0xF0) + (x as int - 0x80);
    var m: int := 0x40 * l + (y as int - 0x80);
    c := 0x40 * m + (z as int - 0x80);
    SixBits(m, z - 0x80);
    SixBits(l, y - 0x80);
    SixBits(w - 0xF0, x - 0x80);
    Sixths(c);
  }

  predicate IsUtf8(b: Bytes)
    decreases |b|
  {
    b == [] || (CharLength(b) > 0 && IsUtf8(b[CharLength(b)..]))
  }

  /** A Python string, as its UTF-8 bytes. */
  type Utf8 = b: Bytes | IsUtf8(b) witness []

  function Characters(b: Utf8): (r: seq<Value>)
    ensures forall k :: 0 <= k < |r| ==> r[k].Text?
    decreases |b|
  {
    if b == [] then []
    else
      FirstCharacter(b);
      [Text(b[..CharLength(b)])] + Characters(b[CharLength(b)..])
  }

  lemma FirstCharacter(b: Bytes)
    requires CharLength(b) > 0
    ensures IsUtf8(b[..CharLength(b)])
  {
    var c := b[..CharLength(b)];
    assert CharLength(c) == |c|;
    assert c[|c|..] == [];
  }

  /** std::string of a C string: up to the first null. */
  function CString(b: Bytes): (r: Bytes)
    ensures 0 !in b ==> r == b
    ensures 0 !in r
  {
    if b == [] || b[0] == 0 then [] else [b[0]] + CString(b[1..])
  }

  lemma CStringStep(b: Bytes)
    requires b != [] && b[0] != 0
    ensures CString(b) == [b[0]] + CString(b[1..])
  {}

  lemma Joined(b: Bytes, n: nat, rest: Bytes)
    requires 0 < n <= |b|
    ensures [b[0]] + (b[1..][..n - 1] + rest) == b[..n] + rest
    ensures b[1..][n - 1..] == b[n..]
  {}

  lemma {:induction false} CStringSkips(b: Bytes, n: nat)
    requires n <= |b| && 0 !in b[..n]
    ensures CString(b) == b[..n] + CString(b[n..])
    decreases n
  {
    if n > 0 {
      assert b[..n][0] == b[0];
      CStringStep(b);
      hide CString;
      assert forall x <- b[1..][..n - 1] :: x in b[..n];
      CStringSkips(b[1..], n - 1);
      Joined(b, n, CString(b[n..]));
    }
  }

  /** A null ends a string between two characters only. */
  lemma {:induction false} CStringIsUtf8(b: Utf8)
    ensures IsUtf8(CString(b))
    decreases |b|
  {
    if b != [] && b[0] != 0 {
      var n := CharLength(b);
      assert 0 !in b[..n];
      CStringSkips(b, n);
      CStringIsUtf8(b[n..]);
      var c := CString(b);
      assert c[..n] == b[..n] && c[n..] == CString(b[n..]);
      assert CharLength(c) == n;
    }
  }

  // ---------------------------------------------------------------- values

  predicate IsNumeric(t: uint16) { IsArrayType(t) && t != STRING_T }

  function Count(a: RRArray): nat { |a.memory| / RRArrayElementSize(a.dataType) }

  type NumericArray = a: RRArray | IsNumeric(a.dataType) witness ArrayMemory(4, [])

  /** A Python number, as the one element it takes in an array of its type. */
  type OneNumber = a: NumericArray | |a.memory| == RRArrayElementSize(a.dataType) witness ArrayMemory(4, [0])

  datatype Key = IntKey(n: int) | TextKey(text: Utf8)

  datatype Item = Item(key: Key, value: Value)

  /** Dictionaries and the attributes of structures are lists of items in their order. */
  datatype Value =
    | NoneValue
    | Number(number: OneNumber)
    | Array(numbers: NumericArray)
    | Text(text: Utf8)
    | List(values: seq<Value>)
    | Dict(items: seq<Item>)
    | Struct(className: Bytes, attributes: seq<Item>)

  /** The index of the item with the given key, |items| when there is none. */
  function Find(items: seq<Item>, key: Key): (k: nat)
    ensures k <= |items| && (k < |items| ==> items[k].key == key)
    ensures forall j :: 0 <= j < k ==> items[j].key != key
  {
    if items == [] || items[0].key == key then 0 else 1 + Find(items[1..], key)
  }

  function SetItem(items: seq<Item>, key: Key, value: Value): seq<Item>
  {
    var k := Find(items, key);
    if k < |items| then items[k := Item(key, value)] else items + [Item(key, value)]
  }

  function Lookup(items: seq<Item>, key: Key): (v: seq<Value>)
  {
    var k := Find(items, key);
    if k < |items| then [items[k].value] else []
  }

  /** An assignment to a dictionary: the key has the value, and every other key what it had. */
  lemma {:induction false} AssignedItem(items: seq<Item>, key: Key, value: Value, other: Key)
    ensures Lookup(SetItem(items, key, value), other) == if other == key then [value] else Lookup(items, other)
  {
    var r, first := SetItem(items, key, value), Item(key, value);
    if items == [] || items[0].key == key {
      assert r == [first] + if items == [] then [] else items[1..];
      LookupStep(r, other);
      LookupStep(items, other);
    } else {
      AssignedItem(items[1..], key, value, other);
      assert r[1..] == SetItem(items[1..], key, value);
      LookupStep(r, other);
      LookupStep(items, other);
    }
  }

  lemma LookupStep(items: seq<Item>, key: Key)
    ensures Lookup(items, key) ==
            if items == [] then [] else if items[0].key == key then [items[0].value] else Lookup(items[1..], key)
  {
  }

  function SetItems(items: seq<Item>, keys: seq<Key>, values: seq<Value>): seq<Item>
    requires |keys| == |values|
    decreases |keys|
  {
    if keys == [] then items else SetItems(SetItem(items, keys[0], values[0]), keys[1..], values[1..])
  }

  // ---------------------------------------------------------------- depth

  function Depth(v: Value): nat
  {
    match v
    case List(values) => 1 + DepthOfValues(values)
    case Dict(items) => 1 + DepthOfItems(items)
    case Struct(_, attributes) => 1 + DepthOfItems(attributes)
    case _ => 0
  }

  function DepthOfValues(vs: seq<Value>): (d: nat)
    ensures forall k :: 0 <= k < |vs| ==> Depth(vs[k]) <= d
  {
    if vs == [] then 0
    else
      var d, ds := Depth(vs[0]), DepthOfValues(vs[1..]);
      assert forall k :: 0 < k < |vs| ==> vs[k] == vs[1..][k - 1];
      if d > ds then d else ds
  }

  function DepthOfItem(item: Item): nat { Depth(item.value) }

  function DepthOfItems(items: seq<Item>): (d: nat)
    ensures forall k :: 0 <= k < |items| ==> DepthOfItem(items[k]) <= d
  {
    if items == [] then 0
    else
      var d, ds := DepthOfItem(items[0]), DepthOfItems(items[1..]);
      assert forall k :: 0 < k < |items| ==> items[k] == items[1..][k - 1];
      if d > ds then d else ds
  }

  // ---------------------------------------------------------------- sequences

  function NumberAt(a: NumericArray, k: nat): OneNumber
    requires k < Count(a)
  {
    var n := RRArrayElementSize(a.dataType);
    ElementInside(|a.memory|, n, k);
    ArrayMemory(a.dataType, a.memory[k * n..k * n + n])
  }

  lemma ElementInside(length: nat, n: nat, k: nat)
    requires n > 0 && k < length / n
    ensures 0 <= k * n <= k * n + n <= length
  {
    assert (k + 1) * n <= (length / n) * n;
  }

  predicate IsSequence(v: Value) { v.List? || v.Text? || v.Array? }

  /** PySequence_GetItem over the whole sequence: strings and arrays are sequences too. */
  function Items(v: Value): (r: seq<Value>)
    requires IsSequence(v)
    ensures forall k :: 0 <= k < |r| ==> Depth(r[k]) <= Depth(v)
  {
    match v
    case List(values) => values
    case Text(text) => Characters(text)
    case Array(a) => seq(Count(a), k requires 0 <= k < Count(a) => Number(NumberAt(a, k)))
  }

  // ---------------------------------------------------------------- types

  const INT32_T: uint16 := 7
  const STRING_T: uint16 := 11
  const STRUCTURE_T: uint16 := 101
  const VECTOR_T: uint16 := 102
  const DICTIONARY_T: uint16 := 103
  const LIST_T: uint16 := 108

  type NumericType = t: uint16 | IsNumeric(t) witness 7

  function NumberSize(code: NumericType): (n: nat)
    ensures n == 1 || n == 2 || n == 4 || n == 8 || n == 16
  {
    assert IsNumeric(code);
    RRArrayElementSize(code)
  }

  datatype Container = NoContainer | ListContainer | Int32Map | TextMap

  /** ArrayType, ArrayVarLength and ArrayLength: a maximum of 0 is none. */
  datatype ArrayKind = Scalar | FixedLength(length: nat) | UpTo(max: nat)

  datatype BaseType = Numeric(code: NumericType) | TextType | Named(typeName: Bytes)

  datatype TypeDefinition = TypeDefinition(name: Bytes, base: BaseType, arrayKind: ArrayKind, container: Container)

  datatype Member = Member(name: Utf8, fieldType: TypeDefinition)

  type Members = ms: seq<Member> | DistinctNames(ms) witness []

  predicate DistinctNames(ms: seq<Member>)
  {
    forall i, j :: 0 <= i < j < |ms| ==> ms[i].name != ms[j].name
  }

  datatype NamedType = Structure(members: Members) | Enumeration

  /** The width of a C long, through which PyLong_AsLong takes the keys of int32 maps. */
  datatype LongWidth = Long32 | Long64

  /** The service types both ends know, by qualified name, and the platform the packer is compiled for. */
  datatype Services = Services(types: map<Bytes, NamedType>, longWidth: LongWidth)

  function Bare(t: TypeDefinition): TypeDefinition { t.(container := NoContainer) }

  const VALUE_NAME: Bytes := [118, 97, 108, 117, 101]
  const ENUM_VALUE: TypeDefinition := TypeDefinition(VALUE_NAME, Numeric(INT32_T), Scalar, NoContainer)

  predicate LengthFits(kind: ArrayKind, n: nat)
  {
    match kind
    case Scalar => n == 1
    case FixedLength(k) => n == k
    case UpTo(max) => max == 0 || n <= max
  }

  /** boost::replace_all_copy(name, ".", "__"). */
  function ClassName(typeName: Bytes): Bytes
  {
    if typeName == [] then []
    else (if typeName[0] == '.' as int then ['_' as int, '_' as int] else [typeName[0]]) + ClassName(typeName[1..])
  }

  /** Every dot becomes two underscores, and nothing else changes. */
  lemma {:induction false} ClassNameParts(a: Bytes, b: Bytes)
    requires '.' as int !in a
    ensures ClassName(a) == a && ClassName(a + ['.' as int] + b) == a + ['_' as int, '_' as int] + ClassName(b)
  {
    var dot: Bytes, mark: Bytes := ['.' as int], ['_' as int, '_' as int];
    var c := a + dot + b;
    if a == [] {
      assert c == dot + b && c[1..] == b;
    } else {
      var x: Bytes, t := [a[0]], a[1..];
      ClassNameParts(t, b);
      assert a == x + t && c[1..] == t + dot + b && c[0] == a[0];
      assert x + (t + mark + ClassName(b)) == a + mark + ClassName(b);
    }
  }

  // ---------------------------------------------------------------- outcomes

  datatype Problem =
    | WrongDataType
    | WrongCast
    | UnknownType
    | MissingElement
    | BadNumberCast
    | NullData
    | NotText
    | OtherKind

  datatype LevelName = Field(name: Bytes) | Index(n: int) | KeyOf(key: Bytes)

  /** One entry of field_name and of field_type. */
  datatype Level = Level(name: LevelName, levelType: TypeDefinition)

  /** A result, or an exception and the levels pushed and not popped when it was thrown. */
  datatype Outcome<+T> = Done(value: T) | Failed(problem: Problem, path: seq<Level>) {
    predicate IsFailure() { Failed? }

    function PropagateFailure<U>(): Outcome<U>
      requires Failed?
    {
      Failed(problem, path)
    }

    function Extract(): T
      requires Done?
    {
      value
    }

    function At(level: Level): Outcome<T>
    {
      if Done? then this else Failed(problem, [level] + path)
    }
  }
}
