/** encode_index and decode_index: an index as it appears in an object path. */
module IndexEscape {
  import opened Numbers
  import opened Results

  type Chars = seq<byte>

  const PERCENT: byte := 0x25
  const SPACE: byte := 0x20
  const DOT: byte := 0x2E
  const OPEN: byte := 0x5B
  const CLOSE: byte := 0x5D

  /** isalnum in the "C" locale */
  predicate IsAlnum(c: byte) { 0x30 <= c <= 0x39 || 0x41 <= c <= 0x5A || 0x61 <= c <= 0x7A }

  /** isspace in the "C" locale */
  predicate IsSpace(c: byte) { c == SPACE || 0x09 <= c <= 0x0D }

  function HexDigit(d: nat): byte
    requires d < 16
  {
    if d < 10 then 0x30 + d else 0x61 + (d - 10)
  }

  function DigitValue(c: byte): Option<nat>
  {
    if 0x30 <= c <= 0x39 then Some(c - 0x30)
    else if 0x61 <= c <= 0x66 then Some(c - 0x61 + 10)
    else if 0x41 <= c <= 0x46 then Some(c - 0x41 + 10)
    else None
  }

  // ---------------------------------------------------------------- encoding

  /** `std::hex << std::setw(2) << int(c)`: padded with a space; a char from 128 on is negative and
    * its int has eight digits. */
  function Hex(c: byte): Chars
  {
    if c < 16 then [SPACE, HexDigit(c)]
    else if c < 128 then [HexDigit(c / 16), HexDigit(c % 16)]
    else [0x66, 0x66, 0x66, 0x66, 0x66, 0x66] + [HexDigit(c / 16), HexDigit(c % 16)]
  }

  function EncodeChar(c: byte): Chars { if IsAlnum(c) then [c] else [PERCENT] + Hex(c) }

  function Encode(s: Chars): Chars
  {
    if s == [] then [] else EncodeChar(s[0]) + Encode(s[1..])
  }

  lemma {:induction false} EncodeAppend(s: Chars, c: byte)
    ensures Encode(s + [c]) == Encode(s) + EncodeChar(c)
  {
    hide EncodeChar;
    if s == [] {
      assert [c][1..] == [] && EncodeChar(c) + [] == EncodeChar(c);
    } else {
      EncodeAppend(s[1..], c);
      assert (s + [c])[1..] == s[1..] + [c];
    }
  }

  method EncodeIndex(index: Chars) returns (out: Chars)
    ensures out == Encode(index)
  {
    hide Encode, EncodeChar;
    out := [];
    NothingEncoded();
    for i := 0 to |index|
      invariant out == Encode(index[..i])
    {
      assert index[..i + 1] == index[..i] + [index[i]];
      EncodeAppend(index[..i], index[i]);
      var c := index[i];
      if IsAlnum(c) {
        out := out + [c];
      } else {
        out := out + ([PERCENT] + Hex(c));
      }
      Encoded(c);
    }
    assert index[..|index|] == index;
  }

  lemma NothingEncoded()
    ensures Encode([]) == []
  {
  }

  lemma Encoded(c: byte)
    ensures EncodeChar(c) == if IsAlnum(c) then [c] else [PERCENT] + Hex(c)
  {
  }

  // ---------------------------------------------------------------- decoding

  /** `in2 >> std::hex >> v` on two characters, with in2.eof() afterwards: space before the number
    * is skipped, a sign is allowed, and a NUL ends the text. */
  function ParseTwo(a: byte, b: byte): Option<int>
  {
    if a == 0 then None
    else if b == 0 then (if DigitValue(a).Some? then Some(DigitValue(a).value) else None)
    else if IsSpace(a) || a == 0x2B then (if DigitValue(b).Some? then Some(DigitValue(b).value) else None)
    else if a == 0x2D then (if DigitValue(b).Some? then var d: int := DigitValue(b).value; Some(-d) else None)
    else if DigitValue(a).Some? && DigitValue(b).Some? then Some(16 * DigitValue(a).value + DigitValue(b).value)
    else None
  }

  function AsChar(v: int): byte { v % 256 }

  function Decode(s: Chars): Result<Chars>
  {
    if s == [] then Ok([])
    else if s[0] != PERCENT then
      var rest :- Decode(s[1..]);
      Ok([s[0]] + rest)
    else if |s| < 3 then Err(InvalidArgument)
    else if ParseTwo(s[1], s[2]).None? then Err(InvalidArgument)
    else
      var rest :- Decode(s[3..]);
      Ok([AsChar(ParseTwo(s[1], s[2]).value)] + rest)
  }

  method DecodeIndex(index: Chars) returns (r: Result<Chars>)
    ensures r == Decode(index)
  {
    hide ParseTwo;
    var out := [];
    var pos := 0;
    assert index[0..] == index;
    BehindNone(Decode(index));
    while pos < |index|
      invariant pos <= |index|
      invariant Decode(index) == Behind(out, Decode(index[pos..]))
    {
      var c := index[pos];
      ghost var left, written := index[pos..], out;
      pos := pos + 1;
      if c != PERCENT {
        out := out + [c];
        assert left[1..] == index[pos..];
        BehindOne(written, c, Decode(left[1..]));
      } else {
        if |index| - pos < 2 { return Err(InvalidArgument); }
        var v := ParseTwo(index[pos], index[pos + 1]);
        pos := pos + 2;
        if v.None? { return Err(InvalidArgument); }
        out := out + [AsChar(v.value)];
        assert left[3..] == index[pos..] && left[1] == index[pos - 2] && left[2] == index[pos - 1];
        BehindOne(written, AsChar(v.value), Decode(left[3..]));
      }
    }
    assert out + [] == out;
    return Ok(out);
  }

  function Behind(out: Chars, r: Result<Chars>): Result<Chars>
  {
    if r.Ok? then Ok(out + r.value) else r
  }

  lemma BehindOne(out: Chars, c: byte, r: Result<Chars>)
    ensures Behind(out + [c], r) == Behind(out, if r.Ok? then Ok([c] + r.value) else r)
  {
    if r.Ok? { assert (out + [c]) + r.value == out + ([c] + r.value); }
  }

  lemma BehindNone(r: Result<Chars>)
    ensures Behind([], r) == r
  {
    if r.Ok? { assert [] + r.value == r.value; }
  }

  // ---------------------------------------------------------------- there and back

  lemma HexParses(c: byte)
    requires c < 128
    ensures |Hex(c)| == 2 && ParseTwo(Hex(c)[0], Hex(c)[1]) == Some(c)
  {
  }

  lemma DecodeChar(c: byte, rest: Chars)
    requires c < 128
    ensures Decode(EncodeChar(c) + rest) == Behind([c], Decode(rest))
  {
    hide ParseTwo, Hex;
    var s := EncodeChar(c) + rest;
    if IsAlnum(c) {
      assert s[1..] == rest;
    } else {
      HexParses(c);
      assert s[1] == Hex(c)[0] && s[2] == Hex(c)[1] && s[3..] == rest;
    }
  }

  /** From 128 on the two digits after the percent sign are `ff` and six characters are left over. */
  lemma DecodeWide(c: byte, rest: Chars)
    requires c >= 128
    ensures var tail: Chars := [0x66, 0x66, 0x66, 0x66, HexDigit(c / 16), HexDigit(c % 16)];
            Decode(EncodeChar(c) + rest) == Behind([255] + tail, Decode(rest))
  {
    var d, e := HexDigit(c / 16), HexDigit(c % 16);
    var tail: Chars := [0x66, 0x66, 0x66, 0x66, d, e];
    var s := EncodeChar(c) + rest;
    assert ParseTwo(0x66, 0x66) == Some(255);
    assert s[3..] == tail + rest;
    Plain(tail, rest);
    BehindBoth([255], tail, Decode(rest));
  }

  lemma BehindBoth(a: Chars, b: Chars, r: Result<Chars>)
    ensures Behind(a + b, r) == Behind(a, Behind(b, r))
  {
    if r.Ok? { assert (a + b) + r.value == a + (b + r.value); }
  }

  lemma PlainChar(c: byte, rest: Chars)
    requires c != PERCENT
    ensures Decode([c] + rest) == Behind([c], Decode(rest))
  {
    hide ParseTwo;
    assert ([c] + rest)[1..] == rest;
  }

  lemma {:induction false} Plain(plain: Chars, rest: Chars)
    requires PERCENT !in plain
    ensures Decode(plain + rest) == Behind(plain, Decode(rest))
  {
    hide Decode, Behind;
    if plain == [] {
      assert plain + rest == rest;
      BehindNone(Decode(rest));
    } else {
      var c, t := plain[0], plain[1..];
      assert plain + rest == [c] + (t + rest) && plain == [c] + t;
      PlainChar(c, t + rest);
      Plain(t, rest);
      BehindBoth([c], t, Decode(rest));
    }
  }

  function Wide(s: Chars): nat
  {
    if s == [] then 0 else (if s[0] >= 128 then 1 else 0) + Wide(s[1..])
  }

  /** Every wide character comes back as seven. */
  lemma {:induction false} DecodedLength(s: Chars)
    ensures Decode(Encode(s)).Ok? && |Decode(Encode(s)).value| == |s| + 6 * Wide(s)
    ensures Wide(s) == 0 ==> Decode(Encode(s)) == Ok(s)
  {
    hide EncodeChar;
    if s != [] {
      DecodedLength(s[1..]);
      if s[0] < 128 {
        DecodeChar(s[0], Encode(s[1..]));
        assert [s[0]] + s[1..] == s;
      } else {
        DecodeWide(s[0], Encode(s[1..]));
      }
    }
  }

  lemma {:induction false} NoWide(s: Chars)
    ensures Wide(s) == 0 <==> forall i | 0 <= i < |s| :: s[i] < 128
  {
    if s != [] {
      NoWide(s[1..]);
      assert forall i | 1 <= i < |s| :: s[i] == s[1..][i - 1];
    }
  }

  /** decode_index undoes encode_index exactly on strings of ASCII characters. */
  lemma RoundTrip(s: Chars)
    ensures Decode(Encode(s)) == Ok(s) <==> forall i | 0 <= i < |s| :: s[i] < 128
  {
    DecodedLength(s);
    NoWide(s);
  }

  // ---------------------------------------------------------------- what is escaped, and how

  predicate LetterOrDigit(c: byte)
  {
    || '0' as int <= c <= '9' as int
    || 'A' as int <= c <= 'Z' as int
    || 'a' as int <= c <= 'z' as int
  }

  lemma {:induction false} EscapeGrows(s: Chars)
    ensures |Encode(s)| >= |s|
    ensures |Encode(s)| == |s| <==> forall i | 0 <= i < |s| :: LetterOrDigit(s[i])
    ensures |Encode(s)| == |s| ==> Encode(s) == s
  {
    if s != [] {
      EscapeGrows(s[1..]);
      assert forall i | 1 <= i < |s| :: s[i] == s[1..][i - 1];
      assert s == [s[0]] + s[1..];
    }
  }

  /** A string is its own escape exactly when it is of letters and digits. */
  lemma PlainExactly(s: Chars)
    ensures Encode(s) == s <==> forall i | 0 <= i < |s| :: LetterOrDigit(s[i])
  {
    EscapeGrows(s);
  }

  const HEX := "0123456789abcdef"

  /** Any other ASCII character becomes a percent sign and its code, in two places, in hexadecimal. */
  lemma EscapedCharacter(c: byte)
    requires c < 128 && !LetterOrDigit(c)
    ensures Encode([c]) == ['%' as int, (if c < 16 then ' ' else HEX[c / 16]) as int, HEX[c % 16] as int]
  {
    assert [c][1..] == [];
    assert forall d | 0 <= d < 16 :: HexDigit(d) == HEX[d] as int;
  }

  // ---------------------------------------------------------------- paths

  predicate Clean(s: Chars) { DOT !in s && OPEN !in s && CLOSE !in s }

  lemma {:induction false} EncodedIsClean(s: Chars)
    ensures Clean(Encode(s))
  {
    if s != [] {
      EncodedIsClean(s[1..]);
      assert Clean(EncodeChar(s[0]));
    }
  }

  /** No escaped character begins another. */
  lemma CharsSplit(c: byte, x: Chars, d: byte, y: Chars)
    requires EncodeChar(c) + x == EncodeChar(d) + y
    ensures c == d && x == y
  {
    var p, q, m, n := EncodeChar(c) + x, EncodeChar(d) + y, EncodeChar(c), EncodeChar(d);
    assert m[0] == p[0] == q[0] == n[0];
    if !IsAlnum(c) {
      assert m[1] == p[1] == q[1] == n[1] && m[2] == p[2] == q[2] == n[2];
      if c >= 128 {
        assert m[7] == p[7] == q[7] == n[7] && m[8] == p[8] == q[8] == n[8];
      }
    }
    assert p[|m|..] == x && q[|n|..] == y;
  }

  /** Different indices, ASCII or not, have different escapes. */
  lemma {:induction false} EncodeInjective(s: Chars, t: Chars)
    requires Encode(s) == Encode(t)
    ensures s == t
  {
    hide EncodeChar;
    if s != [] && t != [] {
      CharsSplit(s[0], Encode(s[1..]), t[0], Encode(t[1..]));
      EncodeInjective(s[1..], t[1..]);
      assert s == [s[0]] + s[1..] && t == [t[0]] + t[1..];
    } else {
      NotEmpty(s);
      NotEmpty(t);
    }
  }

  lemma NotEmpty(s: Chars)
    ensures Encode(s) == [] <==> s == []
  {
  }

  lemma {:induction false} SplitAt(a: Chars, x: Chars, b: Chars, y: Chars, mark: byte)
    requires a + [mark] + x == b + [mark] + y && mark !in a && mark !in b
    ensures a == b && x == y
  {
    var p, q := a + [mark] + x, b + [mark] + y;
    assert p[0] == if a == [] then mark else a[0];
    assert q[0] == if b == [] then mark else b[0];
    if a == [] {
      assert b == [];
      assert p[1..] == x && q[1..] == y;
    } else {
      assert b != [];
      assert p[1..] == a[1..] + [mark] + x && q[1..] == b[1..] + [mark] + y;
      SplitAt(a[1..], x, b[1..], y, mark);
      assert a == [a[0]] + a[1..] && b == [b[0]] + b[1..];
    }
  }

  /** One step from an object to a member of it, with an index where the member is an array or a map. */
  datatype Step = Step(name: Chars, index: Option<Chars>)

  /** Names of members are identifiers. */
  predicate IsName(name: Chars) { DOT !in name && OPEN !in name }

  function Segment(step: Step): Chars
  {
    match step.index
    case None => step.name
    case Some(i) => step.name + [OPEN] + Encode(i) + [CLOSE]
  }

  /** AsyncFindObjRef: the path of an object below the one at `path`. */
  function ObjectPath(path: Chars, step: Step): Chars
  {
    path + [DOT] + Segment(step)
  }

  function PathFrom(service: Chars, steps: seq<Step>): Chars
  {
    if steps == [] then service else ObjectPath(PathFrom(service, steps[..|steps| - 1]), steps[|steps| - 1])
  }

  lemma SegmentHasNoDot(step: Step)
    requires IsName(step.name)
    ensures DOT !in Segment(step)
  {
    hide Encode;
    if step.index.Some? { EncodedIsClean(step.index.value); }
  }

  /** Where the mark is behind none of the ends, it is the last one. */
  lemma SplitLast(a: Chars, x: Chars, b: Chars, y: Chars, mark: byte)
    requires a + [mark] + x == b + [mark] + y && mark !in x && mark !in y
    ensures a == b && x == y
  {
    var p, q := a + [mark] + x, b + [mark] + y;
    forall k | |a| < k < |p| ensures p[k] != mark { assert p[k] == x[k - |a| - 1]; }
    forall k | |b| < k < |q| ensures q[k] != mark { assert q[k] == y[k - |b| - 1]; }
    assert p[|a|] == mark && q[|b|] == mark;
    assert p[..|a|] == a && p[|a| + 1..] == x && q[..|b|] == b && q[|b| + 1..] == y;
  }

  lemma OnlyIndexOpens(step: Step)
    requires IsName(step.name)
    ensures OPEN in Segment(step) <==> step.index.Some?
  {
    hide Encode;
    if step.index.Some? { assert Segment(step)[|step.name|] == OPEN; }
  }

  lemma OnlyStepsHaveDots(service: Chars, steps: seq<Step>)
    requires DOT !in service
    ensures DOT in PathFrom(service, steps) <==> steps != []
  {
    hide Segment;
    if steps != [] {
      assert PathFrom(service, steps)[|PathFrom(service, steps[..|steps| - 1])|] == DOT;
    }
  }

  lemma SegmentSplits(s: Step, t: Step)
    requires IsName(s.name) && IsName(t.name) && Segment(s) == Segment(t)
    ensures s == t
  {
    hide Encode;
    OnlyIndexOpens(s);
    OnlyIndexOpens(t);
    if s.index.Some? {
      var e, f := Encode(s.index.value), Encode(t.index.value);
      assert Segment(s) == s.name + [OPEN] + (e + [CLOSE]) && Segment(t) == t.name + [OPEN] + (f + [CLOSE]);
      SplitAt(s.name, e + [CLOSE], t.name, f + [CLOSE], OPEN);
      assert (e + [CLOSE])[..|e|] == e && (f + [CLOSE])[..|f|] == f;
      EncodeInjective(s.index.value, t.index.value);
    }
  }

  /** The path of an object splits back into the path of its parent, the name and the index. */
  lemma PathSplits(path1: Chars, step1: Step, path2: Chars, step2: Step)
    requires IsName(step1.name) && IsName(step2.name)
    requires ObjectPath(path1, step1) == ObjectPath(path2, step2)
    ensures path1 == path2 && step1 == step2
  {
    hide Segment;
    SegmentHasNoDot(step1);
    SegmentHasNoDot(step2);
    SplitLast(path1, Segment(step1), path2, Segment(step2), DOT);
    SegmentSplits(step1, step2);
  }

  /** And so, step by step, into the service and all that leads from it to the object. */
  lemma {:induction false} WholePathSplits(service1: Chars, steps1: seq<Step>, service2: Chars, steps2: seq<Step>)
    requires DOT !in service1 && DOT !in service2
    requires forall k | 0 <= k < |steps1| :: IsName(steps1[k].name)
    requires forall k | 0 <= k < |steps2| :: IsName(steps2[k].name)
    requires PathFrom(service1, steps1) == PathFrom(service2, steps2)
    ensures service1 == service2 && steps1 == steps2
    decreases |steps1|
  {
    hide Segment;
    OnlyStepsHaveDots(service1, steps1);
    OnlyStepsHaveDots(service2, steps2);
    if steps1 != [] {
      var front1, last1, front2, last2 := steps1[..|steps1| - 1], steps1[|steps1| - 1], steps2[..|steps2| - 1],
          steps2[|steps2| - 1];
      PathSplits(PathFrom(service1, front1), last1, PathFrom(service2, front2), last2);
      WholePathSplits(service1, front1, service2, front2);
      assert steps1 == front1 + [last1] && steps2 == front2 + [last2];
    }
  }
}
