/** Little-endian numbers and the variable-length integers UintX, UintX2, IntX and IntX2:
  * what ArrayBinaryWriter and AsyncMessageWriterImpl emit and what ArrayBinaryReader takes back. */
module Numbers {
  import opened Results

  type byte = x: int | 0 <= x < 0x100
  type uint16 = x: int | 0 <= x < 0x1_0000
  type uint32 = x: int | 0 <= x < 0x1_0000_0000
  type uint64 = x: int | 0 <= x < 0x1_0000_0000_0000_0000
  type int32 = x: int | -0x8000_0000 <= x < 0x8000_0000
  type int64 = x: int | -0x8000_0000_0000_0000 <= x < 0x8000_0000_0000_0000

  const UINT16_MAX: int := 0xFFFF
  const UINT32_MAX: int := 0xFFFF_FFFF

  /** The values of 32 bits, as many as there are of size_t in WebAssembly. */
  const SIZE := 0x1_0000_0000

  /** Arithmetic in 32 unsigned bits: of uint32_t, and of size_t. */
  function Wrap(n: int): uint32 { n % SIZE }

  lemma WrapSmall(n: int)
    requires 0 <= n < SIZE
    ensures Wrap(n) == n
  {
  }

  /** The outcome of taking a value off the front of a byte sequence. */
  datatype Taken<T> =
    | Took(value: T, size: nat)
    | Short     // more bytes are needed
    | Invalid   // the marker byte is not one of this format

  // ---------------------------------------------------------------- fixed width

  /** The low `width` bytes of n, least significant first: memcpy of a little-endian integer. */
  function Little(n: nat, width: nat): (b: seq<byte>)
    ensures |b| == width
  {
    if width == 0 then [] else [n % 256] + Little(n / 256, width - 1)
  }

  function FromLittle(b: seq<byte>): nat
  {
    if b == [] then 0 else b[0] + 256 * FromLittle(b[1..])
  }

  function Pow256(width: nat): (p: nat)
    ensures p > 0
  {
    if width == 0 then 1 else 256 * Pow256(width - 1)
  }

  lemma {:induction false} LittleRoundTrip(n: nat, width: nat)
    requires n < Pow256(width)
    ensures FromLittle(Little(n, width)) == n
  {
    if width > 0 {
      LittleRoundTrip(n / 256, width - 1);
      assert Little(n, width)[1..] == Little(n / 256, width - 1);
    }
  }

  lemma {:induction false} FromLittleBound(b: seq<byte>)
    ensures FromLittle(b) < Pow256(|b|)
  {
    if b != [] {
      FromLittleBound(b[1..]);
    }
  }

  /** Every byte sequence is the encoding of the number it decodes to. */
  lemma {:induction false} LittleOntoBytes(b: seq<byte>)
    ensures Little(FromLittle(b), |b|) == b
  {
    if b != [] {
      LittleOntoBytes(b[1..]);
      assert FromLittle(b) % 256 == b[0] && FromLittle(b) / 256 == FromLittle(b[1..]);
      assert b == [b[0]] + b[1..];
    }
  }

  /** The byte at place i is the digit of weight 256^i: the low byte goes first. */
  lemma {:induction false} LittleAt(n: nat, width: nat, i: nat)
    requires i < width
    ensures Little(n, width)[i] == n / Pow256(i) % 256
  {
    if i > 0 {
      LittleAt(n / 256, width - 1, i - 1);
      DivideTwice(n, Pow256(i - 1));
    }
  }

  lemma DivideTwice(n: nat, b: nat)
    requires b > 0
    ensures n / 256 / b == n / (256 * b)
  {
    var m := n / 256;
    var q, r := m / b, m % b;
    assert m == q * b + r && 0 <= r < b;
    assert q * (256 * b) == 256 * (q * b);
    Quotient(n, 256 * b, q, 256 * r + n % 256);
  }

  lemma Quotient(n: nat, d: nat, q: nat, r: nat)
    requires r < d && n == q * d + r
    ensures n / d == q
  {
    var p, s := n / d, n % d;
    assert n == p * d + s;
    assert (p - q) * d == r - s;
    if p != q { Apart(p - q, d); }
  }

  lemma Apart(k: int, d: nat)
    requires k != 0
    ensures k * d >= d || k * d <= 0 - d
  {
    if k > 0 { assert (k - 1) * d >= 0; } else { assert (-k - 1) * d >= 0; }
  }

  /** Bytes that follow weigh more. */
  lemma {:induction false} FromLittleAppend(a: seq<byte>, b: seq<byte>)
    ensures FromLittle(a + b) == FromLittle(a) + Pow256(|a|) * FromLittle(b)
  {
    if a == [] {
      assert a + b == b;
    } else {
      FromLittleAppend(a[1..], b);
      assert (a + b)[1..] == a[1..] + b;
      assert 256 * (Pow256(|a| - 1) * FromLittle(b)) == Pow256(|a|) * FromLittle(b);
    }
  }

  lemma Widths()
    ensures Pow256(1) == 0x100 && Pow256(2) == 0x1_0000
    ensures Pow256(4) == 0x1_0000_0000 && Pow256(8) == 0x1_0000_0000_0000_0000
  {
    assert Pow256(3) == 0x100_0000;
    assert Pow256(5) == 0x100_0000_0000;
    assert Pow256(6) == 0x1_0000_0000_0000;
    assert Pow256(7) == 0x100_0000_0000_0000;
  }

  /** Two's complement of width bytes: the bit pattern of a signed integer. */
  function Twos(v: int, width: nat): nat
    requires v + Pow256(width) >= 0
  {
    if v < 0 then v + Pow256(width) else v
  }

  function FromTwos(n: nat, width: nat): int
  {
    if 2 * n >= Pow256(width) then n - Pow256(width) else n
  }

  // ---------------------------------------------------------------- variable length, unsigned

  function UintX(n: nat): (b: seq<byte>)
    ensures |b| == UintXByteCount(n)
  {
    if n <= 252 then [n]
    else if n <= UINT16_MAX then [253] + Little(n, 2)
    else [254] + Little(n, 4)
  }

  function UintX2(n: nat): (b: seq<byte>)
    ensures |b| == UintX2ByteCount(n)
  {
    if n <= UINT32_MAX then UintX(n) else [255] + Little(n, 8)
  }

  function UintXByteCount(n: nat): nat
  {
    if n <= 252 then 1 else if n <= UINT16_MAX then 3 else 5
  }

  function UintX2ByteCount(n: nat): nat
  {
    if n <= 252 then 1 else if n <= UINT16_MAX then 3 else if n <= UINT32_MAX then 5 else 9
  }

  /** A UintX byte by byte. */
  lemma UintXBytes(n: uint32)
    ensures UintX(n) ==
            if n <= 252 then [n]
            else if n <= 0xFFFF then [253, n % 256, n / 0x100]
            else [254, n % 256, n / 0x100 % 256, n / 0x1_0000 % 256, n / 0x100_0000]
  {
    TwoBytes(n);
    FourBytes(n);
  }

  lemma UintX2Bytes(n: uint64)
    requires n > 0xFFFF_FFFF
    ensures UintX2(n)[0] == 255 && forall i | 0 <= i < 8 :: UintX2(n)[1 + i] == n / Pow256(i) % 256
  {
    forall i | 0 <= i < 8 ensures UintX2(n)[1 + i] == n / Pow256(i) % 256 { LittleAt(n, 8, i); }
  }

  lemma TwoBytes(n: nat)
    ensures Little(n, 2) == [n % 256, n / 0x100 % 256]
  {
    Weights();
    hide Little, Pow256;
    var b := Little(n, 2);
    LittleAt(n, 2, 0); LittleAt(n, 2, 1);
    assert b == [b[0], b[1]];
  }

  lemma FourBytes(n: nat)
    ensures Little(n, 4) == [n % 256, n / 0x100 % 256, n / 0x1_0000 % 256, n / 0x100_0000 % 256]
  {
    Weights();
    hide Little, Pow256;
    var b := Little(n, 4);
    LittleAt(n, 4, 0); LittleAt(n, 4, 1); LittleAt(n, 4, 2); LittleAt(n, 4, 3);
    assert b == [b[0], b[1], b[2], b[3]];
  }

  lemma FourDigits(a: byte, b: byte, c: byte, d: byte)
    ensures FromLittle([a, b, c, d]) == a as int + 0x100 * b + 0x1_0000 * c + 0x100_0000 * d
  {
    assert [a, b, c, d][1..] == [b, c, d] && [b, c, d][1..] == [c, d] && [c, d][1..] == [d] && [d][1..] == [];
    assert FromLittle([d]) == d && FromLittle([c, d]) == c as int + 0x100 * d;
    assert FromLittle([b, c, d]) == b as int + 0x100 * c + 0x1_0000 * d;
  }

  lemma Weights()
    ensures Pow256(0) == 1 && Pow256(1) == 0x100 && Pow256(2) == 0x1_0000 && Pow256(3) == 0x100_0000
  {
    Widths();
  }

  /** ReadUintX: the marker byte decides the width; 255 is no UintX. */
  function TakeUintX(s: seq<byte>): (t: Taken<uint32>)
  {
    if s == [] then Short
    else if s[0] <= 252 then Took(s[0], 1)
    else if s[0] == 253 then TakeFixed(s, 2)
    else if s[0] == 254 then TakeFixed(s, 4)
    else Invalid
  }

  function TakeFixed(s: seq<byte>, width: nat): (t: Taken<uint32>)
    requires s != [] && (width == 2 || width == 4)
  {
    if |s| < 1 + width then Short
    else
      Widths();
      FromLittleBound(s[1..1 + width]);
      Took(FromLittle(s[1..1 + width]), 1 + width)
  }

  function TakeUintX2(s: seq<byte>): (t: Taken<uint64>)
  {
    if s == [] then Short
    else if s[0] <= 252 then Took(s[0], 1)
    else if s[0] == 253 || s[0] == 254 then
      var t := TakeFixed(s, if s[0] == 253 then 2 else 4);
      if t.Took? then Took(t.value, t.size) else Short
    else if |s| < 9 then Short
    else
      Widths();
      FromLittleBound(s[1..9]);
      Took(FromLittle(s[1..9]), 9)
  }

  /** Whatever follows the encoding, exactly the number and exactly its bytes are taken back. */
  lemma UintXRoundTrip(n: uint32, tail: seq<byte>)
    ensures TakeUintX(UintX(n) + tail) == Took(n, UintXByteCount(n))
  {
    Widths();
    var s := UintX(n) + tail;
    if 252 < n <= UINT16_MAX {
      assert s[1..3] == Little(n, 2);
      LittleRoundTrip(n, 2);
    } else if n > UINT16_MAX {
      assert s[1..5] == Little(n, 4);
      LittleRoundTrip(n, 4);
    }
  }

  lemma UintX2RoundTrip(n: uint64, tail: seq<byte>)
    ensures TakeUintX2(UintX2(n) + tail) == Took(n, UintX2ByteCount(n))
  {
    Widths();
    var s := UintX2(n) + tail;
    if 252 < n <= UINT16_MAX {
      assert s[1..3] == Little(n, 2);
      LittleRoundTrip(n, 2);
    } else if UINT16_MAX < n <= UINT32_MAX {
      assert s[1..5] == Little(n, 4);
      LittleRoundTrip(n, 4);
    } else if n > UINT32_MAX {
      assert s[1..9] == Little(n, 8);
      LittleRoundTrip(n, 8);
    }
  }

  /** Bytes that agree with an encoding as far as they go decode to it, or are too short. */
  lemma UintXPrefix(a: seq<byte>, n: uint32, tail: seq<byte>)
    requires a <= UintX(n) + tail
    ensures |a| >= UintXByteCount(n) ==> TakeUintX(a) == Took(n, UintXByteCount(n))
    ensures |a| < UintXByteCount(n) ==> TakeUintX(a) == Short
  {
    if |a| >= UintXByteCount(n) {
      var rest := a[UintXByteCount(n)..];
      assert a == UintX(n) + rest by {
        assert a[..UintXByteCount(n)] == (UintX(n) + tail)[..UintXByteCount(n)] == UintX(n);
      }
      UintXRoundTrip(n, rest);
    } else if a != [] {
      assert a[0] == UintX(n)[0];
    }
  }

  /** UintX is prefix-free. */
  lemma UintXPrefixFree(a: uint32, b: uint32)
    requires UintX(a) <= UintX(b)
    ensures a == b
  {
    var tail := UintX(b)[|UintX(a)|..];
    assert UintX(b) == UintX(a) + tail;
    UintXRoundTrip(a, tail);
    UintXRoundTrip(b, []);
    assert UintX(b) + [] == UintX(b);
  }

  lemma UintX2PrefixFree(a: uint64, b: uint64)
    requires UintX2(a) <= UintX2(b)
    ensures a == b
  {
    var tail := UintX2(b)[|UintX2(a)|..];
    assert UintX2(b) == UintX2(a) + tail;
    UintX2RoundTrip(a, tail);
    UintX2RoundTrip(b, []);
    assert UintX2(b) + [] == UintX2(b);
  }

  // ---------------------------------------------------------------- variable length, signed

  predicate FitsInt8X(v: int) { -0x80 <= v <= 124 }
  predicate FitsInt16(v: int) { -0x8000 <= v <= 0x7FFF }
  predicate FitsInt32(v: int) { -0x8000_0000 <= v <= 0x7FFF_FFFF }

  function IntX(v: int32): (b: seq<byte>)
    ensures |b| == IntXByteCount(v)
  {
    Widths();
    if FitsInt8X(v) then Little(Twos(v, 1), 1)
    else if FitsInt16(v) then [125] + Little(Twos(v, 2), 2)
    else [126] + Little(Twos(v, 4), 4)
  }

  function IntX2(v: int64): (b: seq<byte>)
    ensures |b| == IntX2ByteCount(v)
  {
    Widths();
    if FitsInt32(v) then IntX(v) else [127] + Little(Twos(v, 8), 8)
  }

  function IntXByteCount(v: int): nat
  {
    if FitsInt8X(v) then 1 else if FitsInt16(v) then 3 else 5
  }

  function IntX2ByteCount(v: int): nat
  {
    if FitsInt8X(v) then 1 else if FitsInt16(v) then 3 else if FitsInt32(v) then 5 else 9
  }

  /** An IntX byte by byte, in two's complement: divisions round down. */
  lemma IntXBytes(v: int32)
    ensures IntX(v) ==
            if -128 <= v <= 124 then [v % 256]
            else if -0x8000 <= v <= 0x7FFF then [125, v % 256, v / 0x100 % 256]
            else [126, v % 256, v / 0x100 % 256, v / 0x1_0000 % 256, v / 0x100_0000 % 256]
  {
    Widths();
    if FitsInt8X(v) {
      assert Little(Twos(v, 1), 1) == [Twos(v, 1)];
    } else if FitsInt16(v) {
      TwoBytes(Twos(v, 2));
      LowByte(v, 256);
      LowByte(v / 0x100, 1);
      hide Little;
    } else {
      FourBytes(Twos(v, 4));
      LowByte(v, 0x100_0000);
      LowByte(v / 0x100, 0x1_0000);
      LowByte(v / 0x1_0000, 0x100);
      LowByte(v / 0x100_0000, 1);
      hide Little;
    }
  }

  lemma LowByte(v: int, k: nat)
    ensures (v + 256 * k) % 256 == v % 256
  {
  }

  lemma IntX2Bytes(v: int64)
    requires !FitsInt32(v)
    ensures IntX2(v)[0] == 127
    ensures forall i | 0 <= i < 8 ::
              IntX2(v)[1 + i] == (if v < 0 then v + 0x1_0000_0000_0000_0000 else v) / Pow256(i) % 256
  {
    Widths();
    forall i | 0 <= i < 8 ensures IntX2(v)[1 + i] == Twos(v, 8) / Pow256(i) % 256 { LittleAt(Twos(v, 8), 8, i); }
  }

  /** ReadIntX: the first byte is a signed byte; 125 and 126 are markers, 127 is no IntX. */
  function TakeIntX(s: seq<byte>): (t: Taken<int32>)
  {
    if s == [] then Short
    else if FromTwos8(s[0]) <= 124 then Took(FromTwos8(s[0]), 1)
    else if s[0] == 125 then TakeSigned(s, 2)
    else if s[0] == 126 then TakeSigned(s, 4)
    else Invalid
  }

  function FromTwos8(b: byte): int { if b >= 128 then b - 256 else b }

  function TakeSigned(s: seq<byte>, width: nat): (t: Taken<int32>)
    requires s != [] && (width == 2 || width == 4)
  {
    if |s| < 1 + width then Short
    else
      Widths();
      FromLittleBound(s[1..1 + width]);
      Took(FromTwos(FromLittle(s[1..1 + width]), width), 1 + width)
  }

  function TakeIntX2(s: seq<byte>): (t: Taken<int64>)
  {
    if s == [] then Short
    else if FromTwos8(s[0]) <= 124 then Took(FromTwos8(s[0]), 1)
    else if s[0] == 125 || s[0] == 126 then
      var t := TakeSigned(s, if s[0] == 125 then 2 else 4);
      if t.Took? then Took(t.value, t.size) else Short
    else if |s| < 9 then Short
    else
      Widths();
      FromLittleBound(s[1..9]);
      Took(FromTwos(FromLittle(s[1..9]), 8), 9)
  }

  lemma IntXRoundTrip(v: int32, tail: seq<byte>)
    ensures TakeIntX(IntX(v) + tail) == Took(v, IntXByteCount(v))
  {
    Widths();
    var s := IntX(v) + tail;
    if FitsInt8X(v) {
      assert Little(Twos(v, 1), 1) == [Twos(v, 1)];
    } else if FitsInt16(v) {
      assert s[1..3] == Little(Twos(v, 2), 2);
      LittleRoundTrip(Twos(v, 2), 2);
    } else {
      assert s[1..5] == Little(Twos(v, 4), 4);
      LittleRoundTrip(Twos(v, 4), 4);
    }
  }

  lemma IntX2RoundTrip(v: int64, tail: seq<byte>)
    ensures TakeIntX2(IntX2(v) + tail) == Took(v, IntX2ByteCount(v))
  {
    Widths();
    var s := IntX2(v) + tail;
    if FitsInt8X(v) {
      assert Little(Twos(v, 1), 1) == [Twos(v, 1)];
    } else if FitsInt16(v) {
      assert s[1..3] == Little(Twos(v, 2), 2);
      LittleRoundTrip(Twos(v, 2), 2);
    } else if FitsInt32(v) {
      assert s[1..5] == Little(Twos(v, 4), 4);
      LittleRoundTrip(Twos(v, 4), 4);
    } else {
      assert s[1..9] == Little(Twos(v, 8), 8);
      LittleRoundTrip(Twos(v, 8), 8);
    }
  }

  lemma IntXPrefix(a: seq<byte>, v: int32, tail: seq<byte>)
    requires a <= IntX(v) + tail
    ensures |a| >= IntXByteCount(v) ==> TakeIntX(a) == Took(v, IntXByteCount(v))
    ensures |a| < IntXByteCount(v) ==> TakeIntX(a) == Short
  {
    if |a| >= IntXByteCount(v) {
      var rest := a[IntXByteCount(v)..];
      assert a == IntX(v) + rest by {
        assert a[..IntXByteCount(v)] == (IntX(v) + tail)[..IntXByteCount(v)] == IntX(v);
      }
      IntXRoundTrip(v, rest);
    } else if a != [] {
      assert a[0] == IntX(v)[0];
    }
  }

  lemma IntXPrefixFree(a: int32, b: int32)
    requires IntX(a) <= IntX(b)
    ensures a == b
  {
    var tail := IntX(b)[|IntX(a)|..];
    assert IntX(b) == IntX(a) + tail;
    IntXRoundTrip(a, tail);
    IntXRoundTrip(b, []);
    assert IntX(b) + [] == IntX(b);
  }

  lemma IntX2PrefixFree(a: int64, b: int64)
    requires IntX2(a) <= IntX2(b)
    ensures a == b
  {
    var tail := IntX2(b)[|IntX2(a)|..];
    assert IntX2(b) == IntX2(a) + tail;
    IntX2RoundTrip(a, tail);
    IntX2RoundTrip(b, []);
    assert IntX2(b) + [] == IntX2(b);
  }

  // ---------------------------------------------------------------- the encoders of the asynchronous writer

  /** static_cast to an integer of that many bytes. */
  function Cast(v: int, width: nat): (n: nat)
    ensures n < Pow256(width)
  {
    v % Pow256(width)
  }

  /** The marker, and behind it the number, cast and copied with memcpy. */
  function Marked(marker: byte, v: int, width: nat): (b: seq<byte>) { [marker] + Little(Cast(v, width), width) }

  /** write_uint_x */
  function AsyncUintX(n: uint32): seq<byte>
  {
    if n <= 252 then Little(Cast(n, 1), 1)
    else if n <= UINT16_MAX then Marked(253, n, 2)
    else Marked(254, n, 4)
  }

  /** write_uint_x2, which decides all widths itself. */
  function AsyncUintX2(n: uint64): seq<byte>
  {
    if n <= 252 then Little(Cast(n, 1), 1)
    else if n <= UINT16_MAX then Marked(253, n, 2)
    else if n <= UINT32_MAX then Marked(254, n, 4)
    else Marked(255, n, 8)
  }

  /** write_int_x */
  function AsyncIntX(v: int32): seq<byte>
  {
    if FitsInt8X(v) then Little(Cast(v, 1), 1)
    else if FitsInt16(v) then Marked(125, v, 2)
    else Marked(126, v, 4)
  }

  /** write_int_x2 */
  function AsyncIntX2(v: int64): seq<byte>
  {
    if FitsInt8X(v) then Little(Cast(v, 1), 1)
    else if FitsInt16(v) then Marked(125, v, 2)
    else if FitsInt32(v) then Marked(126, v, 4)
    else Marked(127, v, 8)
  }

  lemma CastIsTwos(v: int, width: nat)
    requires 0 <= v + Pow256(width) < 2 * Pow256(width)
    ensures Cast(v, width) == Twos(v, width)
  {
    Remainder(v, Pow256(width));
  }

  lemma Remainder(v: int, p: nat)
    requires 0 <= v + p < 2 * p
    ensures v % p == if v < 0 then v + p else v
  {
    if v < 0 { assert (v + p) % p == v + p && v == (v + p) - p; }
  }

  /** Both writers emit the same bytes for every number. */
  lemma AsyncUintXAgrees(n: uint32)
    ensures AsyncUintX(n) == UintX(n)
  {
    Widths();
    CastIsTwos(n, if n <= 252 then 1 else if n <= UINT16_MAX then 2 else 4);
    assert n <= 252 ==> Little(n, 1) == [n];
  }

  lemma AsyncUintX2Agrees(n: uint64)
    ensures AsyncUintX2(n) == UintX2(n)
  {
    Widths();
    CastIsTwos(n, if n <= 252 then 1 else if n <= UINT16_MAX then 2 else if n <= UINT32_MAX then 4 else 8);
    assert n <= 252 ==> Little(n, 1) == [n];
  }

  lemma AsyncIntXAgrees(v: int32)
    ensures AsyncIntX(v) == IntX(v)
  {
    Widths();
    CastIsTwos(v, if FitsInt8X(v) then 1 else if FitsInt16(v) then 2 else 4);
  }

  lemma AsyncIntX2Agrees(v: int64)
    ensures AsyncIntX2(v) == IntX2(v)
  {
    Widths();
    CastIsTwos(v, if FitsInt8X(v) then 1 else if FitsInt16(v) then 2 else if FitsInt32(v) then 4 else 8);
  }

  // ---------------------------------------------------------------- self-including size

  /** GetSizePlusUintX: the size of a block that starts with its own size as a UintX. */
  function SizePlusUintX(s: nat): Result<nat>
  {
    if s <= 251 then Ok(s + 1)
    else if s <= UINT16_MAX - 3 then Ok(s + 3)
    else if s > UINT32_MAX - 5 then Err(BufferLimitViolation)
    else Ok(s + 5)
  }

  /** The result counts its own prefix, nothing smaller does, and it fails only when the
    * block cannot be described by 32 bits with a five-byte prefix. */
  lemma SizePlusUintXIsLeast(s: nat)
    ensures SizePlusUintX(s).Err? <==> s > UINT32_MAX - 5
    ensures SizePlusUintX(s).Ok? ==>
              var t := SizePlusUintX(s).value;
              0 < t <= UINT32_MAX && t == s + UintXByteCount(t)
              && forall u: nat | u < t :: u != s + UintXByteCount(u)
  {
  }
}
