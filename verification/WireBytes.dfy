/** The bytes of messages, number by number and flag by flag. */
module WireBytes {
  import opened Numbers
  import opened Messages
  import opened Layout

  // ---------------------------------------------------------------- the first ten bytes

  /** Every message starts with RRAC, its size with the low byte first, and version 4. */
  lemma EncodingStarts(m: Message)
    ensures var size := m.header.messageSize;
            |Encode(m)| >= 12
            && Encode(m)[..10] == [0x52, 0x52, 0x41, 0x43,
                                   size % 256, size / 0x100 % 256, size / 0x1_0000 % 256, size / 0x100_0000, 4, 0]
  {
    hide Encode, HeaderTail, EncodeEntries, Little, MAGIC;
    StartOfHeader(m.header);
    StartBytes(m.header.messageSize);
    var start := MAGIC + (Little(m.header.messageSize, 4) + Little(VERSION, 2));
    WholeStarts(m, start);
  }

  /** b is a part, or more, of n bytes that start with RRAC, n itself with the low byte first, and
    * version 4. */
  predicate StartsMessage(b: Bytes, n: nat)
  {
    var start := [0x52, 0x52, 0x41, 0x43, n % 256, n / 0x100 % 256, n / 0x1_0000 % 256, n / 0x100_0000, 4, 0];
    forall i | 0 <= i < |start| && i < |b| :: b[i] == start[i]
  }

  lemma ConsistentStarts(m: Message, b: Bytes)
    requires Consistent(m) && b <= Encode(m)
    ensures StartsMessage(b, |Encode(m)|)
  {
    EncodingStarts(m);
    hide Encode;
    forall i | 0 <= i < 10 && i < |b| ensures b[i] == Encode(m)[..10][i] { }
  }

  lemma WholeStarts(m: Message, start: Bytes)
    requires HeaderTail(0, m.header) == start + HeaderTail(3, m.header)
    ensures |Encode(m)| >= |start| + |HeaderTail(3, m.header)| && Encode(m)[..|start|] == start
  {
    hide HeaderTail, EncodeEntries;
  }

  lemma StartBytes(size: uint32)
    ensures MAGIC + (Little(size, 4) + Little(VERSION, 2)) ==
            [0x52, 0x52, 0x41, 0x43,
             size % 256, size / 0x100 % 256, size / 0x1_0000 % 256, size / 0x100_0000, 4, 0]
  {
    FourBytes(size);
    TwoBytes(4);
    hide Little;
  }

  lemma StartOfHeader(h: MessageHeader)
    ensures HeaderTail(0, h) == MAGIC + (Little(h.messageSize, 4) + Little(VERSION, 2)) + HeaderTail(3, h)
    ensures |HeaderTail(3, h)| >= 2
  {
    hide Little, HeaderTail, UintX;
    HeaderTailStep(0, h); HeaderTailStep(1, h); HeaderTailStep(2, h); HeaderTailStep(3, h); HeaderTailStep(4, h);
    var size, version, rest := Little(h.messageSize, 4), Little(VERSION, 2), HeaderTail(3, h);
    assert MAGIC + (size + (version + rest)) == MAGIC + (size + version) + rest;
  }

  // ---------------------------------------------------------------- flags

  /** The flag of a bit is the bit of that weight in the flags byte. */
  lemma {:induction false} BitAt(bits: seq<bool>, k: nat)
    requires k < |bits|
    ensures BitsValue(bits) / Pow2(k) % 2 == 1 <==> bits[k]
  {
    if k > 0 {
      BitAt(bits[1..], k - 1);
      HalfFirst(BitsValue(bits), Pow2(k - 1));
    }
  }

  lemma HalfFirst(n: nat, p: nat)
    requires p > 0
    ensures n / 2 / p == n / (2 * p)
  {
    var m := n / 2;
    var q, r := m / p, m % p;
    assert m == q * p + r && 0 <= r < p;
    assert q * (2 * p) == 2 * (q * p);
    Quotient(n, 2 * p, q, 2 * r + n % 2);
  }

  /** The masks of the constants header. */
  lemma Masks(f: Flags)
    ensures Has(f, ROUTING_INFO) <==> FlagByte(f) / 0x01 % 2 == 1
    ensures Has(f, ENDPOINT_INFO) <==> FlagByte(f) / 0x02 % 2 == 1
    ensures Has(f, PRIORITY) <==> FlagByte(f) / 0x04 % 2 == 1
    ensures Has(f, HEADER_META_INFO) <==> FlagByte(f) / 0x10 % 2 == 1
    ensures Has(f, STRING_TABLE) <==> FlagByte(f) / 0x20 % 2 == 1
    ensures Has(f, MULTIPLE_ENTRIES) <==> FlagByte(f) / 0x40 % 2 == 1
    ensures Has(f, SERVICE_PATH_STR) <==> FlagByte(f) / 0x01 % 2 == 1
    ensures Has(f, SERVICE_PATH_CODE) <==> FlagByte(f) / 0x02 % 2 == 1
    ensures Has(f, MEMBER_NAME_STR) <==> FlagByte(f) / 0x04 % 2 == 1
    ensures Has(f, MEMBER_NAME_CODE) <==> FlagByte(f) / 0x08 % 2 == 1
    ensures Has(f, REQUEST_ID) <==> FlagByte(f) / 0x10 % 2 == 1
    ensures Has(f, ERROR) <==> FlagByte(f) / 0x20 % 2 == 1
    ensures Has(f, ENTRY_META_INFO) <==> FlagByte(f) / 0x40 % 2 == 1
    ensures Has(f, ELEMENT_NAME_STR) <==> FlagByte(f) / 0x01 % 2 == 1
    ensures Has(f, ELEMENT_NAME_CODE) <==> FlagByte(f) / 0x02 % 2 == 1
    ensures Has(f, ELEMENT_NUMBER) <==> FlagByte(f) / 0x04 % 2 == 1
    ensures Has(f, ELEMENT_TYPE_NAME_STR) <==> FlagByte(f) / 0x08 % 2 == 1
    ensures Has(f, ELEMENT_TYPE_NAME_CODE) <==> FlagByte(f) / 0x10 % 2 == 1
    ensures Has(f, ELEMENT_META_INFO) <==> FlagByte(f) / 0x20 % 2 == 1
    ensures Has(f, EXTENDED) <==> FlagByte(f) / 0x80 % 2 == 1
  {
    Powers();
    forall k | 0 <= k < 8 ensures FlagByte(f) / Pow2(k) % 2 == 1 <==> f[k] { BitAt(f, k); }
    hide FlagByte, Pow2;
  }

  lemma Powers()
    ensures Pow2(0) == 1 && Pow2(1) == 2 && Pow2(2) == 4 && Pow2(3) == 8
    ensures Pow2(4) == 16 && Pow2(5) == 32 && Pow2(6) == 64 && Pow2(7) == 128
  {
    assert Pow2(4) == 16;
  }

  // ---------------------------------------------------------------- array types

  /** The widths of the array types: the integers by pairs of signed and unsigned, complex numbers of
    * two parts, and characters and booleans. */
  lemma MemorySizes()
    ensures forall i | 0 <= i < 4 :: RRArrayElementSize(3 + 2 * i) == RRArrayElementSize(4 + 2 * i) == Pow2(i)
    ensures RRArrayElementSize(1) == Pow2(3) && RRArrayElementSize(12) == 2 * RRArrayElementSize(1)
    ensures RRArrayElementSize(2) == Pow2(2) && RRArrayElementSize(13) == 2 * RRArrayElementSize(2)
    ensures RRArrayElementSize(11) == RRArrayElementSize(14) == 1
  {
    Powers();
  }
}
