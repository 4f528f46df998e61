/** Packets of a known schema, byte for byte. */
module Golden {
  import opened Core
  import opened Bits
  import opened Bitstream
  import opened Schemas
  import opened Fields
  import opened Diffs
  import opened Layouts
  import opened UpdateLayouts
  import opened Wire
  import opened WireBytes
  import opened BodyBits
  import opened Sections
  import opened Payloads
  import opened Packets
  import opened FullSnapshots

  const ONE_BOOL := Schema([ComponentDef(1, [FieldDef(1, Bool, Always)])])
  const BOOL_UINT := Schema([ComponentDef(1, [FieldDef(1, Bool, Always), FieldDef(2, UInt(10), Always)])])

  const LIT := EntitySnapshot(1, [ComponentSnapshot(1, [VBool(true)])])
  const LIT_513 := EntitySnapshot(1, [ComponentSnapshot(1, [VBool(true), VUInt(513)])])

  // ---- Bits of bytes ----

  lemma OneByteBits(b: byte)
    ensures BitsOf([b]) == ToBits(b, 8)
  {
  }

  lemma TwoByteBits(a: byte, b: byte)
    ensures BitsOf([a, b]) == ToBits(a, 8) + ToBits(b, 8)
  {
    hide ToBits;
    OneByteBits(a);
    OneByteBits(b);
    BitsOfConcat([a], [b]);
    assert [a] + [b] == [a, b];
  }

  lemma Words1()
    ensures LittleEndian(1, 4) == [1, 0, 0, 0] && VarBytes(1) == [1]
  {
    assert LittleEndian(0, 0) == [] && LittleEndian(0, 1) == [0] && LittleEndian(0, 2) == [0, 0];
    assert LittleEndian(0, 3) == [0, 0, 0];
  }

  /** One entity: the count, and its id on the next byte. */
  lemma FirstId()
    ensures PutId(PutHead(1), 1) == BitsOf([1, 1, 0, 0, 0])
  {
    hide BitsOf, PutAlign, PutHead;
    Words1();
    HeadWritten(1);
    AlignedAlready(BitsOf([1]));
    IdWritten(BitsOf([1]), 1);
    BitsOfConcat([1], [1, 0, 0, 0]);
    assert [1] + [1, 0, 0, 0] == [1, 1, 0, 0, 0];
  }

  /** Bits up to the next byte, as that byte or those bytes. */
  lemma Closed(front: seq<byte>, tail: Bits, bytes: seq<byte>)
    requires BitsOf(bytes) == PutAlign(tail)
    ensures PutAlign(BitsOf(front) + tail) == BitsOf(front + bytes)
    ensures Pack(PutAlign(BitsOf(front) + tail)) == front + bytes
  {
    hide BitsOf, Pack;
    BitsOfConcat(front, bytes);
    assert BitsOf(front) + PutAlign(tail) == PutAlign(BitsOf(front) + tail);
    PackBitsOf(front + bytes);
  }

  // ---- Created entities ----

  lemma OneBoolBits()
    ensures PutCreateList(PutHead(1), ONE_BOOL, [LIT]) == BitsOf([1, 1, 0, 0, 0]) + [true, true, true]
  {
    hide BitsOf, PutId, PutHead;
    FirstId();
    var start := BitsOf([1, 1, 0, 0, 0]);
    var d := ONE_BOOL.components[0];
    var c := LIT.components[0];
    assert Presence(ONE_BOOL.components, LIT.components) == [true];
    assert Ones(1) == [true];
    assert d.fields[1..] == [] && ONE_BOOL.components[1..] == [] && c.fields[1..] == [] && [LIT][1..] == [];
    assert PutFull(start + [true], d, c) == start + [true] + [true] + [true];
    assert PutCreate(PutHead(1), ONE_BOOL, LIT) == start + [true] + [true] + [true];
  }

  lemma OneByteValue()
    ensures ToBits(0xE0, 8) == [true, true, true, false, false, false, false, false]
  {
    assert ToBits(0x7, 3) == [true, true, true];
    assert ToBits(0x38, 6) == [true, true, true, false, false, false];
  }

  lemma OneBoolTail()
    ensures PutAlign([true, true, true]) == BitsOf([0xE0])
  {
    hide BitsOf, ToBits;
    OneByteBits(0xE0);
    OneByteValue();
  }

  /** The full snapshot of one lit entity. */
  lemma OneBoolBytes()
    ensures CreateSection(ONE_BOOL, [LIT]) == Section(EntityCreate, [1, 1, 0, 0, 0, 0xE0])
  {
    hide PutHead, PutCreateList, Pack, BitsOf, PutAlign;
    OneBoolBits();
    OneBoolTail();
    Closed([1, 1, 0, 0, 0], [true, true, true], [0xE0]);
    assert [1, 1, 0, 0, 0] + [0xE0] == [1, 1, 0, 0, 0, 0xE0];
  }

  lemma TenBits()
    ensures ToBits(513, 10) == [true, false, false, false, false, false, false, false, false, true]
  {
    assert ToBits(1, 1) == [true];
    assert ToBits(8, 4) == [true, false, false, false];
    assert ToBits(64, 7) == ToBits(8, 4) + [false, false, false];
  }

  lemma TwoFieldBits()
    ensures PutCreateList(PutHead(1), BOOL_UINT, [LIT_513])
         == BitsOf([1, 1, 0, 0, 0]) + ([true, true, true, true] + ToBits(513, 10))
  {
    hide BitsOf, PutId, PutHead, ToBits;
    FirstId();
    var start := BitsOf([1, 1, 0, 0, 0]);
    var d := BOOL_UINT.components[0];
    var c := LIT_513.components[0];
    assert Presence(BOOL_UINT.components, LIT_513.components) == [true];
    assert Ones(2) == [true, true] by { assert Ones(1) == [true]; }
    assert BOOL_UINT.components[1..] == [] && d.fields[1..][1..] == [] && c.fields[1..] == [VUInt(513)];
    assert [LIT_513][1..] == [];
    var masked := start + [true] + [true, true];
    assert PutField(masked, Bool, VBool(true)) == masked + [true];
    assert PutField(masked + [true], UInt(10), VUInt(513)) == masked + [true] + ToBits(513, 10);
    assert d.fields[1..] == [FieldDef(2, UInt(10), Always)];
    assert PutValues(masked + [true], d.fields[1..], [VUInt(513)]) == masked + [true] + ToBits(513, 10);
    assert PutFull(start + [true], d, c) == masked + [true] + ToBits(513, 10);
    assert PutCreate(PutHead(1), BOOL_UINT, LIT_513) == masked + [true] + ToBits(513, 10);
  }

  lemma TwoByteValues()
    ensures ToBits(0xF8, 8) == [true, true, true, true, true, false, false, false]
    ensures ToBits(0x04, 8) == [false, false, false, false, false, true, false, false]
  {
    assert ToBits(0xF, 4) == [true, true, true, true];
    assert ToBits(0x1F, 5) == [true, true, true, true, true];
    assert ToBits(0, 5) == [false, false, false, false, false];
  }

  lemma TwoFieldTail()
    ensures PutAlign([true, true, true, true] + ToBits(513, 10)) == BitsOf([0xF8, 0x04])
  {
    hide BitsOf, ToBits;
    TenBits();
    TwoByteBits(0xF8, 0x04);
    TwoByteValues();
  }

  /** With a second field of ten bits, holding 513. */
  lemma TwoFieldBytes()
    ensures CreateSection(BOOL_UINT, [LIT_513]) == Section(EntityCreate, [1, 1, 0, 0, 0, 0xF8, 0x04])
  {
    hide PutHead, PutCreateList, Pack, BitsOf, PutAlign, ToBits;
    TwoFieldBits();
    TwoFieldTail();
    Closed([1, 1, 0, 0, 0], [true, true, true, true] + ToBits(513, 10), [0xF8, 0x04]);
    assert [1, 1, 0, 0, 0] + [0xF8, 0x04] == [1, 1, 0, 0, 0, 0xF8, 0x04];
  }

  // ---- Whole packets ----

  lemma {:induction false} SmallWord(v: byte, n: nat)
    requires 1 <= n
    ensures LittleEndian(v, n) == [v] + LittleEndian(0, n - 1)
  {
  }

  lemma Words()
    ensures LittleEndian(0, 3) == [0, 0, 0] && LittleEndian(0, 4) == [0, 0, 0, 0] && LittleEndian(0, 1) == [0]
  {
    assert LittleEndian(0, 2) == [0, 0] && LittleEndian(0, 1) == [0];
  }

  lemma Parts(bs: seq<byte>)
    requires |bs| == 28
    ensures bs[..8] == bs[0..4] + bs[4..6] + bs[6..8]
    ensures bs[16..28] == bs[16..20] + bs[20..24] + bs[24..28]
  {
  }

  lemma FirstHeader(hash: u64, n: byte)
    ensures HeaderBytes(FullHeader(hash, 1, n))
         == [0x43, 0x45, 0x44, 0x53, 2, 0, 1, 0] + LittleEndian(hash, 8) + [1, 0, 0, 0, 0, 0, 0, 0, n, 0, 0, 0]
  {
    var h := FullHeader(hash, 1, n);
    var bs := HeaderBytes(h);
    assert h.flags == 1 && h.version == 2 && h.payloadLen == n;
    hide LittleEndian, HeaderBytes;
    HeaderWritten(h);
    Parts(bs);
    Words();
    SmallWord(2, 2);
    SmallWord(1, 2);
    SmallWord(1, 4);
    SmallWord(n, 4);
    assert bs == bs[..8] + bs[8..16] + bs[16..28];
  }

  lemma ShortSection(s: Section)
    requires |s.body| < 128
    ensures SectionsBytes([s]) == [RawTag(s.tag), |s.body|] + s.body
  {
    assert VarBytes(|s.body|) == [|s.body|];
    assert [s][1..] == [];
  }

  /** A full packet at tick 1 of one short section: the header, and the section behind it. */
  lemma FullBytes(hash: u64, s: Section)
    requires |s.body| < 128
    ensures FullPacket(hash, 1, [s])
         == [0x43, 0x45, 0x44, 0x53, 2, 0, 1, 0] + LittleEndian(hash, 8)
            + [1, 0, 0, 0, 0, 0, 0, 0, 2 + |s.body|, 0, 0, 0] + [RawTag(s.tag), |s.body|] + s.body
  {
    hide LittleEndian, HeaderBytes, SectionsBytes;
    ShortSection(s);
    FirstHeader(hash, 2 + |s.body|);
    assert |SectionsBytes([s])| == 2 + |s.body|;
  }

  lemma NoSections(hash: u64)
    ensures FullPacket(hash, 1, []) == HeaderBytes(FullHeader(hash, 1, 0))
  {
  }

  /** The packets of the two snapshots and of an empty one, behind the same header but for hash and length. */
  lemma GoldenPackets(hash: u64)
    ensures var front := [0x43, 0x45, 0x44, 0x53, 2, 0, 1, 0] + LittleEndian(hash, 8);
            && FullPacket(hash, 1, FullSections(ONE_BOOL, [LIT]))
               == front + [1, 0, 0, 0, 0, 0, 0, 0, 8, 0, 0, 0] + [1, 6] + [1, 1, 0, 0, 0, 0xE0]
            && FullPacket(hash, 1, FullSections(BOOL_UINT, [LIT_513]))
               == front + [1, 0, 0, 0, 0, 0, 0, 0, 9, 0, 0, 0] + [1, 7] + [1, 1, 0, 0, 0, 0xF8, 0x04]
            && FullPacket(hash, 1, FullSections(ONE_BOOL, [])) == front + [1, 0, 0, 0, 0, 0, 0, 0, 0, 0, 0, 0]
  {
    hide LittleEndian, FullPacket, CreateSection, HeaderBytes;
    NoSections(hash);
    FirstHeader(hash, 0);
    OneBoolBytes();
    TwoFieldBytes();
    FullBytes(hash, CreateSection(ONE_BOOL, [LIT]));
    FullBytes(hash, CreateSection(BOOL_UINT, [LIT_513]));
  }
}
