/** The bytes of headers and sections at the offsets where they stand, and the constants among them. */
module WireBytes {
  import opened Core
  import opened Bits
  import opened Bitstream
  import opened Numerals
  import opened Varints
  import opened Wire
  import opened Sections
  import opened SessionHeaders
  import opened Sessions

  // ---- Packet headers ----

  lemma Slices(a: seq<byte>, b: seq<byte>, c: seq<byte>, d: seq<byte>, e: seq<byte>, f: seq<byte>, g: seq<byte>)
    requires |a| == 4 && |b| == 2 && |c| == 2 && |d| == 8 && |e| == 4 && |f| == 4 && |g| == 4
    ensures var all := a + b + c + d + e + f + g;
            && |all| == 28 && all[0..4] == a && all[4..6] == b && all[6..8] == c && all[8..16] == d
            && all[16..20] == e && all[20..24] == f && all[24..28] == g
  {
  }

  lemma Magic()
    ensures LittleEndian(0x5344_4543, 4) == [0x43, 0x45, 0x44, 0x53]
  {
    assert LittleEndian(0x53, 1) == [0x53] by { assert LittleEndian(0, 0) == []; }
    assert LittleEndian(0x5344, 2) == [0x44, 0x53];
    assert LittleEndian(0x53_4445, 3) == [0x45, 0x44, 0x53];
  }

  /** A header is 28 bytes: four of magic, then version, flags, schema hash, tick, baseline tick and payload length. */
  lemma HeaderWritten(h: PacketHeader)
    ensures var bs := HeaderBytes(h);
            && |bs| == 28
            && bs[0..4] == [0x43, 0x45, 0x44, 0x53]
            && bs[4..6] == LittleEndian(h.version, 2)
            && bs[6..8] == LittleEndian(h.flags, 2)
            && bs[8..16] == LittleEndian(h.schemaHash, 8)
            && bs[16..20] == LittleEndian(h.tick, 4)
            && bs[20..24] == LittleEndian(h.baselineTick, 4)
            && bs[24..28] == LittleEndian(h.payloadLen, 4)
  {
    hide LittleEndian;
    Magic();
    Slices(LittleEndian(MAGIC, 4), LittleEndian(h.version, 2), LittleEndian(h.flags, 2), LittleEndian(h.schemaHash, 8),
           LittleEndian(h.tick, 4), LittleEndian(h.baselineTick, 4), LittleEndian(h.payloadLen, 4));
  }

  /** There are three kinds of packets, one bit each: full, delta and session init. */
  lemma FlagsIff(flags: u16)
    ensures ValidFlags(flags) <==> flags in {1, 2, 4}
    ensures ValidFlags(flags) ==>
              (IsFull(flags) <==> flags == 1) && (IsDelta(flags) <==> flags == 2) && (IsInit(flags) <==> flags == 4)
  {
  }

  function At(bs: seq<byte>, i: nat): nat
    requires i < |bs|
  {
    bs[i]
  }

  function Word4(bs: seq<byte>, at: nat): nat
    requires at + 4 <= |bs|
  {
    At(bs, at) + 0x100 * At(bs, at + 1) + 0x1_0000 * At(bs, at + 2) + 0x100_0000 * At(bs, at + 3)
  }

  lemma FromLittleEndianStep(bs: seq<byte>)
    requires bs != []
    ensures FromLittleEndian(bs) == At(bs, 0) + 256 * FromLittleEndian(bs[1..])
  {
  }

  lemma Word4Is(bs: seq<byte>, at: nat)
    requires at + 4 <= |bs|
    ensures WordU32(bs, at) == Word4(bs, at)
  {
    var w := bs[at..at + 4];
    assert w[1..][1..] == bs[at + 2..at + 4] && w[1..] == bs[at + 1..at + 4] && w[1..][1..][1..] == [bs[at + 3]];
    FromLittleEndianStep(w);
    FromLittleEndianStep(w[1..]);
    FromLittleEndianStep(w[1..][1..]);
    FromLittleEndianStep(w[1..][1..][1..]);
    assert FromLittleEndian([]) == 0;
  }

  lemma Word2Is(bs: seq<byte>, at: nat)
    requires at + 2 <= |bs|
    ensures WordU16(bs, at) == At(bs, at) + 0x100 * At(bs, at + 1)
  {
    var w := bs[at..at + 2];
    assert w[1..] == [bs[at + 1]];
    FromLittleEndianStep(w);
    FromLittleEndianStep(w[1..]);
    assert FromLittleEndian([]) == 0;
  }

  /**
   Which buffers are packets: no shorter than a header and no longer than the limit, with the magic
   bytes, version 2, one of the three kinds, a baseline tick of zero in full packets and of
   something else in deltas, the true payload length, and a payload of sections.
   */
  lemma PacketIff(bs: seq<byte>, limits: WireLimits)
    ensures GetPacket(bs, limits).Some? <==>
            && 28 <= |bs| <= limits.maxPacketBytes
            && Word4(bs, 0) == 0x5344_4543
            && bs[4] == 2 && bs[5] == 0
            && bs[6] in [1, 2, 4] && bs[7] == 0
            && (bs[6] == 1 ==> Word4(bs, 20) == 0)
            && (bs[6] == 2 ==> Word4(bs, 20) != 0)
            && Word4(bs, 24) == |bs| - 28
            && GetSections(bs[28..], 0, limits, 0).Some?
  {
    hide GetSections, LittleEndian, FromLittleEndian, WordAt;
    if |bs| >= 28 {
      Word4Is(bs, 0);
      Word2Is(bs, 4);
      Word2Is(bs, 6);
      Word4Is(bs, 20);
      Word4Is(bs, 24);
      hide WordU16, WordU32;
      FlagsIff(ReadHeader(bs).flags);
    }
  }

  // ---- Sections ----

  /** Tags go from one to six in the order of the format, and nothing else is a tag. */
  lemma TagTable(b: byte)
    ensures RawTag(EntityCreate) == 1 && RawTag(EntityDestroy) == 2 && RawTag(EntityUpdate) == 3
    ensures RawTag(EntityUpdateSparse) == 4 && RawTag(EntityUpdateSparsePacked) == 5 && RawTag(SessionInit) == 6
    ensures forall t :: ParseTag(b) == Some(t) <==> RawTag(t) == b
    ensures ParseTag(b).None? <==> b == 0 || b > 6
  {
  }

  lemma VarintMax(v: u32)
    ensures |VarBytes(v)| <= 5
    ensures |VarBytes(0xFFFF_FFFF)| == 5
  {
    VarintLength(v, 5);
    VarintLength(0xFFFF_FFFF, 5);
    VarintLength(0xFFFF_FFFF, 4);
    Pow2Add(32, 3);
    Pow2Values();
    Pow2Mono(28, 32);
    assert Pow2(28) <= 0xFFFF_FFFF;
  }

  /**
   A section is a tag, the length of the body as a varint, and the body; the bytes reserved for the
   head are the most it takes.
   */
  lemma SectionWritten(s: Section)
    requires |s.body| < 0x1_0000_0000
    ensures var n := |VarBytes(|s.body|)|;
            && |SectionBytes(s)| == 1 + n + |s.body| <= RESERVED + |s.body|
            && SectionBytes(s)[0] == RawTag(s.tag)
            && SectionBytes(s)[1..1 + n] == VarBytes(|s.body|)
            && SectionBytes(s)[1 + n..] == s.body
    ensures RESERVED == 6 == 1 + |VarBytes(0xFFFF_FFFF)|
  {
    hide VarBytes;
    VarintMax(|s.body|);
  }

  // ---- Session headers ----

  /** A compact header is a byte of flags and three varints; the room for the longest is 16 bytes. */
  lemma SessionHeaderWritten(flags: byte, tickDelta: u32, baselineDelta: u32, payloadLen: u32)
    ensures var a, b, c := VarBytes(tickDelta), VarBytes(baselineDelta), VarBytes(payloadLen);
            var bs := SessionHeaderBytes(flags, tickDelta, baselineDelta, payloadLen);
            && bs[0] == flags && bs[1..] == a + b + c
            && |bs| <= MAX_SESSION_HEADER
    ensures MAX_SESSION_HEADER == 16 == |SessionHeaderBytes(2, 0xFFFF_FFFF, 0xFFFF_FFFF, 0xFFFF_FFFF)|
  {
    hide VarBytes;
    VarintMax(tickDelta);
    VarintMax(baselineDelta);
    VarintMax(payloadLen);
  }

  /** The flags of a compact header are 1 for a full packet and 2 for a delta. */
  lemma SessionFlagsIff(flags: byte)
    ensures SessionFlagsOk(flags) <==> flags in {1, 2}
    ensures SessionFlagsOk(flags) ==> (SessionFull(flags) <==> flags == 1) && (SessionDelta(flags) <==> flags == 2)
  {
  }

  /** The ticks and lengths that three varints behind the flags stand for. */
  predicate SessionHeaderOf(flags: byte, tickDelta: u32, baselineDelta: u32, payloadLen: u32, end: nat, lastTick: u32,
                            h: SessionHeader)
  {
    && flags in {1, 2}
    && tickDelta > 0 && lastTick + tickDelta < 0x1_0000_0000 && baselineDelta <= lastTick + tickDelta
    && (flags == 1 ==> baselineDelta == 0)
    && (flags == 2 ==> baselineDelta < lastTick + tickDelta)
    && h == SessionHeader(flags, lastTick + tickDelta, lastTick + tickDelta - baselineDelta, payloadLen, end)
  }

  /**
   Which bytes are a compact header, for a receiver at `lastTick`: flags of one kind and three
   varints; ticks within 32 bits, the tick above the last one and the baseline not above the tick;
   the baseline is the tick itself in full packets, and not zero in deltas.
   */
  lemma SessionHeaderIff(buf: seq<byte>, lastTick: u32, h: SessionHeader)
    ensures GetSessionHeader(buf, lastTick) == Some(h) <==>
            && buf != [] && VarAt(buf, 1).Some?
            && VarAt(buf, VarAt(buf, 1).value.1).Some?
            && VarAt(buf, VarAt(buf, VarAt(buf, 1).value.1).value.1).Some?
            && SessionHeaderOf(buf[0], VarAt(buf, 1).value.0, VarAt(buf, VarAt(buf, 1).value.1).value.0,
                               VarAt(buf, VarAt(buf, VarAt(buf, 1).value.1).value.1).value.0,
                               VarAt(buf, VarAt(buf, VarAt(buf, 1).value.1).value.1).value.1, lastTick, h)
  {
    hide VarAt;
    if buf != [] {
      SessionFlagsIff(buf[0]);
    }
  }

  /** A session init body is the id, zero for none, as a word of eight bytes, and a one. */
  lemma InitWritten(id: Option<u64>)
    ensures InitSection(id).body == LittleEndian(if id.Some? then id.value else 0, 8) + [1]
    ensures InitSection(id).tag == SessionInit
  {
    hide BitsOf, LittleEndian, Pack;
    var word := LittleEndian(IdWord(id), 8);
    BitsOfConcat(word, [1]);
    assert [] + BitsOf(word) == BitsOf(word);
    PackBitsOf(word + [1]);
  }
}
