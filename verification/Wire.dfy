/** Packet headers, section framing and their decoders. */
module Wire {
  import opened Core
  import opened Bits
  import opened Bitstream
  import opened Varints

  const MAGIC: u32 := 0x5344_4543
  const VERSION: u16 := 2
  const HEADER_SIZE: nat := 28

  datatype WireLimits = WireLimits(maxPacketBytes: nat, maxSections: nat, maxSectionLen: nat)

  // ---- Section framing ----

  datatype SectionTag =
    | EntityCreate
    | EntityDestroy
    | EntityUpdate
    | EntityUpdateSparse
    | EntityUpdateSparsePacked
    | SessionInit

  function RawTag(t: SectionTag): byte {
    match t
    case EntityCreate => 1
    case EntityDestroy => 2
    case EntityUpdate => 3
    case EntityUpdateSparse => 4
    case EntityUpdateSparsePacked => 5
    case SessionInit => 6
  }

  function ParseTag(b: byte): Option<SectionTag> {
    match b
    case 1 => Some(EntityCreate)
    case 2 => Some(EntityDestroy)
    case 3 => Some(EntityUpdate)
    case 4 => Some(EntityUpdateSparse)
    case 5 => Some(EntityUpdateSparsePacked)
    case 6 => Some(SessionInit)
    case _ => None
  }

  datatype Section = Section(tag: SectionTag, body: seq<byte>)

  function SectionBytes(s: Section): seq<byte> {
    [RawTag(s.tag)] + VarBytes(|s.body|) + s.body
  }

  function SectionsBytes(ss: seq<Section>): seq<byte> {
    if ss == [] then [] else SectionBytes(ss[0]) + SectionsBytes(ss[1..])
  }

  function GetSection(payload: seq<byte>, off: nat, limits: WireLimits): (r: Option<(Section, nat)>)
    requires off < |payload|
    ensures r.Some? ==> off < r.value.1 <= |payload|
  {
    var (len, start) :- VarAt(payload, off + 1);
    if len > limits.maxSectionLen || start + len > |payload| then None
    else
      var tag :- ParseTag(payload[off]);
      Some((Section(tag, payload[start..start + len]), start + len))
  }

  /** The sections from `off` on, when `k` have been decoded before. */
  function GetSections(payload: seq<byte>, off: nat, limits: WireLimits, k: nat): Option<seq<Section>>
    decreases |payload| - off
  {
    if off >= |payload| then Some([])
    else if k >= limits.maxSections then None
    else
      var (s, next) :- GetSection(payload, off, limits);
      var rest :- GetSections(payload, next, limits, k + 1);
      Some([s] + rest)
  }

  method DecodeSection(payload: seq<byte>, off: nat, limits: WireLimits) returns (r: Option<(Section, nat)>)
    requires off < |payload|
    ensures r == GetSection(payload, off, limits)
  {
    var tag := payload[off];
    var lenAndStart :- ReadVarU32Packet(payload, off + 1);
    var (len, start) := lenAndStart;
    if len > limits.maxSectionLen {
      return None;
    }
    if start + len > |payload| {
      return None;
    }
    var t :- ParseTag(tag);
    return Some((Section(t, payload[start..start + len]), start + len));
  }

  method DecodeSections(payload: seq<byte>, limits: WireLimits) returns (r: Option<seq<Section>>)
    ensures r == GetSections(payload, 0, limits, 0)
  {
    hide GetSection;
    var offset: nat := 0;
    var sections := [];
    OntoNothing(GetSections(payload, 0, limits, 0));
    while offset < |payload|
      invariant offset <= |payload|
      invariant GetSections(payload, 0, limits, 0) == Onto(sections, GetSections(payload, offset, limits, |sections|))
      decreases |payload| - offset
    {
      if |sections| >= limits.maxSections {
        return None;
      }
      var sectionAndNext :- DecodeSection(payload, offset, limits);
      var (s, next) := sectionAndNext;
      OntoStep(sections, s, GetSections(payload, next, limits, |sections| + 1));
      sections := sections + [s];
      offset := next;
    }
    assert sections + [] == sections;
    return Some(sections);
  }

  /** Sections already decoded in front of the sections still to be decoded. */
  function Onto(done: seq<Section>, rest: Option<seq<Section>>): Option<seq<Section>> {
    match rest
    case None => None
    case Some(ss) => Some(done + ss)
  }

  lemma OntoNothing(rest: Option<seq<Section>>)
    ensures Onto([], rest) == rest
  {
    if rest.Some? {
      assert [] + rest.value == rest.value;
    }
  }

  lemma OntoStep(done: seq<Section>, s: Section, rest: Option<seq<Section>>)
    ensures Onto(done, Onto([s], rest)) == Onto(done + [s], rest)
  {
    if rest.Some? {
      assert done + ([s] + rest.value) == done + [s] + rest.value;
    }
  }

  /** What the wire limits allow of sections that follow `k` others. */
  predicate WithinLimits(ss: seq<Section>, limits: WireLimits, k: nat)
    decreases |ss|
  {
    ss == [] || (k < limits.maxSections && |ss[0].body| <= limits.maxSectionLen && WithinLimits(ss[1..], limits, k + 1))
  }

  predicate LengthsFit(ss: seq<Section>) {
    ss == [] || (|ss[0].body| < 0x1_0000_0000 && LengthsFit(ss[1..]))
  }

  lemma {:induction false} SectionBack(payload: seq<byte>, off: nat, s: Section, rest: seq<byte>, limits: WireLimits)
    requires off <= |payload| && payload[off..] == SectionBytes(s) + rest && |s.body| < 0x1_0000_0000
    ensures off < |payload| && off + |SectionBytes(s)| <= |payload|
    ensures payload[off + |SectionBytes(s)|..] == rest
    ensures GetSection(payload, off, limits)
         == if |s.body| <= limits.maxSectionLen then Some((s, off + |SectionBytes(s)|)) else None
  {
    hide VarBytes, VarAt;
    var lenBytes := VarBytes(|s.body|);
    FourParts(payload, off, [RawTag(s.tag)], lenBytes, s.body, rest);
    VarAtBack(payload, off + 1, |s.body|);
  }

  /** The pieces of a buffer that holds four byte strings one after the other from `off` on. */
  lemma FourParts(buf: seq<byte>, off: nat, a: seq<byte>, b: seq<byte>, c: seq<byte>, d: seq<byte>)
    requires off <= |buf| && buf[off..] == a + b + c + d
    ensures var (i, j, k) := (off + |a|, off + |a| + |b|, off + |a| + |b| + |c|);
            k <= |buf| && buf[off..i] == a && buf[i..j] == b && buf[j..k] == c && buf[k..] == d
  {
    var (i, j, k) := (off + |a|, off + |a| + |b|, off + |a| + |b| + |c|);
    assert buf[off..i] == buf[off..][..|a|];
    assert buf[i..j] == buf[off..][|a|..|a| + |b|];
    assert buf[j..k] == buf[off..][|a| + |b|..|a| + |b| + |c|];
    assert buf[k..] == buf[off..][|a| + |b| + |c|..];
  }

  /** A concatenation of framed sections is decoded exactly when it is within the limits, and then to those sections. */
  lemma {:induction false} SectionsBack(payload: seq<byte>, off: nat, ss: seq<Section>, limits: WireLimits, k: nat)
    requires off <= |payload| && payload[off..] == SectionsBytes(ss) && LengthsFit(ss)
    ensures GetSections(payload, off, limits, k) == if WithinLimits(ss, limits, k) then Some(ss) else None
    decreases |ss|
  {
    hide SectionBytes, GetSection;
    if ss == [] {
      assert off == |payload|;
    } else {
      SectionBack(payload, off, ss[0], SectionsBytes(ss[1..]), limits);
      SectionsBack(payload, off + |SectionBytes(ss[0])|, ss[1..], limits, k + 1);
      assert [ss[0]] + ss[1..] == ss;
    }
  }

  /**
   Any accepted payload is exactly partitioned: strictly growing offsets from the start to the
   end, each section a tag byte, a length of one to five bytes, and its body up to the next offset.
   */
  lemma {:induction false} AcceptedIsPartitioned(payload: seq<byte>, off: nat, limits: WireLimits,
                                                 k: nat) returns (starts: seq<nat>)
    requires off <= |payload| && GetSections(payload, off, limits, k).Some?
    ensures var ss := GetSections(payload, off, limits, k).value;
            && |starts| == |ss| + 1
            && starts[0] == off && starts[|ss|] == |payload|
            && forall i :: 0 <= i < |ss| ==> Framed(payload, starts[i], starts[i + 1], ss[i])
    decreases |payload| - off
  {
    hide Framed, GetSection;
    if off == |payload| {
      starts := [off];
    } else {
      var (s, next) := GetSection(payload, off, limits).value;
      GetSectionFramed(payload, off, limits);
      var rest := AcceptedIsPartitioned(payload, next, limits, k + 1);
      starts := [off] + rest;
      var ss := GetSections(payload, off, limits, k).value;
      forall i | 0 <= i < |ss|
        ensures Framed(payload, starts[i], starts[i + 1], ss[i])
      {
        if i > 0 {
          assert starts[i] == rest[i - 1] && starts[i + 1] == rest[i] && ss[i] == ss[1..][i - 1];
        }
      }
    }
  }

  /** `payload[lo..hi]` is a tag byte, one to five length bytes, and the body. */
  predicate Framed(payload: seq<byte>, lo: nat, hi: nat, s: Section) {
    && lo + 2 + |s.body| <= hi <= lo + 6 + |s.body|
    && hi <= |payload|
    && payload[lo] == RawTag(s.tag)
    && payload[hi - |s.body|..hi] == s.body
    && VarAt(payload, lo + 1) == Some((|s.body|, hi - |s.body|))
  }

  lemma GetSectionFramed(payload: seq<byte>, off: nat, limits: WireLimits)
    requires off < |payload| && GetSection(payload, off, limits).Some?
    ensures var (s, next) := GetSection(payload, off, limits).value;
            Framed(payload, off, next, s)
  {
  }

  /** Frames one section in place; a failure leaves the buffer alone. */
  method EncodeSection(s: Section, out: array<byte>, lo: nat, hi: nat) returns (r: Option<nat>)
    requires lo <= hi <= out.Length
    modifies out
    ensures r == if |s.body| < 0x1_0000_0000 && lo + |SectionBytes(s)| <= hi then Some(|SectionBytes(s)|) else None
    ensures out[..] == if r.Some? then Splice(old(out[..]), lo, SectionBytes(s)) else old(out[..])
  {
    hide VarBytes, Splice;
    if |s.body| >= 0x1_0000_0000 {
      return None;
    }
    var lenBytes := VarU32Len(|s.body|);
    var needed := 1 + lenBytes + |s.body|;
    if hi - lo < needed {
      return None;
    }
    ghost var before := out[..];
    ghost var head := [RawTag(s.tag)] + VarBytes(|s.body|);
    WriteSectionHead(s.tag, |s.body|, out, lo);
    CopyBytes(s.body, out, lo + 1 + lenBytes);
    SpliceTwice(before, lo, head, s.body);
    return Some(needed);
  }

  /** Writes a tag byte and a length. */
  method WriteSectionHead(tag: SectionTag, len: u32, out: array<byte>, lo: nat)
    requires lo + 1 + |VarBytes(len)| <= out.Length
    modifies out
    ensures out[..] == Splice(old(out[..]), lo, [RawTag(tag)] + VarBytes(len))
  {
    hide VarBytes, Splice;
    ghost var before := out[..];
    SetByte(out, lo, RawTag(tag));
    var n := WriteVarU32(len, out, lo + 1);
    SpliceTwice(before, lo, [RawTag(tag)], VarBytes(len));
  }

  method CopyBytes(bs: seq<byte>, out: array<byte>, at: nat)
    requires at + |bs| <= out.Length
    modifies out
    ensures out[..] == Splice(old(out[..]), at, bs)
  {
    forall i | 0 <= i < |bs| {
      out[at + i] := bs[i];
    }
  }

  // ---- Packet header ----

  const FULL_SNAPSHOT: u16 := 1
  const DELTA_SNAPSHOT: u16 := 2
  const SESSION_INIT: u16 := 4

  predicate IsFull(flags: u16) {
    flags % 2 == 1
  }

  predicate IsDelta(flags: u16) {
    flags / 2 % 2 == 1
  }

  predicate IsInit(flags: u16) {
    flags / 4 % 2 == 1
  }

  /** Session init alone, or exactly one of full and delta, and no reserved bit. */
  predicate ValidFlags(flags: u16) {
    flags < 8 && if IsInit(flags) then !IsFull(flags) && !IsDelta(flags) else IsFull(flags) != IsDelta(flags)
  }

  datatype PacketHeader = PacketHeader(version: u16, flags: u16, schemaHash: u64, tick: u32, baselineTick: u32,
                                       payloadLen: u32)

  datatype Packet = Packet(header: PacketHeader, sections: seq<Section>)

  function HeaderBytes(h: PacketHeader): (bs: seq<byte>)
    ensures |bs| == HEADER_SIZE
  {
    LittleEndian(MAGIC, 4) + LittleEndian(h.version, 2) + LittleEndian(h.flags, 2) + LittleEndian(h.schemaHash, 8)
    + LittleEndian(h.tick, 4) + LittleEndian(h.baselineTick, 4) + LittleEndian(h.payloadLen, 4)
  }

  /** The word of `n` bytes at offset `at`. */
  function WordAt(bs: seq<byte>, at: nat, n: nat): (v: nat)
    requires at + n <= |bs|
    ensures v < Pow256(n)
  {
    FromLittleEndianBound(bs[at..at + n]);
    FromLittleEndian(bs[at..at + n])
  }

  function WordU16(bs: seq<byte>, at: nat): u16
    requires at + 2 <= |bs|
  {
    assert Pow256(2) == 0x1_0000;
    WordAt(bs, at, 2)
  }

  function WordU32(bs: seq<byte>, at: nat): u32
    requires at + 4 <= |bs|
  {
    assert Pow256(4) == 0x1_0000_0000;
    WordAt(bs, at, 4)
  }

  function WordU64(bs: seq<byte>, at: nat): u64
    requires at + 8 <= |bs|
  {
    assert Pow256(8) == 0x1_0000_0000_0000_0000;
    WordAt(bs, at, 8)
  }

  /** The header fields of a packet, whatever they are. */
  function ReadHeader(bs: seq<byte>): PacketHeader
    requires |bs| >= HEADER_SIZE
  {
    PacketHeader(WordU16(bs, 4), WordU16(bs, 6), WordU64(bs, 8), WordU32(bs, 16), WordU32(bs, 20), WordU32(bs, 24))
  }

  predicate HeaderOk(h: PacketHeader) {
    && h.version == VERSION
    && ValidFlags(h.flags)
    && (!IsInit(h.flags) && IsFull(h.flags) ==> h.baselineTick == 0)
    && (!IsInit(h.flags) && IsDelta(h.flags) ==> h.baselineTick != 0)
  }

  function GetPacket(bs: seq<byte>, limits: WireLimits): Option<Packet> {
    if |bs| < HEADER_SIZE || |bs| > limits.maxPacketBytes || WordU32(bs, 0) != MAGIC then None
    else
      var h := ReadHeader(bs);
      if !HeaderOk(h) || h.payloadLen != |bs| - HEADER_SIZE then None
      else
        var ss :- GetSections(bs[HEADER_SIZE..], 0, limits, 0);
        Some(Packet(h, ss))
  }

  method DecodePacket(buf: seq<byte>, limits: WireLimits) returns (r: Option<Packet>)
    ensures r == GetPacket(buf, limits)
  {
    hide WordU16, WordU32, WordU64, GetSections, ValidFlags;
    if |buf| < HEADER_SIZE {
      return None;
    }
    if |buf| > limits.maxPacketBytes {
      return None;
    }
    if WordU32(buf, 0) != MAGIC {
      return None;
    }
    var version := WordU16(buf, 4);
    if version != VERSION {
      return None;
    }
    var flags := WordU16(buf, 6);
    if !ValidFlags(flags) {
      return None;
    }
    var schemaHash := WordU64(buf, 8);
    var tick := WordU32(buf, 16);
    var baselineTick := WordU32(buf, 20);
    var payloadLen := WordU32(buf, 24);
    if !IsInit(flags) && IsFull(flags) && baselineTick != 0 {
      return None;
    }
    if !IsInit(flags) && IsDelta(flags) && baselineTick == 0 {
      return None;
    }
    if payloadLen != |buf| - HEADER_SIZE {
      return None;
    }
    var sections :- DecodeSections(buf[HEADER_SIZE..], limits);
    return Some(Packet(PacketHeader(version, flags, schemaHash, tick, baselineTick, payloadLen), sections));
  }

  /** Writes the seven header fields one after the other. */
  method EncodeHeader(h: PacketHeader, out: array<byte>, lo: nat)
    requires lo + HEADER_SIZE <= out.Length
    modifies out
    ensures out[..] == Splice(old(out[..]), lo, HeaderBytes(h))
  {
    hide Splice, LittleEndian;
    ghost var before := out[..];
    var magic: seq<byte> := LittleEndian(MAGIC, 4);
    CopyBytes(magic, out, lo);
    CopyBytes(LittleEndian(h.version, 2), out, lo + 4);
    SpliceTwice(before, lo, magic, LittleEndian(h.version, 2));
    ghost var a := magic + LittleEndian(h.version, 2);
    CopyBytes(LittleEndian(h.flags, 2), out, lo + 6);
    SpliceTwice(before, lo, a, LittleEndian(h.flags, 2));
    ghost var b := a + LittleEndian(h.flags, 2);
    CopyBytes(LittleEndian(h.schemaHash, 8), out, lo + 8);
    SpliceTwice(before, lo, b, LittleEndian(h.schemaHash, 8));
    ghost var c := b + LittleEndian(h.schemaHash, 8);
    CopyBytes(LittleEndian(h.tick, 4), out, lo + 16);
    SpliceTwice(before, lo, c, LittleEndian(h.tick, 4));
    ghost var d := c + LittleEndian(h.tick, 4);
    CopyBytes(LittleEndian(h.baselineTick, 4), out, lo + 20);
    SpliceTwice(before, lo, d, LittleEndian(h.baselineTick, 4));
    ghost var e := d + LittleEndian(h.baselineTick, 4);
    CopyBytes(LittleEndian(h.payloadLen, 4), out, lo + 24);
    SpliceTwice(before, lo, e, LittleEndian(h.payloadLen, 4));
  }

  lemma WordBackAt(bs: seq<byte>, at: nat, v: nat, n: nat, rest: seq<byte>)
    requires at <= |bs| && bs[at..] == LittleEndian(v, n) + rest && v < Pow256(n)
    ensures at + n <= |bs| && WordAt(bs, at, n) == v && bs[at + n..] == rest
  {
    assert bs[at..at + n] == bs[at..][..n] == LittleEndian(v, n);
    assert bs[at + n..] == bs[at..][n..];
    FromToLittleEndian(v, n);
  }

  /** A header is read back as written. */
  lemma HeaderBack(h: PacketHeader, payload: seq<byte>)
    ensures var bs := HeaderBytes(h) + payload;
            WordU32(bs, 0) == MAGIC && ReadHeader(bs) == h && bs[HEADER_SIZE..] == payload
  {
    hide LittleEndian, WordAt;
    var bs := HeaderBytes(h) + payload;
    Pow256Values();
    var r6 := LittleEndian(h.payloadLen, 4) + payload;
    var r5 := LittleEndian(h.baselineTick, 4) + r6;
    var r4 := LittleEndian(h.tick, 4) + r5;
    var r3 := LittleEndian(h.schemaHash, 8) + r4;
    var r2 := LittleEndian(h.flags, 2) + r3;
    var r1 := LittleEndian(h.version, 2) + r2;
    assert bs == LittleEndian(MAGIC, 4) + r1;
    assert bs[0..] == bs;
    WordBackAt(bs, 0, MAGIC, 4, r1);
    WordBackAt(bs, 4, h.version, 2, r2);
    WordBackAt(bs, 6, h.flags, 2, r3);
    WordBackAt(bs, 8, h.schemaHash, 8, r4);
    WordBackAt(bs, 16, h.tick, 4, r5);
    WordBackAt(bs, 20, h.baselineTick, 4, r6);
    WordBackAt(bs, 24, h.payloadLen, 4, payload);
  }

  lemma Pow256Values()
    ensures Pow256(2) == 0x1_0000 && Pow256(4) == 0x1_0000_0000 && Pow256(8) == 0x1_0000_0000_0000_0000
  {
  }

  /**
   A packet made of a valid header and framed sections decodes exactly when its length fields
   are true and it is within the limits, and then to that header and those sections.
   */
  lemma {:induction false} PacketBack(h: PacketHeader, ss: seq<Section>, limits: WireLimits)
    requires HeaderOk(h) && LengthsFit(ss)
    ensures var bs := HeaderBytes(h) + SectionsBytes(ss);
            GetPacket(bs, limits) ==
            if |bs| <= limits.maxPacketBytes && h.payloadLen == |SectionsBytes(ss)| && WithinLimits(ss, limits, 0)
            then Some(Packet(h, ss)) else None
  {
    hide HeaderBytes, ReadHeader, WordU32, GetSections, HeaderOk;
    var payload := SectionsBytes(ss);
    HeaderBack(h, payload);
    assert payload[0..] == payload;
    SectionsBack(payload, 0, ss, limits, 0);
  }
}
