/** Sessions: the init packet, and delta packets behind the compact header. */
module Sessions {
  import opened Core
  import opened Bits
  import opened Bitstream
  import opened BitReaders
  import opened BitWriters
  import opened Schemas
  import opened Diffs
  import opened Scratches
  import opened Layouts
  import opened Wire
  import opened Sections
  import opened Payloads
  import opened Decoders
  import opened Packets
  import opened RoundTrip
  import opened SessionHeaders

  /** What both ends of a session remember. Only one compact mode exists. */
  class SessionState {
    const schemaHash: u64
    const sessionId: Option<u64>
    var lastTick: u32

    constructor (schemaHash: u64, sessionId: Option<u64>, lastTick: u32)
      ensures this.schemaHash == schemaHash && this.sessionId == sessionId && this.lastTick == lastTick
    {
      this.schemaHash, this.sessionId, this.lastTick := schemaHash, sessionId, lastTick;
    }
  }

  const SESSION_V1: byte := 1

  // ---- Session init ----

  /** A missing session id is written as zero. */
  function IdWord(id: Option<u64>): u64 {
    if id.Some? then id.value else 0
  }

  function PutInit(id: Option<u64>): (r: Bits)
    ensures |r| == 72
  {
    PutBytes(PutBytes([], LittleEndian(IdWord(id), 8)), [SESSION_V1])
  }

  function GetInit(body: seq<byte>, limits: CodecLimits): Option<Option<u64>> {
    if |body| > limits.maxSectionBytes then None
    else
      var (id, p) :- GetU64(body, 0);
      var (mode, q) :- GetU8(body, p);
      if q != 8 * |body| || mode != SESSION_V1 then None
      else Some(if id == 0 then None else Some(id))
  }

  function InitSection(id: Option<u64>): Section {
    BodySection(SessionInit, PutInit(id))
  }

  function InitHeader(hash: u64, tick: u32, payload: nat): PacketHeader {
    PacketHeader(VERSION, SESSION_INIT, hash, tick, 0, AsU32(payload))
  }

  function InitPacket(hash: u64, tick: u32, id: Option<u64>): seq<byte> {
    var payload := SectionsBytes([InitSection(id)]);
    HeaderBytes(InitHeader(hash, tick, |payload|)) + payload
  }

  /** The header slice is taken before any check, so a shorter buffer is a caller's error. */
  method EncodeSessionInitPacket(hash: u64, tick: u32, id: Option<u64>, limits: CodecLimits, out: array<byte>,
                                 lo: nat, hi: nat)
    returns (r: Option<nat>)
    requires lo + HEADER_SIZE <= hi <= out.Length
    modifies out
    ensures PacketPlaced(old(out[..]), out[..], lo, hi, r, SectionFits(InitSection(id), hi - lo - HEADER_SIZE, limits),
                         InitPacket(hash, tick, id))
  {
    hide SectionsBytes, HeaderBytes, Splice, BitsOf, SectionBytes, LittleEndian, PutInit, PayloadPlaced;
    ghost var before := out[..];
    var start := lo + HEADER_SIZE;
    if hi - start < RESERVED {
      return None;
    }
    var w := OpenSection(out, start, hi);
    var written := WriteInit(id, w);
    OutsideKept(before, out[..], start, hi);
    if written.Fail? {
      assert out[..lo] == out[..start][..lo] == before[..lo];
      return None;
    }
    ghost var body := out[..];
    var section := CloseSection(SessionInit, out, start, hi, limits, w);
    if section.None? {
      assert out[..lo] == out[..start][..lo] == before[..start][..lo] == before[..lo];
      return None;
    }
    ghost var middle := out[..];
    OnePlaced(body, middle, start, hi, section, InitSection(id), true, limits);
    SamePlace(before, body, middle, start, hi, section.value, [InitSection(id)], limits);
    var header := InitHeader(hash, tick, section.value);
    EncodeHeader(header, out, lo);
    PlacedLength(before, middle, start, hi, section.value, [InitSection(id)], limits);
    HeaderPlaced(before, middle, out[..], lo, hi, section.value, header, [InitSection(id)], true, limits);
    return Some(HEADER_SIZE + section.value);
  }

  lemma SamePlace(before: seq<byte>, body: seq<byte>, after: seq<byte>, lo: nat, hi: nat, n: nat, ss: seq<Section>,
                  limits: CodecLimits)
    requires lo <= hi <= |before| == |body| && body[..lo] == before[..lo] && body[hi..] == before[hi..]
    requires PayloadPlaced(body, after, lo, hi, Some(n), true, ss, limits)
    ensures PayloadPlaced(before, after, lo, hi, Some(n), true, ss, limits)
  {
  }

  lemma PlacedLength(before: seq<byte>, after: seq<byte>, lo: nat, hi: nat, n: nat, ss: seq<Section>,
                     limits: CodecLimits)
    requires lo <= hi <= |before| && PayloadPlaced(before, after, lo, hi, Some(n), true, ss, limits)
    ensures n == |SectionsBytes(ss)|
  {
  }

  method WriteInit(id: Option<u64>, w: BitWriter) returns (r: Outcome)
    requires w.Valid() && w.Written() == []
    modifies w`bitPos, w.buf
    ensures w.Puts(r, true, PutInit(id))
  {
    hide BitsOf, LittleEndian;
    var _ := w.AlignToByte();
    :- w.WriteU64Aligned(IdWord(id));
    :- w.WriteU8Aligned(SESSION_V1);
    var _ := w.AlignToByte();
    return Pass;
  }

  method DecodeSessionInitBody(body: seq<byte>, limits: CodecLimits) returns (r: Option<Option<u64>>)
    ensures r == GetInit(body, limits)
  {
    hide GetU64;
    if |body| > limits.maxSectionBytes {
      return None;
    }
    var rd := new BitReader(body);
    var _ := rd.AlignToByte();
    var id :- rd.ReadU64Aligned();
    var mode :- rd.ReadU8Aligned();
    var _ := rd.AlignToByte();
    if rd.bitPos != 8 * |rd.data| {
      return None;
    }
    if mode != SESSION_V1 {
      return None;
    }
    return Some(if id == 0 then None else Some(id));
  }

  predicate InitHeaderOk(h: PacketHeader, hash: u64) {
    IsInit(h.flags) && !IsFull(h.flags) && !IsDelta(h.flags) && h.baselineTick == 0 && h.schemaHash == hash
  }

  /** Exactly one section, and it is an init section. */
  function ReadInit(hash: u64, p: Packet, limits: CodecLimits): Option<Option<u64>> {
    if !InitHeaderOk(p.header, hash) || |p.sections| != 1 || p.sections[0].tag != SessionInit then None
    else GetInit(p.sections[0].body, limits)
  }

  method DecodeSessionInitPacket(hash: u64, p: Packet, limits: CodecLimits) returns (r: Option<SessionState>)
    ensures r.Some? <==> ReadInit(hash, p, limits).Some?
    ensures r.Some? ==> fresh(r.value) && r.value.schemaHash == hash && r.value.lastTick == p.header.tick
                        && r.value.sessionId == ReadInit(hash, p, limits).value
  {
    hide GetInit;
    if !IsInit(p.header.flags) {
      return None;
    }
    if IsFull(p.header.flags) || IsDelta(p.header.flags) {
      return None;
    }
    if p.header.baselineTick != 0 {
      return None;
    }
    if p.header.schemaHash != hash {
      return None;
    }
    var init: Option<Section> := None;
    for k := 0 to |p.sections|
      invariant k <= 1 && init == if k == 0 then None else Some(p.sections[0])
      invariant init.Some? ==> init.value.tag == SessionInit
    {
      if p.sections[k].tag != SessionInit {
        return None;
      }
      if init.Some? {
        return None;
      }
      init := Some(p.sections[k]);
    }
    if init.None? {
      return None;
    }
    var id :- DecodeSessionInitBody(init.value.body, limits);
    var state := new SessionState(p.header.schemaHash, id, p.header.tick);
    return Some(state);
  }

  /** The id that comes back: an explicit id of zero is read as no id. */
  lemma InitBack(id: Option<u64>, limits: CodecLimits)
    requires 9 <= limits.maxSectionBytes
    ensures GetInit(InitSection(id).body, limits) == Some(if id == Some(0) then None else id)
  {
    hide BitsOf, LittleEndian, GetU64;
    var bits := PutInit(id);
    var body := Pack(bits);
    BitsOfPack(bits);
    U64Back(body, [], IdWord(id));
    var s := PutBytes([], LittleEndian(IdWord(id), 8));
    BytesBack(body, s, [SESSION_V1]);
    assert body[8] == body[8..9][0] == SESSION_V1;
  }

  /** A session init packet is accepted whenever the limits allow it, and starts the session at the sender's tick. */
  lemma {:induction false} SessionInitRoundTrip(hash: u64, tick: u32, id: Option<u64>, limits: CodecLimits,
                                                wire: WireLimits, room: int)
    requires SectionFits(InitSection(id), room, limits)
    ensures var p := GetPacket(InitPacket(hash, tick, id), wire);
            && (p.Some? <==> WireAllows([InitSection(id)], wire))
            && (p.Some? ==> p.value.header.tick == tick
                            && ReadInit(hash, p.value, limits) == Some(if id == Some(0) then None else id))
  {
    hide SectionsBytes, HeaderBytes, WithinLimits, GetInit, PutInit, ReadHeader, WordU32, GetSections, GetPacket;
    var s := InitSection(id);
    InitBack(id, limits);
    OneLength(s);
    PacketBack(InitHeader(hash, tick, |SectionsBytes([s])|), [s], wire);
  }

  lemma OneLength(s: Section)
    ensures |s.body| < 0x1_0000_0000 ==> LengthsFit([s])
  {
    assert [s][1..] == [];
  }

  // ---- Compact delta packets ----

  /** The bytes of a delta packet behind a compact header. */
  function SessionPacket(tickDelta: u32, baselineDelta: u32, ss: seq<Section>): seq<byte> {
    SessionHeaderBytes(SESSION_DELTA, tickDelta, baselineDelta, AsU32(|SectionsBytes(ss)|)) + SectionsBytes(ss)
  }

  /** Everything but room that encoding for a session demands. */
  predicate SessionOk(schema: Schema, lastTick: u32, tick: u32, baselineTick: u32, baseline: Snapshot,
                      current: Snapshot,
                      limits: CodecLimits) {
    lastTick < tick && baselineTick <= tick && ScanOk(schema, baselineTick, baseline, current, limits, AlwaysSparse)
  }

  /** Encodes the payload behind the longest header, then closes the gap. On success the tick becomes the last one. */
  method EncodeDeltaSnapshotForClientSession(schema: Schema, tick: u32, baselineTick: u32, baseline: Snapshot,
                                             current: Snapshot,
                                             limits: CodecLimits, scratch: CodecScratch, session: SessionState,
                                             out: array<byte>, lo: nat, hi: nat)
    returns (r: Option<nat>)
    requires lo <= hi <= out.Length && ValidSchema(schema)
    modifies out, scratch, session`lastTick
    ensures r.Some? <==> && MAX_SESSION_HEADER <= hi - lo
                         && SessionOk(schema, old(session.lastTick), tick, baselineTick, baseline, current, limits)
                         && PayloadFits(ScanSections(schema, baseline, current, AlwaysSparse),
                                        hi - lo - MAX_SESSION_HEADER, limits)
    ensures r.Some? ==> var packet := SessionPacket(tick - old(session.lastTick), tick - baselineTick,
                                                    ScanSections(schema, baseline, current, AlwaysSparse));
                        r.value == |packet| <= hi - lo && out[lo..lo + r.value] == packet
    ensures out[..lo] == old(out[..lo]) && out[hi..] == old(out[hi..])
    ensures session.lastTick == if r.Some? then tick else old(session.lastTick)
  {
    hide ScanOk, ScanSections, PayloadFits, SectionsBytes, SessionHeaderBytes, Splice, ValidSchema;
    if hi - lo < MAX_SESSION_HEADER {
      return None;
    }
    if tick <= session.lastTick {
      return None;
    }
    if baselineTick > tick {
      return None;
    }
    ghost var before := out[..];
    var start := lo + MAX_SESSION_HEADER;
    var payload := EncodeDeltaPayload(schema, baselineTick, baseline, current, limits, scratch, out, start, hi,
                                      AlwaysSparse);
    if payload.None? {
      assert out[..lo] == out[..start][..lo] == before[..start][..lo] == before[..lo];
      return None;
    }
    ghost var ss := ScanSections(schema, baseline, current, AlwaysSparse);
    var n := payload.value;
    ghost var middle := out[..];
    var tickDelta: u32 := tick - session.lastTick;
    var baselineDelta: u32 := tick - baselineTick;
    ghost var head := SessionHeaderBytes(SESSION_DELTA, tickDelta, baselineDelta, AsU32(n));
    var headerLen := EncodeSessionHeader(out, lo, start, SESSION_DELTA, tickDelta, baselineDelta, AsU32(n));
    assert SessionFlagsOk(SESSION_DELTA);
    var header := headerLen.value;
    ghost var headed := out[..];
    PayloadStays(before, middle, headed, lo, start, n, head, ss);
    if header < MAX_SESSION_HEADER {
      MoveDown(out, start, lo + header, n);
    } else {
      SpliceSame(headed, start, n);
    }
    PacketClosed(middle, headed, out[..], lo, hi, head, SectionsBytes(ss));
    assert middle[..lo] == middle[..start][..lo] == before[..start][..lo] == before[..lo];
    session.lastTick := tick;
    return Some(header + n);
  }

  /** Writing the header leaves the payload where it is. */
  lemma PayloadStays(before: seq<byte>, middle: seq<byte>, headed: seq<byte>, lo: nat, start: nat, n: nat,
                     head: seq<byte>, ss: seq<Section>)
    requires start <= |before| && lo + |head| <= start && start + n <= |middle|
    requires middle[..start + n] == before[..start] + SectionsBytes(ss)
    requires headed == Splice(middle, lo, head)
    ensures headed[start..start + n] == SectionsBytes(ss)
  {
    SpliceAway(middle, lo, head, start, start + n);
    assert middle[start..start + n] == middle[..start + n][start..];
  }

  /** Header and payload side by side. */
  lemma PacketClosed(middle: seq<byte>, headed: seq<byte>, after: seq<byte>, lo: nat, hi: nat, head: seq<byte>,
                     payload: seq<byte>)
    requires lo + |head| + |payload| <= hi <= |middle|
    requires headed == Splice(middle, lo, head) && after == Splice(headed, lo + |head|, payload)
    ensures |after| == |middle| && after[lo..lo + |head| + |payload|] == head + payload
    ensures after[..lo] == middle[..lo] && after[hi..] == middle[hi..]
  {
    SpliceTwice(middle, lo, head, payload);
    SplicePrefix(middle, lo, head + payload, hi);
  }

  /** A compact packet read against a last tick; bytes after the payload are ignored. */
  function ReadSession(hash: u64, lastTick: u32, bytes: seq<byte>, wire: WireLimits): Option<Packet> {
    var h :- GetSessionHeader(bytes, lastTick);
    if h.headerLen + h.payloadLen > |bytes| then None
    else
      var ss :- GetSections(bytes[h.headerLen..h.headerLen + h.payloadLen], 0, wire, 0);
      Some(Packet(PacketHeader(VERSION, if SessionFull(h.flags) then FULL_SNAPSHOT else DELTA_SNAPSHOT, hash, h.tick,
                               h.baselineTick, h.payloadLen), ss))
  }

  /** The last tick moves only when a packet is accepted, and then it goes up. */
  method DecodeSessionPacket(hash: u64, session: SessionState, bytes: seq<byte>,
                             wire: WireLimits) returns (r: Option<Packet>)
    modifies session`lastTick
    ensures r == if session.schemaHash == hash then ReadSession(hash, old(session.lastTick), bytes, wire) else None
    ensures session.lastTick == if r.Some? then r.value.header.tick else old(session.lastTick)
    ensures r.Some? ==> session.lastTick > old(session.lastTick)
  {
    hide GetSections;
    if session.schemaHash != hash {
      return None;
    }
    var h :- DecodeSessionHeader(bytes, session.lastTick);
    if h.tick <= session.lastTick {
      return None;
    }
    var start := h.headerLen;
    var end := start + h.payloadLen;
    if end > |bytes| {
      return None;
    }
    var ss :- DecodeSections(bytes[start..end], wire);
    session.lastTick := h.tick;
    var flags := if SessionFull(h.flags) then FULL_SNAPSHOT else DELTA_SNAPSHOT;
    return Some(Packet(PacketHeader(VERSION, flags, session.schemaHash, h.tick, h.baselineTick, h.payloadLen), ss));
  }

  /** What the wire asks of a compact packet: there is no packet size limit here. */
  predicate SessionAllows(ss: seq<Section>, wire: WireLimits) {
    |SectionsBytes(ss)| < 0x1_0000_0000 && WithinLimits(ss, wire, 0)
  }

  /**
   A compact delta packet, with anything after it, is accepted by a receiver at any last tick
   exactly when the shifted ticks are in range and the wire limits allow its sections; it reads
   the same sections, and ticks shifted by the difference of the last ticks.
   */
  lemma {:induction false} SessionPacketBack(hash: u64, tick: u32, baselineTick: u32, ss: seq<Section>, rest: seq<byte>,
                                             senderLast: u32, receiverLast: u32, wire: WireLimits)
    requires senderLast < tick && baselineTick <= tick && LengthsFit(ss) && |SectionsBytes(ss)| < 0x1_0000_0000
    ensures var shift := receiverLast - senderLast;
            ReadSession(hash, receiverLast, SessionPacket(tick - senderLast, tick - baselineTick, ss) + rest, wire)
            == if tick + shift < 0x1_0000_0000 && baselineTick + shift > 0 && SessionAllows(ss, wire)
               then Some(Packet(PacketHeader(VERSION, DELTA_SNAPSHOT, hash, tick + shift, baselineTick + shift,
                                             |SectionsBytes(ss)|), ss))
               else None
  {
    hide SectionsBytes, SessionHeaderBytes, GetSessionHeader, GetSections, WithinLimits;
    var payload := SectionsBytes(ss);
    var head := SessionHeaderBytes(SESSION_DELTA, tick - senderLast, tick - baselineTick, AsU32(|payload|));
    var bytes := head + payload + rest;
    assert bytes == head + (payload + rest);
    TickShift(tick, baselineTick, AsU32(|payload|), payload + rest, senderLast, receiverLast);
    SessionHeaderBack(SESSION_DELTA, tick - senderLast, tick - baselineTick, AsU32(|payload|), payload + rest,
                      receiverLast);
    assert bytes[|head|..|head| + |payload|] == payload;
    assert payload[0..] == payload;
    SectionsBack(payload, 0, ss, wire, 0);
  }
}
