/** Delta packets: encoding two snapshots or change lists into a packet, and applying a packet to a baseline. */
module Packets {
  import opened Core
  import opened Bits
  import opened Schemas
  import opened Diffs
  import opened Scratches
  import opened Wire
  import opened Sections
  import opened Payloads
  import opened ChangeLists
  import opened Decoders
  import opened Apply
  import opened Soundness

  function DeltaHeader(hash: u64, tick: u32, baselineTick: u32, payload: nat): PacketHeader {
    PacketHeader(VERSION, DELTA_SNAPSHOT, hash, tick, baselineTick, AsU32(payload))
  }

  /** The bytes of a delta packet. */
  function DeltaPacket(hash: u64, tick: u32, baselineTick: u32, ss: seq<Section>): seq<byte> {
    HeaderBytes(DeltaHeader(hash, tick, baselineTick, |SectionsBytes(ss)|)) + SectionsBytes(ss)
  }

  /** What encoding a packet into `before[lo..hi]` promises; bytes outside are untouched. */
  ghost predicate PacketPlaced(before: seq<byte>, after: seq<byte>, lo: nat, hi: nat, r: Option<nat>,
                               good: bool, packet: seq<byte>)
    requires lo <= hi <= |before|
  {
    && |after| == |before|
    && after[..lo] == before[..lo]
    && after[hi..] == before[hi..]
    && (r.Some? <==> good)
    && (r.Some? ==> r.value == |packet| <= hi - lo && after[lo..lo + r.value] == packet)
  }

  lemma HeaderPlaced(before: seq<byte>, middle: seq<byte>, after: seq<byte>, lo: nat, hi: nat, n: nat, h: PacketHeader,
                     ss: seq<Section>, good: bool, limits: CodecLimits)
    requires lo + HEADER_SIZE <= hi <= |before|
    requires PayloadPlaced(before, middle, lo + HEADER_SIZE, hi, Some(n), good, ss, limits)
    requires after == Splice(middle, lo, HeaderBytes(h))
    ensures good && PayloadFits(ss, hi - lo - HEADER_SIZE, limits)
    ensures PacketPlaced(before, after, lo, hi, Some(HEADER_SIZE + n), true, HeaderBytes(h) + SectionsBytes(ss))
  {
    hide HeaderBytes, SectionsBytes, PayloadFits;
    SpliceParts(middle, lo, HeaderBytes(h));
    var start := lo + HEADER_SIZE;
    assert after[lo..start] == HeaderBytes(h);
    assert after[start..start + n] == after[start..][..n] == middle[start..][..n] == middle[..start + n][start..]
      == SectionsBytes(ss);
    assert after[lo..start + n] == after[lo..start] + after[start..start + n];
    assert middle[..lo] == middle[..start][..lo] == before[..start][..lo] == before[..lo];
    assert after[hi..] == after[start..][hi - start..] == middle[start..][hi - start..] == middle[hi..];
  }

  /** Encodes the difference of two snapshots behind a full header. */
  method EncodeDeltaSnapshot(schema: Schema, hash: u64, tick: u32, baselineTick: u32, baseline: Snapshot,
                             current: Snapshot,
                             limits: CodecLimits, scratch: CodecScratch, out: array<byte>, lo: nat, hi: nat, mode: Mode)
    returns (r: Option<nat>)
    requires lo <= hi <= out.Length && ValidSchema(schema)
    modifies out, scratch
    ensures PacketPlaced(old(out[..]), out[..], lo, hi, r,
                         && HEADER_SIZE <= hi - lo
                         && ScanOk(schema, baselineTick, baseline, current, limits, mode)
                         && PayloadFits(ScanSections(schema, baseline, current, mode), hi - lo - HEADER_SIZE, limits),
                         DeltaPacket(hash, tick, baselineTick, ScanSections(schema, baseline, current, mode)))
  {
    hide ScanOk, ScanSections, PayloadFits, SectionsBytes, HeaderBytes, Splice, ValidSchema;
    if hi - lo < HEADER_SIZE {
      return None;
    }
    ghost var before := out[..];
    var payload := EncodeDeltaPayload(schema, baselineTick, baseline, current, limits, scratch, out, lo + HEADER_SIZE,
                                      hi, mode);
    if payload.None? {
      assert out[..lo] == out[..lo + HEADER_SIZE][..lo] == before[..lo];
      return None;
    }
    ghost var middle := out[..];
    var header := DeltaHeader(hash, tick, baselineTick, payload.value);
    EncodeHeader(header, out, lo);
    HeaderPlaced(before, middle, out[..], lo, hi, payload.value, header, ScanSections(schema, baseline, current, mode),
                 ScanOk(schema, baselineTick, baseline, current, limits, mode), limits);
    return Some(HEADER_SIZE + payload.value);
  }

  /** Encodes caller-provided change lists behind a full header. */
  method EncodeDeltaSnapshotFromUpdates(schema: Schema, hash: u64, tick: u32, baselineTick: u32, d: Delta,
                                        limits: CodecLimits,
                                        out: array<byte>, lo: nat, hi: nat)
    returns (r: Option<nat>)
    requires lo <= hi <= out.Length && ValidSchema(schema)
    modifies out
    ensures PacketPlaced(old(out[..]), out[..], lo, hi, r,
                         && HEADER_SIZE <= hi - lo
                         && ListsOk(schema, d, limits)
                         && PayloadFits(DeltaSections(schema, d, Sparse), hi - lo - HEADER_SIZE, limits),
                         DeltaPacket(hash, tick, baselineTick, DeltaSections(schema, d, Sparse)))
  {
    hide ListsOk, DeltaSections, PayloadFits, SectionsBytes, HeaderBytes, Splice, ValidSchema;
    if hi - lo < HEADER_SIZE {
      return None;
    }
    ghost var before := out[..];
    var payload := EncodeDeltaPayloadFromUpdates(schema, d, limits, out, lo + HEADER_SIZE, hi);
    if payload.None? {
      assert out[..lo] == out[..lo + HEADER_SIZE][..lo] == before[..lo];
      return None;
    }
    ghost var middle := out[..];
    var header := DeltaHeader(hash, tick, baselineTick, payload.value);
    EncodeHeader(header, out, lo);
    HeaderPlaced(before, middle, out[..], lo, hi, payload.value, header, DeltaSections(schema, d, Sparse),
                 ListsOk(schema, d, limits), limits);
    return Some(HEADER_SIZE + payload.value);
  }

  // ---- Receiving ----

  datatype DeltaDecoded = DeltaDecoded(tick: u32, baselineTick: u32, delta: Delta)

  /** A delta packet for this schema with a baseline. */
  predicate DeltaHeaderOk(h: PacketHeader, hash: u64) {
    IsDelta(h.flags) && h.baselineTick != 0 && h.schemaHash == hash
  }

  function ReadDelta(schema: Schema, hash: u64, p: Packet, limits: CodecLimits): Option<DeltaDecoded> {
    if !DeltaHeaderOk(p.header, hash) then None
    else
      var d :- GetDelta(p.sections, schema, limits);
      Some(DeltaDecoded(p.header.tick, p.header.baselineTick, d))
  }

  /** The entities after a packet, by id. */
  function ApplyPacket(schema: Schema, hash: u64, baseline: Snapshot, p: Packet,
                       limits: CodecLimits): Option<map<u32, EntitySnapshot>> {
    var decoded :- ReadDelta(schema, hash, p, limits);
    if decoded.baselineTick != baseline.tick || !Sorted(baseline.entities) then None
    else ApplyDelta(EntityMap(baseline.entities), decoded.delta, limits)
  }

  /** `s` is the snapshot at `tick` whose entities, in id order, are those of `m`. */
  predicate SnapshotIs(s: Snapshot, tick: u32, m: map<u32, EntitySnapshot>) {
    s.tick == tick && Sorted(s.entities) && EntityMap(s.entities) == m
  }

  method DecodeDeltaPacket(schema: Schema, hash: u64, p: Packet, limits: CodecLimits) returns (r: Option<DeltaDecoded>)
    requires ValidSchema(schema)
    ensures r == ReadDelta(schema, hash, p, limits)
    ensures r.Some? ==> SoundDelta(schema, limits, r.value.delta)
  {
    hide ValidComponents, GetDelta;
    if !IsDelta(p.header.flags) {
      return None;
    }
    if p.header.baselineTick == 0 {
      return None;
    }
    if p.header.schemaHash != hash {
      return None;
    }
    var d :- DecodeDeltaSections(p.sections, schema, limits);
    DeltaSound(p.sections, schema, limits);
    return Some(DeltaDecoded(p.header.tick, p.header.baselineTick, d));
  }

  method ApplyDeltaSnapshotFromPacket(schema: Schema, hash: u64, baseline: Snapshot, p: Packet, limits: CodecLimits)
    returns (r: Option<Snapshot>)
    requires ValidSchema(schema)
    ensures r.Some? <==> ApplyPacket(schema, hash, baseline, p, limits).Some?
    ensures r.Some? ==> SnapshotIs(r.value, p.header.tick, ApplyPacket(schema, hash, baseline, p, limits).value)
  {
    hide AllSound, ApplyDelta;
    if !IsDelta(p.header.flags) {
      return None;
    }
    if p.header.baselineTick == 0 {
      return None;
    }
    if p.header.baselineTick != baseline.tick {
      return None;
    }
    if p.header.schemaHash != hash {
      return None;
    }
    var d :- DecodeDeltaSections(p.sections, schema, limits);
    DeltaSound(p.sections, schema, limits);
    var sorted := EnsureEntitiesSorted(baseline.entities);
    if sorted.Fail? {
      return None;
    }
    var entities :- ApplyLists(baseline.entities, d, limits);
    return Some(Snapshot(p.header.tick, entities));
  }

  method ApplyDeltaSnapshot(schema: Schema, hash: u64, baseline: Snapshot, bytes: seq<byte>, wire: WireLimits,
                            limits: CodecLimits)
    returns (r: Option<Snapshot>)
    requires ValidSchema(schema)
    ensures var p := GetPacket(bytes, wire);
            && (r.Some? <==> p.Some? && ApplyPacket(schema, hash, baseline, p.value, limits).Some?)
            && (r.Some? ==> SnapshotIs(r.value, p.value.header.tick,
                                       ApplyPacket(schema, hash, baseline, p.value, limits).value))
  {
    hide ValidSchema, GetPacket, ApplyPacket, SnapshotIs;
    var p :- DecodePacket(bytes, wire);
    r := ApplyDeltaSnapshotFromPacket(schema, hash, baseline, p, limits);
  }
}
