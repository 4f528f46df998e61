/** Full snapshots: every entity in one create section, or no section at all. */
module FullSnapshots {
  import opened Core
  import opened Bits
  import opened BitWriters
  import opened Schemas
  import opened Diffs
  import opened Layouts
  import opened Wire
  import opened EntityEncoders
  import opened Sections
  import opened Payloads
  import opened ChangeLists
  import opened Decoders
  import opened Packets
  import opened RoundTrip
  import opened SessionHeaders
  import opened Sessions

  /** Ids go strictly up, and every entity is within the limits and can be written. */
  predicate FullListOk(schema: Schema, limits: CodecLimits, prev: Option<u32>, es: seq<EntitySnapshot>)
    decreases |es|
  {
    es == [] ||
    (&& After(prev, es[0].id)
     && |es[0].components| <= limits.maxComponentsPerEntity
     && CreateOk(schema, limits, es[0])
     && FullListOk(schema, limits, Some(es[0].id), es[1..]))
  }

  /** What the body encoder demands; the limit on components applies to full snapshots only. */
  predicate FullBodyOk(schema: Schema, limits: CodecLimits, es: seq<EntitySnapshot>) {
    |schema.components| <= limits.maxComponentsPerEntity && FullListOk(schema, limits, None, es)
  }

  lemma {:induction false} FullListSorted(schema: Schema, limits: CodecLimits, prev: Option<u32>,
                                          es: seq<EntitySnapshot>)
    requires FullListOk(schema, limits, prev, es)
    ensures Sorted(es) && AllCreateOk(schema, limits, es) && (es != [] ==> After(prev, es[0].id))
    decreases |es|
  {
    hide CreateOk;
    if es != [] {
      FullListSorted(schema, limits, Some(es[0].id), es[1..]);
    }
  }

  /** An empty snapshot skips the body and its checks. */
  predicate FullSnapshotOk(schema: Schema, limits: CodecLimits, es: seq<EntitySnapshot>) {
    |es| <= limits.maxEntitiesCreate && (es == [] || FullBodyOk(schema, limits, es))
  }

  function FullSections(schema: Schema, es: seq<EntitySnapshot>): seq<Section> {
    if es == [] then [] else [CreateSection(schema, es)]
  }

  function FullHeader(hash: u64, tick: u32, payload: nat): PacketHeader {
    PacketHeader(VERSION, FULL_SNAPSHOT, hash, tick, 0, AsU32(payload))
  }

  function FullPacket(hash: u64, tick: u32, ss: seq<Section>): seq<byte> {
    HeaderBytes(FullHeader(hash, tick, |SectionsBytes(ss)|)) + SectionsBytes(ss)
  }

  method EncodeFullBody(schema: Schema, es: seq<EntitySnapshot>, limits: CodecLimits, w: BitWriter) returns (r: Outcome)
    requires w.Valid() && w.Written() == [] && ValidSchema(schema)
    modifies w`bitPos, w.buf
    ensures w.Puts(r, FullBodyOk(schema, limits, es), PutCreates(schema, es))
  {
    hide BitsOf, PutCreate, PutHead, CreateOk, ValidSchema;
    if |schema.components| > limits.maxComponentsPerEntity {
      return Fail;
    }
    :- WriteHead(w, |es|);
    ghost var all := PutCreateList(w.Written(), schema, es);
    var prev: Option<u32> := None;
    for k := 0 to |es|
      invariant w.Kept() && PutCreateList(w.Written(), schema, es[k..]) == all
      invariant FullListOk(schema, limits, None, es) <==> FullListOk(schema, limits, prev, es[k..])
    {
      assert es[k..][1..] == es[k + 1..];
      if prev.Some? && es[k].id <= prev.value {
        return Fail;
      }
      prev := Some(es[k].id);
      if |es[k].components| > limits.maxComponentsPerEntity {
        return Fail;
      }
      :- WriteCreateEntity(schema, es[k], limits, w);
    }
    var _ := w.AlignToByte();
    return Pass;
  }

  method PlaceFull(schema: Schema, es: seq<EntitySnapshot>, limits: CodecLimits, out: array<byte>, lo: nat, hi: nat)
    returns (r: Option<nat>)
    requires lo <= hi <= out.Length && ValidSchema(schema)
    modifies out
    ensures PayloadPlaced(old(out[..]), out[..], lo, hi, r, es == [] || FullBodyOk(schema, limits, es),
                          FullSections(schema, es), limits)
  {
    hide PayloadPlaced, BitsOf, PutCreates, Pack, SectionBytes, ValidSchema, FullBodyOk;
    NothingPlaced(out[..], lo, hi, limits);
    if es == [] {
      return Some(0);
    }
    ghost var before := out[..];
    ghost var section := CreateSection(schema, es);
    ghost var good := FullBodyOk(schema, limits, es);
    if hi - lo < RESERVED {
      NoRoom(before, lo, hi, section, good, limits);
      return None;
    }
    var w := OpenSection(out, lo, hi);
    var written := EncodeFullBody(schema, es, limits, w);
    OutsideKept(before, out[..], lo, hi);
    if written.Fail? {
      OnePlaced(before, out[..], lo, hi, None, section, good, limits);
      return None;
    }
    ghost var middle := out[..];
    r := CloseSection(EntityCreate, out, lo, hi, limits, w);
    Rebase(before, middle, out[..], lo, hi, r, section, good, limits);
  }

  method EncodeFullSnapshot(schema: Schema, hash: u64, tick: u32, es: seq<EntitySnapshot>, limits: CodecLimits,
                            out: array<byte>, lo: nat, hi: nat)
    returns (r: Option<nat>)
    requires lo <= hi <= out.Length && ValidSchema(schema)
    modifies out
    ensures PacketPlaced(old(out[..]), out[..], lo, hi, r,
                         && HEADER_SIZE <= hi - lo
                         && FullSnapshotOk(schema, limits, es)
                         && PayloadFits(FullSections(schema, es), hi - lo - HEADER_SIZE, limits),
                         FullPacket(hash, tick, FullSections(schema, es)))
  {
    hide FullBodyOk, FullSections, PayloadFits, SectionsBytes, HeaderBytes, Splice, ValidSchema;
    if hi - lo < HEADER_SIZE {
      return None;
    }
    if |es| > limits.maxEntitiesCreate {
      return None;
    }
    ghost var before := out[..];
    ghost var good := es == [] || FullBodyOk(schema, limits, es);
    var payload := PlaceFull(schema, es, limits, out, lo + HEADER_SIZE, hi);
    if payload.None? {
      assert out[..lo] == out[..lo + HEADER_SIZE][..lo] == before[..lo];
      return None;
    }
    ghost var middle := out[..];
    var header := FullHeader(hash, tick, payload.value);
    EncodeHeader(header, out, lo);
    HeaderPlaced(before, middle, out[..], lo, hi, payload.value, header, FullSections(schema, es), good, limits);
    return Some(HEADER_SIZE + payload.value);
  }

  // ---- Receiving ----

  predicate FullHeaderOk(h: PacketHeader, hash: u64) {
    IsFull(h.flags) && h.baselineTick == 0 && h.schemaHash == hash
  }

  function GetFullSection(s: Section, schema: Schema, limits: CodecLimits): Option<seq<EntitySnapshot>> {
    if s.tag != EntityCreate || |schema.components| > limits.maxComponentsPerEntity then None
    else GetCreates(s.body, schema, limits)
  }

  /** At most one section, and it holds the entities. */
  function ReadFull(schema: Schema, hash: u64, p: Packet, limits: CodecLimits): Option<Snapshot> {
    if !FullHeaderOk(p.header, hash) || |p.sections| > 1 then None
    else if p.sections == [] then Some(Snapshot(p.header.tick, []))
    else
      var es :- GetFullSection(p.sections[0], schema, limits);
      Some(Snapshot(p.header.tick, es))
  }

  method DecodeFullSnapshotFromPacket(schema: Schema, hash: u64, p: Packet,
                                      limits: CodecLimits) returns (r: Option<Snapshot>)
    requires ValidSchema(schema)
    ensures r == ReadFull(schema, hash, p, limits)
  {
    hide GetCreates, ValidSchema;
    if !IsFull(p.header.flags) {
      return None;
    }
    if p.header.baselineTick != 0 {
      return None;
    }
    if p.header.schemaHash != hash {
      return None;
    }
    var entities: seq<EntitySnapshot> := [];
    var seen := false;
    for k := 0 to |p.sections|
      invariant k <= 1 && seen == (k > 0)
      invariant if k == 0 then entities == [] else GetFullSection(p.sections[0], schema, limits) == Some(entities)
    {
      if p.sections[k].tag != EntityCreate {
        return None;
      }
      if seen {
        return None;
      }
      seen := true;
      if |schema.components| > limits.maxComponentsPerEntity {
        return None;
      }
      entities :- DecodeCreateSection(schema, p.sections[k].body, limits);
    }
    return Some(Snapshot(p.header.tick, entities));
  }

  lemma FullFlags()
    ensures IsFull(FULL_SNAPSHOT) && !IsDelta(FULL_SNAPSHOT) && !IsInit(FULL_SNAPSHOT) && ValidFlags(FULL_SNAPSHOT)
  {
  }

  /**
   The full snapshot round trip: whenever encoding succeeds, the packet is parsed exactly when
   the wire limits allow it; it always decodes, with components in schema order, and is the
   snapshot sent exactly when that listed its components in that order.
   */
  lemma {:induction false} FullRoundTrip(schema: Schema, hash: u64, tick: u32, es: seq<EntitySnapshot>,
                                         limits: CodecLimits,
                                         wire: WireLimits, room: int)
    requires UniqueIds(schema.components) && FullSnapshotOk(schema, limits, es)
    requires PayloadFits(FullSections(schema, es), room, limits)
    ensures var ss := FullSections(schema, es);
            var p := GetPacket(FullPacket(hash, tick, ss), wire);
            && (p.Some? <==> WireAllows(ss, wire))
            && (p.Some? ==> var r := ReadFull(schema, hash, p.value, limits);
                            r == Some(Snapshot(tick, NormalAll(schema, es)))
                            && (r == Some(Snapshot(tick, es)) <==> AllInOrder(schema, es)))
  {
    hide HeaderBytes, CreateSection, GetCreates, GetPacket;
    var ss := FullSections(schema, es);
    FullFlags();
    FitsLengths(ss, room, limits);
    PacketBack(FullHeader(hash, tick, |SectionsBytes(ss)|), ss, wire);
    NormalAllIff(schema, es);
    if es != [] {
      FullListSorted(schema, limits, None, es);
      CreateSectionBack(schema, es, limits, room);
      assert ss[0] == CreateSection(schema, es);
      CreateTag(schema, es);
    } else {
      NoEntities(schema);
    }
  }

  lemma CreateTag(schema: Schema, es: seq<EntitySnapshot>)
    ensures CreateSection(schema, es).tag == EntityCreate
  {
  }

  lemma NoEntities(schema: Schema)
    ensures NormalAll(schema, []) == []
  {
  }

  /**
   A full snapshot cannot travel behind a compact header: the header forces the baseline tick to
   equal the tick, which is above zero, and the decoder of full snapshots wants zero.
   */
  lemma CompactFullRejected(schema: Schema, hash: u64, lastTick: u32, bytes: seq<byte>, wire: WireLimits,
                            limits: CodecLimits)
    requires ReadSession(hash, lastTick, bytes, wire).Some?
    ensures var p := ReadSession(hash, lastTick, bytes, wire).value;
            IsFull(p.header.flags) ==> ReadFull(schema, hash, p, limits).None?
  {
    hide GetSections, GetCreates;
  }
}
