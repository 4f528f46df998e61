/**
 From two snapshots, through bytes, back to a snapshot: what the receiver of a delta packet ends up
 with, and when.
 */
module RoundTrip {
  import opened Core
  import opened Bits
  import opened Bitstream
  import opened Schemas
  import opened Fields
  import opened Diffs
  import opened Layouts
  import opened UpdateLayouts
  import opened Encodings
  import opened Wire
  import opened Walks
  import opened Sections
  import opened Estimates
  import opened Payloads
  import opened ChangeLists
  import opened Decoders
  import opened Apply
  import opened Rebuilding
  import opened Exactness
  import opened Packets

  // ---- The diff is a proper update list ----

  lemma {:induction false} SelectedAscends(mask: seq<bool>, values: seq<FieldValue>, k: nat)
    requires k <= |mask| == |values|
    ensures FieldsAscend(Selected(mask, values, k), k)
    decreases |mask| - k
  {
    if k < |mask| {
      SelectedAscends(mask, values, k + 1);
      if mask[k] {
        assert Selected(mask, values, k)[1..] == Selected(mask, values, k + 1);
      } else {
        assert Selected(mask, values, k) == Selected(mask, values, k + 1);
        AscendFrom(Selected(mask, values, k + 1), k + 1, k);
      }
    }
  }

  lemma DiffFieldsValid(d: ComponentDef, limits: CodecLimits, base: EntitySnapshot, curr: EntitySnapshot)
    requires ComponentComparable(d, limits, FindComponent(base.components, d.id), FindComponent(curr.components, d.id))
    requires SelectedOk(d.fields, DiffFields(d, base, curr)) && DiffFields(d, base, curr) != []
    ensures ValidUpdate(d, limits, UpdateComponent(d.id, DiffFields(d, base, curr)))
  {
    hide FindComponent, SelectedOk, Selected, FieldsAscend;
    var b, c := FindComponent(base.components, d.id).value, FindComponent(curr.components, d.id).value;
    SelectedAscends(FieldMask(d.fields, b.fields, c.fields), c.fields, 0);
  }

  /** The changed components of a comparable, encodable pair are valid updates in schema order. */
  lemma {:induction false} DiffComponentsOrdered(defs: seq<ComponentDef>, limits: CodecLimits, base: EntitySnapshot,
                                                 curr: EntitySnapshot)
    requires UniqueIds(defs) && Comparable(defs, limits, base, curr) && DiffEncodable(defs, base, curr)
    ensures UpdatesInOrder(defs, limits, DiffComponents(defs, base, curr))
    ensures forall u :: u in DiffComponents(defs, base, curr) ==> exists j :: 0 <= j < |defs| && defs[j].id == u.id
  {
    hide DiffFields, SelectedOk, ComponentComparable, FindComponent, ValidUpdate;
    if defs != [] {
      var us := DiffComponents(defs, base, curr);
      var rest := DiffComponents(defs[1..], base, curr);
      DiffComponentsOrdered(defs[1..], limits, base, curr);
      forall u | u in rest
        ensures exists j :: 0 < j < |defs| && defs[j].id == u.id
      {
        var j :| 0 <= j < |defs[1..]| && defs[1..][j].id == u.id;
        assert defs[j + 1].id == u.id;
      }
      if DiffFields(defs[0], base, curr) == [] {
        assert us == rest;
        if us != [] {
          assert us[0] in rest;
        }
      } else {
        DiffFieldsValid(defs[0], limits, base, curr);
        assert us[1..] == rest;
      }
    }
  }

  lemma {:induction false} DiffPairsOrdered(schema: Schema, limits: CodecLimits,
                                            pairs: seq<(EntitySnapshot, EntitySnapshot)>)
    requires UniqueIds(schema.components) && AllComparable(schema, limits, pairs) && ChangesEncodable(schema, pairs)
    ensures AllInSchemaOrder(schema, limits, DiffPairs(schema, pairs)) && NoneEmpty(DiffPairs(schema, pairs))
  {
    hide UniqueIds, Comparable, DiffEncodable, DiffComponents, UpdatesInOrder;
    if pairs != [] {
      var (x, y) := pairs[0];
      DiffPairsOrdered(schema, limits, pairs[1..]);
      DiffComponentsOrdered(schema.components, limits, x, y);
      assert pairs == [(x, y)] + pairs[1..];
      DiffPairsHead(schema, x, y, pairs[1..]);
      var rest := DiffPairs(schema, pairs[1..]);
      if DiffComponents(schema.components, x, y) == [] {
        assert DiffPairs(schema, pairs) == rest;
      } else {
        assert DiffPairs(schema, pairs)[1..] == rest;
      }
    }
  }

  /** Updates are listed in the order of the baseline. */
  lemma {:induction false} DiffPairsSorted(schema: Schema, xs: seq<EntitySnapshot>, ys: seq<EntitySnapshot>)
    requires Sorted(xs)
    ensures SortedUpdates(DiffPairs(schema, Common(xs, ys)))
    ensures DiffPairs(schema, Common(xs, ys)) != [] ==> xs != [] && xs[0].id <= DiffPairs(schema, Common(xs, ys))[0].id
  {
    hide DiffComponents;
    if xs != [] {
      DiffPairsSorted(schema, xs[1..], ys);
      var rest := DiffPairs(schema, Common(xs[1..], ys));
      if xs[0].id in EntityMap(ys) {
        var k := EntityIndex(ys, xs[0].id);
        DiffPairsHead(schema, xs[0], EntityMap(ys)[xs[0].id], Common(xs[1..], ys));
      } else {
        assert Common(xs, ys) == Common(xs[1..], ys);
      }
    }
  }

  // ---- Each section back ----

  lemma DestroySectionBack(ids: seq<u32>, limits: CodecLimits, room: int)
    requires SortedIds(ids) && |ids| <= limits.maxEntitiesDestroy && SectionFits(DestroySection(ids), room, limits)
    ensures GetDestroys(DestroySection(ids).body, limits) == Some(ids)
  {
    hide SortedIds, GetDestroys;
    DestroysBack(ids, limits);
  }

  lemma CreateSectionBack(schema: Schema, es: seq<EntitySnapshot>, limits: CodecLimits, room: int)
    requires Sorted(es) && |es| <= limits.maxEntitiesCreate && AllCreateOk(schema, limits, es)
    requires SectionFits(CreateSection(schema, es), room, limits)
    ensures GetCreates(CreateSection(schema, es).body, schema, limits) == Some(NormalAll(schema, es))
  {
    hide Sorted, GetCreates, AllCreateOk, Normal;
    CreatesBack(schema, limits, es);
  }

  /** What a receiver makes of an update section. */
  function GetUpdates(encoding: UpdateEncoding, body: seq<byte>, schema: Schema,
                      limits: CodecLimits): Option<seq<UpdateEntity>> {
    match encoding
    case Masked => GetMasked(body, schema, limits)
    case Sparse => GetSparse(Packed, body, schema, limits)
  }

  /** Only the sparse layout needs component ids in ascending order. */
  predicate Decodable(encoding: UpdateEncoding, us: seq<UpdateEntity>) {
    encoding.Sparse? ==> AllAscend(us)
  }

  lemma UpdateSectionBack(encoding: UpdateEncoding, schema: Schema, us: seq<UpdateEntity>, limits: CodecLimits,
                          room: int)
    requires ValidSchema(schema) && SortedUpdates(us) && AllInSchemaOrder(schema, limits, us) && NoneEmpty(us)
    requires |us| <= limits.maxEntitiesUpdate && (encoding.Sparse? ==> |Entries(us)| <= EntryLimit(limits))
    requires SectionFits(UpdateSection(encoding, schema, us), room, limits)
    ensures GetUpdates(encoding, UpdateSection(encoding, schema, us).body, schema, limits)
         == if Decodable(encoding, us) then Some(us) else None
  {
    hide PutMaskedList;
    match encoding
    case Masked => MaskedBack(schema, limits, us);
    case Sparse =>
      InOrderEntriesWritten(schema, limits, us);
      WithoutEmptySame(us);
      SparseDecodes(Packed, schema, limits, us);
  }

  // ---- All sections back ----

  lemma {:induction false} SectionsAppend(seen: Seen, ss: seq<Section>, s: Section, schema: Schema, limits: CodecLimits)
    ensures GetDeltaSections(seen, ss + [s], schema, limits)
         == match GetDeltaSections(seen, ss, schema, limits)
            case None => None
            case Some(next) => GetDeltaSection(next, s, schema, limits)
    decreases |ss|
  {
    hide GetDeltaSection;
    if ss == [] {
      assert ss + [s] == [s] && [s][1..] == [];
    } else {
      assert (ss + [s])[1..] == ss[1..] + [s];
      var next := GetDeltaSection(seen, ss[0], schema, limits);
      if next.Some? {
        SectionsAppend(next.value, ss[1..], s, schema, limits);
      }
    }
  }

  const NOTHING_SEEN := Seen(None, None, None, None)

  function SomeUnlessEmpty<T>(xs: seq<T>): Option<seq<T>> {
    if xs == [] then None else Some(xs)
  }

  /** What is seen after the destroy and the create sections. */
  function SeenLists(schema: Schema, d: Delta): Seen {
    Seen(SomeUnlessEmpty(d.destroys), SomeUnlessEmpty(NormalAll(schema, d.creates)), None, None)
  }

  lemma ListsSeen(schema: Schema, limits: CodecLimits, d: Delta)
    requires d.destroys != [] ==> GetDestroys(DestroySection(d.destroys).body, limits) == Some(d.destroys)
    requires d.creates != [] ==>
               GetCreates(CreateSection(schema, d.creates).body, schema, limits) == Some(NormalAll(schema, d.creates))
    ensures GetDeltaSections(NOTHING_SEEN, DestroySections(d) + CreateSections(schema, d), schema, limits)
         == Some(SeenLists(schema, d))
  {
    hide GetDestroys, GetCreates, Normal;
    var first := DestroySections(d);
    if d.destroys != [] {
      SectionsAppend(NOTHING_SEEN, [], DestroySection(d.destroys), schema, limits);
      assert [] + first == first;
    }
    if d.creates != [] {
      SectionsAppend(NOTHING_SEEN, first, CreateSection(schema, d.creates), schema, limits);
    } else {
      assert first + [] == first;
    }
  }

  /** What is seen once the update section is decoded too. */
  function SeenUpdates(seen: Seen, encoding: UpdateEncoding, us: seq<UpdateEntity>): Seen {
    match encoding
    case Masked => seen.(masked := Some(us))
    case Sparse => seen.(sparse := Some(us))
  }

  lemma UpdatesSeen(schema: Schema, limits: CodecLimits, d: Delta, encoding: UpdateEncoding)
    ensures GetDeltaSection(SeenLists(schema, d), UpdateSection(encoding, schema, d.updates), schema, limits)
         == match GetUpdates(encoding, UpdateSection(encoding, schema, d.updates).body, schema, limits)
            case None => None
            case Some(us) => Some(SeenUpdates(SeenLists(schema, d), encoding, us))
  {
    hide GetMasked, GetSparse, PutMasked, PutSparse, NormalAll, Pack;
  }

  /** The sections of a delta decode to that delta exactly when its update section decodes. */
  lemma DeltaBack(schema: Schema, limits: CodecLimits, d: Delta, encoding: UpdateEncoding,
                  updates: Option<seq<UpdateEntity>>)
    requires d.destroys != [] ==> GetDestroys(DestroySection(d.destroys).body, limits) == Some(d.destroys)
    requires d.creates != [] ==>
               GetCreates(CreateSection(schema, d.creates).body, schema, limits) == Some(NormalAll(schema, d.creates))
    requires updates == if d.updates == [] then Some([])
             else GetUpdates(encoding, UpdateSection(encoding, schema, d.updates).body, schema, limits)
    ensures GetDelta(DeltaSections(schema, d, encoding), schema, limits)
         == if updates.None? then None else Some(Received(schema, d).(updates := updates.value))
  {
    hide GetDeltaSection, DestroySection, CreateSection, UpdateSection;
    ListsSeen(schema, limits, d);
    var front := DestroySections(d) + CreateSections(schema, d);
    if d.updates == [] {
      assert front + [] == front;
    } else {
      SectionsAppend(NOTHING_SEEN, front, UpdateSection(encoding, schema, d.updates), schema, limits);
      UpdatesSeen(schema, limits, d, encoding);
    }
  }

  /** Sections written by an encoder fit one by one. */
  lemma FitsEach(schema: Schema, d: Delta, encoding: UpdateEncoding, room: int, limits: CodecLimits)
    requires PayloadFits(DeltaSections(schema, d, encoding), room, limits)
    ensures d.destroys != [] ==> exists r :: SectionFits(DestroySection(d.destroys), r, limits)
    ensures d.creates != [] ==> exists r :: SectionFits(CreateSection(schema, d.creates), r, limits)
    ensures d.updates != [] ==> exists r :: SectionFits(UpdateSection(encoding, schema, d.updates), r, limits)
    ensures LengthsFit(DeltaSections(schema, d, encoding))
  {
    hide SectionFits, SectionBytes, DestroySection, CreateSection, UpdateSection;
    var ss := DeltaSections(schema, d, encoding);
    var A, B, C := DestroySections(d), CreateSections(schema, d), UpdateSections(schema, d, encoding);
    FitsConcat(A + B, C, room, limits);
    FitsConcat(A, B, room, limits);
    FitsLengths(ss, room, limits);
  }

  lemma {:induction false} FitsLengths(ss: seq<Section>, room: int, limits: CodecLimits)
    requires PayloadFits(ss, room, limits)
    ensures LengthsFit(ss)
  {
    if ss != [] {
      FitsLengths(ss[1..], room - |SectionBytes(ss[0])|, limits);
    }
  }

  // ---- Whole packets ----

  /** What the wire limits and the 32-bit length field ask of a packet. */
  predicate WireAllows(ss: seq<Section>, wire: WireLimits) {
    && HEADER_SIZE + |SectionsBytes(ss)| <= wire.maxPacketBytes
    && |SectionsBytes(ss)| < 0x1_0000_0000
    && WithinLimits(ss, wire, 0)
  }

  lemma DeltaFlags()
    ensures IsDelta(DELTA_SNAPSHOT) && !IsFull(DELTA_SNAPSHOT) && !IsInit(DELTA_SNAPSHOT) && ValidFlags(DELTA_SNAPSHOT)
  {
  }

  /** A delta packet is parsed exactly when its baseline tick is not zero and the wire limits allow it. */
  lemma {:induction false} DeltaPacketBack(hash: u64, tick: u32, baselineTick: u32, ss: seq<Section>, wire: WireLimits)
    requires LengthsFit(ss)
    ensures GetPacket(DeltaPacket(hash, tick, baselineTick, ss), wire)
         == if baselineTick != 0 && WireAllows(ss, wire)
            then Some(Packet(DeltaHeader(hash, tick, baselineTick, |SectionsBytes(ss)|), ss)) else None
  {
    hide HeaderBytes, SectionsBytes, WithinLimits, ReadHeader, WordU32, GetSections;
    DeltaFlags();
    var h := DeltaHeader(hash, tick, baselineTick, |SectionsBytes(ss)|);
    if baselineTick != 0 {
      PacketBack(h, ss, wire);
    } else {
      HeaderBack(h, SectionsBytes(ss));
    }
  }

  /**
   The sections of an encodable difference decode to the difference, unless a sparse section lists
   ids out of order.
   */
  lemma ScanBack(schema: Schema, baseline: Snapshot, current: Snapshot, limits: CodecLimits, mode: Mode, room: int)
    requires ValidSchema(schema) && ScanOk(schema, baseline.tick, baseline, current, limits, mode)
    requires PayloadFits(ScanSections(schema, baseline, current, mode), room, limits)
    ensures var d := Diff(schema, baseline.entities, current.entities);
            GetDelta(ScanSections(schema, baseline, current, mode), schema, limits)
            == if Decodable(EncodingFor(mode, schema, d.updates), d.updates) then Some(Received(schema, d)) else None
    ensures LengthsFit(ScanSections(schema, baseline, current, mode))
  {
    hide GetDelta, CreateSection, UpdateSection, SortedUpdates, GetUpdates, GetDestroys, GetCreates, ChosenEncoding,
      AllCreateOk, NormalAll, AllInSchemaOrder, NoneEmpty, LengthsFit;
    var base, curr := baseline.entities, current.entities;
    var d := Diff(schema, base, curr);
    var encoding := EncodingFor(mode, schema, d.updates);
    FitsEach(schema, d, encoding, room, limits);
    ScanLists(schema, base, curr, limits, encoding);
    if d.destroys != [] {
      var r :| SectionFits(DestroySection(d.destroys), r, limits);
      DestroySectionBack(d.destroys, limits, r);
    }
    if d.creates != [] {
      var r :| SectionFits(CreateSection(schema, d.creates), r, limits);
      CreateSectionBack(schema, d.creates, limits, r);
    }
    if d.updates != [] {
      var r :| SectionFits(UpdateSection(encoding, schema, d.updates), r, limits);
      UpdateSectionBack(encoding, schema, d.updates, limits, r);
    } else {
      NothingAscends();
    }
    DeltaBack(schema, limits, d, encoding, if Decodable(encoding, d.updates) then Some(d.updates) else None);
  }

  lemma NothingAscends()
    ensures AllAscend([])
  {
  }

  /** The three lists of a difference are sorted, and its updates are in schema order. */
  lemma ScanLists(schema: Schema, base: seq<EntitySnapshot>, curr: seq<EntitySnapshot>, limits: CodecLimits,
                  encoding: UpdateEncoding)
    requires ValidSchema(schema) && Sorted(base) && Sorted(curr) && UpdatesOk(schema, base, curr, limits, encoding)
    ensures var d := Diff(schema, base, curr);
            && SortedIds(d.destroys) && Sorted(d.creates)
            && SortedUpdates(d.updates) && AllInSchemaOrder(schema, limits, d.updates) && NoneEmpty(d.updates)
  {
    MissingSorted(base, curr);
    MissingSorted(curr, base);
    DiffPairsOrdered(schema, limits, Common(base, curr));
    DiffPairsSorted(schema, base, curr);
  }

  /**
   The delta round trip. Whenever encoding succeeds, the packet is parsed exactly when the
   baseline tick is not zero and the wire limits allow it; it then applies to the baseline
   exactly when its update section is decodable and the result is within the entity limit;
   and the result has the new tick and the rebuilt entities.
   */
  lemma DeltaRoundTrip(schema: Schema, hash: u64, tick: u32, baseline: Snapshot, current: Snapshot, limits: CodecLimits,
                       wire: WireLimits, mode: Mode, room: int)
    requires ValidSchema(schema) && ScanOk(schema, baseline.tick, baseline, current, limits, mode)
    requires PayloadFits(ScanSections(schema, baseline, current, mode), room, limits)
    ensures var ss := ScanSections(schema, baseline, current, mode);
            var us := Diff(schema, baseline.entities, current.entities).updates;
            var p := GetPacket(DeltaPacket(hash, tick, baseline.tick, ss), wire);
            && (p.Some? <==> baseline.tick != 0 && WireAllows(ss, wire))
            && (p.Some? ==>
                  && p.value.header.tick == tick
                  && ApplyPacket(schema, hash, baseline, p.value, limits)
                     == if Decodable(EncodingFor(mode, schema, us), us)
                       && |current.entities| <= limits.maxTotalEntitiesAfterApply
                        then Some(Rebuilt(schema, EntityMap(baseline.entities), EntityMap(current.entities))) else None)
  {
    hide ApplyDelta, Rebuilt, Decodable, DiffOk, Diff, Received, DeltaSections;
    DeltaFlags();
    var ss := ScanSections(schema, baseline, current, mode);
    ScanBack(schema, baseline, current, limits, mode, room);
    DeltaPacketBack(hash, tick, baseline.tick, ss, wire);
    ApplyDiff(schema, limits, baseline.entities, current.entities);
  }

  /** In a schema that lists its components by ascending id, every layout is decodable. */
  lemma AscendingDecodable(schema: Schema, baseline: Snapshot, current: Snapshot, limits: CodecLimits, mode: Mode)
    requires ValidSchema(schema) && ScanOk(schema, baseline.tick, baseline, current, limits, mode)
    requires Ascending(schema.components)
    ensures var us := Diff(schema, baseline.entities, current.entities).updates;
            Decodable(EncodingFor(mode, schema, us), us)
  {
    var d := Diff(schema, baseline.entities, current.entities);
    ScanLists(schema, baseline.entities, current.entities, limits, EncodingFor(mode, schema, d.updates));
    AllInOrderAscend(schema, limits, d.updates);
  }

  /**
   Nothing is lost under `Always`: a schema that sends every field on any change rebuilds the
   sender's entities exactly when both sides list components alike, and the snapshot received
   is then the snapshot sent.
   */
  lemma DeltaRoundTripExact(schema: Schema, hash: u64, baseline: Snapshot, current: Snapshot, limits: CodecLimits,
                            wire: WireLimits, mode: Mode, room: int, r: Snapshot)
    requires ValidSchema(schema) && ScanOk(schema, baseline.tick, baseline, current, limits, mode)
    requires PayloadFits(ScanSections(schema, baseline, current, mode), room, limits)
    requires AlwaysSent(schema.components)
    requires ProperLists(schema, EntityMap(baseline.entities)) && ProperLists(schema, EntityMap(current.entities))
    requires var p := GetPacket(DeltaPacket(hash, current.tick, baseline.tick,
                                            ScanSections(schema, baseline, current, mode)), wire);
             && p.Some? && ApplyPacket(schema, hash, baseline, p.value, limits).Some?
             && SnapshotIs(r, p.value.header.tick, ApplyPacket(schema, hash, baseline, p.value, limits).value)
    ensures r == current <==> SameLists(schema, EntityMap(baseline.entities), EntityMap(current.entities))
  {
    hide ApplyPacket, EncodingFor, ProperLists, SameLists, Common, AllComparable, ChangesEncodable, ValidComponents;
    DeltaRoundTrip(schema, hash, current.tick, baseline, current, limits, wire, mode, room);
    RebuiltExact(schema, limits, baseline.entities, current.entities);
    if EntityMap(r.entities) == EntityMap(current.entities) {
      SortedUnique(r.entities, current.entities);
    }
  }
}
