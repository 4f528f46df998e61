/** The change-list path: what the receiver decodes, and its agreement with the scan. */
module ListRoundTrip {
  import opened Core
  import opened Schemas
  import opened Fields
  import opened Diffs
  import opened Layouts
  import opened UpdateLayouts
  import opened Encodings
  import opened Wire
  import opened Walks
  import opened Sections
  import opened Estimates
  import opened Payloads
  import opened ChangeLists
  import opened Decoders
  import opened Apply
  import opened Rebuilding
  import opened Packets
  import opened RoundTrip

  /** The encoder writes the number of fields of a component update as 32 bits. */
  predicate CountsFit(us: seq<UpdateComponent>) {
    us == [] || (|us[0].fields| < 0x1_0000_0000 && CountsFit(us[1..]))
  }

  predicate AllCountsFit(us: seq<UpdateEntity>) {
    us == [] || (CountsFit(us[0].components) && AllCountsFit(us[1..]))
  }

  lemma ListedWritten(schema: Schema, limits: CodecLimits, id: u32, u: UpdateComponent)
    requires ValidComponents(schema.components) && |u.fields| < 0x1_0000_0000
    requires ListedComponent(schema, limits, u) && EntryEncodable(schema, u)
    ensures EntryWritten(schema, limits, Entry(id, u))
  {
    hide FindDef, SelectedOk, IndicesIn, ValidCodecs, UniqueFields;
    FoundValid(schema.components, u.id);
    FieldsBounded(FindDef(schema.components, u.id).value);
  }

  lemma {:induction false} ComponentsWritten(schema: Schema, limits: CodecLimits, id: u32, us: seq<UpdateComponent>)
    requires ValidComponents(schema.components) && CountsFit(us)
    requires ListedComponents(schema, limits, us) && ComponentsEncodable(schema, us)
    ensures AllEntriesWritten(schema, limits, ComponentEntries(id, us))
  {
    hide ListedComponent, EntryEncodable, EntryWritten, ValidComponents;
    if us != [] {
      ListedWritten(schema, limits, id, us[0]);
      ComponentsWritten(schema, limits, id, us[1..]);
      assert ComponentEntries(id, us)[1..] == ComponentEntries(id, us[1..]);
    }
  }

  lemma {:induction false} AllWritten(schema: Schema, limits: CodecLimits, us: seq<UpdateEntity>)
    requires ValidComponents(schema.components) && AllCountsFit(us)
    requires AllListed(schema, limits, us) && AllUpdatesEncodable(schema, us)
    ensures AllEntriesWritten(schema, limits, Entries(us))
  {
    hide ListedComponents, ComponentsEncodable, ComponentEntries, ValidComponents, CountsFit;
    if us != [] {
      ComponentsWritten(schema, limits, us[0].id, us[0].components);
      AllWritten(schema, limits, us[1..]);
      WrittenConcat(schema, limits, ComponentEntries(us[0].id, us[0].components), Entries(us[1..]));
    }
  }

  /** The order that the list encoder does not check and the decoder insists on. */
  predicate ListsAscend(us: seq<UpdateEntity>) {
    AllFieldsAscend(Entries(us)) && AllAscend(us)
  }

  lemma EmptyAscends()
    ensures ListsAscend([]) && WithoutEmpty([]) == []
  {
  }

  lemma ListedUpdatesBack(schema: Schema, us: seq<UpdateEntity>, limits: CodecLimits, room: int)
    requires ValidSchema(schema) && AllCountsFit(us)
    requires SortedUpdates(us) && AllListed(schema, limits, us) && AllUpdatesEncodable(schema, us)
    requires |us| <= limits.maxEntitiesUpdate && |Entries(us)| <= EntryLimit(limits)
    requires SectionFits(UpdateSection(Sparse, schema, us), room, limits)
    ensures GetUpdates(Sparse, UpdateSection(Sparse, schema, us).body, schema, limits)
         == if ListsAscend(us) then Some(WithoutEmpty(us)) else None
  {
    AllWritten(schema, limits, us);
    SparseDecodes(Packed, schema, limits, us);
  }

  /** The created entities and the destroyed ids of lists that can be written come back. */
  lemma ListedIdsBack(schema: Schema, d: Delta, limits: CodecLimits, room: int)
    requires ValidSchema(schema) && ListsOk(schema, d, limits)
    requires PayloadFits(DeltaSections(schema, d, Sparse), room, limits)
    ensures d.destroys != [] ==> GetDestroys(DestroySection(d.destroys).body, limits) == Some(d.destroys)
    ensures d.creates != [] ==>
              GetCreates(CreateSection(schema, d.creates).body, schema, limits) == Some(NormalAll(schema, d.creates))
  {
    hide DestroySection, CreateSection, SectionFits, GetDestroys, GetCreates, NormalAll, PayloadFits;
    FitsEach(schema, d, Sparse, room, limits);
    if d.destroys != [] {
      var r :| SectionFits(DestroySection(d.destroys), r, limits);
      DestroySectionBack(d.destroys, limits, r);
    }
    if d.creates != [] {
      var r :| SectionFits(CreateSection(schema, d.creates), r, limits);
      CreateSectionBack(schema, d.creates, limits, r);
    }
  }

  /** The updates come back exactly when they ascend, without those that are empty. */
  lemma ListedBack(schema: Schema, d: Delta, limits: CodecLimits, room: int)
    requires ValidSchema(schema) && ListsOk(schema, d, limits) && AllCountsFit(d.updates)
    requires PayloadFits(DeltaSections(schema, d, Sparse), room, limits)
    ensures (if d.updates == [] then Some([])
             else GetUpdates(Sparse, UpdateSection(Sparse, schema, d.updates).body, schema, limits))
         == if ListsAscend(d.updates) then Some(WithoutEmpty(d.updates)) else None
  {
    hide UpdateSection, SectionFits, GetUpdates, ListsAscend, WithoutEmpty, PayloadFits;
    FitsEach(schema, d, Sparse, room, limits);
    if d.updates != [] {
      var r :| SectionFits(UpdateSection(Sparse, schema, d.updates), r, limits);
      ListedUpdatesBack(schema, d.updates, limits, r);
    } else {
      EmptyAscends();
    }
  }

  /**
   The change-list round trip. A packet encoded from lists is parsed exactly when its baseline
   tick is not zero and the wire limits allow it, and decodes exactly when component ids and
   field indices ascend, which the encoder does not check; created entities come back in schema
   order and entity updates without components are dropped.
   */
  lemma ListsRoundTrip(schema: Schema, hash: u64, tick: u32, baselineTick: u32, d: Delta, limits: CodecLimits,
                       wire: WireLimits, room: int)
    requires ValidSchema(schema) && ListsOk(schema, d, limits) && AllCountsFit(d.updates)
    requires PayloadFits(DeltaSections(schema, d, Sparse), room, limits)
    ensures var ss := DeltaSections(schema, d, Sparse);
            var p := GetPacket(DeltaPacket(hash, tick, baselineTick, ss), wire);
            && (p.Some? <==> baselineTick != 0 && WireAllows(ss, wire))
            && (p.Some? ==>
                  ReadDelta(schema, hash, p.value, limits)
                  == if ListsAscend(d.updates)
                     then Some(DeltaDecoded(tick, baselineTick,
                                            Received(schema, d).(updates := WithoutEmpty(d.updates))))
                     else None)
  {
    hide ListsOk, DeltaSections, GetDelta, PayloadFits, ListsAscend, WithoutEmpty, LengthsFit;
    DeltaFlags();
    FitsEach(schema, d, Sparse, room, limits);
    DeltaPacketBack(hash, tick, baselineTick, DeltaSections(schema, d, Sparse), wire);
    ListedIdsBack(schema, d, limits, room);
    ListedBack(schema, d, limits, room);
    DeltaBack(schema, limits, d, Sparse, if ListsAscend(d.updates) then Some(WithoutEmpty(d.updates)) else None);
  }

  // ---- Agreement with the scan ----

  /** The one limit that only the change-list path checks. */
  predicate CountsWithin(us: seq<UpdateEntity>, limits: CodecLimits) {
    us == [] || (|us[0].components| <= limits.maxComponentsPerEntity && CountsWithin(us[1..], limits))
  }

  lemma {:induction false} SelectedIn(fields: seq<FieldDef>, fs: seq<(nat, FieldValue)>)
    requires SelectedOk(fields, fs)
    ensures IndicesIn(|fields|, fs)
    decreases |fs|
  {
    hide Encodable;
    if fs != [] {
      SelectedIn(fields, fs[1..]);
    }
  }

  lemma {:induction false} OrderedListed(schema: Schema, limits: CodecLimits, defs: seq<ComponentDef>,
                                         us: seq<UpdateComponent>)
    requires AllFound(schema.components, defs) && UpdatesInOrder(defs, limits, us)
    ensures ListedComponents(schema, limits, us) && ComponentsEncodable(schema, us)
    decreases |defs|
  {
    hide FindDef, SelectedOk, IndicesIn, FieldsAscend;
    if defs != [] {
      if us != [] && us[0].id == defs[0].id {
        FieldCount(defs[0].fields, 0, us[0].fields);
        SelectedIn(defs[0].fields, us[0].fields);
        OrderedListed(schema, limits, defs[1..], us[1..]);
      } else {
        OrderedListed(schema, limits, defs[1..], us);
      }
    }
  }

  lemma {:induction false} AllOrderedListed(schema: Schema, limits: CodecLimits, us: seq<UpdateEntity>)
    requires UniqueIds(schema.components) && AllInSchemaOrder(schema, limits, us)
    ensures AllListed(schema, limits, us) <==> CountsWithin(us, limits)
    ensures AllUpdatesEncodable(schema, us)
  {
    hide UpdatesInOrder, ListedComponents, ComponentsEncodable, UniqueIds;
    if us != [] {
      UniqueAllFound(schema.components, 0);
      assert schema.components[0..] == schema.components;
      OrderedListed(schema, limits, schema.components, us[0].components);
      AllOrderedListed(schema, limits, us[1..]);
    }
  }

  lemma AcceptsDifference(schema: Schema, baseline: Snapshot, current: Snapshot, limits: CodecLimits)
    requires ValidSchema(schema) && ScanOk(schema, baseline.tick, baseline, current, limits, AlwaysSparse)
    ensures var d := Diff(schema, baseline.entities, current.entities);
            ListsOk(schema, d, limits) <==> CountsWithin(d.updates, limits)
  {
    ScanLists(schema, baseline.entities, current.entities, limits, Sparse);
    AllOrderedListed(schema, limits, Diff(schema, baseline.entities, current.entities).updates);
  }

  /**
   The two paths agree. `after1` and `r1` are what the scan in sparse mode leaves of a buffer,
   `after2` and `r2` what the change-list path leaves of one when it is given the exact
   difference. Whenever the scan succeeds, the change-list path succeeds too, unless some
   entity has more changed components than the limit it alone checks; and the bytes are equal.
   */
  lemma PathsAgree(schema: Schema, hash: u64, tick: u32, baseline: Snapshot, current: Snapshot, limits: CodecLimits,
                   before1: seq<byte>, after1: seq<byte>, r1: Option<nat>,
                   before2: seq<byte>, after2: seq<byte>, r2: Option<nat>, lo: nat, hi: nat)
    requires ValidSchema(schema) && lo <= hi <= |before1| && hi <= |before2|
    requires var ss := ScanSections(schema, baseline, current, AlwaysSparse);
             PacketPlaced(before1, after1, lo, hi, r1,
                          HEADER_SIZE <= hi - lo && ScanOk(schema, baseline.tick, baseline, current, limits,
                                                           AlwaysSparse)
                          && PayloadFits(ss, hi - lo - HEADER_SIZE, limits), DeltaPacket(hash, tick, baseline.tick, ss))
    requires var d := Diff(schema, baseline.entities, current.entities);
             var ss := DeltaSections(schema, d, Sparse);
             PacketPlaced(before2, after2, lo, hi, r2,
                          HEADER_SIZE <= hi - lo && ListsOk(schema, d, limits)
                            && PayloadFits(ss, hi - lo - HEADER_SIZE, limits),
                          DeltaPacket(hash, tick, baseline.tick, ss))
    ensures r1.Some? ==>
              (r2.Some? <==> CountsWithin(Diff(schema, baseline.entities, current.entities).updates, limits))
    ensures r1.Some? && r2.Some? ==> r1 == r2 && after1[lo..lo + r1.value] == after2[lo..lo + r1.value]
  {
    hide DeltaSections;
    if r1.Some? {
      AcceptsDifference(schema, baseline, current, limits);
    }
  }
}
