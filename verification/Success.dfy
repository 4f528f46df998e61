/** When a server can send: what its snapshots must be like, and how much room is enough. */
module Success {
  import opened Core
  import opened Bits
  import opened Bitstream
  import opened Numerals
  import opened Schemas
  import opened Fields
  import opened FieldBits
  import opened Diffs
  import opened Layouts
  import opened UpdateLayouts
  import opened Encodings
  import opened Wire
  import opened WireBytes
  import opened Sections
  import opened Payloads
  import opened RoundTrip
  import opened Demands
  import opened Sessions
  import Baselines
  import opened Lockstep

  // ---- Fields ----

  lemma AlignAtMost(s: Bits)
    ensures |PutAlign(s)| <= |s| + 7
  {
  }

  lemma VarAtMost(s: Bits, v: u32)
    ensures |PutVar(s, v)| <= |s| + 40
  {
    VarintMax(v);
  }

  /** No field takes more than 64 bits, alignment included. */
  lemma FieldAtMost(s: Bits, c: FieldCodec, v: FieldValue)
    requires Encodable(c, v)
    ensures |PutField(s, c, v)| <= |s| + 64
  {
    hide PutAlign, PutVar, PutBits, Pow2, RequiredBits;
    match c
    case VarUInt =>
      AlignAtMost(s);
      VarAtMost(PutAlign(s), v.vu);
    case VarSInt =>
      AlignAtMost(s);
      VarAtMost(PutAlign(s), ZigZag(v.vi));
    case FixedPoint(lo, hi, _) => FixedWidthBound(lo, hi);
    case _ =>
  }

  lemma {:induction false} ValuesAtMost(s: Bits, fields: seq<FieldDef>, values: seq<FieldValue>)
    requires AllEncodable(fields, values)
    ensures |PutValues(s, fields, values)| <= |s| + 64 * |fields|
    decreases |fields|
  {
    hide PutField, Encodable;
    if fields != [] {
      FieldAtMost(s, fields[0].codec, values[0]);
      ValuesAtMost(PutField(s, fields[0].codec, values[0]), fields[1..], values[1..]);
    }
  }

  // ---- Created entities ----

  function FieldTotal(defs: seq<ComponentDef>): nat {
    if defs == [] then 0 else |defs[0].fields| + FieldTotal(defs[1..])
  }

  lemma {:induction false} FullsAtMost(s: Bits, defs: seq<ComponentDef>, limits: CodecLimits,
                                       cs: seq<ComponentSnapshot>)
    requires FullsOk(defs, limits, cs)
    ensures |PutFulls(s, defs, cs)| <= |s| + 65 * FieldTotal(defs)
    decreases |defs|
  {
    hide PutValues, AllEncodable, FindComponent;
    if defs != [] {
      match FindComponent(cs, defs[0].id)
      case None => FullsAtMost(s, defs[1..], limits, cs);
      case Some(c) =>
        ValuesAtMost(s + Ones(|defs[0].fields|), defs[0].fields, c.fields);
        FullsAtMost(PutFull(s, defs[0], c), defs[1..], limits, cs);
    }
  }

  /** Bytes enough for one entity, created or updated, in any state. */
  function EntityRoom(schema: Schema): nat {
    14 * |schema.components| + 10 * FieldTotal(schema.components) + 5
  }

  lemma CreateAtMost(s: Bits, schema: Schema, limits: CodecLimits, e: EntitySnapshot)
    requires CreateOk(schema, limits, e)
    ensures |PutCreate(s, schema, e)| <= |s| + 8 * EntityRoom(schema)
  {
    hide PutFulls, FullsOk, AllKnown, PutAlign;
    AlignAtMost(s);
    FullsAtMost(PutId(s, e.id) + Presence(schema.components, e.components), schema.components, limits, e.components);
  }

  lemma {:induction false} CreatesAtMost(s: Bits, schema: Schema, limits: CodecLimits, es: seq<EntitySnapshot>)
    requires AllCreateOk(schema, limits, es)
    ensures |PutCreateList(s, schema, es)| <= |s| + 8 * (EntityRoom(schema) * |es|)
    decreases |es|
  {
    hide CreateOk, PutCreate, EntityRoom;
    if es != [] {
      CreateAtMost(s, schema, limits, es[0]);
      CreatesAtMost(PutCreate(s, schema, es[0]), schema, limits, es[1..]);
      assert EntityRoom(schema) * |es| == EntityRoom(schema) + EntityRoom(schema) * |es[1..]|;
    }
  }

  lemma HeadAtMost(n: nat)
    ensures |PutHead(n)| <= 40
  {
    VarAtMost(PutAlign([]), AsU32(n));
  }

  lemma CreateBodyAtMost(schema: Schema, limits: CodecLimits, es: seq<EntitySnapshot>)
    requires AllCreateOk(schema, limits, es)
    ensures |CreateSection(schema, es).body| <= 6 + EntityRoom(schema) * |es|
  {
    hide PutAlign, PutHead, PutCreateList, EntityRoom, Pack;
    HeadAtMost(|es|);
    CreatesAtMost(PutHead(|es|), schema, limits, es);
    AlignAtMost(PutCreateList(PutHead(|es|), schema, es));
  }

  lemma {:induction false} IdsAtMost(s: Bits, ids: seq<u32>)
    requires |s| % 8 == 0
    ensures |PutIds(s, ids)| == |s| + 32 * |ids|
    decreases |ids|
  {
    if ids != [] {
      IdsAtMost(PutId(s, ids[0]), ids[1..]);
    }
  }

  lemma DestroyBodyAtMost(ids: seq<u32>)
    ensures |DestroySection(ids).body| <= 6 + 4 * |ids|
  {
    hide PutAlign, PutHead, PutIds, Pack;
    HeadAtMost(|ids|);
    IdsAtMost(PutHead(|ids|), ids);
    AlignAtMost(PutIds(PutHead(|ids|), ids));
  }

  // ---- Sparse entries ----

  lemma {:induction false} IndexedAtMost(s: Bits, d: ComponentDef, fs: seq<(nat, FieldValue)>)
    requires SelectedOk(d.fields, fs) && |d.fields| <= 0x1_0000
    ensures |PutIndexed(Packed, s, d, fs)| <= |s| + 80 * |fs|
    decreases |fs|
  {
    hide PutField, Encodable;
    if fs != [] {
      var indexed := PutIndex(Packed, s, d, fs[0].0);
      IndexNarrow(d);
      FieldAtMost(indexed, d.fields[fs[0].0].codec, fs[0].1);
      IndexedAtMost(PutField(indexed, d.fields[fs[0].0].codec, fs[0].1), d, fs[1..]);
    }
  }

  lemma IndexNarrow(d: ComponentDef)
    requires |d.fields| <= 0x1_0000
    ensures IndexBits(d) <= 16
  {
    RequiredBitsLeast(LastIndex(d), 16);
    Pow2Add(8, 8);
    Pow2Values();
  }

  lemma EntryAtMost(s: Bits, schema: Schema, limits: CodecLimits, e: Entry)
    requires EntryWritten(schema, limits, e)
    ensures |PutEntry(Packed, s, FindDef(schema.components, e.update.id).value, e)|
         <= |s| + 112 + 80 * |e.update.fields|
  {
    hide PutAlign, PutVar, PutIndexed, FindDef, SelectedOk;
    var d := FindDef(schema.components, e.update.id).value;
    var start := PutAlign(s);
    AlignAtMost(s);
    VarAtMost(start, e.entity);
    VarShort(PutVar(start, e.entity), d.id);
    VarAtMost(PutVar(PutVar(start, e.entity), d.id), AsU32(|e.update.fields|));
    IndexedAtMost(PutEntryHead(Packed, s, e.entity, d.id, |e.update.fields|), d, e.update.fields);
  }

  lemma VarShort(s: Bits, v: u16)
    ensures |PutVar(s, v)| <= |s| + 24
  {
    VarintLength(v, 3);
    Pow2Add(16, 5);
    Pow2Add(8, 8);
    Pow2Values();
    assert Pow2(21) >= 0x1_0000 by { Pow2Mono(16, 21); }
  }

  /** The bits that entries are charged for. */
  function Charge(es: seq<Entry>): nat {
    if es == [] then 0 else 112 + 80 * |es[0].update.fields| + Charge(es[1..])
  }

  lemma {:induction false} EntriesAtMost(s: Bits, schema: Schema, limits: CodecLimits, es: seq<Entry>)
    requires AllEntriesWritten(schema, limits, es)
    ensures |PutEntries(Packed, s, schema, es)| <= |s| + Charge(es)
    decreases |es|
  {
    hide EntryWritten, PutEntry, FindDef;
    if es != [] && FindDef(schema.components, es[0].update.id).Some? {
      EntryAtMost(s, schema, limits, es[0]);
      var d := FindDef(schema.components, es[0].update.id).value;
      EntriesAtMost(PutEntry(Packed, s, d, es[0]), schema, limits, es[1..]);
    }
  }

  lemma {:induction false} ChargeConcat(a: seq<Entry>, b: seq<Entry>)
    ensures Charge(a + b) == Charge(a) + Charge(b)
  {
    if a == [] {
      assert a + b == b;
    } else {
      assert (a + b)[1..] == a[1..] + b;
      ChargeConcat(a[1..], b);
    }
  }

  lemma {:induction false} ComponentsCharged(defs: seq<ComponentDef>, limits: CodecLimits, us: seq<UpdateComponent>,
                                             id: u32)
    requires UpdatesInOrder(defs, limits, us)
    ensures Charge(ComponentEntries(id, us)) <= 112 * |defs| + 80 * FieldTotal(defs)
    decreases |defs|
  {
    hide SelectedOk, FieldsAscend;
    if defs != [] {
      if us != [] && us[0].id == defs[0].id {
        ComponentsCharged(defs[1..], limits, us[1..], id);
        FieldCount(defs[0].fields, 0, us[0].fields);
        assert ComponentEntries(id, us)[1..] == ComponentEntries(id, us[1..]);
      } else {
        ComponentsCharged(defs[1..], limits, us, id);
      }
    }
  }

  lemma RoomCovers(schema: Schema)
    ensures 112 * |schema.components| + 80 * FieldTotal(schema.components) <= 8 * EntityRoom(schema)
  {
  }

  lemma {:induction false} UpdatesCharged(schema: Schema, limits: CodecLimits, us: seq<UpdateEntity>)
    requires AllInSchemaOrder(schema, limits, us)
    ensures Charge(Entries(us)) <= 8 * (EntityRoom(schema) * |us|)
    decreases |us|
  {
    hide UpdatesInOrder, ComponentEntries, Charge, EntityRoom, FieldTotal;
    if us == [] {
      NoCharge();
    } else {
      RoomCovers(schema);
      ComponentsCharged(schema.components, limits, us[0].components, us[0].id);
      UpdatesCharged(schema, limits, us[1..]);
      ChargeConcat(ComponentEntries(us[0].id, us[0].components), Entries(us[1..]));
      assert EntityRoom(schema) * |us| == EntityRoom(schema) + EntityRoom(schema) * |us[1..]|;
    }
  }

  lemma NoCharge()
    ensures Charge([]) == 0
  {
  }

  lemma UpdateBodyAtMost(schema: Schema, limits: CodecLimits, us: seq<UpdateEntity>)
    requires ValidSchema(schema) && AllInSchemaOrder(schema, limits, us)
    ensures |UpdateSection(Sparse, schema, us).body| <= 6 + EntityRoom(schema) * |us|
  {
    hide PutAlign, PutHead, PutEntries, EntityRoom, Pack, Entries, Charge, AllInSchemaOrder, AllEntriesWritten,
      ValidComponents, UniqueIds;
    var es := Entries(us);
    InOrderEntriesWritten(schema, limits, us);
    UpdatesCharged(schema, limits, us);
    HeadAtMost(|es|);
    EntriesAtMost(PutHead(|es|), schema, limits, es);
    AlignAtMost(PutEntries(Packed, PutHead(|es|), schema, es));
  }

  // ---- Room for the whole payload ----

  /** Room for all sections: their bodies and the bytes reserved for each head. */
  function RoomOf(ss: seq<Section>): nat {
    if ss == [] then 0 else |ss[0].body| + 6 + RoomOf(ss[1..])
  }

  lemma {:induction false} FitsWithRoom(ss: seq<Section>, room: int, limits: CodecLimits)
    requires RoomOf(ss) <= room && room < 0x1_0000_0000
    requires forall s :: s in ss ==> |s.body| <= limits.maxSectionBytes
    ensures PayloadFits(ss, room, limits)
    decreases |ss|
  {
    hide VarBytes;
    if ss != [] {
      VarintMax(|ss[0].body|);
      assert ss == [ss[0]] + ss[1..];
      FitsWithRoom(ss[1..], room - |SectionBytes(ss[0])|, limits);
    }
  }

  lemma RoomOfThree(a: seq<Section>, b: seq<Section>, c: seq<Section>)
    requires |a| <= 1 && |b| <= 1 && |c| <= 1
    ensures RoomOf(a + b + c) == RoomOf(a) + RoomOf(b) + RoomOf(c)
  {
    RoomConcat(a + b, c);
    RoomConcat(a, b);
  }

  lemma {:induction false} RoomConcat(a: seq<Section>, b: seq<Section>)
    ensures RoomOf(a + b) == RoomOf(a) + RoomOf(b)
  {
    if a == [] {
      assert a + b == b;
    } else {
      assert (a + b)[1..] == a[1..] + b;
      RoomConcat(a[1..], b);
    }
  }

  /** Bytes that are enough for a delta with so many destroyed entities, and so many created and updated ones. */
  function RoomFor(schema: Schema, destroys: nat, others: nat): nat {
    36 + 4 * destroys + EntityRoom(schema) * others
  }

  lemma OneRoom(s: Section)
    ensures RoomOf([s]) == |s.body| + 6 && RoomOf([]) == 0
  {
    assert [s][1..] == [];
  }

  lemma DeltaFits(schema: Schema, d: Delta, limits: CodecLimits, room: nat)
    requires ValidSchema(schema) && AllCreateOk(schema, limits, d.creates)
             && AllInSchemaOrder(schema, limits, d.updates)
    requires RoomFor(schema, |d.destroys|, |d.creates| + |d.updates|) <= room < 0x1_0000_0000
    requires room <= limits.maxSectionBytes
    ensures PayloadFits(DeltaSections(schema, d, Sparse), room, limits)
  {
    hide EntityRoom, DestroySection, CreateSection, UpdateSection, RoomOf, AllCreateOk, AllInSchemaOrder,
      ValidComponents,
      UniqueIds, PayloadFits;
    var A, B, C := DestroySections(d), CreateSections(schema, d), UpdateSections(schema, d, Sparse);
    var k := EntityRoom(schema);
    DestroyBodyAtMost(d.destroys);
    CreateBodyAtMost(schema, limits, d.creates);
    UpdateBodyAtMost(schema, limits, d.updates);
    assert k * (|d.creates| + |d.updates|) == k * |d.creates| + k * |d.updates|;
    OneRoom(DestroySection(d.destroys));
    OneRoom(CreateSection(schema, d.creates));
    OneRoom(UpdateSection(Sparse, schema, d.updates));
    RoomOfThree(A, B, C);
    FitsWithRoom(A + B + C, room, limits);
  }

  // ---- Sending ----

  /**
   A server sends exactly when it has a baseline, the tick is new, the snapshots meet the demands,
   and the payload fits.
   */
  lemma SendIff(c: Config, server: Peer, ev: Event)
    ensures Send(c, server, ev).Some? <==>
            && Baselines.LatestUpTo(server.ring, ev.ack).Some?
            && var best := Baselines.LatestUpTo(server.ring, ev.ack).value;
               server.lastTick < ev.current.tick && best.tick <= ev.current.tick
               && Scannable(c.schema, best.tick, best.value, ev.current, c.limits, true)
               && PayloadFits(ScanSections(c.schema, best.value, ev.current, AlwaysSparse), c.room, c.limits)
  {
    hide ScanOk, Scannable, ScanSections, PayloadFits, Baselines.LatestUpTo, Baselines.Inserted, SessionPacket;
    var best := Baselines.LatestUpTo(server.ring, ev.ack);
    if best.Some? {
      ScanIff(c.schema, best.value.tick, best.value.value, ev.current, c.limits, AlwaysSparse);
    }
  }

  /**
   Sending succeeds. With a baseline, a new tick, entities that can be created or compared and are
   in range, counts within the limits, and room in the buffer and in the section limit for as many
   bytes as there can be, the server sends.
   */
  lemma SendSucceeds(c: Config, server: Peer, ev: Event)
    requires ValidSchema(c.schema) && Baselines.LatestUpTo(server.ring, ev.ack).Some?
    requires var best := Baselines.LatestUpTo(server.ring, ev.ack).value;
             && server.lastTick < ev.current.tick && best.tick <= ev.current.tick
             && Scannable(c.schema, best.tick, best.value, ev.current, c.limits, true)
             && var d := Diff(c.schema, best.value.entities, ev.current.entities);
                RoomFor(c.schema, |d.destroys|, |d.creates| + |d.updates|) <= c.room < 0x1_0000_0000
    requires c.room <= c.limits.maxSectionBytes
    ensures Send(c, server, ev).Some?
  {
    hide Scannable, PayloadFits, Baselines.LatestUpTo, RoomFor, Diff, ValidComponents, UniqueIds, Send, ScanSections;
    var best := Baselines.LatestUpTo(server.ring, ev.ack).value;
    SendIff(c, server, ev);
    ScanFits(c.schema, best.tick, best.value, ev.current, c.limits, c.room);
  }

  lemma ScanFits(schema: Schema, tick: u32, baseline: Snapshot, current: Snapshot, limits: CodecLimits, room: nat)
    requires ValidSchema(schema) && Scannable(schema, tick, baseline, current, limits, true)
    requires var d := Diff(schema, baseline.entities, current.entities);
             RoomFor(schema, |d.destroys|, |d.creates| + |d.updates|) <= room < 0x1_0000_0000
    requires room <= limits.maxSectionBytes
    ensures PayloadFits(ScanSections(schema, baseline, current, AlwaysSparse), room, limits)
  {
    hide Scannable, ScanOk, PayloadFits, RoomFor, Diff, ValidComponents, UniqueIds, AllInSchemaOrder, AllCreateOk,
      DeltaSections, UpdatesOk, Sorted, SortedIds, SortedUpdates, NoneEmpty;
    ScanIff(schema, tick, baseline, current, limits, AlwaysSparse);
    ScanMeans(schema, tick, baseline, current, limits);
    ScanLists(schema, baseline.entities, current.entities, limits, Sparse);
    DeltaFits(schema, Diff(schema, baseline.entities, current.entities), limits, room);
  }

  lemma ScanMeans(schema: Schema, tick: u32, baseline: Snapshot, current: Snapshot, limits: CodecLimits)
    requires ScanOk(schema, tick, baseline, current, limits, AlwaysSparse)
    ensures Sorted(baseline.entities) && Sorted(current.entities)
    ensures UpdatesOk(schema, baseline.entities, current.entities, limits, Sparse)
    ensures AllCreateOk(schema, limits, Diff(schema, baseline.entities, current.entities).creates)
  {
    hide AllComparable, AllCreateOk, ChangesEncodable, EntriesWithin, Diff, Sorted;
  }
}
