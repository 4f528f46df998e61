/** Concrete inputs on which a plausible guarantee fails. */
module Witnesses {
  import opened Core
  import opened Schemas
  import opened Bits
  import opened Bitstream
  import opened Fields
  import opened Diffs
  import opened Layouts
  import opened UpdateLayouts
  import opened Encodings
  import opened Payloads
  import opened Sections
  import opened Decoders
  import opened Walks
  import opened ChangeLists
  import opened RoundTrip
  import opened ListRoundTrip
  import opened Wire
  import opened Packets
  import Baselines
  import opened Sessions
  import opened Lockstep

  const FLAG := FieldDef(1, Bool, Always)

  function FlagUpdate(id: u16): UpdateComponent {
    UpdateComponent(id, [(0, VBool(true))])
  }

  /** Two components, the larger id first: `validate` has no objection. */
  const DESCENDING := Schema([ComponentDef(2, [FLAG]), ComponentDef(1, [FLAG])])

  function Flags(b: bool): EntitySnapshot {
    EntitySnapshot(7, [ComponentSnapshot(2, [VBool(b)]), ComponentSnapshot(1, [VBool(b)])])
  }

  const AMPLE := CodecLimits(10, 10, 10, 10, 10, 1000, 10)

  lemma FlagChange(defs: seq<ComponentDef>, id: u16)
    requires id == 1 || id == 2
    ensures DiffFields(ComponentDef(id, [FLAG]), Flags(false), Flags(true)) == [(0, VBool(true))]
  {
    var d := ComponentDef(id, [FLAG]);
    assert FindComponent(Flags(false).components[1..], 1) == Some(ComponentSnapshot(1, [VBool(false)]));
    assert FindComponent(Flags(true).components[1..], 1) == Some(ComponentSnapshot(1, [VBool(true)]));
    var mask := FieldMask(d.fields, [VBool(false)], [VBool(true)]);
    assert Selected(mask, [VBool(true)], 1) == [];
  }

  lemma BothFlagsChange()
    ensures DiffComponents(DESCENDING.components, Flags(false), Flags(true))
         == [FlagUpdate(2), FlagUpdate(1)]
  {
    hide DiffFields;
    var defs := DESCENDING.components;
    FlagChange(defs, 1);
    FlagChange(defs, 2);
    assert defs[1..] == [ComponentDef(1, [FLAG])];
    assert DiffComponents(defs[1..][1..], Flags(false), Flags(true)) == [];
  }

  lemma FlagComparable(id: u16)
    requires id == 1 || id == 2
    ensures ComponentComparable(ComponentDef(id, [FLAG]), AMPLE, FindComponent(Flags(false).components, id),
                                FindComponent(Flags(true).components, id))
    ensures SelectedOk([FLAG], [(0, VBool(true))])
    ensures Flags(false).id == Flags(true).id == 7
  {
    assert FindComponent(Flags(false).components[1..], 1) == Some(ComponentSnapshot(1, [VBool(false)]));
    assert FindComponent(Flags(true).components[1..], 1) == Some(ComponentSnapshot(1, [VBool(true)]));
    assert [(0, VBool(true))][1..] == [];
  }

  lemma FlagsComparable()
    ensures Comparable(DESCENDING.components, AMPLE, Flags(false), Flags(true))
    ensures DiffEncodable(DESCENDING.components, Flags(false), Flags(true))
  {
    hide DiffFields, ComponentComparable, Flags, SelectedOk, FindComponent;
    var defs := DESCENDING.components;
    FlagChange(defs, 1);
    FlagChange(defs, 2);
    FlagComparable(1);
    FlagComparable(2);
    assert defs[0] == ComponentDef(2, [FLAG]);
    assert defs[1..] == [ComponentDef(1, [FLAG])] && defs[1..][1..] == [];
    assert Comparable(defs[1..][1..], AMPLE, Flags(false), Flags(true))
      && DiffEncodable(defs[1..][1..], Flags(false), Flags(true));
    assert Comparable(defs[1..], AMPLE, Flags(false), Flags(true))
      && DiffEncodable(defs[1..], Flags(false), Flags(true));
  }

  lemma FlagsDiff()
    ensures var base, curr := [Flags(false)], [Flags(true)];
            && Sorted(base) && Sorted(curr)
            && Missing(base, curr) == [] && Missing(curr, base) == []
            && Common(base, curr) == [(Flags(false), Flags(true))]
  {
    hide Flags;
    FlagComparable(1);
    var base, curr := [Flags(false)], [Flags(true)];
    assert base[1..] == [] && curr[1..] == [];
    assert Missing(base[1..], curr) == [] && Missing(curr[1..], base) == [] && Common(base[1..], curr) == [];
    assert EntityMap(curr)[7] == Flags(true) && EntityMap(base)[7] == Flags(false);
  }

  // ---- Small sections fit ----

  lemma SmallVar(s: Bits, v: nat)
    requires v < 128
    ensures |PutVar(s, v)| == |s| + 8
  {
    assert VarBytes(v) == [v];
  }

  predicate OnlyFlags(d: ComponentDef) {
    |d.fields| <= 2 && forall f :: f in d.fields ==> f.codec == Bool
  }

  lemma {:induction false} IndexedLength(s: Bits, d: ComponentDef, fs: seq<(nat, FieldValue)>)
    requires OnlyFlags(d)
    ensures |PutIndexed(Packed, s, d, fs)| <= |s| + 2 * |fs|
    decreases |fs|
  {
    if fs != [] && fs[0].0 < |d.fields| {
      assert d.fields[fs[0].0].codec == Bool;
      assert IndexBits(d) <= 1 by { assert RequiredBits(0) == 0 && RequiredBits(1) == 1; }
      IndexedLength(PutField(PutIndex(Packed, s, d, fs[0].0), Bool, fs[0].1), d, fs[1..]);
    }
  }

  /** An entry for a component of flags, with small ids and few fields. */
  predicate Small(schema: Schema, e: Entry) {
    && e.entity < 128 && e.update.id < 128 && |e.update.fields| <= 2
    && match FindDef(schema.components, e.update.id)
       case None => false
       case Some(d) => OnlyFlags(d)
  }

  lemma EntryLength(s: Bits, schema: Schema, e: Entry)
    requires Small(schema, e)
    ensures |PutEntry(Packed, s, FindDef(schema.components, e.update.id).value, e)| <= |s| + 35
  {
    hide PutVar, PutIndexed, FindDef;
    var d := FindDef(schema.components, e.update.id).value;
    var start := PutAlign(s);
    SmallVar(start, e.entity);
    SmallVar(PutVar(start, e.entity), d.id);
    SmallVar(PutVar(PutVar(start, e.entity), d.id), |e.update.fields|);
    IndexedLength(PutEntryHead(Packed, s, e.entity, d.id, |e.update.fields|), d, e.update.fields);
  }

  lemma {:induction false} EntriesLength(s: Bits, schema: Schema, es: seq<Entry>)
    requires forall e :: e in es ==> Small(schema, e)
    ensures |PutEntries(Packed, s, schema, es)| <= |s| + 35 * |es|
    decreases |es|
  {
    hide PutEntry;
    if es != [] {
      EntryLength(s, schema, es[0]);
      EntriesLength(PutEntry(Packed, s, FindDef(schema.components, es[0].update.id).value, es[0]), schema, es[1..]);
    }
  }

  /** A sparse section with no more than two small entries fits a buffer of a hundred bytes. */
  lemma SmallFits(schema: Schema, us: seq<UpdateEntity>)
    requires |Entries(us)| <= 2 && forall e :: e in Entries(us) ==> Small(schema, e)
    ensures SectionFits(UpdateSection(Sparse, schema, us), 100, AMPLE)
  {
    hide Entries, PutEntries, PutVar;
    var n := |Entries(us)|;
    SmallVar([], n);
    assert PutAlign([]) == [];
    EntriesLength(PutHead(n), schema, Entries(us));
  }

  // ---- The scan ----

  /**
   A delta that a sparse encoder writes without complaint, into any buffer of a hundred bytes, and
   that no receiver can decode.
   */
  lemma DescendingSchemaBreaksSparse()
    ensures var baseline, current := Snapshot(1, [Flags(false)]), Snapshot(2, [Flags(true)]);
            var ss := ScanSections(DESCENDING, baseline, current, AlwaysSparse);
            && ValidSchema(DESCENDING)
            && ScanOk(DESCENDING, 1, baseline, current, AMPLE, AlwaysSparse)
            && PayloadFits(ss, 100, AMPLE)
            && GetDelta(ss, DESCENDING, AMPLE) == None
  {
    hide DiffFields, Comparable, UpdateSection, GetDelta;
    var base, curr := [Flags(false)], [Flags(true)];
    BothFlagsChange();
    FlagsComparable();
    FlagComparable(1);
    FlagsDiff();
    var us := DiffComponents(DESCENDING.components, Flags(false), Flags(true));
    OnePair(DESCENDING, AMPLE, Flags(false), Flags(true));
    var d := Diff(DESCENDING, base, curr);
    assert d == Delta([], [], [UpdateEntity(7, us)]);
    OneUpdate(7, us);
    assert us[1..][0].id < us[0].id;
    FlagsSmall(7);
    SmallFits(DESCENDING, d.updates);
    var baseline, current := Snapshot(1, base), Snapshot(2, curr);
    var ss := ScanSections(DESCENDING, baseline, current, AlwaysSparse);
    assert ss == [UpdateSection(Sparse, DESCENDING, d.updates)] && ss[1..] == [];
    ScanBack(DESCENDING, baseline, current, AMPLE, AlwaysSparse, 100);
  }

  lemma FlagsSmall(id: u32)
    requires id < 128
    ensures Entries([UpdateEntity(id, [FlagUpdate(2), FlagUpdate(1)])])
         == [Entry(id, FlagUpdate(2)), Entry(id, FlagUpdate(1))]
    ensures forall e :: e in [Entry(id, FlagUpdate(2)), Entry(id, FlagUpdate(1))] ==> Small(DESCENDING, e)
  {
    var us := [FlagUpdate(2), FlagUpdate(1)];
    OneUpdate(id, us);
    assert us[1..] == [FlagUpdate(1)] && us[1..][1..] == [];
    assert FindDef(DESCENDING.components, 2) == Some(ComponentDef(2, [FLAG]));
    assert FindDef(DESCENDING.components[1..], 1) == Some(ComponentDef(1, [FLAG]));
  }

  const STARTED := Peer(1, [Baselines.Entry(1, Snapshot(1, [Flags(false)]))])
  const STRICT := Config(DESCENDING, 0, AMPLE, WireLimits(1000, 10, 1000), 4, 100)

  lemma StartedLatest()
    ensures Baselines.LatestUpTo(STARTED.ring, 1) == Some(Baselines.Entry(1, Snapshot(1, [Flags(false)])))
  {
    hide Flags;
  }

  /** In a session with that schema the server sends its next snapshot and keeps it, and the client cannot take it. */
  lemma DescendingSchemaStopsSession()
    ensures var ev := Event(Snapshot(2, [Flags(true)]), 1);
            var sent := Send(STRICT, STARTED, ev);
            && sent.Some? && sent.value.server.lastTick == 2
            && !Deliverable(STRICT, STARTED, ev)
            && Receive(STRICT, STARTED, sent.value.bytes) == None
  {
    hide ScanOk, ScanSections, GetDelta, ReadSession, SessionPacket, Diff, Decodable, SessionAllows,
      Baselines.Inserted, Baselines.LatestUpTo, Baselines.Lookup, ReadDelta, ValidComponents, UniqueIds;
    var baseline, current := Snapshot(1, [Flags(false)]), Snapshot(2, [Flags(true)]);
    DescendingSchemaBreaksSparse();
    StartedLatest();
    ScanBack(DESCENDING, baseline, current, AMPLE, AlwaysSparse, 100);
    PacketArrives(STRICT, 1, baseline, current);
  }

  lemma OnePair(schema: Schema, limits: CodecLimits, x: EntitySnapshot, y: EntitySnapshot)
    requires Comparable(schema.components, limits, x, y) && DiffEncodable(schema.components, x, y)
    requires DiffComponents(schema.components, x, y) != []
    ensures AllComparable(schema, limits, [(x, y)]) && ChangesEncodable(schema, [(x, y)])
    ensures DiffPairs(schema, [(x, y)]) == [UpdateEntity(y.id, DiffComponents(schema.components, x, y))]
    ensures AllCreateOk(schema, limits, [])
  {
    hide Comparable, DiffEncodable, DiffComponents;
    assert [(x, y)][1..] == [];
    assert DiffPairs(schema, []) == [];
  }

  lemma OneUpdate(id: u32, us: seq<UpdateComponent>)
    ensures Entries([UpdateEntity(id, us)]) == ComponentEntries(id, us)
    ensures AllAscend([UpdateEntity(id, us)]) <==> ComponentsAscend(us, 0)
  {
    var one := [UpdateEntity(id, us)];
    assert one[1..] == [] && Entries(one[1..]) == [] && AllAscend(one[1..]);
  }

  // ---- Change lists ----

  /** Components in ascending order, the first with two flags. */
  const ASCENDING := Schema([ComponentDef(1, [FLAG, FieldDef(2, Bool, Always)]), ComponentDef(2, [FLAG])])

  const SWAPPED_COMPONENTS := UpdateEntity(7, [FlagUpdate(2), FlagUpdate(1)])
  const SWAPPED_FIELDS := UpdateEntity(7, [UpdateComponent(1, [(1, VBool(true)), (0, VBool(true))])])
  const NO_COMPONENTS := UpdateEntity(7, [])

  /** A component update that the list encoder accepts. */
  predicate Accepted(u: UpdateComponent) {
    ListedComponent(ASCENDING, AMPLE, u) && EntryEncodable(ASCENDING, u) && Small(ASCENDING, Entry(7, u))
  }

  lemma {:induction false} AllAccepted(us: seq<UpdateComponent>)
    requires forall u :: u in us ==> Accepted(u)
    ensures ListedComponents(ASCENDING, AMPLE, us) && ComponentsEncodable(ASCENDING, us) && CountsFit(us)
    ensures forall e :: e in ComponentEntries(7, us) ==> Small(ASCENDING, e)
  {
    hide ListedComponent, EntryEncodable, FindDef;
    if us != [] {
      assert Accepted(us[0]);
      AllAccepted(us[1..]);
    }
  }

  /** A list with one small entity update: accepted, it fits a small buffer, and decodes when ids and indices ascend. */
  lemma OneListed(u: UpdateEntity)
    requires u.id == 7 && |u.components| <= 2 && forall c :: c in u.components ==> Accepted(c)
    ensures var section := UpdateSection(Sparse, ASCENDING, [u]);
            && ListsOk(ASCENDING, Delta([], [], [u]), AMPLE)
            && SectionFits(section, 100, AMPLE)
            && GetUpdates(Sparse, section.body, ASCENDING, AMPLE)
               == if ListsAscend([u]) then Some(WithoutEmpty([u])) else None
  {
    hide UpdateSection, GetUpdates;
    AllAccepted(u.components);
    OneUpdate(7, u.components);
    OneList(u);
    SmallFits(ASCENDING, [u]);
    ListedUpdatesBack(ASCENDING, [u], AMPLE, 100);
  }

  lemma OneList(u: UpdateEntity)
    requires ListedEntity(ASCENDING, AMPLE, u) && ComponentsEncodable(ASCENDING, u.components)
    requires CountsFit(u.components)
    ensures AllListed(ASCENDING, AMPLE, [u]) && AllUpdatesEncodable(ASCENDING, [u]) && AllCountsFit([u])
    ensures AllCreateOk(ASCENDING, AMPLE, [])
  {
    assert [u][1..] == [];
  }

  lemma AscendingDefs()
    ensures FindDef(ASCENDING.components, 1) == Some(ASCENDING.components[0])
    ensures FindDef(ASCENDING.components, 2) == Some(ComponentDef(2, [FLAG]))
  {
    assert FindDef(ASCENDING.components[1..], 2) == Some(ComponentDef(2, [FLAG]));
  }

  /** Component ids out of order: the list encoder writes them, and no receiver can decode them. */
  lemma SwappedComponentsLost()
    ensures var section := UpdateSection(Sparse, ASCENDING, [SWAPPED_COMPONENTS]);
            && ListsOk(ASCENDING, Delta([], [], [SWAPPED_COMPONENTS]), AMPLE)
            && SectionFits(section, 100, AMPLE)
            && GetUpdates(Sparse, section.body, ASCENDING, AMPLE) == None
  {
    hide FindDef, ListsOk, SectionFits, GetUpdates, UpdateSection;
    var us := SWAPPED_COMPONENTS.components;
    AscendingDefs();
    OneUpdate(7, us);
    assert Accepted(FlagUpdate(1)) && Accepted(FlagUpdate(2));
    assert us[1..][0].id < us[0].id;
    OneListed(SWAPPED_COMPONENTS);
  }

  /** Field indices out of order: the same. */
  lemma SwappedFieldsLost()
    ensures var section := UpdateSection(Sparse, ASCENDING, [SWAPPED_FIELDS]);
            && ListsOk(ASCENDING, Delta([], [], [SWAPPED_FIELDS]), AMPLE)
            && SectionFits(section, 100, AMPLE)
            && GetUpdates(Sparse, section.body, ASCENDING, AMPLE) == None
  {
    hide FindDef, ListsOk, SectionFits, GetUpdates, UpdateSection;
    var us := SWAPPED_FIELDS.components;
    var fs: seq<(nat, FieldValue)> := us[0].fields;
    AscendingDefs();
    OneUpdate(7, us);
    assert |us| == 1 && |fs[1..]| == 1 && |fs[1..][1..]| == 0;
    assert Accepted(us[0]);
    assert !FieldsAscend(fs, 0) && ComponentEntries(7, us)[0].update == us[0];
    OneListed(SWAPPED_FIELDS);
  }

  /** An entity update without components: the list encoder writes it, and the receiver sees no update. */
  lemma EmptyUpdateLost()
    ensures var section := UpdateSection(Sparse, ASCENDING, [NO_COMPONENTS]);
            && ListsOk(ASCENDING, Delta([], [], [NO_COMPONENTS]), AMPLE)
            && SectionFits(section, 100, AMPLE)
            && GetUpdates(Sparse, section.body, ASCENDING, AMPLE) == Some([])
  {
    hide ListsOk, SectionFits, GetUpdates, UpdateSection;
    OneUpdate(7, []);
    assert [NO_COMPONENTS][1..] == [];
    OneListed(NO_COMPONENTS);
    EmptyAscends();
  }
}
