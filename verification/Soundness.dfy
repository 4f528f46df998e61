/** Whatever bytes arrive: what the decoders accept is well formed, and so is what applying it yields. */
module Soundness {
  import opened Core
  import opened Bits
  import opened Bitstream
  import opened Schemas
  import opened Fields
  import opened Diffs
  import opened Layouts
  import opened UpdateLayouts
  import opened Encodings
  import opened Wire
  import opened Decoders
  import opened Walks
  import opened Apply
  import opened Rebuilding
  import opened Exactness

  // ---- Destroys ----

  lemma {:induction false} IdsSound(data: seq<byte>, p: nat, n: nat, prev: Option<u32>)
    requires GetIds(data, p, n, prev).Some?
    ensures var ids := GetIds(data, p, n, prev).value.0;
            |ids| == n && SortedIds(ids) && (ids != [] ==> After(prev, ids[0]))
    decreases n
  {
    hide GetId;
    if n > 0 {
      var (id, q) := GetId(data, p).value;
      IdsSound(data, q, n - 1, Some(id));
    }
  }

  lemma DestroysSound(body: seq<byte>, limits: CodecLimits)
    requires GetDestroys(body, limits).Some?
    ensures var ids := GetDestroys(body, limits).value;
            SortedIds(ids) && |ids| <= limits.maxEntitiesDestroy
  {
    hide GetHead, GetIds, SortedIds;
    var (n, p) := GetHead(body, limits).value;
    IdsSound(body, p, n, None);
  }

  // ---- Creates ----

  lemma {:induction false} ValuesSound(data: seq<byte>, p: nat, fields: seq<FieldDef>)
    requires GetValues(data, p, fields).Some?
    ensures AllEncodable(fields, GetValues(data, p, fields).value.0)
    decreases |fields|
  {
    hide GetField, Encodable;
    if fields != [] {
      FieldSound(data, p, fields[0].codec);
      var (v, q) := GetField(data, p, fields[0].codec).value;
      ValuesSound(data, q, fields[1..]);
      assert ([v] + GetValues(data, q, fields[1..]).value.0)[1..] == GetValues(data, q, fields[1..]).value.0;
    }
  }

  lemma FullSound(data: seq<byte>, p: nat, d: ComponentDef, limits: CodecLimits, c: ComponentSnapshot)
    requires GetFull(data, p, d, limits).Some? && c.fields == GetFull(data, p, d, limits).value.0
    ensures FullOk(d, limits, Some(c))
  {
    hide GetValues, AllEncodable;
    ValuesSound(data, p + |d.fields|, d.fields);
  }

  /** `cs` is in schema order, and holds a full, in-range component for every schema id it mentions. */
  lemma {:induction false} FullsSound(data: seq<byte>, p: nat, defs: seq<ComponentDef>, mask: seq<bool>,
                                      limits: CodecLimits)
    requires |mask| == |defs| && UniqueIds(defs) && GetFulls(data, p, defs, mask, limits).Some?
    ensures var cs := GetFulls(data, p, defs, mask, limits).value.0;
            InOrder(defs, cs) && FullsOk(defs, limits, cs) && AllIn(defs, cs)
    decreases |defs|
  {
    hide GetFull, AllEncodable, AllIn;
    var cs := GetFulls(data, p, defs, mask, limits).value.0;
    if defs == [] {
      NothingIn(defs);
    } else if !mask[0] {
      FullsSound(data, p, defs[1..], mask[1..], limits);
      AbsentFirst(defs, cs);
    } else {
      var (fields, q) := GetFull(data, p, defs[0], limits).value;
      var c := ComponentSnapshot(defs[0].id, fields);
      var rest := GetFulls(data, q, defs[1..], mask[1..], limits).value.0;
      FullsSound(data, q, defs[1..], mask[1..], limits);
      FullSound(data, p, defs[0], limits, c);
      assert cs == [c] + rest && cs[1..] == rest;
      FullsPast(defs[1..], limits, c, rest);
      FirstIn(defs, c, rest);
    }
  }

  predicate AllIn(defs: seq<ComponentDef>, cs: seq<ComponentSnapshot>) {
    forall i :: 0 <= i < |cs| ==> exists j :: 0 <= j < |defs| && defs[j].id == cs[i].id
  }

  lemma NothingIn(defs: seq<ComponentDef>)
    ensures AllIn(defs, [])
  {
  }

  lemma AbsentFirst(defs: seq<ComponentDef>, cs: seq<ComponentSnapshot>)
    requires defs != [] && UniqueIds(defs) && AllIn(defs[1..], cs)
    ensures FindComponent(cs, defs[0].id) == None && AllIn(defs, cs)
    ensures cs != [] ==> cs[0].id != defs[0].id
  {
    forall i | 0 <= i < |cs|
      ensures cs[i].id != defs[0].id && exists j :: 0 <= j < |defs| && defs[j].id == cs[i].id
    {
      var j :| 0 <= j < |defs[1..]| && defs[1..][j].id == cs[i].id;
      assert defs[j + 1].id == cs[i].id;
    }
    NotThere(cs, defs[0].id);
  }

  lemma {:induction false} NotThere(cs: seq<ComponentSnapshot>, id: u16)
    requires forall i :: 0 <= i < |cs| ==> cs[i].id != id
    ensures FindComponent(cs, id) == None
  {
    if cs != [] {
      NotThere(cs[1..], id);
    }
  }

  lemma FirstIn(defs: seq<ComponentDef>, c: ComponentSnapshot, rest: seq<ComponentSnapshot>)
    requires defs != [] && c.id == defs[0].id && AllIn(defs[1..], rest)
    ensures AllIn(defs, [c] + rest)
  {
    forall i | 0 <= i < |rest|
      ensures exists j :: 0 <= j < |defs| && defs[j].id == rest[i].id
    {
      var j :| 0 <= j < |defs[1..]| && defs[1..][j].id == rest[i].id;
      assert defs[j + 1].id == rest[i].id;
    }
  }

  /** A component with another id in front changes nothing for the schema components left. */
  lemma {:induction false} FullsPast(defs: seq<ComponentDef>, limits: CodecLimits, c: ComponentSnapshot,
                                     rest: seq<ComponentSnapshot>)
    requires FullsOk(defs, limits, rest) && forall i :: 0 <= i < |defs| ==> defs[i].id != c.id
    ensures FullsOk(defs, limits, [c] + rest)
  {
    hide FullOk;
    if defs != [] {
      assert ([c] + rest)[1..] == rest;
      FullsPast(defs[1..], limits, c, rest);
    }
  }

  /** In schema order, with known components whose values are all there and in range. */
  predicate WellFormed(schema: Schema, limits: CodecLimits, e: EntitySnapshot) {
    InOrder(schema.components, e.components) && CreateOk(schema, limits, e)
  }

  predicate AllWellFormed(schema: Schema, limits: CodecLimits, es: seq<EntitySnapshot>) {
    es == [] || (WellFormed(schema, limits, es[0]) && AllWellFormed(schema, limits, es[1..]))
  }

  lemma CreateSound(data: seq<byte>, p: nat, schema: Schema, limits: CodecLimits)
    requires UniqueIds(schema.components) && GetCreate(data, p, schema, limits).Some?
    ensures WellFormed(schema, limits, GetCreate(data, p, schema, limits).value.0)
  {
    hide GetId, GetMask, GetFulls, InOrder, FullsOk, AllKnown, UniqueIds;
    var (_, p1) := GetId(data, p).value;
    var (mask, p2) := GetMask(data, p1, |schema.components|).value;
    var (cs, _) := GetFulls(data, p2, schema.components, mask, limits).value;
    FullsSound(data, p2, schema.components, mask, limits);
    assert schema.components[0..] == schema.components;
    OrderedProper(schema.components, cs, schema.components, 0);
  }

  lemma {:induction false} CreateListSound(data: seq<byte>, p: nat, schema: Schema, limits: CodecLimits, n: nat,
                                           prev: Option<u32>)
    requires UniqueIds(schema.components) && GetCreateList(data, p, schema, limits, n, prev).Some?
    ensures var es := GetCreateList(data, p, schema, limits, n, prev).value.0;
            |es| == n && Sorted(es) && (es != [] ==> After(prev, es[0].id)) && AllWellFormed(schema, limits, es)
    decreases n
  {
    hide GetCreate, WellFormed, UniqueIds;
    if n > 0 {
      var (e, q) := GetCreate(data, p, schema, limits).value;
      CreateSound(data, p, schema, limits);
      CreateListSound(data, q, schema, limits, n - 1, Some(e.id));
      var rest := GetCreateList(data, q, schema, limits, n - 1, Some(e.id)).value.0;
      assert ([e] + rest)[1..] == rest;
    }
  }

  lemma CreatesSound(body: seq<byte>, schema: Schema, limits: CodecLimits)
    requires UniqueIds(schema.components) && GetCreates(body, schema, limits).Some?
    ensures var es := GetCreates(body, schema, limits).value;
            Sorted(es) && |es| <= limits.maxEntitiesCreate && AllWellFormed(schema, limits, es)
  {
    hide GetHead, GetCreateList, Sorted, AllWellFormed, UniqueIds;
    var (n, p) := GetHead(body, limits).value;
    CreateListSound(body, p, schema, limits, n, None);
  }

  // ---- Updates ----

  /** A component update with ascending known indices and in-range values, at least one of them. */
  predicate SoundUpdate(d: ComponentDef, limits: CodecLimits, u: UpdateComponent) {
    && u.id == d.id
    && u.fields != []
    && |u.fields| <= limits.maxFieldsPerComponent
    && SelectedOk(d.fields, u.fields)
    && FieldsAscend(u.fields, 0)
  }

  predicate SoundComponents(defs: seq<ComponentDef>, limits: CodecLimits, us: seq<UpdateComponent>)
    decreases |us|
  {
    us == [] ||
    (FindDef(defs, us[0].id).Some? && SoundUpdate(FindDef(defs, us[0].id).value, limits, us[0])
     && SoundComponents(defs, limits, us[1..]))
  }

  predicate AllSound(schema: Schema, limits: CodecLimits, us: seq<UpdateEntity>) {
    us == [] || (SoundComponents(schema.components, limits, us[0].components) && AllSound(schema, limits, us[1..]))
  }

  lemma {:induction false} SelectedSound(data: seq<byte>, p: nat, fields: seq<FieldDef>, mask: seq<bool>, k: nat)
    requires k <= |mask| == |fields| && GetSelected(data, p, fields, mask, k).Some?
    ensures var fs := GetSelected(data, p, fields, mask, k).value.0;
            SelectedOk(fields, fs) && FieldsAscend(fs, k) && (fs == [] ==> true !in mask[k..])
    decreases |mask| - k
  {
    hide GetField, Encodable;
    if k < |mask| {
      assert mask[k..] == [mask[k]] + mask[k + 1..];
      if mask[k] {
        FieldSound(data, p, fields[k].codec);
        var (v, q) := GetField(data, p, fields[k].codec).value;
        SelectedSound(data, q, fields, mask, k + 1);
        var rest := GetSelected(data, q, fields, mask, k + 1).value.0;
        assert ([(k, v)] + rest)[1..] == rest;
      } else {
        SelectedSound(data, p, fields, mask, k + 1);
        AscendFrom(GetSelected(data, p, fields, mask, k + 1).value.0, k + 1, k);
      }
    }
  }

  lemma MaskedComponentSound(data: seq<byte>, p: nat, d: ComponentDef, limits: CodecLimits)
    requires GetMaskedComponent(data, p, d, limits).Some?
    ensures ValidUpdate(d, limits, UpdateComponent(d.id, GetMaskedComponent(data, p, d, limits).value.0))
  {
    hide GetMask, GetSelected, SelectedOk, FieldsAscend;
    var (mask, q) := GetMask(data, p, |d.fields|).value;
    SelectedSound(data, q, d.fields, mask, 0);
    assert mask[0..] == mask;
  }

  lemma {:induction false} MaskedComponentsSound(data: seq<byte>, p: nat, defs: seq<ComponentDef>, mask: seq<bool>,
                                                 limits: CodecLimits)
    requires |mask| == |defs| && UniqueIds(defs) && GetMaskedComponents(data, p, defs, mask, limits).Some?
    ensures UpdatesInOrder(defs, limits, GetMaskedComponents(data, p, defs, mask, limits).value.0)
    ensures forall u :: u in GetMaskedComponents(data, p, defs, mask, limits).value.0 ==>
              exists j :: 0 <= j < |defs| && defs[j].id == u.id
    decreases |defs|
  {
    hide GetMaskedComponent, ValidUpdate;
    if defs != [] {
      var us := GetMaskedComponents(data, p, defs, mask, limits).value.0;
      var q := if mask[0] then GetMaskedComponent(data, p, defs[0], limits).value.1 else p;
      var rest := GetMaskedComponents(data, q, defs[1..], mask[1..], limits).value.0;
      MaskedComponentsSound(data, q, defs[1..], mask[1..], limits);
      forall u | u in rest
        ensures exists j :: 0 < j < |defs| && defs[j].id == u.id
      {
        var j :| 0 <= j < |defs[1..]| && defs[1..][j].id == u.id;
        assert defs[j + 1].id == u.id;
      }
      if mask[0] {
        MaskedComponentSound(data, p, defs[0], limits);
        assert us[1..] == rest;
      } else if us != [] {
        assert us[0] in rest;
      }
    }
  }

  lemma {:induction false} MaskedListSound(data: seq<byte>, p: nat, schema: Schema, limits: CodecLimits, n: nat,
                                           prev: Option<u32>)
    requires UniqueIds(schema.components) && GetMaskedList(data, p, schema, limits, n, prev).Some?
    ensures var us := GetMaskedList(data, p, schema, limits, n, prev).value.0;
            |us| == n && SortedUpdates(us) && (us != [] ==> After(prev, us[0].id))
              && AllInSchemaOrder(schema, limits, us)
    decreases n
  {
    hide GetId, GetMask, GetMaskedComponents, UpdatesInOrder, UniqueIds;
    if n > 0 {
      var (u, q) := GetMaskedEntity(data, p, schema, limits).value;
      var (_, p1) := GetId(data, p).value;
      var (mask, p2) := GetMask(data, p1, |schema.components|).value;
      MaskedComponentsSound(data, p2, schema.components, mask, limits);
      MaskedListSound(data, q, schema, limits, n - 1, Some(u.id));
      var rest := GetMaskedList(data, q, schema, limits, n - 1, Some(u.id)).value.0;
      assert ([u] + rest)[1..] == rest;
    }
  }

  // ---- Sparse updates ----

  lemma {:induction false} IndexedSound(layout: Layout, data: seq<byte>, p: nat, d: ComponentDef, n: nat, lo: nat)
    requires GetIndexed(layout, data, p, d, n, lo).Some?
    ensures var fs := GetIndexed(layout, data, p, d, n, lo).value.0;
            |fs| == n && SelectedOk(d.fields, fs) && FieldsAscend(fs, lo)
    decreases n
  {
    hide GetField, GetIndex, Encodable;
    if n > 0 {
      var (index, q) := GetIndex(layout, data, p, d).value;
      FieldSound(data, q, d.fields[index].codec);
      var (v, q') := GetField(data, q, d.fields[index].codec).value;
      IndexedSound(layout, data, q', d, n - 1, index + 1);
      var rest := GetIndexed(layout, data, q', d, n - 1, index + 1).value.0;
      assert ([(index, v)] + rest)[1..] == rest;
    }
  }

  predicate SoundEntry(schema: Schema, limits: CodecLimits, e: Entry) {
    FindDef(schema.components, e.update.id).Some?
    && SoundUpdate(FindDef(schema.components, e.update.id).value, limits, e.update)
  }

  lemma EntrySound(layout: Layout, data: seq<byte>, p: nat, schema: Schema, limits: CodecLimits)
    requires GetEntry(layout, data, p, schema, limits).Some?
    ensures SoundEntry(schema, limits, GetEntry(layout, data, p, schema, limits).value.0)
  {
    hide GetEntryIds, GetVar, GetIndexed, FindDef, SelectedOk, FieldsAscend;
    var ((_, component), p1) := GetEntryIds(layout, data, p).value;
    var d := FindDef(schema.components, component).value;
    var (n, p2) := GetVar(data, p1).value;
    IndexedSound(layout, data, p2, d, n, 0);
  }

  predicate AllSoundEntries(schema: Schema, limits: CodecLimits, es: seq<Entry>) {
    es == [] || (SoundEntry(schema, limits, es[0]) && AllSoundEntries(schema, limits, es[1..]))
  }

  lemma {:induction false} EntriesSound(layout: Layout, data: seq<byte>, p: nat, schema: Schema, limits: CodecLimits,
                                        n: nat, prev: Option<Entry>)
    requires GetEntries(layout, data, p, schema, limits, n, prev).Some?
    ensures var es := GetEntries(layout, data, p, schema, limits, n, prev).value.0;
            AllSoundEntries(schema, limits, es) && EntriesAscend(prev, es)
    decreases n
  {
    hide GetEntry, SoundEntry;
    if n > 0 {
      var (e, q) := GetEntry(layout, data, p, schema, limits).value;
      EntrySound(layout, data, p, schema, limits);
      EntriesSound(layout, data, q, schema, limits, n - 1, Some(e));
      var rest := GetEntries(layout, data, q, schema, limits, n - 1, Some(e)).value.0;
      assert ([e] + rest)[1..] == rest;
    }
  }

  predicate SoundEntity(schema: Schema, limits: CodecLimits, u: UpdateEntity) {
    u.components != [] && SoundComponents(schema.components, limits, u.components) && ComponentsAscend(u.components, 0)
  }

  predicate EachSound(schema: Schema, limits: CodecLimits, us: seq<UpdateEntity>) {
    forall i :: 0 <= i < |us| ==> SoundEntity(schema, limits, us[i])
  }

  lemma {:induction false} AppendSound(schema: Schema, limits: CodecLimits, cs: seq<UpdateComponent>, lo: nat,
                                       u: UpdateComponent)
    requires SoundComponents(schema.components, limits, cs) && ComponentsAscend(cs, lo)
    requires SoundEntry(schema, limits, Entry(0, u)) && if cs == [] then lo <= u.id else cs[|cs| - 1].id < u.id
    ensures SoundComponents(schema.components, limits, cs + [u]) && ComponentsAscend(cs + [u], lo)
    decreases |cs|
  {
    hide FindDef, SoundUpdate;
    if cs == [] {
      assert cs + [u] == [u];
    } else {
      AppendSound(schema, limits, cs[1..], cs[0].id + 1, u);
      assert (cs + [u])[1..] == cs[1..] + [u];
    }
  }

  /** `us` ends with the component of the entry read last. */
  predicate EndsWith(us: seq<UpdateEntity>, prev: Option<Entry>) {
    match prev
    case None => us == []
    case Some(e) =>
      && us != []
      && us[|us| - 1].id == e.entity
      && us[|us| - 1].components != []
      && us[|us| - 1].components[|us[|us| - 1].components| - 1].id == e.update.id
  }

  lemma AddSound(schema: Schema, limits: CodecLimits, us: seq<UpdateEntity>, e: Entry, prev: Option<Entry>)
    requires SortedUpdates(us) && EachSound(schema, limits, us) && EndsWith(us, prev)
    requires SoundEntry(schema, limits, e) && Follows(prev, e)
    ensures var r := AddEntry(us, e);
            SortedUpdates(r) && EachSound(schema, limits, r) && EndsWith(r, Some(e))
  {
    hide SoundEntry, SoundComponents, ComponentsAscend;
    SameUpdate(schema, limits, e);
    if us != [] && us[|us| - 1].id == e.entity {
      var last := us[|us| - 1];
      assert SoundEntity(schema, limits, last);
      AppendSound(schema, limits, last.components, 0, e.update);
    } else {
      EmptySound(schema, limits);
      AppendSound(schema, limits, [], 0, e.update);
      assert [] + [e.update] == [e.update];
    }
  }

  lemma EmptySound(schema: Schema, limits: CodecLimits)
    ensures SoundComponents(schema.components, limits, []) && ComponentsAscend([], 0)
  {
  }

  lemma SameUpdate(schema: Schema, limits: CodecLimits, e: Entry)
    ensures SoundEntry(schema, limits, e) <==> SoundEntry(schema, limits, Entry(0, e.update))
  {
  }

  lemma {:induction false} GatherSound(schema: Schema, limits: CodecLimits, us: seq<UpdateEntity>, es: seq<Entry>,
                                       prev: Option<Entry>)
    requires SortedUpdates(us) && EachSound(schema, limits, us) && EndsWith(us, prev)
    requires AllSoundEntries(schema, limits, es) && EntriesAscend(prev, es)
    ensures SortedUpdates(Gather(us, es)) && EachSound(schema, limits, Gather(us, es))
    decreases |es|
  {
    hide SortedUpdates, EachSound, EndsWith, SoundEntry, Follows, AddEntry;
    if es != [] {
      AddSound(schema, limits, us, es[0], prev);
      GatherSound(schema, limits, AddEntry(us, es[0]), es[1..], Some(es[0]));
    }
  }

  lemma SparseSound(layout: Layout, body: seq<byte>, schema: Schema, limits: CodecLimits)
    requires GetSparse(layout, body, schema, limits).Some?
    ensures var us := GetSparse(layout, body, schema, limits).value;
            SortedUpdates(us) && EachSound(schema, limits, us) && |us| <= limits.maxEntitiesUpdate
  {
    hide GetHead, GetEntries, Gather, AllSoundEntries, EntriesAscend, SoundEntity;
    var (n, p) := GetHead(body, limits).value;
    EntriesSound(layout, body, p, schema, limits, n, None);
    GatherSound(schema, limits, [], GetEntries(layout, body, p, schema, limits, n, None).value.0, None);
  }

  lemma MaskedSound(body: seq<byte>, schema: Schema, limits: CodecLimits)
    requires UniqueIds(schema.components) && GetMasked(body, schema, limits).Some?
    ensures var us := GetMasked(body, schema, limits).value;
            SortedUpdates(us) && AllInSchemaOrder(schema, limits, us) && |us| <= limits.maxEntitiesUpdate
  {
    hide GetHead, GetMaskedList, AllInSchemaOrder, SortedUpdates, UniqueIds;
    var (n, p) := GetHead(body, limits).value;
    MaskedListSound(body, p, schema, limits, n, None);
  }

  // ---- The whole delta ----

  lemma {:induction false} ValidIsSound(schema: Schema, limits: CodecLimits, defs: seq<ComponentDef>,
                                        us: seq<UpdateComponent>)
    requires AllFound(schema.components, defs) && UpdatesInOrder(defs, limits, us)
    ensures SoundComponents(schema.components, limits, us)
    decreases |defs|
  {
    hide FindDef, SelectedOk, FieldsAscend;
    if defs != [] {
      if us != [] && us[0].id == defs[0].id {
        FieldCount(defs[0].fields, 0, us[0].fields);
        ValidIsSound(schema, limits, defs[1..], us[1..]);
      } else {
        ValidIsSound(schema, limits, defs[1..], us);
      }
    }
  }

  lemma {:induction false} InOrderIsSound(schema: Schema, limits: CodecLimits, us: seq<UpdateEntity>)
    requires UniqueIds(schema.components) && AllInSchemaOrder(schema, limits, us)
    ensures AllSound(schema, limits, us)
  {
    hide SoundComponents, UpdatesInOrder, UniqueIds;
    if us != [] {
      UniqueAllFound(schema.components, 0);
      assert schema.components[0..] == schema.components;
      ValidIsSound(schema, limits, schema.components, us[0].components);
      InOrderIsSound(schema, limits, us[1..]);
    }
  }

  lemma {:induction false} EachIsSound(schema: Schema, limits: CodecLimits, us: seq<UpdateEntity>)
    requires EachSound(schema, limits, us)
    ensures AllSound(schema, limits, us) && AllAscend(us)
  {
    hide SoundComponents, ComponentsAscend;
    if us != [] {
      assert SoundEntity(schema, limits, us[0]);
      EachIsSound(schema, limits, us[1..]);
    }
  }

  /** What every accepted delta satisfies, whatever bytes it came from. */
  predicate SoundDelta(schema: Schema, limits: CodecLimits, d: Delta) {
    && SortedIds(d.destroys) && |d.destroys| <= limits.maxEntitiesDestroy
    && Sorted(d.creates) && |d.creates| <= limits.maxEntitiesCreate && AllWellFormed(schema, limits, d.creates)
    && SortedUpdates(d.updates) && |d.updates| <= limits.maxEntitiesUpdate && AllSound(schema, limits, d.updates)
  }

  predicate SoundUpdates(schema: Schema, limits: CodecLimits, us: Option<seq<UpdateEntity>>) {
    us.Some? ==> SortedUpdates(us.value) && |us.value| <= limits.maxEntitiesUpdate && AllSound(schema, limits, us.value)
  }

  predicate SoundSeen(schema: Schema, limits: CodecLimits, seen: Seen) {
    && (seen.destroys.Some? ==> SortedIds(seen.destroys.value) && |seen.destroys.value| <= limits.maxEntitiesDestroy)
    && (seen.creates.Some? ==> Sorted(seen.creates.value) && |seen.creates.value| <= limits.maxEntitiesCreate
                               && AllWellFormed(schema, limits, seen.creates.value))
    && SoundUpdates(schema, limits, seen.masked)
    && SoundUpdates(schema, limits, seen.sparse)
  }

  lemma SectionSound(seen: Seen, s: Section, schema: Schema, limits: CodecLimits)
    requires UniqueIds(schema.components) && SoundSeen(schema, limits, seen)
    requires GetDeltaSection(seen, s, schema, limits).Some?
    ensures SoundSeen(schema, limits, GetDeltaSection(seen, s, schema, limits).value)
  {
    hide AllInSchemaOrder;
    match s.tag
    case EntityDestroy => DestroysSound(s.body, limits);
    case EntityCreate => CreatesSound(s.body, schema, limits);
    case EntityUpdate =>
      MaskedSound(s.body, schema, limits);
      InOrderIsSound(schema, limits, GetMasked(s.body, schema, limits).value);
    case EntityUpdateSparse =>
      SparseSound(Varint, s.body, schema, limits);
      EachIsSound(schema, limits, GetSparse(Varint, s.body, schema, limits).value);
    case EntityUpdateSparsePacked =>
      SparseSound(Packed, s.body, schema, limits);
      EachIsSound(schema, limits, GetSparse(Packed, s.body, schema, limits).value);
  }

  lemma {:induction false} SectionsSound(seen: Seen, ss: seq<Section>, schema: Schema, limits: CodecLimits)
    requires UniqueIds(schema.components) && SoundSeen(schema, limits, seen)
    requires GetDeltaSections(seen, ss, schema, limits).Some?
    ensures SoundSeen(schema, limits, GetDeltaSections(seen, ss, schema, limits).value)
    decreases |ss|
  {
    hide GetDeltaSection, SoundSeen, UniqueIds;
    if ss != [] {
      SectionSound(seen, ss[0], schema, limits);
      SectionsSound(GetDeltaSection(seen, ss[0], schema, limits).value, ss[1..], schema, limits);
    }
  }

  /** Whatever sections arrive, an accepted delta has strictly ascending ids, known components and in-range values. */
  lemma DeltaSound(ss: seq<Section>, schema: Schema, limits: CodecLimits)
    requires UniqueIds(schema.components) && GetDelta(ss, schema, limits).Some?
    ensures SoundDelta(schema, limits, GetDelta(ss, schema, limits).value)
  {
    hide GetDeltaSections, UniqueIds;
    SectionsSound(Seen(None, None, None, None), ss, schema, limits);
  }

  // ---- Applying a sound delta ----

  lemma {:induction false} SetValue(fields: seq<FieldDef>, values: seq<FieldValue>, i: nat, v: FieldValue)
    requires AllEncodable(fields, values) && i < |values| && i < |fields| && Encodable(fields[i].codec, v)
    ensures AllEncodable(fields, values[i := v])
    decreases |fields|
  {
    hide Encodable;
    if i == 0 {
      assert values[0 := v][1..] == values[1..];
    } else {
      SetValue(fields[1..], values[1..], i - 1, v);
      assert values[i := v][1..] == values[1..][i - 1 := v];
    }
  }

  lemma {:induction false} SetFieldsKeep(fields: seq<FieldDef>, values: seq<FieldValue>, fs: seq<(nat, FieldValue)>)
    requires AllEncodable(fields, values) && SelectedOk(fields, fs) && SetFields(values, fs).Some?
    ensures AllEncodable(fields, SetFields(values, fs).value)
    decreases |fs|
  {
    hide Encodable, AllEncodable;
    if fs != [] {
      SetValue(fields, values, fs[0].0, fs[0].1);
      SetFieldsKeep(fields, values[fs[0].0 := fs[0].1], fs[1..]);
    }
  }

  lemma {:induction false} OrderByIds(defs: seq<ComponentDef>, a: seq<ComponentSnapshot>, b: seq<ComponentSnapshot>)
    requires SameComponentIds(a, b) && InOrder(defs, a)
    ensures InOrder(defs, b)
    decreases |defs|
  {
    if defs != [] {
      if a != [] && a[0].id == defs[0].id {
        OrderByIds(defs[1..], a[1..], b[1..]);
      } else {
        OrderByIds(defs[1..], a, b);
      }
    }
  }

  lemma {:induction false} KnownByIds(defs: seq<ComponentDef>, a: seq<ComponentSnapshot>, b: seq<ComponentSnapshot>)
    requires SameComponentIds(a, b) && AllKnown(defs, a)
    ensures AllKnown(defs, b)
  {
    hide FindDef;
    if a != [] {
      KnownByIds(defs, a[1..], b[1..]);
    }
  }

  lemma {:induction false} FullsKept(schema: Schema, limits: CodecLimits, defs: seq<ComponentDef>,
                                     cs: seq<ComponentSnapshot>, u: UpdateComponent)
    requires AllFound(schema.components, defs) && FullsOk(defs, limits, cs) && SetComponent(cs, u).Some?
    requires FindDef(schema.components, u.id).Some? && SoundUpdate(FindDef(schema.components, u.id).value, limits, u)
    ensures FullsOk(defs, limits, SetComponent(cs, u).value)
  {
    hide SetComponent, SetFields, FindComponent, FindDef, AllEncodable, SelectedOk, FieldsAscend;
    if defs != [] {
      SetComponentLookup(cs, u, defs[0].id);
      if defs[0].id == u.id {
        SetOnlyFound(cs, u);
        var c := FindComponent(cs, u.id).value;
        SetFieldsKeep(defs[0].fields, c.fields, u.fields);
        SetComponentFound(cs, u, SetFields(c.fields, u.fields).value);
      }
      FullsKept(schema, limits, defs[1..], cs, u);
    }
  }

  predicate WellFormedList(schema: Schema, limits: CodecLimits, cs: seq<ComponentSnapshot>) {
    InOrder(schema.components, cs) && AllKnown(schema.components, cs) && FullsOk(schema.components, limits, cs)
  }

  lemma {:induction false} ComponentsKept(schema: Schema, limits: CodecLimits, cs: seq<ComponentSnapshot>,
                                          us: seq<UpdateComponent>)
    requires UniqueIds(schema.components) && WellFormedList(schema, limits, cs)
    requires SoundComponents(schema.components, limits, us) && SetComponents(cs, us).Some?
    ensures WellFormedList(schema, limits, SetComponents(cs, us).value)
    decreases |us|
  {
    if us != [] {
      var next := SetComponent(cs, us[0]).value;
      SetComponentLookup(cs, us[0], 0);
      OrderByIds(schema.components, cs, next);
      KnownByIds(schema.components, cs, next);
      UniqueAllFound(schema.components, 0);
      assert schema.components[0..] == schema.components;
      FullsKept(schema, limits, schema.components, cs, us[0]);
      ComponentsKept(schema, limits, next, us[1..]);
    }
  }

  predicate WellFormedMap(schema: Schema, limits: CodecLimits, m: map<u32, EntitySnapshot>) {
    forall id :: id in m ==> m[id].id == id && WellFormed(schema, limits, m[id])
  }

  lemma {:induction false} EntitiesKept(schema: Schema, limits: CodecLimits, m: map<u32, EntitySnapshot>,
                                        us: seq<UpdateEntity>)
    requires UniqueIds(schema.components) && WellFormedMap(schema, limits, m)
    requires AllSound(schema, limits, us) && SetEntities(m, us).Some?
    ensures WellFormedMap(schema, limits, SetEntities(m, us).value)
    decreases |us|
  {
    hide SetComponents, SoundComponents, InOrder, AllKnown, FullsOk, UniqueIds;
    if us != [] {
      assert WellFormed(schema, limits, m[us[0].id]);
      ComponentsKept(schema, limits, m[us[0].id].components, us[0].components);
      EntitiesKept(schema, limits, SetEntity(m, us[0]).value, us[1..]);
    }
  }

  lemma {:induction false} WellFormedEntities(schema: Schema, limits: CodecLimits, es: seq<EntitySnapshot>)
    requires AllWellFormed(schema, limits, es)
    ensures WellFormedMap(schema, limits, EntityMap(es))
  {
    hide WellFormed;
    if es != [] {
      WellFormedEntities(schema, limits, es[1..]);
    }
  }

  /**
   Applying what was decoded from any bytes to a well-formed baseline gives a well-formed snapshot
   within the limits.
   */
  lemma ApplySound(ss: seq<Section>, schema: Schema, limits: CodecLimits, m: map<u32, EntitySnapshot>)
    requires UniqueIds(schema.components) && WellFormedMap(schema, limits, m)
    requires GetDelta(ss, schema, limits).Some?
    ensures var d := GetDelta(ss, schema, limits).value;
            var r := ApplyDelta(m, d, limits);
            r.Some? ==> WellFormedMap(schema, limits, r.value) && |r.value| <= limits.maxTotalEntitiesAfterApply
  {
    DeltaSound(ss, schema, limits);
    var d := GetDelta(ss, schema, limits).value;
    WellFormedEntities(schema, limits, d.creates);
    if ApplyDelta(m, d, limits).Some? {
      var all := m - IdSet(d.destroys) + EntityMap(d.creates);
      WellFormedUnion(schema, limits, m, IdSet(d.destroys), EntityMap(d.creates));
      hide WellFormedMap;
      EntitiesKept(schema, limits, all, d.updates);
      KeysCount(SetEntities(all, d.updates).value, all.Keys);
      KeysCount(all, all.Keys);
    }
  }

  lemma WellFormedUnion(schema: Schema, limits: CodecLimits, m: map<u32, EntitySnapshot>, gone: set<u32>,
                        created: map<u32, EntitySnapshot>)
    requires WellFormedMap(schema, limits, m) && WellFormedMap(schema, limits, created)
    ensures WellFormedMap(schema, limits, m - gone + created)
  {
    hide WellFormed;
  }
}
