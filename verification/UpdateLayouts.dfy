/**
 The three layouts of an update section: masked, sparse with varint indices, and sparse with
 packed indices. All three are functions of one list of entity updates, and all three decode
 back to that list.
 */
module UpdateLayouts {
  import opened Core
  import opened Bits
  import opened Bitstream
  import opened Schemas
  import opened Fields
  import opened Diffs
  import opened Layouts

  // ---- Update lists ----

  /** Every listed value can be written. */
  predicate SelectedOk(fields: seq<FieldDef>, fs: seq<(nat, FieldValue)>)
    decreases |fs|
  {
    fs == [] ||
    (fs[0].0 < |fields| && Encodable(fields[fs[0].0].codec, fs[0].1) && SelectedOk(fields, fs[1..]))
  }

  /** Field indices go strictly up from `lo` on. */
  predicate FieldsAscend(fs: seq<(nat, FieldValue)>, lo: nat)
    decreases |fs|
  {
    fs == [] || (lo <= fs[0].0 && FieldsAscend(fs[1..], fs[0].0 + 1))
  }

  lemma {:induction false} AscendFrom(fs: seq<(nat, FieldValue)>, lo: nat, lower: nat)
    requires FieldsAscend(fs, lo) && lower <= lo
    ensures FieldsAscend(fs, lower)
  {
  }

  predicate ValidUpdate(d: ComponentDef, limits: CodecLimits, u: UpdateComponent) {
    && u.id == d.id
    && u.fields != []
    && |d.fields| <= limits.maxFieldsPerComponent
    && SelectedOk(d.fields, u.fields)
    && FieldsAscend(u.fields, 0)
  }

  /** Valid component updates in schema order, at most one for each schema component. */
  predicate UpdatesInOrder(defs: seq<ComponentDef>, limits: CodecLimits, us: seq<UpdateComponent>)
    decreases |defs|
  {
    if defs == [] then us == []
    else if us != [] && us[0].id == defs[0].id then
      ValidUpdate(defs[0], limits, us[0]) && UpdatesInOrder(defs[1..], limits, us[1..])
    else UpdatesInOrder(defs[1..], limits, us)
  }

  /** Every entity update lists valid component updates in schema order. */
  predicate AllInSchemaOrder(schema: Schema, limits: CodecLimits, us: seq<UpdateEntity>)
    decreases |us|
  {
    us == [] ||
    (UpdatesInOrder(schema.components, limits, us[0].components) && AllInSchemaOrder(schema, limits, us[1..]))
  }

  /** Every changed value of an entity can be written. */
  predicate DiffEncodable(defs: seq<ComponentDef>, base: EntitySnapshot, curr: EntitySnapshot) {
    defs == [] ||
    (SelectedOk(defs[0].fields, DiffFields(defs[0], base, curr)) && DiffEncodable(defs[1..], base, curr))
  }

  predicate ChangesEncodable(schema: Schema, pairs: seq<(EntitySnapshot, EntitySnapshot)>) {
    pairs == [] ||
    (DiffEncodable(schema.components, pairs[0].0, pairs[0].1) && ChangesEncodable(schema, pairs[1..]))
  }

  // ---- Masked layout ----

  /** The bits of a field mask from index `k` on, for field updates from index `k` on. */
  function MaskOf(fs: seq<(nat, FieldValue)>, k: nat, n: nat): (mask: seq<bool>)
    requires k <= n
    ensures |mask| == n - k
    decreases n - k
  {
    if k == n then []
    else if fs != [] && fs[0].0 == k then [true] + MaskOf(fs[1..], k + 1, n)
    else [false] + MaskOf(fs, k + 1, n)
  }

  function PutSelected(s: Bits, fields: seq<FieldDef>, fs: seq<(nat, FieldValue)>): (r: Bits)
    ensures s <= r
    decreases |fs|
  {
    if fs == [] || fs[0].0 >= |fields| then s
    else PutSelected(PutField(s, fields[fs[0].0].codec, fs[0].1), fields, fs[1..])
  }

  function PutMaskedComponent(s: Bits, d: ComponentDef, fs: seq<(nat, FieldValue)>): (r: Bits)
    ensures s <= r
  {
    PutSelected(s + MaskOf(fs, 0, |d.fields|), d.fields, fs)
  }

  /** One bit for each schema component, set for those at the head of the update list. */
  function ComponentMask(defs: seq<ComponentDef>, us: seq<UpdateComponent>): (mask: seq<bool>)
    ensures |mask| == |defs|
    decreases |defs|
  {
    if defs == [] then []
    else if us != [] && us[0].id == defs[0].id then [true] + ComponentMask(defs[1..], us[1..])
    else [false] + ComponentMask(defs[1..], us)
  }

  function PutMaskedComponents(s: Bits, defs: seq<ComponentDef>, us: seq<UpdateComponent>): (r: Bits)
    ensures s <= r
    decreases |defs|
  {
    if defs == [] then s
    else if us != [] && us[0].id == defs[0].id then
      PutMaskedComponents(PutMaskedComponent(s, defs[0], us[0].fields), defs[1..], us[1..])
    else PutMaskedComponents(s, defs[1..], us)
  }

  function PutMaskedEntity(s: Bits, schema: Schema, u: UpdateEntity): (r: Bits)
    ensures s <= r && |r| >= |s| + 32
  {
    PutMaskedComponents(PutId(s, u.id) + ComponentMask(schema.components, u.components),
                        schema.components, u.components)
  }

  function PutMaskedList(s: Bits, schema: Schema, us: seq<UpdateEntity>): (r: Bits)
    ensures s <= r && |r| >= |s| + 32 * |us|
    decreases |us|
  {
    if us == [] then s else PutMaskedList(PutMaskedEntity(s, schema, us[0]), schema, us[1..])
  }

  function PutMasked(schema: Schema, us: seq<UpdateEntity>): (r: Bits)
    ensures |r| % 8 == 0 && |r| >= 32 * |us|
  {
    PutAlign(PutMaskedList(PutHead(|us|), schema, us))
  }

  function GetSelected(data: seq<byte>, p: nat, fields: seq<FieldDef>, mask: seq<bool>, k: nat)
    : Option<(seq<(nat, FieldValue)>, nat)>
    requires k <= |mask| == |fields|
    decreases |mask| - k
  {
    if k == |mask| then Some(([], p))
    else if !mask[k] then GetSelected(data, p, fields, mask, k + 1)
    else
      var (v, q) :- GetField(data, p, fields[k].codec);
      Prepend([(k, v)], GetSelected(data, q, fields, mask, k + 1))
  }

  function GetMaskedComponent(data: seq<byte>, p: nat, d: ComponentDef, limits: CodecLimits)
    : Option<(seq<(nat, FieldValue)>, nat)>
  {
    if |d.fields| > limits.maxFieldsPerComponent then None
    else
      var (mask, q) :- GetMask(data, p, |d.fields|);
      if true !in mask then None else GetSelected(data, q, d.fields, mask, 0)
  }

  function GetMaskedComponents(data: seq<byte>, p: nat, defs: seq<ComponentDef>, mask: seq<bool>, limits: CodecLimits)
    : Option<(seq<UpdateComponent>, nat)>
    requires |mask| == |defs|
    decreases |defs|
  {
    if defs == [] then Some(([], p))
    else if !mask[0] then GetMaskedComponents(data, p, defs[1..], mask[1..], limits)
    else
      var (fs, q) :- GetMaskedComponent(data, p, defs[0], limits);
      Prepend([UpdateComponent(defs[0].id, fs)], GetMaskedComponents(data, q, defs[1..], mask[1..], limits))
  }

  function GetMaskedEntity(data: seq<byte>, p: nat, schema: Schema, limits: CodecLimits): Option<(UpdateEntity, nat)> {
    var (id, p1) :- GetId(data, p);
    var (mask, p2) :- GetMask(data, p1, |schema.components|);
    var (us, p3) :- GetMaskedComponents(data, p2, schema.components, mask, limits);
    Some((UpdateEntity(id, us), p3))
  }

  function GetMaskedList(data: seq<byte>, p: nat, schema: Schema, limits: CodecLimits, n: nat, prev: Option<u32>)
    : Option<(seq<UpdateEntity>, nat)>
    decreases n
  {
    if n == 0 then Some(([], p))
    else
      var (u, q) :- GetMaskedEntity(data, p, schema, limits);
      if !After(prev, u.id) then None
      else Prepend([u], GetMaskedList(data, q, schema, limits, n - 1, Some(u.id)))
  }

  function GetMasked(body: seq<byte>, schema: Schema, limits: CodecLimits): Option<seq<UpdateEntity>> {
    var (n, p) :- GetHead(body, limits);
    if n > limits.maxEntitiesUpdate then None
    else
      var (us, q) :- GetMaskedList(body, p, schema, limits, n, None);
      GetEnd(body, q, us)
  }

  lemma {:induction false} SelectedBack(data: seq<byte>, s: Bits, fields: seq<FieldDef>, mask: seq<bool>, k: nat,
                                        fs: seq<(nat, FieldValue)>)
    requires k <= |fields| == |mask|
    requires SelectedOk(fields, fs) && FieldsAscend(fs, k) && mask[k..] == MaskOf(fs, k, |fields|)
    requires PutSelected(s, fields, fs) <= BitsOf(data)
    ensures GetSelected(data, |s|, fields, mask, k) == Some((fs, |PutSelected(s, fields, fs)|))
    decreases |fields| - k
  {
    hide BitsOf, PutField, GetField, Encodable;
    if k < |fields| {
      assert mask[k] == MaskOf(fs, k, |fields|)[0];
      assert mask[k + 1..] == MaskOf(fs, k, |fields|)[1..];
      if fs != [] && fs[0].0 == k {
        FieldBack(data, s, fields[k].codec, fs[0].1);
        SelectedBack(data, PutField(s, fields[k].codec, fs[0].1), fields, mask, k + 1, fs[1..]);
        assert [fs[0]] + fs[1..] == fs;
      } else {
        SelectedBack(data, s, fields, mask, k + 1, fs);
      }
    }
  }

  lemma {:induction false} MaskNotEmpty(fields: seq<FieldDef>, fs: seq<(nat, FieldValue)>, k: nat)
    requires k <= |fields| && SelectedOk(fields, fs) && FieldsAscend(fs, k) && fs != []
    ensures true in MaskOf(fs, k, |fields|)
    decreases |fields| - k
  {
    if fs[0].0 == k {
      assert MaskOf(fs, k, |fields|)[0];
    } else {
      MaskNotEmpty(fields, fs, k + 1);
      assert MaskOf(fs, k, |fields|)[1..] == MaskOf(fs, k + 1, |fields|);
    }
  }

  lemma MaskedComponentBack(data: seq<byte>, s: Bits, d: ComponentDef, limits: CodecLimits, u: UpdateComponent)
    requires ValidUpdate(d, limits, u)
    requires PutMaskedComponent(s, d, u.fields) <= BitsOf(data)
    ensures GetMaskedComponent(data, |s|, d, limits) == Some((u.fields, |PutMaskedComponent(s, d, u.fields)|))
  {
    hide BitsOf, PutSelected, GetSelected, SelectedOk, FieldsAscend;
    var mask := MaskOf(u.fields, 0, |d.fields|);
    MaskBack(data, s, mask);
    MaskNotEmpty(d.fields, u.fields, 0);
    assert mask[0..] == mask;
    SelectedBack(data, s + mask, d.fields, mask, 0, u.fields);
  }

  lemma {:induction false} MaskedComponentsBack(data: seq<byte>, s: Bits, defs: seq<ComponentDef>, limits: CodecLimits,
                                                us: seq<UpdateComponent>)
    requires UpdatesInOrder(defs, limits, us)
    requires PutMaskedComponents(s, defs, us) <= BitsOf(data)
    ensures GetMaskedComponents(data, |s|, defs, ComponentMask(defs, us), limits)
         == Some((us, |PutMaskedComponents(s, defs, us)|))
    decreases |defs|
  {
    hide BitsOf, PutMaskedComponent, GetMaskedComponent, ValidUpdate;
    if defs != [] {
      if us != [] && us[0].id == defs[0].id {
        assert ComponentMask(defs, us)[1..] == ComponentMask(defs[1..], us[1..]);
        MaskedComponentBack(data, s, defs[0], limits, us[0]);
        MaskedComponentsBack(data, PutMaskedComponent(s, defs[0], us[0].fields), defs[1..], limits, us[1..]);
        assert [UpdateComponent(defs[0].id, us[0].fields)] + us[1..] == us;
      } else {
        assert ComponentMask(defs, us)[1..] == ComponentMask(defs[1..], us);
        MaskedComponentsBack(data, s, defs[1..], limits, us);
      }
    }
  }

  lemma MaskedEntityBack(data: seq<byte>, s: Bits, schema: Schema, limits: CodecLimits, u: UpdateEntity)
    requires UpdatesInOrder(schema.components, limits, u.components)
    requires PutMaskedEntity(s, schema, u) <= BitsOf(data)
    ensures GetMaskedEntity(data, |s|, schema, limits) == Some((u, |PutMaskedEntity(s, schema, u)|))
  {
    hide BitsOf, PutId, GetId, PutMaskedComponents, GetMaskedComponents, ComponentMask;
    var defs, us := schema.components, u.components;
    var s1 := PutId(s, u.id);
    var s2 := s1 + ComponentMask(defs, us);
    assert PutMaskedEntity(s, schema, u) == PutMaskedComponents(s2, defs, us);
    IdBack(data, s, u.id);
    MaskBack(data, s1, ComponentMask(defs, us));
    MaskedComponentsBack(data, s2, defs, limits, us);
  }

  lemma {:induction false} MaskedListBack(data: seq<byte>, s: Bits, schema: Schema, limits: CodecLimits,
                                          us: seq<UpdateEntity>, prev: Option<u32>)
    requires SortedUpdates(us) && (us != [] ==> After(prev, us[0].id))
    requires AllInSchemaOrder(schema, limits, us)
    requires PutMaskedList(s, schema, us) <= BitsOf(data)
    ensures GetMaskedList(data, |s|, schema, limits, |us|, prev) == Some((us, |PutMaskedList(s, schema, us)|))
    decreases |us|
  {
    hide BitsOf, PutMaskedEntity, GetMaskedEntity, UpdatesInOrder;
    if us != [] {
      MaskedEntityBack(data, s, schema, limits, us[0]);
      MaskedListBack(data, PutMaskedEntity(s, schema, us[0]), schema, limits, us[1..], Some(us[0].id));
      assert [us[0]] + us[1..] == us;
    }
  }

  /** A masked section decodes to the update list it was written from. */
  lemma MaskedBack(schema: Schema, limits: CodecLimits, us: seq<UpdateEntity>)
    requires SortedUpdates(us) && |us| <= limits.maxEntitiesUpdate && |us| < 0x1_0000_0000
    requires AllInSchemaOrder(schema, limits, us)
    requires |PutMasked(schema, us)| / 8 <= limits.maxSectionBytes
    ensures GetMasked(Pack(PutMasked(schema, us)), schema, limits) == Some(us)
  {
    var bits := PutMasked(schema, us);
    var body := Pack(bits);
    BitsOfPack(bits);
    HeadBack(body, limits, |us|);
    MaskedListBack(body, PutHead(|us|), schema, limits, us, None);
    AlignBack(body, PutMaskedList(PutHead(|us|), schema, us));
  }

  // ---- Sparse layouts ----

  /** How a sparse section writes ids and field indices: as fixed words and varints, or packed. */
  datatype Layout = Varint | Packed

  /** One entry of a sparse section: the changed fields of one component of one entity. */
  datatype Entry = Entry(entity: u32, update: UpdateComponent)

  function ComponentEntries(id: u32, cs: seq<UpdateComponent>): (es: seq<Entry>)
    ensures |es| == |cs|
  {
    if cs == [] then [] else [Entry(id, cs[0])] + ComponentEntries(id, cs[1..])
  }

  function Entries(us: seq<UpdateEntity>): seq<Entry> {
    if us == [] then [] else ComponentEntries(us[0].id, us[0].components) + Entries(us[1..])
  }

  function IndexBits(d: ComponentDef): nat {
    RequiredBits(if |d.fields| == 0 then 0 else |d.fields| - 1)
  }

  function PutIndex(layout: Layout, s: Bits, d: ComponentDef, index: nat): (r: Bits)
    ensures s <= r
  {
    match layout
    case Varint => PutVar(PutAlign(s), AsU32(index))
    case Packed => PutBits(s, index, IndexBits(d))
  }

  function PutIndexed(layout: Layout, s: Bits, d: ComponentDef, fs: seq<(nat, FieldValue)>): (r: Bits)
    ensures s <= r
    decreases |fs|
  {
    if fs == [] || fs[0].0 >= |d.fields| then s
    else PutIndexed(layout, PutField(PutIndex(layout, s, d, fs[0].0), d.fields[fs[0].0].codec, fs[0].1), d, fs[1..])
  }

  /** Entity id, component id and field count. */
  function PutEntryHead(layout: Layout, s: Bits, entity: u32, component: u16, count: nat): (r: Bits)
    ensures s <= r && |r| >= |s| + 8 && |r| % 8 == 0
  {
    var ids := match layout
               case Varint => PutBytes(PutId(s, entity), LittleEndian(component, 2))
               case Packed => PutVar(PutVar(PutAlign(s), entity), component);
    PutVar(ids, AsU32(count))
  }

  function PutEntry(layout: Layout, s: Bits, d: ComponentDef, e: Entry): (r: Bits)
    ensures s <= r && |r| >= |s| + 8
  {
    PutIndexed(layout, PutEntryHead(layout, s, e.entity, d.id, |e.update.fields|), d, e.update.fields)
  }

  function PutEntries(layout: Layout, s: Bits, schema: Schema, es: seq<Entry>): (r: Bits)
    ensures s <= r
    decreases |es|
  {
    if es == [] then s
    else
      match FindDef(schema.components, es[0].update.id)
      case None => s
      case Some(d) => PutEntries(layout, PutEntry(layout, s, d, es[0]), schema, es[1..])
  }

  function PutSparse(layout: Layout, schema: Schema, us: seq<UpdateEntity>): (r: Bits)
    ensures |r| % 8 == 0
  {
    PutAlign(PutEntries(layout, PutHead(|Entries(us)|), schema, Entries(us)))
  }

  function GetIndex(layout: Layout, data: seq<byte>, p: nat, d: ComponentDef): Option<(nat, nat)> {
    match layout
    case Varint =>
      var q :- GetAlign(data, p);
      GetVar(data, q)
    case Packed => GetBits(data, p, IndexBits(d))
  }

  function GetIndexed(layout: Layout, data: seq<byte>, p: nat, d: ComponentDef, n: nat, lo: nat)
    : Option<(seq<(nat, FieldValue)>, nat)>
    decreases n
  {
    if n == 0 then Some(([], p))
    else
      var (index, q) :- GetIndex(layout, data, p, d);
      if index >= |d.fields| || index < lo then None
      else
        var (v, q') :- GetField(data, q, d.fields[index].codec);
        Prepend([(index, v)], GetIndexed(layout, data, q', d, n - 1, index + 1))
  }

  function GetEntryIds(layout: Layout, data: seq<byte>, p: nat): Option<((u32, u32), nat)> {
    var p1 :- GetAlign(data, p);
    match layout
    case Varint =>
      var (entity, p2) :- GetU32(data, p1);
      var (component, p3) :- GetU16(data, p2);
      Some(((entity, component), p3))
    case Packed =>
      var (entity, p2) :- GetVar(data, p1);
      var (component, p3) :- GetVar(data, p2);
      Some(((entity, component), p3))
  }

  function GetEntry(layout: Layout, data: seq<byte>, p: nat, schema: Schema, limits: CodecLimits)
    : Option<(Entry, nat)>
  {
    var ((entity, component), p1) :- GetEntryIds(layout, data, p);
    if component == 0 || component >= 0x1_0000 then None
    else
      var d :- FindDef(schema.components, component);
      var (n, p2) :- GetVar(data, p1);
      if n == 0 || n > limits.maxFieldsPerComponent || n > |d.fields| then None
      else
        var (fs, p3) :- GetIndexed(layout, data, p2, d, n, 0);
        Some((Entry(entity, UpdateComponent(component, fs)), p3))
  }

  /** Entities never go down, and components go strictly up within one entity. */
  predicate Follows(prev: Option<Entry>, e: Entry) {
    prev.Some? ==>
      prev.value.entity < e.entity || (prev.value.entity == e.entity && prev.value.update.id < e.update.id)
  }

  function GetEntries(layout: Layout, data: seq<byte>, p: nat, schema: Schema, limits: CodecLimits, n: nat,
                      prev: Option<Entry>)
    : Option<(seq<Entry>, nat)>
    decreases n
  {
    if n == 0 then Some(([], p))
    else
      var (e, q) :- GetEntry(layout, data, p, schema, limits);
      if !Follows(prev, e) then None
      else Prepend([e], GetEntries(layout, data, q, schema, limits, n - 1, Some(e)))
  }

  /** Adds an entry to the last entity update when it is for the same entity, else starts a new one. */
  function AddEntry(us: seq<UpdateEntity>, e: Entry): seq<UpdateEntity> {
    if us != [] && us[|us| - 1].id == e.entity then
      us[|us| - 1 := UpdateEntity(e.entity, us[|us| - 1].components + [e.update])]
    else us + [UpdateEntity(e.entity, [e.update])]
  }

  function Gather(us: seq<UpdateEntity>, es: seq<Entry>): seq<UpdateEntity>
    decreases |es|
  {
    if es == [] then us else Gather(AddEntry(us, es[0]), es[1..])
  }

  function EntryLimit(limits: CodecLimits): nat {
    limits.maxEntitiesUpdate * limits.maxComponentsPerEntity
  }

  function GetSparse(layout: Layout, body: seq<byte>, schema: Schema, limits: CodecLimits): Option<seq<UpdateEntity>> {
    var (n, p) :- GetHead(body, limits);
    if n > EntryLimit(limits) then None
    else
      var (es, q) :- GetEntries(layout, body, p, schema, limits, n, None);
      var us :- GetEnd(body, q, Gather([], es));
      if |us| > limits.maxEntitiesUpdate then None else Some(us)
  }

  lemma IndexBack(layout: Layout, data: seq<byte>, s: Bits, d: ComponentDef, index: nat)
    requires index < |d.fields| <= 0x1_0000
    requires PutIndex(layout, s, d, index) <= BitsOf(data)
    ensures GetIndex(layout, data, |s|, d) == Some((index, |PutIndex(layout, s, d, index)|))
  {
    hide BitsOf;
    match layout
    case Varint =>
      AlignBack(data, s);
      VarBack(data, PutAlign(s), index);
    case Packed =>
      IndexFits(d, index);
      BitsBack(data, s, index, IndexBits(d));
  }

  /** Every field index fits the width chosen for the component. */
  lemma IndexFits(d: ComponentDef, index: nat)
    requires index < |d.fields| <= 0x1_0000
    ensures index < Pow2(IndexBits(d)) && IndexBits(d) <= 64
  {
    RequiredBitsLeast(|d.fields| - 1, IndexBits(d));
    Pow2Values();
    RequiredBitsLeast(|d.fields| - 1, 32);
  }

  /** Indices that ascend are read back; the first one out of order makes the decoder refuse the entry. */
  lemma {:induction false} IndexedBack(layout: Layout, data: seq<byte>, s: Bits, d: ComponentDef,
                                       fs: seq<(nat, FieldValue)>, lo: nat)
    requires SelectedOk(d.fields, fs) && |d.fields| <= 0x1_0000
    requires PutIndexed(layout, s, d, fs) <= BitsOf(data)
    ensures GetIndexed(layout, data, |s|, d, |fs|, lo)
         == if FieldsAscend(fs, lo) then Some((fs, |PutIndexed(layout, s, d, fs)|)) else None
    decreases |fs|
  {
    hide BitsOf, PutIndex, GetIndex, PutField, GetField;
    if fs != [] {
      var s1 := PutIndex(layout, s, d, fs[0].0);
      var s2 := PutField(s1, d.fields[fs[0].0].codec, fs[0].1);
      IndexBack(layout, data, s, d, fs[0].0);
      FieldBack(data, s1, d.fields[fs[0].0].codec, fs[0].1);
      IndexedBack(layout, data, s2, d, fs[1..], fs[0].0 + 1);
      assert [fs[0]] + fs[1..] == fs;
    }
  }

  lemma {:induction false} FieldCount(fields: seq<FieldDef>, lo: nat, fs: seq<(nat, FieldValue)>)
    requires SelectedOk(fields, fs) && FieldsAscend(fs, lo) && lo <= |fields|
    ensures |fs| <= |fields| - lo
    decreases |fs|
  {
    if fs != [] {
      FieldCount(fields, fs[0].0 + 1, fs[1..]);
    }
  }

  /** What an encoder has made sure of before it writes an entry: nothing is said about order. */
  predicate EntryWritten(schema: Schema, limits: CodecLimits, e: Entry) {
    match FindDef(schema.components, e.update.id)
    case None => false
    case Some(d) =>
      && e.update.id != 0
      && |d.fields| <= 0x1_0000
      && e.update.fields != []
      && |e.update.fields| <= limits.maxFieldsPerComponent
      && |e.update.fields| < 0x1_0000_0000
      && SelectedOk(d.fields, e.update.fields)
  }

  predicate AllEntriesWritten(schema: Schema, limits: CodecLimits, es: seq<Entry>) {
    es == [] || (EntryWritten(schema, limits, es[0]) && AllEntriesWritten(schema, limits, es[1..]))
  }

  /** In every entry the field indices go strictly up. */
  predicate AllFieldsAscend(es: seq<Entry>) {
    es == [] || (FieldsAscend(es[0].update.fields, 0) && AllFieldsAscend(es[1..]))
  }

  predicate EntriesAscend(prev: Option<Entry>, es: seq<Entry>)
    decreases |es|
  {
    es == [] || (Follows(prev, es[0]) && EntriesAscend(Some(es[0]), es[1..]))
  }

  lemma EntryIdsBack(layout: Layout, data: seq<byte>, s: Bits, entity: u32, component: u16, count: nat)
    requires PutEntryHead(layout, s, entity, component, count) <= BitsOf(data)
    ensures GetEntryIds(layout, data, |s|).Some?
    ensures GetEntryIds(layout, data, |s|).value.0 == (entity, component)
    ensures GetVar(data, GetEntryIds(layout, data, |s|).value.1)
         == Some((AsU32(count), |PutEntryHead(layout, s, entity, component, count)|))
  {
    hide BitsOf, GetVar, GetU16, GetU32, PutAlign, LittleEndian, VarBytes;
    AlignBack(data, s);
    match layout
    case Varint =>
      var s1 := PutId(s, entity);
      var s2 := PutBytes(s1, LittleEndian(component, 2));
      U32Back(data, PutAlign(s), entity);
      U16Back(data, s1, component);
      VarBack(data, s2, AsU32(count));
    case Packed =>
      var s1 := PutVar(PutAlign(s), entity);
      var s2 := PutVar(s1, component);
      VarBack(data, PutAlign(s), entity);
      VarBack(data, s1, component);
      VarBack(data, s2, AsU32(count));
  }

  lemma EntryBack(layout: Layout, data: seq<byte>, s: Bits, schema: Schema, limits: CodecLimits, d: ComponentDef,
                  e: Entry)
    requires FindDef(schema.components, e.update.id) == Some(d) && EntryWritten(schema, limits, e)
    requires PutEntry(layout, s, d, e) <= BitsOf(data)
    ensures GetEntry(layout, data, |s|, schema, limits)
         == if FieldsAscend(e.update.fields, 0) then Some((e, |PutEntry(layout, s, d, e)|)) else None
  {
    hide BitsOf, PutIndexed, GetIndexed, PutEntryHead, GetEntryIds, GetVar, SelectedOk;
    var fs := e.update.fields;
    var s1 := PutEntryHead(layout, s, e.entity, d.id, |fs|);
    if FieldsAscend(fs, 0) {
      FieldCount(d.fields, 0, fs);
    }
    EntryIdsBack(layout, data, s, e.entity, d.id, |fs|);
    IndexedBack(layout, data, s1, d, fs, 0);
  }

  /** Entries are read back when indices and entries ascend; otherwise the decoder refuses the section. */
  lemma {:induction false} EntriesBack(layout: Layout, data: seq<byte>, s: Bits, schema: Schema, limits: CodecLimits,
                                       es: seq<Entry>, prev: Option<Entry>)
    requires AllEntriesWritten(schema, limits, es)
    requires PutEntries(layout, s, schema, es) <= BitsOf(data)
    ensures GetEntries(layout, data, |s|, schema, limits, |es|, prev)
         == if AllFieldsAscend(es) && EntriesAscend(prev, es) then Some((es, |PutEntries(layout, s, schema, es)|))
           else None
    decreases |es|
  {
    hide BitsOf, PutEntry, GetEntry, FindDef, FieldsAscend, SelectedOk;
    if es != [] {
      var d := FindDef(schema.components, es[0].update.id).value;
      EntryBack(layout, data, s, schema, limits, d, es[0]);
      EntriesBack(layout, data, PutEntry(layout, s, d, es[0]), schema, limits, es[1..], Some(es[0]));
      assert [es[0]] + es[1..] == es;
    }
  }

  lemma {:induction false} EntriesLength(layout: Layout, s: Bits, schema: Schema, limits: CodecLimits, es: seq<Entry>)
    requires AllEntriesWritten(schema, limits, es)
    ensures |PutEntries(layout, s, schema, es)| >= |s| + 8 * |es|
    decreases |es|
  {
    hide PutEntry, SelectedOk;
    if es != [] {
      var d := FindDef(schema.components, es[0].update.id).value;
      EntriesLength(layout, PutEntry(layout, s, d, es[0]), schema, limits, es[1..]);
    }
  }

  /**
   A written sparse section is decoded exactly when indices and entries ascend, and then to
   the updates gathered from its entries.
   */
  lemma SparseBack(layout: Layout, schema: Schema, limits: CodecLimits, us: seq<UpdateEntity>)
    requires AllEntriesWritten(schema, limits, Entries(us))
    requires |Entries(us)| <= EntryLimit(limits) && |Gather([], Entries(us))| <= limits.maxEntitiesUpdate
    requires |PutSparse(layout, schema, us)| / 8 <= limits.maxSectionBytes
    requires |PutSparse(layout, schema, us)| / 8 < 0x1_0000_0000
    ensures GetSparse(layout, Pack(PutSparse(layout, schema, us)), schema, limits)
         == if AllFieldsAscend(Entries(us)) && EntriesAscend(None, Entries(us)) then Some(Gather([], Entries(us)))
           else None
  {
    hide BitsOf, PutEntries, GetEntries, Gather, Entries;
    var es := Entries(us);
    var bits := PutSparse(layout, schema, us);
    var body := Pack(bits);
    var s := PutHead(|es|);
    BitsOfPack(bits);
    EntriesLength(layout, s, schema, limits, es);
    HeadBack(body, limits, |es|);
    EntriesBack(layout, body, s, schema, limits, es, None);
    AlignBack(body, PutEntries(layout, s, schema, es));
  }
}
