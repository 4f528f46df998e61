/** The change-list path: encoding a delta from lists the caller provides, without scanning. */
module ChangeLists {
  import opened Core
  import opened Bits
  import opened Bitstream
  import opened BitWriters
  import opened Schemas
  import opened Fields
  import opened Diffs
  import opened Layouts
  import opened UpdateLayouts
  import opened Encodings
  import opened Wire
  import opened EntityEncoders
  import opened UpdateEncoders
  import opened SparseEncoders
  import opened Sections
  import opened Payloads

  // ---- Component lookup ----

  /** Tables indexed by component id: position in the schema, and width of a field index. */
  datatype ComponentLookup = ComponentLookup(index: seq<Option<nat>>, indexBits: seq<nat>) {

    function Component(schema: Schema, id: u16): Option<ComponentDef> {
      if id < |index| && index[id].Some? && index[id].value < |schema.components|
      then Some(schema.components[index[id].value]) else None
    }

    function Bits(id: u16): nat {
      if id < |indexBits| then indexBits[id] else 0
    }

    /** The tables answer as a linear search of the schema does. */
    ghost predicate Agrees(schema: Schema) {
      forall id: u16 :: Component(schema, id) == FindDef(schema.components, id)
                        && (FindDef(schema.components, id).Some?
                            ==> Bits(id) == IndexBits(FindDef(schema.components, id).value))
    }
  }

  method MaxId(schema: Schema) returns (m: u16)
    ensures forall i :: 0 <= i < |schema.components| ==> schema.components[i].id <= m
  {
    m := 0;
    for k := 0 to |schema.components|
      invariant forall i :: 0 <= i < k ==> schema.components[i].id <= m
    {
      if schema.components[k].id > m {
        m := schema.components[k].id;
      }
    }
  }

  method BuildComponentLookup(schema: Schema) returns (lookup: ComponentLookup)
    requires UniqueIds(schema.components)
    ensures lookup.Agrees(schema)
  {
    hide IndexBits, FindDef;
    var m: nat := MaxId(schema);
    var index: seq<Option<nat>> := seq(m + 1, _ => None);
    var bits: seq<nat> := seq(m + 1, _ => 0);
    for k := 0 to |schema.components|
      invariant |index| == |bits| == m + 1
      invariant forall i :: 0 <= i < k ==>
                  index[schema.components[i].id] == Some(i)
                    && bits[schema.components[i].id] == IndexBits(schema.components[i])
      invariant forall id :: 0 <= id <= m && index[id].Some? ==>
                  index[id].value < k && schema.components[index[id].value].id == id
    {
      var id := schema.components[k].id;
      index := index[id := Some(k)];
      bits := bits[id := IndexBits(schema.components[k])];
    }
    lookup := ComponentLookup(index, bits);
    forall id: u16
      ensures lookup.Component(schema, id) == FindDef(schema.components, id)
      ensures FindDef(schema.components, id).Some?
              ==> lookup.Bits(id) == IndexBits(FindDef(schema.components, id).value)
    {
      if id <= m && index[id].Some? {
        DefAt(schema.components, index[id].value);
      } else {
        forall i | 0 <= i < |schema.components|
          ensures schema.components[i].id != id
        {
        }
        AbsentDef(schema.components, id);
      }
    }
  }

  // ---- What the lists must satisfy ----

  predicate IndicesIn(n: nat, fs: seq<(nat, FieldValue)>) {
    fs == [] || (fs[0].0 < n && IndicesIn(n, fs[1..]))
  }

  predicate ListedComponent(schema: Schema, limits: CodecLimits, u: UpdateComponent) {
    match FindDef(schema.components, u.id)
    case None => false
    case Some(d) => u.fields != [] && |u.fields| <= limits.maxFieldsPerComponent && IndicesIn(|d.fields|, u.fields)
  }

  predicate ListedComponents(schema: Schema, limits: CodecLimits, us: seq<UpdateComponent>) {
    us == [] || (ListedComponent(schema, limits, us[0]) && ListedComponents(schema, limits, us[1..]))
  }

  predicate ListedEntity(schema: Schema, limits: CodecLimits, u: UpdateEntity) {
    |u.components| <= limits.maxComponentsPerEntity && ListedComponents(schema, limits, u.components)
  }

  predicate AllListed(schema: Schema, limits: CodecLimits, us: seq<UpdateEntity>) {
    us == [] || (ListedEntity(schema, limits, us[0]) && AllListed(schema, limits, us[1..]))
  }

  predicate EntryEncodable(schema: Schema, u: UpdateComponent) {
    match FindDef(schema.components, u.id)
    case None => false
    case Some(d) => SelectedOk(d.fields, u.fields)
  }

  predicate ComponentsEncodable(schema: Schema, us: seq<UpdateComponent>) {
    us == [] || (EntryEncodable(schema, us[0]) && ComponentsEncodable(schema, us[1..]))
  }

  predicate AllUpdatesEncodable(schema: Schema, us: seq<UpdateEntity>) {
    us == [] || (ComponentsEncodable(schema, us[0].components) && AllUpdatesEncodable(schema, us[1..]))
  }

  method EnsureIdsSorted(ids: seq<u32>) returns (r: Outcome)
    ensures r.Pass? <==> SortedIds(ids)
  {
    var prev: Option<u32> := None;
    for k := 0 to |ids|
      invariant SortedIds(ids[..k])
      invariant prev == if k == 0 then None else Some(ids[k - 1])
    {
      if prev.Some? && ids[k] <= prev.value {
        assert ids[k - 1] >= ids[k];
        return Fail;
      }
      prev := Some(ids[k]);
    }
    assert ids[..|ids|] == ids;
    return Pass;
  }

  method ValidateComponents(schema: Schema, us: seq<UpdateComponent>, limits: CodecLimits, lookup: ComponentLookup)
    returns (r: Outcome)
    requires lookup.Agrees(schema)
    ensures r.Pass? <==> ListedComponents(schema, limits, us)
  {
    hide FindDef;
    for k := 0 to |us|
      invariant ListedComponents(schema, limits, us) <==> ListedComponents(schema, limits, us[k..])
    {
      assert us[k..][1..] == us[k + 1..];
      var d := lookup.Component(schema, us[k].id);
      if d.None? || us[k].fields == [] || |us[k].fields| > limits.maxFieldsPerComponent {
        return Fail;
      }
      var fs := us[k].fields;
      for j := 0 to |fs|
        invariant IndicesIn(|d.value.fields|, fs) <==> IndicesIn(|d.value.fields|, fs[j..])
      {
        assert fs[j..][1..] == fs[j + 1..];
        if fs[j].0 >= |d.value.fields| {
          return Fail;
        }
      }
    }
    return Pass;
  }

  method ValidateUpdates(schema: Schema, us: seq<UpdateEntity>, limits: CodecLimits, lookup: ComponentLookup)
    returns (r: Outcome)
    requires lookup.Agrees(schema)
    ensures r.Pass? <==> SortedUpdates(us) && AllListed(schema, limits, us)
  {
    hide ListedComponents, ComponentLookup.Agrees;
    var prev: Option<u32> := None;
    for k := 0 to |us|
      invariant SortedUpdates(us[..k])
      invariant prev == if k == 0 then None else Some(us[k - 1].id)
      invariant AllListed(schema, limits, us) <==> AllListed(schema, limits, us[k..])
    {
      assert us[k..][1..] == us[k + 1..];
      if prev.Some? && us[k].id <= prev.value {
        assert us[k - 1].id >= us[k].id;
        return Fail;
      }
      prev := Some(us[k].id);
      if |us[k].components| > limits.maxComponentsPerEntity {
        return Fail;
      }
      :- ValidateComponents(schema, us[k].components, limits, lookup);
    }
    assert us[..|us|] == us;
    return Pass;
  }

  // ---- The update body ----

  method WriteListedFields(d: ComponentDef, fs: seq<(nat, FieldValue)>, bits: nat, w: BitWriter) returns (r: Outcome)
    requires w.Valid() && ValidComponent(d) && IndicesIn(|d.fields|, fs) && bits == IndexBits(d)
    modifies w`bitPos, w.buf
    ensures w.Puts(r, SelectedOk(d.fields, fs), PutIndexed(Packed, old(w.Written()), d, fs))
  {
    hide BitsOf, PutField, Encodable, UniqueFields, IndexBits;
    ghost var s := w.Written();
    for k := 0 to |fs|
      invariant w.Kept() && IndicesIn(|d.fields|, fs[k..])
      invariant PutIndexed(Packed, w.Written(), d, fs[k..]) == PutIndexed(Packed, s, d, fs)
      invariant SelectedOk(d.fields, fs) <==> SelectedOk(d.fields, fs[k..])
    {
      assert fs[k..][1..] == fs[k + 1..];
      var (index, value) := fs[k];
      FieldsBounded(d);
      IndexFits(d, index);
      NoIndex(w.Written(), index);
      if bits > 0 {
        :- w.WriteBits(index, bits);
      }
      :- WriteFieldValue(d.fields[index].codec, value, w);
    }
    return Pass;
  }

  lemma NoIndex(s: Bits, index: nat)
    ensures PutBits(s, index, 0) == s
  {
  }

  lemma ComponentEntriesPut(s: Bits, schema: Schema, id: u32, u: UpdateComponent, rest: seq<UpdateComponent>,
                            d: ComponentDef)
    requires FindDef(schema.components, u.id) == Some(d)
    ensures PutEntries(Packed, s, schema, ComponentEntries(id, [u] + rest))
         == PutEntries(Packed, PutEntry(Packed, s, d, Entry(id, u)), schema, ComponentEntries(id, rest))
  {
    hide PutEntry, FindDef;
    assert ([u] + rest)[1..] == rest;
    assert ComponentEntries(id, [u] + rest)[1..] == ComponentEntries(id, rest);
  }

  method WriteListedEntity(schema: Schema, u: UpdateEntity, limits: CodecLimits, lookup: ComponentLookup, w: BitWriter)
    returns (r: Outcome)
    requires w.Valid() && ValidSchema(schema) && lookup.Agrees(schema) && ListedComponents(schema, limits, u.components)
    modifies w`bitPos, w.buf
    ensures w.Puts(r, ComponentsEncodable(schema, u.components),
                   PutEntries(Packed, old(w.Written()), schema, ComponentEntries(u.id, u.components)))
  {
    hide PutEntries, PutEntryHead, IndexBits, ValidComponent, FindDef;
    ghost var s := w.Written();
    var cs := u.components;
    for k := 0 to |cs|
      invariant w.Kept() && ListedComponents(schema, limits, cs[k..])
      invariant PutEntries(Packed, w.Written(), schema, ComponentEntries(u.id, cs[k..]))
             == PutEntries(Packed, s, schema, ComponentEntries(u.id, cs))
      invariant ComponentsEncodable(schema, cs) <==> ComponentsEncodable(schema, cs[k..])
    {
      assert cs[k..][1..] == cs[k + 1..] && cs[k..] == [cs[k]] + cs[k + 1..];
      var d := lookup.Component(schema, cs[k].id).value;
      ComponentEntriesPut(w.Written(), schema, u.id, cs[k], cs[k + 1..], d);
      FoundValid(schema.components, cs[k].id);
      :- WriteEntryHead(Packed, u.id, d.id, |cs[k].fields|, w);
      :- WriteListedFields(d, cs[k].fields, lookup.Bits(cs[k].id), w);
    }
    NothingPut(w.Written(), schema, u.id);
    return Pass;
  }

  lemma NothingPut(s: Bits, schema: Schema, id: u32)
    ensures PutEntries(Packed, s, schema, ComponentEntries(id, [])) == s
  {
  }

  lemma {:induction false} ListedKnown(schema: Schema, limits: CodecLimits, id: u32, cs: seq<UpdateComponent>)
    requires ListedComponents(schema, limits, cs)
    ensures AllEntriesKnown(schema.components, ComponentEntries(id, cs))
  {
    hide FindDef, IndicesIn;
    if cs != [] {
      ListedKnown(schema, limits, id, cs[1..]);
      assert ComponentEntries(id, cs)[1..] == ComponentEntries(id, cs[1..]);
    }
  }

  method CountEntries(us: seq<UpdateEntity>) returns (n: nat)
    ensures n == |Entries(us)|
  {
    hide ComponentEntries;
    n := 0;
    for k := 0 to |us|
      invariant n + |Entries(us[k..])| == |Entries(us)|
    {
      assert us[k..][1..] == us[k + 1..];
      n := n + |us[k].components|;
    }
  }

  method EncodeUpdateBodyFromUpdates(schema: Schema, us: seq<UpdateEntity>, limits: CodecLimits,
                                     lookup: ComponentLookup,
                                     w: BitWriter)
    returns (r: Outcome)
    requires w.Valid() && w.Written() == [] && ValidSchema(schema) && lookup.Agrees(schema)
    requires AllListed(schema, limits, us)
    modifies w`bitPos, w.buf
    ensures w.Puts(r, |us| <= limits.maxEntitiesUpdate && |Entries(us)| <= EntryLimit(limits)
                   && AllUpdatesEncodable(schema, us),
                   PutSparse(Packed, schema, us))
  {
    hide PutEntries, ValidSchema, ComponentLookup.Agrees, Entries;
    if |us| > limits.maxEntitiesUpdate {
      return Fail;
    }
    var entryCount := CountEntries(us);
    if entryCount > EntryLimit(limits) {
      return Fail;
    }
    :- WriteHead(w, entryCount);
    ghost var s := w.Written();
    for k := 0 to |us|
      invariant w.Kept() && AllListed(schema, limits, us[k..])
      invariant PutEntries(Packed, w.Written(), schema, Entries(us[k..])) == PutEntries(Packed, s, schema, Entries(us))
      invariant AllUpdatesEncodable(schema, us) <==> AllUpdatesEncodable(schema, us[k..])
    {
      assert us[k..][1..] == us[k + 1..] && us[k..] == [us[k]] + us[k + 1..];
      EntriesStep(us[k], us[k + 1..]);
      ListedKnown(schema, limits, us[k].id, us[k].components);
      PutEntriesConcat(Packed, w.Written(), schema, ComponentEntries(us[k].id, us[k].components), Entries(us[k + 1..]));
      :- WriteListedEntity(schema, us[k], limits, lookup, w);
    }
    NoEntriesPut(Packed, w.Written(), schema);
    var _ := w.AlignToByte();
    return Pass;
  }

  // ---- The payload ----

  /** Everything but room that encoding from lists demands. */
  predicate ListsOk(schema: Schema, d: Delta, limits: CodecLimits) {
    && WithinCounts(d, limits)
    && SortedIds(d.destroys)
    && Sorted(d.creates)
    && SortedUpdates(d.updates)
    && AllListed(schema, limits, d.updates)
    && AllCreateOk(schema, limits, d.creates)
    && AllUpdatesEncodable(schema, d.updates)
    && |Entries(d.updates)| <= EntryLimit(limits)
  }

  method PlaceListedDestroys(d: Delta, limits: CodecLimits, out: array<byte>, lo: nat, hi: nat) returns (r: Option<nat>)
    requires lo <= hi <= out.Length && |d.destroys| <= limits.maxEntitiesDestroy
    modifies out
    ensures PayloadPlaced(old(out[..]), out[..], lo, hi, r, true, DestroySections(d), limits)
  {
    hide PayloadPlaced, BitsOf, PutDestroys, Pack, SectionBytes;
    NothingPlaced(out[..], lo, hi, limits);
    if d.destroys == [] {
      return Some(0);
    }
    ghost var before := out[..];
    ghost var section := DestroySection(d.destroys);
    if hi - lo < RESERVED {
      NoRoom(before, lo, hi, section, true, limits);
      return None;
    }
    var w := OpenSection(out, lo, hi);
    var written := EncodeDestroyBodyFromList(d.destroys, limits, w);
    OutsideKept(before, out[..], lo, hi);
    if written.Fail? {
      OnePlaced(before, out[..], lo, hi, None, section, true, limits);
      return None;
    }
    ghost var middle := out[..];
    r := CloseSection(EntityDestroy, out, lo, hi, limits, w);
    Rebase(before, middle, out[..], lo, hi, r, section, true, limits);
  }

  lemma NoRoom(before: seq<byte>, lo: nat, hi: nat, s: Section, good: bool, limits: CodecLimits)
    requires lo <= hi <= |before| && hi - lo < RESERVED
    ensures PayloadPlaced(before, before, lo, hi, None, good, [s], limits)
  {
  }

  /** A section closed after its body was written stands where the buffer stood before the body. */
  lemma Rebase(before: seq<byte>, middle: seq<byte>, after: seq<byte>, lo: nat, hi: nat, r: Option<nat>, s: Section,
               good: bool, limits: CodecLimits)
    requires lo <= hi <= |before| && |middle| == |before| && middle[..lo] == before[..lo]
    requires middle[hi..] == before[hi..]
    requires Appended(middle, after, lo, hi, r, true, s, limits) && good
    ensures PayloadPlaced(before, after, lo, hi, r, good, [s], limits)
  {
    hide SectionBytes;
    OnePlaced(before, after, lo, hi, r, s, good, limits);
  }

  method PlaceListedCreates(schema: Schema, d: Delta, limits: CodecLimits, out: array<byte>, lo: nat, hi: nat)
    returns (r: Option<nat>)
    requires lo <= hi <= out.Length && |d.creates| <= limits.maxEntitiesCreate && ValidSchema(schema)
    modifies out
    ensures PayloadPlaced(old(out[..]), out[..], lo, hi, r, AllCreateOk(schema, limits, d.creates),
                          CreateSections(schema, d), limits)
  {
    hide PayloadPlaced, BitsOf, PutCreates, Pack, SectionBytes, ValidSchema;
    NothingPlaced(out[..], lo, hi, limits);
    if d.creates == [] {
      return Some(0);
    }
    hide AllCreateOk;
    ghost var before := out[..];
    ghost var section := CreateSection(schema, d.creates);
    ghost var good := AllCreateOk(schema, limits, d.creates);
    if hi - lo < RESERVED {
      NoRoom(before, lo, hi, section, good, limits);
      return None;
    }
    var w := OpenSection(out, lo, hi);
    var written := EncodeCreateBodyFromList(schema, d.creates, limits, w);
    OutsideKept(before, out[..], lo, hi);
    if written.Fail? {
      OnePlaced(before, out[..], lo, hi, None, section, good, limits);
      return None;
    }
    ghost var middle := out[..];
    r := CloseSection(EntityCreate, out, lo, hi, limits, w);
    Rebase(before, middle, out[..], lo, hi, r, section, good, limits);
  }

  method PlaceListedUpdates(schema: Schema, d: Delta, limits: CodecLimits, lookup: ComponentLookup,
                            out: array<byte>, lo: nat, hi: nat)
    returns (r: Option<nat>)
    requires lo <= hi <= out.Length && |d.updates| <= limits.maxEntitiesUpdate && ValidSchema(schema)
    requires lookup.Agrees(schema) && AllListed(schema, limits, d.updates)
    modifies out
    ensures PayloadPlaced(old(out[..]), out[..], lo, hi, r,
                          AllUpdatesEncodable(schema, d.updates) && |Entries(d.updates)| <= EntryLimit(limits),
                          UpdateSections(schema, d, Sparse), limits)
  {
    hide PayloadPlaced, BitsOf, PutSparse, Pack, SectionBytes, ValidSchema, ComponentLookup.Agrees;
    NothingPlaced(out[..], lo, hi, limits);
    if d.updates == [] {
      return Some(0);
    }
    hide AllUpdatesEncodable, Entries, AllListed;
    ghost var before := out[..];
    ghost var section := UpdateSection(Sparse, schema, d.updates);
    ghost var good := AllUpdatesEncodable(schema, d.updates) && |Entries(d.updates)| <= EntryLimit(limits);
    if hi - lo < RESERVED {
      NoRoom(before, lo, hi, section, good, limits);
      return None;
    }
    var w := OpenSection(out, lo, hi);
    var written := EncodeUpdateBodyFromUpdates(schema, d.updates, limits, lookup, w);
    OutsideKept(before, out[..], lo, hi);
    if written.Fail? {
      OnePlaced(before, out[..], lo, hi, None, section, good, limits);
      return None;
    }
    ghost var middle := out[..];
    r := CloseSection(EntityUpdateSparsePacked, out, lo, hi, limits, w);
    Rebase(before, middle, out[..], lo, hi, r, section, good, limits);
  }

  method EncodeDeltaPayloadFromUpdates(schema: Schema, d: Delta, limits: CodecLimits, out: array<byte>, lo: nat,
                                       hi: nat)
    returns (r: Option<nat>)
    requires lo <= hi <= out.Length && ValidSchema(schema)
    modifies out
    ensures PayloadPlaced(old(out[..]), out[..], lo, hi, r, ListsOk(schema, d, limits),
                          DeltaSections(schema, d, Sparse), limits)
  {
    hide PayloadPlaced, ComponentLookup.Agrees, DestroySections, CreateSections, UpdateSections;
    ghost var before := out[..];
    ghost var whole := ListsOk(schema, d, limits);
    ghost var A, B, C := DestroySections(d), CreateSections(schema, d), UpdateSections(schema, d, Sparse);
    assert A + (B + C) == A + B + C;
    var sortedIds := EnsureIdsSorted(d.destroys);
    var sortedCreates := EnsureEntitiesSorted(d.creates);
    var lookup := BuildComponentLookup(schema);
    var valid := ValidateUpdates(schema, d.updates, limits, lookup);
    if |d.destroys| > limits.maxEntitiesDestroy || |d.creates| > limits.maxEntitiesCreate
       || |d.updates| > limits.maxEntitiesUpdate || sortedIds.Fail? || sortedCreates.Fail? || valid.Fail? {
      NothingPromised(before, lo, hi, A + B + C, limits);
      return None;
    }
    var first := PlaceListedDestroys(d, limits, out, lo, hi);
    if first.None? {
      PlaceFailed(before, out[..], lo, hi, true, whole, A, B + C, limits);
      return None;
    }
    ghost var one := out[..];
    PlacedInside(before, one, lo, hi, first.value, A, limits);
    var second := PlaceListedCreates(schema, d, limits, out, lo + first.value, hi);
    ghost var createsOk := AllCreateOk(schema, limits, d.creates);
    PlaceMore(before, one, out[..], lo, hi, first.value, second, A, B, createsOk, limits);
    if second.None? {
      PlaceFailed(before, out[..], lo, hi, createsOk, whole, A + B, C, limits);
      return None;
    }
    var offset := first.value + second.value;
    ghost var two := out[..];
    Settled(before, two, lo, hi, offset, A + B, createsOk, limits);
    var third := PlaceListedUpdates(schema, d, limits, lookup, out, lo + offset, hi);
    PlaceMore(before, two, out[..], lo, hi, offset, third, A + B, C,
              AllUpdatesEncodable(schema, d.updates) && |Entries(d.updates)| <= EntryLimit(limits), limits);
    return if third.None? then None else Some(offset + third.value);
  }
}
