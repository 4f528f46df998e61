/** Decoders of the section bodies: loops over a bit reader that compute the `Get` functions. */
module Decoders {
  import opened Core
  import opened Bits
  import opened Bitstream
  import opened BitReaders
  import opened Schemas
  import opened Fields
  import opened Diffs
  import opened Layouts
  import opened UpdateLayouts
  import opened Wire

  method ReadId(rd: BitReader) returns (r: Option<u32>)
    requires rd.Valid()
    modifies rd`bitPos
    ensures rd.Gets(r, GetId(rd.data, old(rd.bitPos)))
  {
    var _ := rd.AlignToByte();
    r := rd.ReadU32Aligned();
  }

  method ReadMask(rd: BitReader, n: nat) returns (r: Option<seq<bool>>)
    requires rd.Valid()
    modifies rd`bitPos
    ensures rd.Gets(r, GetMask(rd.data, old(rd.bitPos), n))
  {
    hide BitsOf;
    if 8 * |rd.data| - rd.bitPos < n {
      return None;
    }
    ghost var p := rd.bitPos;
    ghost var bits := BitsOf(rd.data);
    var mask := [];
    for k := 0 to n
      invariant rd.Valid() && rd.bitPos == p + k && mask == bits[p..p + k]
    {
      var b := rd.ReadBit();
      assert bits[p..p + k] + [bits[p + k]] == bits[p..p + k + 1];
      mask := mask + [b.value];
    }
    return Some(mask);
  }

  /** Opens a body: the size check, and the count. */
  method ReadHead(rd: BitReader, limits: CodecLimits) returns (r: Option<u32>)
    requires rd.Valid() && rd.bitPos == 0
    modifies rd`bitPos
    ensures rd.Gets(r, GetHead(rd.data, limits))
  {
    if |rd.data| > limits.maxSectionBytes {
      return None;
    }
    var _ := rd.AlignToByte();
    r := rd.ReadVarU32();
  }

  /** Whether the reader, once aligned, has used the whole body. */
  method AtEnd(rd: BitReader) returns (r: Outcome)
    requires rd.Valid()
    modifies rd`bitPos
    ensures r.Pass? <==> GetEnd(rd.data, old(rd.bitPos), ()).Some?
  {
    var _ := rd.AlignToByte();
    if rd.bitPos != 8 * |rd.data| {
      return Fail;
    }
    return Pass;
  }

  // ---- Destroys ----

  method DecodeDestroySection(body: seq<byte>, limits: CodecLimits) returns (r: Option<seq<u32>>)
    ensures r == GetDestroys(body, limits)
  {
    hide GetId, GetHead;
    var rd := new BitReader(body);
    var count :- ReadHead(rd, limits);
    if count > limits.maxEntitiesDestroy {
      return None;
    }
    var ids: seq<u32> := [];
    var prev: Option<u32> := None;
    ghost var all := GetIds(body, rd.bitPos, count, None);
    PrependNone(all);
    for k := 0 to count
      invariant rd.Valid() && all == Prepend(ids, GetIds(body, rd.bitPos, count - k, prev))
    {
      ghost var p := rd.bitPos;
      var id :- ReadId(rd);
      if prev.Some? && id <= prev.value {
        return None;
      }
      PrependStep(ids, id, GetIds(body, rd.bitPos, count - k - 1, Some(id)));
      prev := Some(id);
      ids := ids + [id];
    }
    assert ids + [] == ids;
    var end := AtEnd(rd);
    if end.Fail? {
      return None;
    }
    return Some(ids);
  }

  // ---- Creates ----

  method DecodeFullComponent(d: ComponentDef, rd: BitReader, limits: CodecLimits) returns (r: Option<seq<FieldValue>>)
    requires rd.Valid() && ValidComponent(d)
    modifies rd`bitPos
    ensures rd.Gets(r, GetFull(rd.data, old(rd.bitPos), d, limits))
  {
    hide GetField, GetMask, UniqueFields;
    if |d.fields| > limits.maxFieldsPerComponent {
      return None;
    }
    var mask :- ReadMask(rd, |d.fields|);
    var values: seq<FieldValue> := [];
    ghost var all := GetValues(rd.data, rd.bitPos, d.fields);
    PrependNone(all);
    assert d.fields[0..] == d.fields;
    for k := 0 to |d.fields|
      invariant rd.Valid() && all == Prepend(values, GetValues(rd.data, rd.bitPos, d.fields[k..]))
      invariant forall i :: 0 <= i < k ==> mask[i]
    {
      assert d.fields[k..][1..] == d.fields[k + 1..];
      if !mask[k] {
        assert mask != Ones(|d.fields|);
        return None;
      }
      assert ValidCodec(d.fields[k].codec);
      var v :- ReadFieldValue(d.fields[k].codec, rd);
      PrependStep(values, v, GetValues(rd.data, rd.bitPos, d.fields[k + 1..]));
      values := values + [v];
    }
    assert values + [] == values;
    assert mask == Ones(|d.fields|);
    return Some(values);
  }

  method DecodeCreateEntity(schema: Schema, rd: BitReader, limits: CodecLimits, prev: Option<u32>)
    returns (r: Option<EntitySnapshot>)
    requires rd.Valid() && ValidSchema(schema)
    modifies rd`bitPos
    ensures rd.Valid()
    ensures match GetCreate(rd.data, old(rd.bitPos), schema, limits)
            case None => r.None?
            case Some(ep) => if After(prev, ep.0.id) then r == Some(ep.0) && rd.bitPos == ep.1 else r.None?
  {
    hide GetId, GetMask, GetFull, ValidComponent, UniqueIds;
    var defs := schema.components;
    var id :- ReadId(rd);
    if prev.Some? && id <= prev.value {
      return None;
    }
    var mask :- ReadMask(rd, |defs|);
    var cs: seq<ComponentSnapshot> := [];
    ghost var all := GetFulls(rd.data, rd.bitPos, defs, mask, limits);
    PrependNone(all);
    assert defs[0..] == defs && mask[0..] == mask;
    for k := 0 to |defs|
      invariant rd.Valid() && all == Prepend(cs, GetFulls(rd.data, rd.bitPos, defs[k..], mask[k..], limits))
    {
      assert defs[k..][1..] == defs[k + 1..] && mask[k..][1..] == mask[k + 1..];
      if mask[k] {
        assert ValidComponent(defs[k]);
        var fields :- DecodeFullComponent(defs[k], rd, limits);
        PrependStep(cs, ComponentSnapshot(defs[k].id, fields),
                    GetFulls(rd.data, rd.bitPos, defs[k + 1..], mask[k + 1..], limits));
        cs := cs + [ComponentSnapshot(defs[k].id, fields)];
      }
    }
    assert cs + [] == cs;
    return Some(EntitySnapshot(id, cs));
  }

  method DecodeCreateSection(schema: Schema, body: seq<byte>,
                             limits: CodecLimits) returns (r: Option<seq<EntitySnapshot>>)
    requires ValidSchema(schema)
    ensures r == GetCreates(body, schema, limits)
  {
    hide GetCreate, GetHead, ValidSchema;
    var rd := new BitReader(body);
    var count :- ReadHead(rd, limits);
    if count > limits.maxEntitiesCreate {
      return None;
    }
    var entities: seq<EntitySnapshot> := [];
    var prev: Option<u32> := None;
    ghost var all := GetCreateList(body, rd.bitPos, schema, limits, count, None);
    PrependNone(all);
    for k := 0 to count
      invariant rd.Valid() && all == Prepend(entities, GetCreateList(body, rd.bitPos, schema, limits, count - k, prev))
    {
      var e :- DecodeCreateEntity(schema, rd, limits, prev);
      PrependStep(entities, e, GetCreateList(body, rd.bitPos, schema, limits, count - k - 1, Some(e.id)));
      prev := Some(e.id);
      entities := entities + [e];
    }
    assert entities + [] == entities;
    var end := AtEnd(rd);
    if end.Fail? {
      return None;
    }
    return Some(entities);
  }

  // ---- Masked updates ----

  method DecodeUpdateComponent(d: ComponentDef, rd: BitReader, limits: CodecLimits)
    returns (r: Option<seq<(nat, FieldValue)>>)
    requires rd.Valid() && ValidComponent(d)
    modifies rd`bitPos
    ensures rd.Gets(r, GetMaskedComponent(rd.data, old(rd.bitPos), d, limits))
  {
    hide GetField, GetMask, UniqueFields;
    if |d.fields| > limits.maxFieldsPerComponent {
      return None;
    }
    var mask :- ReadMask(rd, |d.fields|);
    if true !in mask {
      return None;
    }
    var fields: seq<(nat, FieldValue)> := [];
    ghost var all := GetSelected(rd.data, rd.bitPos, d.fields, mask, 0);
    PrependNone(all);
    for k := 0 to |d.fields|
      invariant rd.Valid() && all == Prepend(fields, GetSelected(rd.data, rd.bitPos, d.fields, mask, k))
    {
      if mask[k] {
        assert ValidCodec(d.fields[k].codec);
        var v :- ReadFieldValue(d.fields[k].codec, rd);
        PrependStep(fields, (k, v), GetSelected(rd.data, rd.bitPos, d.fields, mask, k + 1));
        fields := fields + [(k, v)];
      }
    }
    assert fields + [] == fields;
    return Some(fields);
  }

  method DecodeMaskedEntity(schema: Schema, rd: BitReader, limits: CodecLimits, prev: Option<u32>)
    returns (r: Option<UpdateEntity>)
    requires rd.Valid() && ValidSchema(schema)
    modifies rd`bitPos
    ensures rd.Valid()
    ensures match GetMaskedEntity(rd.data, old(rd.bitPos), schema, limits)
            case None => r.None?
            case Some(up) => if After(prev, up.0.id) then r == Some(up.0) && rd.bitPos == up.1 else r.None?
  {
    hide GetId, GetMask, GetMaskedComponent, ValidComponent, UniqueIds;
    var defs := schema.components;
    var id :- ReadId(rd);
    if prev.Some? && id <= prev.value {
      return None;
    }
    var mask :- ReadMask(rd, |defs|);
    var us: seq<UpdateComponent> := [];
    ghost var all := GetMaskedComponents(rd.data, rd.bitPos, defs, mask, limits);
    PrependNone(all);
    assert defs[0..] == defs && mask[0..] == mask;
    for k := 0 to |defs|
      invariant rd.Valid() && all == Prepend(us, GetMaskedComponents(rd.data, rd.bitPos, defs[k..], mask[k..], limits))
    {
      assert defs[k..][1..] == defs[k + 1..] && mask[k..][1..] == mask[k + 1..];
      if mask[k] {
        assert ValidComponent(defs[k]);
        var fields :- DecodeUpdateComponent(defs[k], rd, limits);
        PrependStep(us, UpdateComponent(defs[k].id, fields),
                    GetMaskedComponents(rd.data, rd.bitPos, defs[k + 1..], mask[k + 1..], limits));
        us := us + [UpdateComponent(defs[k].id, fields)];
      }
    }
    assert us + [] == us;
    return Some(UpdateEntity(id, us));
  }

  method DecodeUpdateSectionMasked(schema: Schema, body: seq<byte>,
                                   limits: CodecLimits) returns (r: Option<seq<UpdateEntity>>)
    requires ValidSchema(schema)
    ensures r == GetMasked(body, schema, limits)
  {
    hide GetMaskedEntity, GetHead, ValidSchema;
    var rd := new BitReader(body);
    var count :- ReadHead(rd, limits);
    if count > limits.maxEntitiesUpdate {
      return None;
    }
    var updates: seq<UpdateEntity> := [];
    var prev: Option<u32> := None;
    ghost var all := GetMaskedList(body, rd.bitPos, schema, limits, count, None);
    PrependNone(all);
    for k := 0 to count
      invariant rd.Valid() && all == Prepend(updates, GetMaskedList(body, rd.bitPos, schema, limits, count - k, prev))
    {
      var u :- DecodeMaskedEntity(schema, rd, limits, prev);
      PrependStep(updates, u, GetMaskedList(body, rd.bitPos, schema, limits, count - k - 1, Some(u.id)));
      prev := Some(u.id);
      updates := updates + [u];
    }
    assert updates + [] == updates;
    var end := AtEnd(rd);
    if end.Fail? {
      return None;
    }
    return Some(updates);
  }

  // ---- Sparse updates ----

  method ReadIndex(layout: Layout, rd: BitReader, d: ComponentDef) returns (r: Option<nat>)
    requires rd.Valid()
    modifies rd`bitPos
    ensures rd.Gets(r, GetIndex(layout, rd.data, old(rd.bitPos), d))
  {
    hide GetBits, GetVar;
    match layout
    case Varint =>
      var _ := rd.AlignToByte();
      r := rd.ReadVarU32();
    case Packed =>
      var bits := IndexBits(d);
      if bits == 0 {
        NoBits(rd.data, rd.bitPos);
        return Some(0);
      }
      r := rd.ReadBits(bits);
  }

  method DecodeIndexed(layout: Layout, d: ComponentDef, count: nat,
                       rd: BitReader) returns (r: Option<seq<(nat, FieldValue)>>)
    requires rd.Valid() && ValidComponent(d)
    modifies rd`bitPos
    ensures rd.Gets(r, GetIndexed(layout, rd.data, old(rd.bitPos), d, count, 0))
  {
    hide GetField, GetIndex, UniqueFields;
    var fields: seq<(nat, FieldValue)> := [];
    var prev: Option<nat> := None;
    ghost var all := GetIndexed(layout, rd.data, rd.bitPos, d, count, 0);
    PrependNone(all);
    for k := 0 to count
      invariant rd.Valid()
      invariant all == Prepend(fields,
                               GetIndexed(layout, rd.data, rd.bitPos, d, count - k,
                                          if prev.None? then 0 else prev.value + 1))
    {
      var index :- ReadIndex(layout, rd, d);
      if index >= |d.fields| {
        return None;
      }
      if prev.Some? && index <= prev.value {
        return None;
      }
      prev := Some(index);
      assert ValidCodec(d.fields[index].codec);
      var v :- ReadFieldValue(d.fields[index].codec, rd);
      PrependStep(fields, (index, v), GetIndexed(layout, rd.data, rd.bitPos, d, count - k - 1, index + 1));
      fields := fields + [(index, v)];
    }
    assert fields + [] == fields;
    return Some(fields);
  }

  method ReadEntryIds(layout: Layout, rd: BitReader) returns (r: Option<(u32, u32)>)
    requires rd.Valid()
    modifies rd`bitPos
    ensures rd.Gets(r, GetEntryIds(layout, rd.data, old(rd.bitPos)))
  {
    hide GetVar, GetU16, GetU32;
    var _ := rd.AlignToByte();
    match layout
    case Varint =>
      var entity :- rd.ReadU32Aligned();
      var component :- rd.ReadU16Aligned();
      return Some((entity, component));
    case Packed =>
      var entity :- rd.ReadVarU32();
      var component :- rd.ReadVarU32();
      return Some((entity, component));
  }

  /** Reads one entry; ids out of order end the decoding before its fields are read. */
  method DecodeEntry(layout: Layout, schema: Schema, rd: BitReader, limits: CodecLimits, prev: Option<Entry>)
    returns (r: Option<Entry>)
    requires rd.Valid() && ValidSchema(schema)
    modifies rd`bitPos
    ensures rd.Valid()
    ensures match GetEntry(layout, rd.data, old(rd.bitPos), schema, limits)
            case None => r.None?
            case Some(ep) => if Follows(prev, ep.0) then r == Some(ep.0) && rd.bitPos == ep.1 else r.None?
  {
    hide GetEntryIds, GetVar, GetIndexed, ValidComponent, FindDef, UniqueIds;
    var ids :- ReadEntryIds(layout, rd);
    var (entity, component) := ids;
    if component >= 0x1_0000 || component == 0 {
      return None;
    }
    if prev.Some? {
      if entity < prev.value.entity {
        return None;
      }
      if entity == prev.value.entity && component <= prev.value.update.id {
        return None;
      }
    }
    var d :- FindDef(schema.components, component);
    FoundValid(schema.components, component);
    var count :- rd.ReadVarU32();
    if count == 0 || count > limits.maxFieldsPerComponent || count > |d.fields| {
      return None;
    }
    var fields :- DecodeIndexed(layout, d, count, rd);
    return Some(Entry(entity, UpdateComponent(component, fields)));
  }

  /** Both sparse decoders: entries are gathered into entity updates as they arrive. */
  method DecodeUpdateSectionSparse(layout: Layout, schema: Schema, body: seq<byte>, limits: CodecLimits)
    returns (r: Option<seq<UpdateEntity>>)
    requires ValidSchema(schema)
    ensures r == GetSparse(layout, body, schema, limits)
  {
    hide GetEntry, GetHead, ValidSchema, AddEntry;
    var rd := new BitReader(body);
    var count :- ReadHead(rd, limits);
    if count > EntryLimit(limits) {
      return None;
    }
    var updates: seq<UpdateEntity> := [];
    var prev: Option<Entry> := None;
    ghost var all := GetEntries(layout, body, rd.bitPos, schema, limits, count, None);
    for k := 0 to count
      invariant rd.Valid()
      invariant Gathered([], all)
             == Gathered(updates, GetEntries(layout, body, rd.bitPos, schema, limits, count - k, prev))
    {
      var e :- DecodeEntry(layout, schema, rd, limits, prev);
      GatheredStep(updates, e, GetEntries(layout, body, rd.bitPos, schema, limits, count - k - 1, Some(e)));
      prev := Some(e);
      if updates != [] && updates[|updates| - 1].id == e.entity {
        var last := updates[|updates| - 1];
        updates := updates[|updates| - 1 := UpdateEntity(e.entity, last.components + [e.update])];
      } else {
        updates := updates + [UpdateEntity(e.entity, [e.update])];
      }
    }
    var end := AtEnd(rd);
    if end.Fail? {
      return None;
    }
    if |updates| > limits.maxEntitiesUpdate {
      return None;
    }
    return Some(updates);
  }

  /** The entity updates once the entries still to be read are gathered onto `us`. */
  function Gathered(us: seq<UpdateEntity>, r: Option<(seq<Entry>, nat)>): Option<(seq<UpdateEntity>, nat)> {
    match r
    case None => None
    case Some(ep) => Some((Gather(us, ep.0), ep.1))
  }

  lemma GatheredStep(us: seq<UpdateEntity>, e: Entry, rest: Option<(seq<Entry>, nat)>)
    ensures Gathered(us, Prepend([e], rest)) == Gathered(AddEntry(us, e), rest)
    ensures AddEntry(us, e) ==
            if us != [] && us[|us| - 1].id == e.entity then
              us[|us| - 1 := UpdateEntity(e.entity, us[|us| - 1].components + [e.update])]
            else us + [UpdateEntity(e.entity, [e.update])]
  {
    if rest.Some? {
      assert ([e] + rest.value.0)[1..] == rest.value.0;
    }
  }

  // ---- All sections of a delta ----

  /** What has been seen of each kind of section so far. */
  datatype Seen = Seen(destroys: Option<seq<u32>>, creates: Option<seq<EntitySnapshot>>,
                       masked: Option<seq<UpdateEntity>>, sparse: Option<seq<UpdateEntity>>)

  function GetDeltaSection(seen: Seen, s: Section, schema: Schema, limits: CodecLimits): Option<Seen> {
    match s.tag
    case EntityDestroy =>
      if seen.destroys.Some? then None
      else var ids :- GetDestroys(s.body, limits); Some(seen.(destroys := Some(ids)))
    case EntityCreate =>
      if seen.creates.Some? then None
      else var es :- GetCreates(s.body, schema, limits); Some(seen.(creates := Some(es)))
    case EntityUpdate =>
      if seen.masked.Some? then None
      else var us :- GetMasked(s.body, schema, limits); Some(seen.(masked := Some(us)))
    case EntityUpdateSparse =>
      if seen.sparse.Some? then None
      else var us :- GetSparse(Varint, s.body, schema, limits); Some(seen.(sparse := Some(us)))
    case EntityUpdateSparsePacked =>
      if seen.sparse.Some? then None
      else var us :- GetSparse(Packed, s.body, schema, limits); Some(seen.(sparse := Some(us)))
    case SessionInit => None
  }

  function GetDeltaSections(seen: Seen, ss: seq<Section>, schema: Schema, limits: CodecLimits): Option<Seen>
    decreases |ss|
  {
    if ss == [] then Some(seen)
    else
      var next :- GetDeltaSection(seen, ss[0], schema, limits);
      GetDeltaSections(next, ss[1..], schema, limits)
  }

  function OrEmpty<T>(r: Option<seq<T>>): seq<T> {
    if r.Some? then r.value else []
  }

  /** At most one of the two update encodings may be present. */
  function GetDelta(ss: seq<Section>, schema: Schema, limits: CodecLimits): Option<Delta> {
    var seen :- GetDeltaSections(Seen(None, None, None, None), ss, schema, limits);
    if seen.masked.Some? && seen.sparse.Some? then None
    else Some(Delta(OrEmpty(seen.destroys), OrEmpty(seen.creates),
                    if seen.masked.Some? then seen.masked.value else OrEmpty(seen.sparse)))
  }

  method DecodeDeltaSection(seen: Seen, s: Section, schema: Schema, limits: CodecLimits) returns (r: Option<Seen>)
    requires ValidSchema(schema)
    ensures r == GetDeltaSection(seen, s, schema, limits)
  {
    hide GetDestroys, GetCreates, GetMasked, GetSparse, ValidSchema;
    match s.tag
    case EntityDestroy =>
      if seen.destroys.Some? {
        return None;
      }
      var ids :- DecodeDestroySection(s.body, limits);
      return Some(seen.(destroys := Some(ids)));
    case EntityCreate =>
      if seen.creates.Some? {
        return None;
      }
      var es :- DecodeCreateSection(schema, s.body, limits);
      return Some(seen.(creates := Some(es)));
    case EntityUpdate =>
      if seen.masked.Some? {
        return None;
      }
      var us :- DecodeUpdateSectionMasked(schema, s.body, limits);
      return Some(seen.(masked := Some(us)));
    case EntityUpdateSparse =>
      if seen.sparse.Some? {
        return None;
      }
      var us :- DecodeUpdateSectionSparse(Varint, schema, s.body, limits);
      return Some(seen.(sparse := Some(us)));
    case EntityUpdateSparsePacked =>
      if seen.sparse.Some? {
        return None;
      }
      var us :- DecodeUpdateSectionSparse(Packed, schema, s.body, limits);
      return Some(seen.(sparse := Some(us)));
    case SessionInit =>
      return None;
  }

  method DecodeDeltaSections(ss: seq<Section>, schema: Schema, limits: CodecLimits) returns (r: Option<Delta>)
    requires ValidSchema(schema)
    ensures r == GetDelta(ss, schema, limits)
  {
    hide GetDeltaSection, ValidSchema;
    var seen := Seen(None, None, None, None);
    ghost var all := GetDeltaSections(seen, ss, schema, limits);
    for k := 0 to |ss|
      invariant all == GetDeltaSections(seen, ss[k..], schema, limits)
    {
      assert ss[k..][1..] == ss[k + 1..];
      seen :- DecodeDeltaSection(seen, ss[k], schema, limits);
    }
    if seen.masked.Some? && seen.sparse.Some? {
      return None;
    }
    return Some(Delta(OrEmpty(seen.destroys), OrEmpty(seen.creates),
                      if seen.masked.Some? then seen.masked.value else OrEmpty(seen.sparse)));
  }
}
