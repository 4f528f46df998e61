/** Encoders of the sparse update bodies from a pair of snapshots, and the choice between layouts. */
module SparseEncoders {
  import opened Core
  import opened Bits
  import opened Bitstream
  import opened BitWriters
  import opened Schemas
  import opened Fields
  import opened Diffs
  import opened Layouts
  import opened UpdateLayouts
  import opened Encodings
  import opened Scratches
  import opened Walks
  import opened EntityEncoders
  import opened UpdateEncoders

  // ---- One entry ----

  method WriteEntryHead(layout: Layout, entity: u32, component: u16, count: nat, w: BitWriter) returns (r: Outcome)
    requires w.Valid()
    modifies w`bitPos, w.buf
    ensures w.Puts(r, true, PutEntryHead(layout, old(w.Written()), entity, component, count))
  {
    hide BitsOf, LittleEndian, VarBytes;
    match layout
    case Varint =>
      :- WriteId(w, entity);
      :- w.WriteU16Aligned(component);
      r := w.WriteVarU32(AsU32(count));
    case Packed =>
      var _ := w.AlignToByte();
      :- w.WriteVarU32(entity);
      :- w.WriteVarU32(component);
      r := w.WriteVarU32(AsU32(count));
  }

  method WriteIndex(layout: Layout, d: ComponentDef, index: nat, w: BitWriter) returns (r: Outcome)
    requires w.Valid() && index < |d.fields| && UniqueFields(d.fields)
    modifies w`bitPos, w.buf
    ensures w.Puts(r, true, PutIndex(layout, old(w.Written()), d, index))
  {
    hide BitsOf;
    match layout
    case Varint =>
      var _ := w.AlignToByte();
      r := w.WriteVarU32(AsU32(index));
    case Packed =>
      FieldsBounded(d);
      IndexFits(d, index);
      r := Pass;
      var bits := IndexBits(d);
      if bits > 0 {
        r := w.WriteBits(index, bits);
      }
  }

  /** Writes the values a mask selects, each after its index. */
  method WriteIndexed(layout: Layout, d: ComponentDef, mask: seq<bool>, values: seq<FieldValue>, w: BitWriter)
    returns (r: Outcome)
    requires w.Valid() && |d.fields| == |mask| == |values| && ValidComponent(d)
    modifies w`bitPos, w.buf
    ensures w.Puts(r, SelectedOk(d.fields, Selected(mask, values, 0)),
                   PutIndexed(layout, old(w.Written()), d, Selected(mask, values, 0)))
  {
    hide BitsOf, PutField, Encodable, PutIndex, UniqueFields;
    ghost var s := w.Written();
    ghost var all := Selected(mask, values, 0);
    for k := 0 to |d.fields|
      invariant w.Kept()
      invariant PutIndexed(layout, w.Written(), d, Selected(mask, values, k)) == PutIndexed(layout, s, d, all)
      invariant SelectedOk(d.fields, all) <==> SelectedOk(d.fields, Selected(mask, values, k))
    {
      SelectedStep(mask, values, k);
      if mask[k] {
        :- WriteIndex(layout, d, k, w);
        :- WriteFieldValue(d.fields[k].codec, values[k], w);
      }
    }
    return Pass;
  }

  // ---- One entity ----

  predicate AllEntriesKnown(defs: seq<ComponentDef>, es: seq<Entry>) {
    es == [] || (FindDef(defs, es[0].update.id).Some? && AllEntriesKnown(defs, es[1..]))
  }

  /** Appending entries of known components composes. */
  lemma {:induction false} PutEntriesConcat(layout: Layout, s: Bits, schema: Schema, a: seq<Entry>, b: seq<Entry>)
    requires AllEntriesKnown(schema.components, a)
    ensures PutEntries(layout, s, schema, a + b) == PutEntries(layout, PutEntries(layout, s, schema, a), schema, b)
    decreases |a|
  {
    hide PutEntry, FindDef;
    if a == [] {
      assert a + b == b;
    } else {
      assert (a + b)[0] == a[0] && (a + b)[1..] == a[1..] + b;
      var d := FindDef(schema.components, a[0].update.id).value;
      PutEntriesConcat(layout, PutEntry(layout, s, d, a[0]), schema, a[1..], b);
    }
  }

  lemma {:induction false} DiffEntriesKnown(all: seq<ComponentDef>, defs: seq<ComponentDef>, base: EntitySnapshot,
                                            curr: EntitySnapshot, id: u32)
    requires AllFound(all, defs)
    ensures AllEntriesKnown(all, ComponentEntries(id, DiffComponents(defs, base, curr)))
  {
    hide FindDef, DiffFields;
    if defs != [] {
      DiffEntriesKnown(all, defs[1..], base, curr, id);
      var us := DiffComponents(defs, base, curr);
      if DiffFields(defs[0], base, curr) != [] {
        assert us[1..] == DiffComponents(defs[1..], base, curr);
        assert ComponentEntries(id, us)[1..] == ComponentEntries(id, us[1..]);
      } else {
        assert us == DiffComponents(defs[1..], base, curr);
      }
    }
  }

  /** The entries of the components from the `k`-th on, one step further. */
  lemma DiffEntriesStep(layout: Layout, s: Bits, schema: Schema, k: nat, base: EntitySnapshot, curr: EntitySnapshot,
                        id: u32)
    requires k < |schema.components| && UniqueIds(schema.components)
    ensures var d := schema.components[k];
            var es := ComponentEntries(id, DiffComponents(schema.components[k..], base, curr));
            var rest := ComponentEntries(id, DiffComponents(schema.components[k + 1..], base, curr));
            var fs := DiffFields(d, base, curr);
            PutEntries(layout, s, schema, es) ==
            if fs == [] then PutEntries(layout, s, schema, rest)
            else PutEntries(layout, PutEntry(layout, s, d, Entry(id, UpdateComponent(d.id, fs))), schema, rest)
  {
    hide PutEntry, FindDef, DiffFields;
    var defs := schema.components;
    UniqueSuffix(defs, k);
    DiffStep(defs[k..], base, curr);
    assert defs[k..][1..] == defs[k + 1..];
    DefAt(defs, k);
    var us := DiffComponents(defs[k..], base, curr);
    if DiffFields(defs[k], base, curr) != [] {
      assert ComponentEntries(id, us)[1..] == ComponentEntries(id, us[1..]);
    }
  }

  method WriteSparseEntity(layout: Layout, schema: Schema, b: EntitySnapshot, c: EntitySnapshot, limits: CodecLimits,
                           scratch: CodecScratch, w: BitWriter)
    returns (r: Outcome)
    requires w.Valid() && ValidSchema(schema)
    modifies w`bitPos, w.buf, scratch
    ensures w.Puts(r, Comparable(schema.components, limits, b, c) && DiffEncodable(schema.components, b, c),
                   PutEntries(layout, old(w.Written()), schema,
                              ComponentEntries(c.id, DiffComponents(schema.components, b, c))))
  {
    hide FindComponent, SelectedOk, PutEntries, PutEntryHead, ComponentEntries, DiffComponents, UniqueFields,
      ValidCodecs;
    var defs := schema.components;
    ghost var target := PutEntries(layout, w.Written(), schema, ComponentEntries(c.id, DiffComponents(defs, b, c)));
    assert defs[0..] == defs;
    for k := 0 to |defs|
      invariant w.Kept()
      invariant PutEntries(layout, w.Written(), schema, ComponentEntries(c.id, DiffComponents(defs[k..], b, c)))
             == target
      invariant Comparable(defs, limits, b, c) <==> Comparable(defs[k..], limits, b, c)
      invariant DiffEncodable(defs, b, c) <==> DiffEncodable(defs[k..], b, c)
    {
      var d := defs[k];
      assert defs[k..][1..] == defs[k + 1..];
      DiffEntriesStep(layout, w.Written(), schema, k, b, c, c.id);
      NothingSelectedOk(d.fields);
      var diff := DiffComponent(d, b, c, limits, scratch, |defs|);
      if diff.None? {
        return Fail;
      }
      if diff.value {
        var values := FindComponent(c.components, d.id).value.fields;
        var mask := scratch.fieldMask[..|d.fields|];
        SelectedCount(mask, values, 0);
        assert mask[0..] == mask;
        assert ValidComponent(d);
        :- WriteEntryHead(layout, c.id, d.id, CountTrue(mask), w);
        :- WriteIndexed(layout, d, mask, values, w);
      }
    }
    NoEntriesLeft(layout, w.Written(), schema, c.id, b, c);
    assert defs[|defs|..] == [];
    return Pass;
  }

  lemma NoEntriesLeft(layout: Layout, s: Bits, schema: Schema, id: u32, b: EntitySnapshot, c: EntitySnapshot)
    ensures PutEntries(layout, s, schema, ComponentEntries(id, DiffComponents([], b, c))) == s
  {
  }

  // ---- Counting and the body ----

  method CountEntityEntries(schema: Schema, b: EntitySnapshot, c: EntitySnapshot, limits: CodecLimits,
                            scratch: CodecScratch)
    returns (r: Option<nat>)
    requires UniqueIds(schema.components)
    modifies scratch
    ensures r.Some? <==> Comparable(schema.components, limits, b, c)
    ensures r.Some? ==> r.value == |DiffComponents(schema.components, b, c)|
  {
    hide DiffFields, ComponentComparable, FindComponent, MaskReady;
    var defs := schema.components;
    var count := 0;
    assert defs[0..] == defs;
    for k := 0 to |defs|
      invariant count + |DiffComponents(defs[k..], b, c)| == |DiffComponents(defs, b, c)|
      invariant Comparable(defs, limits, b, c) <==> Comparable(defs[k..], limits, b, c)
    {
      assert defs[k..][1..] == defs[k + 1..];
      UniqueSuffix(defs, k);
      DiffStep(defs[k..], b, c);
      var diff :- DiffComponent(defs[k], b, c, limits, scratch, |defs|);
      if diff {
        count := count + 1;
      }
    }
    return Some(count);
  }

  lemma EntriesStep(us: UpdateEntity, rest: seq<UpdateEntity>)
    ensures Entries([us] + rest) == ComponentEntries(us.id, us.components) + Entries(rest)
  {
    assert ([us] + rest)[1..] == rest;
  }

  method CountSparseUpdateEntries(schema: Schema, baseline: seq<EntitySnapshot>, current: seq<EntitySnapshot>,
                                  limits: CodecLimits, scratch: CodecScratch)
    returns (r: Option<nat>)
    requires Sorted(baseline) && Sorted(current) && UniqueIds(schema.components)
    modifies scratch
    ensures r.Some? <==> AllComparable(schema, limits, Common(baseline, current))
    ensures r.Some? ==> r.value == |Entries(DiffPairs(schema, Common(baseline, current)))|
  {
    hide ComponentEntries;
    NoPairs(schema, limits);
    ghost var pairs := Common(baseline, current);
    var i, j, count := 0, 0, 0;
    assert baseline[0..] == baseline;
    while i < |baseline| && j < |current|
      invariant WalkAt(baseline, current, i, j)
      invariant AllComparable(schema, limits, pairs) <==> AllComparable(schema, limits, Common(baseline[i..], current))
      invariant count + |Entries(DiffPairs(schema, Common(baseline[i..], current)))|
             == |Entries(DiffPairs(schema, pairs))|
      decreases |baseline| - i + |current| - j
    {
      if baseline[i].id < current[j].id {
        WalkLess(baseline, current, i, j);
        i := i + 1;
      } else if current[j].id < baseline[i].id {
        WalkGreater(baseline, current, i, j);
        j := j + 1;
      } else {
        WalkEqual(baseline, current, i, j);
        var b, c := baseline[i], current[j];
        ghost var rest := Common(baseline[i + 1..], current);
        DiffPairsStep(schema, limits, (b, c), rest);
        var changed := EntityHasUpdates(schema.components, b, c, limits);
        if changed.None? {
          return None;
        }
        if changed.value {
          EntriesStep(UpdateEntity(c.id, DiffComponents(schema.components, b, c)), DiffPairs(schema, rest));
          var n := CountEntityEntries(schema, b, c, limits, scratch);
          if n.None? {
            return None;
          }
          count := count + n.value;
        }
        i, j := i + 1, j + 1;
      }
    }
    WalkEnd(baseline, current, i, j);
    assert Entries([]) == [] by { NoEntries(); }
    return Some(count);
  }

  lemma NoEntries()
    ensures Entries([]) == []
  {
  }

  method EncodeUpdateBodySparse(layout: Layout, schema: Schema, baseline: seq<EntitySnapshot>,
                                current: seq<EntitySnapshot>,
                                count: nat, limits: CodecLimits, scratch: CodecScratch, w: BitWriter)
    returns (r: Outcome)
    requires w.Valid() && w.Written() == [] && ValidSchema(schema)
    requires Sorted(baseline) && Sorted(current)
    modifies w`bitPos, w.buf, scratch
    ensures w.Puts(r, count <= limits.maxEntitiesUpdate
                      && AllComparable(schema, limits, Common(baseline, current))
                      && |Entries(DiffPairs(schema, Common(baseline, current)))| <= EntryLimit(limits)
                      && ChangesEncodable(schema, Common(baseline, current)),
                   PutSparse(layout, schema, DiffPairs(schema, Common(baseline, current))))
  {
    hide PutHead, Comparable, DiffComponents, DiffEncodable, PutEntries, AllComparable, ChangesEncodable, DiffPairs,
      Common, Missing, Entries, ComponentEntries, FindDef;
    NoPairs(schema, limits);
    ghost var pairs := Common(baseline, current);
    ghost var es := Entries(DiffPairs(schema, pairs));
    if count > limits.maxEntitiesUpdate {
      return Fail;
    }
    var entryCount := CountSparseUpdateEntries(schema, baseline, current, limits, scratch);
    if entryCount.None? {
      return Fail;
    }
    if entryCount.value > EntryLimit(limits) {
      return Fail;
    }
    :- WriteHead(w, entryCount.value);
    ghost var target := PutEntries(layout, w.Written(), schema, es);
    var i, j := 0, 0;
    assert baseline[0..] == baseline;
    while i < |baseline| && j < |current|
      invariant WalkAt(baseline, current, i, j) && w.Kept()
      invariant PutEntries(layout, w.Written(), schema, Entries(DiffPairs(schema, Common(baseline[i..], current))))
             == target
      invariant AllComparable(schema, limits, pairs) <==> AllComparable(schema, limits, Common(baseline[i..], current))
      invariant ChangesEncodable(schema, pairs) <==> ChangesEncodable(schema, Common(baseline[i..], current))
      decreases |baseline| - i + |current| - j
    {
      if baseline[i].id < current[j].id {
        WalkLess(baseline, current, i, j);
        i := i + 1;
      } else if current[j].id < baseline[i].id {
        WalkGreater(baseline, current, i, j);
        j := j + 1;
      } else {
        WalkEqual(baseline, current, i, j);
        var b, c := baseline[i], current[j];
        ghost var rest := Common(baseline[i + 1..], current);
        DiffPairsStep(schema, limits, (b, c), rest);
        EncodableStep(schema, (b, c), rest);
        var changed := EntityHasUpdates(schema.components, b, c, limits);
        if changed.None? {
          return Fail;
        }
        if changed.value {
          SparseStep(layout, w.Written(), schema, b, c, DiffPairs(schema, rest));
          :- WriteSparseEntity(layout, schema, b, c, limits, scratch, w);
        }
        i, j := i + 1, j + 1;
      }
    }
    WalkEnd(baseline, current, i, j);
    assert PutEntries(layout, w.Written(), schema, Entries([]))
      == w.Written() by { NoEntriesPut(layout, w.Written(), schema); }
    var _ := w.AlignToByte();
    return Pass;
  }

  lemma NoEntriesPut(layout: Layout, s: Bits, schema: Schema)
    ensures PutEntries(layout, s, schema, Entries([])) == s
  {
  }

  lemma SparseStep(layout: Layout, s: Bits, schema: Schema, b: EntitySnapshot, c: EntitySnapshot,
                   rest: seq<UpdateEntity>)
    requires UniqueIds(schema.components)
    ensures var u := UpdateEntity(c.id, DiffComponents(schema.components, b, c));
            PutEntries(layout, s, schema, Entries([u] + rest)) ==
            PutEntries(layout, PutEntries(layout, s, schema, ComponentEntries(u.id, u.components)), schema,
                       Entries(rest))
  {
    hide PutEntries, FindDef, DiffComponents;
    var u := UpdateEntity(c.id, DiffComponents(schema.components, b, c));
    EntriesStep(u, rest);
    UniqueAllFound(schema.components, 0);
    assert schema.components[0..] == schema.components;
    DiffEntriesKnown(schema.components, schema.components, b, c, c.id);
    PutEntriesConcat(layout, s, schema, ComponentEntries(u.id, u.components), Entries(rest));
  }
}
