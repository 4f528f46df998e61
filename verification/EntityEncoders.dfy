/** Encoders of the destroy and create section bodies, from snapshots or from lists. */
module EntityEncoders {
  import opened Core
  import opened Bits
  import opened Bitstream
  import opened BitWriters
  import opened Schemas
  import opened Fields
  import opened Diffs
  import opened Layouts
  import opened Walks

  method WriteId(w: BitWriter, id: u32) returns (r: Outcome)
    requires w.Valid()
    modifies w`bitPos, w.buf
    ensures w.Puts(r, true, PutId(old(w.Written()), id))
  {
    var _ := w.AlignToByte();
    r := w.WriteU32Aligned(id);
  }

  /** The count that opens a section body. */
  method WriteHead(w: BitWriter, n: nat) returns (r: Outcome)
    requires w.Valid() && w.Written() == []
    modifies w`bitPos, w.buf
    ensures w.Puts(r, true, PutHead(n))
  {
    var _ := w.AlignToByte();
    r := w.WriteVarU32(AsU32(n));
  }

  /** Writes one bit for each element of a mask. */
  method WriteMask(w: BitWriter, mask: seq<bool>) returns (r: Outcome)
    requires w.Valid()
    modifies w`bitPos, w.buf
    ensures w.Puts(r, true, old(w.Written()) + mask)
  {
    hide BitsOf;
    ghost var s := w.Written();
    for k := 0 to |mask|
      invariant w.Kept() && w.Written() == s + mask[..k]
    {
      assert s + mask[..k] + [mask[k]] == s + mask[..k + 1];
      assert |s + mask[..k + 1]| <= |s + mask|;
      :- w.WriteBit(mask[k]);
    }
    assert mask[..|mask|] == mask;
    return Pass;
  }

  // ---- Destroys ----

  method EncodeDestroyBody(baseline: seq<EntitySnapshot>, current: seq<EntitySnapshot>, count: nat,
                           limits: CodecLimits, w: BitWriter)
    returns (r: Outcome)
    requires w.Valid() && w.Written() == []
    requires Sorted(baseline) && Sorted(current) && count == |Missing(baseline, current)|
    modifies w`bitPos, w.buf
    ensures w.Puts(r, count <= limits.maxEntitiesDestroy, PutDestroys(Ids(Missing(baseline, current))))
  {
    hide BitsOf, PutId, PutHead, EntityMap;
    if count > limits.maxEntitiesDestroy {
      return Fail;
    }
    :- WriteHead(w, count);
    ghost var all := PutIds(w.Written(), Ids(Missing(baseline, current)));
    var i, j := 0, 0;
    assert baseline[0..] == baseline;
    while i < |baseline| || j < |current|
      invariant WalkAt(baseline, current, i, j) && w.Kept()
      invariant PutIds(w.Written(), Ids(Missing(baseline[i..], current))) == all
      decreases |baseline| - i + |current| - j
    {
      if i < |baseline| && (j < |current| ==> baseline[i].id < current[j].id) {
        WalkLess(baseline, current, i, j);
        PutIdsStep(w.Written(), baseline[i], Missing(baseline[i + 1..], current));
        :- WriteId(w, baseline[i].id);
        i := i + 1;
      } else if j < |current| && (i < |baseline| ==> current[j].id < baseline[i].id) {
        WalkGreater(baseline, current, i, j);
        j := j + 1;
      } else {
        WalkEqual(baseline, current, i, j);
        i, j := i + 1, j + 1;
      }
    }
    var _ := w.AlignToByte();
    return Pass;
  }

  lemma {:induction false} PutIdsStep(s: Bits, e: EntitySnapshot, rest: seq<EntitySnapshot>)
    ensures PutIds(s, Ids([e] + rest)) == PutIds(PutId(s, e.id), Ids(rest))
  {
    hide PutId;
    assert Ids([e] + rest)[1..] == Ids(rest);
  }

  method EncodeDestroyBodyFromList(destroys: seq<u32>, limits: CodecLimits, w: BitWriter) returns (r: Outcome)
    requires w.Valid() && w.Written() == []
    modifies w`bitPos, w.buf
    ensures w.Puts(r, |destroys| <= limits.maxEntitiesDestroy, PutDestroys(destroys))
  {
    hide BitsOf, PutId, PutHead;
    if |destroys| > limits.maxEntitiesDestroy {
      return Fail;
    }
    :- WriteHead(w, |destroys|);
    ghost var all := PutIds(w.Written(), destroys);
    for k := 0 to |destroys|
      invariant w.Kept() && PutIds(w.Written(), destroys[k..]) == all
    {
      assert destroys[k..][1..] == destroys[k + 1..];
      :- WriteId(w, destroys[k]);
    }
    var _ := w.AlignToByte();
    return Pass;
  }

  // ---- Creates ----

  method EnsureKnownComponents(schema: Schema, e: EntitySnapshot) returns (r: Outcome)
    ensures r.Pass? <==> AllKnown(schema.components, e.components)
  {
    for k := 0 to |e.components|
      invariant AllKnown(schema.components, e.components) <==> AllKnown(schema.components, e.components[k..])
    {
      assert e.components[k..][1..] == e.components[k + 1..];
      if FindDef(schema.components, e.components[k].id).None? {
        return Fail;
      }
    }
    return Pass;
  }

  method WriteFullComponent(d: ComponentDef, c: ComponentSnapshot, limits: CodecLimits, w: BitWriter)
    returns (r: Outcome)
    requires w.Valid() && ValidComponent(d)
    modifies w`bitPos, w.buf
    ensures w.Puts(r, FullOk(d, limits, Some(c)), PutFull(old(w.Written()), d, c))
  {
    hide BitsOf, Encodable, PutField;
    if |c.fields| != |d.fields| {
      if AllEncodable(d.fields, c.fields) {
        EncodableLength(d.fields, c.fields);
      }
      return Fail;
    }
    if |c.fields| > limits.maxFieldsPerComponent {
      return Fail;
    }
    :- WriteMask(w, Ones(|d.fields|));
    ghost var all := PutValues(w.Written(), d.fields, c.fields);
    for k := 0 to |d.fields|
      invariant w.Kept()
      invariant PutValues(w.Written(), d.fields[k..], c.fields[k..]) == all
      invariant AllEncodable(d.fields, c.fields) <==> AllEncodable(d.fields[k..], c.fields[k..])
    {
      assert d.fields[k..][1..] == d.fields[k + 1..] && c.fields[k..][1..] == c.fields[k + 1..];
      assert ValidCodec(d.fields[k].codec);
      :- WriteFieldValue(d.fields[k].codec, c.fields[k], w);
    }
    return Pass;
  }

  method WriteCreateEntity(schema: Schema, e: EntitySnapshot, limits: CodecLimits, w: BitWriter)
    returns (r: Outcome)
    requires w.Valid() && ValidSchema(schema)
    modifies w`bitPos, w.buf
    ensures w.Puts(r, CreateOk(schema, limits, e), PutCreate(old(w.Written()), schema, e))
  {
    hide BitsOf, PutId, PutFull, FullOk, AllKnown, ValidComponent;
    var defs, cs := schema.components, e.components;
    :- WriteId(w, e.id);
    :- EnsureKnownComponents(schema, e);
    :- WriteMask(w, Presence(defs, cs));
    ghost var all := PutFulls(w.Written(), defs, cs);
    assert defs[0..] == defs;
    for k := 0 to |defs|
      invariant w.Kept()
      invariant PutFulls(w.Written(), defs[k..], cs) == all
      invariant FullsOk(defs, limits, cs) <==> FullsOk(defs[k..], limits, cs)
    {
      assert defs[k..][1..] == defs[k + 1..];
      var found := FindComponent(cs, defs[k].id);
      AbsentFullOk(defs[k], limits);
      if found.Some? {
        assert ValidComponent(defs[k]);
        :- WriteFullComponent(defs[k], found.value, limits, w);
      }
    }
    return Pass;
  }

  lemma AbsentFullOk(d: ComponentDef, limits: CodecLimits)
    ensures FullOk(d, limits, None)
  {
  }

  method EncodeCreateBody(schema: Schema, baseline: seq<EntitySnapshot>, current: seq<EntitySnapshot>, count: nat,
                          limits: CodecLimits, w: BitWriter)
    returns (r: Outcome)
    requires w.Valid() && w.Written() == [] && ValidSchema(schema)
    requires Sorted(baseline) && Sorted(current) && count == |Missing(current, baseline)|
    modifies w`bitPos, w.buf
    ensures w.Puts(r, count <= limits.maxEntitiesCreate && AllCreateOk(schema, limits, Missing(current, baseline)),
                   PutCreates(schema, Missing(current, baseline)))
  {
    hide BitsOf, PutCreate, PutHead, EntityMap, CreateOk;
    if count > limits.maxEntitiesCreate {
      return Fail;
    }
    ghost var created := Missing(current, baseline);
    :- WriteHead(w, count);
    ghost var all := PutCreateList(w.Written(), schema, created);
    var i, j := 0, 0;
    assert current[0..] == current;
    while i < |baseline| || j < |current|
      invariant WalkAt(baseline, current, i, j) && w.Kept()
      invariant PutCreateList(w.Written(), schema, Missing(current[j..], baseline)) == all
      invariant AllCreateOk(schema, limits, created) <==> AllCreateOk(schema, limits, Missing(current[j..], baseline))
      decreases |baseline| - i + |current| - j
    {
      if i < |baseline| && (j < |current| ==> baseline[i].id < current[j].id) {
        WalkLess(baseline, current, i, j);
        i := i + 1;
      } else if j < |current| && (i < |baseline| ==> current[j].id < baseline[i].id) {
        WalkGreater(baseline, current, i, j);
        assert Missing(current[j..], baseline)[1..] == Missing(current[j + 1..], baseline);
        :- WriteCreateEntity(schema, current[j], limits, w);
        j := j + 1;
      } else {
        WalkEqual(baseline, current, i, j);
        i, j := i + 1, j + 1;
      }
    }
    var _ := w.AlignToByte();
    return Pass;
  }

  method EncodeCreateBodyFromList(schema: Schema, creates: seq<EntitySnapshot>, limits: CodecLimits, w: BitWriter)
    returns (r: Outcome)
    requires w.Valid() && w.Written() == [] && ValidSchema(schema)
    modifies w`bitPos, w.buf
    ensures w.Puts(r, |creates| <= limits.maxEntitiesCreate && AllCreateOk(schema, limits, creates),
                   PutCreates(schema, creates))
  {
    hide BitsOf, PutCreate, PutHead, CreateOk;
    if |creates| > limits.maxEntitiesCreate {
      return Fail;
    }
    :- WriteHead(w, |creates|);
    ghost var all := PutCreateList(w.Written(), schema, creates);
    for k := 0 to |creates|
      invariant w.Kept() && PutCreateList(w.Written(), schema, creates[k..]) == all
      invariant AllCreateOk(schema, limits, creates) <==> AllCreateOk(schema, limits, creates[k..])
    {
      assert creates[k..][1..] == creates[k + 1..];
      :- WriteCreateEntity(schema, creates[k], limits, w);
    }
    var _ := w.AlignToByte();
    return Pass;
  }
}
