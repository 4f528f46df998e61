/** Encoders of the update section bodies from a pair of snapshots. */
module UpdateEncoders {
  import opened Core
  import opened Bits
  import opened Bitstream
  import opened BitWriters
  import opened Schemas
  import opened Fields
  import opened Diffs
  import opened Layouts
  import opened UpdateLayouts
  import opened Scratches
  import opened Walks
  import opened EntityEncoders

  // ---- Change detection ----

  /** The change predicate; `None` when the two values are of different kinds. */
  function TryFieldChanged(f: FieldDef, base: FieldValue, curr: FieldValue): Option<bool> {
    if SameKind(base, curr) then Some(FieldChanged(f, base, curr)) else None
  }

  /** Stops at the first changed field, so later fields may not have been looked at. */
  method AnyFieldChanged(fields: seq<FieldDef>, base: seq<FieldValue>, curr: seq<FieldValue>) returns (r: Option<bool>)
    requires |fields| == |base| == |curr|
    ensures r.None? ==> !SameKinds(base, curr)
    ensures r == Some(false) ==> SameKinds(base, curr)
    ensures r.Some? && SameKinds(base, curr) ==> (r.value <==> true in FieldMask(fields, base, curr))
  {
    hide FieldChanged;
    for k := 0 to |fields|
      invariant forall i :: 0 <= i < k ==> SameKind(base[i], curr[i]) && !FieldChanged(fields[i], base[i], curr[i])
    {
      var changed :- TryFieldChanged(fields[k], base[k], curr[k]);
      if changed {
        assert SameKinds(base, curr) ==> FieldMask(fields, base, curr)[k];
        return Some(true);
      }
    }
    return Some(false);
  }

  /**
   Whether any field of any component has changed. `Some(true)` may be returned before
   every component has been checked.
   */
  method EntityHasUpdates(defs: seq<ComponentDef>, base: EntitySnapshot, curr: EntitySnapshot, limits: CodecLimits)
    returns (r: Option<bool>)
    ensures r.None? ==> !Comparable(defs, limits, base, curr)
    ensures r == Some(false) ==> Comparable(defs, limits, base, curr)
    ensures r.Some? && Comparable(defs, limits, base, curr) ==> (r.value <==> DiffComponents(defs, base, curr) != [])
  {
    hide FieldMask, Selected, SameKinds, FindComponent;
    var present := EnsurePresenceMatches(defs, base, curr, limits);
    if present.Fail? {
      return None;
    }
    assert defs[0..] == defs;
    for k := 0 to |defs|
      invariant Comparable(defs, limits, base, curr) <==> Comparable(defs[k..], limits, base, curr)
      invariant DiffComponents(defs, base, curr) == DiffComponents(defs[k..], base, curr)
    {
      var d := defs[k];
      assert defs[k..][1..] == defs[k + 1..];
      assert [] + DiffComponents(defs[k + 1..], base, curr) == DiffComponents(defs[k + 1..], base, curr);
      var b, c := FindComponent(base.components, d.id), FindComponent(curr.components, d.id);
      if b.Some? && c.Some? {
        if |b.value.fields| != |d.fields| || |c.value.fields| != |d.fields| {
          KindsLength(b.value.fields, c.value.fields);
          return None;
        }
        if |d.fields| > limits.maxFieldsPerComponent {
          return None;
        }
        var changed :- AnyFieldChanged(d.fields, b.value.fields, c.value.fields);
        if SameKinds(b.value.fields, c.value.fields) {
          ghost var mask := FieldMask(d.fields, b.value.fields, c.value.fields);
          SelectedEmpty(mask, c.value.fields, 0);
          assert mask[0..] == mask;
        }
        if changed {
          return Some(true);
        }
      }
    }
    return Some(false);
  }

  lemma KindsLength(a: seq<FieldValue>, b: seq<FieldValue>)
    ensures SameKinds(a, b) ==> |a| == |b|
  {
  }

  method EnsurePresenceMatches(defs: seq<ComponentDef>, base: EntitySnapshot, curr: EntitySnapshot,
                               ghost limits: CodecLimits)
    returns (r: Outcome)
    ensures r.Fail? ==> !Comparable(defs, limits, base, curr)
    ensures r.Pass? ==> forall i :: 0 <= i < |defs| ==>
              (FindComponent(base.components, defs[i].id).Some? <==> FindComponent(curr.components, defs[i].id).Some?)
  {
    hide FindComponent, SameKinds;
    assert defs[0..] == defs;
    for k := 0 to |defs|
      invariant Comparable(defs, limits, base, curr) ==> Comparable(defs[k..], limits, base, curr)
      invariant forall i :: 0 <= i < k ==>
                  (FindComponent(base.components, defs[i].id).Some?
                   <==> FindComponent(curr.components, defs[i].id).Some?)
    {
      assert defs[k..][1..] == defs[k + 1..];
      var b, c := FindComponent(base.components, defs[k].id), FindComponent(curr.components, defs[k].id);
      if b.Some? != c.Some? {
        return Fail;
      }
    }
    return Pass;
  }

  /** Writes the change mask of one component into the scratch buffer. */
  method ComputeFieldMask(fields: seq<FieldDef>, base: seq<FieldValue>, curr: seq<FieldValue>, scratch: CodecScratch)
    returns (r: Outcome)
    requires |fields| == |base| == |curr| <= |scratch.fieldMask|
    modifies scratch`fieldMask
    ensures |scratch.fieldMask| == |old(scratch.fieldMask)|
    ensures r.Pass? <==> SameKinds(base, curr)
    ensures r.Pass? ==> scratch.fieldMask[..|fields|] == FieldMask(fields, base, curr)
  {
    hide FieldChanged;
    for k := 0 to |fields|
      invariant |scratch.fieldMask| == |old(scratch.fieldMask)|
      invariant forall i :: 0 <= i < k ==>
                  SameKind(base[i], curr[i]) && scratch.fieldMask[i] == FieldChanged(fields[i], base[i], curr[i])
    {
      var changed := TryFieldChanged(fields[k], base[k], curr[k]);
      if changed.None? {
        return Fail;
      }
      scratch.fieldMask := scratch.fieldMask[k := changed.value];
    }
    return Pass;
  }

  /** Compares one schema component of two entities; its change mask is left in the scratch buffer. */
  method DiffComponent(d: ComponentDef, base: EntitySnapshot, curr: EntitySnapshot, limits: CodecLimits,
                       scratch: CodecScratch, count: nat)
    returns (r: Option<bool>)
    modifies scratch
    ensures old(scratch.componentChanged) <= scratch.componentChanged
    ensures r.Some? <==> ComponentComparable(d, limits, FindComponent(base.components, d.id),
                                             FindComponent(curr.components, d.id))
    ensures r.Some? ==> (r.value <==> DiffFields(d, base, curr) != [])
    ensures r == Some(true) ==> MaskReady(d, base, curr, scratch)
  {
    hide FieldMask, Selected, SameKinds, FindComponent;
    var b, c := FindComponent(base.components, d.id), FindComponent(curr.components, d.id);
    if b.Some? != c.Some? {
      return None;
    }
    if b.None? {
      return Some(false);
    }
    if |b.value.fields| != |d.fields| || |c.value.fields| != |d.fields| {
      KindsLength(b.value.fields, c.value.fields);
      return None;
    }
    if |d.fields| > limits.maxFieldsPerComponent {
      return None;
    }
    scratch.EnsureCapacity(count, |d.fields|);
    var computed := ComputeFieldMask(d.fields, b.value.fields, c.value.fields, scratch);
    if computed.Fail? {
      return None;
    }
    var mask := scratch.fieldMask[..|d.fields|];
    SelectedEmpty(mask, c.value.fields, 0);
    assert mask[0..] == mask;
    return Some(true in mask);
  }

  /** The scratch buffer holds the change mask of a component present in both entities. */
  ghost predicate MaskReady(d: ComponentDef, base: EntitySnapshot, curr: EntitySnapshot, scratch: CodecScratch)
    reads scratch
  {
    var b, c := FindComponent(base.components, d.id), FindComponent(curr.components, d.id);
    && b.Some? && c.Some?
    && |b.value.fields| == |d.fields| <= |scratch.fieldMask|
    && SameKinds(b.value.fields, c.value.fields)
    && scratch.fieldMask[..|d.fields|] == FieldMask(d.fields, b.value.fields, c.value.fields)
    && DiffFields(d, base, curr) == Selected(scratch.fieldMask[..|d.fields|], c.value.fields, 0)
  }

  // ---- Counting ----

  /** Sizes of the three difference lists. */
  datatype DiffCounts = DiffCounts(creates: nat, updates: nat, destroys: nat)

  method CountDiffs(schema: Schema, baseline: seq<EntitySnapshot>, current: seq<EntitySnapshot>, limits: CodecLimits)
    returns (r: Option<DiffCounts>)
    requires Sorted(baseline) && Sorted(current)
    ensures r.None? ==> !AllComparable(schema, limits, Common(baseline, current))
    ensures r.Some? ==>
              && r.value.destroys == |Missing(baseline, current)|
              && r.value.creates == |Missing(current, baseline)|
              && (r.value.updates == 0 ==> AllComparable(schema, limits, Common(baseline, current)))
              && (AllComparable(schema, limits, Common(baseline, current)) ==>
                    r.value.updates == |DiffPairs(schema, Common(baseline, current))|)
  {
    hide EntityMap, Comparable, DiffComponents;
    ghost var pairs := Common(baseline, current);
    var i, j := 0, 0;
    var counts := DiffCounts(0, 0, 0);
    assert baseline[0..] == baseline && current[0..] == current;
    while i < |baseline| || j < |current|
      invariant WalkAt(baseline, current, i, j)
      invariant counts.destroys + |Missing(baseline[i..], current)| == |Missing(baseline, current)|
      invariant counts.creates + |Missing(current[j..], baseline)| == |Missing(current, baseline)|
      invariant AllComparable(schema, limits, pairs) ==>
                  && AllComparable(schema, limits, Common(baseline[i..], current))
                  && counts.updates + |DiffPairs(schema, Common(baseline[i..], current))| == |DiffPairs(schema, pairs)|
      invariant counts.updates == 0 && AllComparable(schema, limits, Common(baseline[i..], current)) ==>
                  AllComparable(schema, limits, pairs)
      decreases |baseline| - i + |current| - j
    {
      if i < |baseline| && (j < |current| ==> baseline[i].id < current[j].id) {
        WalkLess(baseline, current, i, j);
        counts := counts.(destroys := counts.destroys + 1);
        i := i + 1;
      } else if j < |current| && (i < |baseline| ==> current[j].id < baseline[i].id) {
        WalkGreater(baseline, current, i, j);
        counts := counts.(creates := counts.creates + 1);
        j := j + 1;
      } else {
        WalkEqual(baseline, current, i, j);
        DiffPairsStep(schema, limits, (baseline[i], current[j]), Common(baseline[i + 1..], current));
        var changed :- EntityHasUpdates(schema.components, baseline[i], current[j], limits);
        if changed {
          counts := counts.(updates := counts.updates + 1);
        }
        i, j := i + 1, j + 1;
      }
    }
    return Some(counts);
  }

  // ---- Masked body ----

  lemma {:induction false} MaskOfSelected(mask: seq<bool>, values: seq<FieldValue>, k: nat)
    requires k <= |mask| == |values|
    ensures MaskOf(Selected(mask, values, k), k, |mask|) == mask[k..]
    ensures Selected(mask, values, k) != [] ==> k <= Selected(mask, values, k)[0].0
    decreases |mask| - k
  {
    if k < |mask| {
      MaskOfSelected(mask, values, k + 1);
      assert mask[k..] == [mask[k]] + mask[k + 1..];
      if mask[k] {
        assert Selected(mask, values, k)[1..] == Selected(mask, values, k + 1);
      } else {
        assert Selected(mask, values, k) == Selected(mask, values, k + 1);
      }
    }
  }

  /** Writes the values a mask selects, without their indices. */
  method WriteSelected(fields: seq<FieldDef>, mask: seq<bool>, values: seq<FieldValue>,
                       w: BitWriter) returns (r: Outcome)
    requires w.Valid() && |fields| == |mask| == |values| && ValidCodecs(fields)
    modifies w`bitPos, w.buf
    ensures w.Puts(r, SelectedOk(fields, Selected(mask, values, 0)),
                   PutSelected(old(w.Written()), fields, Selected(mask, values, 0)))
  {
    hide BitsOf, PutField, Encodable;
    ghost var s := w.Written();
    ghost var all := Selected(mask, values, 0);
    for k := 0 to |fields|
      invariant w.Kept()
      invariant PutSelected(w.Written(), fields, Selected(mask, values, k)) == PutSelected(s, fields, all)
      invariant SelectedOk(fields, all) <==> SelectedOk(fields, Selected(mask, values, k))
    {
      SelectedStep(mask, values, k);
      if mask[k] {
        :- WriteFieldValue(fields[k].codec, values[k], w);
      }
    }
    return Pass;
  }

  lemma SelectedStep(mask: seq<bool>, values: seq<FieldValue>, k: nat)
    requires k < |mask| == |values|
    ensures !mask[k] ==> Selected(mask, values, k) == Selected(mask, values, k + 1)
    ensures mask[k] ==> Selected(mask, values, k) != [] && Selected(mask, values, k)[0] == (k, values[k])
                        && Selected(mask, values, k)[1..] == Selected(mask, values, k + 1)
  {
  }

  /** In a list of changes in schema order, the first schema component is at the head or absent. */
  lemma {:induction false} DiffHead(defs: seq<ComponentDef>, base: EntitySnapshot, curr: EntitySnapshot, id: u16)
    requires forall i :: 0 <= i < |defs| ==> defs[i].id != id
    ensures var us := DiffComponents(defs, base, curr); us == [] || us[0].id != id
  {
    hide DiffFields;
    if defs != [] {
      DiffHead(defs[1..], base, curr, id);
    }
  }

  lemma DiffStep(defs: seq<ComponentDef>, base: EntitySnapshot, curr: EntitySnapshot)
    requires defs != [] && UniqueIds(defs)
    ensures var us, rest := DiffComponents(defs, base, curr), DiffComponents(defs[1..], base, curr);
            if DiffFields(defs[0], base, curr) == [] then us == rest && (us == [] || us[0].id != defs[0].id)
            else us != [] && us[0] == UpdateComponent(defs[0].id, DiffFields(defs[0], base, curr)) && us[1..] == rest
  {
    hide DiffFields;
    DiffHead(defs[1..], base, curr, defs[0].id);
  }

  lemma NextFlag(defs: seq<ComponentDef>, base: EntitySnapshot, curr: EntitySnapshot)
    requires defs != [] && UniqueIds(defs)
    ensures ComponentMask(defs, DiffComponents(defs, base, curr))
         == [DiffFields(defs[0], base, curr) != []] + ComponentMask(defs[1..], DiffComponents(defs[1..], base, curr))
  {
    DiffStep(defs, base, curr);
  }

  /** First pass: one bit for each schema component, remembered in the scratch buffer. */
  method WriteComponentFlags(defs: seq<ComponentDef>, base: EntitySnapshot, curr: EntitySnapshot, limits: CodecLimits,
                             scratch: CodecScratch, w: BitWriter)
    returns (r: Outcome)
    requires w.Valid() && UniqueIds(defs)
    modifies w`bitPos, w.buf, scratch
    ensures w.Puts(r, Comparable(defs, limits, base, curr),
                   old(w.Written()) + ComponentMask(defs, DiffComponents(defs, base, curr)))
    ensures r.Pass? ==> |defs| <= |scratch.componentChanged|
    ensures r.Pass? ==> forall i :: 0 <= i < |defs| ==>
              (scratch.componentChanged[i] <==> DiffFields(defs[i], base, curr) != [])
  {
    hide BitsOf, DiffFields, ComponentComparable, FindComponent, MaskReady, DiffComponents, UniqueIds, ComponentMask;
    ghost var s := w.Written();
    ghost var us := DiffComponents(defs, base, curr);
    scratch.EnsureCapacity(|defs|, 0);
    scratch.ClearComponents(|defs|);
    assert defs[0..] == defs;
    for k := 0 to |defs|
      invariant w.Kept() && |defs| <= |scratch.componentChanged|
      invariant w.Written() + ComponentMask(defs[k..], DiffComponents(defs[k..], base, curr))
             == s + ComponentMask(defs, us)
      invariant Comparable(defs, limits, base, curr) <==> Comparable(defs[k..], limits, base, curr)
      invariant forall i :: 0 <= i < k ==> (scratch.componentChanged[i] <==> DiffFields(defs[i], base, curr) != [])
      invariant forall i :: k <= i < |defs| ==> !scratch.componentChanged[i]
    {
      assert defs[k..][1..] == defs[k + 1..];
      UniqueSuffix(defs, k);
      NextFlag(defs[k..], base, curr);
      var diff := DiffComponent(defs[k], base, curr, limits, scratch, |defs|);
      if diff.None? {
        return Fail;
      }
      FlagStep(w.Written(), diff.value, ComponentMask(defs[k + 1..], DiffComponents(defs[k + 1..], base, curr)));
      :- w.WriteBit(diff.value);
      if diff.value {
        scratch.componentChanged := scratch.componentChanged[k := true];
      }
    }
    return Pass;
  }

  lemma UniqueSuffix(defs: seq<ComponentDef>, k: nat)
    requires UniqueIds(defs) && k <= |defs|
    ensures UniqueIds(defs[k..])
  {
  }

  lemma FlagStep(s: Bits, b: bool, rest: Bits)
    ensures s + ([b] + rest) == PutBit(s, b) + rest
    ensures |PutBit(s, b)| <= |s + ([b] + rest)|
  {
  }

  /** Second pass: for each changed component its field mask and the changed values. */
  method WriteChangedComponents(defs: seq<ComponentDef>, base: EntitySnapshot, curr: EntitySnapshot,
                                limits: CodecLimits,
                                scratch: CodecScratch, w: BitWriter)
    returns (r: Outcome)
    requires w.Valid() && UniqueIds(defs) && ValidComponents(defs) && Comparable(defs, limits, base, curr)
    requires |defs| <= |scratch.componentChanged|
    requires forall i :: 0 <= i < |defs| ==> (scratch.componentChanged[i] <==> DiffFields(defs[i], base, curr) != [])
    modifies w`bitPos, w.buf, scratch
    ensures w.Puts(r, DiffEncodable(defs, base, curr),
                   PutMaskedComponents(old(w.Written()), defs, DiffComponents(defs, base, curr)))
  {
    hide BitsOf, DiffFields, ComponentComparable, FindComponent, SelectedOk, UniqueFields, PutSelected;
    ghost var s := w.Written();
    ghost var us := DiffComponents(defs, base, curr);
    assert defs[0..] == defs;
    for k := 0 to |defs|
      invariant w.Kept() && |defs| <= |scratch.componentChanged|
      invariant PutMaskedComponents(w.Written(), defs[k..], DiffComponents(defs[k..], base, curr))
             == PutMaskedComponents(s, defs, us)
      invariant DiffEncodable(defs, base, curr) <==> DiffEncodable(defs[k..], base, curr)
      invariant Comparable(defs[k..], limits, base, curr)
      invariant forall i :: 0 <= i < |defs| ==> (scratch.componentChanged[i] <==> DiffFields(defs[i], base, curr) != [])
    {
      var d := defs[k];
      assert defs[k..][1..] == defs[k + 1..];
      DiffStep(defs[k..], base, curr);
      NothingSelectedOk(d.fields);
      if scratch.componentChanged[k] {
        var diff := DiffComponent(d, base, curr, limits, scratch, |defs|);
        var values := FindComponent(curr.components, d.id).value.fields;
        var mask := scratch.fieldMask[..|d.fields|];
        MaskOfSelected(mask, values, 0);
        assert mask[0..] == mask;
        assert ValidComponent(d);
        :- WriteMask(w, mask);
        :- WriteSelected(d.fields, mask, values, w);
      }
    }
    return Pass;
  }

  lemma NothingSelectedOk(fields: seq<FieldDef>)
    ensures SelectedOk(fields, [])
  {
  }

  method EncodeUpdateBodyMasked(schema: Schema, baseline: seq<EntitySnapshot>, current: seq<EntitySnapshot>, count: nat,
                                limits: CodecLimits, scratch: CodecScratch, w: BitWriter)
    returns (r: Outcome)
    requires w.Valid() && w.Written() == [] && ValidSchema(schema)
    requires Sorted(baseline) && Sorted(current)
    requires AllComparable(schema, limits, Common(baseline, current)) ==>
               count == |DiffPairs(schema, Common(baseline, current))|
    modifies w`bitPos, w.buf, scratch
    ensures w.Puts(r, count <= limits.maxEntitiesUpdate
                      && AllComparable(schema, limits, Common(baseline, current))
                      && ChangesEncodable(schema, Common(baseline, current)),
                   if AllComparable(schema, limits, Common(baseline, current))
                   then PutMasked(schema, DiffPairs(schema, Common(baseline, current))) else [])
  {
    hide BitsOf, PutHead, EntityMap, Comparable, DiffComponents, DiffEncodable, PutMaskedEntity, ValidComponents,
      AllComparable, ChangesEncodable, DiffPairs, Common, Missing, Sorted, WalkAt;
    NoPairs(schema, limits);
    ghost var pairs := Common(baseline, current);
    ghost var us := DiffPairs(schema, pairs);
    if count > limits.maxEntitiesUpdate {
      return Fail;
    }
    :- WriteHead(w, count);
    ghost var s := w.Written();
    var i, j := 0, 0;
    assert baseline[0..] == baseline;
    WalkStart(baseline, current);
    while i < |baseline| || j < |current|
      invariant i <= |baseline| && j <= |current| && WalkAt(baseline, current, i, j) && w.Kept()
      invariant PutMaskedList(w.Written(), schema, DiffPairs(schema, Common(baseline[i..], current)))
             == PutMaskedList(s, schema, us)
      invariant AllComparable(schema, limits, pairs) <==> AllComparable(schema, limits, Common(baseline[i..], current))
      invariant ChangesEncodable(schema, pairs) <==> ChangesEncodable(schema, Common(baseline[i..], current))
      decreases |baseline| - i + |current| - j
    {
      if i < |baseline| && (j < |current| ==> baseline[i].id < current[j].id) {
        WalkLess(baseline, current, i, j);
        i := i + 1;
      } else if j < |current| && (i < |baseline| ==> current[j].id < baseline[i].id) {
        WalkGreater(baseline, current, i, j);
        j := j + 1;
      } else {
        WalkEqual(baseline, current, i, j);
        var b, c := baseline[i], current[j];
        ghost var rest := Common(baseline[i + 1..], current);
        DiffPairsStep(schema, limits, (b, c), rest);
        EncodableStep(schema, (b, c), rest);
        var changed := EntityHasUpdates(schema.components, b, c, limits);
        if changed.None? {
          return Fail;
        }
        if changed.value {
          MaskedListStep(w.Written(), schema, UpdateEntity(c.id, DiffComponents(schema.components, b, c)),
                         DiffPairs(schema, rest));
          :- WriteMaskedEntity(schema, b, c, limits, scratch, w);
        }
        i, j := i + 1, j + 1;
      }
    }
    WalkEnd(baseline, current, i, j);
    var _ := w.AlignToByte();
    return Pass;
  }

  lemma NoPairs(schema: Schema, limits: CodecLimits)
    ensures AllComparable(schema, limits, []) && ChangesEncodable(schema, []) && DiffPairs(schema, []) == []
  {
  }

  method WriteMaskedEntity(schema: Schema, b: EntitySnapshot, c: EntitySnapshot, limits: CodecLimits,
                           scratch: CodecScratch, w: BitWriter)
    returns (r: Outcome)
    requires w.Valid() && ValidSchema(schema)
    modifies w`bitPos, w.buf, scratch
    ensures w.Puts(r, Comparable(schema.components, limits, b, c) && DiffEncodable(schema.components, b, c),
                   PutMaskedEntity(old(w.Written()), schema,
                                   UpdateEntity(c.id, DiffComponents(schema.components, b, c))))
  {
    hide BitsOf, PutMaskedComponents;
    :- WriteId(w, c.id);
    :- WriteComponentFlags(schema.components, b, c, limits, scratch, w);
    r := WriteChangedComponents(schema.components, b, c, limits, scratch, w);
  }

  lemma MaskedListStep(s: Bits, schema: Schema, u: UpdateEntity, rest: seq<UpdateEntity>)
    ensures PutMaskedList(s, schema, [u] + rest) == PutMaskedList(PutMaskedEntity(s, schema, u), schema, rest)
  {
    hide PutMaskedEntity;
    assert ([u] + rest)[1..] == rest;
  }

  /** Only changed components constrain what can be written. */
  lemma {:induction false} EncodableStep(schema: Schema, p: (EntitySnapshot, EntitySnapshot),
                                         rest: seq<(EntitySnapshot, EntitySnapshot)>)
    ensures ChangesEncodable(schema, [p] + rest)
       <==> DiffEncodable(schema.components, p.0, p.1) && ChangesEncodable(schema, rest)
    ensures DiffComponents(schema.components, p.0, p.1) == [] ==> DiffEncodable(schema.components, p.0, p.1)
  {
    hide DiffEncodable, DiffComponents;
    assert ([p] + rest)[1..] == rest;
    UnchangedEncodable(schema.components, p.0, p.1);
  }

  lemma {:induction false} UnchangedEncodable(defs: seq<ComponentDef>, base: EntitySnapshot, curr: EntitySnapshot)
    ensures DiffComponents(defs, base, curr) == [] ==> DiffEncodable(defs, base, curr)
  {
    hide DiffFields;
    if defs != [] {
      UnchangedEncodable(defs[1..], base, curr);
    }
  }
}
