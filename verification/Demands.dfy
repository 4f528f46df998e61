/** What the encoders demand of snapshots and lists, entity by entity, in terms of ids, counts and ranges. */
module Demands {
  import opened Core
  import opened Schemas
  import opened Fields
  import opened FieldBits
  import opened Diffs
  import opened Changes
  import opened Walks
  import opened Layouts
  import opened UpdateLayouts
  import opened ChangeLists
  import opened Estimates
  import opened Sections
  import opened Payloads
  import opened FullSnapshots

  // ---- Values ----

  /** The codec is one there is, the value is of its kind, and within its ends. */
  predicate Takes(c: FieldCodec, v: FieldValue) {
    ValidCodec(c) && OfKind(c, v) && Lowest(c) <= Number(v) <= Highest(c)
  }

  lemma {:induction false} AllTaken(fields: seq<FieldDef>, values: seq<FieldValue>)
    ensures AllEncodable(fields, values) <==>
            |fields| == |values| && forall i :: 0 <= i < |fields| ==> Takes(fields[i].codec, values[i])
    decreases |fields|
  {
    hide Encodable, Takes;
    if fields != [] && values != [] {
      TakesIff(fields[0].codec, values[0]);
      AllTaken(fields[1..], values[1..]);
      assert forall i :: 1 <= i < |fields| ==> fields[i] == fields[1..][i - 1];
      assert forall i :: 1 <= i < |values| ==> values[i] == values[1..][i - 1];
    }
  }

  lemma TakesIff(c: FieldCodec, v: FieldValue)
    ensures Encodable(c, v) <==> Takes(c, v)
  {
    hide Encodable;
    EncodableIff(c, v);
  }

  // ---- Created entities ----

  predicate KnownIn(defs: seq<ComponentDef>, id: u16) {
    exists d :: d in defs && d.id == id
  }

  /** A component as the schema has it: no more fields than the limit, as many values, all in range. */
  predicate Complete(d: ComponentDef, limits: CodecLimits, c: ComponentSnapshot) {
    && |d.fields| <= limits.maxFieldsPerComponent && |c.fields| == |d.fields|
    && forall i :: 0 <= i < |d.fields| ==> Takes(d.fields[i].codec, c.fields[i])
  }

  /** All components are known, and those that are found for the schema's ids are complete. */
  predicate Creatable(schema: Schema, limits: CodecLimits, e: EntitySnapshot) {
    && (forall c :: c in e.components ==> KnownIn(schema.components, c.id))
    && (forall d :: d in schema.components && FindComponent(e.components, d.id).Some? ==>
          Complete(d, limits, FindComponent(e.components, d.id).value))
  }

  lemma {:induction false} KnownFound(defs: seq<ComponentDef>, id: u16)
    ensures FindDef(defs, id).Some? <==> KnownIn(defs, id)
  {
    if defs != [] {
      KnownFound(defs[1..], id);
      assert defs == [defs[0]] + defs[1..];
    }
  }

  lemma {:induction false} KnownEach(defs: seq<ComponentDef>, cs: seq<ComponentSnapshot>)
    ensures AllKnown(defs, cs) <==> forall c :: c in cs ==> KnownIn(defs, c.id)
  {
    hide KnownIn, FindDef;
    if cs != [] {
      KnownFound(defs, cs[0].id);
      KnownEach(defs, cs[1..]);
      assert cs == [cs[0]] + cs[1..];
    }
  }

  lemma {:induction false} CompleteEach(defs: seq<ComponentDef>, limits: CodecLimits, cs: seq<ComponentSnapshot>)
    ensures FullsOk(defs, limits, cs) <==>
            forall d :: d in defs && FindComponent(cs, d.id).Some?
              ==> Complete(d, limits, FindComponent(cs, d.id).value)
  {
    hide FindComponent, AllEncodable, Takes;
    if defs != [] {
      CompleteEach(defs[1..], limits, cs);
      if FindComponent(cs, defs[0].id).Some? {
        AllTaken(defs[0].fields, FindComponent(cs, defs[0].id).value.fields);
      }
      assert defs == [defs[0]] + defs[1..];
    }
  }

  lemma CreatableIff(schema: Schema, limits: CodecLimits, e: EntitySnapshot)
    ensures CreateOk(schema, limits, e) <==> Creatable(schema, limits, e)
  {
    hide AllKnown, FullsOk, KnownIn, Complete, FindComponent;
    KnownEach(schema.components, e.components);
    CompleteEach(schema.components, limits, e.components);
  }

  lemma {:induction false} CreatableEach(schema: Schema, limits: CodecLimits, es: seq<EntitySnapshot>)
    ensures AllCreateOk(schema, limits, es) <==> forall e :: e in es ==> Creatable(schema, limits, e)
  {
    hide CreateOk, Creatable;
    if es != [] {
      CreatableIff(schema, limits, es[0]);
      CreatableEach(schema, limits, es[1..]);
      assert es == [es[0]] + es[1..];
    }
  }

  // ---- Surviving entities ----

  /**
   Both have the component or neither; with the fields of the schema, of the same kinds, and those
   that moved in range.
   */
  predicate Matched(d: ComponentDef, limits: CodecLimits, base: EntitySnapshot, curr: EntitySnapshot) {
    var b, c := FindComponent(base.components, d.id), FindComponent(curr.components, d.id);
    && (b.Some? <==> c.Some?)
    && (b.Some? ==>
          && |d.fields| <= limits.maxFieldsPerComponent
          && |b.value.fields| == |d.fields| == |c.value.fields|
          && forall i :: 0 <= i < |d.fields| ==>
               && SameKind(b.value.fields[i], c.value.fields[i])
               && (Moved(d.fields[i], b.value.fields[i], c.value.fields[i])
                   ==> Takes(d.fields[i].codec, c.value.fields[i])))
  }

  lemma {:induction false} SelectedTaken(fields: seq<FieldDef>, fs: seq<(nat, FieldValue)>)
    ensures SelectedOk(fields, fs) <==> forall f :: f in fs ==> f.0 < |fields| && Takes(fields[f.0].codec, f.1)
    decreases |fs|
  {
    hide Encodable, Takes;
    if fs != [] {
      if fs[0].0 < |fields| {
        TakesIff(fields[fs[0].0].codec, fs[0].1);
      }
      SelectedTaken(fields, fs[1..]);
      assert fs == [fs[0]] + fs[1..];
    }
  }

  lemma MatchedIff(d: ComponentDef, limits: CodecLimits, base: EntitySnapshot, curr: EntitySnapshot)
    ensures ComponentComparable(d, limits, FindComponent(base.components, d.id), FindComponent(curr.components, d.id))
            && SelectedOk(d.fields, DiffFields(d, base, curr))
       <==> Matched(d, limits, base, curr)
  {
    hide FindComponent, DiffFields, SelectedOk, Takes, Moved, SameKind;
    SelectedTaken(d.fields, DiffFields(d, base, curr));
    forall i: nat, v: FieldValue
      ensures (i, v) in DiffFields(d, base, curr) <==> FieldMoved(d, base, curr, i, v)
    {
      FieldListed(d, base, curr, i, v);
    }
    var b, c := FindComponent(base.components, d.id), FindComponent(curr.components, d.id);
    if Paired(d, base, curr) {
      forall i | 0 <= i < |d.fields| && Moved(d.fields[i], b.value.fields[i], c.value.fields[i])
        ensures (i, c.value.fields[i]) in DiffFields(d, base, curr)
      {
      }
    }
  }

  predicate MatchedAll(schema: Schema, limits: CodecLimits, base: EntitySnapshot, curr: EntitySnapshot) {
    forall d :: d in schema.components ==> Matched(d, limits, base, curr)
  }

  lemma {:induction false} MatchedEach(defs: seq<ComponentDef>, limits: CodecLimits, base: EntitySnapshot,
                                       curr: EntitySnapshot)
    ensures Comparable(defs, limits, base, curr) && DiffEncodable(defs, base, curr)
       <==> forall d :: d in defs ==> Matched(d, limits, base, curr)
  {
    hide FindComponent, ComponentComparable, DiffFields, SelectedOk, Matched;
    if defs != [] {
      MatchedIff(defs[0], limits, base, curr);
      MatchedEach(defs[1..], limits, base, curr);
      assert defs == [defs[0]] + defs[1..];
    }
  }

  lemma {:induction false} PairsMatched(schema: Schema, limits: CodecLimits,
                                        pairs: seq<(EntitySnapshot, EntitySnapshot)>)
    ensures AllComparable(schema, limits, pairs) && ChangesEncodable(schema, pairs)
       <==> forall p :: p in pairs ==> MatchedAll(schema, limits, p.0, p.1)
  {
    hide Comparable, DiffEncodable, Matched;
    if pairs != [] {
      MatchedEach(schema.components, limits, pairs[0].0, pairs[0].1);
      PairsMatched(schema, limits, pairs[1..]);
      assert pairs == [pairs[0]] + pairs[1..];
    }
  }

  /** All entities that both have, by id, match. */
  predicate Survive(schema: Schema, limits: CodecLimits, base: map<u32, EntitySnapshot>, curr: map<u32,
                    EntitySnapshot>) {
    forall id :: id in base && id in curr ==> MatchedAll(schema, limits, base[id], curr[id])
  }

  lemma SurviveIff(schema: Schema, limits: CodecLimits, base: seq<EntitySnapshot>, curr: seq<EntitySnapshot>)
    requires Sorted(base) && Sorted(curr)
    ensures AllComparable(schema, limits, Common(base, curr)) && ChangesEncodable(schema, Common(base, curr))
       <==> Survive(schema, limits, EntityMap(base), EntityMap(curr))
  {
    hide EntityMap, Common, MatchedAll, AllComparable, ChangesEncodable, Sorted;
    var pairs := Common(base, curr);
    PairsMatched(schema, limits, pairs);
    KeyedById(base);
    KeyedById(curr);
    forall p | p in pairs
      ensures p.0.id in EntityMap(base) && p.0.id in EntityMap(curr)
      ensures p == (EntityMap(base)[p.0.id], EntityMap(curr)[p.0.id])
    {
      CommonMember(base, curr, p);
      MemberKeyed(base, p.0);
    }
    forall id | id in EntityMap(base) && id in EntityMap(curr)
      ensures (EntityMap(base)[id], EntityMap(curr)[id]) in pairs
    {
      CommonMember(base, curr, (EntityMap(base)[id], EntityMap(curr)[id]));
    }
  }

  // ---- Scanning ----

  /** How many sparse entries a list of updates takes: one for each component. */
  function EntryCount(us: seq<UpdateEntity>): nat {
    if us == [] then 0 else |us[0].components| + EntryCount(us[1..])
  }

  lemma {:induction false} EntriesCounted(us: seq<UpdateEntity>)
    ensures |Entries(us)| == EntryCount(us)
  {
    if us != [] {
      EntriesCounted(us[1..]);
    }
  }

  /**
   What a scan demands: the tick, ids in order, counts within the limits, and entities that can be
   created or compared.
   */
  predicate Scannable(schema: Schema, baselineTick: u32, baseline: Snapshot, current: Snapshot, limits: CodecLimits,
                      sparse: bool)
  {
    var d := Diff(schema, baseline.entities, current.entities);
    && baseline.tick == baselineTick
    && Sorted(baseline.entities) && Sorted(current.entities)
    && |d.destroys| <= limits.maxEntitiesDestroy
    && |d.creates| <= limits.maxEntitiesCreate
    && |d.updates| <= limits.maxEntitiesUpdate
    && (sparse ==> EntryCount(d.updates) <= limits.maxEntitiesUpdate * limits.maxComponentsPerEntity)
    && (forall e :: e in current.entities && e.id !in EntityMap(baseline.entities) ==> Creatable(schema, limits, e))
    && Survive(schema, limits, EntityMap(baseline.entities), EntityMap(current.entities))
  }

  /**
   A scan succeeds, but for room, exactly when its demands are met; the entry limit counts only
   where the updates are sparse.
   */
  lemma ScanIff(schema: Schema, baselineTick: u32, baseline: Snapshot, current: Snapshot, limits: CodecLimits,
                mode: Mode)
    ensures ScanOk(schema, baselineTick, baseline, current, limits, mode) <==>
            var us := Diff(schema, baseline.entities, current.entities).updates;
            Scannable(schema, baselineTick, baseline, current, limits,
                      mode.AlwaysSparse? || ChosenEncoding(schema, us).Sparse?)
  {
    hide EntityMap, Common, DiffPairs, Missing, Creatable, Survive, AllComparable, ChangesEncodable, AllCreateOk,
      Sorted,
      Entries, EntryCount, ChosenEncoding;
    var base, curr := baseline.entities, current.entities;
    EntriesCounted(Diff(schema, base, curr).updates);
    if Sorted(base) && Sorted(curr) {
      SurviveIff(schema, limits, base, curr);
      CreatableEach(schema, limits, Missing(curr, base));
      forall e
        ensures e in Missing(curr, base) <==> e in curr && e.id !in EntityMap(base)
      {
        MissingMember(curr, base, e);
      }
    }
  }

  // ---- Change lists ----

  /** A component update: a known component, some fields but no more than the limit, each one there and in range. */
  predicate Listable(schema: Schema, limits: CodecLimits, u: UpdateComponent) {
    && FindDef(schema.components, u.id).Some?
    && 0 < |u.fields| <= limits.maxFieldsPerComponent
    && var d := FindDef(schema.components, u.id).value;
       forall f :: f in u.fields ==> f.0 < |d.fields| && Takes(d.fields[f.0].codec, f.1)
  }

  lemma {:induction false} SelectedIndices(fields: seq<FieldDef>, fs: seq<(nat, FieldValue)>)
    requires SelectedOk(fields, fs)
    ensures IndicesIn(|fields|, fs)
    decreases |fs|
  {
    hide Encodable;
    if fs != [] {
      SelectedIndices(fields, fs[1..]);
    }
  }

  lemma ListableIff(schema: Schema, limits: CodecLimits, u: UpdateComponent)
    ensures ListedComponent(schema, limits, u) && EntryEncodable(schema, u) <==> Listable(schema, limits, u)
  {
    hide FindDef, SelectedOk, IndicesIn, Takes;
    if FindDef(schema.components, u.id).Some? {
      var d := FindDef(schema.components, u.id).value;
      SelectedTaken(d.fields, u.fields);
      if SelectedOk(d.fields, u.fields) {
        SelectedIndices(d.fields, u.fields);
      }
    }
  }

  lemma {:induction false} ListableEach(schema: Schema, limits: CodecLimits, us: seq<UpdateComponent>)
    ensures ListedComponents(schema, limits, us) && ComponentsEncodable(schema, us)
       <==> forall u :: u in us ==> Listable(schema, limits, u)
  {
    hide ListedComponent, EntryEncodable, Listable;
    if us != [] {
      ListableIff(schema, limits, us[0]);
      ListableEach(schema, limits, us[1..]);
      assert us == [us[0]] + us[1..];
    }
  }

  predicate ListableEntity(schema: Schema, limits: CodecLimits, u: UpdateEntity) {
    |u.components| <= limits.maxComponentsPerEntity && forall c :: c in u.components ==> Listable(schema, limits, c)
  }

  lemma {:induction false} EntitiesListable(schema: Schema, limits: CodecLimits, us: seq<UpdateEntity>)
    ensures AllListed(schema, limits, us) && AllUpdatesEncodable(schema, us)
       <==> forall u :: u in us ==> ListableEntity(schema, limits, u)
  {
    hide ListedComponents, ComponentsEncodable, Listable;
    if us != [] {
      ListableEach(schema, limits, us[0].components);
      assert ListedEntity(schema, limits, us[0]) && ComponentsEncodable(schema, us[0].components)
        <==> ListableEntity(schema, limits, us[0]);
      hide ListableEntity, ListedEntity;
      EntitiesListable(schema, limits, us[1..]);
      assert us == [us[0]] + us[1..];
    }
  }

  /**
   Change lists are accepted, but for room, exactly when ids ascend, counts are within the limits
   and entities are in order.
   */
  lemma ListsIff(schema: Schema, d: Delta, limits: CodecLimits)
    ensures ListsOk(schema, d, limits) <==>
            && SortedIds(d.destroys) && Sorted(d.creates) && SortedUpdates(d.updates)
            && |d.destroys| <= limits.maxEntitiesDestroy
            && |d.creates| <= limits.maxEntitiesCreate
            && |d.updates| <= limits.maxEntitiesUpdate
            && EntryCount(d.updates) <= limits.maxEntitiesUpdate * limits.maxComponentsPerEntity
            && (forall e :: e in d.creates ==> Creatable(schema, limits, e))
            && (forall u :: u in d.updates ==> ListableEntity(schema, limits, u))
  {
    hide Sorted, SortedIds, SortedUpdates, AllListed, AllUpdatesEncodable, AllCreateOk, Creatable, ListableEntity,
      Entries,
      EntryCount;
    EntriesCounted(d.updates);
    CreatableEach(schema, limits, d.creates);
    EntitiesListable(schema, limits, d.updates);
  }

  // ---- Full snapshots ----

  lemma {:induction false} FullListIff(schema: Schema, limits: CodecLimits, prev: Option<u32>, es: seq<EntitySnapshot>)
    ensures FullListOk(schema, limits, prev, es) <==>
            && Sorted(es) && (es != [] ==> After(prev, es[0].id))
            && forall e :: e in es ==> |e.components| <= limits.maxComponentsPerEntity && Creatable(schema, limits, e)
    decreases |es|
  {
    hide CreateOk, Creatable;
    if es != [] {
      CreatableIff(schema, limits, es[0]);
      FullListIff(schema, limits, Some(es[0].id), es[1..]);
      assert es == [es[0]] + es[1..];
      SortedFirst(es);
    }
  }

  lemma SortedFirst(es: seq<EntitySnapshot>)
    requires es != []
    ensures Sorted(es) <==> Sorted(es[1..]) && (es[1..] != [] ==> es[0].id < es[1..][0].id)
  {
    if Sorted(es[1..]) && (es[1..] != [] ==> es[0].id < es[1..][0].id) {
      forall i, j | 0 <= i < j < |es|
        ensures es[i].id < es[j].id
      {
        assert es[j] == es[1..][j - 1];
        if i > 0 {
          assert es[i] == es[1..][i - 1];
        } else if j > 1 {
          assert es[1..][0].id < es[1..][j - 1].id;
        }
      }
    }
    if Sorted(es) {
      forall i, j | 0 <= i < j < |es[1..]|
        ensures es[1..][i].id < es[1..][j].id
      {
        assert es[i + 1].id < es[j + 1].id;
      }
    }
  }

  /**
   A full snapshot is accepted, but for room, exactly when ids ascend, counts are within the limits
   and all can be created.
   */
  lemma FullIff(schema: Schema, limits: CodecLimits, es: seq<EntitySnapshot>)
    ensures FullSnapshotOk(schema, limits, es) <==>
            && Sorted(es) && |es| <= limits.maxEntitiesCreate
            && (es != [] ==> |schema.components| <= limits.maxComponentsPerEntity)
            && forall e :: e in es ==> |e.components| <= limits.maxComponentsPerEntity && Creatable(schema, limits, e)
  {
    hide Creatable, FullListOk;
    FullListIff(schema, limits, None, es);
  }
}
