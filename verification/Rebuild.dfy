/**
 What the receiver ends up with: the entities that applying an exact diff to its baseline
 produces, described field by field and not by the steps that produce them.
 */
module Rebuilding {
  import opened Core
  import opened Schemas
  import opened Diffs
  import opened Layouts
  import opened UpdateLayouts
  import opened Walks
  import opened Apply

  // ---- Fields ----

  function Overlay(mask: seq<bool>, base: seq<FieldValue>, curr: seq<FieldValue>): (r: seq<FieldValue>)
    requires |mask| == |base| == |curr|
    ensures |r| == |base| && forall i :: 0 <= i < |base| ==> r[i] == if mask[i] then curr[i] else base[i]
  {
    seq(|base|, i requires 0 <= i < |base| => if mask[i] then curr[i] else base[i])
  }

  /** Setting the selected values from index `k` on completes an overlay finished up to `k`. */
  lemma {:induction false} SelectedOverlay(mask: seq<bool>, base: seq<FieldValue>, curr: seq<FieldValue>, k: nat,
                                           values: seq<FieldValue>)
    requires k <= |mask| == |base| == |curr| == |values|
    requires values == Overlay(mask, base, curr)[..k] + base[k..]
    ensures SetFields(values, Selected(mask, curr, k)) == Some(Overlay(mask, base, curr))
    decreases |mask| - k
  {
    var goal := Overlay(mask, base, curr);
    if k < |mask| {
      var next := if mask[k] then values[k := curr[k]] else values;
      assert next == goal[..k + 1] + base[k + 1..];
      SelectedOverlay(mask, base, curr, k + 1, next);
      if mask[k] {
        assert Selected(mask, curr, k)[1..] == Selected(mask, curr, k + 1);
      } else {
        assert Selected(mask, curr, k) == Selected(mask, curr, k + 1);
      }
    } else {
      assert values == goal;
    }
  }

  // ---- Components ----

  predicate Matching(d: ComponentDef, base: ComponentSnapshot, curr: ComponentSnapshot) {
    |base.fields| == |d.fields| && SameKinds(base.fields, curr.fields)
  }

  /**
   What becomes of the receiver's component `mine` when the sender's goes from `base` to `curr`:
   the fields the sender calls changed take their new values.
   */
  function MergeOnto(d: ComponentDef, mine: ComponentSnapshot, base: Option<ComponentSnapshot>,
                     curr: Option<ComponentSnapshot>)
    : ComponentSnapshot
  {
    match (base, curr)
    case (Some(b), Some(c)) =>
      if Matching(d, b, c) && |mine.fields| == |b.fields|
      then ComponentSnapshot(mine.id, Overlay(FieldMask(d.fields, b.fields, c.fields), mine.fields, c.fields)) else mine
    case _ => mine
  }

  predicate SameComponentIds(a: seq<ComponentSnapshot>, b: seq<ComponentSnapshot>) {
    |a| == |b| && forall i :: 0 <= i < |a| ==> a[i].id == b[i].id
  }

  /** Setting one component changes the answer for its id only. */
  lemma {:induction false} SetComponentLookup(cs: seq<ComponentSnapshot>, u: UpdateComponent, id: u16)
    requires SetComponent(cs, u).Some?
    ensures var r := SetComponent(cs, u).value;
            SameComponentIds(cs, r) && (id != u.id ==> FindComponent(r, id) == FindComponent(cs, id))
  {
    hide SetFields;
    if cs[0].id != u.id {
      SetComponentLookup(cs[1..], u, id);
    }
  }

  lemma {:induction false} SetComponentFound(cs: seq<ComponentSnapshot>, u: UpdateComponent, values: seq<FieldValue>)
    requires FindComponent(cs, u.id).Some? && SetFields(FindComponent(cs, u.id).value.fields, u.fields) == Some(values)
    ensures SetComponent(cs, u).Some?
    ensures FindComponent(SetComponent(cs, u).value, u.id) == Some(ComponentSnapshot(u.id, values))
  {
    hide SetFields;
    if cs[0].id != u.id {
      SetComponentFound(cs[1..], u, values);
    }
  }

  lemma {:induction false} SetOnlyFound(cs: seq<ComponentSnapshot>, u: UpdateComponent)
    requires SetComponent(cs, u).Some?
    ensures FindComponent(cs, u.id).Some? && SetFields(FindComponent(cs, u.id).value.fields, u.fields).Some?
  {
    hide SetFields;
    if cs[0].id != u.id {
      SetOnlyFound(cs[1..], u);
    }
  }

  /** One schema component: the sender's changed fields, applied to the receiver's, give the merge. */
  lemma DiffFieldsMerge(d: ComponentDef, mine: ComponentSnapshot, base: EntitySnapshot, curr: EntitySnapshot)
    requires FindComponent(base.components, d.id).Some? && mine.id == d.id
    requires |mine.fields| == |FindComponent(base.components, d.id).value.fields|
    ensures var merged := MergeOnto(d, mine, FindComponent(base.components, d.id),
                                    FindComponent(curr.components, d.id));
            && merged.id == d.id
            && SetFields(mine.fields, DiffFields(d, base, curr)) == Some(merged.fields)
            && (DiffFields(d, base, curr) == [] ==> merged == mine)
  {
    hide FindComponent, SetFields;
    var b := FindComponent(base.components, d.id).value;
    match FindComponent(curr.components, d.id)
    case None => NothingSet(mine.fields);
    case Some(c) =>
      if Matching(d, b, c) {
        var mask := FieldMask(d.fields, b.fields, c.fields);
        assert mine.fields == Overlay(mask, mine.fields, c.fields)[..0] + mine.fields[0..];
        SelectedOverlay(mask, mine.fields, c.fields, 0, mine.fields);
        SelectedEmpty(mask, c.fields, 0);
        if true !in mask {
          assert Overlay(mask, mine.fields, c.fields) == mine.fields;
        }
      } else {
        NothingSet(mine.fields);
      }
  }

  lemma NothingSet(values: seq<FieldValue>)
    ensures SetFields(values, []) == Some(values)
  {
  }

  lemma DiffFieldsPresent(d: ComponentDef, base: EntitySnapshot, curr: EntitySnapshot)
    requires DiffFields(d, base, curr) != []
    ensures FindComponent(base.components, d.id).Some?
  {
  }

  /** For every schema component in `defs`, both lists have it or neither, with the same number of fields. */
  predicate SameShape(defs: seq<ComponentDef>, cs: seq<ComponentSnapshot>, base: seq<ComponentSnapshot>) {
    defs == [] ||
    (SameFieldCount(FindComponent(cs, defs[0].id), FindComponent(base, defs[0].id)) && SameShape(defs[1..], cs, base))
  }

  predicate SameFieldCount(a: Option<ComponentSnapshot>, b: Option<ComponentSnapshot>) {
    match (a, b)
    case (Some(x), Some(y)) => |x.fields| == |y.fields|
    case (None, None) => true
    case _ => false
  }

  lemma {:induction false} SameShapeSelf(defs: seq<ComponentDef>, cs: seq<ComponentSnapshot>)
    ensures SameShape(defs, cs, cs)
  {
    if defs != [] {
      SameShapeSelf(defs[1..], cs);
    }
  }

  lemma {:induction false} StillSameShape(defs: seq<ComponentDef>, cs: seq<ComponentSnapshot>,
                                          base: seq<ComponentSnapshot>, u: UpdateComponent)
    requires SameShape(defs, cs, base) && SetComponent(cs, u).Some?
    requires forall i :: 0 <= i < |defs| ==> defs[i].id != u.id
    ensures SameShape(defs, SetComponent(cs, u).value, base)
  {
    hide SetComponent, FindComponent;
    if defs != [] {
      SetComponentLookup(cs, u, defs[0].id);
      StillSameShape(defs[1..], cs, base, u);
    }
  }

  /** The receiver's component `id` once the sender's changes to the schema components `defs` are applied. */
  function Expected(defs: seq<ComponentDef>, cs: seq<ComponentSnapshot>, base: EntitySnapshot, curr: EntitySnapshot,
                    id: u16)
    : Option<ComponentSnapshot>
  {
    match (FindDef(defs, id), FindComponent(cs, id))
    case (Some(d), Some(mine)) =>
      Some(MergeOnto(d, mine, FindComponent(base.components, id), FindComponent(curr.components, id)))
    case (_, r) => r
  }

  /**
   The sender's diff can be applied to a list of the same shape as its baseline; it keeps that list
   and merges every component.
   */
  lemma {:induction false} DiffComponentsApply(defs: seq<ComponentDef>, cs: seq<ComponentSnapshot>,
                                               base: EntitySnapshot,
                                               curr: EntitySnapshot, id: u16)
    requires UniqueIds(defs) && SameShape(defs, cs, base.components)
    ensures SetComponents(cs, DiffComponents(defs, base, curr)).Some?
    ensures var r := SetComponents(cs, DiffComponents(defs, base, curr)).value;
            SameComponentIds(cs, r) && FindComponent(r, id) == Expected(defs, cs, base, curr, id)
    decreases |defs|
  {
    hide FindComponent, SameComponentIds;
    if defs == [] {
      AppliedNothing(cs, base, curr, id);
    } else {
      SameShapeStep(defs, cs, base.components);
      ExpectedStep(defs, cs, base, curr, id);
      var d := defs[0];
      var fields := DiffFields(d, base, curr);
      if fields == [] {
        DiffComponentsApply(defs[1..], cs, base, curr, id);
        if FindComponent(cs, d.id).Some? {
          DiffFieldsMerge(d, FindComponent(cs, d.id).value, base, curr);
        }
        assert DiffComponents(defs, base, curr) == DiffComponents(defs[1..], base, curr);
      } else {
        DiffFieldsPresent(d, base, curr);
        var mine := FindComponent(cs, d.id).value;
        DiffFieldsMerge(d, mine, base, curr);
        var u := UpdateComponent(d.id, fields);
        var merged := MergeOnto(d, mine, FindComponent(base.components, d.id), FindComponent(curr.components, d.id));
        SetComponentFound(cs, u, merged.fields);
        SetComponentLookup(cs, u, id);
        StillSameShape(defs[1..], cs, base.components, u);
        var next := SetComponent(cs, u).value;
        DiffComponentsApply(defs[1..], next, base, curr, id);
        assert DiffComponents(defs, base, curr)[1..] == DiffComponents(defs[1..], base, curr);
        SameIdsTrans(cs, next, SetComponents(next, DiffComponents(defs[1..], base, curr)).value);
        NotAfter(defs, d.id);
      }
    }
  }

  lemma AppliedNothing(cs: seq<ComponentSnapshot>, base: EntitySnapshot, curr: EntitySnapshot, id: u16)
    ensures SetComponents(cs, DiffComponents([], base, curr)) == Some(cs)
    ensures SameComponentIds(cs, cs) && Expected([], cs, base, curr, id) == FindComponent(cs, id)
  {
  }

  lemma SameShapeStep(defs: seq<ComponentDef>, cs: seq<ComponentSnapshot>, base: seq<ComponentSnapshot>)
    requires defs != [] && SameShape(defs, cs, base)
    ensures SameFieldCount(FindComponent(cs, defs[0].id), FindComponent(base, defs[0].id))
    ensures SameShape(defs[1..], cs, base)
  {
  }

  lemma ExpectedStep(defs: seq<ComponentDef>, cs: seq<ComponentSnapshot>, base: EntitySnapshot, curr: EntitySnapshot,
                     id: u16)
    requires defs != [] && UniqueIds(defs)
    ensures id != defs[0].id ==> Expected(defs, cs, base, curr, id) == Expected(defs[1..], cs, base, curr, id)
    ensures id == defs[0].id ==> FindDef(defs, id) == Some(defs[0]) && FindDef(defs[1..], id) == None
  {
    if id == defs[0].id {
      NotAfter(defs, id);
    }
  }

  lemma {:induction false} NotAfter(defs: seq<ComponentDef>, id: u16)
    requires defs != [] && UniqueIds(defs) && id == defs[0].id
    ensures FindDef(defs[1..], id) == None
  {
    AbsentDef(defs[1..], id);
  }

  lemma SameIdsTrans(a: seq<ComponentSnapshot>, b: seq<ComponentSnapshot>, c: seq<ComponentSnapshot>)
    requires SameComponentIds(a, b) && SameComponentIds(b, c)
    ensures SameComponentIds(a, c)
  {
  }

  // ---- Entities ----

  /** What becomes of the receiver's entity `mine` when the sender's goes from `base` to `curr`. */
  function PatchOnto(schema: Schema, mine: EntitySnapshot, base: EntitySnapshot, curr: EntitySnapshot): EntitySnapshot {
    match SetComponents(mine.components, DiffComponents(schema.components, base, curr))
    case Some(cs) => EntitySnapshot(mine.id, cs)
    case None => mine
  }

  /** The case of a receiver that holds the sender's baseline itself. */
  function Patch(schema: Schema, base: EntitySnapshot, curr: EntitySnapshot): EntitySnapshot {
    PatchOnto(schema, base, base, curr)
  }

  /**
   The patched entity lists the receiver's components in the receiver's order, and each of
   them is the field-by-field merge.
   */
  lemma PatchMerges(schema: Schema, mine: EntitySnapshot, base: EntitySnapshot, curr: EntitySnapshot)
    requires UniqueIds(schema.components) && SameShape(schema.components, mine.components, base.components)
    ensures var e := PatchOnto(schema, mine, base, curr);
            && e.id == mine.id
            && SameComponentIds(mine.components, e.components)
            && forall id: u16 ::
                 FindComponent(e.components, id) == Expected(schema.components, mine.components, base, curr, id)
  {
    hide SetComponents, DiffComponents, Expected, FindComponent, SameComponentIds, SameShape;
    DiffComponentsApply(schema.components, mine.components, base, curr, 0);
    forall id: u16
      ensures FindComponent(PatchOnto(schema, mine, base, curr).components, id)
           == Expected(schema.components, mine.components, base, curr, id)
    {
      DiffComponentsApply(schema.components, mine.components, base, curr, id);
    }
  }

  lemma PatchApplies(schema: Schema, mine: EntitySnapshot, base: EntitySnapshot, curr: EntitySnapshot)
    requires UniqueIds(schema.components) && SameShape(schema.components, mine.components, base.components)
    ensures SetComponents(mine.components, DiffComponents(schema.components, base, curr)).Some?
    ensures DiffComponents(schema.components, base, curr) == [] ==> PatchOnto(schema, mine, base, curr) == mine
  {
    hide DiffComponents, Expected, FindComponent, SameComponentIds, SameShape;
    DiffComponentsApply(schema.components, mine.components, base, curr, 0);
  }

  /** `m` has an entity of the same shape for every entity of `xs` that also occurs in `ys`. */
  predicate Holds(schema: Schema, m: map<u32, EntitySnapshot>, xs: seq<EntitySnapshot>, ys: seq<EntitySnapshot>)
    decreases |xs|
  {
    xs == [] ||
    ((xs[0].id in EntityMap(ys) ==> HasShape(schema, m, xs[0])) && Holds(schema, m, xs[1..], ys))
  }

  predicate HasShape(schema: Schema, m: map<u32, EntitySnapshot>, x: EntitySnapshot) {
    x.id in m && m[x.id].id == x.id && SameShape(schema.components, m[x.id].components, x.components)
  }

  lemma {:induction false} StillHolds(schema: Schema, m: map<u32, EntitySnapshot>, xs: seq<EntitySnapshot>,
                                      ys: seq<EntitySnapshot>,
                                      e: EntitySnapshot)
    requires Holds(schema, m, xs, ys) && forall i :: 0 <= i < |xs| ==> xs[i].id != e.id
    ensures Holds(schema, m[e.id := e], xs, ys)
    decreases |xs|
  {
    hide EntityMap, SameShape;
    if xs != [] {
      StillHolds(schema, m, xs[1..], ys, e);
    }
  }

  lemma {:induction false} HoldsWithin(schema: Schema, m: map<u32, EntitySnapshot>, all: seq<EntitySnapshot>, k: nat,
                                       ys: seq<EntitySnapshot>)
    requires Sorted(all) && k <= |all|
    requires forall id :: id in EntityMap(all) && id in EntityMap(ys) ==> HasShape(schema, m, EntityMap(all)[id])
    ensures Holds(schema, m, all[k..], ys)
    decreases |all| - k
  {
    hide EntityMap, HasShape;
    if k < |all| {
      EntityAt(all, k);
      HoldsWithin(schema, m, all, k + 1, ys);
      assert all[k..][1..] == all[k + 1..];
    }
  }

  /** One pair: its update turns the receiver's entity into the patched one. */
  lemma SetPair(schema: Schema, m: map<u32, EntitySnapshot>, x: EntitySnapshot, y: EntitySnapshot,
                rest: seq<(EntitySnapshot, EntitySnapshot)>)
    requires UniqueIds(schema.components) && x.id == y.id && HasShape(schema, m, x)
    ensures SetEntities(m, DiffPairs(schema, [(x, y)] + rest))
         == SetEntities(m[x.id := PatchOnto(schema, m[x.id], x, y)], DiffPairs(schema, rest))
  {
    hide DiffComponents, SetComponents, DiffPairs, SameShape;
    PatchApplies(schema, m[x.id], x, y);
    var us := DiffComponents(schema.components, x, y);
    DiffPairsHead(schema, x, y, rest);
    if us == [] {
      assert m[x.id := m[x.id]] == m;
      assert [] + DiffPairs(schema, rest) == DiffPairs(schema, rest);
    } else {
      var u := UpdateEntity(y.id, us);
      assert ([u] + DiffPairs(schema, rest))[1..] == DiffPairs(schema, rest);
    }
  }

  lemma DiffPairsHead(schema: Schema, x: EntitySnapshot, y: EntitySnapshot, rest: seq<(EntitySnapshot, EntitySnapshot)>)
    ensures var us := DiffComponents(schema.components, x, y);
            DiffPairs(schema, [(x, y)] + rest)
            == (if us == [] then [] else [UpdateEntity(y.id, us)]) + DiffPairs(schema, rest)
  {
    hide DiffComponents;
    assert ([(x, y)] + rest)[1..] == rest;
  }

  /** All pairs: every common entity is patched, every other one is left alone. */
  lemma {:induction false} SetPairs(schema: Schema, m: map<u32, EntitySnapshot>, xs: seq<EntitySnapshot>,
                                    ys: seq<EntitySnapshot>, id: u32)
    requires UniqueIds(schema.components) && Sorted(xs) && Holds(schema, m, xs, ys)
    ensures SetEntities(m, DiffPairs(schema, Common(xs, ys))).Some?
    ensures var r := SetEntities(m, DiffPairs(schema, Common(xs, ys))).value;
            r.Keys == m.Keys
            && (id in m ==> r[id] == if id in EntityMap(xs) && id in EntityMap(ys)
                                     then PatchOnto(schema, m[id], EntityMap(xs)[id], EntityMap(ys)[id]) else m[id])
    decreases |xs|
  {
    hide PatchOnto, SetEntities, DiffPairs, UniqueIds, SameShape, SameComponentIds;
    if xs == [] {
      SetNothing(schema, m);
    } else {
      TailMap(xs);
      var x := xs[0];
      if x.id in EntityMap(ys) {
        var k := EntityIndex(ys, x.id);
        var y := EntityMap(ys)[x.id];
        var e := PatchOnto(schema, m[x.id], x, y);
        assert e.id == x.id by { PatchMerges(schema, m[x.id], x, y); }
        SetPair(schema, m, x, y, Common(xs[1..], ys));
        StillHolds(schema, m, xs[1..], ys, e);
        SetPairs(schema, m[x.id := e], xs[1..], ys, id);
      } else {
        SetPairs(schema, m, xs[1..], ys, id);
        assert Common(xs, ys) == Common(xs[1..], ys);
      }
    }
  }

  lemma SetNothing(schema: Schema, m: map<u32, EntitySnapshot>)
    ensures SetEntities(m, DiffPairs(schema, [])) == Some(m)
  {
  }

  // ---- Snapshots ----

  /** The receiver's entities: new ones in schema order, surviving ones patched, the others gone. */
  function RebuiltOnto(schema: Schema, mine: map<u32, EntitySnapshot>, base: map<u32, EntitySnapshot>,
                       curr: map<u32, EntitySnapshot>): map<u32, EntitySnapshot>
    requires base.Keys <= mine.Keys
  {
    map id | id in curr :: if id in base then PatchOnto(schema, mine[id], base[id], curr[id])
      else NormalEntity(schema, curr[id])
  }

  function Rebuilt(schema: Schema, base: map<u32, EntitySnapshot>,
                   curr: map<u32, EntitySnapshot>): map<u32, EntitySnapshot> {
    RebuiltOnto(schema, base, base, curr)
  }

  /** What the receiver applies: the exact diff, with created entities as the decoder rebuilds them. */
  function Received(schema: Schema, d: Delta): Delta {
    d.(creates := NormalAll(schema, d.creates))
  }

  lemma {:induction false} NormalMap(schema: Schema, es: seq<EntitySnapshot>)
    ensures EntityMap(NormalAll(schema, es)).Keys == EntityMap(es).Keys
    ensures forall id :: id in EntityMap(es) ==>
              EntityMap(NormalAll(schema, es))[id] == NormalEntity(schema, EntityMap(es)[id])
  {
    hide Normal;
    if es != [] {
      NormalMap(schema, es[1..]);
      assert NormalAll(schema, es)[1..] == NormalAll(schema, es[1..]);
    }
  }

  lemma {:induction false} IdsOf(es: seq<EntitySnapshot>)
    ensures IdSet(Ids(es)) == EntityMap(es).Keys
  {
    if es != [] {
      IdsOf(es[1..]);
      assert Ids(es)[1..] == Ids(es[1..]);
      IdSetStep(Ids(es));
    }
  }

  /** The receiver's entities have the ids of the sender's baseline and the same shapes. */
  predicate Mirrors(schema: Schema, mine: map<u32, EntitySnapshot>, base: map<u32, EntitySnapshot>) {
    mine.Keys == base.Keys
    && forall id :: id in base ==>
         base[id].id == id && mine[id].id == id
           && SameShape(schema.components, mine[id].components, base[id].components)
  }

  /** Destroys and creates alone bring the receiver to the sender's set of entities. */
  lemma DestroysAndCreates(schema: Schema, mine: map<u32, EntitySnapshot>, base: seq<EntitySnapshot>,
                           curr: seq<EntitySnapshot>)
    requires mine.Keys == EntityMap(base).Keys
    ensures var d := Received(schema, Diff(schema, base, curr));
            var kept := mine - IdSet(d.destroys);
            var all := kept + EntityMap(d.creates);
            && IdSet(d.destroys) <= mine.Keys
            && kept.Keys !! EntityMap(d.creates).Keys
            && all.Keys == EntityMap(curr).Keys
            && forall id :: id in EntityMap(curr) ==>
                 all[id] == if id in EntityMap(base) then mine[id] else NormalEntity(schema, EntityMap(curr)[id])
  {
    IdsOf(Missing(base, curr));
    MissingMap(base, curr);
    MissingMap(curr, base);
    NormalMap(schema, Missing(curr, base));
  }

  /**
   Applying the sender's exact diff to a receiver that mirrors the sender's baseline succeeds
   exactly when the result is within the entity limit.
   */
  lemma ApplyDiffOnto(schema: Schema, limits: CodecLimits, mine: map<u32, EntitySnapshot>, base: seq<EntitySnapshot>,
                      curr: seq<EntitySnapshot>)
    requires UniqueIds(schema.components) && Sorted(base) && Sorted(curr) && Mirrors(schema, mine, EntityMap(base))
    ensures ApplyDelta(mine, Received(schema, Diff(schema, base, curr)), limits)
         == if |curr| <= limits.maxTotalEntitiesAfterApply
            then Some(RebuiltOnto(schema, mine, EntityMap(base), EntityMap(curr))) else None
  {
    hide *;
    var d := Received(schema, Diff(schema, base, curr));
    var b, c := EntityMap(base), EntityMap(curr);
    var all := mine - IdSet(d.destroys) + EntityMap(d.creates);
    MirrorKeys(schema, mine, b);
    DestroysAndCreates(schema, mine, base, curr);
    SizeOf(curr, all);
    MirrorShapes(schema, mine, base, curr, all);
    UpdatesOnto(schema, all, base, curr);
    ReceivedUpdates(schema, base, curr);
    ApplyParts(mine, d, limits);
    PatchedAll(schema, mine, all, b, c);
  }

  lemma MirrorKeys(schema: Schema, mine: map<u32, EntitySnapshot>, base: map<u32, EntitySnapshot>)
    requires Mirrors(schema, mine, base)
    ensures mine.Keys == base.Keys
  {
  }

  lemma SizeOf(es: seq<EntitySnapshot>, m: map<u32, EntitySnapshot>)
    requires Sorted(es) && m.Keys == EntityMap(es).Keys
    ensures |m| == |es|
  {
    MapSize(es);
    KeysCount(m, EntityMap(es).Keys);
    KeysCount(EntityMap(es), EntityMap(es).Keys);
  }

  lemma ReceivedUpdates(schema: Schema, base: seq<EntitySnapshot>, curr: seq<EntitySnapshot>)
    ensures Received(schema, Diff(schema, base, curr)).updates == DiffPairs(schema, Common(base, curr))
  {
  }

  lemma ApplyParts(m: map<u32, EntitySnapshot>, d: Delta, limits: CodecLimits)
    requires IdSet(d.destroys) <= m.Keys && (m - IdSet(d.destroys)).Keys !! EntityMap(d.creates).Keys
    ensures var all := m - IdSet(d.destroys) + EntityMap(d.creates);
            ApplyDelta(m, d, limits)
            == if |all| > limits.maxTotalEntitiesAfterApply then None else SetEntities(all, d.updates)
  {
    hide EntityMap, IdSet, SetEntities;
  }

  lemma PatchedAll(schema: Schema, mine: map<u32, EntitySnapshot>, all: map<u32, EntitySnapshot>,
                   base: map<u32, EntitySnapshot>, curr: map<u32, EntitySnapshot>)
    requires mine.Keys == base.Keys && all.Keys == curr.Keys
    requires forall id :: id in curr ==> all[id] == if id in base then mine[id] else NormalEntity(schema, curr[id])
    ensures Patched(schema, all, base, curr) == RebuiltOnto(schema, mine, base, curr)
  {
    hide PatchOnto, NormalEntity;
  }

  lemma MirrorShapes(schema: Schema, mine: map<u32, EntitySnapshot>, base: seq<EntitySnapshot>,
                     curr: seq<EntitySnapshot>,
                     all: map<u32, EntitySnapshot>)
    requires Mirrors(schema, mine, EntityMap(base))
    requires all.Keys == EntityMap(curr).Keys
    requires forall id :: id in EntityMap(curr) && id in EntityMap(base) ==> all[id] == mine[id]
    ensures forall id :: id in EntityMap(base) && id in EntityMap(curr) ==> HasShape(schema, all, EntityMap(base)[id])
  {
    hide EntityMap, SameShape;
  }

  /** The entities of `m` with every common one patched. */
  function Patched(schema: Schema, m: map<u32, EntitySnapshot>, base: map<u32, EntitySnapshot>,
                   curr: map<u32, EntitySnapshot>)
    : map<u32, EntitySnapshot>
  {
    map id | id in m :: if id in base && id in curr then PatchOnto(schema, m[id], base[id], curr[id]) else m[id]
  }

  lemma UpdatesOnto(schema: Schema, m: map<u32, EntitySnapshot>, base: seq<EntitySnapshot>, curr: seq<EntitySnapshot>)
    requires UniqueIds(schema.components) && Sorted(base)
    requires forall id :: id in EntityMap(base) && id in EntityMap(curr) ==> HasShape(schema, m, EntityMap(base)[id])
    ensures SetEntities(m, DiffPairs(schema, Common(base, curr)))
         == Some(Patched(schema, m, EntityMap(base), EntityMap(curr)))
  {
    HoldsWithin(schema, m, base, 0, curr);
    assert base[0..] == base;
    SetPairs(schema, m, base, curr, 0);
    var r := SetEntities(m, DiffPairs(schema, Common(base, curr))).value;
    var goal := Patched(schema, m, EntityMap(base), EntityMap(curr));
    forall id | id in m
      ensures r[id] == goal[id]
    {
      SetPairs(schema, m, base, curr, id);
    }
    assert r == goal;
  }

  /** Applying the exact diff to the baseline itself. */
  lemma ApplyDiff(schema: Schema, limits: CodecLimits, base: seq<EntitySnapshot>, curr: seq<EntitySnapshot>)
    requires UniqueIds(schema.components) && Sorted(base) && Sorted(curr)
    ensures ApplyDelta(EntityMap(base), Received(schema, Diff(schema, base, curr)), limits)
         == if |curr| <= limits.maxTotalEntitiesAfterApply then Some(Rebuilt(schema, EntityMap(base), EntityMap(curr)))
           else None
  {
    hide EntityMap, Diff, Received, Sorted, UniqueIds, SameShape, RebuiltOnto;
    forall id | id in EntityMap(base)
      ensures EntityMap(base)[id].id == id
      ensures SameShape(schema.components, EntityMap(base)[id].components, EntityMap(base)[id].components)
    {
      var k := EntityIndex(base, id);
      SameShapeSelf(schema.components, EntityMap(base)[id].components);
    }
    ApplyDiffOnto(schema, limits, EntityMap(base), base, curr);
  }
}
