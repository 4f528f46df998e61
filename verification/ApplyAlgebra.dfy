/** Exactly when updates can be applied, and what they override. */
module ApplyAlgebra {
  import opened Core
  import opened Schemas
  import opened Diffs
  import opened UpdateLayouts
  import opened Encodings
  import opened ChangeLists
  import opened Apply
  import opened Rebuilding

  // ---- When an update fails ----

  lemma {:induction false} SetFieldsIff(values: seq<FieldValue>, fs: seq<(nat, FieldValue)>)
    ensures SetFields(values, fs).Some? <==> IndicesIn(|values|, fs)
    decreases |fs|
  {
    if fs != [] && fs[0].0 < |values| {
      SetFieldsIff(values[fs[0].0 := fs[0].1], fs[1..]);
    }
  }

  /** The component is there and every field index is in range. */
  predicate Fits(cs: seq<ComponentSnapshot>, u: UpdateComponent) {
    match FindComponent(cs, u.id)
    case None => false
    case Some(c) => IndicesIn(|c.fields|, u.fields)
  }

  predicate AllFit(cs: seq<ComponentSnapshot>, us: seq<UpdateComponent>) {
    us == [] || (Fits(cs, us[0]) && AllFit(cs, us[1..]))
  }

  lemma {:induction false} SetComponentIff(cs: seq<ComponentSnapshot>, u: UpdateComponent)
    ensures SetComponent(cs, u).Some? <==> Fits(cs, u)
  {
    hide SetFields, IndicesIn;
    if cs != [] {
      SetFieldsIff(cs[0].fields, u.fields);
      SetComponentIff(cs[1..], u);
    }
  }

  /** Setting a component changes no answer about ids and field counts. */
  lemma {:induction false} SetComponentShape(cs: seq<ComponentSnapshot>, u: UpdateComponent, v: UpdateComponent)
    requires SetComponent(cs, u).Some?
    ensures Fits(SetComponent(cs, u).value, v) <==> Fits(cs, v)
  {
    hide SetFields, IndicesIn;
    if cs[0].id != u.id {
      SetComponentShape(cs[1..], u, v);
    }
  }

  lemma {:induction false} ShapeKept(cs: seq<ComponentSnapshot>, u: UpdateComponent, us: seq<UpdateComponent>)
    requires SetComponent(cs, u).Some?
    ensures AllFit(SetComponent(cs, u).value, us) <==> AllFit(cs, us)
  {
    hide SetComponent, Fits;
    if us != [] {
      SetComponentShape(cs, u, us[0]);
      ShapeKept(cs, u, us[1..]);
    }
  }

  lemma {:induction false} SetComponentsIff(cs: seq<ComponentSnapshot>, us: seq<UpdateComponent>)
    ensures SetComponents(cs, us).Some? <==> AllFit(cs, us)
    decreases |us|
  {
    hide SetComponent, Fits;
    if us != [] {
      SetComponentIff(cs, us[0]);
      if Fits(cs, us[0]) {
        ShapeKept(cs, us[0], us[1..]);
        SetComponentsIff(SetComponent(cs, us[0]).value, us[1..]);
      }
    }
  }

  predicate EntityFits(m: map<u32, EntitySnapshot>, u: UpdateEntity) {
    u.id in m && AllFit(m[u.id].components, u.components)
  }

  predicate EntitiesFit(m: map<u32, EntitySnapshot>, us: seq<UpdateEntity>) {
    us == [] || (EntityFits(m, us[0]) && EntitiesFit(m, us[1..]))
  }

  lemma {:induction false} OthersFit(m: map<u32, EntitySnapshot>, e: EntitySnapshot, us: seq<UpdateEntity>)
    requires forall i :: 0 <= i < |us| ==> us[i].id != e.id
    ensures EntitiesFit(m[e.id := e], us) <==> EntitiesFit(m, us)
  {
    hide AllFit;
    if us != [] {
      OthersFit(m, e, us[1..]);
    }
  }

  /** Updates with distinct ids apply exactly when every entity, component and field they name is there. */
  lemma {:induction false} SetEntitiesIff(m: map<u32, EntitySnapshot>, us: seq<UpdateEntity>)
    requires SortedUpdates(us)
    ensures SetEntities(m, us).Some? <==> EntitiesFit(m, us)
    decreases |us|
  {
    hide SetComponents, AllFit;
    if us != [] {
      if us[0].id in m {
        SetComponentsIff(m[us[0].id].components, us[0].components);
      }
      if EntityFits(m, us[0]) {
        var e := EntitySnapshot(us[0].id, SetComponents(m[us[0].id].components, us[0].components).value);
        OthersFit(m, e, us[1..]);
        SetEntitiesIff(m[us[0].id := e], us[1..]);
      }
    }
  }

  /**
   A delta applies exactly when its destroyed ids are present, its created ids are new, the
   result is within the limit, and every updated entity, component and field is there.
   */
  lemma ApplyIff(m: map<u32, EntitySnapshot>, d: Delta, limits: CodecLimits)
    requires SortedUpdates(d.updates)
    ensures ApplyDelta(m, d, limits).Some? <==>
            var all := m - IdSet(d.destroys) + EntityMap(d.creates);
            && IdSet(d.destroys) <= m.Keys
            && (m.Keys - IdSet(d.destroys)) !! EntityMap(d.creates).Keys
            && |all| <= limits.maxTotalEntitiesAfterApply
            && EntitiesFit(all, d.updates)
  {
    hide SetEntities, EntitiesFit, IdSet, EntityMap, SortedUpdates;
    var kept := m - IdSet(d.destroys);
    assert kept.Keys == m.Keys - IdSet(d.destroys);
    SetEntitiesIff(kept + EntityMap(d.creates), d.updates);
  }

  // ---- What updates override ----

  /** The value an ascending field list has for index `i`. */
  function NewValue(fs: seq<(nat, FieldValue)>, i: nat): Option<FieldValue> {
    if fs == [] then None else if fs[0].0 == i then Some(fs[0].1) else NewValue(fs[1..], i)
  }

  lemma {:induction false} NoEarlier(fs: seq<(nat, FieldValue)>, lo: nat, i: nat)
    requires FieldsAscend(fs, lo) && i < lo
    ensures NewValue(fs, i) == None
    decreases |fs|
  {
    if fs != [] {
      NoEarlier(fs[1..], fs[0].0 + 1, i);
    }
  }

  /** Ascending field updates override pointwise. */
  lemma {:induction false} SetFieldsAt(values: seq<FieldValue>, fs: seq<(nat, FieldValue)>, lo: nat, i: nat)
    requires FieldsAscend(fs, lo) && SetFields(values, fs).Some? && i < |values|
    ensures SetFields(values, fs).value[i] == match NewValue(fs, i) case Some(v) => v case None => values[i]
    decreases |fs|
  {
    if fs != [] {
      SetFieldsAt(values[fs[0].0 := fs[0].1], fs[1..], fs[0].0 + 1, i);
      if i == fs[0].0 {
        NoEarlier(fs[1..], fs[0].0 + 1, i);
      }
    }
  }

  function UpdateFor(us: seq<UpdateComponent>, id: u16): Option<UpdateComponent> {
    if us == [] then None else if us[0].id == id then Some(us[0]) else UpdateFor(us[1..], id)
  }

  predicate DistinctUpdates(us: seq<UpdateComponent>) {
    forall i, j :: 0 <= i < j < |us| ==> us[i].id != us[j].id
  }

  lemma {:induction false} NoUpdateFor(us: seq<UpdateComponent>, id: u16)
    requires forall i :: 0 <= i < |us| ==> us[i].id != id
    ensures UpdateFor(us, id) == None
  {
    if us != [] {
      NoUpdateFor(us[1..], id);
    }
  }

  /** Distinct component updates override pointwise: a component is changed by the update for its id and by no other. */
  lemma {:induction false} SetComponentsAt(cs: seq<ComponentSnapshot>, us: seq<UpdateComponent>, id: u16)
    requires DistinctUpdates(us) && SetComponents(cs, us).Some?
    ensures var r := SetComponents(cs, us).value;
            && SameComponentIds(cs, r)
            && FindComponent(r, id) ==
               match (FindComponent(cs, id), UpdateFor(us, id))
               case (Some(c), Some(u)) => (match SetFields(c.fields, u.fields)
                                           case Some(values) => Some(ComponentSnapshot(id, values))
                                           case None => None)
               case (c, _) => c
    decreases |us|
  {
    hide SetComponent, SetFields, FindComponent, Fits;
    if us != [] {
      var u := us[0];
      var next := SetComponent(cs, u).value;
      SetComponentLookup(cs, u, id);
      SetComponentsAt(next, us[1..], id);
      SameIdsTrans(cs, next, SetComponents(cs, us).value);
      if u.id == id {
        NoUpdateFor(us[1..], id);
        SetOnlyFound(cs, u);
        SetComponentFound(cs, u, SetFields(FindComponent(cs, u.id).value.fields, u.fields).value);
      }
    }
  }

  function EntityUpdateFor(us: seq<UpdateEntity>, id: u32): Option<UpdateEntity> {
    if us == [] then None else if us[0].id == id then Some(us[0]) else EntityUpdateFor(us[1..], id)
  }

  lemma {:induction false} NoEntityUpdateFor(us: seq<UpdateEntity>, id: u32)
    requires forall i :: 0 <= i < |us| ==> us[i].id != id
    ensures EntityUpdateFor(us, id) == None
  {
    if us != [] {
      NoEntityUpdateFor(us[1..], id);
    }
  }

  /** Sorted entity updates override pointwise. */
  lemma {:induction false} SetEntitiesAt(m: map<u32, EntitySnapshot>, us: seq<UpdateEntity>, id: u32)
    requires SortedUpdates(us) && SetEntities(m, us).Some? && id in m
    ensures SetEntities(m, us).value[id] ==
            match EntityUpdateFor(us, id)
            case None => m[id]
            case Some(u) => (match SetComponents(m[id].components, u.components)
                             case Some(cs) => EntitySnapshot(id, cs)
                             case None => m[id])
    decreases |us|
  {
    hide SetComponents;
    if us != [] {
      SetEntitiesAt(SetEntity(m, us[0]).value, us[1..], id);
      if us[0].id == id {
        NoEntityUpdateFor(us[1..], id);
      }
    }
  }
}
