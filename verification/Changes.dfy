/** What a delta says, change by change, in terms of distances and thresholds. */
module Changes {
  import opened Core
  import opened Schemas
  import opened Diffs
  import opened Walks

  // ---- When a value counts as changed ----

  /** Signed values are compared on a circle of 2^64, unsigned ones on a line. */
  function Distance(x: FieldValue, y: FieldValue): nat {
    var d := Abs(Number(x) - Number(y));
    if (x.VSInt? || x.VVarSInt? || x.VFixedPoint?) && d > 0x8000_0000_0000_0000 && d < 0x1_0000_0000_0000_0000
    then 0x1_0000_0000_0000_0000 - d else d
  }

  /** Booleans and fields without a threshold count every difference, the others only distances above the threshold. */
  predicate Moved(f: FieldDef, x: FieldValue, y: FieldValue) {
    if x.VBool? || f.change.Always? then x != y else Distance(x, y) > f.change.thresholdQ
  }

  lemma Circle(x: i64, y: i64)
    ensures var d := Abs(x - y);
            Abs(WrapI64(x - y)) == if d > 0x8000_0000_0000_0000 then 0x1_0000_0000_0000_0000 - d else d
    ensures Abs(x - y) < 0x1_0000_0000_0000_0000
  {
  }

  lemma ChangedIff(f: FieldDef, x: FieldValue, y: FieldValue)
    requires SameKind(x, y)
    ensures FieldChanged(f, x, y) <==> Moved(f, x, y)
  {
    hide WrapI64;
    match x
    case VSInt(a) => Circle(a, y.i);
    case VVarSInt(a) => Circle(a, y.vi);
    case VFixedPoint(a) => Circle(a, y.q);
    case _ =>
  }

  // ---- Lookups ----

  /** The component found is the first one with the id. */
  lemma {:induction false} FoundFirst(cs: seq<ComponentSnapshot>, id: u16, k: nat)
    requires k < |cs| && cs[k].id == id && forall j :: 0 <= j < k ==> cs[j].id != id
    ensures FindComponent(cs, id) == Some(cs[k])
  {
    if k > 0 {
      FoundFirst(cs[1..], id, k - 1);
    }
  }

  lemma {:induction false} FoundNone(cs: seq<ComponentSnapshot>, id: u16)
    ensures FindComponent(cs, id).None? <==> forall j :: 0 <= j < |cs| ==> cs[j].id != id
  {
    if cs != [] {
      FoundNone(cs[1..], id);
      assert forall j :: 1 <= j < |cs| ==> cs[j] == cs[1..][j - 1];
    }
  }

  // ---- Fields ----

  lemma {:induction false} SelectedMember(mask: seq<bool>, values: seq<FieldValue>, k: nat, i: nat, v: FieldValue)
    requires k <= |mask| == |values|
    ensures (i, v) in Selected(mask, values, k) <==> k <= i < |mask| && mask[i] && v == values[i]
    decreases |mask| - k
  {
    if k < |mask| {
      var head := if mask[k] then [(k, values[k])] else [];
      SelectedMember(mask, values, k + 1, i, v);
      assert Selected(mask, values, k) == head + Selected(mask, values, k + 1);
    }
  }

  /** Both have the component, with the same number of fields of the same kinds. */
  predicate Paired(d: ComponentDef, base: EntitySnapshot, curr: EntitySnapshot) {
    var b, c := FindComponent(base.components, d.id), FindComponent(curr.components, d.id);
    b.Some? && c.Some? && |b.value.fields| == |d.fields| && SameKinds(b.value.fields, c.value.fields)
  }

  /** Field `i` of the component has moved, and `v` is its value now. */
  predicate FieldMoved(d: ComponentDef, base: EntitySnapshot, curr: EntitySnapshot, i: nat, v: FieldValue) {
    Paired(d, base, curr) && i < |d.fields|
    && var x, y := FindComponent(base.components, d.id).value.fields[i],
      FindComponent(curr.components, d.id).value.fields[i];
       v == y && Moved(d.fields[i], x, y)
  }

  lemma FieldListed(d: ComponentDef, base: EntitySnapshot, curr: EntitySnapshot, i: nat, v: FieldValue)
    ensures (i, v) in DiffFields(d, base, curr) <==> FieldMoved(d, base, curr, i, v)
  {
    hide FindComponent, FieldChanged, Moved;
    if Paired(d, base, curr) {
      var b, c := FindComponent(base.components, d.id).value, FindComponent(curr.components, d.id).value;
      SelectedMember(FieldMask(d.fields, b.fields, c.fields), c.fields, 0, i, v);
      if i < |d.fields| {
        ChangedIff(d.fields[i], b.fields[i], c.fields[i]);
      }
    }
  }

  // ---- Components and entities ----

  /** A list of component updates says that field `i` of component `id` is now `v`. */
  predicate ComponentSays(us: seq<UpdateComponent>, id: u16, i: nat, v: FieldValue) {
    exists u :: u in us && u.id == id && (i, v) in u.fields
  }

  predicate Says(us: seq<UpdateEntity>, entity: u32, id: u16, i: nat, v: FieldValue) {
    exists u :: u in us && u.id == entity && ComponentSays(u.components, id, i, v)
  }

  lemma {:induction false} ComponentsSay(defs: seq<ComponentDef>, base: EntitySnapshot, curr: EntitySnapshot, id: u16,
                                         i: nat, v: FieldValue)
    ensures ComponentSays(DiffComponents(defs, base, curr), id, i, v)
       <==> exists d :: d in defs && d.id == id && FieldMoved(d, base, curr, i, v)
  {
    hide FieldMoved, DiffFields;
    if defs != [] {
      var fields := DiffFields(defs[0], base, curr);
      var head := if fields == [] then [] else [UpdateComponent(defs[0].id, fields)];
      var rest := DiffComponents(defs[1..], base, curr);
      ComponentsSay(defs[1..], base, curr, id, i, v);
      FieldListed(defs[0], base, curr, i, v);
      assert DiffComponents(defs, base, curr) == head + rest;
      SaysEither(head, rest, id, i, v);
      assert defs == [defs[0]] + defs[1..];
      assert ComponentSays(head, id, i, v) <==> defs[0].id == id && (i, v) in fields by {
        if fields != [] {
          assert head[0] in head;
        }
      }
    }
  }

  lemma SaysEither(a: seq<UpdateComponent>, b: seq<UpdateComponent>, id: u16, i: nat, v: FieldValue)
    ensures ComponentSays(a + b, id, i, v) <==> ComponentSays(a, id, i, v) || ComponentSays(b, id, i, v)
  {
  }

  lemma {:induction false} PairsSay(schema: Schema, pairs: seq<(EntitySnapshot, EntitySnapshot)>, entity: u32, id: u16,
                                    i: nat, v: FieldValue)
    ensures Says(DiffPairs(schema, pairs), entity, id, i, v)
       <==> exists p :: p in pairs && p.1.id == entity
                        && ComponentSays(DiffComponents(schema.components, p.0, p.1), id, i, v)
  {
    hide ComponentSays, DiffComponents;
    if pairs != [] {
      var p := pairs[0];
      var components := DiffComponents(schema.components, p.0, p.1);
      var head := if components == [] then [] else [UpdateEntity(p.1.id, components)];
      var rest := DiffPairs(schema, pairs[1..]);
      PairsSay(schema, pairs[1..], entity, id, i, v);
      assert DiffPairs(schema, pairs) == head + rest;
      EntitiesSayEither(head, rest, entity, id, i, v);
      assert pairs == [p] + pairs[1..];
      NothingSaid(id, i, v);
      assert Says(head, entity, id, i, v) <==> p.1.id == entity && ComponentSays(components, id, i, v) by {
        if components != [] {
          assert head[0] in head;
        }
      }
    }
  }

  lemma NothingSaid(id: u16, i: nat, v: FieldValue)
    ensures !ComponentSays([], id, i, v)
  {
  }

  lemma EntitiesSayEither(a: seq<UpdateEntity>, b: seq<UpdateEntity>, entity: u32, id: u16, i: nat, v: FieldValue)
    ensures Says(a + b, entity, id, i, v) <==> Says(a, entity, id, i, v) || Says(b, entity, id, i, v)
  {
    hide ComponentSays;
  }

  lemma {:induction false} CommonMember(xs: seq<EntitySnapshot>, ys: seq<EntitySnapshot>,
                                        p: (EntitySnapshot, EntitySnapshot))
    ensures p in Common(xs, ys) <==> p.0 in xs && p.0.id in EntityMap(ys) && p.1 == EntityMap(ys)[p.0.id]
  {
    hide EntityMap;
    if xs != [] {
      CommonMember(xs[1..], ys, p);
      assert xs == [xs[0]] + xs[1..];
    }
  }

  lemma {:induction false} DefMember(defs: seq<ComponentDef>, id: u16)
    requires UniqueIds(defs)
    ensures forall d :: d in defs && d.id == id <==> FindDef(defs, id) == Some(d)
  {
    if defs != [] {
      assert UniqueIds(defs[1..]);
      DefMember(defs[1..], id);
      assert defs == [defs[0]] + defs[1..];
    }
  }

  // ---- The whole delta ----

  /** What there is to say about a field of an entity that both snapshots have. */
  predicate EntityMoved(schema: Schema, base: map<u32, EntitySnapshot>, curr: map<u32, EntitySnapshot>, entity: u32,
                        id: u16, i: nat, v: FieldValue) {
    entity in base && entity in curr
    && FindDef(schema.components, id).Some?
    && FieldMoved(FindDef(schema.components, id).value, base[entity], curr[entity], i, v)
  }

  /**
   A delta, exactly. It destroys the entities that are gone and creates those that are new, as
   they are; and of every other entity it says, field by field, the current value of just those
   fields that have moved: by any difference, or by more than their threshold.
   */
  lemma DeltaSays(schema: Schema, base: seq<EntitySnapshot>, curr: seq<EntitySnapshot>, entity: u32, id: u16, i: nat,
                  v: FieldValue)
    requires UniqueIds(schema.components) && Sorted(base) && Sorted(curr)
    ensures Says(Diff(schema, base, curr).updates, entity, id, i, v)
       <==> EntityMoved(schema, EntityMap(base), EntityMap(curr), entity, id, i, v)
  {
    hide EntityMap, FieldMoved, ComponentSays, DiffComponents, Says, DiffPairs, Common, UniqueIds, FindDef;
    var pairs := Common(base, curr);
    PairsSay(schema, pairs, entity, id, i, v);
    forall p | p in pairs && p.1.id == entity
      ensures entity in EntityMap(base) && entity in EntityMap(curr)
      ensures p == (EntityMap(base)[entity], EntityMap(curr)[entity])
    {
      CommonMember(base, curr, p);
      KeyedById(curr);
      MemberKeyed(base, p.0);
    }
    if entity in EntityMap(base) && entity in EntityMap(curr) {
      KeyedById(base);
      KeyedById(curr);
      CommonMember(base, curr, (EntityMap(base)[entity], EntityMap(curr)[entity]));
      ComponentsSay(schema.components, EntityMap(base)[entity], EntityMap(curr)[entity], id, i, v);
      DefMember(schema.components, id);
    }
  }

  lemma MemberKeyed(es: seq<EntitySnapshot>, e: EntitySnapshot)
    requires Sorted(es) && e in es
    ensures e.id in EntityMap(es) && EntityMap(es)[e.id] == e
  {
    hide EntityMap;
    var k :| 0 <= k < |es| && es[k] == e;
    EntityAt(es, k);
  }

  lemma {:induction false} KeyedById(es: seq<EntitySnapshot>)
    ensures forall id :: id in EntityMap(es) ==> EntityMap(es)[id].id == id && EntityMap(es)[id] in es
  {
    if es != [] {
      KeyedById(es[1..]);
      assert es == [es[0]] + es[1..];
    }
  }

  lemma {:induction false} ComponentSpeaks(defs: seq<ComponentDef>, base: EntitySnapshot, curr: EntitySnapshot)
    requires DiffComponents(defs, base, curr) != []
    ensures DiffComponents(defs, base, curr)[0].fields != []
  {
    hide DiffFields;
    if DiffFields(defs[0], base, curr) == [] {
      ComponentSpeaks(defs[1..], base, curr);
    }
  }

  lemma {:induction false} PairSpeaks(schema: Schema, pairs: seq<(EntitySnapshot, EntitySnapshot)>)
    requires DiffPairs(schema, pairs) != []
    ensures var u := DiffPairs(schema, pairs)[0]; u.components != [] && u.components[0].fields != []
  {
    hide DiffComponents;
    if DiffComponents(schema.components, pairs[0].0, pairs[0].1) == [] {
      PairSpeaks(schema, pairs[1..]);
    } else {
      ComponentSpeaks(schema.components, pairs[0].0, pairs[0].1);
    }
  }

  /** Where no field of any entity has moved, there is no update at all. */
  lemma NothingMoved(schema: Schema, base: seq<EntitySnapshot>, curr: seq<EntitySnapshot>)
    requires UniqueIds(schema.components) && Sorted(base) && Sorted(curr)
    requires forall entity, id, i, v :: !EntityMoved(schema, EntityMap(base), EntityMap(curr), entity, id, i, v)
    ensures Diff(schema, base, curr).updates == []
  {
    hide EntityMap, Common, DiffPairs, EntityMoved, UniqueIds;
    var us := Diff(schema, base, curr).updates;
    if us != [] {
      PairSpeaks(schema, Common(base, curr));
      var c := us[0].components[0];
      var (i, v) := c.fields[0];
      assert c in us[0].components && (i, v) in c.fields;
      assert ComponentSays(us[0].components, c.id, i, v);
      assert Says(us, us[0].id, c.id, i, v);
      DeltaSays(schema, base, curr, us[0].id, c.id, i, v);
    }
  }

  /** Ids that are gone and entities that are new. */
  lemma DeltaIds(schema: Schema, base: seq<EntitySnapshot>, curr: seq<EntitySnapshot>)
    requires Sorted(base) && Sorted(curr)
    ensures forall id :: id in Diff(schema, base, curr).destroys <==> id in EntityMap(base) && id !in EntityMap(curr)
    ensures forall e :: e in Diff(schema, base, curr).creates <==> e in curr && e.id !in EntityMap(base)
  {
    hide EntityMap, Missing, DiffPairs;
    var d := Diff(schema, base, curr);
    forall e
      ensures e in d.creates <==> e in curr && e.id !in EntityMap(base)
    {
      MissingMember(curr, base, e);
    }
    forall id
      ensures id in d.destroys <==> id in EntityMap(base) && id !in EntityMap(curr)
    {
      IdsMember(Missing(base, curr), id);
      KeyedById(base);
      if id in EntityMap(base) {
        MissingMember(base, curr, EntityMap(base)[id]);
      }
      if e :| e in Missing(base, curr) && e.id == id {
        MissingMember(base, curr, e);
        MemberKeyed(base, e);
      }
    }
  }

  lemma IdsMember(es: seq<EntitySnapshot>, id: u32)
    ensures id in Ids(es) <==> exists e :: e in es && e.id == id
  {
    if e :| e in es && e.id == id {
      var k :| 0 <= k < |es| && es[k] == e;
      assert Ids(es)[k] == id;
    }
  }
}
