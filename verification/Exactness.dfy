/** When nothing is lost: with every field sent on any change, the rebuilt entities are the sender's. */
module Exactness {
  import opened Core
  import opened Schemas
  import opened Diffs
  import opened Layouts
  import opened Walks
  import opened Apply
  import opened Rebuilding

  predicate AlwaysFields(fields: seq<FieldDef>) {
    forall i :: 0 <= i < |fields| ==> fields[i].change.Always?
  }

  /** No field of the schema tolerates a difference. */
  predicate AlwaysSent(defs: seq<ComponentDef>) {
    defs == [] || (AlwaysFields(defs[0].fields) && AlwaysSent(defs[1..]))
  }

  predicate DistinctComponents(cs: seq<ComponentSnapshot>) {
    forall i, j :: 0 <= i < j < |cs| ==> cs[i].id != cs[j].id
  }

  /** Components the schema knows, each listed once. */
  predicate ProperList(schema: Schema, e: EntitySnapshot) {
    AllKnown(schema.components, e.components) && DistinctComponents(e.components)
  }

  lemma {:induction false} FoundAlways(defs: seq<ComponentDef>, id: u16)
    requires FindDef(defs, id).Some? && AlwaysSent(defs)
    ensures AlwaysFields(FindDef(defs, id).value.fields)
  {
    hide AlwaysFields;
    if defs[0].id != id {
      FoundAlways(defs[1..], id);
    }
  }

  lemma {:induction false} FoundComparable(defs: seq<ComponentDef>, limits: CodecLimits, base: EntitySnapshot,
                                           curr: EntitySnapshot, id: u16)
    requires FindDef(defs, id).Some? && Comparable(defs, limits, base, curr)
    ensures ComponentComparable(FindDef(defs, id).value, limits, FindComponent(base.components, id),
                                FindComponent(curr.components, id))
  {
    hide ComponentComparable, FindComponent;
    if defs[0].id != id {
      FoundComparable(defs[1..], limits, base, curr, id);
    }
  }

  lemma {:induction false} KnownAt(defs: seq<ComponentDef>, cs: seq<ComponentSnapshot>, k: nat)
    requires AllKnown(defs, cs) && k < |cs|
    ensures FindDef(defs, cs[k].id).Some?
  {
    hide FindDef;
    if k > 0 {
      KnownAt(defs, cs[1..], k - 1);
    }
  }

  lemma {:induction false} ComponentAt(cs: seq<ComponentSnapshot>, k: nat)
    requires DistinctComponents(cs) && k < |cs|
    ensures FindComponent(cs, cs[k].id) == Some(cs[k])
  {
    if k > 0 {
      assert cs[0].id != cs[k].id;
      ComponentAt(cs[1..], k - 1);
    }
  }

  /** Merging when every difference counts as a change yields the current fields. */
  lemma MergeAlways(d: ComponentDef, base: ComponentSnapshot, curr: ComponentSnapshot)
    requires base.id == curr.id && Matching(d, base, curr) && AlwaysFields(d.fields)
    ensures MergeOnto(d, base, Some(base), Some(curr)) == curr
  {
    assert Overlay(FieldMask(d.fields, base.fields, curr.fields), base.fields, curr.fields) == curr.fields;
  }

  lemma KnownMerges(schema: Schema, limits: CodecLimits, base: EntitySnapshot, curr: EntitySnapshot, id: u16)
    requires AlwaysSent(schema.components) && Comparable(schema.components, limits, base, curr)
    requires FindDef(schema.components, id).Some?
    ensures Expected(schema.components, base.components, base, curr, id) == FindComponent(curr.components, id)
  {
    hide AlwaysSent, Comparable, AlwaysFields, FindDef, FindComponent, MergeOnto;
    FoundAlways(schema.components, id);
    FoundComparable(schema.components, limits, base, curr, id);
    if FindComponent(base.components, id).Some? {
      MergeAlways(FindDef(schema.components, id).value, FindComponent(base.components, id).value,
                  FindComponent(curr.components, id).value);
    }
  }

  /** A surviving entity is rebuilt exactly when both sides list its components in the same order. */
  lemma PatchExact(schema: Schema, limits: CodecLimits, base: EntitySnapshot, curr: EntitySnapshot)
    requires UniqueIds(schema.components) && AlwaysSent(schema.components)
    requires Comparable(schema.components, limits, base, curr) && base.id == curr.id
    requires ProperList(schema, base) && ProperList(schema, curr)
    ensures Patch(schema, base, curr) == curr <==> SameComponentIds(base.components, curr.components)
  {
    SameShapeSelf(schema.components, base.components);
    PatchMerges(schema, base, base, curr);
    var e := Patch(schema, base, curr);
    if SameComponentIds(base.components, curr.components) {
      forall k | 0 <= k < |curr.components|
        ensures e.components[k] == curr.components[k]
      {
        var id := curr.components[k].id;
        KnownAt(schema.components, curr.components, k);
        KnownMerges(schema, limits, base, curr, id);
        ComponentAt(curr.components, k);
        ComponentAt(e.components, k);
      }
      assert e.components == curr.components;
    }
  }

  /** Created entities in schema order; surviving ones listing the components the baseline lists, in its order. */
  predicate SameLists(schema: Schema, base: map<u32, EntitySnapshot>, curr: map<u32, EntitySnapshot>) {
    forall id :: id in curr ==>
      if id in base then SameComponentIds(base[id].components, curr[id].components)
      else InOrder(schema.components, curr[id].components)
  }

  predicate ProperLists(schema: Schema, m: map<u32, EntitySnapshot>) {
    forall id :: id in m ==> ProperList(schema, m[id])
  }

  lemma {:induction false} PairComparable(schema: Schema, limits: CodecLimits, xs: seq<EntitySnapshot>,
                                          ys: seq<EntitySnapshot>, id: u32)
    requires AllComparable(schema, limits, Common(xs, ys)) && Sorted(xs)
    requires id in EntityMap(xs) && id in EntityMap(ys)
    ensures Comparable(schema.components, limits, EntityMap(xs)[id], EntityMap(ys)[id])
  {
    hide Comparable;
    var rest := Common(xs[1..], ys);
    if xs[0].id in EntityMap(ys) {
      assert Common(xs, ys)[1..] == rest;
    } else {
      assert Common(xs, ys) == rest;
    }
    if xs[0].id != id {
      PairComparable(schema, limits, xs[1..], ys, id);
    } else {
      TailMap(xs);
    }
  }

  lemma {:induction false} MapIds(es: seq<EntitySnapshot>, id: u32)
    requires id in EntityMap(es)
    ensures EntityMap(es)[id].id == id
  {
    var k := EntityIndex(es, id);
  }

  /** With every field always sent, the rebuilt entities are the sender's exactly when the component lists agree. */
  lemma RebuiltExact(schema: Schema, limits: CodecLimits, base: seq<EntitySnapshot>, curr: seq<EntitySnapshot>)
    requires UniqueIds(schema.components) && AlwaysSent(schema.components) && Sorted(base)
    requires AllComparable(schema, limits, Common(base, curr))
    requires ProperLists(schema, EntityMap(base)) && ProperLists(schema, EntityMap(curr))
    ensures Rebuilt(schema, EntityMap(base), EntityMap(curr)) == EntityMap(curr)
       <==> SameLists(schema, EntityMap(base), EntityMap(curr))
  {
    var b, c := EntityMap(base), EntityMap(curr);
    var r := Rebuilt(schema, b, c);
    forall id | id in c
      ensures r[id] == c[id] <==>
              if id in b then SameComponentIds(b[id].components, c[id].components)
              else InOrder(schema.components, c[id].components)
    {
      MapIds(curr, id);
      if id in b {
        MapIds(base, id);
        PairComparable(schema, limits, base, curr, id);
        PatchExact(schema, limits, b[id], c[id]);
      } else {
        NormalIff(schema.components, c[id].components);
      }
    }
  }

  // ---- Lists in schema order agree ----

  lemma {:induction false} OrderedProper(defs: seq<ComponentDef>, cs: seq<ComponentSnapshot>, all: seq<ComponentDef>,
                                         k: nat)
    requires UniqueIds(all) && k <= |all| && defs == all[k..] && InOrder(defs, cs)
    ensures AllKnown(all, cs) && DistinctComponents(cs)
    ensures forall i :: 0 <= i < |cs| ==> exists j :: k <= j < |all| && cs[i].id == all[j].id
    decreases |all| - k
  {
    if k < |all| {
      assert defs[1..] == all[k + 1..];
      if cs != [] && cs[0].id == defs[0].id {
        OrderedProper(defs[1..], cs[1..], all, k + 1);
        DefAt(all, k);
        forall i | 0 <= i < |cs|
          ensures exists j :: k <= j < |all| && cs[i].id == all[j].id
          ensures i > 0 ==> cs[i].id != cs[0].id
        {
          if i > 0 {
            assert cs[i] == cs[1..][i - 1];
            var j :| k + 1 <= j < |all| && cs[i].id == all[j].id;
          } else {
            assert cs[0].id == all[k].id;
          }
        }
      } else {
        OrderedProper(defs[1..], cs, all, k + 1);
      }
    }
  }

  lemma InOrderProper(schema: Schema, e: EntitySnapshot)
    requires UniqueIds(schema.components) && InOrder(schema.components, e.components)
    ensures ProperList(schema, e)
  {
    hide InOrder, UniqueIds;
    assert schema.components[0..] == schema.components;
    OrderedProper(schema.components, e.components, schema.components, 0);
  }

  /** Two lists in schema order with the same components present are the same list of ids. */
  lemma {:induction false} OrderedSameIds(defs: seq<ComponentDef>, limits: CodecLimits, base: EntitySnapshot,
                                          curr: EntitySnapshot,
                                          b: seq<ComponentSnapshot>, c: seq<ComponentSnapshot>)
    requires Comparable(defs, limits, base, curr)
    requires b == Normal(defs, base.components) && c == Normal(defs, curr.components)
    ensures SameComponentIds(b, c)
    decreases |defs|
  {
    if defs != [] {
      OrderedSameIds(defs[1..], limits, base, curr, Normal(defs[1..], base.components),
                     Normal(defs[1..], curr.components));
    }
  }

  predicate OrderedMap(schema: Schema, m: map<u32, EntitySnapshot>) {
    forall id :: id in m ==> InOrder(schema.components, m[id].components)
  }

  lemma OrderedLists(schema: Schema, limits: CodecLimits, base: seq<EntitySnapshot>, curr: seq<EntitySnapshot>)
    requires UniqueIds(schema.components) && Sorted(base) && AllComparable(schema, limits, Common(base, curr))
    requires OrderedMap(schema, EntityMap(base)) && OrderedMap(schema, EntityMap(curr))
    ensures ProperLists(schema, EntityMap(base)) && ProperLists(schema, EntityMap(curr))
    ensures SameLists(schema, EntityMap(base), EntityMap(curr))
  {
    var b, c := EntityMap(base), EntityMap(curr);
    forall id | id in b
      ensures ProperList(schema, b[id])
    {
      InOrderProper(schema, b[id]);
    }
    forall id | id in c
      ensures ProperList(schema, c[id])
      ensures id in b ==> SameComponentIds(b[id].components, c[id].components)
    {
      InOrderProper(schema, c[id]);
      if id in b {
        PairComparable(schema, limits, base, curr, id);
        NormalIff(schema.components, b[id].components);
        NormalIff(schema.components, c[id].components);
        OrderedSameIds(schema.components, limits, b[id], c[id], b[id].components, c[id].components);
      }
    }
  }
}
