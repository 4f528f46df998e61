/** What has changed between two snapshots, independently of how the encoders walk over them. */
module Diffs {
  import opened Core
  import opened Schemas

  /** New values of some fields of one component, by field index. */
  datatype UpdateComponent = UpdateComponent(id: u16, fields: seq<(nat, FieldValue)>)

  datatype UpdateEntity = UpdateEntity(id: u32, components: seq<UpdateComponent>)

  // ---- Entity lists as maps ----

  predicate Sorted(es: seq<EntitySnapshot>) {
    forall i, j :: 0 <= i < j < |es| ==> es[i].id < es[j].id
  }

  predicate SortedIds(ids: seq<u32>) {
    forall i, j :: 0 <= i < j < |ids| ==> ids[i] < ids[j]
  }

  predicate SortedUpdates(us: seq<UpdateEntity>) {
    forall i, j :: 0 <= i < j < |us| ==> us[i].id < us[j].id
  }

  function EntityMap(es: seq<EntitySnapshot>): (m: map<u32, EntitySnapshot>)
    ensures es != [] ==> es[0].id in m
  {
    if es == [] then map[] else EntityMap(es[1..])[es[0].id := es[0]]
  }

  /** Every key of the map is the id of an entity in the list. */
  lemma {:induction false} EntityIndex(es: seq<EntitySnapshot>, id: u32) returns (i: nat)
    requires id in EntityMap(es)
    ensures i < |es| && es[i].id == id && EntityMap(es)[id] == es[i]
  {
    if es[0].id == id {
      i := 0;
    } else {
      var k := EntityIndex(es[1..], id);
      i := k + 1;
    }
  }

  lemma {:induction false} EntityAt(es: seq<EntitySnapshot>, i: nat)
    requires Sorted(es) && i < |es|
    ensures es[i].id in EntityMap(es) && EntityMap(es)[es[i].id] == es[i]
  {
    if i > 0 {
      EntityAt(es[1..], i - 1);
    }
  }

  /** A sorted entity list is determined by the map it represents. */
  lemma {:induction false} SortedUnique(a: seq<EntitySnapshot>, b: seq<EntitySnapshot>)
    requires Sorted(a) && Sorted(b) && EntityMap(a) == EntityMap(b)
    ensures a == b
  {
    if a != [] && b != [] {
      HeadIsLeast(a, b);
      HeadIsLeast(b, a);
      assert a[0] == b[0] by {
        EntityAt(a, 0);
        EntityAt(b, 0);
      }
      TailMap(a);
      TailMap(b);
      SortedUnique(a[1..], b[1..]);
      assert a == [a[0]] + a[1..] && b == [b[0]] + b[1..];
    }
  }

  lemma HeadIsLeast(a: seq<EntitySnapshot>, b: seq<EntitySnapshot>)
    requires a != [] && b != [] && Sorted(b) && EntityMap(a) == EntityMap(b)
    ensures b[0].id <= a[0].id
  {
    var i := EntityIndex(b, a[0].id);
  }

  lemma TailMap(es: seq<EntitySnapshot>)
    requires es != [] && Sorted(es)
    ensures EntityMap(es[1..]) == EntityMap(es) - {es[0].id}
  {
    if es[0].id in EntityMap(es[1..]) {
      var i := EntityIndex(es[1..], es[0].id);
      assert false;
    }
    RemoveInserted(EntityMap(es[1..]), es[0].id, es[0]);
  }

  lemma RemoveInserted<K, V>(m: map<K, V>, k: K, v: V)
    requires k !in m
    ensures m[k := v] - {k} == m
  {
  }

  lemma KeysCount(m: map<u32, EntitySnapshot>, ids: set<u32>)
    requires m.Keys == ids
    ensures |m| == |ids|
  {
    assert |m| == |m.Keys|;
  }

  function Ids(es: seq<EntitySnapshot>): (ids: seq<u32>)
    ensures |ids| == |es| && forall i :: 0 <= i < |es| ==> ids[i] == es[i].id
  {
    seq(|es|, i requires 0 <= i < |es| => es[i].id)
  }

  // ---- Set differences ----

  /** The entities of `xs` whose id does not occur in `ys`, in order. */
  function Missing(xs: seq<EntitySnapshot>, ys: seq<EntitySnapshot>): seq<EntitySnapshot> {
    if xs == [] then []
    else (if xs[0].id in EntityMap(ys) then [] else [xs[0]]) + Missing(xs[1..], ys)
  }

  /** The pairs of entities with a common id, in the order of `xs`. */
  function Common(xs: seq<EntitySnapshot>, ys: seq<EntitySnapshot>): seq<(EntitySnapshot, EntitySnapshot)> {
    if xs == [] then []
    else (if xs[0].id in EntityMap(ys) then [(xs[0], EntityMap(ys)[xs[0].id])] else []) + Common(xs[1..], ys)
  }

  // ---- Components ----

  /** The first component with the id: a linear search. */
  function FindComponent(cs: seq<ComponentSnapshot>, id: u16): (r: Option<ComponentSnapshot>)
    ensures r.Some? ==> r.value.id == id
  {
    if cs == [] then None else if cs[0].id == id then Some(cs[0]) else FindComponent(cs[1..], id)
  }

  function FindDef(defs: seq<ComponentDef>, id: u16): (r: Option<ComponentDef>)
    ensures r.Some? ==> r.value.id == id
  {
    if defs == [] then None else if defs[0].id == id then Some(defs[0]) else FindDef(defs[1..], id)
  }

  lemma {:induction false} DefAt(defs: seq<ComponentDef>, i: nat)
    requires i < |defs| && forall j, k :: 0 <= j < k < |defs| ==> defs[j].id != defs[k].id
    ensures FindDef(defs, defs[i].id) == Some(defs[i])
  {
    if i > 0 {
      assert defs[0].id != defs[i].id;
      DefAt(defs[1..], i - 1);
    }
  }

  lemma {:induction false} AbsentDef(defs: seq<ComponentDef>, id: u16)
    requires forall i :: 0 <= i < |defs| ==> defs[i].id != id
    ensures FindDef(defs, id) == None
  {
    if defs != [] {
      AbsentDef(defs[1..], id);
    }
  }

  /** A component found in a valid schema is valid. */
  lemma {:induction false} FoundValid(defs: seq<ComponentDef>, id: u16)
    requires FindDef(defs, id).Some? && ValidComponents(defs)
    ensures ValidComponent(FindDef(defs, id).value)
  {
    hide ValidComponent;
    if defs[0].id != id {
      FoundValid(defs[1..], id);
    }
  }

  // ---- Fields ----

  predicate SameKind(a: FieldValue, b: FieldValue) {
    match a
    case VBool(_) => b.VBool?
    case VUInt(_) => b.VUInt?
    case VSInt(_) => b.VSInt?
    case VVarUInt(_) => b.VVarUInt?
    case VVarSInt(_) => b.VVarSInt?
    case VFixedPoint(_) => b.VFixedPoint?
  }

  /** The number a numeric field holds. */
  function Number(v: FieldValue): int {
    match v
    case VBool(b) => if b then 1 else 0
    case VUInt(u) => u
    case VSInt(i) => i
    case VVarUInt(u) => u
    case VVarSInt(i) => i
    case VFixedPoint(q) => q
  }

  /** Signed values are subtracted with 64-bit wrap-around before the absolute value is taken. */
  predicate ExceedsThreshold(a: FieldValue, b: FieldValue, q: u32)
    requires SameKind(a, b)
  {
    match a
    case VBool(x) => x != b.b
    case VUInt(x) => Abs(x - b.u) > q
    case VVarUInt(x) => Abs(x - b.vu) > q
    case VSInt(x) => Abs(WrapI64(x - b.i)) > q
    case VVarSInt(x) => Abs(WrapI64(x - b.vi)) > q
    case VFixedPoint(x) => Abs(WrapI64(x - b.q)) > q
  }

  predicate FieldChanged(f: FieldDef, base: FieldValue, curr: FieldValue)
    requires SameKind(base, curr)
  {
    match f.change
    case Always => base != curr
    case Threshold(q) => ExceedsThreshold(base, curr, q)
  }

  predicate SameKinds(base: seq<FieldValue>, curr: seq<FieldValue>) {
    |base| == |curr| && forall i :: 0 <= i < |base| ==> SameKind(base[i], curr[i])
  }

  /** Which fields of a component are to be sent. */
  function FieldMask(fields: seq<FieldDef>, base: seq<FieldValue>, curr: seq<FieldValue>): (mask: seq<bool>)
    requires |fields| == |base| && SameKinds(base, curr)
    ensures |mask| == |fields|
    ensures forall i :: 0 <= i < |fields| ==> mask[i] == FieldChanged(fields[i], base[i], curr[i])
  {
    seq(|fields|, i requires 0 <= i < |fields| => FieldChanged(fields[i], base[i], curr[i]))
  }

  /** The masked values from index `k` on, each with its index. */
  function Selected(mask: seq<bool>, values: seq<FieldValue>, k: nat): seq<(nat, FieldValue)>
    requires k <= |mask| == |values|
    decreases |mask| - k
  {
    if k == |mask| then []
    else (if mask[k] then [(k, values[k])] else []) + Selected(mask, values, k + 1)
  }

  // ---- Component and entity diffs ----

  /** What the encoders demand of one schema component in a pair of entities with the same id. */
  predicate ComponentComparable(d: ComponentDef, limits: CodecLimits,
                                base: Option<ComponentSnapshot>, curr: Option<ComponentSnapshot>) {
    match (base, curr)
    case (None, None) => true
    case (Some(b), Some(c)) =>
      |b.fields| == |d.fields| && |d.fields| <= limits.maxFieldsPerComponent && SameKinds(b.fields, c.fields)
    case _ => false
  }

  predicate Comparable(defs: seq<ComponentDef>, limits: CodecLimits, base: EntitySnapshot, curr: EntitySnapshot) {
    defs == [] ||
    (ComponentComparable(defs[0], limits, FindComponent(base.components, defs[0].id),
                         FindComponent(curr.components, defs[0].id))
     && Comparable(defs[1..], limits, base, curr))
  }

  /** The changed fields of one schema component. */
  function DiffFields(d: ComponentDef, base: EntitySnapshot, curr: EntitySnapshot): seq<(nat, FieldValue)> {
    match (FindComponent(base.components, d.id), FindComponent(curr.components, d.id))
    case (Some(b), Some(c)) =>
      if |b.fields| == |d.fields| && SameKinds(b.fields, c.fields)
      then Selected(FieldMask(d.fields, b.fields, c.fields), c.fields, 0)
      else []
    case _ => []
  }

  /** The changed components, in schema order. */
  function DiffComponents(defs: seq<ComponentDef>, base: EntitySnapshot, curr: EntitySnapshot): seq<UpdateComponent> {
    if defs == [] then []
    else
      var fields := DiffFields(defs[0], base, curr);
      (if fields == [] then [] else [UpdateComponent(defs[0].id, fields)]) + DiffComponents(defs[1..], base, curr)
  }

  predicate AllComparable(schema: Schema, limits: CodecLimits, pairs: seq<(EntitySnapshot, EntitySnapshot)>) {
    pairs == [] ||
    (Comparable(schema.components, limits, pairs[0].0, pairs[0].1) && AllComparable(schema, limits, pairs[1..]))
  }

  /** The changed entities among pairs of entities with the same id. */
  function DiffPairs(schema: Schema, pairs: seq<(EntitySnapshot, EntitySnapshot)>): seq<UpdateEntity> {
    if pairs == [] then []
    else
      var components := DiffComponents(schema.components, pairs[0].0, pairs[0].1);
      (if components == [] then [] else [UpdateEntity(pairs[0].1.id, components)]) + DiffPairs(schema, pairs[1..])
  }

  /** A delta as three lists: what `encode_delta_from_changes` takes and what the decoders return. */
  datatype Delta = Delta(destroys: seq<u32>, creates: seq<EntitySnapshot>, updates: seq<UpdateEntity>)

  function Diff(schema: Schema, base: seq<EntitySnapshot>, curr: seq<EntitySnapshot>): Delta {
    Delta(Ids(Missing(base, curr)), Missing(curr, base), DiffPairs(schema, Common(base, curr)))
  }

  // ---- Step lemmas for loops over these lists ----

  lemma {:induction false} SelectedEmpty(mask: seq<bool>, values: seq<FieldValue>, k: nat)
    requires k <= |mask| == |values|
    ensures Selected(mask, values, k) == [] <==> true !in mask[k..]
    decreases |mask| - k
  {
    if k < |mask| {
      SelectedEmpty(mask, values, k + 1);
      assert mask[k..] == [mask[k]] + mask[k + 1..];
    }
  }

  function CountTrue(mask: seq<bool>): nat {
    if mask == [] then 0 else (if mask[0] then 1 else 0) + CountTrue(mask[1..])
  }

  lemma {:induction false} SelectedCount(mask: seq<bool>, values: seq<FieldValue>, k: nat)
    requires k <= |mask| == |values|
    ensures |Selected(mask, values, k)| == CountTrue(mask[k..])
    decreases |mask| - k
  {
    if k < |mask| {
      SelectedCount(mask, values, k + 1);
      assert mask[k..][1..] == mask[k + 1..];
    }
  }

  lemma {:induction false} DiffPairsStep(schema: Schema, limits: CodecLimits, p: (EntitySnapshot, EntitySnapshot),
                                         rest: seq<(EntitySnapshot, EntitySnapshot)>)
    ensures AllComparable(schema, limits, [p] + rest)
       <==> Comparable(schema.components, limits, p.0, p.1) && AllComparable(schema, limits, rest)
    ensures DiffComponents(schema.components, p.0, p.1) == []
            ==> DiffPairs(schema, [p] + rest) == DiffPairs(schema, rest)
    ensures var us := DiffComponents(schema.components, p.0, p.1);
            us != [] ==> DiffPairs(schema, [p] + rest) == [UpdateEntity(p.1.id, us)] + DiffPairs(schema, rest)
  {
    hide Comparable, DiffComponents;
    assert ([p] + rest)[1..] == rest;
    assert [] + DiffPairs(schema, rest) == DiffPairs(schema, rest);
  }
}
