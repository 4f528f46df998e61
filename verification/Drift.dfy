/**
 How far a receiver can stray from the sender. Fields below their threshold are not sent, so
 over a chain of deltas the receiver's value trails the sender's; each delta adds at most one
 threshold.
 */
module Drift {
  import opened Core
  import opened Bits
  import opened Schemas
  import opened Fields
  import opened Diffs
  import opened Layouts
  import opened UpdateLayouts
  import opened Encodings
  import opened Walks
  import opened Apply
  import opened Rebuilding
  import opened Exactness
  import opened Soundness

  // ---- One field ----

  predicate Signed(v: FieldValue) {
    v.VSInt? || v.VVarSInt? || v.VFixedPoint?
  }

  /** The wrapped difference of two signed values does not come round to a small one. */
  predicate NoWrap(q: u32, x: FieldValue, y: FieldValue) {
    Signed(x) ==> Abs(Number(x) - Number(y)) + q < 0x1_0000_0000_0000_0000
  }

  /**
   A value that is not sent is within the threshold of the one the receiver has, exactly when
   the subtraction does not wrap around that far; booleans are always sent.
   */
  lemma UnsentBound(x: FieldValue, y: FieldValue, q: u32)
    requires SameKind(x, y) && !ExceedsThreshold(x, y, q)
    ensures x.VBool? ==> x == y
    ensures Abs(Number(x) - Number(y)) <= q <==> NoWrap(q, x, y)
  {
    var d := Number(x) - Number(y);
    if Signed(x) && d >= 0x8000_0000_0000_0000 {
      assert WrapI64(d) == d - 0x1_0000_0000_0000_0000;
    } else if Signed(x) && d < -0x8000_0000_0000_0000 {
      assert WrapI64(d) == d + 0x1_0000_0000_0000_0000;
    }
  }

  /** The two ends of a 64-bit field, as far apart as can be, count as unchanged at threshold one. */
  lemma WrapHidesAChange()
    ensures var x, y := VSInt(-0x8000_0000_0000_0000), VSInt(0x7fff_ffff_ffff_ffff);
            Encodable(SInt(64), x) && Encodable(SInt(64), y) && !ExceedsThreshold(x, y, 1)
  {
    assert Pow2(63) == 0x8000_0000_0000_0000 by { Pow2Values(); }
  }

  /** How far apart two values of a signed codec can be. */
  function Span(c: FieldCodec): nat {
    match c
    case SInt(bits) => Pow2(bits) - 1
    case VarSInt => 0xffff_ffff
    case FixedPoint(lo, hi, _) => if lo <= hi then hi - lo else 0
    case _ => 0
  }

  /** No two values of the codec wrap around into the threshold. */
  predicate TameField(f: FieldDef) {
    f.change.Threshold? ==> Span(f.codec) + f.change.thresholdQ < 0x1_0000_0000_0000_0000
  }

  predicate TamePair(f: FieldDef, x: FieldValue, y: FieldValue) {
    f.change.Threshold? ==> NoWrap(f.change.thresholdQ, x, y)
  }

  lemma InRangeTame(f: FieldDef, x: FieldValue, y: FieldValue)
    requires TameField(f) && Encodable(f.codec, x) && Encodable(f.codec, y)
    ensures TamePair(f, x, y)
  {
    if f.codec.SInt? {
      assert Pow2(f.codec.sbits) == 2 * Pow2(f.codec.sbits - 1);
    }
  }

  // ---- Tracking ----

  /**
   `c` tracks `s`: the same kind, and for `Some(k)` within `k` thresholds, where a field
   without a threshold and a boolean are equal.
   */
  predicate FieldTracks(f: FieldDef, k: Option<nat>, s: FieldValue, c: FieldValue) {
    && SameKind(s, c)
    && (k.Some? ==>
          match f.change
          case Always => s == c
          case Threshold(q) => if s.VBool? then s == c else Abs(Number(s) - Number(c)) <= k.value * q)
  }

  /** One more delta, one more threshold. */
  predicate StepsTo(k: Option<nat>, next: Option<nat>, tame: bool) {
    next.Some? ==> tame && k.Some? && k.value + 1 <= next.value
  }

  lemma FieldStep(f: FieldDef, k: Option<nat>, next: Option<nat>, base: FieldValue, curr: FieldValue, mine: FieldValue)
    requires SameKind(base, curr) && FieldTracks(f, k, base, mine) && StepsTo(k, next, TamePair(f, base, curr))
    ensures FieldTracks(f, next, curr, if FieldChanged(f, base, curr) then curr else mine)
  {
    if next.Some? && !FieldChanged(f, base, curr) && f.change.Threshold? {
      UnsentBound(base, curr, f.change.thresholdQ);
      Multiples(k.value, next.value, f.change.thresholdQ);
    }
  }

  lemma Multiples(k: nat, next: nat, q: nat)
    requires k + 1 <= next
    ensures k * q + q <= next * q
  {
    assert (next - k - 1) * q >= 0;
  }

  lemma FieldTracksItself(f: FieldDef, k: Option<nat>, v: FieldValue)
    ensures FieldTracks(f, k, v, v)
  {
  }

  lemma FieldTracksMore(f: FieldDef, k: Option<nat>, next: Option<nat>, s: FieldValue, c: FieldValue)
    requires FieldTracks(f, k, s, c) && (next.Some? ==> k.Some? && k.value <= next.value)
    ensures FieldTracks(f, next, s, c)
  {
    if next.Some? && f.change.Threshold? && k.value < next.value {
      Multiples(k.value, next.value, f.change.thresholdQ);
    }
  }

  predicate FieldsTrack(fields: seq<FieldDef>, k: Option<nat>, s: seq<FieldValue>, c: seq<FieldValue>) {
    |fields| == |s| == |c| && forall i :: 0 <= i < |fields| ==> FieldTracks(fields[i], k, s[i], c[i])
  }

  predicate FieldsTame(fields: seq<FieldDef>, x: seq<FieldValue>, y: seq<FieldValue>) {
    |fields| == |x| == |y| ==> forall i :: 0 <= i < |fields| ==> TamePair(fields[i], x[i], y[i])
  }

  // ---- Components ----

  predicate ComponentTracks(d: ComponentDef, k: Option<nat>, s: Option<ComponentSnapshot>,
                            c: Option<ComponentSnapshot>) {
    match (s, c)
    case (None, None) => true
    case (Some(x), Some(z)) => FieldsTrack(d.fields, k, x.fields, z.fields)
    case _ => false
  }

  predicate ComponentTame(d: ComponentDef, base: Option<ComponentSnapshot>, curr: Option<ComponentSnapshot>) {
    base.Some? && curr.Some? ==> FieldsTame(d.fields, base.value.fields, curr.value.fields)
  }

  /** One component: the receiver's merge tracks the sender's new value. */
  lemma ComponentStep(d: ComponentDef, limits: CodecLimits, k: Option<nat>, next: Option<nat>,
                      base: Option<ComponentSnapshot>,
                      curr: Option<ComponentSnapshot>, mine: Option<ComponentSnapshot>)
    requires ComponentComparable(d, limits, base, curr) && ComponentTracks(d, k, base, mine)
    requires StepsTo(k, next, ComponentTame(d, base, curr))
    ensures ComponentTracks(d, next, curr, if mine.None? then None else Some(MergeOnto(d, mine.value, base, curr)))
  {
    hide FieldTracks, FieldChanged, SameKind, TamePair;
    if mine.Some? {
      var b, c, z := base.value.fields, curr.value.fields, mine.value.fields;
      var merged := Overlay(FieldMask(d.fields, b, c), z, c);
      forall i | 0 <= i < |d.fields|
        ensures FieldTracks(d.fields[i], next, c[i], merged[i])
      {
        FieldStep(d.fields[i], k, next, b[i], c[i], z[i]);
      }
    }
  }

  // ---- Entities ----

  predicate EntityTracks(defs: seq<ComponentDef>, k: Option<nat>, s: EntitySnapshot, c: EntitySnapshot) {
    defs == [] ||
    (ComponentTracks(defs[0], k, FindComponent(s.components, defs[0].id), FindComponent(c.components, defs[0].id))
     && EntityTracks(defs[1..], k, s, c))
  }

  predicate EntityTame(defs: seq<ComponentDef>, base: EntitySnapshot, curr: EntitySnapshot) {
    defs == [] ||
    (ComponentTame(defs[0], FindComponent(base.components, defs[0].id), FindComponent(curr.components, defs[0].id))
     && EntityTame(defs[1..], base, curr))
  }

  lemma {:induction false} TracksShape(defs: seq<ComponentDef>, k: Option<nat>, s: EntitySnapshot, c: EntitySnapshot)
    requires EntityTracks(defs, k, s, c)
    ensures SameShape(defs, c.components, s.components)
  {
    hide FindComponent, FieldTracks;
    if defs != [] {
      TracksShape(defs[1..], k, s, c);
    }
  }

  lemma {:induction false} EntityStep(schema: Schema, limits: CodecLimits, defs: seq<ComponentDef>, k: Option<nat>,
                                      next: Option<nat>,
                                      base: EntitySnapshot, curr: EntitySnapshot, mine: EntitySnapshot,
                                      e: EntitySnapshot)
    requires AllFound(schema.components, defs) && Comparable(defs, limits, base, curr)
    requires EntityTracks(defs, k, base, mine)
    requires StepsTo(k, next, EntityTame(defs, base, curr))
    requires forall id: u16 ::
               FindComponent(e.components, id) == Expected(schema.components, mine.components, base, curr, id)
    ensures EntityTracks(defs, next, curr, e)
  {
    hide FindComponent, FindDef, ComponentComparable, ComponentTracks, ComponentTame, MergeOnto;
    if defs != [] {
      var id := defs[0].id;
      var b, c, z := FindComponent(base.components, id), FindComponent(curr.components, id),
        FindComponent(mine.components, id);
      ComponentStep(defs[0], limits, k, next, b, c, z);
      assert FindComponent(e.components, id) == Expected(schema.components, mine.components, base, curr, id);
      EntityStep(schema, limits, defs[1..], k, next, base, curr, mine, e);
    }
  }

  lemma PatchTracks(schema: Schema, limits: CodecLimits, k: Option<nat>, next: Option<nat>, base: EntitySnapshot,
                    curr: EntitySnapshot, mine: EntitySnapshot)
    requires UniqueIds(schema.components) && Comparable(schema.components, limits, base, curr)
    requires EntityTracks(schema.components, k, base, mine)
    requires StepsTo(k, next, EntityTame(schema.components, base, curr))
    requires InOrder(schema.components, mine.components)
    ensures var e := PatchOnto(schema, mine, base, curr);
            e.id == mine.id && InOrder(schema.components, e.components)
              && EntityTracks(schema.components, next, curr, e)
  {
    hide *;
    var defs := schema.components;
    TracksShape(defs, k, base, mine);
    PatchMerges(schema, mine, base, curr);
    UniqueAllFound(defs, 0);
    assert defs[0..] == defs;
    var e := PatchOnto(schema, mine, base, curr);
    EntityStep(schema, limits, defs, k, next, base, curr, mine, e);
    OrderByIds(defs, mine.components, e.components);
  }

  // ---- New entities ----

  lemma {:induction false} NormalLookup(defs: seq<ComponentDef>, cs: seq<ComponentSnapshot>, id: u16)
    requires UniqueIds(defs)
    ensures FindComponent(Normal(defs, cs), id) == if FindDef(defs, id).Some? then FindComponent(cs, id) else None
    decreases |defs|
  {
    if defs != [] {
      NormalLookup(defs[1..], cs, id);
      if FindComponent(cs, defs[0].id).Some? {
        assert Normal(defs, cs)[1..] == Normal(defs[1..], cs);
      }
      if defs[0].id == id {
        NotAfter(defs, id);
      }
    }
  }

  lemma FullTracks(d: ComponentDef, limits: CodecLimits, k: Option<nat>, c: Option<ComponentSnapshot>)
    requires FullOk(d, limits, c)
    ensures ComponentTracks(d, k, c, c)
  {
    hide FieldTracks, AllEncodable;
    if c.Some? {
      EncodableLength(d.fields, c.value.fields);
      forall i | 0 <= i < |d.fields|
        ensures FieldTracks(d.fields[i], k, c.value.fields[i], c.value.fields[i])
      {
        FieldTracksItself(d.fields[i], k, c.value.fields[i]);
      }
    }
  }

  lemma {:induction false} FullsTrack(schema: Schema, limits: CodecLimits, defs: seq<ComponentDef>, k: Option<nat>,
                                      e: EntitySnapshot)
    requires UniqueIds(schema.components) && AllFound(schema.components, defs) && FullsOk(defs, limits, e.components)
    ensures EntityTracks(defs, k, e, NormalEntity(schema, e))
  {
    hide FindComponent, FindDef, FullOk, Normal, ComponentTracks, UniqueIds;
    if defs != [] {
      NormalLookup(schema.components, e.components, defs[0].id);
      FullTracks(defs[0], limits, k, FindComponent(e.components, defs[0].id));
      FullsTrack(schema, limits, defs[1..], k, e);
    }
  }

  lemma CreatedTracks(schema: Schema, limits: CodecLimits, k: Option<nat>, e: EntitySnapshot)
    requires UniqueIds(schema.components) && CreateOk(schema, limits, e)
    ensures EntityTracks(schema.components, k, e, NormalEntity(schema, e))
    ensures InOrder(schema.components, NormalEntity(schema, e).components)
  {
    hide FullsOk, AllKnown, EntityTracks, InOrder, Normal, AllFound, UniqueIds;
    UniqueAllFound(schema.components, 0);
    assert schema.components[0..] == schema.components;
    FullsTrack(schema, limits, schema.components, k, e);
    NormalOrdered(schema.components, e.components);
  }

  // ---- Snapshots ----

  predicate EntityShadows(schema: Schema, k: Option<nat>, s: EntitySnapshot, c: EntitySnapshot) {
    s.id == c.id && InOrder(schema.components, c.components) && EntityTracks(schema.components, k, s, c)
  }

  /** The receiver has the sender's entities, each in schema order and tracking the sender's. */
  predicate Shadows(schema: Schema, k: Option<nat>, s: map<u32, EntitySnapshot>, c: map<u32, EntitySnapshot>) {
    && s.Keys == c.Keys
    && forall id :: id in s ==> s[id].id == id && EntityShadows(schema, k, s[id], c[id])
  }

  predicate TameStep(schema: Schema, base: map<u32, EntitySnapshot>, curr: map<u32, EntitySnapshot>) {
    forall id :: id in base && id in curr ==> EntityTame(schema.components, base[id], curr[id])
  }

  lemma {:induction false} CreatedOk(schema: Schema, limits: CodecLimits, xs: seq<EntitySnapshot>,
                                     ys: seq<EntitySnapshot>, id: u32)
    requires AllCreateOk(schema, limits, Missing(xs, ys)) && Sorted(xs)
    requires id in EntityMap(xs) && id !in EntityMap(ys)
    ensures CreateOk(schema, limits, EntityMap(xs)[id])
  {
    hide CreateOk;
    var rest := Missing(xs[1..], ys);
    if xs[0].id in EntityMap(ys) {
      assert Missing(xs, ys) == rest;
    } else {
      assert Missing(xs, ys)[1..] == rest;
    }
    if xs[0].id != id {
      CreatedOk(schema, limits, xs[1..], ys, id);
    } else {
      TailMap(xs);
    }
  }

  lemma ShadowsMirror(schema: Schema, k: Option<nat>, s: map<u32, EntitySnapshot>, c: map<u32, EntitySnapshot>)
    requires Shadows(schema, k, s, c)
    ensures Mirrors(schema, c, s)
  {
    hide EntityTracks, SameShape, InOrder;
    forall id | id in s
      ensures s[id].id == id && c[id].id == id && SameShape(schema.components, c[id].components, s[id].components)
    {
      assert EntityShadows(schema, k, s[id], c[id]);
      TracksShape(schema.components, k, s[id], c[id]);
    }
  }

  /**
   One delta. A receiver that shadows the sender's baseline can apply the sender's difference,
   and then shadows the sender's new snapshot, one threshold further away at most.
   */
  lemma ShadowStep(schema: Schema, limits: CodecLimits, k: Option<nat>, next: Option<nat>,
                   mine: map<u32, EntitySnapshot>,
                   base: seq<EntitySnapshot>, curr: seq<EntitySnapshot>)
    requires UniqueIds(schema.components) && Sorted(base) && Sorted(curr)
    requires AllComparable(schema, limits, Common(base, curr)) && AllCreateOk(schema, limits, Missing(curr, base))
    requires Shadows(schema, k, EntityMap(base), mine)
    requires StepsTo(k, next, TameStep(schema, EntityMap(base), EntityMap(curr)))
    ensures Shadows(schema, next, EntityMap(curr), RebuiltOnto(schema, mine, EntityMap(base), EntityMap(curr)))
  {
    hide EntityTame, PatchOnto, InOrder, Comparable, CreateOk;
    var b, c := EntityMap(base), EntityMap(curr);
    var r := RebuiltOnto(schema, mine, b, c);
    forall id | id in c
      ensures c[id].id == id && EntityShadows(schema, next, c[id], r[id])
    {
      MapIds(curr, id);
      if id in b {
        assert EntityShadows(schema, k, b[id], mine[id]);
        PairComparable(schema, limits, base, curr, id);
        PatchTracks(schema, limits, k, next, b[id], c[id], mine[id]);
      } else {
        CreatedOk(schema, limits, curr, base, id);
        CreatedTracks(schema, limits, next, c[id]);
      }
    }
  }

  lemma {:induction false} EntityTracksMore(defs: seq<ComponentDef>, k: Option<nat>, next: Option<nat>,
                                            s: EntitySnapshot, c: EntitySnapshot)
    requires EntityTracks(defs, k, s, c) && (next.Some? ==> k.Some? && k.value <= next.value)
    ensures EntityTracks(defs, next, s, c)
  {
    hide FieldTracks, FindComponent;
    if defs != [] {
      EntityTracksMore(defs[1..], k, next, s, c);
      var x, z := FindComponent(s.components, defs[0].id), FindComponent(c.components, defs[0].id);
      if x.Some? {
        forall i | 0 <= i < |defs[0].fields|
          ensures FieldTracks(defs[0].fields[i], next, x.value.fields[i], z.value.fields[i])
        {
          FieldTracksMore(defs[0].fields[i], k, next, x.value.fields[i], z.value.fields[i]);
        }
      }
    }
  }

  /** Tracking loosens with the number of deltas. */
  lemma ShadowsMore(schema: Schema, k: Option<nat>, next: Option<nat>, s: map<u32, EntitySnapshot>,
                    c: map<u32, EntitySnapshot>)
    requires Shadows(schema, k, s, c) && (next.Some? ==> k.Some? && k.value <= next.value)
    ensures Shadows(schema, next, s, c)
  {
    hide EntityTracks, InOrder;
    forall id | id in s
      ensures s[id].id == id && EntityShadows(schema, next, s[id], c[id])
    {
      assert EntityShadows(schema, k, s[id], c[id]);
      EntityTracksMore(schema.components, k, next, s[id], c[id]);
    }
  }

  // ---- When nothing is lost ----

  lemma {:induction false} ExactFields(defs: seq<ComponentDef>, k: nat, s: EntitySnapshot, c: EntitySnapshot)
    requires AlwaysSent(defs) && EntityTracks(defs, Some(k), s, c)
    ensures Normal(defs, c.components) == Normal(defs, s.components)
    decreases |defs|
  {
    hide FindComponent;
    if defs != [] {
      ExactFields(defs[1..], k, s, c);
      var x, z := FindComponent(s.components, defs[0].id), FindComponent(c.components, defs[0].id);
      if x.Some? {
        assert x.value.fields == z.value.fields;
      }
    }
  }

  /** When every field is always sent, the receiver has the sender's entities in schema order. */
  lemma ShadowsExact(schema: Schema, k: nat, s: map<u32, EntitySnapshot>, c: map<u32, EntitySnapshot>)
    requires UniqueIds(schema.components) && AlwaysSent(schema.components) && Shadows(schema, Some(k), s, c)
    ensures forall id :: id in s ==> c[id] == NormalEntity(schema, s[id])
  {
    hide EntityTracks, InOrder, AlwaysSent, Normal, UniqueIds;
    forall id | id in s
      ensures c[id] == NormalEntity(schema, s[id])
    {
      assert EntityShadows(schema, Some(k), s[id], c[id]);
      ExactFields(schema.components, k, s[id], c[id]);
      NormalIff(schema.components, c[id].components);
    }
  }

  lemma {:induction false} AlwaysTame(defs: seq<ComponentDef>, base: EntitySnapshot, curr: EntitySnapshot)
    requires AlwaysSent(defs)
    ensures EntityTame(defs, base, curr)
  {
    hide FindComponent;
    if defs != [] {
      AlwaysTame(defs[1..], base, curr);
    }
  }

  // ---- In-range values are tame ----

  predicate TameFields(fields: seq<FieldDef>) {
    forall i :: 0 <= i < |fields| ==> TameField(fields[i])
  }

  /** No signed codec of the schema is so wide that its differences wrap around into the threshold. */
  predicate TameSchema(defs: seq<ComponentDef>) {
    defs == [] || (TameFields(defs[0].fields) && TameSchema(defs[1..]))
  }

  lemma {:induction false} EncodableAt(fields: seq<FieldDef>, values: seq<FieldValue>, i: nat)
    requires AllEncodable(fields, values) && i < |fields| && i < |values|
    ensures Encodable(fields[i].codec, values[i])
    decreases |fields|
  {
    hide Encodable;
    if i > 0 {
      EncodableAt(fields[1..], values[1..], i - 1);
    }
  }

  lemma {:induction false} InRangeEntityTame(defs: seq<ComponentDef>, limits: CodecLimits, base: EntitySnapshot,
                                             curr: EntitySnapshot)
    requires TameSchema(defs) && FullsOk(defs, limits, base.components) && FullsOk(defs, limits, curr.components)
    ensures EntityTame(defs, base, curr)
  {
    hide FindComponent, TamePair, TameField, AllEncodable;
    if defs != [] {
      InRangeEntityTame(defs[1..], limits, base, curr);
      var b, c := FindComponent(base.components, defs[0].id), FindComponent(curr.components, defs[0].id);
      if b.Some? && c.Some? && |defs[0].fields| == |b.value.fields| == |c.value.fields| {
        forall i | 0 <= i < |defs[0].fields|
          ensures TamePair(defs[0].fields[i], b.value.fields[i], c.value.fields[i])
        {
          EncodableAt(defs[0].fields, b.value.fields, i);
          EncodableAt(defs[0].fields, c.value.fields, i);
          InRangeTame(defs[0].fields[i], b.value.fields[i], c.value.fields[i]);
        }
      }
    }
  }

  /** Every value of every component the schema knows is in range. */
  predicate InRange(schema: Schema, limits: CodecLimits, m: map<u32, EntitySnapshot>) {
    forall id :: id in m ==> FullsOk(schema.components, limits, m[id].components)
  }

  lemma TameSteps(schema: Schema, limits: CodecLimits, base: map<u32, EntitySnapshot>, curr: map<u32, EntitySnapshot>)
    requires AlwaysSent(schema.components)
             || (TameSchema(schema.components) && InRange(schema, limits, base) && InRange(schema, limits, curr))
    ensures TameStep(schema, base, curr)
  {
    hide AlwaysSent, TameSchema, FullsOk, EntityTame;
    forall id | id in base && id in curr
      ensures EntityTame(schema.components, base[id], curr[id])
    {
      if AlwaysSent(schema.components) {
        AlwaysTame(schema.components, base[id], curr[id]);
      } else {
        InRangeEntityTame(schema.components, limits, base[id], curr[id]);
      }
    }
  }

  // ---- Chains of deltas ----

  /** Applies the deltas of a chain of snapshots, each taken against the sender's own previous one. */
  function ApplyChain(schema: Schema, limits: CodecLimits, mine: map<u32, EntitySnapshot>, base: seq<EntitySnapshot>,
                      chain: seq<seq<EntitySnapshot>>): Option<map<u32, EntitySnapshot>>
    decreases |chain|
  {
    if chain == [] then Some(mine)
    else
      var next :- ApplyDelta(mine, Received(schema, Diff(schema, base, chain[0])), limits);
      ApplyChain(schema, limits, next, chain[0], chain[1..])
  }

  /** What the encoder demands of each step, the entity limit, and no wrapping. */
  predicate ChainOk(schema: Schema, limits: CodecLimits, base: seq<EntitySnapshot>, chain: seq<seq<EntitySnapshot>>)
    decreases |chain|
  {
    chain == [] ||
    (&& Sorted(base) && Sorted(chain[0]) && |chain[0]| <= limits.maxTotalEntitiesAfterApply
     && AllComparable(schema, limits, Common(base, chain[0])) && AllCreateOk(schema, limits, Missing(chain[0], base))
     && TameStep(schema, EntityMap(base), EntityMap(chain[0]))
     && ChainOk(schema, limits, chain[0], chain[1..]))
  }

  function ChainLast(base: seq<EntitySnapshot>, chain: seq<seq<EntitySnapshot>>): seq<EntitySnapshot> {
    if chain == [] then base else chain[|chain| - 1]
  }

  /**
   Over any chain of deltas, each taken against the sender's own previous snapshot, every
   application succeeds and every field ends up within as many thresholds as there were deltas.
   */
  lemma {:induction false} ChainDrift(schema: Schema, limits: CodecLimits, k: nat, mine: map<u32, EntitySnapshot>,
                                      base: seq<EntitySnapshot>, chain: seq<seq<EntitySnapshot>>)
    requires UniqueIds(schema.components) && ChainOk(schema, limits, base, chain)
    requires Shadows(schema, Some(k), EntityMap(base), mine)
    ensures ApplyChain(schema, limits, mine, base, chain).Some?
    ensures Shadows(schema, Some(k + |chain|), EntityMap(ChainLast(base, chain)),
                    ApplyChain(schema, limits, mine, base, chain).value)
    decreases |chain|
  {
    hide AllCreateOk, Sorted, UniqueIds, Shadows, TameStep, ApplyDelta, Diff, Mirrors;
    if chain != [] {
      ShadowStep(schema, limits, Some(k), Some(k + 1), mine, base, chain[0]);
      ShadowsMirror(schema, Some(k), EntityMap(base), mine);
      ApplyDiffOnto(schema, limits, mine, base, chain[0]);
      var next := ApplyDelta(mine, Received(schema, Diff(schema, base, chain[0])), limits).value;
      ChainDrift(schema, limits, k + 1, next, chain[0], chain[1..]);
    }
  }

  lemma WellFormedShadowsItself(schema: Schema, limits: CodecLimits, k: Option<nat>, m: map<u32, EntitySnapshot>)
    requires UniqueIds(schema.components) && WellFormedMap(schema, limits, m)
    ensures Shadows(schema, k, m, m)
  {
    hide EntityTracks, InOrder, UniqueIds, CreateOk, Normal;
    forall id | id in m
      ensures EntityShadows(schema, k, m[id], m[id])
    {
      assert WellFormed(schema, limits, m[id]);
      CreatedTracks(schema, limits, k, m[id]);
      NormalIff(schema.components, m[id].components);
    }
  }

  /**
   A delta taken against what the receiver has rebuilt, and not against the sender's own
   previous snapshot, leaves every field within one threshold: errors do not add up.
   */
  lemma ReconstructedDrift(schema: Schema, limits: CodecLimits, held: seq<EntitySnapshot>, curr: seq<EntitySnapshot>)
    requires UniqueIds(schema.components) && WellFormedMap(schema, limits, EntityMap(held))
    requires Sorted(held) && Sorted(curr) && TameStep(schema, EntityMap(held), EntityMap(curr))
    requires AllComparable(schema, limits, Common(held, curr)) && AllCreateOk(schema, limits, Missing(curr, held))
    ensures Shadows(schema, Some(1), EntityMap(curr), Rebuilt(schema, EntityMap(held), EntityMap(curr)))
  {
    WellFormedShadowsItself(schema, limits, Some(0), EntityMap(held));
    ShadowStep(schema, limits, Some(0), Some(1), EntityMap(held), held, curr);
  }

  lemma {:induction false} ComponentTracked(defs: seq<ComponentDef>, k: Option<nat>, s: EntitySnapshot,
                                            c: EntitySnapshot, id: u16)
    requires EntityTracks(defs, k, s, c) && FindDef(defs, id).Some?
    ensures ComponentTracks(FindDef(defs, id).value, k, FindComponent(s.components, id),
                            FindComponent(c.components, id))
  {
    hide ComponentTracks, FindComponent;
    if defs[0].id != id {
      ComponentTracked(defs[1..], k, s, c, id);
    }
  }

  /**
   What shadowing says of one field: the receiver has it too, and its number is within `k`
   thresholds of the sender's; without a threshold, and for a boolean, the values are equal.
   */
  lemma FieldWithin(schema: Schema, k: nat, s: map<u32, EntitySnapshot>, c: map<u32, EntitySnapshot>, entity: u32,
                    id: u16, i: nat)
    requires Shadows(schema, Some(k), s, c) && entity in s
    requires FindDef(schema.components, id).Some? && FindComponent(s[entity].components, id).Some?
    requires i < |FindDef(schema.components, id).value.fields|
    ensures entity in c && FindComponent(c[entity].components, id).Some?
    ensures var f := FindDef(schema.components, id).value.fields[i];
            var xs, ys := FindComponent(s[entity].components, id).value.fields,
              FindComponent(c[entity].components, id).value.fields;
            && i < |xs| && i < |ys|
            && (f.change.Threshold? ==> Abs(Number(xs[i]) - Number(ys[i])) <= k * f.change.thresholdQ)
            && (f.change.Always? || xs[i].VBool? ==> xs[i] == ys[i])
  {
    hide EntityTracks, InOrder, FindDef, FindComponent;
    assert EntityShadows(schema, Some(k), s[entity], c[entity]);
    ComponentTracked(schema.components, Some(k), s[entity], c[entity], id);
    var d := FindDef(schema.components, id).value;
    var xs, ys := FindComponent(s[entity].components, id).value.fields,
      FindComponent(c[entity].components, id).value.fields;
    assert FieldTracks(d.fields[i], Some(k), xs[i], ys[i]);
  }
}
