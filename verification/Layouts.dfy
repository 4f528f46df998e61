/**
 The layout of the four delta section bodies.

 `Put` functions give the bits of a body, `Get` functions what a decoder makes of any byte
 string, and each pair is joined by a `Back` lemma: decoding what was written gives it back.
 */
module Layouts {
  import opened Core
  import opened Bits
  import opened Bitstream
  import opened Schemas
  import opened Fields
  import opened Diffs

  // ---- Shared pieces ----

  function PutId(s: Bits, id: u32): (r: Bits)
    ensures s <= r && |r| % 8 == 0 && |r| >= |s| + 32
  {
    PutBytes(PutAlign(s), LittleEndian(id, 4))
  }

  function GetId(data: seq<byte>, p: nat): Option<(u32, nat)> {
    var p' :- GetAlign(data, p);
    GetU32(data, p')
  }

  lemma IdBack(data: seq<byte>, s: Bits, id: u32)
    requires PutId(s, id) <= BitsOf(data)
    ensures GetId(data, |s|) == Some((id, |PutId(s, id)|))
  {
    AlignBack(data, s);
    U32Back(data, PutAlign(s), id);
  }

  function GetMask(data: seq<byte>, p: nat, n: nat): (r: Option<(seq<bool>, nat)>)
    ensures r.Some? ==> |r.value.0| == n
  {
    if p + n > 8 * |data| then None else Some((BitsOf(data)[p..p + n], p + n))
  }

  lemma MaskBack(data: seq<byte>, s: Bits, mask: seq<bool>)
    requires s + mask <= BitsOf(data)
    ensures GetMask(data, |s|, |mask|) == Some((mask, |s| + |mask|))
  {
    assert BitsOf(data)[|s|..|s| + |mask|] == (s + mask)[|s|..];
  }

  /** Puts items already read in front of the items still to be read. */
  function Prepend<T>(xs: seq<T>, r: Option<(seq<T>, nat)>): Option<(seq<T>, nat)> {
    match r
    case None => None
    case Some(yp) => Some((xs + yp.0, yp.1))
  }

  lemma PrependStep<T>(xs: seq<T>, x: T, r: Option<(seq<T>, nat)>)
    ensures Prepend(xs, Prepend([x], r)) == Prepend(xs + [x], r)
  {
    if r.Some? {
      assert xs + ([x] + r.value.0) == xs + [x] + r.value.0;
    }
  }

  lemma PrependNone<T>(r: Option<(seq<T>, nat)>)
    ensures Prepend([], r) == r
  {
    if r.Some? {
      assert [] + r.value.0 == r.value.0;
    }
  }

  predicate After(prev: Option<u32>, id: u32) {
    prev.Some? ==> id > prev.value
  }

  /** The count at the head of every body, then the items, then padding. */
  function PutHead(n: nat): (r: Bits)
    ensures |r| % 8 == 0
  {
    PutVar(PutAlign([]), AsU32(n))
  }

  function GetHead(body: seq<byte>, limits: CodecLimits): Option<(u32, nat)> {
    if |body| > limits.maxSectionBytes then None
    else
      var p :- GetAlign(body, 0);
      GetVar(body, p)
  }

  lemma HeadBack(body: seq<byte>, limits: CodecLimits, n: u32)
    requires PutHead(n) <= BitsOf(body) && |body| <= limits.maxSectionBytes
    ensures GetHead(body, limits) == Some((n, |PutHead(n)|))
  {
    var s := PutAlign([]);
    assert s == [] && AsU32(n) == n;
    assert GetAlign(body, 0) == Some(0);
    VarBack(body, s, n);
  }

  /** The whole body must have been used once the reader is aligned again. */
  function GetEnd<T>(body: seq<byte>, p: nat, value: T): Option<T> {
    var end :- GetAlign(body, p);
    if end != 8 * |body| then None else Some(value)
  }

  // ---- Destroys ----

  function PutIds(s: Bits, ids: seq<u32>): (r: Bits)
    ensures s <= r && |r| >= |s| + 32 * |ids|
    decreases |ids|
  {
    if ids == [] then s else PutIds(PutId(s, ids[0]), ids[1..])
  }

  function PutDestroys(ids: seq<u32>): (r: Bits)
    ensures |r| % 8 == 0 && |r| >= 32 * |ids|
  {
    PutAlign(PutIds(PutHead(|ids|), ids))
  }

  function GetIds(data: seq<byte>, p: nat, n: nat, prev: Option<u32>): Option<(seq<u32>, nat)>
    decreases n
  {
    if n == 0 then Some(([], p))
    else
      var (id, q) :- GetId(data, p);
      if !After(prev, id) then None else Prepend([id], GetIds(data, q, n - 1, Some(id)))
  }

  function GetDestroys(body: seq<byte>, limits: CodecLimits): Option<seq<u32>> {
    var (n, p) :- GetHead(body, limits);
    if n > limits.maxEntitiesDestroy then None
    else
      var (ids, q) :- GetIds(body, p, n, None);
      GetEnd(body, q, ids)
  }

  lemma {:induction false} IdsBack(data: seq<byte>, s: Bits, ids: seq<u32>, prev: Option<u32>)
    requires SortedIds(ids) && (ids != [] ==> After(prev, ids[0]))
    requires PutIds(s, ids) <= BitsOf(data)
    ensures GetIds(data, |s|, |ids|, prev) == Some((ids, |PutIds(s, ids)|))
    decreases |ids|
  {
    hide BitsOf, PutId, GetId;
    if ids != [] {
      var s' := PutId(s, ids[0]);
      IdBack(data, s, ids[0]);
      IdsBack(data, s', ids[1..], Some(ids[0]));
      assert [ids[0]] + ids[1..] == ids;
    }
  }

  lemma DestroysBack(ids: seq<u32>, limits: CodecLimits)
    requires SortedIds(ids) && |ids| <= limits.maxEntitiesDestroy && |ids| < 0x1_0000_0000
    requires |PutDestroys(ids)| / 8 <= limits.maxSectionBytes
    ensures GetDestroys(Pack(PutDestroys(ids)), limits) == Some(ids)
  {
    var bits := PutDestroys(ids);
    var body := Pack(bits);
    BitsOfPack(bits);
    HeadBack(body, limits, |ids|);
    IdsBack(body, PutHead(|ids|), ids, None);
    AlignBack(body, PutIds(PutHead(|ids|), ids));
  }

  // ---- Creates ----

  function PutValues(s: Bits, fields: seq<FieldDef>, values: seq<FieldValue>): (r: Bits)
    ensures s <= r
    decreases |fields|
  {
    if fields == [] || values == [] then s
    else PutValues(PutField(s, fields[0].codec, values[0]), fields[1..], values[1..])
  }

  function Ones(n: nat): seq<bool> {
    seq(n, _ => true)
  }

  /** A component of a created entity: a full field mask, then every value. */
  function PutFull(s: Bits, d: ComponentDef, c: ComponentSnapshot): (r: Bits)
    ensures s <= r
  {
    PutValues(s + Ones(|d.fields|), d.fields, c.fields)
  }

  function PutFulls(s: Bits, defs: seq<ComponentDef>, cs: seq<ComponentSnapshot>): (r: Bits)
    ensures s <= r
    decreases |defs|
  {
    if defs == [] then s
    else
      match FindComponent(cs, defs[0].id)
      case None => PutFulls(s, defs[1..], cs)
      case Some(c) => PutFulls(PutFull(s, defs[0], c), defs[1..], cs)
  }

  function Presence(defs: seq<ComponentDef>, cs: seq<ComponentSnapshot>): (mask: seq<bool>)
    ensures |mask| == |defs|
  {
    seq(|defs|, i requires 0 <= i < |defs| => FindComponent(cs, defs[i].id).Some?)
  }

  function PutCreate(s: Bits, schema: Schema, e: EntitySnapshot): (r: Bits)
    ensures s <= r && |r| >= |s| + 32
  {
    PutFulls(PutId(s, e.id) + Presence(schema.components, e.components), schema.components, e.components)
  }

  function PutCreateList(s: Bits, schema: Schema, es: seq<EntitySnapshot>): (r: Bits)
    ensures s <= r && |r| >= |s| + 32 * |es|
    decreases |es|
  {
    if es == [] then s else PutCreateList(PutCreate(s, schema, es[0]), schema, es[1..])
  }

  function PutCreates(schema: Schema, es: seq<EntitySnapshot>): (r: Bits)
    ensures |r| % 8 == 0 && |r| >= 32 * |es|
  {
    PutAlign(PutCreateList(PutHead(|es|), schema, es))
  }

  predicate AllEncodable(fields: seq<FieldDef>, values: seq<FieldValue>)
    decreases |fields|
  {
    if fields == [] || values == [] then fields == [] && values == []
    else Encodable(fields[0].codec, values[0]) && AllEncodable(fields[1..], values[1..])
  }

  lemma {:induction false} EncodableLength(fields: seq<FieldDef>, values: seq<FieldValue>)
    requires AllEncodable(fields, values)
    ensures |fields| == |values|
    decreases |fields|
  {
    hide Encodable;
    if fields != [] {
      EncodableLength(fields[1..], values[1..]);
    }
  }

  /** What the encoder demands of a component it writes in full. */
  predicate FullOk(d: ComponentDef, limits: CodecLimits, c: Option<ComponentSnapshot>) {
    c.Some? ==> |d.fields| <= limits.maxFieldsPerComponent && AllEncodable(d.fields, c.value.fields)
  }

  predicate FullsOk(defs: seq<ComponentDef>, limits: CodecLimits, cs: seq<ComponentSnapshot>) {
    defs == [] || (FullOk(defs[0], limits, FindComponent(cs, defs[0].id)) && FullsOk(defs[1..], limits, cs))
  }

  predicate AllKnown(defs: seq<ComponentDef>, cs: seq<ComponentSnapshot>) {
    cs == [] || (FindDef(defs, cs[0].id).Some? && AllKnown(defs, cs[1..]))
  }

  /** What the encoder demands of an entity it creates. */
  predicate CreateOk(schema: Schema, limits: CodecLimits, e: EntitySnapshot) {
    AllKnown(schema.components, e.components) && FullsOk(schema.components, limits, e.components)
  }

  predicate AllCreateOk(schema: Schema, limits: CodecLimits, es: seq<EntitySnapshot>) {
    es == [] || (CreateOk(schema, limits, es[0]) && AllCreateOk(schema, limits, es[1..]))
  }

  /** Components listed once each and in schema order, which is the order decoders rebuild. */
  predicate InOrder(defs: seq<ComponentDef>, cs: seq<ComponentSnapshot>)
    decreases |defs|
  {
    if defs == [] then cs == []
    else if cs != [] && cs[0].id == defs[0].id then InOrder(defs[1..], cs[1..])
    else InOrder(defs[1..], cs)
  }

  predicate AllInOrder(schema: Schema, es: seq<EntitySnapshot>) {
    es == [] || (InOrder(schema.components, es[0].components) && AllInOrder(schema, es[1..]))
  }

  function GetValues(data: seq<byte>, p: nat, fields: seq<FieldDef>): Option<(seq<FieldValue>, nat)>
    decreases |fields|
  {
    if fields == [] then Some(([], p))
    else
      var (v, q) :- GetField(data, p, fields[0].codec);
      Prepend([v], GetValues(data, q, fields[1..]))
  }

  /** A full field mask is required; every bit of it is checked before or after the values before it. */
  function GetFull(data: seq<byte>, p: nat, d: ComponentDef, limits: CodecLimits): Option<(seq<FieldValue>, nat)>
  {
    if |d.fields| > limits.maxFieldsPerComponent then None
    else
      var (mask, q) :- GetMask(data, p, |d.fields|);
      if mask != Ones(|d.fields|) then None else GetValues(data, q, d.fields)
  }

  function GetFulls(data: seq<byte>, p: nat, defs: seq<ComponentDef>, mask: seq<bool>, limits: CodecLimits)
    : Option<(seq<ComponentSnapshot>, nat)>
    requires |mask| == |defs|
    decreases |defs|
  {
    if defs == [] then Some(([], p))
    else if !mask[0] then GetFulls(data, p, defs[1..], mask[1..], limits)
    else
      var (fields, q) :- GetFull(data, p, defs[0], limits);
      Prepend([ComponentSnapshot(defs[0].id, fields)], GetFulls(data, q, defs[1..], mask[1..], limits))
  }

  function GetCreate(data: seq<byte>, p: nat, schema: Schema, limits: CodecLimits): Option<(EntitySnapshot, nat)>
  {
    var (id, p1) :- GetId(data, p);
    var (mask, p2) :- GetMask(data, p1, |schema.components|);
    var (cs, p3) :- GetFulls(data, p2, schema.components, mask, limits);
    Some((EntitySnapshot(id, cs), p3))
  }

  function GetCreateList(data: seq<byte>, p: nat, schema: Schema, limits: CodecLimits, n: nat, prev: Option<u32>)
    : Option<(seq<EntitySnapshot>, nat)>
    decreases n
  {
    if n == 0 then Some(([], p))
    else
      var (e, q) :- GetCreate(data, p, schema, limits);
      if !After(prev, e.id) then None
      else Prepend([e], GetCreateList(data, q, schema, limits, n - 1, Some(e.id)))
  }

  function GetCreates(body: seq<byte>, schema: Schema, limits: CodecLimits): Option<seq<EntitySnapshot>>
  {
    var (n, p) :- GetHead(body, limits);
    if n > limits.maxEntitiesCreate then None
    else
      var (es, q) :- GetCreateList(body, p, schema, limits, n, None);
      GetEnd(body, q, es)
  }

  lemma {:induction false} ValuesBack(data: seq<byte>, s: Bits, fields: seq<FieldDef>, values: seq<FieldValue>)
    requires AllEncodable(fields, values)
    requires PutValues(s, fields, values) <= BitsOf(data)
    ensures GetValues(data, |s|, fields) == Some((values, |PutValues(s, fields, values)|))
    decreases |fields|
  {
    hide BitsOf, PutField, GetField, Encodable;
    if fields != [] {
      var s' := PutField(s, fields[0].codec, values[0]);
      FieldBack(data, s, fields[0].codec, values[0]);
      ValuesBack(data, s', fields[1..], values[1..]);
      assert [values[0]] + values[1..] == values;
    }
  }

  lemma FullBack(data: seq<byte>, s: Bits, d: ComponentDef, limits: CodecLimits, c: ComponentSnapshot)
    requires FullOk(d, limits, Some(c))
    requires PutFull(s, d, c) <= BitsOf(data)
    ensures GetFull(data, |s|, d, limits) == Some((c.fields, |PutFull(s, d, c)|))
  {
    hide BitsOf, PutValues, GetValues, AllEncodable;
    MaskBack(data, s, Ones(|d.fields|));
    ValuesBack(data, s + Ones(|d.fields|), d.fields, c.fields);
  }

  /** In a list in schema order, an id that comes before the schema components left cannot occur. */
  lemma {:induction false} NotInRest(defs: seq<ComponentDef>, cs: seq<ComponentSnapshot>, id: u16)
    requires InOrder(defs, cs) && forall i :: 0 <= i < |defs| ==> defs[i].id != id
    ensures FindComponent(cs, id) == None
    decreases |defs|
  {
    if defs != [] {
      if cs != [] && cs[0].id == defs[0].id {
        NotInRest(defs[1..], cs[1..], id);
      } else {
        NotInRest(defs[1..], cs, id);
      }
    }
  }

  /** What looking up every schema id in turn yields: the order decoders rebuild. */
  function Normal(defs: seq<ComponentDef>, cs: seq<ComponentSnapshot>): seq<ComponentSnapshot>
    decreases |defs|
  {
    if defs == [] then []
    else
      match FindComponent(cs, defs[0].id)
      case None => Normal(defs[1..], cs)
      case Some(c) => [c] + Normal(defs[1..], cs)
  }

  function NormalEntity(schema: Schema, e: EntitySnapshot): EntitySnapshot {
    EntitySnapshot(e.id, Normal(schema.components, e.components))
  }

  function NormalAll(schema: Schema, es: seq<EntitySnapshot>): (ns: seq<EntitySnapshot>)
    ensures |ns| == |es| && forall i :: 0 <= i < |es| ==> ns[i] == NormalEntity(schema, es[i])
  {
    seq(|es|, i requires 0 <= i < |es| => NormalEntity(schema, es[i]))
  }

  lemma {:induction false} NormalPastFront(defs: seq<ComponentDef>, front: seq<ComponentSnapshot>,
                                           rest: seq<ComponentSnapshot>)
    requires UniqueIds(defs) && InOrder(defs, rest)
    requires forall i, j :: 0 <= i < |front| && 0 <= j < |defs| ==> front[i].id != defs[j].id
    ensures Normal(defs, front + rest) == rest
    decreases |defs|
  {
    if defs != [] {
      var id := defs[0].id;
      FindPastFront(front, rest, id);
      if rest != [] && rest[0].id == id {
        assert front + rest == (front + [rest[0]]) + rest[1..];
        NormalPastFront(defs[1..], front + [rest[0]], rest[1..]);
      } else {
        NotInRest(defs[1..], rest, id);
        NormalPastFront(defs[1..], front, rest);
      }
    }
  }

  lemma {:induction false} NormalAbsent(defs: seq<ComponentDef>, cs: seq<ComponentSnapshot>, id: u16)
    requires forall i :: 0 <= i < |defs| ==> defs[i].id != id
    ensures forall c :: c in Normal(defs, cs) ==> c.id != id
    decreases |defs|
  {
    if defs != [] {
      NormalAbsent(defs[1..], cs, id);
    }
  }

  /** What decoders rebuild is in schema order. */
  lemma {:induction false} NormalOrdered(defs: seq<ComponentDef>, cs: seq<ComponentSnapshot>)
    requires UniqueIds(defs)
    ensures InOrder(defs, Normal(defs, cs))
    decreases |defs|
  {
    if defs != [] {
      NormalOrdered(defs[1..], cs);
      NormalAbsent(defs[1..], cs, defs[0].id);
      if FindComponent(cs, defs[0].id).Some? {
        assert Normal(defs, cs)[1..] == Normal(defs[1..], cs);
      }
    }
  }

  /** A component list survives unchanged exactly when it lists its components once each and in schema order. */
  lemma NormalIff(defs: seq<ComponentDef>, cs: seq<ComponentSnapshot>)
    requires UniqueIds(defs)
    ensures Normal(defs, cs) == cs <==> InOrder(defs, cs)
  {
    NormalOrdered(defs, cs);
    if InOrder(defs, cs) {
      NormalPastFront(defs, [], cs);
      assert [] + cs == cs;
    }
  }

  lemma {:induction false} NormalAllIff(schema: Schema, es: seq<EntitySnapshot>)
    requires UniqueIds(schema.components)
    ensures NormalAll(schema, es) == es <==> AllInOrder(schema, es)
  {
    hide InOrder, Normal, UniqueIds;
    if es != [] {
      NormalIff(schema.components, es[0].components);
      NormalAllIff(schema, es[1..]);
      assert es == [es[0]] + es[1..];
      assert NormalAll(schema, es) == [NormalEntity(schema, es[0])] + NormalAll(schema, es[1..]);
    }
  }

  lemma {:induction false} FindPastFront(front: seq<ComponentSnapshot>, rest: seq<ComponentSnapshot>, id: u16)
    requires forall i :: 0 <= i < |front| ==> front[i].id != id
    ensures FindComponent(front + rest, id) == FindComponent(rest, id)
  {
    if front == [] {
      assert front + rest == rest;
    } else {
      assert (front + rest)[0] == front[0] && (front + rest)[1..] == front[1..] + rest;
      FindPastFront(front[1..], rest, id);
    }
  }

  lemma {:induction false} FullsBack(data: seq<byte>, s: Bits, defs: seq<ComponentDef>, limits: CodecLimits,
                                     cs: seq<ComponentSnapshot>)
    requires FullsOk(defs, limits, cs)
    requires PutFulls(s, defs, cs) <= BitsOf(data)
    ensures GetFulls(data, |s|, defs, Presence(defs, cs), limits) == Some((Normal(defs, cs), |PutFulls(s, defs, cs)|))
    decreases |defs|
  {
    hide BitsOf, PutFull, GetFull, FullOk;
    if defs != [] {
      assert Presence(defs, cs)[1..] == Presence(defs[1..], cs);
      match FindComponent(cs, defs[0].id)
      case None => FullsBack(data, s, defs[1..], limits, cs);
      case Some(c) =>
        FullBack(data, s, defs[0], limits, c);
        FullsBack(data, PutFull(s, defs[0], c), defs[1..], limits, cs);
    }
  }

  lemma CreateBack(data: seq<byte>, s: Bits, schema: Schema, limits: CodecLimits, e: EntitySnapshot)
    requires CreateOk(schema, limits, e)
    requires PutCreate(s, schema, e) <= BitsOf(data)
    ensures GetCreate(data, |s|, schema, limits) == Some((NormalEntity(schema, e), |PutCreate(s, schema, e)|))
  {
    hide BitsOf, PutId, GetId, PutFulls, GetFulls, FullsOk, Presence, Normal;
    var defs, cs := schema.components, e.components;
    var s1 := PutId(s, e.id);
    var mask := Presence(defs, cs);
    var s2 := s1 + mask;
    assert PutCreate(s, schema, e) == PutFulls(s2, defs, cs);
    IdBack(data, s, e.id);
    MaskBack(data, s1, mask);
    FullsBack(data, s2, defs, limits, cs);
  }

  lemma {:induction false} CreateListBack(data: seq<byte>, s: Bits, schema: Schema, limits: CodecLimits,
                                          es: seq<EntitySnapshot>, prev: Option<u32>)
    requires Sorted(es) && (es != [] ==> After(prev, es[0].id)) && AllCreateOk(schema, limits, es)
    requires PutCreateList(s, schema, es) <= BitsOf(data)
    ensures GetCreateList(data, |s|, schema, limits, |es|, prev)
         == Some((NormalAll(schema, es), |PutCreateList(s, schema, es)|))
    decreases |es|
  {
    hide BitsOf, PutCreate, GetCreate, CreateOk, Normal;
    if es != [] {
      CreateBack(data, s, schema, limits, es[0]);
      CreateListBack(data, PutCreate(s, schema, es[0]), schema, limits, es[1..], Some(es[0].id));
      assert [NormalEntity(schema, es[0])] + NormalAll(schema, es[1..]) == NormalAll(schema, es);
    }
  }

  /** A create section decodes to the entities it was written from, with their components in schema order. */
  lemma CreatesBack(schema: Schema, limits: CodecLimits, es: seq<EntitySnapshot>)
    requires Sorted(es) && |es| <= limits.maxEntitiesCreate && |es| < 0x1_0000_0000
    requires AllCreateOk(schema, limits, es)
    requires |PutCreates(schema, es)| / 8 <= limits.maxSectionBytes
    ensures GetCreates(Pack(PutCreates(schema, es)), schema, limits) == Some(NormalAll(schema, es))
  {
    var bits := PutCreates(schema, es);
    var body := Pack(bits);
    BitsOfPack(bits);
    HeadBack(body, limits, |es|);
    CreateListBack(body, PutHead(|es|), schema, limits, es, None);
    AlignBack(body, PutCreateList(PutHead(|es|), schema, es));
  }
}
