/** What decoders refuse, and what they take, of bytes that no encoder of this library wrote. */
module Refusals {
  import opened Core
  import opened Bits
  import opened Bitstream
  import opened Schemas
  import opened Fields
  import opened Diffs
  import opened Layouts
  import opened UpdateLayouts
  import opened Wire
  import opened Decoders
  import opened Apply

  // ---- Bodies ----

  /** A body longer than the codec's own limit is refused, whatever it says. */
  lemma LongBodiesRefused(body: seq<byte>, schema: Schema, limits: CodecLimits)
    requires |body| > limits.maxSectionBytes
    ensures GetDestroys(body, limits) == None && GetCreates(body, schema, limits) == None
    ensures GetMasked(body, schema, limits) == None
    ensures GetSparse(Varint, body, schema, limits) == None && GetSparse(Packed, body, schema, limits) == None
  {
    hide GetIds, GetCreateList, GetMaskedList, GetEntries;
  }

  /** A created component is refused unless the bits of all its fields are set. */
  lemma PartialCreateRefused(data: seq<byte>, p: nat, d: ComponentDef, limits: CodecLimits)
    requires GetFull(data, p, d, limits).Some?
    ensures p + |d.fields| <= 8 * |data| && forall k :: p <= k < p + |d.fields| ==> BitsOf(data)[k]
    ensures |d.fields| <= limits.maxFieldsPerComponent
  {
    hide GetValues, BitsOf;
    var mask := BitsOf(data)[p..p + |d.fields|];
    forall k | p <= k < p + |d.fields|
      ensures BitsOf(data)[k]
    {
      assert mask[k - p] == Ones(|d.fields|)[k - p];
    }
  }

  lemma {:induction false} NoneMasked(data: seq<byte>, p: nat, defs: seq<ComponentDef>, mask: seq<bool>,
                                      limits: CodecLimits)
    requires |mask| == |defs| && true !in mask
    ensures GetMaskedComponents(data, p, defs, mask, limits) == Some(([], p))
    decreases |defs|
  {
    hide GetMaskedComponent;
    if defs != [] {
      assert mask[0] in mask;
      NoneMasked(data, p, defs[1..], mask[1..], limits);
    }
  }

  /** A masked update with no component set is taken, as an update without components. */
  lemma EmptyMaskedTaken(data: seq<byte>, p: nat, schema: Schema, limits: CodecLimits)
    requires GetId(data, p).Some? && GetId(data, p).value.1 + |schema.components| <= 8 * |data|
    requires forall k :: GetId(data, p).value.1 <= k < GetId(data, p).value.1 + |schema.components| ==> !BitsOf(data)[k]
    ensures var (id, q) := GetId(data, p).value;
            GetMaskedEntity(data, p, schema, limits) == Some((UpdateEntity(id, []), q + |schema.components|))
  {
    hide GetId, BitsOf, GetMaskedComponents;
    var q := GetId(data, p).value.1;
    var mask := BitsOf(data)[q..q + |schema.components|];
    forall k | 0 <= k < |mask|
      ensures !mask[k]
    {
      assert mask[k] == BitsOf(data)[q + k];
    }
    NoneMasked(data, q + |schema.components|, schema.components, mask, limits);
  }

  /** How many entries and entities a sparse section may have. */
  lemma SparseCounts(layout: Layout, body: seq<byte>, schema: Schema, limits: CodecLimits)
    requires GetSparse(layout, body, schema, limits).Some?
    ensures |GetSparse(layout, body, schema, limits).value| <= limits.maxEntitiesUpdate
    ensures GetHead(body, limits).value.0 <= limits.maxEntitiesUpdate * limits.maxComponentsPerEntity
  {
    hide GetEntries, GetEnd, GetHead;
  }

  // ---- Deltas ----

  /** What each section of destroys decodes to, in order. */
  function DestroysIn(ss: seq<Section>, limits: CodecLimits): seq<Option<seq<u32>>> {
    if ss == [] then []
    else (if ss[0].tag == EntityDestroy then [GetDestroys(ss[0].body, limits)] else []) + DestroysIn(ss[1..], limits)
  }

  function CreatesIn(ss: seq<Section>, schema: Schema, limits: CodecLimits): seq<Option<seq<EntitySnapshot>>> {
    if ss == [] then []
    else (if ss[0].tag == EntityCreate then [GetCreates(ss[0].body, schema, limits)] else [])
         + CreatesIn(ss[1..], schema, limits)
  }

  function MaskedIn(ss: seq<Section>, schema: Schema, limits: CodecLimits): seq<Option<seq<UpdateEntity>>> {
    if ss == [] then []
    else (if ss[0].tag == EntityUpdate then [GetMasked(ss[0].body, schema, limits)] else [])
         + MaskedIn(ss[1..], schema, limits)
  }

  /** Sparse sections of either layout. */
  function SparseIn(ss: seq<Section>, schema: Schema, limits: CodecLimits): seq<Option<seq<UpdateEntity>>> {
    if ss == [] then []
    else (if ss[0].tag == EntityUpdateSparse then [GetSparse(Varint, ss[0].body, schema, limits)]
          else if ss[0].tag == EntityUpdateSparsePacked then [GetSparse(Packed, ss[0].body, schema, limits)]
          else []) + SparseIn(ss[1..], schema, limits)
  }

  predicate NoInit(ss: seq<Section>) {
    forall s :: s in ss ==> s.tag != SessionInit
  }

  /** No section, and what was there before; or one section that decodes, and nothing before. */
  ghost predicate OneOf<T>(before: Option<T>, results: seq<Option<T>>, after: Option<T>) {
    if results == [] then after == before
    else |results| == 1 && before.None? && results[0].Some? && after == results[0]
  }

  lemma OneOfStep<T>(before: Option<T>, result: Option<T>, rest: seq<Option<T>>, after: Option<T>)
    ensures OneOf(before, [result] + rest, after) <==> before.None? && result.Some? && OneOf(result, rest, after)
  {
    var results := [result] + rest;
    assert results[1..] == rest;
  }

  ghost predicate SeenIs(before: Seen, ss: seq<Section>, schema: Schema, limits: CodecLimits, after: Seen) {
    && NoInit(ss)
    && OneOf(before.destroys, DestroysIn(ss, limits), after.destroys)
    && OneOf(before.creates, CreatesIn(ss, schema, limits), after.creates)
    && OneOf(before.masked, MaskedIn(ss, schema, limits), after.masked)
    && OneOf(before.sparse, SparseIn(ss, schema, limits), after.sparse)
  }

  /** One section more, for each of the lists. */
  lemma InStep(ss: seq<Section>, schema: Schema, limits: CodecLimits)
    requires ss != []
    ensures var tag, body, rest := ss[0].tag, ss[0].body, ss[1..];
            && DestroysIn(ss, limits)
               == (if tag == EntityDestroy then [GetDestroys(body, limits)] + DestroysIn(rest, limits)
                   else DestroysIn(rest, limits))
            && CreatesIn(ss, schema, limits)
               == (if tag == EntityCreate then [GetCreates(body, schema, limits)] + CreatesIn(rest, schema, limits)
                   else CreatesIn(rest, schema, limits))
            && MaskedIn(ss, schema, limits)
               == (if tag == EntityUpdate then [GetMasked(body, schema, limits)] + MaskedIn(rest, schema, limits)
                   else MaskedIn(rest, schema, limits))
            && SparseIn(ss, schema, limits)
               == (if tag == EntityUpdateSparse
                   then [GetSparse(Varint, body, schema, limits)] + SparseIn(rest, schema, limits)
                   else if tag == EntityUpdateSparsePacked
                   then [GetSparse(Packed, body, schema, limits)] + SparseIn(rest, schema, limits)
                   else SparseIn(rest, schema, limits))
            && (NoInit(ss) <==> tag != SessionInit && NoInit(rest))
  {
    hide GetDestroys, GetCreates, GetMasked, GetSparse;
    assert ss == [ss[0]] + ss[1..];
  }

  lemma {:induction false} SeenExactly(before: Seen, ss: seq<Section>, schema: Schema, limits: CodecLimits, after: Seen)
    ensures GetDeltaSections(before, ss, schema, limits) == Some(after) <==> SeenIs(before, ss, schema, limits, after)
    decreases |ss|
  {
    hide GetDestroys, GetCreates, GetMasked, GetSparse;
    if ss != [] {
      hide DestroysIn, CreatesIn, MaskedIn, SparseIn, NoInit, OneOf;
      var rest := ss[1..];
      InStep(ss, schema, limits);
      OneOfStep(before.destroys, GetDestroys(ss[0].body, limits), DestroysIn(rest, limits), after.destroys);
      OneOfStep(before.creates, GetCreates(ss[0].body, schema, limits), CreatesIn(rest, schema, limits), after.creates);
      OneOfStep(before.masked, GetMasked(ss[0].body, schema, limits), MaskedIn(rest, schema, limits), after.masked);
      OneOfStep(before.sparse, GetSparse(Varint, ss[0].body, schema, limits), SparseIn(rest, schema, limits),
                after.sparse);
      OneOfStep(before.sparse, GetSparse(Packed, ss[0].body, schema, limits), SparseIn(rest, schema, limits),
                after.sparse);
      var next := GetDeltaSection(before, ss[0], schema, limits);
      if next.Some? {
        SeenExactly(next.value, rest, schema, limits, after);
      }
    }
  }

  /** The list that a section gives, or none. */
  ghost predicate Gives<T>(results: seq<Option<seq<T>>>, list: seq<T>) {
    if results == [] then list == [] else results == [Some(list)]
  }

  /**
   Which sections are a delta: no session init, at most one section of destroys, one of creates and
   one of updates of any encoding, in any order, each of which decodes.
   */
  lemma DeltaExactly(ss: seq<Section>, schema: Schema, limits: CodecLimits, d: Delta)
    ensures GetDelta(ss, schema, limits) == Some(d) <==>
            && NoInit(ss)
            && Gives(DestroysIn(ss, limits), d.destroys)
            && Gives(CreatesIn(ss, schema, limits), d.creates)
            && Gives(MaskedIn(ss, schema, limits) + SparseIn(ss, schema, limits), d.updates)
  {
    hide GetDeltaSections, DestroysIn, CreatesIn, MaskedIn, SparseIn, NoInit;
    var none := Seen(None, None, None, None);
    var destroys, creates := DestroysIn(ss, limits), CreatesIn(ss, schema, limits);
    var masked, sparse := MaskedIn(ss, schema, limits), SparseIn(ss, schema, limits);
    var after := Seen(First(destroys), First(creates), First(masked), First(sparse));
    SeenExactly(none, ss, schema, limits, after);
    var got := GetDeltaSections(none, ss, schema, limits);
    if got.Some? {
      SeenExactly(none, ss, schema, limits, got.value);
    }
    assert masked == [] ==> masked + sparse == sparse;
    assert sparse == [] ==> masked + sparse == masked;
  }

  function First<T>(results: seq<Option<T>>): Option<T> {
    if results == [] then None else results[0]
  }
}
