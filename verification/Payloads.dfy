/** Delta payloads: the sections of a delta, encoded by scanning two snapshots. */
module Payloads {
  import opened Core
  import opened Bits
  import opened Bitstream
  import opened BitWriters
  import opened Schemas
  import opened Diffs
  import opened Layouts
  import opened UpdateLayouts
  import opened Scratches
  import opened Wire
  import opened Walks
  import opened EntityEncoders
  import opened UpdateEncoders
  import opened SparseEncoders
  import opened Sections
  import opened Estimates

  /** The sections of a delta: destroys, creates, updates, each only when there is something in it. */
  function DeltaSections(schema: Schema, d: Delta, encoding: UpdateEncoding): seq<Section> {
    DestroySections(d) + CreateSections(schema, d) + UpdateSections(schema, d, encoding)
  }

  /** Sections fit one after the other, each with room for the reserved bytes. */
  predicate PayloadFits(ss: seq<Section>, room: int, limits: CodecLimits)
    decreases |ss|
  {
    ss == [] || (SectionFits(ss[0], room, limits) && PayloadFits(ss[1..], room - |SectionBytes(ss[0])|, limits))
  }

  datatype Mode = Auto | AlwaysSparse

  function EncodingFor(mode: Mode, schema: Schema, us: seq<UpdateEntity>): UpdateEncoding {
    match mode
    case Auto => ChosenEncoding(schema, us)
    case AlwaysSparse => Sparse
  }

  predicate WithinCounts(d: Delta, limits: CodecLimits) {
    && |d.destroys| <= limits.maxEntitiesDestroy
    && |d.creates| <= limits.maxEntitiesCreate
    && |d.updates| <= limits.maxEntitiesUpdate
  }

  /** The entry count is checked only when a sparse section is written. */
  predicate EntriesWithin(d: Delta, encoding: UpdateEncoding, limits: CodecLimits) {
    encoding.Sparse? ==> |Entries(d.updates)| <= EntryLimit(limits)
  }

  /** What the update section demands of two snapshots. */
  predicate UpdatesOk(schema: Schema, base: seq<EntitySnapshot>, curr: seq<EntitySnapshot>, limits: CodecLimits,
                      encoding: UpdateEncoding) {
    && AllComparable(schema, limits, Common(base, curr))
    && ChangesEncodable(schema, Common(base, curr))
    && EntriesWithin(Diff(schema, base, curr), encoding, limits)
  }

  /** Everything but room that encoding the difference of two snapshots demands. */
  predicate DiffOk(schema: Schema, base: seq<EntitySnapshot>, curr: seq<EntitySnapshot>, limits: CodecLimits,
                   encoding: UpdateEncoding) {
    var d := Diff(schema, base, curr);
    WithinCounts(d, limits) && AllCreateOk(schema, limits, d.creates) && UpdatesOk(schema, base, curr, limits, encoding)
  }

  method EnsureEntitiesSorted(es: seq<EntitySnapshot>) returns (r: Outcome)
    ensures r.Pass? <==> Sorted(es)
  {
    var prev: Option<u32> := None;
    for k := 0 to |es|
      invariant Sorted(es[..k])
      invariant prev == if k == 0 then None else Some(es[k - 1].id)
    {
      if prev.Some? && es[k].id <= prev.value {
        assert es[k - 1].id >= es[k].id;
        return Fail;
      }
      prev := Some(es[k].id);
    }
    assert es[..|es|] == es;
    return Pass;
  }

  method WriteCreateSection(schema: Schema, baseline: seq<EntitySnapshot>, current: seq<EntitySnapshot>, count: nat,
                            limits: CodecLimits, out: array<byte>, lo: nat, hi: nat)
    returns (r: Option<nat>)
    requires lo <= hi <= out.Length && ValidSchema(schema)
    requires Sorted(baseline) && Sorted(current) && count == |Missing(current, baseline)|
    modifies out
    ensures Appended(old(out[..]), out[..], lo, hi, r,
                     count <= limits.maxEntitiesCreate && AllCreateOk(schema, limits, Missing(current, baseline)),
                     CreateSection(schema, Missing(current, baseline)), limits)
  {
    hide BitsOf, PutCreates, Missing, Pack, SectionBytes, AllCreateOk;
    if hi - lo < RESERVED {
      return None;
    }
    var w := OpenSection(out, lo, hi);
    var written := EncodeCreateBody(schema, baseline, current, count, limits, w);
    OutsideKept(old(out[..]), out[..], lo, hi);
    if written.Fail? {
      return None;
    }
    r := CloseSection(EntityCreate, out, lo, hi, limits, w);
  }

  method WriteUpdateSection(encoding: UpdateEncoding, schema: Schema, baseline: seq<EntitySnapshot>,
                            current: seq<EntitySnapshot>, count: nat, limits: CodecLimits, scratch: CodecScratch,
                            out: array<byte>, lo: nat, hi: nat)
    returns (r: Option<nat>)
    requires lo <= hi <= out.Length && ValidSchema(schema)
    requires Sorted(baseline) && Sorted(current)
    requires AllComparable(schema, limits, Common(baseline, current)) ==>
               count == |DiffPairs(schema, Common(baseline, current))|
    modifies out, scratch
    ensures Appended(old(out[..]), out[..], lo, hi, r,
                     && count <= limits.maxEntitiesUpdate
                     && AllComparable(schema, limits, Common(baseline, current))
                     && ChangesEncodable(schema, Common(baseline, current))
                     && EntriesWithin(Diff(schema, baseline, current), encoding, limits),
                     UpdateSection(encoding, schema, DiffPairs(schema, Common(baseline, current))), limits)
  {
    hide PutMasked, PutSparse, SectionBytes, AllComparable, ChangesEncodable, DiffPairs;
    if hi - lo < RESERVED {
      return None;
    }
    var w := OpenSection(out, lo, hi);
    match encoding
    case Masked =>
      var written := EncodeUpdateBodyMasked(schema, baseline, current, count, limits, scratch, w);
      OutsideKept(old(out[..]), out[..], lo, hi);
      if written.Fail? {
        return None;
      }
      r := CloseSection(EntityUpdate, out, lo, hi, limits, w);
    case Sparse =>
      var written := EncodeUpdateBodySparse(Packed, schema, baseline, current, count, limits, scratch, w);
      OutsideKept(old(out[..]), out[..], lo, hi);
      if written.Fail? {
        return None;
      }
      r := CloseSection(EntityUpdateSparsePacked, out, lo, hi, limits, w);
  }

  /** What encoding a payload into `before[lo..hi]` promises. */
  ghost predicate PayloadPlaced(before: seq<byte>, after: seq<byte>, lo: nat, hi: nat, r: Option<nat>,
                                good: bool, ss: seq<Section>, limits: CodecLimits)
    requires lo <= hi <= |before|
  {
    && |after| == |before|
    && after[..lo] == before[..lo]
    && after[hi..] == before[hi..]
    && (r.Some? <==> good && PayloadFits(ss, hi - lo, limits))
    && (r.Some? ==>
          r.value == |SectionsBytes(ss)| <= hi - lo
          && after[..lo + r.value] == before[..lo] + SectionsBytes(ss))
  }

  lemma NothingPlaced(before: seq<byte>, lo: nat, hi: nat, limits: CodecLimits)
    requires lo <= hi <= |before|
    ensures PayloadPlaced(before, before, lo, hi, Some(0), true, [], limits)
  {
  }

  lemma OnePlaced(before: seq<byte>, after: seq<byte>, lo: nat, hi: nat, r: Option<nat>, s: Section, good: bool,
                  limits: CodecLimits)
    requires lo <= hi <= |before| && Appended(before, after, lo, hi, r, good, s, limits)
    ensures PayloadPlaced(before, after, lo, hi, r, good, [s], limits)
  {
    hide SectionBytes, SectionFits;
    assert [s][1..] == [];
    assert SectionsBytes([s]) == SectionBytes(s) + [] == SectionBytes(s);
    assert PayloadFits([], hi - lo - |SectionBytes(s)|, limits);
    assert PayloadFits([s], hi - lo, limits) <==> SectionFits(s, hi - lo, limits);
  }

  lemma {:induction false} FitsConcat(ss: seq<Section>, tt: seq<Section>, room: int, limits: CodecLimits)
    ensures SectionsBytes(ss + tt) == SectionsBytes(ss) + SectionsBytes(tt)
    ensures PayloadFits(ss + tt, room, limits)
       <==> PayloadFits(ss, room, limits) && PayloadFits(tt, room - |SectionsBytes(ss)|, limits)
    decreases |ss|
  {
    hide SectionBytes, SectionFits;
    if ss == [] {
      assert ss + tt == tt;
    } else {
      assert (ss + tt)[1..] == ss[1..] + tt;
      FitsConcat(ss[1..], tt, room - |SectionBytes(ss[0])|, limits);
    }
  }

  /** More sections after those already placed. */
  lemma PlaceMore(before: seq<byte>, middle: seq<byte>, after: seq<byte>, lo: nat, hi: nat, n: nat, r: Option<nat>,
                  ss: seq<Section>, tt: seq<Section>, good: bool, limits: CodecLimits)
    requires lo <= hi <= |before|
    requires PayloadPlaced(before, middle, lo, hi, Some(n), true, ss, limits)
    requires PayloadPlaced(middle, after, lo + n, hi, r, good, tt, limits)
    ensures PayloadPlaced(before, after, lo, hi, if r.None? then None else Some(n + r.value), good, ss + tt, limits)
  {
    hide SectionsBytes, PayloadFits;
    FitsConcat(ss, tt, hi - lo, limits);
    assert middle[..lo] == middle[..lo + n][..lo];
    assert after[..lo] == after[..lo + n][..lo];
    if r.Some? {
      assert after[..lo + n + r.value] == before[..lo] + SectionsBytes(ss) + SectionsBytes(tt);
    }
  }

  /** When some sections cannot be placed, neither can they and more. */
  lemma PlaceFailed(before: seq<byte>, after: seq<byte>, lo: nat, hi: nat, good: bool, whole: bool,
                    ss: seq<Section>, tt: seq<Section>, limits: CodecLimits)
    requires lo <= hi <= |before| && PayloadPlaced(before, after, lo, hi, None, good, ss, limits)
    requires whole ==> good
    ensures PayloadPlaced(before, after, lo, hi, None, whole, ss + tt, limits)
  {
    FitsConcat(ss, tt, hi - lo, limits);
  }

  /** What the scan demands of its inputs, apart from room. */
  predicate ScanOk(schema: Schema, baselineTick: u32, baseline: Snapshot, current: Snapshot, limits: CodecLimits,
                   mode: Mode) {
    && baseline.tick == baselineTick
    && Sorted(baseline.entities)
    && Sorted(current.entities)
    && DiffOk(schema, baseline.entities, current.entities, limits,
              EncodingFor(mode, schema, Diff(schema, baseline.entities, current.entities).updates))
  }

  /** The sections the scan writes. */
  function ScanSections(schema: Schema, baseline: Snapshot, current: Snapshot, mode: Mode): seq<Section> {
    var d := Diff(schema, baseline.entities, current.entities);
    DeltaSections(schema, d, EncodingFor(mode, schema, d.updates))
  }

  method EncodeDeltaPayload(schema: Schema, baselineTick: u32, baseline: Snapshot, current: Snapshot,
                            limits: CodecLimits,
                            scratch: CodecScratch, out: array<byte>, lo: nat, hi: nat, mode: Mode)
    returns (r: Option<nat>)
    requires lo <= hi <= out.Length && ValidSchema(schema)
    modifies out, scratch
    ensures PayloadPlaced(old(out[..]), out[..], lo, hi, r,
                          ScanOk(schema, baselineTick, baseline, current, limits, mode),
                          ScanSections(schema, baseline, current, mode), limits)
  {
    if baseline.tick != baselineTick {
      return None;
    }
    var sortedBase := EnsureEntitiesSorted(baseline.entities);
    var sortedCurr := EnsureEntitiesSorted(current.entities);
    if sortedBase.Fail? || sortedCurr.Fail? {
      return None;
    }
    var base, curr := baseline.entities, current.entities;
    var counted := CountDiffs(schema, base, curr, limits);
    if counted.None? {
      return None;
    }
    var counts := counted.value;
    ghost var d := Diff(schema, base, curr);
    if counts.creates > limits.maxEntitiesCreate || counts.updates > limits.maxEntitiesUpdate
       || counts.destroys > limits.maxEntitiesDestroy {
      return None;
    }
    r := EncodeCounted(schema, base, curr, counts, limits, scratch, out, lo, hi, mode);
  }

  function DestroySections(d: Delta): seq<Section> {
    if d.destroys == [] then [] else [DestroySection(d.destroys)]
  }

  function CreateSections(schema: Schema, d: Delta): seq<Section> {
    if d.creates == [] then [] else [CreateSection(schema, d.creates)]
  }

  function UpdateSections(schema: Schema, d: Delta, encoding: UpdateEncoding): seq<Section> {
    if d.updates == [] then [] else [UpdateSection(encoding, schema, d.updates)]
  }

  method PlaceDestroys(schema: Schema, base: seq<EntitySnapshot>, curr: seq<EntitySnapshot>, count: nat,
                       limits: CodecLimits, out: array<byte>, lo: nat, hi: nat)
    returns (r: Option<nat>)
    requires lo <= hi <= out.Length && Sorted(base) && Sorted(curr)
    requires count == |Missing(base, curr)| <= limits.maxEntitiesDestroy
    modifies out
    ensures PayloadPlaced(old(out[..]), out[..], lo, hi, r, true, DestroySections(Diff(schema, base, curr)), limits)
  {
    hide PayloadPlaced, Appended, DestroySection, Missing, Sorted;
    NothingPlaced(out[..], lo, hi, limits);
    r := Some(0);
    if count > 0 {
      r := WriteDestroySection(base, curr, count, limits, out, lo, hi);
      OnePlaced(old(out[..]), out[..], lo, hi, r, DestroySection(Ids(Missing(base, curr))), true, limits);
    }
  }

  method PlaceCreates(schema: Schema, base: seq<EntitySnapshot>, curr: seq<EntitySnapshot>, count: nat,
                      limits: CodecLimits, out: array<byte>, lo: nat, hi: nat)
    returns (r: Option<nat>)
    requires lo <= hi <= out.Length && Sorted(base) && Sorted(curr) && ValidSchema(schema)
    requires count == |Missing(curr, base)| <= limits.maxEntitiesCreate
    modifies out
    ensures PayloadPlaced(old(out[..]), out[..], lo, hi, r, AllCreateOk(schema, limits, Missing(curr, base)),
                          CreateSections(schema, Diff(schema, base, curr)), limits)
  {
    hide PayloadPlaced, Appended, CreateSection, Missing, Sorted, ValidSchema;
    NothingPlaced(out[..], lo, hi, limits);
    r := Some(0);
    if count > 0 {
      hide AllCreateOk;
      r := WriteCreateSection(schema, base, curr, count, limits, out, lo, hi);
      OnePlaced(old(out[..]), out[..], lo, hi, r, CreateSection(schema, Missing(curr, base)),
                AllCreateOk(schema, limits, Missing(curr, base)), limits);
    }
  }

  method PlaceUpdates(schema: Schema, base: seq<EntitySnapshot>, curr: seq<EntitySnapshot>, count: nat,
                      limits: CodecLimits,
                      scratch: CodecScratch, out: array<byte>, lo: nat, hi: nat, mode: Mode)
    returns (r: Option<nat>)
    requires lo <= hi <= out.Length && Sorted(base) && Sorted(curr) && ValidSchema(schema)
    requires count <= limits.maxEntitiesUpdate
    requires count == 0 ==> AllComparable(schema, limits, Common(base, curr))
    requires AllComparable(schema, limits, Common(base, curr)) ==> count == |DiffPairs(schema, Common(base, curr))|
    modifies out, scratch
    ensures var d := Diff(schema, base, curr);
            var encoding := EncodingFor(mode, schema, d.updates);
            PayloadPlaced(old(out[..]), out[..], lo, hi, r, UpdatesOk(schema, base, curr, limits, encoding),
                          UpdateSections(schema, d, encoding), limits)
  {
    ghost var before := out[..];
    ghost var encoding := EncodingFor(mode, schema, Diff(schema, base, curr).updates);
    NothingPlaced(before, lo, hi, limits);
    if count == 0 {
      NothingUpdated(schema, Common(base, curr), limits);
      return Some(0);
    }
    var chosen := Sparse;
    if mode.Auto? {
      var selected := SelectUpdateEncoding(schema, base, curr, limits, scratch);
      if selected.None? {
        NothingPromised(before, lo, hi, UpdateSections(schema, Diff(schema, base, curr), encoding), limits);
        return None;
      }
      chosen := selected.value;
    }
    r := WriteUpdateSection(chosen, schema, base, curr, count, limits, scratch, out, lo, hi);
    if AllComparable(schema, limits, Common(base, curr)) {
      OnePlaced(before, out[..], lo, hi, r, UpdateSection(encoding, schema, DiffPairs(schema, Common(base, curr))),
                UpdatesOk(schema, base, curr, limits, encoding), limits);
    } else {
      NotPlaced(before, out[..], lo, hi, r, UpdateSection(chosen, schema, DiffPairs(schema, Common(base, curr))),
                UpdateSections(schema, Diff(schema, base, curr), encoding), limits);
    }
  }

  lemma NothingPromised(before: seq<byte>, lo: nat, hi: nat, ss: seq<Section>, limits: CodecLimits)
    requires lo <= hi <= |before|
    ensures PayloadPlaced(before, before, lo, hi, None, false, ss, limits)
  {
  }

  lemma NotPlaced(before: seq<byte>, after: seq<byte>, lo: nat, hi: nat, r: Option<nat>, s: Section,
                  ss: seq<Section>, limits: CodecLimits)
    requires lo <= hi <= |before| && Appended(before, after, lo, hi, r, false, s, limits)
    ensures PayloadPlaced(before, after, lo, hi, r, false, ss, limits)
  {
  }

  lemma {:induction false} NothingUpdated(schema: Schema, pairs: seq<(EntitySnapshot, EntitySnapshot)>,
                                          limits: CodecLimits)
    requires DiffPairs(schema, pairs) == []
    ensures ChangesEncodable(schema, pairs)
    ensures Entries(DiffPairs(schema, pairs)) == []
  {
    hide DiffComponents, DiffEncodable;
    if pairs != [] {
      assert pairs == [pairs[0]] + pairs[1..];
      EncodableStep(schema, pairs[0], pairs[1..]);
      NothingUpdated(schema, pairs[1..], limits);
    }
  }

  /** Writes the sections whose counts are not zero. */
  method EncodeCounted(schema: Schema, base: seq<EntitySnapshot>, curr: seq<EntitySnapshot>, counts: DiffCounts,
                       limits: CodecLimits, scratch: CodecScratch, out: array<byte>, lo: nat, hi: nat, mode: Mode)
    returns (r: Option<nat>)
    requires lo <= hi <= out.Length && ValidSchema(schema) && Sorted(base) && Sorted(curr)
    requires counts.destroys == |Missing(base, curr)| <= limits.maxEntitiesDestroy
    requires counts.creates == |Missing(curr, base)| <= limits.maxEntitiesCreate
    requires counts.updates <= limits.maxEntitiesUpdate
    requires counts.updates == 0 ==> AllComparable(schema, limits, Common(base, curr))
    requires AllComparable(schema, limits, Common(base, curr))
             ==> counts.updates == |DiffPairs(schema, Common(base, curr))|
    modifies out, scratch
    ensures var d := Diff(schema, base, curr);
            var encoding := EncodingFor(mode, schema, d.updates);
            PayloadPlaced(old(out[..]), out[..], lo, hi, r, DiffOk(schema, base, curr, limits, encoding),
                          DeltaSections(schema, d, encoding), limits)
  {
    hide Missing, AllCreateOk, DiffPairs, UpdateSections, DestroySections, CreateSections, ChosenEncoding,
      PayloadPlaced;
    ghost var d := Diff(schema, base, curr);
    ghost var encoding := EncodingFor(mode, schema, d.updates);
    ghost var whole := DiffOk(schema, base, curr, limits, encoding);
    ghost var A, B, C := DestroySections(d), CreateSections(schema, d), UpdateSections(schema, d, encoding);
    ghost var before := out[..];
    assert A + (B + C) == A + B + C;
    var first := PlaceDestroys(schema, base, curr, counts.destroys, limits, out, lo, hi);
    if first.None? {
      PlaceFailed(before, out[..], lo, hi, true, whole, A, B + C, limits);
      return None;
    }
    ghost var one := out[..];
    PlacedInside(before, one, lo, hi, first.value, A, limits);
    var second := PlaceCreates(schema, base, curr, counts.creates, limits, out, lo + first.value, hi);
    PlaceMore(before, one, out[..], lo, hi, first.value, second, A, B, AllCreateOk(schema, limits, d.creates), limits);
    if second.None? {
      PlaceFailed(before, out[..], lo, hi, AllCreateOk(schema, limits, d.creates), whole, A + B, C, limits);
      return None;
    }
    var offset := first.value + second.value;
    ghost var two := out[..];
    Settled(before, two, lo, hi, offset, A + B, AllCreateOk(schema, limits, d.creates), limits);
    var third := PlaceUpdates(schema, base, curr, counts.updates, limits, scratch, out, lo + offset, hi, mode);
    PlaceMore(before, two, out[..], lo, hi, offset, third, A + B, C, UpdatesOk(schema, base, curr, limits, encoding),
              limits);
    return if third.None? then None else Some(offset + third.value);
  }

  lemma PlacedInside(before: seq<byte>, after: seq<byte>, lo: nat, hi: nat, n: nat, ss: seq<Section>,
                     limits: CodecLimits)
    requires lo <= hi <= |before| && PayloadPlaced(before, after, lo, hi, Some(n), true, ss, limits)
    ensures lo + n <= hi && |after| == |before|
  {
  }

  /** A placement that succeeded was good. */
  lemma Settled(before: seq<byte>, after: seq<byte>, lo: nat, hi: nat, n: nat, ss: seq<Section>, good: bool,
                limits: CodecLimits)
    requires lo <= hi <= |before| && PayloadPlaced(before, after, lo, hi, Some(n), good, ss, limits)
    ensures good && PayloadPlaced(before, after, lo, hi, Some(n), true, ss, limits)
    ensures lo + n <= hi && |after| == |before|
  {
  }
}
