/** Which sections a delta is sent as, and when its updates are sparse. */
module Choices {
  import opened Core
  import opened Bits
  import opened Bitstream
  import opened Varints
  import opened Schemas
  import opened Diffs
  import opened Walks
  import opened Layouts
  import opened UpdateLayouts
  import opened Numerals
  import opened FieldBits
  import opened BodyBits
  import opened Wire
  import opened Estimates
  import opened Sections
  import opened Payloads

  // ---- What each layout costs ----

  /** The bits of indices that a packed component has. */
  function IndexCost(d: ComponentDef, fs: seq<(nat, FieldValue)>): nat {
    if fs == [] then 0 else |PutIndex(Packed, [], d, fs[0].0)| + IndexCost(d, fs[1..])
  }

  predicate Known(schema: Schema, e: Entry) {
    FindDef(schema.components, e.update.id).Some?
  }

  predicate AllKnownEntries(schema: Schema, es: seq<Entry>) {
    forall e :: e in es ==> Known(schema, e)
  }

  /** The bits of field masks that the entries take when they are masked. */
  function MaskedCost(schema: Schema, es: seq<Entry>): nat
    requires AllKnownEntries(schema, es)
  {
    if es == [] then 0
    else
      assert es[0] in es && Known(schema, es[0]);
      |FindDef(schema.components, es[0].update.id).value.fields| + MaskedCost(schema, es[1..])
  }

  /** The bits of heads and indices that they take when they are packed. */
  function PackedCost(schema: Schema, es: seq<Entry>): nat
    requires AllKnownEntries(schema, es)
  {
    if es == [] then 0
    else
      assert es[0] in es && Known(schema, es[0]);
      var u := es[0].update;
      |PutEntryHead(Packed, [], es[0].entity, u.id, |u.fields|)|
      + IndexCost(FindDef(schema.components, u.id).value, u.fields)
      + PackedCost(schema, es[1..])
  }

  lemma {:induction false} IndicesCost(d: ComponentDef, fs: seq<(nat, FieldValue)>)
    ensures IndexCost(d, fs) == IndexBits(d) * |fs|
    decreases |fs|
  {
    if fs != [] {
      hide PutBits, IndexBits;
      IndicesCost(d, fs[1..]);
      assert |PutIndex(Packed, [], d, fs[0].0)| == IndexBits(d);
      assert IndexBits(d) * |fs| == IndexBits(d) + IndexBits(d) * |fs[1..]|;
    }
  }

  lemma HeadCost(e: Entry)
    ensures |PutEntryHead(Packed, [], e.entity, e.update.id, |e.update.fields|)|
         == 8 * VarLen(e.entity) + 8 * VarLen(e.update.id) + 8 * VarLen(AsU32(|e.update.fields|))
  {
    hide BitsOf, VarBytes, VarLen, PutAlign, PutVar;
    var count := AsU32(|e.update.fields|);
    AlignedAlready([]);
    assert PutEntryHead(Packed, [], e.entity, e.update.id, |e.update.fields|)
        == PutEntryHead(Packed, [], e.entity, e.update.id, count);
    hide PutEntryHead;
    EntryHeadWritten([], e.entity, e.update.id, count);
    VarLenAgrees(e.entity);
    VarLenAgrees(e.update.id);
    VarLenAgrees(count);
  }

  lemma {:induction false} EstimateSums(schema: Schema, es: seq<Entry>, est: Estimate)
    requires AllKnownEntries(schema, es)
    ensures EstimateOf(schema, es, est)
         == Estimate(est.maskBits + MaskedCost(schema, es), est.sparseBits + PackedCost(schema, es))
    decreases |es|
  {
    hide FindDef, PutEntryHead, VarLen, IndexCost;
    if es != [] {
      assert es[0] in es && Known(schema, es[0]);
      var d := FindDef(schema.components, es[0].update.id).value;
      HeadCost(es[0]);
      IndicesCost(d, es[0].update.fields);
      EstimateSums(schema, es[1..], AddCost(d, es[0], est));
    }
  }

  /** Updates found by a scan name components of the schema. */
  lemma {:induction false} ComponentsKnown(schema: Schema, k: nat, base: EntitySnapshot, curr: EntitySnapshot, id: u32)
    requires k <= |schema.components|
    ensures AllKnownEntries(schema, ComponentEntries(id, DiffComponents(schema.components[k..], base, curr)))
    decreases |schema.components| - k
  {
    hide DiffFields, FindDef;
    var defs := schema.components[k..];
    if defs != [] {
      assert defs[1..] == schema.components[k + 1..] && defs[0] == schema.components[k];
      ComponentsKnown(schema, k + 1, base, curr, id);
      DefFound(schema.components, k);
      var us := DiffComponents(defs, base, curr);
      if DiffFields(defs[0], base, curr) == [] {
        assert us == DiffComponents(defs[1..], base, curr);
      } else {
        assert us[1..] == DiffComponents(defs[1..], base, curr);
        assert ComponentEntries(id, us) == [Entry(id, us[0])] + ComponentEntries(id, us[1..]);
        assert Known(schema, Entry(id, us[0]));
      }
    }
  }

  lemma {:induction false} DefFound(defs: seq<ComponentDef>, k: nat)
    requires k < |defs|
    ensures FindDef(defs, defs[k].id).Some?
  {
    if k > 0 {
      DefFound(defs[1..], k - 1);
    }
  }

  lemma {:induction false} EntriesKnown(schema: Schema, pairs: seq<(EntitySnapshot, EntitySnapshot)>)
    ensures AllKnownEntries(schema, Entries(DiffPairs(schema, pairs)))
  {
    hide DiffComponents, Known, ComponentEntries;
    if pairs != [] {
      assert schema.components[0..] == schema.components;
      ComponentsKnown(schema, 0, pairs[0].0, pairs[0].1, pairs[0].1.id);
      EntriesKnown(schema, pairs[1..]);
      var u := UpdateEntity(pairs[0].1.id, DiffComponents(schema.components, pairs[0].0, pairs[0].1));
      var rest := DiffPairs(schema, pairs[1..]);
      if u.components == [] {
        assert DiffPairs(schema, pairs) == rest;
      } else {
        assert ([u] + rest)[1..] == rest;
        assert Entries([u] + rest) == ComponentEntries(u.id, u.components) + Entries(rest);
      }
    }
  }

  /**
   The automatic mode packs the updates between two snapshots exactly when the heads and indices of
   packed entries take no more bits than the field masks, and there are masks to save; other bits
   are not counted. Clients with a session get packed updates whatever they cost.
   */
  lemma PackedIff(schema: Schema, pairs: seq<(EntitySnapshot, EntitySnapshot)>)
    ensures AllKnownEntries(schema, Entries(DiffPairs(schema, pairs)))
    ensures var us := DiffPairs(schema, pairs);
            EncodingFor(Auto, schema, us).Sparse? <==>
            0 < MaskedCost(schema, Entries(us)) && PackedCost(schema, Entries(us)) <= MaskedCost(schema, Entries(us))
    ensures EncodingFor(AlwaysSparse, schema, DiffPairs(schema, pairs)).Sparse?
  {
    hide MaskedCost, PackedCost, EstimateOf, DiffPairs, AllKnownEntries, Entries;
    EntriesKnown(schema, pairs);
    EstimateSums(schema, Entries(DiffPairs(schema, pairs)), Estimate(0, 0));
  }

  // ---- Sections ----

  /** The tags of the sections that are sent: destroys, creates, updates, each only when there are some. */
  lemma SectionTags(schema: Schema, d: Delta, encoding: UpdateEncoding)
    ensures var ss := DeltaSections(schema, d, encoding);
            var update := if encoding.Masked? then EntityUpdate else EntityUpdateSparsePacked;
            var x, y, z := d.destroys != [], d.creates != [], d.updates != [];
            && (forall s :: s in ss <==>
                  || (x && s == Section(EntityDestroy, Pack(PutDestroys(d.destroys))))
                  || (y && s == Section(EntityCreate, Pack(PutCreates(schema, d.creates))))
                  || (z && s == UpdateSection(encoding, schema, d.updates)))
            && UpdateSection(encoding, schema, d.updates).tag == update
            && (forall i, j :: 0 <= i < j < |ss| ==> Rank(ss[i].tag) < Rank(ss[j].tag))
  {
    hide Pack, PutDestroys, PutCreates, PutMasked, PutSparse;
  }

  /** Where a section comes in a delta. */
  function Rank(tag: SectionTag): nat {
    match tag
    case EntityDestroy => 1
    case EntityCreate => 2
    case EntityUpdate => 3
    case EntityUpdateSparse => 3
    case EntityUpdateSparsePacked => 3
    case SessionInit => 4
  }

  /**
   What the section at `k` needs: its body within the limits, and room behind the others for the
   reserved bytes and the body.
   */
  predicate Fits(ss: seq<Section>, k: nat, room: int, limits: CodecLimits)
    requires k < |ss|
  {
    && |SectionsBytes(ss[..k])| + 6 + |ss[k].body| <= room
    && |ss[k].body| <= limits.maxSectionBytes && |ss[k].body| <= 0xFFFF_FFFF
  }

  lemma FitsStep(ss: seq<Section>, k: nat, room: int, limits: CodecLimits)
    requires k + 1 < |ss|
    ensures Fits(ss, k + 1, room, limits) <==> Fits(ss[1..], k, room - |SectionBytes(ss[0])|, limits)
  {
    hide SectionBytes;
    assert ss[..k + 1][1..] == ss[1..][..k];
  }

  /** Sections have room exactly when each has. */
  lemma {:induction false} FitsIff(ss: seq<Section>, room: int, limits: CodecLimits)
    ensures PayloadFits(ss, room, limits) <==> forall k :: 0 <= k < |ss| ==> Fits(ss, k, room, limits)
    decreases |ss|
  {
    if ss != [] {
      assert SectionFits(ss[0], room, limits) <==> Fits(ss, 0, room, limits) by { assert ss[..0] == []; }
      hide Fits, SectionFits, SectionBytes;
      var left := room - |SectionBytes(ss[0])|;
      FitsIff(ss[1..], left, limits);
      forall k | 0 <= k < |ss| - 1
        ensures Fits(ss, k + 1, room, limits) <==> Fits(ss[1..], k, left, limits)
      {
        FitsStep(ss, k, room, limits);
      }
      if forall k :: 0 <= k < |ss[1..]| ==> Fits(ss[1..], k, left, limits) {
        forall k | 1 <= k < |ss|
          ensures Fits(ss, k, room, limits)
        {
          assert Fits(ss[1..], k - 1, left, limits);
        }
      }
    }
  }
}
