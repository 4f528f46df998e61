/** The estimate by which the automatic mode picks a layout. */
module Estimates {
  import opened Core
  import opened Schemas
  import opened Diffs
  import opened UpdateLayouts
  import opened Encodings
  import opened Scratches
  import opened Varints
  import opened Walks
  import opened UpdateEncoders
  import opened SparseEncoders
  import opened Sections

  /** Mask bits against index and id bits; values cost the same in both layouts. */
  datatype Estimate = Estimate(maskBits: nat, sparseBits: nat)

  function AddCost(d: ComponentDef, e: Entry, est: Estimate): Estimate {
    Estimate(est.maskBits + |d.fields|,
             est.sparseBits + IndexBits(d) * |e.update.fields|
             + 8 * VarLen(e.entity) + 8 * VarLen(e.update.id) + 8 * VarLen(AsU32(|e.update.fields|)))
  }

  /** The cost of all entries, accumulated from the first to the last. */
  function EstimateOf(schema: Schema, es: seq<Entry>, est: Estimate): Estimate
    decreases |es|
  {
    if es == [] then est
    else
      match FindDef(schema.components, es[0].update.id)
      case None => est
      case Some(d) => EstimateOf(schema, es[1..], AddCost(d, es[0], est))
  }

  function Choose(est: Estimate): UpdateEncoding {
    if est.maskBits == 0 then Masked
    else if est.sparseBits <= est.maskBits then Sparse
    else Masked
  }

  /** The layout the automatic mode uses for an update list. */
  function ChosenEncoding(schema: Schema, us: seq<UpdateEntity>): UpdateEncoding {
    Choose(EstimateOf(schema, Entries(us), Estimate(0, 0)))
  }

  lemma DiffEstimateStep(schema: Schema, k: nat, base: EntitySnapshot, curr: EntitySnapshot, id: u32,
                         rest: seq<Entry>, est: Estimate)
    requires k < |schema.components| && UniqueIds(schema.components)
    ensures var d := schema.components[k];
            var es := ComponentEntries(id, DiffComponents(schema.components[k..], base, curr)) + rest;
            var es' := ComponentEntries(id, DiffComponents(schema.components[k + 1..], base, curr)) + rest;
            var fs := DiffFields(d, base, curr);
            EstimateOf(schema, es, est) ==
            if fs == [] then EstimateOf(schema, es', est)
            else EstimateOf(schema, es', AddCost(d, Entry(id, UpdateComponent(d.id, fs)), est))
  {
    hide FindDef, DiffFields, AddCost;
    var defs := schema.components;
    UniqueSuffix(defs, k);
    DiffStep(defs[k..], base, curr);
    assert defs[k..][1..] == defs[k + 1..];
    DefAt(defs, k);
    var us := DiffComponents(defs[k..], base, curr);
    if DiffFields(defs[k], base, curr) != [] {
      var es := ComponentEntries(id, us) + rest;
      assert es[0] == Entry(id, us[0]);
      assert es[1..] == ComponentEntries(id, us[1..]) + rest;
    }
  }

  method EstimateEntity(schema: Schema, b: EntitySnapshot, c: EntitySnapshot, limits: CodecLimits,
                        scratch: CodecScratch,
                        est: Estimate, ghost rest: seq<Entry>)
    returns (r: Option<Estimate>)
    requires UniqueIds(schema.components)
    modifies scratch
    ensures r.Some? <==> Comparable(schema.components, limits, b, c)
    ensures r.Some? ==>
              EstimateOf(schema, ComponentEntries(c.id, DiffComponents(schema.components, b, c)) + rest, est)
              == EstimateOf(schema, rest, r.value)
  {
    hide DiffComponents, EstimateOf;
    var defs := schema.components;
    var cost := est;
    assert defs[0..] == defs;
    for k := 0 to |defs|
      invariant EstimateOf(schema, ComponentEntries(c.id, DiffComponents(defs, b, c)) + rest, est)
             == EstimateOf(schema, ComponentEntries(c.id, DiffComponents(defs[k..], b, c)) + rest, cost)
      invariant Comparable(defs, limits, b, c) <==> Comparable(defs[k..], limits, b, c)
    {
      var d := defs[k];
      assert defs[k..][1..] == defs[k + 1..];
      DiffEstimateStep(schema, k, b, c, c.id, rest, cost);
      var diff :- DiffComponent(d, b, c, limits, scratch, |defs|);
      if diff {
        var mask := scratch.fieldMask[..|d.fields|];
        var changed := CountTrue(mask);
        SelectedCount(mask, FindComponent(c.components, d.id).value.fields, 0);
        assert mask[0..] == mask;
        cost := Estimate(cost.maskBits + |d.fields|,
                         cost.sparseBits + IndexBits(d) * changed
                         + 8 * VarLen(c.id) + 8 * VarLen(d.id) + 8 * VarLen(AsU32(changed)));
      }
    }
    assert defs[|defs|..] == [];
    NoneLeft(c.id, b, c, rest);
    return Some(cost);
  }

  lemma NoneLeft(id: u32, b: EntitySnapshot, c: EntitySnapshot, rest: seq<Entry>)
    ensures ComponentEntries(id, DiffComponents([], b, c)) + rest == rest
  {
  }

  method SelectUpdateEncoding(schema: Schema, baseline: seq<EntitySnapshot>, current: seq<EntitySnapshot>,
                              limits: CodecLimits, scratch: CodecScratch)
    returns (r: Option<UpdateEncoding>)
    requires Sorted(baseline) && Sorted(current) && UniqueIds(schema.components)
    modifies scratch
    ensures r.Some? <==> AllComparable(schema, limits, Common(baseline, current))
    ensures r.Some? ==> r.value == ChosenEncoding(schema, DiffPairs(schema, Common(baseline, current)))
  {
    NoPairs(schema, limits);
    ghost var pairs := Common(baseline, current);
    var i, j, est := 0, 0, Estimate(0, 0);
    assert baseline[0..] == baseline;
    while i < |baseline| && j < |current|
      invariant WalkAt(baseline, current, i, j)
      invariant AllComparable(schema, limits, pairs) <==> AllComparable(schema, limits, Common(baseline[i..], current))
      invariant EstimateOf(schema, Entries(DiffPairs(schema, Common(baseline[i..], current))), est)
             == EstimateOf(schema, Entries(DiffPairs(schema, pairs)), Estimate(0, 0))
      decreases |baseline| - i + |current| - j
    {
      if baseline[i].id < current[j].id {
        WalkLess(baseline, current, i, j);
        i := i + 1;
      } else if current[j].id < baseline[i].id {
        WalkGreater(baseline, current, i, j);
        j := j + 1;
      } else {
        WalkEqual(baseline, current, i, j);
        var b, c := baseline[i], current[j];
        ghost var rest := DiffPairs(schema, Common(baseline[i + 1..], current));
        DiffPairsStep(schema, limits, (b, c), Common(baseline[i + 1..], current));
        PairEntries(schema, limits, b, c, Common(baseline[i + 1..], current));
        var cost := EstimateEntity(schema, b, c, limits, scratch, est, Entries(rest));
        if cost.None? {
          return None;
        }
        est := cost.value;
        i, j := i + 1, j + 1;
      }
    }
    WalkEnd(baseline, current, i, j);
    NoEntriesCost(schema, est);
    return Some(Choose(est));
  }

  lemma NoEntriesCost(schema: Schema, est: Estimate)
    ensures EstimateOf(schema, Entries([]), est) == est
  {
  }

  lemma PairEntries(schema: Schema, limits: CodecLimits, b: EntitySnapshot, c: EntitySnapshot,
                    rest: seq<(EntitySnapshot, EntitySnapshot)>)
    ensures Entries(DiffPairs(schema, [(b, c)] + rest))
         == ComponentEntries(c.id, DiffComponents(schema.components, b, c)) + Entries(DiffPairs(schema, rest))
  {
    hide DiffComponents;
    var us := DiffComponents(schema.components, b, c);
    DiffPairsStep(schema, limits, (b, c), rest);
    if us == [] {
      assert [] + Entries(DiffPairs(schema, rest)) == Entries(DiffPairs(schema, rest));
    } else {
      EntriesStep(UpdateEntity(c.id, us), DiffPairs(schema, rest));
    }
  }
}
