/** Items are written in the order in which they are listed: one more item comes behind the others. */
module BodyOrder {
  import opened Core
  import opened Bits
  import opened Bitstream
  import opened Schemas
  import opened Fields
  import opened Diffs
  import opened Layouts
  import opened UpdateLayouts

  // ---- Created entities ----

  lemma {:induction false} ValuesInOrder(s: Bits, fields: seq<FieldDef>, values: seq<FieldValue>, f: FieldDef,
                                         v: FieldValue)
    requires |fields| == |values|
    ensures PutValues(s, fields + [f], values + [v]) == PutField(PutValues(s, fields, values), f.codec, v)
    decreases |fields|
  {
    hide PutField;
    if fields == [] {
      assert fields + [f] == [f] && values + [v] == [v];
    } else {
      assert (fields + [f])[1..] == fields[1..] + [f] && (values + [v])[1..] == values[1..] + [v];
      ValuesInOrder(PutField(s, fields[0].codec, values[0]), fields[1..], values[1..], f, v);
    }
  }

  /** Components of a created entity come in the order of the schema. */
  lemma {:induction false} FullsInOrder(s: Bits, defs: seq<ComponentDef>, cs: seq<ComponentSnapshot>, d: ComponentDef)
    ensures var before, found := PutFulls(s, defs, cs), FindComponent(cs, d.id);
            PutFulls(s, defs + [d], cs) == if found.Some? then PutFull(before, d, found.value) else before
    decreases |defs|
  {
    hide PutFull, FindComponent;
    if defs == [] {
      assert defs + [d] == [d];
    } else {
      assert (defs + [d])[1..] == defs[1..] + [d];
      var found := FindComponent(cs, defs[0].id);
      FullsInOrder(if found.Some? then PutFull(s, defs[0], found.value) else s, defs[1..], cs, d);
    }
  }

  lemma {:induction false} CreatesInOrder(s: Bits, schema: Schema, es: seq<EntitySnapshot>, e: EntitySnapshot)
    ensures PutCreateList(s, schema, es + [e]) == PutCreate(PutCreateList(s, schema, es), schema, e)
    decreases |es|
  {
    hide PutCreate;
    if es == [] {
      assert es + [e] == [e];
    } else {
      assert (es + [e])[1..] == es[1..] + [e];
      CreatesInOrder(PutCreate(s, schema, es[0]), schema, es[1..], e);
    }
  }

  // ---- Masked updates ----

  lemma {:induction false} SelectedInOrder(s: Bits, fields: seq<FieldDef>, fs: seq<(nat, FieldValue)>,
                                           f: (nat, FieldValue))
    requires f.0 < |fields| && forall x :: x in fs ==> x.0 < |fields|
    ensures PutSelected(s, fields, fs + [f]) == PutField(PutSelected(s, fields, fs), fields[f.0].codec, f.1)
    decreases |fs|
  {
    hide PutField;
    if fs == [] {
      assert fs + [f] == [f];
    } else {
      assert fs[0] in fs && (fs + [f])[1..] == fs[1..] + [f];
      SelectedInOrder(PutField(s, fields[fs[0].0].codec, fs[0].1), fields, fs[1..], f);
    }
  }

  /** Updated components come in the order of the schema. */
  lemma {:induction false} ComponentsInOrder(s: Bits, defs: seq<ComponentDef>, limits: CodecLimits,
                                             us: seq<UpdateComponent>, d: ComponentDef, u: UpdateComponent)
    requires UpdatesInOrder(defs, limits, us) && UniqueIds(defs + [d]) && u.id == d.id
    ensures PutMaskedComponents(s, defs + [d], us + [u])
         == PutMaskedComponent(PutMaskedComponents(s, defs, us), d, u.fields)
    decreases |defs|
  {
    hide PutMaskedComponent, ValidUpdate;
    var all := defs + [d];
    if defs == [] {
      assert all == [d] && us + [u] == [u];
    } else {
      assert all[1..] == defs[1..] + [d];
      assert all[0].id != all[|defs|].id;
      assert UniqueIds(all[1..]);
      if us != [] && us[0].id == defs[0].id {
        assert (us + [u])[1..] == us[1..] + [u];
        ComponentsInOrder(PutMaskedComponent(s, defs[0], us[0].fields), defs[1..], limits, us[1..], d, u);
      } else {
        ComponentsInOrder(s, defs[1..], limits, us, d, u);
      }
    }
  }

  lemma {:induction false} MaskedInOrder(s: Bits, schema: Schema, us: seq<UpdateEntity>, u: UpdateEntity)
    ensures PutMaskedList(s, schema, us + [u]) == PutMaskedEntity(PutMaskedList(s, schema, us), schema, u)
    decreases |us|
  {
    hide PutMaskedEntity;
    if us == [] {
      assert us + [u] == [u];
    } else {
      assert (us + [u])[1..] == us[1..] + [u];
      MaskedInOrder(PutMaskedEntity(s, schema, us[0]), schema, us[1..], u);
    }
  }

  // ---- Sparse updates ----

  /** Each field of a sparse entry is an index and a value, in the order listed. */
  lemma {:induction false} IndexedInOrder(layout: Layout, s: Bits, d: ComponentDef, fs: seq<(nat, FieldValue)>,
                                          f: (nat, FieldValue))
    requires f.0 < |d.fields| && forall x :: x in fs ==> x.0 < |d.fields|
    ensures PutIndexed(layout, s, d, fs + [f])
         == PutField(PutIndex(layout, PutIndexed(layout, s, d, fs), d, f.0), d.fields[f.0].codec, f.1)
    decreases |fs|
  {
    hide PutField, PutIndex;
    if fs == [] {
      assert fs + [f] == [f];
    } else {
      assert fs[0] in fs && (fs + [f])[1..] == fs[1..] + [f];
      var next := PutField(PutIndex(layout, s, d, fs[0].0), d.fields[fs[0].0].codec, fs[0].1);
      IndexedInOrder(layout, next, d, fs[1..], f);
    }
  }

  predicate AllDefined(schema: Schema, es: seq<Entry>) {
    forall e :: e in es ==> FindDef(schema.components, e.update.id).Some?
  }

  lemma {:induction false} EntriesInOrder(layout: Layout, s: Bits, schema: Schema, es: seq<Entry>, e: Entry)
    requires AllDefined(schema, es + [e])
    ensures FindDef(schema.components, e.update.id).Some?
    ensures PutEntries(layout, s, schema, es + [e])
         == PutEntry(layout, PutEntries(layout, s, schema, es), FindDef(schema.components, e.update.id).value, e)
    decreases |es|
  {
    hide PutEntry, FindDef;
    assert (es + [e])[|es|] == e;
    if es == [] {
      assert es + [e] == [e];
    } else {
      assert (es + [e])[0] == es[0] && (es + [e])[1..] == es[1..] + [e];
      EntriesInOrder(layout, PutEntry(layout, s, FindDef(schema.components, es[0].update.id).value, es[0]), schema,
                     es[1..], e);
    }
  }

  /** The entries of an update list: for every entity in turn, one for each of its components in turn. */
  lemma {:induction false} EntriesListed(us: seq<UpdateEntity>, u: UpdateEntity, c: UpdateComponent)
    ensures Entries(us + [UpdateEntity(u.id, u.components + [c])]) == Entries(us + [u]) + [Entry(u.id, c)]
    ensures Entries(us + [UpdateEntity(u.id, [])]) == Entries(us)
    decreases |us|
  {
    hide ComponentEntries;
    var longer, none := UpdateEntity(u.id, u.components + [c]), UpdateEntity(u.id, []);
    if us == [] {
      assert us + [longer] == [longer] && us + [u] == [u] && us + [none] == [none];
      assert [longer][1..] == [] && [u][1..] == [] && [none][1..] == [];
      ComponentsListed(u.id, u.components, c);
    } else {
      assert (us + [longer])[1..] == us[1..] + [longer] && (us + [u])[1..] == us[1..] + [u];
      assert (us + [none])[1..] == us[1..] + [none];
      EntriesListed(us[1..], u, c);
    }
  }

  lemma {:induction false} ComponentsListed(id: u32, cs: seq<UpdateComponent>, c: UpdateComponent)
    ensures ComponentEntries(id, cs + [c]) == ComponentEntries(id, cs) + [Entry(id, c)]
    ensures ComponentEntries(id, []) == []
  {
    if cs == [] {
      assert cs + [c] == [c];
    } else {
      assert (cs + [c])[1..] == cs[1..] + [c];
      ComponentsListed(id, cs[1..], c);
    }
  }
}
