/** The choice between the update layouts is invisible to the receiver. */
module Encodings {
  import opened Core
  import opened Bits
  import opened Bitstream
  import opened Schemas
  import opened Fields
  import opened Diffs
  import opened Layouts
  import opened UpdateLayouts

  /** Component ids go strictly up from `lo` on. */
  predicate ComponentsAscend(cs: seq<UpdateComponent>, lo: nat)
    decreases |cs|
  {
    cs == [] || (lo <= cs[0].id && ComponentsAscend(cs[1..], cs[0].id + 1))
  }

  /** In every entity update the component ids go strictly up. */
  predicate AllAscend(us: seq<UpdateEntity>) {
    us == [] || (ComponentsAscend(us[0].components, 0) && AllAscend(us[1..]))
  }

  /** A sparse section has no way to mention an entity without a changed component. */
  function WithoutEmpty(us: seq<UpdateEntity>): seq<UpdateEntity> {
    if us == [] then []
    else (if us[0].components == [] then [] else [us[0]]) + WithoutEmpty(us[1..])
  }

  predicate NoneEmpty(us: seq<UpdateEntity>) {
    us == [] || (us[0].components != [] && NoneEmpty(us[1..]))
  }

  lemma {:induction false} WithoutEmptySame(us: seq<UpdateEntity>)
    requires NoneEmpty(us)
    ensures WithoutEmpty(us) == us
  {
    if us != [] {
      WithoutEmptySame(us[1..]);
      assert us == [us[0]] + us[1..];
    }
  }

  lemma {:induction false} GatherConcat(acc: seq<UpdateEntity>, a: seq<Entry>, b: seq<Entry>)
    ensures Gather(acc, a + b) == Gather(Gather(acc, a), b)
    decreases |a|
  {
    if a == [] {
      assert a + b == b;
    } else {
      assert (a + b)[0] == a[0] && (a + b)[1..] == a[1..] + b;
      GatherConcat(AddEntry(acc, a[0]), a[1..], b);
    }
  }

  /** The entries of one entity, gathered onto its components seen so far. */
  lemma {:induction false} GatherMore(acc: seq<UpdateEntity>, id: u32, seen: seq<UpdateComponent>,
                                      cs: seq<UpdateComponent>)
    requires seen != []
    ensures Gather(acc + [UpdateEntity(id, seen)], ComponentEntries(id, cs)) == acc + [UpdateEntity(id, seen + cs)]
    decreases |cs|
  {
    if cs == [] {
      assert seen + cs == seen;
    } else {
      var before := acc + [UpdateEntity(id, seen)];
      assert AddEntry(before, Entry(id, cs[0])) == acc + [UpdateEntity(id, seen + [cs[0]])];
      GatherMore(acc, id, seen + [cs[0]], cs[1..]);
      assert seen + [cs[0]] + cs[1..] == seen + cs;
    }
  }

  lemma {:induction false} GatherEntity(acc: seq<UpdateEntity>, u: UpdateEntity)
    requires acc == [] || acc[|acc| - 1].id != u.id
    ensures Gather(acc, ComponentEntries(u.id, u.components)) == if u.components == [] then acc else acc + [u]
  {
    if u.components != [] {
      var cs := u.components;
      GatherMore(acc, u.id, [cs[0]], cs[1..]);
      assert [cs[0]] + cs[1..] == cs;
    }
  }

  lemma NothingGathered(acc: seq<UpdateEntity>)
    ensures Gather(acc, Entries([])) == acc + WithoutEmpty([])
  {
  }

  lemma EntriesHead(us: seq<UpdateEntity>)
    requires us != []
    ensures Entries(us) == ComponentEntries(us[0].id, us[0].components) + Entries(us[1..])
    ensures WithoutEmpty(us) == if us[0].components == [] then WithoutEmpty(us[1..])
            else [us[0]] + WithoutEmpty(us[1..])
  {
  }

  /** Gathering the entries of a sorted update list gives back its non-empty members. */
  lemma {:induction false} GatherEntries(acc: seq<UpdateEntity>, us: seq<UpdateEntity>)
    requires SortedUpdates(us)
    requires acc == [] || us == [] || acc[|acc| - 1].id < us[0].id
    ensures Gather(acc, Entries(us)) == acc + WithoutEmpty(us)
    decreases |us|
  {
    hide ComponentEntries, AddEntry, Gather, Entries, WithoutEmpty;
    if us == [] {
      NothingGathered(acc);
    } else {
      var rest := us[1..];
      EntriesHead(us);
      GatherConcat(acc, ComponentEntries(us[0].id, us[0].components), Entries(rest));
      GatherEntity(acc, us[0]);
      if us[0].components == [] {
        GatherEntries(acc, rest);
      } else {
        GatherEntries(acc + [us[0]], rest);
        assert acc + [us[0]] + WithoutEmpty(rest) == acc + ([us[0]] + WithoutEmpty(rest));
      }
    }
  }

  /** Before the entries of entity `id` with component ids from `lo` on. */
  predicate Before(prev: Option<Entry>, id: u32, lo: nat) {
    match prev
    case None => lo == 0
    case Some(e) => if e.entity < id then lo == 0 else e.entity == id && lo == e.update.id + 1
  }

  lemma {:induction false} EntityAscends(prev: Option<Entry>, id: u32, cs: seq<UpdateComponent>, lo: nat,
                                         rest: seq<Entry>)
    requires Before(prev, id, lo)
    ensures EntriesAscend(prev, ComponentEntries(id, cs) + rest)
       <==> ComponentsAscend(cs, lo)
            && EntriesAscend(if cs == [] then prev else Some(Entry(id, cs[|cs| - 1])), rest)
    decreases |cs|
  {
    if cs == [] {
      assert ComponentEntries(id, cs) + rest == rest;
    } else {
      var e := Entry(id, cs[0]);
      assert (ComponentEntries(id, cs) + rest)[1..] == ComponentEntries(id, cs[1..]) + rest;
      EntityAscends(Some(e), id, cs[1..], cs[0].id + 1, rest);
    }
  }

  /** The entries of a sorted update list are in decodable order exactly when every entity's components ascend. */
  lemma {:induction false} EntriesAscendIff(prev: Option<Entry>, us: seq<UpdateEntity>)
    requires SortedUpdates(us)
    requires prev.Some? && us != [] ==> prev.value.entity < us[0].id
    ensures EntriesAscend(prev, Entries(us)) <==> AllAscend(us)
    decreases |us|
  {
    if us != [] {
      var cs := us[0].components;
      EntityAscends(prev, us[0].id, cs, 0, Entries(us[1..]));
      EntriesAscendIff(if cs == [] then prev else Some(Entry(us[0].id, cs[|cs| - 1])), us[1..]);
    }
  }

  lemma {:induction false} WithoutEmptyLength(us: seq<UpdateEntity>)
    ensures |WithoutEmpty(us)| <= |us|
  {
    if us != [] {
      WithoutEmptyLength(us[1..]);
    }
  }

  /**
   What becomes of any sorted update list written sparsely: it is decoded exactly when in every
   entity the component ids and in every component the field indices ascend, and entities
   without components are lost.
   */
  lemma {:induction false} SparseDecodes(layout: Layout, schema: Schema, limits: CodecLimits, us: seq<UpdateEntity>)
    requires SortedUpdates(us) && |us| <= limits.maxEntitiesUpdate
    requires AllEntriesWritten(schema, limits, Entries(us)) && |Entries(us)| <= EntryLimit(limits)
    requires |PutSparse(layout, schema, us)| / 8 <= limits.maxSectionBytes
    requires |PutSparse(layout, schema, us)| / 8 < 0x1_0000_0000
    ensures GetSparse(layout, Pack(PutSparse(layout, schema, us)), schema, limits)
         == if AllFieldsAscend(Entries(us)) && AllAscend(us) then Some(WithoutEmpty(us)) else None
  {
    GatherEntries([], us);
    assert [] + WithoutEmpty(us) == WithoutEmpty(us);
    WithoutEmptyLength(us);
    EntriesAscendIff(None, us);
    SparseBack(layout, schema, limits, us);
  }

  // ---- Lists in schema order ----

  /** In a schema with ascending ids, lists in schema order ascend. */
  lemma {:induction false} InOrderAscends(defs: seq<ComponentDef>, limits: CodecLimits, cs: seq<UpdateComponent>,
                                          lo: nat)
    requires UpdatesInOrder(defs, limits, cs) && Ascending(defs)
    requires defs != [] ==> lo <= defs[0].id
    ensures ComponentsAscend(cs, lo)
    decreases |defs|
  {
    if defs != [] {
      if cs != [] && cs[0].id == defs[0].id {
        InOrderAscends(defs[1..], limits, cs[1..], cs[0].id + 1);
      } else {
        InOrderAscends(defs[1..], limits, cs, lo);
      }
    }
  }

  lemma {:induction false} AllInOrderAscend(schema: Schema, limits: CodecLimits, us: seq<UpdateEntity>)
    requires AllInSchemaOrder(schema, limits, us) && Ascending(schema.components)
    ensures AllAscend(us)
    decreases |us|
  {
    if us != [] {
      InOrderAscends(schema.components, limits, us[0].components, 0);
      AllInOrderAscend(schema, limits, us[1..]);
    }
  }

  /** Distinct ids of 16 bits, none of them zero: there are fewer than 65536. */
  lemma {:induction false} FieldsBounded(d: ComponentDef)
    requires UniqueFields(d.fields)
    ensures |d.fields| <= 0x1_0000
  {
    var ids := set i | 0 <= i < |d.fields| :: d.fields[i].id as int;
    FieldIdCount(d.fields, ids);
    SetBelow(ids, 0x1_0000);
  }

  lemma {:induction false} FieldIdCount(fields: seq<FieldDef>, ids: set<int>)
    requires UniqueFields(fields)
    requires ids == set i | 0 <= i < |fields| :: fields[i].id as int
    ensures |ids| == |fields|
  {
    if fields != [] {
      var n := |fields| - 1;
      var rest := set i | 0 <= i < n :: fields[..n][i].id as int;
      FieldIdCount(fields[..n], rest);
      assert ids == rest + {fields[n].id as int};
    }
  }

  lemma {:induction false} SetBelow(ids: set<int>, n: nat)
    requires forall id :: id in ids ==> 0 <= id < n
    ensures |ids| <= n
  {
    if n == 0 {
      assert forall id :: id !in ids;
    } else {
      var rest := ids - {n - 1};
      SetBelow(rest, n - 1);
      if n - 1 in ids {
        assert ids == rest + {n - 1};
      } else {
        assert ids == rest;
      }
    }
  }

  // ---- Schema-order lists meet the demands of the sparse layouts ----

  predicate AllFound(all: seq<ComponentDef>, defs: seq<ComponentDef>) {
    defs == [] || (FindDef(all, defs[0].id) == Some(defs[0]) && AllFound(all, defs[1..]))
  }

  lemma {:induction false} UniqueAllFound(all: seq<ComponentDef>, k: nat)
    requires UniqueIds(all) && k <= |all|
    ensures AllFound(all, all[k..])
    decreases |all| - k
  {
    if k < |all| {
      DefAt(all, k);
      UniqueAllFound(all, k + 1);
      assert all[k..][1..] == all[k + 1..];
    }
  }

  lemma {:induction false} WrittenConcat(schema: Schema, limits: CodecLimits, a: seq<Entry>, b: seq<Entry>)
    requires AllEntriesWritten(schema, limits, a) && AllEntriesWritten(schema, limits, b)
    ensures AllEntriesWritten(schema, limits, a + b)
    decreases |a|
  {
    hide EntryWritten;
    if a == [] {
      assert a + b == b;
    } else {
      assert (a + b)[1..] == a[1..] + b;
      WrittenConcat(schema, limits, a[1..], b);
    }
  }

  lemma {:induction false} AscendConcat(a: seq<Entry>, b: seq<Entry>)
    requires AllFieldsAscend(a) && AllFieldsAscend(b)
    ensures AllFieldsAscend(a + b)
    decreases |a|
  {
    hide FieldsAscend;
    if a == [] {
      assert a + b == b;
    } else {
      assert (a + b)[1..] == a[1..] + b;
      AscendConcat(a[1..], b);
    }
  }

  lemma ValidUpdateWritten(schema: Schema, limits: CodecLimits, d: ComponentDef, id: u32, u: UpdateComponent)
    requires FindDef(schema.components, d.id) == Some(d) && ValidComponent(d) && ValidUpdate(d, limits, u)
    ensures EntryWritten(schema, limits, Entry(id, u)) && FieldsAscend(u.fields, 0)
  {
    hide FindDef, SelectedOk, FieldsAscend, ValidCodecs, UniqueFields;
    FieldsBounded(d);
    FieldCount(d.fields, 0, u.fields);
  }

  lemma {:induction false} ComponentEntriesWritten(schema: Schema, limits: CodecLimits, defs: seq<ComponentDef>,
                                                   id: u32, cs: seq<UpdateComponent>)
    requires AllFound(schema.components, defs) && ValidComponents(defs) && UpdatesInOrder(defs, limits, cs)
    ensures AllEntriesWritten(schema, limits, ComponentEntries(id, cs)) && AllFieldsAscend(ComponentEntries(id, cs))
    decreases |defs|
  {
    hide FindDef, ValidUpdate, ValidComponent, EntryWritten, FieldsAscend;
    if defs != [] {
      if cs != [] && cs[0].id == defs[0].id {
        ValidUpdateWritten(schema, limits, defs[0], id, cs[0]);
        ComponentEntriesWritten(schema, limits, defs[1..], id, cs[1..]);
        assert ComponentEntries(id, cs)[1..] == ComponentEntries(id, cs[1..]);
      } else {
        ComponentEntriesWritten(schema, limits, defs[1..], id, cs);
      }
    }
  }

  lemma {:induction false} InOrderEntriesWritten(schema: Schema, limits: CodecLimits, us: seq<UpdateEntity>)
    requires ValidSchema(schema) && AllInSchemaOrder(schema, limits, us)
    ensures AllEntriesWritten(schema, limits, Entries(us)) && AllFieldsAscend(Entries(us))
    decreases |us|
  {
    hide ComponentEntries, UpdatesInOrder;
    if us != [] {
      UniqueAllFound(schema.components, 0);
      assert schema.components[0..] == schema.components;
      ComponentEntriesWritten(schema, limits, schema.components, us[0].id, us[0].components);
      InOrderEntriesWritten(schema, limits, us[1..]);
      WrittenConcat(schema, limits, ComponentEntries(us[0].id, us[0].components), Entries(us[1..]));
      AscendConcat(ComponentEntries(us[0].id, us[0].components), Entries(us[1..]));
    }
  }

  predicate FitsSection(bits: Bits, limits: CodecLimits) {
    |bits| / 8 <= limits.maxSectionBytes && |bits| / 8 < 0x1_0000_0000
  }

  /**
   The choice between the layouts is invisible: written from one update list in schema order,
   the masked section always decodes to that list, and either sparse section does so exactly
   when the component ids of every entity ascend, as they must in a schema that lists its
   components in ascending order.
   */
  lemma {:induction false} EncodingInvisible(schema: Schema, limits: CodecLimits, us: seq<UpdateEntity>, layout: Layout)
    requires ValidSchema(schema) && SortedUpdates(us) && AllInSchemaOrder(schema, limits, us) && NoneEmpty(us)
    requires |us| <= limits.maxEntitiesUpdate && |Entries(us)| <= EntryLimit(limits)
    requires FitsSection(PutMasked(schema, us), limits) && FitsSection(PutSparse(layout, schema, us), limits)
    ensures GetMasked(Pack(PutMasked(schema, us)), schema, limits) == Some(us)
    ensures GetSparse(layout, Pack(PutSparse(layout, schema, us)), schema, limits)
         == if AllAscend(us) then Some(us) else None
    ensures Ascending(schema.components) ==> AllAscend(us)
  {
    MaskedBack(schema, limits, us);
    InOrderEntriesWritten(schema, limits, us);
    WithoutEmptySame(us);
    SparseDecodes(layout, schema, limits, us);
    if Ascending(schema.components) {
      AllInOrderAscend(schema, limits, us);
    }
  }
}
