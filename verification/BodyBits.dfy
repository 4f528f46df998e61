/** The bits of section bodies at the places where they stand: counts, ids, masks and values. */
module BodyBits {
  import opened Core
  import opened Bits
  import opened Bitstream
  import opened Numerals
  import opened Schemas
  import opened Fields
  import opened Diffs
  import opened Layouts
  import opened UpdateLayouts

  // ---- Counts and ids ----

  /** A body starts with its count as a varint. */
  lemma HeadWritten(n: u32)
    ensures PutHead(n) == BitsOf(VarBytes(n))
  {
    hide BitsOf, VarBytes, PutAlign;
    AlignedAlready([]);
    assert [] + BitsOf(VarBytes(n)) == BitsOf(VarBytes(n));
  }

  /** An id is four bytes, least significant first, from the next byte boundary on. */
  lemma IdWritten(s: Bits, id: u32)
    ensures PutId(s, id) == PutAlign(s) + BitsOf(LittleEndian(id, 4))
  {
  }

  function Words(ids: seq<u32>): seq<byte> {
    if ids == [] then [] else LittleEndian(ids[0], 4) + Words(ids[1..])
  }

  lemma {:induction false} IdsWritten(bs: seq<byte>, ids: seq<u32>)
    ensures PutIds(BitsOf(bs), ids) == BitsOf(bs + Words(ids))
    decreases |ids|
  {
    hide BitsOf, LittleEndian, PutAlign;
    if ids == [] {
      assert bs + [] == bs;
    } else {
      AlignedAlready(BitsOf(bs));
      IdWritten(BitsOf(bs), ids[0]);
      BitsOfConcat(bs, LittleEndian(ids[0], 4));
      IdsWritten(bs + LittleEndian(ids[0], 4), ids[1..]);
      assert bs + Words(ids) == bs + LittleEndian(ids[0], 4) + Words(ids[1..]);
    }
  }

  lemma AlignedAlready(s: Bits)
    requires |s| % 8 == 0
    ensures PutAlign(s) == s
  {
  }

  /** A destroy body is the count and then the ids, four bytes each. */
  lemma DestroysWritten(ids: seq<u32>)
    requires |ids| < 0x1_0000_0000
    ensures Pack(PutDestroys(ids)) == VarBytes(|ids|) + Words(ids)
  {
    hide BitsOf, VarBytes, PutAlign, Pack, PutHead, Words, PutIds;
    var bs := VarBytes(|ids|);
    HeadWritten(|ids|);
    IdsWritten(bs, ids);
    AlignedAlready(BitsOf(bs + Words(ids)));
    PackBitsOf(bs + Words(ids));
  }

  // ---- Masks of created entities ----

  /**
   After its id a created entity has one bit for each component of the schema, in schema order, set
   where it has one.
   */
  lemma CreateMask(s: Bits, schema: Schema, e: EntitySnapshot, k: nat)
    requires k < |schema.components|
    ensures |PutCreate(s, schema, e)| >= |PutId(s, e.id)| + |schema.components|
    ensures PutId(s, e.id) <= PutCreate(s, schema, e)
    ensures PutCreate(s, schema, e)[|PutId(s, e.id)| + k]
       <==> FindComponent(e.components, schema.components[k].id).Some?
  {
    hide FindComponent, PutFulls, PutId;
    var start := PutId(s, e.id) + Presence(schema.components, e.components);
    assert start <= PutCreate(s, schema, e);
    assert start[|PutId(s, e.id)| + k] == Presence(schema.components, e.components)[k];
  }

  /** Every component of a created entity starts with one bit for each of its fields, all of them set. */
  lemma FullMask(s: Bits, d: ComponentDef, c: ComponentSnapshot, k: nat)
    requires k < |d.fields|
    ensures |PutFull(s, d, c)| >= |s| + |d.fields| && PutFull(s, d, c)[|s| + k]
  {
    hide PutValues;
    assert s + Ones(|d.fields|) <= PutFull(s, d, c);
    assert (s + Ones(|d.fields|))[|s| + k] == Ones(|d.fields|)[k];
  }

  // ---- Masks of updated entities ----

  /** The update is among these, by its index. */
  predicate HasIndex(fs: seq<(nat, FieldValue)>, i: nat) {
    exists f :: f in fs && f.0 == i
  }

  lemma {:induction false} MaskMember(fs: seq<(nat, FieldValue)>, k: nat, n: nat, i: nat)
    requires k <= i < n && FieldsAscend(fs, k)
    ensures MaskOf(fs, k, n)[i - k] <==> HasIndex(fs, i)
    decreases n - k
  {
    if fs == [] {
      NoIndex(fs, k, i);
      if k < i {
        MaskMember(fs, k + 1, n, i);
      }
    } else {
      assert fs == [fs[0]] + fs[1..];
      assert fs[0] in fs;
      if fs[0].0 == k {
        assert HasIndex(fs, k);
        if k < i {
          MaskMember(fs[1..], k + 1, n, i);
          assert HasIndex(fs, i) <==> HasIndex(fs[1..], i);
        }
      } else {
        AscendBound(fs, k + 1);
        if k < i {
          MaskMember(fs, k + 1, n, i);
        }
      }
    }
  }

  lemma NoIndex(fs: seq<(nat, FieldValue)>, k: nat, i: nat)
    requires fs == []
    ensures !HasIndex(fs, i)
  {
  }

  lemma {:induction false} AscendBound(fs: seq<(nat, FieldValue)>, lo: nat)
    requires FieldsAscend(fs, lo)
    ensures forall f :: f in fs ==> f.0 >= lo
    decreases |fs|
  {
    if fs != [] {
      AscendBound(fs[1..], fs[0].0 + 1);
      assert fs == [fs[0]] + fs[1..];
    }
  }

  /** An updated component starts with one bit for each of its fields, set where the field is sent. */
  lemma FieldBitsWritten(s: Bits, d: ComponentDef, fs: seq<(nat, FieldValue)>, k: nat)
    requires k < |d.fields| && FieldsAscend(fs, 0)
    ensures |PutMaskedComponent(s, d, fs)| >= |s| + |d.fields|
    ensures PutMaskedComponent(s, d, fs)[|s| + k] <==> HasIndex(fs, k)
  {
    hide PutSelected, MaskOf, HasIndex;
    var start := s + MaskOf(fs, 0, |d.fields|);
    assert start <= PutMaskedComponent(s, d, fs);
    assert start[|s| + k] == MaskOf(fs, 0, |d.fields|)[k];
    MaskMember(fs, 0, |d.fields|, k);
  }

  predicate HasComponent(us: seq<UpdateComponent>, id: u16) {
    exists u :: u in us && u.id == id
  }

  lemma {:induction false} OrderedIds(defs: seq<ComponentDef>, limits: CodecLimits, us: seq<UpdateComponent>)
    requires UpdatesInOrder(defs, limits, us)
    ensures forall u :: u in us ==> exists j :: 0 <= j < |defs| && defs[j].id == u.id
    decreases |defs|
  {
    hide ValidUpdate;
    if defs != [] {
      if us != [] && us[0].id == defs[0].id {
        OrderedIds(defs[1..], limits, us[1..]);
        assert us == [us[0]] + us[1..];
      } else {
        OrderedIds(defs[1..], limits, us);
      }
      forall u | u in us
        ensures exists j :: 0 <= j < |defs| && defs[j].id == u.id
      {
        if !(us[0].id == defs[0].id && u == us[0]) {
          var j :| 0 <= j < |defs[1..]| && defs[1..][j].id == u.id;
          assert defs[j + 1].id == u.id;
        }
      }
    }
  }

  lemma {:induction false} ComponentMaskMember(defs: seq<ComponentDef>, limits: CodecLimits, us: seq<UpdateComponent>,
                                               k: nat)
    requires UniqueIds(defs) && UpdatesInOrder(defs, limits, us) && k < |defs|
    ensures ComponentMask(defs, us)[k] <==> HasComponent(us, defs[k].id)
    decreases |defs|
  {
    hide ValidUpdate;
    assert UniqueIds(defs[1..]);
    if us != [] && us[0].id == defs[0].id {
      assert us == [us[0]] + us[1..] && us[0] in us;
      if k > 0 {
        ComponentMaskMember(defs[1..], limits, us[1..], k - 1);
      }
    } else {
      if k > 0 {
        ComponentMaskMember(defs[1..], limits, us, k - 1);
      } else {
        OrderedIds(defs[1..], limits, us);
      }
    }
  }

  /** After its id an updated entity has one bit for each component of the schema, set where the component is sent. */
  lemma ComponentBitsWritten(s: Bits, schema: Schema, limits: CodecLimits, u: UpdateEntity, k: nat)
    requires UniqueIds(schema.components) && UpdatesInOrder(schema.components, limits, u.components)
    requires k < |schema.components|
    ensures |PutMaskedEntity(s, schema, u)| >= |PutId(s, u.id)| + |schema.components|
    ensures PutId(s, u.id) <= PutMaskedEntity(s, schema, u)
    ensures PutMaskedEntity(s, schema, u)[|PutId(s, u.id)| + k] <==> HasComponent(u.components, schema.components[k].id)
  {
    hide PutMaskedComponents, ComponentMask, PutId, UniqueIds, UpdatesInOrder, HasComponent;
    var mask := ComponentMask(schema.components, u.components);
    var start := PutId(s, u.id) + mask;
    assert start <= PutMaskedEntity(s, schema, u);
    assert start[|PutId(s, u.id)| + k] == mask[k];
    ComponentMaskMember(schema.components, limits, u.components, k);
  }

  // ---- Entries of sparse sections ----

  lemma ThreeParts(s: Bits, a: seq<byte>, b: seq<byte>, c: seq<byte>)
    ensures PutBytes(PutBytes(PutBytes(s, a), b), c) == s + BitsOf(a + b + c)
  {
    hide BitsOf;
    BitsOfConcat(a, b);
    BitsOfConcat(a + b, c);
    assert s + BitsOf(a) + BitsOf(b) + BitsOf(c) == s + (BitsOf(a) + BitsOf(b) + BitsOf(c));
  }

  /**
   A sparse entry starts with entity, component and field count: words and a varint, or three
   varints, from a byte on.
   */
  lemma EntryHeadWritten(s: Bits, entity: u32, component: u16, count: u32)
    ensures PutEntryHead(Varint, s, entity, component, count)
         == PutAlign(s) + BitsOf(LittleEndian(entity, 4) + LittleEndian(component, 2) + VarBytes(count))
    ensures PutEntryHead(Packed, s, entity, component, count)
         == PutAlign(s) + BitsOf(VarBytes(entity) + VarBytes(component) + VarBytes(count))
  {
    hide BitsOf, LittleEndian, VarBytes, PutAlign, PutBytes;
    var start := PutAlign(s);
    AlignedAlready(start);
    ThreeParts(start, LittleEndian(entity, 4), LittleEndian(component, 2), VarBytes(count));
    ThreeParts(start, VarBytes(entity), VarBytes(component), VarBytes(count));
  }
}
