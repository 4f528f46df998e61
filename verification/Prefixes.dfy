/** No section body is the beginning of another: whatever follows an accepted body is refused. */
module Prefixes {
  import opened Core
  import opened Bits
  import opened Bitstream
  import opened Schemas
  import opened Fields
  import opened Diffs
  import opened Layouts
  import opened UpdateLayouts

  // ---- Reading a longer buffer ----

  lemma Longer(data: seq<byte>, more: seq<byte>)
    ensures |BitsOf(data + more)| >= 8 * |data| && BitsOf(data + more)[..8 * |data|] == BitsOf(data)
  {
    BitsOfConcat(data, more);
  }

  lemma SamePart(all: Bits, own: Bits, p: nat, n: nat)
    requires own <= all && p + n <= |own|
    ensures all[p..p + n] == own[p..p + n]
  {
    var x, y := all[p..p + n], own[p..p + n];
    forall i | 0 <= i < n
      ensures x[i] == y[i]
    {
      assert x[i] == all[p + i] == own[p + i];
    }
  }

  lemma MaskMore(data: seq<byte>, more: seq<byte>, p: nat, n: nat)
    requires GetMask(data, p, n).Some?
    ensures GetMask(data + more, p, n) == GetMask(data, p, n)
  {
    hide BitsOf;
    Longer(data, more);
    assert BitsOf(data + more)[p..p + n] == BitsOf(data + more)[..8 * |data|][p..p + n];
  }

  lemma BitMore(data: seq<byte>, more: seq<byte>, p: nat)
    requires GetBit(data, p).Some?
    ensures GetBit(data + more, p) == GetBit(data, p)
  {
    hide BitsOf;
    Longer(data, more);
    assert BitsOf(data + more)[p] == BitsOf(data + more)[..8 * |data|][p];
  }

  lemma BitsMore(data: seq<byte>, more: seq<byte>, p: nat, n: nat)
    requires GetBits(data, p, n).Some?
    ensures GetBits(data + more, p, n) == GetBits(data, p, n)
  {
    hide BitsOf, FromBits;
    Longer(data, more);
    var all, own := BitsOf(data + more), BitsOf(data);
    assert own <= all;
    SamePart(all, own, p, n);
  }

  lemma AlignMore(data: seq<byte>, more: seq<byte>, p: nat)
    requires GetAlign(data, p).Some?
    ensures GetAlign(data + more, p) == GetAlign(data, p)
  {
  }

  lemma BytesMore(data: seq<byte>, more: seq<byte>, p: nat, n: nat)
    requires GetBytes(data, p, n).Some?
    ensures GetBytes(data + more, p, n) == GetBytes(data, p, n)
  {
    assert (data + more)[p / 8..p / 8 + n] == data[p / 8..p / 8 + n];
  }

  lemma WordMore(data: seq<byte>, more: seq<byte>, p: nat, n: nat)
    requires GetWord(data, p, n).Some?
    ensures GetWord(data + more, p, n) == GetWord(data, p, n)
  {
    hide GetBytes;
    BytesMore(data, more, p, n);
  }

  lemma {:induction false} GroupsMore(bs: seq<byte>, more: seq<byte>, off: nat, k: nat)
    requires k <= 5 && VarGroups(bs, off, k).Some?
    ensures VarGroups(bs + more, off, k) == VarGroups(bs, off, k)
    decreases 5 - k
  {
    if bs[off] >= 128 {
      GroupsMore(bs, more, off + 1, k + 1);
    }
  }

  lemma VarMore(data: seq<byte>, more: seq<byte>, p: nat)
    requires GetVar(data, p).Some?
    ensures GetVar(data + more, p) == GetVar(data, p)
  {
    GroupsMore(data, more, p / 8, 0);
  }

  lemma FieldMore(data: seq<byte>, more: seq<byte>, p: nat, c: FieldCodec)
    requires GetField(data, p, c).Some?
    ensures GetField(data + more, p, c) == GetField(data, p, c)
  {
    hide GetBit, GetBits, GetAlign, GetVar, DecodeSint, RequiredBits;
    match c
    case Bool => BitMore(data, more, p);
    case UInt(bits) => BitsMore(data, more, p, bits);
    case SInt(bits) => BitsMore(data, more, p, bits);
    case FixedPoint(lo, hi, _) => BitsMore(data, more, p, FixedWidth(lo, hi));
    case VarUInt =>
      AlignMore(data, more, p);
      VarMore(data, more, GetAlign(data, p).value);
    case VarSInt =>
      AlignMore(data, more, p);
      VarMore(data, more, GetAlign(data, p).value);
  }

  lemma IdMore(data: seq<byte>, more: seq<byte>, p: nat)
    requires GetId(data, p).Some?
    ensures GetId(data + more, p) == GetId(data, p)
  {
    hide GetAlign, GetWord;
    AlignMore(data, more, p);
    WordMore(data, more, GetAlign(data, p).value, 4);
  }

  lemma HeadMore(body: seq<byte>, more: seq<byte>, limits: CodecLimits)
    requires GetHead(body, limits).Some? && GetHead(body + more, limits).Some?
    ensures GetHead(body + more, limits) == GetHead(body, limits)
  {
    hide GetAlign, GetVar;
    AlignMore(body, more, 0);
    VarMore(body, more, GetAlign(body, 0).value);
  }

  /** Reading stops at the end of the body or not at all. */
  lemma EndRefused<T>(body: seq<byte>, more: seq<byte>, p: nat, value: T)
    requires GetEnd(body, p, value).Some? && more != []
    ensures GetEnd(body + more, p, value) == None
  {
    hide GetAlign;
    AlignMore(body, more, p);
  }

  // ---- Destroys ----

  lemma {:induction false} IdsMore(data: seq<byte>, more: seq<byte>, p: nat, n: nat, prev: Option<u32>)
    requires GetIds(data, p, n, prev).Some?
    ensures GetIds(data + more, p, n, prev) == GetIds(data, p, n, prev)
    decreases n
  {
    hide GetId;
    if n > 0 {
      IdMore(data, more, p);
      var (id, q) := GetId(data, p).value;
      IdsMore(data, more, q, n - 1, Some(id));
    }
  }

  lemma DestroysEnd(body: seq<byte>, more: seq<byte>, limits: CodecLimits)
    requires GetDestroys(body, limits).Some? && more != []
    ensures GetDestroys(body + more, limits) == None
  {
    hide GetHead, GetIds, GetEnd;
    if GetHead(body + more, limits).Some? {
      HeadMore(body, more, limits);
      var (n, p) := GetHead(body, limits).value;
      IdsMore(body, more, p, n, None);
      var (ids, q) := GetIds(body, p, n, None).value;
      EndRefused(body, more, q, ids);
    }
  }

  // ---- Creates ----

  lemma {:induction false} ValuesMore(data: seq<byte>, more: seq<byte>, p: nat, fields: seq<FieldDef>)
    requires GetValues(data, p, fields).Some?
    ensures GetValues(data + more, p, fields) == GetValues(data, p, fields)
    decreases |fields|
  {
    hide GetField;
    if fields != [] {
      FieldMore(data, more, p, fields[0].codec);
      ValuesMore(data, more, GetField(data, p, fields[0].codec).value.1, fields[1..]);
    }
  }

  lemma FullMore(data: seq<byte>, more: seq<byte>, p: nat, d: ComponentDef, limits: CodecLimits)
    requires GetFull(data, p, d, limits).Some?
    ensures GetFull(data + more, p, d, limits) == GetFull(data, p, d, limits)
  {
    hide GetMask, GetValues;
    MaskMore(data, more, p, |d.fields|);
    ValuesMore(data, more, GetMask(data, p, |d.fields|).value.1, d.fields);
  }

  lemma {:induction false} FullsMore(data: seq<byte>, more: seq<byte>, p: nat, defs: seq<ComponentDef>, mask: seq<bool>,
                                     limits: CodecLimits)
    requires |mask| == |defs| && GetFulls(data, p, defs, mask, limits).Some?
    ensures GetFulls(data + more, p, defs, mask, limits) == GetFulls(data, p, defs, mask, limits)
    decreases |defs|
  {
    hide GetFull;
    if defs != [] {
      if mask[0] {
        FullMore(data, more, p, defs[0], limits);
        FullsMore(data, more, GetFull(data, p, defs[0], limits).value.1, defs[1..], mask[1..], limits);
      } else {
        FullsMore(data, more, p, defs[1..], mask[1..], limits);
      }
    }
  }

  lemma CreateMore(data: seq<byte>, more: seq<byte>, p: nat, schema: Schema, limits: CodecLimits)
    requires GetCreate(data, p, schema, limits).Some?
    ensures GetCreate(data + more, p, schema, limits) == GetCreate(data, p, schema, limits)
  {
    hide GetId, GetMask, GetFulls;
    IdMore(data, more, p);
    var p1 := GetId(data, p).value.1;
    MaskMore(data, more, p1, |schema.components|);
    var (mask, p2) := GetMask(data, p1, |schema.components|).value;
    FullsMore(data, more, p2, schema.components, mask, limits);
  }

  lemma {:induction false} CreateListMore(data: seq<byte>, more: seq<byte>, p: nat, schema: Schema, limits: CodecLimits,
                                          n: nat, prev: Option<u32>)
    requires GetCreateList(data, p, schema, limits, n, prev).Some?
    ensures GetCreateList(data + more, p, schema, limits, n, prev) == GetCreateList(data, p, schema, limits, n, prev)
    decreases n
  {
    hide GetCreate;
    if n > 0 {
      CreateMore(data, more, p, schema, limits);
      var (e, q) := GetCreate(data, p, schema, limits).value;
      CreateListMore(data, more, q, schema, limits, n - 1, Some(e.id));
    }
  }

  lemma CreatesEnd(body: seq<byte>, more: seq<byte>, schema: Schema, limits: CodecLimits)
    requires GetCreates(body, schema, limits).Some? && more != []
    ensures GetCreates(body + more, schema, limits) == None
  {
    hide GetHead, GetCreateList, GetEnd;
    if GetHead(body + more, limits).Some? {
      HeadMore(body, more, limits);
      var (n, p) := GetHead(body, limits).value;
      CreateListMore(body, more, p, schema, limits, n, None);
      var (es, q) := GetCreateList(body, p, schema, limits, n, None).value;
      EndRefused(body, more, q, es);
    }
  }

  // ---- Masked updates ----

  lemma {:induction false} SelectedMore(data: seq<byte>, more: seq<byte>, p: nat, fields: seq<FieldDef>,
                                        mask: seq<bool>,
                                        k: nat)
    requires k <= |mask| == |fields| && GetSelected(data, p, fields, mask, k).Some?
    ensures GetSelected(data + more, p, fields, mask, k) == GetSelected(data, p, fields, mask, k)
    decreases |mask| - k
  {
    hide GetField;
    if k < |mask| {
      if mask[k] {
        FieldMore(data, more, p, fields[k].codec);
        SelectedMore(data, more, GetField(data, p, fields[k].codec).value.1, fields, mask, k + 1);
      } else {
        SelectedMore(data, more, p, fields, mask, k + 1);
      }
    }
  }

  lemma MaskedComponentMore(data: seq<byte>, more: seq<byte>, p: nat, d: ComponentDef, limits: CodecLimits)
    requires GetMaskedComponent(data, p, d, limits).Some?
    ensures GetMaskedComponent(data + more, p, d, limits) == GetMaskedComponent(data, p, d, limits)
  {
    hide GetMask, GetSelected;
    MaskMore(data, more, p, |d.fields|);
    var (mask, q) := GetMask(data, p, |d.fields|).value;
    SelectedMore(data, more, q, d.fields, mask, 0);
  }

  lemma {:induction false} MaskedComponentsMore(data: seq<byte>, more: seq<byte>, p: nat, defs: seq<ComponentDef>,
                                                mask: seq<bool>, limits: CodecLimits)
    requires |mask| == |defs| && GetMaskedComponents(data, p, defs, mask, limits).Some?
    ensures GetMaskedComponents(data + more, p, defs, mask, limits) == GetMaskedComponents(data, p, defs, mask, limits)
    decreases |defs|
  {
    hide GetMaskedComponent;
    if defs != [] {
      if mask[0] {
        MaskedComponentMore(data, more, p, defs[0], limits);
        var q := GetMaskedComponent(data, p, defs[0], limits).value.1;
        MaskedComponentsMore(data, more, q, defs[1..], mask[1..], limits);
      } else {
        MaskedComponentsMore(data, more, p, defs[1..], mask[1..], limits);
      }
    }
  }

  lemma MaskedEntityMore(data: seq<byte>, more: seq<byte>, p: nat, schema: Schema, limits: CodecLimits)
    requires GetMaskedEntity(data, p, schema, limits).Some?
    ensures GetMaskedEntity(data + more, p, schema, limits) == GetMaskedEntity(data, p, schema, limits)
  {
    hide GetId, GetMask, GetMaskedComponents;
    IdMore(data, more, p);
    var p1 := GetId(data, p).value.1;
    MaskMore(data, more, p1, |schema.components|);
    var (mask, p2) := GetMask(data, p1, |schema.components|).value;
    MaskedComponentsMore(data, more, p2, schema.components, mask, limits);
  }

  lemma {:induction false} MaskedListMore(data: seq<byte>, more: seq<byte>, p: nat, schema: Schema, limits: CodecLimits,
                                          n: nat, prev: Option<u32>)
    requires GetMaskedList(data, p, schema, limits, n, prev).Some?
    ensures GetMaskedList(data + more, p, schema, limits, n, prev) == GetMaskedList(data, p, schema, limits, n, prev)
    decreases n
  {
    hide GetMaskedEntity;
    if n > 0 {
      MaskedEntityMore(data, more, p, schema, limits);
      var (u, q) := GetMaskedEntity(data, p, schema, limits).value;
      MaskedListMore(data, more, q, schema, limits, n - 1, Some(u.id));
    }
  }

  lemma MaskedEnd(body: seq<byte>, more: seq<byte>, schema: Schema, limits: CodecLimits)
    requires GetMasked(body, schema, limits).Some? && more != []
    ensures GetMasked(body + more, schema, limits) == None
  {
    hide GetHead, GetMaskedList, GetEnd;
    if GetHead(body + more, limits).Some? {
      HeadMore(body, more, limits);
      var (n, p) := GetHead(body, limits).value;
      MaskedListMore(body, more, p, schema, limits, n, None);
      var (us, q) := GetMaskedList(body, p, schema, limits, n, None).value;
      EndRefused(body, more, q, us);
    }
  }

  // ---- Sparse updates ----

  lemma IndexMore(layout: Layout, data: seq<byte>, more: seq<byte>, p: nat, d: ComponentDef)
    requires GetIndex(layout, data, p, d).Some?
    ensures GetIndex(layout, data + more, p, d) == GetIndex(layout, data, p, d)
  {
    hide GetAlign, GetVar, GetBits, IndexBits;
    match layout
    case Varint =>
      AlignMore(data, more, p);
      VarMore(data, more, GetAlign(data, p).value);
    case Packed => BitsMore(data, more, p, IndexBits(d));
  }

  lemma {:induction false} IndexedMore(layout: Layout, data: seq<byte>, more: seq<byte>, p: nat, d: ComponentDef,
                                       n: nat,
                                       lo: nat)
    requires GetIndexed(layout, data, p, d, n, lo).Some?
    ensures GetIndexed(layout, data + more, p, d, n, lo) == GetIndexed(layout, data, p, d, n, lo)
    decreases n
  {
    hide GetIndex, GetField;
    if n > 0 {
      IndexMore(layout, data, more, p, d);
      var (index, q) := GetIndex(layout, data, p, d).value;
      FieldMore(data, more, q, d.fields[index].codec);
      IndexedMore(layout, data, more, GetField(data, q, d.fields[index].codec).value.1, d, n - 1, index + 1);
    }
  }

  lemma EntryIdsMore(layout: Layout, data: seq<byte>, more: seq<byte>, p: nat)
    requires GetEntryIds(layout, data, p).Some?
    ensures GetEntryIds(layout, data + more, p) == GetEntryIds(layout, data, p)
  {
    hide GetAlign, GetVar, GetWord;
    AlignMore(data, more, p);
    var p1 := GetAlign(data, p).value;
    match layout
    case Varint =>
      WordMore(data, more, p1, 4);
      WordMore(data, more, GetU32(data, p1).value.1, 2);
    case Packed =>
      VarMore(data, more, p1);
      VarMore(data, more, GetVar(data, p1).value.1);
  }

  lemma EntryMore(layout: Layout, data: seq<byte>, more: seq<byte>, p: nat, schema: Schema, limits: CodecLimits)
    requires GetEntry(layout, data, p, schema, limits).Some?
    ensures GetEntry(layout, data + more, p, schema, limits) == GetEntry(layout, data, p, schema, limits)
  {
    hide GetEntryIds, GetVar, GetIndexed, FindDef;
    EntryIdsMore(layout, data, more, p);
    var ((entity, component), p1) := GetEntryIds(layout, data, p).value;
    VarMore(data, more, p1);
    var (n, p2) := GetVar(data, p1).value;
    IndexedMore(layout, data, more, p2, FindDef(schema.components, component).value, n, 0);
  }

  lemma {:induction false} EntriesMore(layout: Layout, data: seq<byte>, more: seq<byte>, p: nat, schema: Schema,
                                       limits: CodecLimits, n: nat, prev: Option<Entry>)
    requires GetEntries(layout, data, p, schema, limits, n, prev).Some?
    ensures GetEntries(layout, data + more, p, schema, limits, n, prev)
         == GetEntries(layout, data, p, schema, limits, n, prev)
    decreases n
  {
    hide GetEntry;
    if n > 0 {
      EntryMore(layout, data, more, p, schema, limits);
      var (e, q) := GetEntry(layout, data, p, schema, limits).value;
      EntriesMore(layout, data, more, q, schema, limits, n - 1, Some(e));
    }
  }

  lemma SparseEnd(layout: Layout, body: seq<byte>, more: seq<byte>, schema: Schema, limits: CodecLimits)
    requires GetSparse(layout, body, schema, limits).Some? && more != []
    ensures GetSparse(layout, body + more, schema, limits) == None
  {
    hide GetHead, GetEntries, GetEnd, Gather, EntryLimit;
    if GetHead(body + more, limits).Some? {
      HeadMore(body, more, limits);
      var (n, p) := GetHead(body, limits).value;
      EntriesMore(layout, body, more, p, schema, limits, n, None);
      var (es, q) := GetEntries(layout, body, p, schema, limits, n, None).value;
      EndRefused(body, more, q, Gather([], es));
    }
  }
}
