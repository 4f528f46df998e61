/** What readers make of any bytes at all, whoever wrote them. */
module Readings {
  import opened Core
  import opened Bits
  import opened Bitstream
  import opened Numerals
  import opened Schemas
  import opened Fields
  import opened Diffs
  import opened Layouts
  import opened BodyBits
  import opened Wire
  import opened WireBytes
  import opened Decoders
  import opened Apply
  import opened ApplyAlgebra
  import opened Soundness
  import opened Packets
  import opened FullSnapshots
  import opened Sessions

  // ---- Fields ----

  /** Aligning goes to the first byte boundary that is not before `p`, whatever bits are skipped. */
  lemma AlignRead(data: seq<byte>, p: nat, q: nat)
    ensures GetAlign(data, p) == Some(q) <==> q % 8 == 0 && p <= q < p + 8 && q <= 8 * |data|
  {
  }

  predicate IsVarint(c: FieldCodec) {
    c.VarUInt? || c.VarSInt?
  }

  lemma BitsRead(data: seq<byte>, p: nat, n: nat)
    requires GetBits(data, p, n).Some?
    ensures p + n <= 8 * |data| && PutBits(BitsOf(data)[..p], GetBits(data, p, n).value.0, n) == BitsOf(data)[..p + n]
    ensures GetBits(data, p, n).value.1 == p + n
  {
    hide BitsOf, ToBits, FromBits, Pow2;
    var all := BitsOf(data);
    ToFromBits(all[p..p + n]);
    assert all[..p] + all[p..p + n] == all[..p + n];
  }

  lemma SintPacked(bits: nat, raw: u64)
    requires 1 <= bits <= 64 && raw < Pow2(bits)
    ensures EncodeSint(bits, DecodeSint(bits, raw)) == raw
  {
    hide EncodeSint, DecodeSint;
    DecodeSintValue(bits, raw);
    Pow2Mono(bits - 1, 63);
    Pow2Values();
    Pow2Add(bits - 1, 1);
    EncodeSintValue(bits, DecodeSint(bits, raw));
  }

  lemma FieldCanonical(data: seq<byte>, p: nat, c: FieldCodec)
    requires !IsVarint(c) && GetField(data, p, c).Some?
    ensures var (v, q) := GetField(data, p, c).value;
            p <= q <= 8 * |data| && Encodable(c, v) && PutField(BitsOf(data)[..p], c, v) == BitsOf(data)[..q]
  {
    hide BitsOf, PutBits, GetBits, EncodeSint, DecodeSint, FixedWidth, Pow2;
    FieldSound(data, p, c);
    match c
    case Bool =>
      assert BitsOf(data)[..p] + [BitsOf(data)[p]] == BitsOf(data)[..p + 1];
    case UInt(bits) => BitsRead(data, p, bits);
    case SInt(bits) =>
      BitsRead(data, p, bits);
      FitsU64(GetBits(data, p, bits).value.0, bits);
      SintPacked(bits, GetBits(data, p, bits).value.0);
    case FixedPoint(lo, hi, _) => BitsRead(data, p, FixedWidth(lo, hi));
  }

  /**
   Fields of a fixed width have one form: what is read from any bits is in range and written as
   those very bits, and bits that are the form of no value are refused.
   */
  lemma FieldRead(data: seq<byte>, p: nat, c: FieldCodec, v: FieldValue, q: nat)
    requires !IsVarint(c)
    ensures GetField(data, p, c) == Some((v, q)) <==>
            p <= q <= 8 * |data| && Encodable(c, v) && PutField(BitsOf(data)[..p], c, v) == BitsOf(data)[..q]
  {
    hide BitsOf, GetField, PutField, Encodable;
    if GetField(data, p, c).Some? {
      FieldCanonical(data, p, c);
    }
    if p <= q <= 8 * |data| && Encodable(c, v) && PutField(BitsOf(data)[..p], c, v) == BitsOf(data)[..q] {
      FieldBack(data, BitsOf(data)[..p], c, v);
    }
  }

  /** A varint field is the varint on the next byte boundary, signed ones in zigzag, of however many groups. */
  lemma VarintRead(data: seq<byte>, p: nat, at: nat, end: nat, z: u32, i: i32)
    requires 8 * at - 8 < p <= 8 * at <= 8 * |data|
    ensures GetField(data, p, VarUInt) == Some((VVarUInt(z), 8 * end)) <==> VarAt(data, at) == Some((z, end))
    ensures GetField(data, p, VarSInt) == Some((VVarSInt(i), 8 * end)) <==> VarAt(data, at) == Some((ZigZag(i), end))
  {
    hide VarAt, ZigZag, UnZigZag;
    AlignRead(data, p, 8 * at);
    if VarAt(data, at).Some? {
      ZigZagBijection(i, VarAt(data, at).value.0);
    }
    ZigZagBijection(i, ZigZag(i));
  }

  // ---- Destroys ----

  lemma WordRead(data: seq<byte>, p: nat, w: u32)
    requires p % 8 == 0
    ensures GetId(data, p) == Some((w, p + 32)) <==>
            p + 32 <= 8 * |data| && data[p / 8..p / 8 + 4] == LittleEndian(w, 4)
    ensures GetId(data, p).Some? ==> GetId(data, p).value.1 == p + 32
  {
    hide LittleEndian, FromLittleEndian;
    assert Pow256(4) == 0x1_0000_0000;
    if p + 32 <= 8 * |data| {
      var four := data[p / 8..p / 8 + 4];
      ToFromLittleEndian(four);
      FromToLittleEndian(w, 4);
    }
  }

  lemma {:induction false} ToFromLittleEndian(bs: seq<byte>)
    ensures LittleEndian(FromLittleEndian(bs), |bs|) == bs
  {
    if bs != [] {
      ToFromLittleEndian(bs[1..]);
    }
  }


  lemma SortedFirst(id: u32, rest: seq<u32>)
    ensures SortedIds([id] + rest) <==> SortedIds(rest) && (rest != [] ==> id < rest[0])
  {
    var ids := [id] + rest;
    if SortedIds(ids) {
      assert rest != [] ==> ids[0] < ids[1];
      forall i, j | 0 <= i < j < |rest|
        ensures rest[i] < rest[j]
      {
        assert ids[i + 1] < ids[j + 1];
      }
    }
    if SortedIds(rest) && (rest != [] ==> id < rest[0]) {
      forall i, j | 0 <= i < j < |ids|
        ensures ids[i] < ids[j]
      {
        assert ids[j] == rest[j - 1];
        if i > 0 {
          assert ids[i] == rest[i - 1];
        } else if j > 1 {
          assert rest[0] < rest[j - 1];
        }
      }
    }
  }

  lemma {:induction false} WordsLength(ids: seq<u32>)
    ensures |Words(ids)| == 4 * |ids|
  {
    if ids != [] {
      WordsLength(ids[1..]);
    }
  }

  /** The ids that are read are the words that stand there, as long as they go up. */
  predicate IdsStand(data: seq<byte>, at: nat, n: nat, prev: Option<u32>, ids: seq<u32>) {
    && |ids| == n && at + 4 * n <= |data| && data[at..at + 4 * n] == Words(ids)
    && SortedIds(ids) && (ids != [] ==> After(prev, ids[0]))
  }

  lemma IdsStandStep(data: seq<byte>, at: nat, n: nat, prev: Option<u32>, id: u32, rest: seq<u32>)
    requires n > 0
    ensures IdsStand(data, at, n, prev, [id] + rest) <==>
            && at + 4 <= |data| && data[at..at + 4] == LittleEndian(id, 4) && After(prev, id)
            && IdsStand(data, at + 4, n - 1, Some(id), rest)
  {
    hide LittleEndian, SortedIds;
    var ids := [id] + rest;
    assert ids[1..] == rest;
    SortedFirst(id, rest);
    WordsLength(ids);
    WordsLength(rest);
    if at + 4 * n <= |data| {
      var all := data[at..at + 4 * n];
      assert all == data[at..at + 4] + data[at + 4..at + 4 * n];
      assert all[..4] == data[at..at + 4] && all[4..] == data[at + 4..at + 4 * n];
      assert Words(ids)[..4] == LittleEndian(id, 4) && Words(ids)[4..] == Words(rest);
    }
  }

  lemma GetIdsStep(data: seq<byte>, at: nat, n: nat, prev: Option<u32>, ids: seq<u32>, q: nat)
    requires n > 0
    ensures GetIds(data, 8 * at, n, prev) == Some((ids, q)) <==>
            && ids != [] && GetId(data, 8 * at) == Some((ids[0], 8 * at + 32)) && After(prev, ids[0])
            && GetIds(data, 8 * (at + 4), n - 1, Some(ids[0])) == Some((ids[1..], q))
  {
    hide GetId;
    var got := GetId(data, 8 * at);
    if got.Some? {
      WordRead(data, 8 * at, got.value.0);
      var rest := GetIds(data, 8 * (at + 4), n - 1, Some(got.value.0));
      if rest.Some? {
        assert ([got.value.0] + rest.value.0)[1..] == rest.value.0;
      }
    }
    assert ids != [] ==> ids == [ids[0]] + ids[1..];
  }

  lemma NoIds(data: seq<byte>, at: nat, prev: Option<u32>, ids: seq<u32>, q: nat)
    requires at <= |data|
    ensures GetIds(data, 8 * at, 0, prev) == Some((ids, q)) <==> q == 8 * at && IdsStand(data, at, 0, prev, ids)
  {
    assert data[at..at] == [];
  }

  lemma StandLength(data: seq<byte>, at: nat, n: nat, prev: Option<u32>, ids: seq<u32>)
    requires IdsStand(data, at, n, prev, ids)
    ensures |ids| == n
  {
  }

  lemma {:induction false} IdsRead(data: seq<byte>, at: nat, n: nat, prev: Option<u32>, ids: seq<u32>, q: nat)
    requires at <= |data|
    ensures GetIds(data, 8 * at, n, prev) == Some((ids, q)) <==>
            q == 8 * (at + 4 * n) && IdsStand(data, at, n, prev, ids)
    decreases n
  {
    hide GetId, GetIds, LittleEndian, IdsStand, Words, SortedIds;
    if n == 0 {
      NoIds(data, at, prev, ids, q);
    } else if ids == [] {
      GetIdsStep(data, at, n, prev, ids, q);
      if IdsStand(data, at, n, prev, ids) {
        StandLength(data, at, n, prev, ids);
      }
    } else {
      GetIdsStep(data, at, n, prev, ids, q);
      WordRead(data, 8 * at, ids[0]);
      IdsStandStep(data, at, n, prev, ids[0], ids[1..]);
      assert ids == [ids[0]] + ids[1..];
      if at + 4 <= |data| {
        IdsRead(data, at + 4, n - 1, Some(ids[0]), ids[1..], q);
      }
    }
  }

  /**
   Which bodies are destroys: no longer than the limit, a count within the limit, exactly as many
   words after it, and those are the ids, strictly going up.
   */
  lemma DestroysRead(body: seq<byte>, limits: CodecLimits, ids: seq<u32>)
    ensures GetDestroys(body, limits) == Some(ids) <==>
            && |body| <= limits.maxSectionBytes
            && VarAt(body, 0).Some?
            && var (n, at) := VarAt(body, 0).value;
               && n == |ids| <= limits.maxEntitiesDestroy
               && body[at..] == Words(ids)
               && SortedIds(ids)
  {
    hide VarAt, Words, SortedIds, GetIds;
    AlignRead(body, 0, 0);
    WordsLength(ids);
    if |body| <= limits.maxSectionBytes && VarAt(body, 0).Some? {
      var (n, at) := VarAt(body, 0).value;
      assert at + 4 * n == |body| ==> body[at..] == body[at..at + 4 * n];
      if GetIds(body, 8 * at, n, None).Some? {
        var (got, q) := GetIds(body, 8 * at, n, None).value;
        IdsRead(body, at, n, None, got, q);
        AlignRead(body, q, q);
      }
      IdsRead(body, at, n, None, ids, 8 * (at + 4 * n));
      AlignRead(body, 8 * (at + 4 * n), 8 * (at + 4 * n));
    }
  }

  // ---- Packets ----

  /** An init body is nine bytes, the id in eight of them, zero for none, and a one. */
  lemma InitRead(body: seq<byte>, limits: CodecLimits, id: Option<u64>)
    ensures GetInit(body, limits) == Some(id) <==>
            && |body| == 9 && 9 <= limits.maxSectionBytes && body[8] == 1
            && (id.None? ==> body[..8] == [0, 0, 0, 0, 0, 0, 0, 0])
            && (id.Some? ==> id.value != 0 && body[..8] == LittleEndian(id.value, 8))
  {
    hide LittleEndian, FromLittleEndian;
    Zeros();
    assert Pow256(8) == 0x1_0000_0000_0000_0000;
    if |body| >= 9 {
      ToFromLittleEndian(body[..8]);
    }
    if id.Some? {
      FromToLittleEndian(id.value, 8);
    }
    FromToLittleEndian(0, 8);
  }

  lemma Zeros()
    ensures LittleEndian(0, 8) == [0, 0, 0, 0, 0, 0, 0, 0]
  {
  }

  /** Which packets are a full snapshot for a receiver with this schema, and of what. */
  lemma FullRead(schema: Schema, hash: u64, p: Packet, limits: CodecLimits, s: Snapshot)
    ensures ReadFull(schema, hash, p, limits) == Some(s) <==>
            && p.header.flags % 2 == 1 && p.header.baselineTick == 0 && p.header.schemaHash == hash
            && s.tick == p.header.tick
            && ((p.sections == [] && s.entities == [])
                || (exists body :: p.sections == [Section(EntityCreate, body)]
                                   && |schema.components| <= limits.maxComponentsPerEntity
                                   && GetCreates(body, schema, limits) == Some(s.entities)))
  {
    hide GetCreates;
    if |p.sections| == 1 {
      var body := p.sections[0].body;
      assert p.sections[0].tag == EntityCreate ==> p.sections == [Section(EntityCreate, body)];
    }
  }

  /** Which packets are a session init for a receiver with this schema, and of which session. */
  lemma InitPacketRead(hash: u64, p: Packet, limits: CodecLimits, id: Option<u64>)
    ensures ReadInit(hash, p, limits) == Some(id) <==>
            && p.header.flags / 4 % 2 == 1 && p.header.flags % 4 == 0
            && p.header.baselineTick == 0 && p.header.schemaHash == hash
            && exists body :: p.sections == [Section(SessionInit, body)] && GetInit(body, limits) == Some(id)
  {
    hide GetInit;
    if |p.sections| == 1 {
      var body := p.sections[0].body;
      assert p.sections[0].tag == SessionInit ==> p.sections == [Section(SessionInit, body)];
    }
  }

  /**
   Which packets apply to a baseline: deltas of this schema against that very tick, a baseline in id
   order that is not at tick zero, and a delta whose destroyed ids are there, whose created ids are
   new, and whose updates have their entities, components and fields, within the limit.
   */
  lemma AppliedIff(schema: Schema, hash: u64, baseline: Snapshot, p: Packet, limits: CodecLimits)
    requires ValidSchema(schema)
    ensures ApplyPacket(schema, hash, baseline, p, limits).Some? <==>
            && p.header.flags / 2 % 2 == 1 && p.header.schemaHash == hash
            && p.header.baselineTick == baseline.tick != 0
            && Sorted(baseline.entities)
            && GetDelta(p.sections, schema, limits).Some?
            && var m, d := EntityMap(baseline.entities), GetDelta(p.sections, schema, limits).value;
               var all := m - IdSet(d.destroys) + EntityMap(d.creates);
               && IdSet(d.destroys) <= m.Keys
               && (m.Keys - IdSet(d.destroys)) !! EntityMap(d.creates).Keys
               && |all| <= limits.maxTotalEntitiesAfterApply
               && EntitiesFit(all, d.updates)
  {
    hide GetDelta, ApplyDelta, EntitiesFit, IdSet, EntityMap, Sorted, ValidComponents, UniqueIds;
    if GetDelta(p.sections, schema, limits).Some? {
      DeltaSound(p.sections, schema, limits);
      ApplyIff(EntityMap(baseline.entities), GetDelta(p.sections, schema, limits).value, limits);
    }
  }
}
