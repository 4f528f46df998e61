/**
 From the graph to a client in packets: the lists of a build are encoded as a change-list packet,
 and the client decodes the bytes and applies them to its copy.
 */
module Delivery {
  import opened Core
  import opened Schemas
  import opened Diffs
  import opened Layouts
  import opened Encodings
  import opened Wire
  import opened Sections
  import opened Payloads
  import opened Decoders
  import opened ChangeLists
  import opened Apply
  import opened Rebuilding
  import opened Packets
  import opened RoundTrip
  import opened ListRoundTrip
  import opened Graphs
  import opened Mirroring
  import opened Convergence

  /**
   The settings both ends share, the size of the send buffer, and the tick of the empty snapshot a
   new client holds.
   */
  datatype Link = Link(schema: Schema, hash: u64, limits: CodecLimits, wire: WireLimits, buffer: nat, start: u32)

  /** A client's copy of the world, and the tick it has it from. */
  datatype Copy = Copy(tick: u32, entities: map<u32, EntitySnapshot>)

  predicate Encodable(link: Link, d: Delta) {
    && HEADER_SIZE <= link.buffer && ListsOk(link.schema, d, link.limits)
    && PayloadFits(DeltaSections(link.schema, d, Sparse), link.buffer - HEADER_SIZE, link.limits)
  }

  function Encoded(link: Link, tick: u32, baselineTick: u32, d: Delta): Option<seq<byte>> {
    if Encodable(link, d) then Some(DeltaPacket(link.hash, tick, baselineTick, DeltaSections(link.schema, d, Sparse)))
    else None
  }

  /** The client's copy after lists were encoded against it, and the packet parsed, decoded and applied. */
  function Carry(link: Link, tick: u32, copy: Copy, d: Delta): Option<Copy> {
    var bytes :- Encoded(link, tick, copy.tick, d);
    var p :- GetPacket(bytes, link.wire);
    var decoded :- ReadDelta(link.schema, link.hash, p, link.limits);
    if decoded.baselineTick != copy.tick then None
    else
      var entities :- ApplyDelta(copy.entities, decoded.delta, link.limits);
      Some(Copy(decoded.tick, entities))
  }

  /** The library calls that carry lists from a server to a client, in the order in which they are made. */
  method SendChanges(link: Link, tick: u32, baseline: Snapshot, d: Delta,
                     out: array<byte>) returns (r: Option<Snapshot>)
    requires ValidSchema(link.schema) && out.Length == link.buffer && Sorted(baseline.entities)
    modifies out
    ensures var copy := Carry(link, tick, Copy(baseline.tick, EntityMap(baseline.entities)), d);
            && (r.Some? <==> copy.Some?)
            && (r.Some? ==> SnapshotIs(r.value, copy.value.tick, copy.value.entities))
  {
    hide ListsOk, DeltaSections, GetPacket, GetDelta, ApplyDelta, EntityMap, Sorted, ValidSchema;
    var len := EncodeDeltaSnapshotFromUpdates(link.schema, link.hash, tick, baseline.tick, d, link.limits, out, 0,
                                              out.Length);
    if len.None? {
      return None;
    }
    assert out[0..len.value] == out[..len.value];
    r := ApplyDeltaSnapshot(link.schema, link.hash, baseline, out[..len.value], link.wire, link.limits);
  }

  // ---- What the packet changes ----

  /** All that has to hold for a packet with these lists to be written, parsed and decoded. */
  predicate Carriable(link: Link, baselineTick: u32, d: Delta) {
    && Encodable(link, d)
    && baselineTick != 0
    && WireAllows(DeltaSections(link.schema, d, Sparse), link.wire)
    && ListsAscend(d.updates)
  }

  predicate OwnIds(m: map<u32, EntitySnapshot>) {
    forall id :: id in m ==> m[id].id == id
  }

  /** Updates without components change nothing where they can be applied. */
  lemma {:induction false} EmptyNoOp(m: map<u32, EntitySnapshot>, us: seq<UpdateEntity>)
    requires OwnIds(m) && forall u :: u in us && u.components == [] ==> u.id in m
    ensures SetEntities(m, WithoutEmpty(us)) == SetEntities(m, us)
    decreases |us|
  {
    hide SetComponents;
    if us != [] {
      var rest := WithoutEmpty(us[1..]);
      assert us == [us[0]] + us[1..];
      if us[0].components == [] {
        NoneSet(m[us[0].id].components);
        assert m[us[0].id := m[us[0].id]] == m;
        assert WithoutEmpty(us) == rest by { assert [] + rest == rest; }
        EmptyNoOp(m, us[1..]);
      } else {
        assert WithoutEmpty(us)[1..] == rest;
        if SetEntity(m, us[0]).Some? {
          EmptyNoOp(SetEntity(m, us[0]).value, us[1..]);
        }
      }
    }
  }

  lemma NoneSet(cs: seq<ComponentSnapshot>)
    ensures SetComponents(cs, []) == Some(cs)
  {
  }

  lemma {:induction false} OwnEntities(es: seq<EntitySnapshot>)
    ensures OwnIds(EntityMap(es))
  {
    if es != [] {
      OwnEntities(es[1..]);
    }
  }

  /** Lists the client can apply, as far as ids go. */
  predicate IdsApply(known: set<u32>, d: Delta) {
    && IdSet(d.destroys) <= known
    && (known - IdSet(d.destroys)) !! EntityMap(d.creates).Keys
    && UpdatesWithin(d.updates, known - IdSet(d.destroys) + EntityMap(d.creates).Keys)
  }

  lemma WithoutEmptyApplies(m: map<u32, EntitySnapshot>, d: Delta, limits: CodecLimits)
    requires OwnIds(m) && IdsApply(m.Keys, d)
    ensures ApplyDelta(m, d.(updates := WithoutEmpty(d.updates)), limits) == ApplyDelta(m, d, limits)
  {
    hide IdSet, EntityMap, SetEntities, WithoutEmpty, ApplyDelta;
    var all := m - IdSet(d.destroys) + EntityMap(d.creates);
    OwnEntities(d.creates);
    ApplyParts(m, d, limits);
    ApplyParts(m, d.(updates := WithoutEmpty(d.updates)), limits);
    EmptyNoOp(all, d.updates);
  }

  /**
   Lists in a packet, exactly. They arrive if and only if they can be written, parsed and decoded;
   what arrives applies as the lists do, with created entities in schema order.
   */
  lemma CarryIff(link: Link, tick: u32, copy: Copy, d: Delta)
    requires ValidSchema(link.schema) && AllCountsFit(d.updates) && OwnIds(copy.entities)
             && IdsApply(copy.entities.Keys, d)
    ensures Carry(link, tick, copy, d)
         == if !Carriable(link, copy.tick, d) then None
            else match ApplyDelta(copy.entities, Received(link.schema, d), link.limits)
                 case None => None
                 case Some(m) => Some(Copy(tick, m))
  {
    hide DeltaSections, GetPacket, ReadDelta, ApplyDelta, EntityMap, ValidSchema, IdSet, WireAllows, ListsAscend,
      WithoutEmpty, AllCountsFit, OwnIds, UpdatesWithin, NormalAll;
    if Encodable(link, d) {
      ListsRoundTrip(link.schema, link.hash, tick, copy.tick, d, link.limits, link.wire, link.buffer - HEADER_SIZE);
      ReceivedIds(link.schema, copy.entities.Keys, d);
      WithoutEmptyApplies(copy.entities, Received(link.schema, d), link.limits);
    }
  }

  lemma ReceivedIds(schema: Schema, known: set<u32>, d: Delta)
    requires IdsApply(known, d)
    ensures IdsApply(known, Received(schema, d))
  {
    hide EntityMap, IdSet, UpdatesWithin, NormalAll;
    NormalMap(schema, d.creates);
  }

  // ---- One build, in a packet ----

  /** What is created in view lists its components in schema order, as decoders do. */
  predicate CreatesInOrder(schema: Schema, d: Delta) {
    forall id :: id in EntityMap(d.creates) ==> InOrder(schema.components, EntityMap(d.creates)[id].components)
  }

  lemma BuildIdsApply(g: Graph, c: Client, world: WorldView)
    requires RightIds(world) && Separate(g)
    ensures IdsApply(c.known, DeltaFor(g, c, world))
  {
    var d := DeltaFor(g, c, world);
    BuiltIds(g, c, world);
    DeltaLists(g, c, world);
  }

  lemma NormalEntityIff(schema: Schema, e: EntitySnapshot)
    requires UniqueIds(schema.components)
    ensures NormalEntity(schema, e) == e <==> InOrder(schema.components, e.components)
  {
    hide Normal, InOrder, UniqueIds;
    NormalIff(schema.components, e.components);
  }

  /**
   One build in a packet, exactly. The client ends up with exactly what the world shows it if and
   only if the packet can be written, parsed and decoded, created entities list their components in
   schema order, the result is within the limit, nothing that comes or leaves is cut off, and each
   copy still in view is brought up to date by the update that reaches it or is so already.
   */
  lemma BuildCarried(link: Link, tick: u32, g: Graph, c: Client, world: WorldView, copy: Copy)
    requires ValidSchema(link.schema) && RightIds(world) && Separate(g)
    requires copy.entities.Keys == c.known && OwnIds(copy.entities) && AllCountsFit(DeltaFor(g, c, world).updates)
    ensures Carry(link, tick, copy, DeltaFor(g, c, world)) == Some(Copy(tick, Visible(g, c.view, world)))
       <==> && Carriable(link, copy.tick, DeltaFor(g, c, world))
            && CreatesInOrder(link.schema, DeltaFor(g, c, world))
            && |Relevant(g, c.view)| <= link.limits.maxTotalEntitiesAfterApply
            && ListsFit(g, c)
            && (forall id :: id in c.known && id in Relevant(g, c.view) ==>
                  Refreshed(g, c, world, id, copy.entities[id]))
  {
    hide Carriable, Carry, InOrder, NormalEntity, Separate, Sorted, SortedUpdates, ValidComponents, UniqueIds;
    var d := DeltaFor(g, c, world);
    var creates := NormalAll(link.schema, d.creates);
    BuildIdsApply(g, c, world);
    CarryIff(link, tick, copy, d);
    NormalMap(link.schema, d.creates);
    BuiltIds(g, c, world);
    BuildConvergesAs(g, c, world, copy.entities, link.limits, creates);
    forall id | id in EntityMap(d.creates)
      ensures EntityMap(creates)[id] == world.snapshot(id)
         <==> InOrder(link.schema.components, EntityMap(d.creates)[id].components)
    {
      NormalEntityIff(link.schema, EntityMap(d.creates)[id]);
    }
  }
}
