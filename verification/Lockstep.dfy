/**
 Whole runs of a session: a server that encodes each snapshot against a baseline it selects, a
 client that receives every packet in order, and the ring of baselines each of them keeps.
 */
module Lockstep {
  import opened Core
  import opened Bitstream
  import opened Schemas
  import opened Diffs
  import opened Layouts
  import UpdateLayouts
  import opened Encodings
  import opened Wire
  import opened Varints
  import opened Sections
  import opened Payloads
  import opened Decoders
  import opened Apply
  import opened Rebuilding
  import opened Exactness
  import opened Drift
  import opened Packets
  import opened FullSnapshots
  import opened RoundTrip
  import opened SessionHeaders
  import opened Sessions
  import opened Baselines

  datatype Config = Config(schema: Schema, hash: u64, limits: CodecLimits, wire: WireLimits, capacity: nat, room: nat)

  /** A schema that was validated, a ring that holds something, and a buffer whose payload length fits 32 bits. */
  predicate Sound(c: Config) {
    ValidSchema(c.schema) && c.capacity > 0 && c.room < 0x1_0000_0000
  }

  datatype Peer = Peer(lastTick: u32, ring: seq<Entry<Snapshot>>)

  datatype World = World(server: Peer, client: Peer)

  /** The server wants to send a snapshot to a client that has acknowledged a tick. */
  datatype Event = Event(current: Snapshot, ack: u32)

  datatype Sent = Sent(server: Peer, bytes: seq<byte>)

  /** A successful encoding moves the last tick and keeps the snapshot; a failed one changes nothing. */
  function Send(c: Config, server: Peer, ev: Event): Option<Sent> {
    var best :- LatestUpTo(server.ring, ev.ack);
    var tick := ev.current.tick;
    var ss := ScanSections(c.schema, best.value, ev.current, AlwaysSparse);
    if SessionOk(c.schema, server.lastTick, tick, best.tick, best.value, ev.current, c.limits)
       && PayloadFits(ss, c.room, c.limits)
    then Some(Sent(Peer(tick, Inserted(c.capacity, server.ring, Entry(tick, ev.current))),
                   SessionPacket(tick - server.lastTick, tick - best.tick, ss)))
    else None
  }

  /** The tick and the entities the client makes of a packet. */
  function Receive(c: Config, client: Peer, bytes: seq<byte>): Option<(u32, map<u32, EntitySnapshot>)> {
    var p :- ReadSession(c.hash, client.lastTick, bytes, c.wire);
    var base :- Lookup(client.ring, p.header.baselineTick);
    var m :- ApplyPacket(c.schema, c.hash, base, p, c.limits);
    Some((p.header.tick, m))
  }

  /** The client keeps what it received. When it cannot, only its last tick may have moved. */
  predicate ClientStep(c: Config, before: Peer, bytes: seq<byte>, after: Peer) {
    match Receive(c, before, bytes)
    case Some(tm) =>
      && after.lastTick == tm.0
      && after.ring != []
      && SnapshotIs(after.ring[|after.ring| - 1].value, tm.0, tm.1)
      && after.ring == Inserted(c.capacity, before.ring, Entry(tm.0, after.ring[|after.ring| - 1].value))
    case None => after.ring == before.ring
  }

  predicate Step(c: Config, before: World, ev: Event, after: World) {
    match Send(c, before.server, ev)
    case None => after == before
    case Some(sent) => after.server == sent.server && ClientStep(c, before.client, sent.bytes, after.client)
  }

  predicate Run(c: Config, events: seq<Event>, worlds: seq<World>) {
    |worlds| == |events| + 1 && forall i :: 0 <= i < |events| ==> Step(c, worlds[i], events[i], worlds[i + 1])
  }

  // ---- The invariant ----

  /** Values in range, where a bound on the drift is claimed and fields have thresholds. */
  predicate Measured(c: Config, k: Option<nat>, s: Snapshot) {
    k.Some? ==>
      AlwaysSent(c.schema.components)
      || (TameSchema(c.schema.components) && InRange(c.schema, c.limits, EntityMap(s.entities)))
  }

  predicate EntryAgrees(c: Config, k: Option<nat>, x: Entry<Snapshot>, y: Entry<Snapshot>) {
    && x.tick == y.tick == x.value.tick == y.value.tick && x.tick > 0
    && Sorted(x.value.entities) && Sorted(y.value.entities)
    && Measured(c, k, x.value)
    && Shadows(c.schema, k, EntityMap(x.value.entities), EntityMap(y.value.entities))
  }

  predicate RingsAgree(c: Config, k: Option<nat>, server: seq<Entry<Snapshot>>, client: seq<Entry<Snapshot>>,
                       last: u32) {
    && |server| == |client|
    && Increasing(server)
    && forall i :: 0 <= i < |server| ==> server[i].tick <= last && EntryAgrees(c, k, server[i], client[i])
  }

  /** Equal last ticks, the same baselines on both sides, and every client snapshot shadowing the server's. */
  predicate InSync(c: Config, k: Option<nat>, w: World) {
    w.server.lastTick == w.client.lastTick && RingsAgree(c, k, w.server.ring, w.client.ring, w.server.lastTick)
  }

  /** What the receiver asks of a packet: its own limits on sections and entities, and ids in the order it decodes. */
  predicate Acceptable(c: Config, baseline: Snapshot, current: Snapshot) {
    && SessionAllows(ScanSections(c.schema, baseline, current, AlwaysSparse), c.wire)
    && Decodable(Sparse, Diff(c.schema, baseline.entities, current.entities).updates)
    && |current.entities| <= c.limits.maxTotalEntitiesAfterApply
  }

  /** Either nothing is sent, or the receiver can take it. */
  predicate Deliverable(c: Config, server: Peer, ev: Event) {
    Send(c, server, ev).Some? ==> Acceptable(c, LatestUpTo(server.ring, ev.ack).value.value, ev.current)
  }

  // ---- Sections within the wire limits ----

  lemma {:induction false} FitsWithin(ss: seq<Section>, room: nat, limits: CodecLimits, wire: WireLimits, k: nat)
    requires PayloadFits(ss, room, limits)
             && (limits.maxSectionBytes <= wire.maxSectionLen || room <= wire.maxSectionLen)
    requires k + |ss| <= wire.maxSections
    ensures WithinLimits(ss, wire, k)
    decreases |ss|
  {
    hide VarBytes;
    if ss != [] {
      VarLenAgrees(|ss[0].body|);
      FitsWithin(ss[1..], room - |SectionBytes(ss[0])|, limits, wire, k + 1);
    }
  }

  lemma {:induction false} FitsRoom(ss: seq<Section>, room: nat, limits: CodecLimits)
    requires PayloadFits(ss, room, limits)
    ensures |SectionsBytes(ss)| <= room
    decreases |ss|
  {
    hide VarBytes;
    if ss != [] {
      VarLenAgrees(|ss[0].body|);
      FitsRoom(ss[1..], room - |SectionBytes(ss[0])|, limits);
    }
  }

  lemma AtMostThree(schema: Schema, d: Delta, encoding: UpdateEncoding)
    ensures |DeltaSections(schema, d, encoding)| <= 3
  {
    hide DestroySection, CreateSection, UpdateSection;
  }

  // ---- Settings under which everything can be delivered ----

  /** Components listed by ascending id, and a wire that takes every section the codec or the buffer lets through. */
  predicate Compatible(c: Config) {
    && Sound(c) && Ascending(c.schema.components) && c.wire.maxSections >= 3
    && (c.limits.maxSectionBytes <= c.wire.maxSectionLen || c.room <= c.wire.maxSectionLen)
  }

  /** Compatible ends: every snapshot within the entity limit can be delivered. */
  lemma CompatibleDelivers(c: Config, server: Peer, ev: Event)
    requires Compatible(c) && |ev.current.entities| <= c.limits.maxTotalEntitiesAfterApply
    ensures Deliverable(c, server, ev)
  {
    hide LatestUpTo, ScanOk, Diff, Decodable;
    if Send(c, server, ev).Some? {
      var best := LatestUpTo(server.ring, ev.ack).value;
      var d := Diff(c.schema, best.value.entities, ev.current.entities);
      AtMostThree(c.schema, d, Sparse);
      FitsRoom(DeltaSections(c.schema, d, Sparse), c.room, c.limits);
      FitsWithin(DeltaSections(c.schema, d, Sparse), c.room, c.limits, c.wire, 0);
      ScanTick(c.schema, best.tick, best.value, ev.current, c.limits);
      AscendingDecodable(c.schema, best.value, ev.current, c.limits, AlwaysSparse);
    }
  }

  lemma ScanTick(schema: Schema, tick: u32, baseline: Snapshot, current: Snapshot, limits: CodecLimits)
    requires ScanOk(schema, tick, baseline, current, limits, AlwaysSparse)
    ensures baseline.tick == tick
  {
    hide DiffOk;
  }

  // ---- One step ----

  lemma {:induction false} LatestIndex(es: seq<Entry<Snapshot>>, tick: u32) returns (j: nat)
    requires LatestUpTo(es, tick).Some?
    ensures j < |es| && LatestUpTo(es, tick) == Some(es[j])
  {
    if es[|es| - 1].tick <= tick {
      j := |es| - 1;
    } else {
      j := LatestIndex(es[..|es| - 1], tick);
    }
  }

  /**
   Both sides find the same entry: the server by searching back from the acknowledged tick, the
   client by exact tick.
   */
  lemma SameBaseline(c: Config, k: Option<nat>, w: World, ack: u32) returns (j: nat)
    requires InSync(c, k, w) && LatestUpTo(w.server.ring, ack).Some?
    ensures j < |w.server.ring| == |w.client.ring|
    ensures LatestUpTo(w.server.ring, ack).value == w.server.ring[j]
    ensures Lookup(w.client.ring, w.server.ring[j].tick) == Some(w.client.ring[j].value)
    ensures EntryAgrees(c, k, w.server.ring[j], w.client.ring[j])
  {
    hide EntryAgrees;
    j := LatestIndex(w.server.ring, ack);
    forall i | 0 <= i < |w.server.ring|
      ensures w.client.ring[i].tick == w.server.ring[i].tick
    {
      AgreeTicks(c, k, w.server.ring[i], w.client.ring[i]);
    }
    LookupAt(w.client.ring, j);
  }

  lemma AgreeTicks(c: Config, k: Option<nat>, x: Entry<Snapshot>, y: Entry<Snapshot>)
    requires EntryAgrees(c, k, x, y)
    ensures x.tick == y.tick
  {
  }

  function PacketFor(c: Config, lastTick: u32, baseline: Snapshot, current: Snapshot): seq<byte>
    requires lastTick <= current.tick && baseline.tick <= current.tick
  {
    SessionPacket(current.tick - lastTick, current.tick - baseline.tick,
                  ScanSections(c.schema, baseline, current, AlwaysSparse))
  }

  /** A receiver at the sender's last tick parses the packet if its limits allow it, and decodes it if ids ascend. */
  predicate ReadsBack(c: Config, lastTick: u32, baseline: Snapshot, current: Snapshot)
    requires lastTick <= current.tick && baseline.tick <= current.tick
  {
    var d := Diff(c.schema, baseline.entities, current.entities);
    var p := ReadSession(c.hash, lastTick, PacketFor(c, lastTick, baseline, current), c.wire);
    && (p.Some? <==> SessionAllows(ScanSections(c.schema, baseline, current, AlwaysSparse), c.wire))
    && (p.Some? ==>
          && p.value.header.tick == current.tick && p.value.header.baselineTick == baseline.tick
          && ReadDelta(c.schema, c.hash, p.value, c.limits)
             == if Decodable(Sparse, d.updates)
                then Some(DeltaDecoded(current.tick, baseline.tick, Received(c.schema, d))) else None)
  }

  /** The packet read back by a client with the same last tick. */
  lemma PacketArrives(c: Config, lastTick: u32, baseline: Snapshot, current: Snapshot)
    requires Sound(c) && baseline.tick > 0
    requires SessionOk(c.schema, lastTick, current.tick, baseline.tick, baseline, current, c.limits)
    requires PayloadFits(ScanSections(c.schema, baseline, current, AlwaysSparse), c.room, c.limits)
    ensures ReadsBack(c, lastTick, baseline, current)
  {
    hide SectionsBytes, ReadSession, GetDelta, ScanOk, Diff, Received, ValidSchema, Decodable;
    var ss := ScanSections(c.schema, baseline, current, AlwaysSparse);
    FitsRoom(ss, c.room, c.limits);
    ScanBack(c.schema, baseline, current, c.limits, AlwaysSparse, c.room);
    SessionPacketBack(c.hash, current.tick, baseline.tick, ss, [], lastTick, lastTick, c.wire);
    var bytes := SessionPacket(current.tick - lastTick, current.tick - baseline.tick, ss);
    assert bytes + [] == bytes;
    DeltaFlags();
  }

  lemma ScanParts(schema: Schema, baseline: Snapshot, current: Snapshot, limits: CodecLimits)
    requires ScanOk(schema, baseline.tick, baseline, current, limits, AlwaysSparse)
    ensures Sorted(baseline.entities) && Sorted(current.entities)
    ensures AllComparable(schema, limits, Common(baseline.entities, current.entities))
    ensures AllCreateOk(schema, limits, Missing(current.entities, baseline.entities))
  {
    hide AllComparable, AllCreateOk, Common, Missing, UpdateLayouts.ChangesEncodable, DiffPairs,
      UpdateLayouts.Entries;
  }

  /**
   A client that shadows the baseline receives a packet of the server: it takes the packet exactly
   when the packet is acceptable, and the result then shadows the new snapshot.
   */
  lemma PacketApplied(c: Config, k: Option<nat>, next: Option<nat>, lastTick: u32, x: Entry<Snapshot>,
                      y: Entry<Snapshot>, current: Snapshot, client: Peer)
    requires Sound(c) && EntryAgrees(c, k, x, y)
    requires client.lastTick == lastTick && Lookup(client.ring, x.tick) == Some(y.value)
    requires Measured(c, next, current) && (next.Some? ==> k.Some? && k.value + 1 <= next.value)
    requires SessionOk(c.schema, lastTick, current.tick, x.tick, x.value, current, c.limits)
    requires PayloadFits(ScanSections(c.schema, x.value, current, AlwaysSparse), c.room, c.limits)
    ensures var got := Receive(c, client, PacketFor(c, lastTick, x.value, current));
            && (got.Some? <==> Acceptable(c, x.value, current))
            && (got.Some? ==>
                  got.value.0 == current.tick
                  && Shadows(c.schema, next, EntityMap(current.entities), got.value.1))
    ensures Sorted(current.entities)
  {
    hide ScanSections, ReadSession, Diff, Shadows, ScanOk, EntityMap, RebuiltOnto, ApplyDelta, GetDelta, ReadDelta,
      ValidComponents, UniqueIds, Mirrors, TameStep, Lookup;
    var base, curr := x.value.entities, current.entities;
    var mine := EntityMap(y.value.entities);
    PacketArrives(c, lastTick, x.value, current);
    ScanParts(c.schema, x.value, current, c.limits);
    ShadowsMirror(c.schema, k, EntityMap(base), mine);
    ApplyDiffOnto(c.schema, c.limits, mine, base, curr);
    if next.Some? {
      TameSteps(c.schema, c.limits, EntityMap(base), EntityMap(curr));
    }
    ShadowStep(c.schema, c.limits, k, next, mine, base, curr);
  }

  lemma EntryAgreesMore(c: Config, k: Option<nat>, next: Option<nat>, x: Entry<Snapshot>, y: Entry<Snapshot>)
    requires EntryAgrees(c, k, x, y) && (next.Some? ==> k.Some? && k.value <= next.value)
    ensures EntryAgrees(c, next, x, y)
  {
    hide Shadows, EntityMap, AlwaysSent, TameSchema, InRange, Sorted;
    ShadowsMore(c.schema, k, next, EntityMap(x.value.entities), EntityMap(y.value.entities));
  }

  /** Two rings that agree still agree once both take in agreeing entries with a new highest tick. */
  lemma RingsGrow(c: Config, k: Option<nat>, next: Option<nat>, server: seq<Entry<Snapshot>>,
                  client: seq<Entry<Snapshot>>,
                  last: u32, x: Entry<Snapshot>, y: Entry<Snapshot>)
    requires c.capacity > 0 && RingsAgree(c, k, server, client, last) && last < x.tick && EntryAgrees(c, next, x, y)
    requires next.Some? ==> k.Some? && k.value <= next.value
    ensures RingsAgree(c, next, Inserted(c.capacity, server, x), Inserted(c.capacity, client, y), x.tick)
  {
    hide EntryAgrees;
    AgreeTicks(c, next, x, y);
    forall i | 0 <= i < |server|
      ensures server[i].tick == client[i].tick <= last && EntryAgrees(c, next, server[i], client[i])
    {
      AgreeTicks(c, k, server[i], client[i]);
      EntryAgreesMore(c, k, next, server[i], client[i]);
    }
  }

  /**
   One step, exactly: the client takes what the server sends, and the two stay in step, if and only
   if it can be delivered.
   */
  lemma StepInSync(c: Config, k: Option<nat>, next: Option<nat>, before: World, ev: Event, after: World)
    requires Sound(c) && InSync(c, k, before) && Step(c, before, ev, after)
    requires Measured(c, next, ev.current) && (next.Some? ==> k.Some? && k.value + 1 <= next.value)
    ensures InSync(c, next, after) <==> Deliverable(c, before.server, ev)
    ensures var sent := Send(c, before.server, ev);
            sent.Some? ==> (Receive(c, before.client, sent.value.bytes).Some? <==> Deliverable(c, before.server, ev))
  {
    hide RingsAgree, Receive, SessionPacket, PayloadFits, ScanSections, Inserted, ScanOk, Shadows, Measured,
      SnapshotIs, Acceptable;
    if Send(c, before.server, ev).None? {
      SyncLoosens(c, k, next, before);
    } else {
      var j := SameBaseline(c, k, before, ev.ack);
      var x, y := before.server.ring[j], before.client.ring[j];
      PacketApplied(c, k, next, before.server.lastTick, x, y, ev.current, before.client);
      var tick := ev.current.tick;
      if Acceptable(c, x.value, ev.current) {
        var ring := after.client.ring;
        var r := ring[|ring| - 1].value;
        NewEntryAgrees(c, next, ev.current, r, tick);
        RingsGrow(c, k, next, before.server.ring, before.client.ring, before.server.lastTick, Entry(tick, ev.current),
                  Entry(tick, r));
      } else {
        RingsPart(c, k, next, before.server.ring, before.client.ring, before.server.lastTick, Entry(tick, ev.current));
      }
    }
  }

  /** Once only one of two agreeing rings takes in an entry, they agree no more. */
  lemma RingsPart(c: Config, k: Option<nat>, next: Option<nat>, server: seq<Entry<Snapshot>>,
                  client: seq<Entry<Snapshot>>, last: u32, x: Entry<Snapshot>)
    requires c.capacity > 0 && RingsAgree(c, k, server, client, last) && last < x.tick
    ensures !RingsAgree(c, next, Inserted(c.capacity, server, x), client, x.tick)
  {
    hide EntryAgrees;
    var grown := Inserted(c.capacity, server, x);
    assert grown[|grown| - 1] == x;
    if RingsAgree(c, next, grown, client, x.tick) {
      var i := |client| - 1;
      AgreeTicks(c, k, server[i], client[i]);
      AgreeTicks(c, next, grown[i], client[i]);
    }
  }

  lemma SyncLoosens(c: Config, k: Option<nat>, next: Option<nat>, w: World)
    requires InSync(c, k, w) && (next.Some? ==> k.Some? && k.value <= next.value)
    ensures InSync(c, next, w)
  {
    hide EntryAgrees;
    forall i | 0 <= i < |w.server.ring|
      ensures EntryAgrees(c, next, w.server.ring[i], w.client.ring[i])
    {
      EntryAgreesMore(c, k, next, w.server.ring[i], w.client.ring[i]);
    }
  }

  lemma NewEntryAgrees(c: Config, k: Option<nat>, current: Snapshot, r: Snapshot, tick: u32)
    requires tick == current.tick > 0 && Sorted(current.entities) && Measured(c, k, current)
    requires exists m :: SnapshotIs(r, tick, m) && Shadows(c.schema, k, EntityMap(current.entities), m)
    ensures EntryAgrees(c, k, Entry(tick, current), Entry(tick, r))
  {
    hide Shadows, Measured, EntityMap, Sorted;
  }

  // ---- Runs ----

  /** The bound on the drift after `i` more events. */
  function Later(k: Option<nat>, i: nat): Option<nat> {
    if k.Some? then Some(k.value + i) else None
  }

  /**
   Lockstep. In every run that starts in step, as long as what the server sends can be delivered,
   the last ticks are equal after every event, the rings hold the same ticks, and every client
   snapshot still kept shadows the server's snapshot of that tick, within as many thresholds as
   there have been events.
   */
  lemma {:induction false} RunInSync(c: Config, k: Option<nat>, events: seq<Event>, worlds: seq<World>, i: nat)
    requires Sound(c) && Run(c, events, worlds) && InSync(c, k, worlds[0]) && i <= |events|
    requires forall j :: 0 <= j < |events| ==> Measured(c, k, events[j].current)
    requires forall j :: 0 <= j < i ==> Deliverable(c, worlds[j].server, events[j])
    ensures InSync(c, Later(k, i), worlds[i])
    ensures i > 0 && Send(c, worlds[i - 1].server, events[i - 1]).Some? ==>
              Receive(c, worlds[i - 1].client, Send(c, worlds[i - 1].server, events[i - 1]).value.bytes).Some?
  {
    hide InSync, Step, Send, Receive, Measured, Deliverable, Sound;
    if i > 0 {
      RunInSync(c, k, events, worlds, i - 1);
      var j := i - 1;
      assert Step(c, worlds[j], events[j], worlds[j + 1]);
      MeasuredLater(c, k, i, events[j].current);
      StepInSync(c, Later(k, i - 1), Later(k, i), worlds[j], events[j], worlds[j + 1]);
    }
  }

  lemma MeasuredLater(c: Config, k: Option<nat>, i: nat, s: Snapshot)
    requires Measured(c, k, s)
    ensures Measured(c, Later(k, i), s)
  {
  }

  /** The two ends stay in step all through a run if and only if everything the server sends can be delivered. */
  lemma RunInSyncIff(c: Config, k: Option<nat>, events: seq<Event>, worlds: seq<World>)
    requires Sound(c) && Run(c, events, worlds) && InSync(c, k, worlds[0])
    requires forall j :: 0 <= j < |events| ==> Measured(c, k, events[j].current)
    ensures (forall i :: 0 <= i <= |events| ==> InSync(c, Later(k, i), worlds[i]))
       <==> forall j :: 0 <= j < |events| ==> Deliverable(c, worlds[j].server, events[j])
  {
    hide InSync, Step, Measured, Deliverable, Sound;
    if forall j :: 0 <= j < |events| ==> Deliverable(c, worlds[j].server, events[j]) {
      forall i | 0 <= i <= |events|
        ensures InSync(c, Later(k, i), worlds[i])
      {
        RunInSync(c, k, events, worlds, i);
      }
    }
    if forall i :: 0 <= i <= |events| ==> InSync(c, Later(k, i), worlds[i]) {
      forall j | 0 <= j < |events|
        ensures Deliverable(c, worlds[j].server, events[j])
      {
        assert Step(c, worlds[j], events[j], worlds[j + 1]);
        MeasuredLater(c, k, j + 1, events[j].current);
        assert InSync(c, Later(k, j + 1), worlds[j + 1]);
        StepInSync(c, Later(k, j), Later(k, j + 1), worlds[j], events[j], worlds[j + 1]);
      }
    }
  }

  /**
   In step, and with every field always sent, each client snapshot is the server's with components
   in schema order.
   */
  lemma SyncExact(c: Config, k: nat, w: World, i: nat)
    requires ValidSchema(c.schema) && AlwaysSent(c.schema.components) && InSync(c, Some(k), w) && i < |w.server.ring|
    ensures var s, r := w.server.ring[i].value, w.client.ring[i].value;
            && r == Snapshot(s.tick, NormalAll(c.schema, s.entities))
            && (r == s <==> AllInOrder(c.schema, s.entities))
  {
    assert EntryAgrees(c, Some(k), w.server.ring[i], w.client.ring[i]);
    var s, r := w.server.ring[i].value, w.client.ring[i].value;
    var sm, rm := EntityMap(s.entities), EntityMap(r.entities);
    ShadowsExact(c.schema, k, sm, rm);
    NormalMap(c.schema, s.entities);
    ShadowKeys(c.schema, Some(k), sm, rm);
    assert rm == EntityMap(NormalAll(c.schema, s.entities));
    NormalSorted(c.schema, s.entities);
    SortedUnique(r.entities, NormalAll(c.schema, s.entities));
    NormalAllIff(c.schema, s.entities);
  }

  lemma ShadowKeys(schema: Schema, k: Option<nat>, s: map<u32, EntitySnapshot>, c: map<u32, EntitySnapshot>)
    requires Shadows(schema, k, s, c)
    ensures s.Keys == c.Keys
  {
  }

  lemma NormalSorted(schema: Schema, es: seq<EntitySnapshot>)
    requires Sorted(es)
    ensures Sorted(NormalAll(schema, es))
  {
    hide Normal;
  }

  /**
   Lockstep without thresholds: after every event, every client snapshot still kept equals the
   server's, up to component order.
   */
  lemma RunExact(c: Config, events: seq<Event>, worlds: seq<World>, i: nat, j: nat)
    requires Sound(c) && AlwaysSent(c.schema.components) && Run(c, events, worlds)
    requires InSync(c, Some(0), worlds[0]) && i <= |events| && j < |worlds[i].server.ring|
    requires forall e :: 0 <= e < i ==> Deliverable(c, worlds[e].server, events[e])
    ensures worlds[i].server.lastTick == worlds[i].client.lastTick
    ensures |worlds[i].client.ring| == |worlds[i].server.ring|
    ensures var s, r := worlds[i].server.ring[j].value, worlds[i].client.ring[j].value;
            r == Snapshot(s.tick, NormalAll(c.schema, s.entities)) && (r == s <==> AllInOrder(c.schema, s.entities))
  {
    hide Step, AlwaysSent, AllInOrder, NormalAll, EntryAgrees, ValidSchema, Deliverable;
    RunInSync(c, Some(0), events, worlds, i);
    SyncExact(c, i, worlds[i], j);
  }

  // ---- Where a run starts ----

  lemma {:induction false} CreateOkAt(schema: Schema, limits: CodecLimits, es: seq<EntitySnapshot>, k: nat)
    requires AllCreateOk(schema, limits, es) && k < |es|
    ensures CreateOk(schema, limits, es[k])
  {
    hide CreateOk;
    if k > 0 {
      CreateOkAt(schema, limits, es[1..], k - 1);
    }
  }

  /** A snapshot shadows itself once a decoder has put its components in schema order. */
  lemma NormalShadows(schema: Schema, limits: CodecLimits, k: Option<nat>, es: seq<EntitySnapshot>)
    requires UniqueIds(schema.components) && AllCreateOk(schema, limits, es)
    ensures Shadows(schema, k, EntityMap(es), EntityMap(NormalAll(schema, es)))
  {
    NormalMap(schema, es);
    forall id | id in EntityMap(es)
      ensures EntityMap(es)[id].id == id
      ensures EntityShadows(schema, k, EntityMap(es)[id], EntityMap(NormalAll(schema, es))[id])
    {
      var i := EntityIndex(es, id);
      CreateOkAt(schema, limits, es, i);
      CreatedTracks(schema, limits, k, es[i]);
    }
  }

  /**
   A full snapshot starts a run: when the server keeps the snapshot it sent in full and the
   client the one it decoded, the two are in step with nothing lost.
   */
  lemma FullSnapshotStarts(c: Config, s: Snapshot, p: Packet)
    requires ValidSchema(c.schema) && s.tick > 0 && FullSnapshotOk(c.schema, c.limits, s.entities)
             && Measured(c, Some(0), s)
    requires PayloadFits(FullSections(c.schema, s.entities), c.room, c.limits)
    requires GetPacket(FullPacket(c.hash, s.tick, FullSections(c.schema, s.entities)), c.wire) == Some(p)
    ensures var r := ReadFull(c.schema, c.hash, p, c.limits);
            && r.Some?
            && InSync(c, Some(0), World(Peer(s.tick, [Entry(s.tick, s)]), Peer(s.tick, [Entry(s.tick, r.value)])))
  {
    hide GetPacket, ReadFull, NormalAll, Measured, Sorted, WireAllows, FullBodyOk;
    FullRoundTrip(c.schema, c.hash, s.tick, s.entities, c.limits, c.wire, c.room);
    FullCreates(c, s.entities);
    NormalSorted(c.schema, s.entities);
    NormalShadows(c.schema, c.limits, Some(0), s.entities);
    var r := ReadFull(c.schema, c.hash, p, c.limits).value;
    assert EntryAgrees(c, Some(0), Entry(s.tick, s), Entry(s.tick, r));
  }

  lemma FullCreates(c: Config, es: seq<EntitySnapshot>)
    requires FullSnapshotOk(c.schema, c.limits, es)
    ensures Sorted(es) && AllCreateOk(c.schema, c.limits, es)
  {
    if es != [] {
      FullListSorted(c.schema, c.limits, None, es);
    }
  }
}
