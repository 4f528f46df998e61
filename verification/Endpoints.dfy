/**
 The two ends of a session in code: the library calls that a server and a client make, in the order
 they make them.
 */
module Endpoints {
  import opened Core
  import opened Schemas
  import opened Diffs
  import opened Scratches
  import opened Wire
  import opened Payloads
  import opened Apply
  import opened Packets
  import opened SessionHeaders
  import opened Sessions
  import opened Baselines
  import opened Lockstep

  /** What an end of the session remembers. */
  ghost function PeerOf(session: SessionState, store: BaselineStore<Snapshot>): Peer
    requires store.Valid()
    reads session, store, store.entries
  {
    Peer(session.lastTick, store.Contents())
  }

  /** Selects a baseline for the acknowledged tick, encodes against it, and keeps what was sent. */
  method SendDelta(c: Config, session: SessionState, store: BaselineStore<Snapshot>, scratch: CodecScratch,
                   current: Snapshot,
                   ack: u32, out: array<byte>)
    returns (r: Option<nat>)
    requires store.Valid() && ValidSchema(c.schema)
    requires store.entries.Length == c.capacity && out.Length == MAX_SESSION_HEADER + c.room
    modifies session`lastTick, store, store.entries, scratch, out
    ensures store.Valid()
    ensures match Send(c, old(PeerOf(session, store)), Event(current, ack))
            case None => r.None? && PeerOf(session, store) == old(PeerOf(session, store))
            case Some(sent) =>
              r == Some(|sent.bytes|) && |sent.bytes| <= out.Length && out[..|sent.bytes|] == sent.bytes
              && PeerOf(session, store) == sent.server
  {
    hide SessionOk, ScanSections, PayloadFits, SessionPacket, ValidSchema, Increasing, RingContents, Lookup;
    var tick := store.SelectBaselineTick(ack);
    if tick.None? {
      return None;
    }
    var baseline := store.Get(tick.value);
    r := EncodeDeltaSnapshotForClientSession(c.schema, current.tick, tick.value, baseline.value, current, c.limits,
                                             scratch, session,
                                             out, 0, out.Length);
    if r.Some? {
      var _ := store.Insert(current.tick, current);
      assert out[0..r.value] == out[..r.value];
    }
  }

  /** A client that takes a packet and keeps the snapshot has made its step. */
  lemma Kept(c: Config, before: Peer, bytes: seq<byte>, tick: u32, applied: Snapshot, after: Peer)
    requires var got := Receive(c, before, bytes);
             got.Some? && got.value.0 == tick && SnapshotIs(applied, tick, got.value.1)
    requires c.capacity > 0 && Accepted(before.ring, tick)
    requires after == Peer(tick, Inserted(c.capacity, before.ring, Entry(tick, applied)))
    ensures ClientStep(c, before, bytes, after)
    ensures after.ring != [] && after.ring[|after.ring| - 1].value == applied
  {
    hide Receive, SnapshotIs;
  }

  /** Decodes a packet, looks its baseline up, applies it, and keeps the result. */
  method ReceiveDelta(c: Config, session: SessionState, store: BaselineStore<Snapshot>,
                      bytes: seq<byte>) returns (r: Option<Snapshot>)
    requires store.Valid() && ValidSchema(c.schema) && store.entries.Length == c.capacity
    requires session.schemaHash == c.hash
    requires store.Contents() != [] ==> store.Contents()[|store.Contents()| - 1].tick <= session.lastTick
    modifies session`lastTick, store, store.entries
    ensures store.Valid()
    ensures r.Some? <==> Receive(c, old(PeerOf(session, store)), bytes).Some?
    ensures ClientStep(c, old(PeerOf(session, store)), bytes, PeerOf(session, store))
    ensures r.Some? ==> store.Contents() != [] && store.Contents()[|store.Contents()| - 1].value == r.value
  {
    hide ReadSession, ApplyPacket, Lookup, ValidSchema, SnapshotIs, Inserted, Increasing, RingShaped, RingContents;
    ghost var before := PeerOf(session, store);
    RingBounds(store.entries[..], store.head, store.len);
    var p :- DecodeSessionPacket(c.hash, session, bytes, c.wire);
    var baseline :- store.Get(p.header.baselineTick);
    var applied :- ApplyDeltaSnapshotFromPacket(c.schema, c.hash, baseline, p, c.limits);
    var _ := store.Insert(p.header.tick, applied);
    Kept(c, before, bytes, p.header.tick, applied, PeerOf(session, store));
    return Some(applied);
  }
}
