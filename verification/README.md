# Verified model of the sdec snapshot and delta codec

sdec replicates the state of a game from a server to its clients. A *snapshot* is a list of
entities in id order; an entity has components, a component has fields, and a schema gives
each field a bit codec and a change policy. The server encodes the difference between a
baseline snapshot and the current one into a packet, and the client applies the packet to
its own copy of the baseline. This project models that stack in Dafny and proves what a
receiver ends up with.

`dafny verify dfyconfig.toml` checks everything.

## Layers

| files | what they model |
|---|---|
| `Core`, `Bits`, `BitOps`, `Bitstream`, `BitWriter`, `BitReader` | bit strings; the bounded writer over a slice of an array and the reader, both refining functions on bit strings |
| `Schema`, `Fields` | schemas, values and the six field codecs |
| `Diffs`, `Walks`, `Apply`, `ApplyAlgebra` | what changed between two sorted entity lists; the two-pointer walks; applying a delta in place as algebra on maps |
| `Layouts`, `UpdateLayouts`, `Encodings` | the section bodies as pairs of a writing and a reading function, and their round trips |
| `Scratch`, `EntityEncoders`, `UpdateEncoders`, `SparseEncoders`, `Estimates`, `Decoders` | the loops that write and read the bodies |
| `Varints`, `Wire`, `Sections` | varints on byte buffers, packet header, section framing by reserving and shifting |
| `Payloads`, `ChangeLists`, `Packets`, `FullSnapshots` | payloads from a scan or from change lists, whole packets |
| `Rebuild`, `Exactness`, `RoundTrip`, `ListRoundTrip`, `Soundness`, `Drift`, `Witnesses` | the theorems about packets |
| `Baseline`, `SessionWire`, `Session`, `Lockstep`, `Endpoints` | the ring of baselines, compact session headers, and whole runs of a session |
| `RepGraph`, `Mirror`, `Converge`, `Budgets` | the replication graph, one build, and what a client's budget does to it |
| `Delivery`, `Ticks`, `Adapters`, `Marks`, `GraphWitnesses` | builds sent as packets, runs with any number of clients, and the adapters and marks by which a game is described |
| `Numerals`, `FieldBits`, `BodyBits`, `BodyOrder`, `WireBytes`, `Golden` | the bits and bytes that are written, in digits, widths, masks and offsets |
| `Changes`, `Choices`, `Demands`, `Success`, `Tracking` | what is sent, as what, and when that succeeds, in distances, ids, counts and ranges; what the graph records |
| `Readings`, `Refusals`, `Prefixes` | what decoders take and refuse of any bytes at all |

## How to read it

`PutX` maps the bits written so far to the bits written afterwards; `GetX` reads from bytes at
a bit position. A lemma `XBack` says that reading where `PutX` wrote gives the value back, with
reader and writer in step. Each imperative method is proved equal to such a function: it
succeeds if and only if a stated condition holds, says what the buffer then contains, and
leaves the rest of the buffer alone. Since the bytes are a function of the inputs alone, they do
not depend on what the output buffer or the scratch masks held before.

The functions themselves are then described from outside: `FieldBits`, `BodyBits` and `WireBytes`
say which bits stand where, `Changes` which fields a difference names, `Tracking` what an
operation leaves in the graph, and `Demands`, `Readings` and `Refusals` give the conditions of
success and acceptance in terms of ids, counts, ranges and bytes.

A receiver's entities are described by `RebuiltOnto`: created entities in schema order, surviving
ones with the sender's changed fields laid over the receiver's own. `Shadows` with `Some(k)`
says that a receiver has the sender's entities and every field is within `k` thresholds
(equal, where there is no threshold); with `None` it says only that the shapes agree.

## What turned out

* A sparse update section needs component ids in ascending order. `Schema::validate` asks only
  that they are distinct, and the encoder does not look, so a schema in another order yields
  packets that cannot be decoded (`Witnesses.DescendingSchemaBreaksSparse`). The exact condition
  is in `RoundTrip.DeltaRoundTrip`; an ascending schema is enough.
* A baseline tick of zero is encoded and then refused; the same theorem carries the condition.
* The change-list encoder accepts component ids and field indices out of order and entity
  updates without components; the first two are refused by the receiver, the last are lost
  (`Witnesses.SwappedComponentsLost`, `Witnesses.SwappedFieldsLost`, `Witnesses.EmptyUpdateLost`).
* The two ends of a session stay in step exactly as long as the receiver's own limits and the order
  of ids let its packets through (`Lockstep.StepInSync`). Otherwise the server keeps a baseline that
  the client never gets (`Witnesses.DescendingSchemaStopsSession`).
* The threshold comparison subtracts signed values in 64 bits. Where the range of a codec plus its
  threshold reaches two to the sixty-fourth, a large change can count as none
  (`Drift.WrapHidesAChange`); the bound holds exactly when that does not happen.
* A zero-width bit write is accepted with any value.
* A session id of zero is read back as no id.
* Ticks in compact headers are relative, so a lost packet shifts both ticks and is not noticed by
  the header itself; `SessionHeaders.TickShift` says exactly what is read.
* A full snapshot behind a compact header is always refused.
* An entity removed and tracked again before the removals are cleared can be both destroyed and
  updated in one delta, which no client can apply; `Mirroring.ReAddedIff` says exactly when.
* An update that the budget cuts off is lost when the marks are cleared (`Budgets.CutUpdateLost`,
  `Budgets.CutExample`). Creates and destroys that are cut off come with later builds
  (`Budgets.BuildsDrain`).
* Marks keep the order in which they were made, adapters send updates in that order, and the
  change-list encoder does not look: an entity marked out of order makes the whole packet
  undecodable (`GraphWitnesses.MarkedBackwards`; the exact condition is `Marks.AdapterAscends`).
* Updates change components but never add or remove one, so an entity whose set of components
  changes while a client knows it is not brought up to date (`Convergence.ComponentsNeverAdded`),
  and once the new component is marked the client cannot apply its delta
  (`GraphWitnesses.AddedComponentRefused`).
* The Bevy adapter drops a whole update when one dirty component has no adapter; the client is then
  left behind unless its copy was current (`GraphWitnesses.UnregisteredDropsUpdate`; the exact
  condition is `Adapters.CompleteServes`).

## Conventions

* Arithmetic follows a release build: signed subtraction and addition wrap around, and casts
  truncate, where the code can reach those cases. `usize` is unbounded.
* An error is `None` or `Fail`. Which error, and its payload, is not modelled.
* The schema hash is a parameter `hash` of the functions that use it.
* A mutable slice is an array with bounds `lo` and `hi`. `write_section`, which takes a closure,
  is the pair `Sections.OpenSection` and `Sections.CloseSection` around the body method.
* The growing vectors of `CodecScratch` are fields of type `seq`; ordered maps and sets of the
  replication graph are `map` and `set` fields walked from the least id to the greatest.
* Positions and distances in the replication graph are real numbers.

## Model

| member | source | states |
|---|---|---|
| `RoundTrip.DeltaRoundTrip` | codec/src/delta.rs:330-619 | Whenever encoding the difference of two snapshots succeeds, in automatic or sparse mode, the packet parses if and only if the baseline tick is not zero and the wire limits and the 32-bit length field allow it; it then applies to the baseline if and only if its update section is decodable (component ids ascend, where it is sparse) and the entity limit allows the result, which has the new tick and exactly the rebuilt entities |
| `RoundTrip.DeltaRoundTripExact` | codec/src/delta.rs:566-619 | When every field is sent on any change and entities list known components once each, the snapshot received equals the snapshot sent if and only if both sides list components alike: created entities in schema order, surviving ones in the order of the baseline |
| `RoundTrip.AscendingDecodable` | codec/src/delta.rs:1804-1812 | A schema that lists its components by ascending id makes every update section decodable, whichever layout was chosen |
| `RoundTrip.ScanBack` | codec/src/delta.rs:2118-2196 | The sections written for a difference decode to that difference, created entities in schema order, unless a sparse section lists component ids out of order |
| `RoundTrip.DiffPairsOrdered` | codec/src/delta.rs:1338-1466 | What the scan sends of comparable, encodable pairs is a list of non-empty entity updates in schema order, with ascending field indices and in-range values |
| `RoundTrip.DeltaBack` | codec/src/delta.rs:2118-2196 | Destroy, create and update sections, each present only when not empty, decode together to the three lists exactly when the update section decodes |
| `RoundTrip.DeltaPacketBack` | wire/src/packet.rs:50-121 | A delta packet parses to its header and sections exactly when the baseline tick is not zero and the wire limits allow it |
| `Witnesses.DescendingSchemaBreaksSparse` | schema/src/schema.rs:67-86 | A valid schema with descending component ids, and two snapshots that the sparse encoder accepts and writes into a buffer of a hundred bytes, whose section decodes to nothing |
| `Witnesses.SwappedComponentsLost` | codec/src/delta.rs:891-1034 | A change list with component ids out of order that is accepted and written, and decodes to nothing |
| `Witnesses.SwappedFieldsLost` | codec/src/delta.rs:891-1034 | The same for field indices out of order |
| `Witnesses.DescendingSchemaStopsSession` | codec/src/session.rs:172-221 | In a session with that schema the server sends a snapshot and keeps it as a baseline, and the client cannot take it |
| `Witnesses.EmptyUpdateLost` | codec/src/delta.rs:891-1034 | A change list with an entity update without components that is accepted and written, and decodes to no update at all |
| `Rebuilding.ApplyDiff` | codec/src/delta.rs:566-619 | Applying the exact difference to the baseline succeeds exactly when the result is within the entity limit, and yields the rebuilt entities |
| `Rebuilding.ApplyDiffOnto` | codec/src/delta.rs:2219-2329 | The same for a receiver that does not hold the baseline itself but entities of the same shape |
| `Rebuilding.PatchMerges` | codec/src/delta.rs:2292-2329 | A surviving entity keeps its component list; each known component takes the current value of every field the policy calls changed and keeps all other fields, by lookup under every id |
| `Rebuilding.DiffFieldsMerge` | codec/src/delta.rs:2562-2592 | Setting the changed fields of one component on a list of the same length gives the field-by-field merge |
| `Rebuilding.DestroysAndCreates` | codec/src/delta.rs:2219-2290 | Destroys and creates alone bring the receiver from the ids of the baseline to exactly the ids of the current snapshot |
| `Exactness.RebuiltExact` | codec/src/delta.rs:2580-2616 | With every field sent on any change, and known components listed once each, the rebuilt entities equal the current ones if and only if component lists agree |
| `Exactness.PatchExact` | codec/src/delta.rs:2292-2329 | The same for one surviving entity: rebuilt equal if and only if both sides list the same component ids in the same order |
| `Exactness.OrderedLists` | codec/src/delta.rs:1659-1668 | Snapshots whose entities list components once each and in schema order meet that condition |
| `ListRoundTrip.ListsRoundTrip` | codec/src/delta.rs:482-551 | A packet encoded from change lists, whose field counts fit the 32 bits they are written in, parses exactly under the conditions of the scan, and decodes if and only if component ids and field indices ascend, which the encoder does not check; entity updates without components are lost |
| `ListRoundTrip.PathsAgree` | codec/src/delta.rs:374-551 | Given the exact difference, the change-list path succeeds whenever the sparse scan does, unless an entity has more changed components than the limit only that path checks; the packets are equal byte for byte whatever the buffers held |
| `Drift.UnsentBound` | codec/src/delta.rs:2618-2646 | A value not sent is within the threshold of the baseline if and only if the wrapped difference does not come round to a small one; booleans are equal |
| `Drift.WrapHidesAChange` | codec/src/delta.rs:2627-2634 | The least and the greatest value of a 64-bit signed field count as unchanged at threshold one |
| `Drift.ShadowStep` | codec/src/delta.rs:2292-2329 | A receiver within k thresholds of the baseline is within k + 1 of the current snapshot after one delta taken against the sender's own baseline |
| `Drift.ChainDrift` | codec/src/delta.rs:2580-2646 | Over any chain of deltas, each against the sender's own previous snapshot, every application succeeds and every field is within as many thresholds as there were deltas |
| `Drift.ReconstructedDrift` | codec/src/delta.rs:2580-2646 | A delta taken against what the receiver has rebuilt leaves every field within one threshold |
| `Drift.FieldWithin` | codec/src/delta.rs:2618-2646 | What these bounds say of one field: the receiver has it, its number is within k thresholds of the sender's, and booleans and fields without a threshold are equal |
| `Drift.TameSteps` | schema/src/field.rs:96-104 | In-range values of codecs narrow enough for the threshold, or policies that always send, never wrap |
| `Drift.ShadowsExact` | codec/src/delta.rs:2594-2616 | Within any number of thresholds of a schema without thresholds means equal, up to component order |
| `Lockstep.StepInSync` | codec/src/delta.rs:267-327 | One event of two ends in step: the client takes what the server sends, and the last ticks, the rings and the snapshots kept stay in step, if and only if the packet meets the limits of the receiver and lists component ids in the order its decoder asks for |
| `Lockstep.RunInSync` | codec/src/session.rs:172-221 | In every run, as long as what the server sends can be delivered, the two ends stay in step, with the drift bounded by the number of events |
| `Lockstep.RunInSyncIff` | codec/src/session.rs:172-221 | The two ends stay in step all through a run if and only if everything the server sends can be delivered |
| `Lockstep.CompatibleDelivers` | wire/src/packet.rs:123-165 | With components listed by ascending id and a wire that takes any section of the codec or the buffer, every snapshot within the entity limit can be delivered |
| `Lockstep.RunExact` | codec/src/session.rs:172-221 | Under a schema that always sends, and as long as packets can be delivered, each client snapshot kept equals the server's with components in schema order, and equals it outright if and only if the server listed them so |
| `Lockstep.FullSnapshotStarts` | codec/src/snapshot.rs:107-158 | A full snapshot that is parsed starts a run: the server's snapshot and the one the client decodes are in step, with nothing lost |
| `Lockstep.SameBaseline` | codec/src/delta.rs:21-27 | The baseline the server selects for an acknowledged tick is found by the client under the tick in the packet |
| `Lockstep.PacketApplied` | codec/src/delta.rs:566-619 | A client that shadows the baseline at the same last tick decodes and applies the packet exactly when it is acceptable, and then shadows the new snapshot |
| `Endpoints.SendDelta` | codec/src/delta.rs:267-327 | Selecting a baseline, encoding for the session and keeping the snapshot behaves as the sending step of a run: nothing changes on failure, and the bytes, last tick and ring are those of the step on success |
| `Endpoints.ReceiveDelta` | codec/src/session.rs:172-221 | Decoding, looking up the baseline, applying and keeping the result behaves as the receiving step of a run |
| `Soundness.DeltaSound` | codec/src/delta.rs:2118-2196 | Whatever bytes arrive, an accepted delta has strictly ascending ids within the limits, created entities in schema order with all fields in range, and updates of known components with strictly ascending indices and in-range values |
| `Soundness.ApplySound` | codec/src/delta.rs:566-619 | Applying any accepted delta to a well-formed baseline gives a well-formed snapshot within the entity limit |
| `Soundness.DestroysSound` | codec/src/delta.rs:1568-1612 | Accepted destroy sections list strictly ascending ids within the limit |
| `Soundness.CreatesSound` | codec/src/delta.rs:1614-1686 | Accepted create sections list strictly ascending, well-formed entities within the limit |
| `Soundness.MaskedSound` | codec/src/delta.rs:1688-1757 | Accepted masked sections list strictly ascending entities with valid, non-empty component updates in schema order |
| `Soundness.SparseSound` | codec/src/delta.rs:1759-2116 | Accepted sparse sections, of either kind, gather into strictly ascending entities with strictly ascending known components and in-range values |
| `Wire.AcceptedIsPartitioned` | wire/src/packet.rs:123-165 | An accepted payload is exactly partitioned by strictly growing offsets into a tag byte, one to five length bytes and a body each |
| `Encodings.EncodingInvisible` | codec/src/delta.rs:1158-1466 | Masked, sparse varint and sparse packed sections written from one update list in schema order decode to that list; the sparse ones if and only if the component ids of every entity ascend, as they do in an ascending schema |
| `Encodings.SparseDecodes` | codec/src/delta.rs:1759-2116 | What becomes of any sorted update list written sparsely: decoded if and only if component ids and field indices ascend, and without the entities that have no components |
| `UpdateLayouts.MaskedBack` | codec/src/delta.rs:1688-1757 | A masked section decodes to the update list it was written from |
| `UpdateLayouts.SparseBack` | codec/src/delta.rs:1759-2116 | A written sparse section of either kind decodes exactly when its entries are in order, to the updates gathered from them |
| `UpdateLayouts.IndexFits` | codec/src/delta.rs:1037-1053 | The width of an index holds every field index of the component; that it is the least is `FieldBits.IndexWritten` |
| `Layouts.DestroysBack` | codec/src/delta.rs:1055-1105 | A destroy section decodes to the ids it was written from |
| `Layouts.CreatesBack` | codec/src/delta.rs:1107-1156 | A create section decodes to its entities with components in schema order |
| `Layouts.NormalIff` | codec/src/delta.rs:1659-1668 | A component list survives that reordering unchanged if and only if it lists components once each and in schema order |
| `Apply.ApplyDestroys` | codec/src/delta.rs:2219-2252 | The walk succeeds if and only if every destroyed id is present, and is key removal that keeps the order |
| `Apply.ApplyCreates` | codec/src/delta.rs:2254-2290 | The walk succeeds if and only if no created id is present, and is disjoint union that keeps the order |
| `Apply.MergeUnion` | codec/src/delta.rs:2254-2290 | Merging two sorted lists without a common id is the sorted list of the union of their maps |
| `Apply.BinarySearch` | codec/src/delta.rs:2298-2303 | On a sorted array the search finds the id, or proves it absent from the map |
| `Apply.ApplyUpdates` | codec/src/delta.rs:2292-2329 | Overwriting entities in place is pointwise override on the map, succeeds exactly when that is defined, and keeps the order |
| `Apply.ApplyLists` | codec/src/delta.rs:597-618 | Destroys, creates, limit and updates on a sorted list compute the partial function on maps |
| `ApplyAlgebra.ApplyIff` | codec/src/delta.rs:2219-2329 | A delta applies if and only if destroyed ids are present, created ids are new, the result is within the limit, and every updated entity, component and field index is there |
| `ApplyAlgebra.SetFieldsAt` | codec/src/delta.rs:2315-2325 | Ascending field updates override pointwise |
| `ApplyAlgebra.SetComponentsAt` | codec/src/delta.rs:2304-2327 | Distinct component updates override pointwise and leave the component list as it is |
| `ApplyAlgebra.SetEntitiesAt` | codec/src/delta.rs:2292-2329 | Sorted entity updates override pointwise |
| `Diffs.SortedUnique` | codec/src/delta.rs:2331-2345 | A list in strict id order is determined by the map it represents |
| `Packets.EncodeDeltaSnapshot` | codec/src/delta.rs:330-371 | Success if and only if the inputs qualify and the sections fit; the bytes are then the packet of the difference, a function of the inputs and not of the scratch or of what the buffer held; nothing outside the slice changes |
| `Packets.EncodeDeltaSnapshotFromUpdates` | codec/src/delta.rs:169-206 | The same for change lists |
| `Packets.DecodeDeltaPacket` | codec/src/delta.rs:622-662 | Refuses packets without the delta flag, a baseline or the schema hash; what it returns satisfies the decoder's promises |
| `Packets.ApplyDeltaSnapshotFromPacket` | codec/src/delta.rs:566-619 | Succeeds exactly when the packet fits the baseline and its delta applies; the result is the sorted snapshot of the resulting map at the packet's tick |
| `Packets.ApplyDeltaSnapshot` | codec/src/delta.rs:554-563 | The same from raw bytes |
| `Payloads.EncodeDeltaPayload` | codec/src/delta.rs:374-479 | Success and bytes of a payload as a function of the two snapshots, limits, mode and room |
| `Payloads.EnsureEntitiesSorted` | codec/src/delta.rs:2331-2345 | Passes if and only if ids go strictly up |
| `Payloads.PlaceMore` | codec/src/delta.rs:419-478 | Sections placed one after the other stand side by side, and succeed together exactly when each does in the room left |
| `ChangeLists.EncodeDeltaPayloadFromUpdates` | codec/src/delta.rs:482-551 | Success and bytes of a payload as a function of the three lists, limits and room |
| `ChangeLists.BuildComponentLookup` | codec/src/delta.rs:1012-1053 | The table answers every component id as a linear search of the schema does, with the right index width |
| `ChangeLists.ValidateUpdates` | codec/src/delta.rs:891-952 | Passes if and only if ids ascend and every update is within the limits and names known components and fields |
| `ChangeLists.EnsureIdsSorted` | codec/src/delta.rs:830-845 | Passes if and only if ids go strictly up |
| `ChangeLists.EncodeUpdateBodyFromUpdates` | codec/src/delta.rs:954-1010 | Writes the packed sparse body of a list of updates, exactly when counts and values allow it; its heads and indices are described by `BodyBits.EntryHeadWritten` and `FieldBits.IndexWritten` |
| `Walks.WalkLess` | codec/src/delta.rs:671-711 | One step of the walk over two sorted lists: the smaller id is missing from the other list, and the pairs are unaffected |
| `Walks.WalkEqual` | codec/src/delta.rs:671-711 | Equal ids pair up, and neither difference is affected |
| `Walks.MissingMember` | codec/src/delta.rs:1055-1105 | The walk lists exactly the entities whose id the other list lacks |
| `Walks.CountsBalance` | codec/src/delta.rs:671-711 | The number of current entities is that of the baseline, plus creates, less destroys |
| `UpdateEncoders.CountDiffs` | codec/src/delta.rs:671-711 | The counts equal the lengths of the lists that the later passes write, whenever the common entities can be compared |
| `UpdateEncoders.EntityHasUpdates` | codec/src/delta.rs:2648-2692 | On comparable entities the early exit agrees with whether the list of changed components is empty |
| `UpdateEncoders.ComputeFieldMask` | codec/src/delta.rs:2562-2578 | Fails exactly on values of different kinds; otherwise every slot of the mask is overwritten, whatever it held, by whether the field changed, which `Changes.ChangedIff` says in distances |
| `UpdateEncoders.EncodeUpdateBodyMasked` | codec/src/delta.rs:1158-1208 | Writes the masked body of the changed entities, exactly when they are comparable and encodable and the count is within the limit |
| `SparseEncoders.EncodeUpdateBodySparse` | codec/src/delta.rs:1211-1466 | The same for both sparse bodies, whose entry count is taken in a separate pass |
| `SparseEncoders.CountSparseUpdateEntries` | codec/src/delta.rs:1468-1548 | The separate pass counts exactly the entries that are written |
| `Estimates.SelectUpdateEncoding` | codec/src/delta.rs:713-814 | The layout chosen by walking the snapshots depends only on the update list, as `Choices.PackedIff` says |
| `EntityEncoders.EncodeDestroyBody` | codec/src/delta.rs:1055-1105 | Writes the destroyed ids found by the walk |
| `EntityEncoders.EncodeCreateBody` | codec/src/delta.rs:1107-1156 | Writes the created entities found by the walk, exactly when all are known and in range |
| `EntityEncoders.WriteCreateEntity` | codec/src/delta.rs:1550-1566 | Writes one entity in schema order, exactly when its components are known, complete and in range |
| `EntityEncoders.EnsureKnownComponents` | codec/src/snapshot.rs:710-725 | Passes if and only if the schema knows every component |
| `Decoders.DecodeDestroySection` | codec/src/delta.rs:1568-1612 | The reading loop computes the inverse named in the round trip of destroy sections, for any bytes |
| `Decoders.DecodeCreateSection` | codec/src/delta.rs:1614-1686 | The same for create sections |
| `Decoders.DecodeUpdateSectionMasked` | codec/src/delta.rs:1688-1757 | The same for masked sections |
| `Decoders.DecodeUpdateSectionSparse` | codec/src/delta.rs:1759-2116 | The same for both sparse sections, gathering entries as they arrive |
| `Decoders.DecodeDeltaSections` | codec/src/delta.rs:2118-2196 | The same for a list of sections: no duplicates, and at most one update encoding |
| `Sections.CloseSection` | codec/src/snapshot.rs:161-211 | Reserving five length bytes and shifting the body down leaves the framed section of the body written, exactly when it is within the limits |
| `Sections.ShiftSection` | codec/src/snapshot.rs:199-210 | After the overlapping move the buffer holds tag, length and body side by side |
| `Wire.EncodeSection` | wire/src/packet.rs:188-205 | Writes the same framed section from a body given whole; a failure leaves the buffer alone |
| `Wire.SectionsBack` | wire/src/packet.rs:123-165 | A concatenation of framed sections decodes if and only if it is within the limits, and then to those sections |
| `Wire.DecodeSections` | wire/src/packet.rs:123-165 | The loop computes the decoding named in that round trip, for any bytes |
| `Wire.PacketBack` | wire/src/packet.rs:50-121 | A valid header with framed sections decodes if and only if its length field is true and the limits allow it |
| `Wire.HeaderBack` | wire/src/packet.rs:168-186 | The seven header words are read back as written |
| `Wire.DecodePacket` | wire/src/packet.rs:50-121 | Refuses exactly the buffers that are too short or long, or have a wrong magic, version, flags, baseline tick, length or section |
| `Wire.EncodeHeader` | wire/src/packet.rs:168-186 | Writes exactly the 28 header bytes in place |
| `Varints.VarLenAgrees` | codec/src/delta.rs:816-828 | The length by comparison equals the number of bytes written |
| `Varints.VarU32Len` | wire/src/packet.rs:249-256 | So does the length by shifting |
| `Varints.WriteVarU32` | wire/src/session.rs:196-211 | The writing loop on byte buffers writes the bytes that the bit writer writes |
| `Varints.ReadVarU32Packet` | wire/src/packet.rs:207-230 | The reader that accumulates 32 bits agrees with the reader of the bitstream on every input |
| `Varints.ReadVarU32Session` | wire/src/session.rs:166-194 | So does the one that accumulates 64 bits and truncates |
| `Bitstream.VarAtBack` | bitstream/src/reader.rs:126-138 | Every 32-bit number is read back from its varint, wherever it stands |
| `Bitstream.ZigZagBijection` | bitstream/src/writer.rs:125-130 | Zigzag is a bijection between signed and unsigned 32-bit numbers |
| `BitOps.ZigZagIsShifts` | bitstream/src/writer.rs:127-130 | On 32-bit words, the shifts and the exclusive or of the writer compute the arithmetic of `ZigZag` |
| `BitOps.UnZigZagIsShifts` | bitstream/src/reader.rs:140-144 | The same for the reader and `UnZigZag` |
| `Bitstream.WritesReadBack` | bitstream/src/writer.rs:38-130 | The reads mirroring any accepted sequence of writes succeed and stay in step, and return the values written if and only if no zero-width write carried a non-zero value |
| `Bitstream.ZeroWidthWriteLosesItsValue` | bitstream/src/writer.rs:50-56 | A zero-width write of five is accepted and read back as zero |
| `Bitstream.BytesBack` | bitstream/src/reader.rs:166-174 | Bytes written at a byte boundary stand there in the data |
| `Bits.SetBitUpdates` | bitstream/src/writer.rs:165-175 | Setting or clearing one bit of a byte changes that bit and no other |
| `BitOps.SetBitIsMasks` | bitstream/src/writer.rs:165-175 | Setting or clearing a bit of a byte by its mask adds the mask where it is clear or takes it away where it is set |
| `Bits.BitsOfInjective` | bitstream/src/reader.rs:44-56 | Different byte strings have different bits |
| `BitWriters.BitWriter.WriteBitUnchecked` | bitstream/src/writer.rs:165-175 | Appends the bit to those written, whatever the byte held, and touches nothing outside the slice |
| `BitWriters.BitWriter.WriteBit` | bitstream/src/writer.rs:38-47 | Succeeds exactly when a bit is left |
| `BitWriters.BitWriter.WriteBits` | bitstream/src/writer.rs:50-66 | Succeeds exactly when the width is legal, the value fits it and the room suffices; appends the bits, highest first |
| `BitWriters.BitWriter.AlignToByte` | bitstream/src/writer.rs:69-80 | Goes to the next boundary and never fails; every bit of the buffer from the old position to the new one is zero |
| `BitWriters.BitWriter.WriteBytesAligned` | bitstream/src/writer.rs:156-163 | Appends bytes exactly when aligned and fitting |
| `BitWriters.BitWriter.WriteU16Aligned` | bitstream/src/writer.rs:93-95 | Appends two bytes, least significant first |
| `BitWriters.BitWriter.WriteU32Aligned` | bitstream/src/writer.rs:98-100 | Appends four bytes, least significant first |
| `BitWriters.BitWriter.WriteU64Aligned` | bitstream/src/writer.rs:103-105 | Appends eight bytes, least significant first |
| `BitWriters.BitWriter.WriteVarU32` | bitstream/src/writer.rs:108-122 | Appends the varint of the value, exactly when aligned and fitting |
| `BitWriters.BitWriter.WriteVarS32` | bitstream/src/writer.rs:125-130 | Appends the varint of the zigzag of the value |
| `BitWriters.BitWriter.Finish` | bitstream/src/writer.rs:132-134 | Counts the bytes touched; when aligned, their bits are what was written |
| `BitReaders.BitReader.ReadBit` | bitstream/src/reader.rs:44-56 | Reads the next bit exactly when there is one |
| `BitReaders.BitReader.ReadBits` | bitstream/src/reader.rs:59-78 | Reads a number of at most 64 bits, highest first, exactly when there are that many |
| `BitReaders.BitReader.AlignToByte` | bitstream/src/reader.rs:81-95 | Skips to the next boundary, and never fails |
| `BitReaders.BitReader.ReadVarU32` | bitstream/src/reader.rs:126-138 | Reads at most five groups, drops bits above the thirty-second, and refuses a fifth group that says it continues |
| `BitReaders.BitReader.ReadU32Aligned` | bitstream/src/reader.rs:114-117 | Reads four bytes, least significant first, exactly when aligned and present |
| `Fields.FieldBack` | codec/src/snapshot.rs:322-391 | From any bit position, every value the writer accepts, of all six codecs, is read back equal with reader and writer in step |
| `Fields.FieldSound` | codec/src/snapshot.rs:584-634 | Whatever the bytes, an accepted value is one the writer accepts |
| `Fields.SintBack` | codec/src/snapshot.rs:751-789 | Packing and sign extension are inverse on every width from 1 to 64 |
| `Fields.EncodeSintValue` | codec/src/snapshot.rs:751-772 | The packed form is the value modulo two to the width |
| `Fields.DecodeSintValue` | codec/src/snapshot.rs:774-789 | Sign extension with wrap-around is subtraction of two to the width in the upper half, also at width 63 |
| `Fields.RequiredBitsLeast` | codec/src/snapshot.rs:791-796 | The width is the least that holds the range |
| `Fields.FixedSum` | codec/src/snapshot.rs:615-630 | Adding an offset with wrap-around lands in range exactly when the true sum does |
| `Fields.FixedDifference` | codec/src/snapshot.rs:371-376 | The wrapped difference cast to unsigned is the true difference, for any two bounds |
| `Fields.WriteFieldValue` | codec/src/snapshot.rs:322-391 | Succeeds exactly on in-range values of the codec's kind that fit, and appends their bits, which are those of `FieldBits.FieldWritten` |
| `Fields.ReadFieldValue` | codec/src/snapshot.rs:584-634 | Computes, for any bytes, the reading that `Readings.FieldRead` and `Readings.VarintRead` describe bit by bit |
| `FullSnapshots.FullRoundTrip` | codec/src/snapshot.rs:49-158 | A full snapshot packet parses exactly when the wire limits allow it, always decodes, and equals the snapshot sent if and only if that listed components in schema order |
| `FullSnapshots.EncodeFullSnapshot` | codec/src/snapshot.rs:49-93 | Success exactly when ids ascend and limits, values and room allow it; the bytes are then the packet |
| `FullSnapshots.DecodeFullSnapshotFromPacket` | codec/src/snapshot.rs:107-158 | Accepts exactly a full header with at most one create section that decodes |
| `FullSnapshots.CompactFullRejected` | wire/src/session.rs:141-152 | Whatever full packet a compact header brings, the decoder of full snapshots refuses it |
| `SessionHeaders.TickShift` | wire/src/session.rs:104-164 | A receiver at any last tick that accepts a compact delta header reads both ticks shifted by the difference of the last ticks; they are right if and only if those are equal |
| `SessionHeaders.SessionHeaderBack` | wire/src/session.rs:77-164 | A compact header is read back as the differences written, whatever follows |
| `SessionHeaders.EncodeSessionHeader` | wire/src/session.rs:77-101 | Writes the header in place, exactly when there is room for the longest and the flags are valid |
| `SessionHeaders.DecodeSessionHeader` | wire/src/session.rs:104-164 | Computes the reading named in that round trip, for any bytes |
| `Sessions.SessionPacketBack` | codec/src/session.rs:172-221 | A compact delta packet, with anything after it, is accepted exactly when the shifted ticks are in range and the wire limits allow its sections |
| `Sessions.EncodeDeltaSnapshotForClientSession` | codec/src/delta.rs:267-327 | Success exactly when ticks go up, the difference qualifies and the payload fits behind the longest header; the gap is closed, and the last tick moves only on success |
| `Sessions.DecodeSessionPacket` | codec/src/session.rs:172-221 | The last tick moves exactly when a packet is accepted, and then up to its tick |
| `Sessions.SessionInitRoundTrip` | codec/src/session.rs:38-134 | A session init packet starts the session at the sender's tick with the sender's id, except that an explicit id of zero comes back as none |
| `Sessions.EncodeSessionInitPacket` | codec/src/session.rs:38-71 | Success exactly when the section fits; the bytes are then the init packet |
| `Sessions.DecodeSessionInitPacket` | codec/src/session.rs:87-134 | Accepts exactly an init header for the schema with one init section |
| `Baselines.HoldsLastAccepted` | codec/src/baseline.rs:71-94 | After any insertions the store holds exactly the last accepted ones, at most its capacity |
| `Baselines.AcceptedIncrease` | codec/src/baseline.rs:71-94 | Accepted ticks strictly increase |
| `Baselines.LatestGreatest` | codec/src/baseline.rs:105-112 | The entry found is the greatest retained tick not above the query, and there is none only when all are above |
| `Baselines.SelectedRetrievable` | codec/src/delta.rs:21-27 | A selected baseline can be looked up by its tick |
| `Baselines.PutOver` | codec/src/baseline.rs:87-90 | Overwriting the head of a full ring and moving it on drops the oldest entry and appends |
| `Baselines.BaselineStore.Insert` | codec/src/baseline.rs:71-94 | Refuses a tick that does not increase and changes nothing; otherwise the contents are the last entries with the new one appended |
| `Baselines.BaselineStore.Get` | codec/src/baseline.rs:97-99 | Exact lookup in the contents |
| `Baselines.BaselineStore.LatestAtOrBefore` | codec/src/baseline.rs:105-112 | The scan from the newest entry finds the one described above |
| `Baselines.BaselineStore.SelectBaselineTick` | codec/src/delta.rs:21-27 | The selected tick is in the store with its value |
| `Mirroring.MirrorRun` | repgraph/src/lib.rs:149-275 | In every run in which no removed id is tracked again before removals are cleared, whatever the budgets, deltas applied as lists never fail on ids and each client has exactly the entities the graph believes it knows |
| `Mirroring.ReAddedIff` | repgraph/src/lib.rs:238-262 | Whatever the budget, a delta fails on ids if and only if some removed entity that the client knows has been tracked again, is in view and has an update, and ranks within the destroy budget among the ids that leave and within the update budget among the ids updated |
| `Mirroring.TruncatedIds` | repgraph/src/lib.rs:285-300 | Cutting a sorted list off keeps exactly the ids whose rank is within the limit |
| `Mirroring.ReAddedExample` | repgraph/src/lib.rs:149-179 | One removed and re-added entity for which it fails, with budgets of one |
| `Mirroring.AppliesIff` | repgraph/src/lib.rs:197-262 | Under any budget a delta applies on ids if and only if no updated entity is also destroyed |
| `Mirroring.DeltaLists` | repgraph/src/lib.rs:206-249 | The three lists are sorted as the encoder requires: destroys among what leaves, creates among what is new in view, updates among what is known in view |
| `Mirroring.ApplyKeepsIds` | codec/src/delta.rs:2219-2329 | A delta that applies to entities applies to their ids, with the set of ids that results |
| `Ticking.TicksConverge` | repgraph/src/lib.rs:149-275 | Any number of clients with any budgets, every build sent as a packet: over any run of ticks in which the world serves the copies clients have and each client is built after it last came or moved its view, all packets arrive and every client ends every tick with exactly the tracked entities in its view as the world shows them, if and only if in every tick the packets fit the link and no client's last build cuts off anything that it needs |
| `Ticking.TickSettles` | repgraph/src/lib.rs:262-275 | The same for one tick, in both directions: the marks are cleared once, for all clients |
| `Ticking.BuildStep` | repgraph/src/lib.rs:197-262 | One build of a client whose copies can be served, whatever its budget: the packet takes effect exactly when it arrives, copies can be served as before, and the client is settled if and only if nothing that comes or leaves is cut off and an update reaches every stale copy |
| `Ticking.CallsSettle` | repgraph/src/lib.rs:181-262 | Upserts, drops and builds in any order: they take effect if and only if every packet arrives, and then a client that was built last is settled if and only if that build cut off nothing that it needs |
| `Convergence.BuildConverges` | repgraph/src/lib.rs:197-300 | One build applied as lists, exactly, for any budget: the client ends up with what the world shows through its view if and only if that is within the limit, the ids that leave and that come into view are within the budget, and each known copy in view is made current by an update that ranks within the budget, or is current already |
| `Convergence.BuildResult` | repgraph/src/lib.rs:197-300 | Whatever the budget, a build applied as lists takes effect exactly when the result is within the limit and each update sent fits the copy it is for, and then every copy is the one described: created, updated, or left alone |
| `Convergence.ComponentsNeverAdded` | codec/src/delta.rs:2292-2329 | Whatever the world says, a client that knows an entity with other components than it has is not brought up to date |
| `Budgets.UncutConverges` | repgraph/src/lib.rs:285-300 | Where the budget cuts nothing off, a build converges if and only if the world serves every copy still in view |
| `Budgets.CutUpdateLost` | repgraph/src/lib.rs:262-300 | An update that is cut off is lost: the copy stays as it was, and after the marks are cleared no build has an update for it, whatever the world has come to by then |
| `Budgets.CutExample` | repgraph/src/lib.rs:285-300 | Two changed entities and room for one update: the client keeps the second as it was |
| `Budgets.BuildsDrain` | repgraph/src/lib.rs:285-300 | Creates and destroys that are cut off are made good: while nothing moves, `n` builds bring the client to the ids in view if and only if `n` budgets are enough |
| `Delivery.CarryIff` | codec/src/delta.rs:143-162 | Lists sent as a change-list packet arrive if and only if they can be written, parsed and decoded, and then apply as the lists do, with created entities in schema order |
| `Delivery.BuildCarried` | repgraph/tests/repgraph_delta.rs:166-194 | One build sent as a packet, exactly: the condition of `BuildConverges`, created entities in schema order, and a packet that can be written, parsed and decoded |
| `Delivery.SendChanges` | repgraph/tests/repgraph_delta.rs:172-194 | The two library calls, encoding the lists and applying the bytes, compute the function that the runs use |
| `Convergence.SetComponentsTwice` | codec/src/delta.rs:2292-2329 | Component updates carry values, so applying them a second time changes nothing |
| `Adapters.AdapterServes` | repgraph/src/lib.rs:103-114 | An adapter serves a copy if and only if the copy has the components of the entity and differs in dirty ones only, or, when a dirty component has no adapter and the update is dropped, if and only if it is current |
| `Adapters.CompleteServes` | sdec-bevy/src/schema.rs:225-247 | For the adapter that sends dirty components complete |
| `Adapters.DiffServes` | repgraph/tests/repgraph_delta.rs:72-95 | For the adapter that sends only the fields that differ from the previous world, and nothing where none does |
| `Marks.DiffTickSettles` | repgraph/tests/repgraph_delta.rs:114-264 | A tick in terms of the game, in packets: with that adapter, every change marked and every client built after it last came or moved its view, all packets arrive and all clients end the tick with what the world shows them, if and only if the packets fit the link and no last build cuts off anything needed |
| `Marks.AdapterAscends` | repgraph/src/lib.rs:277-283 | What a graph and an adapter produce can be decoded if and only if, for each entity sent an update, the dirty components that the entity has were marked in ascending order |
| `Marks.AdapterArrives` | repgraph/tests/repgraph_delta.rs:172-194 | When the packet of one build arrives, in those terms: it can be written and parsed, the result is within the limit, and the marks ascend |
| `Marks.DiffServesTick` | repgraph/tests/repgraph_delta.rs:72-95 | Such an adapter gives a tick what it asks of the world if and only if the game has marked every change |
| `GraphWitnesses.MarkedBackwards` | repgraph/src/lib.rs:277-283 | An entity marked in descending order: its update would bring the client up to date as a list, is written into a packet, and cannot be decoded |
| `GraphWitnesses.AddedComponentRefused` | codec/src/delta.rs:2303-2311 | A component added to a known entity and marked: the client cannot apply the delta |
| `GraphWitnesses.UnregisteredDropsUpdate` | sdec-bevy/src/schema.rs:225-247 | One dirty component without an adapter: no update is sent and the client keeps its old copy |
| `Graphs.ReplicationGraph.BuildClientDelta` | repgraph/src/lib.rs:197-262 | The loops compute the delta of the graph state and record what the client then knows |
| `Graphs.ReplicationGraph.UpdateEntity` | repgraph/src/lib.rs:149-165 | Computes the graph of `Tracking.TrackRecords`: a new entity is refused when full; a tracked one is moved and its marks united |
| `Graphs.ReplicationGraph.RemoveEntity` | repgraph/src/lib.rs:175-178 | The entity is dropped and waits to be removed |
| `Graphs.ReplicationGraph.UpsertClient` | repgraph/src/lib.rs:181-189 | A known client keeps what it knows; a new one knows nothing |
| `Graphs.ReplicationGraph.ClearDirty` | repgraph/src/lib.rs:265-269 | All marks and nothing else are cleared |
| `Graphs.ReplicationGraph.FindDestroys` | repgraph/src/lib.rs:230-246 | Two passes and a sort give the ordered list of known ids out of view or waiting to be removed |
| `Graphs.OrderedIdsProperties` | repgraph/src/lib.rs:206-212 | Walking an ordered set meets each member once, in ascending order |
| `Changes.ChangedIff` | codec/src/delta.rs:2580-2646 | A value counts as changed exactly when it moved by more than the threshold, in the distance of its kind (round the 64-bit circle where the comparison wraps); for booleans and without a threshold, exactly when it differs |
| `Changes.FieldListed` | codec/src/delta.rs:2562-2592 | A field is listed as changed, with the current value, exactly when both sides have the component, of the same shape, and the field moved in that sense |
| `Changes.DeltaSays` | codec/src/delta.rs:1158-1209 | The updates of the difference of two snapshots say that a field of an entity is now `v` exactly when both snapshots have the entity, the field moved, and `v` is its current value |
| `Changes.DeltaIds` | codec/src/delta.rs:1055-1156 | Destroyed are exactly the ids that are gone, created exactly the entities that are new, as they are |
| `Changes.NothingMoved` | codec/src/delta.rs:2648-2692 | Where no field of any common entity moved, there is no update, not even an empty one |
| `FieldBits.FieldWritten` | codec/src/snapshot.rs:322-391 | The bits of a field, codec by codec: one bit; the digits of the number in the width of the codec, two's complement if signed; the distance from the minimum in the least width that holds the range; or a varint on a byte boundary |
| `FieldBits.EncodableIff` | codec/src/snapshot.rs:322-391 | A codec takes exactly the values of its kind between its lowest and highest |
| `FieldBits.IndexWritten` | codec/src/delta.rs:1338-1466 | A packed field index takes the least width that holds the last index, none for a single field, and is written in binary digits; the other layout writes a varint on a byte boundary |
| `FieldBits.LookupWidths` | codec/src/delta.rs:1037-1053 | The lookup table has that least width for every component of the schema |
| `Readings.FieldRead` | codec/src/snapshot.rs:584-634 | A field of fixed width is read from any bits as `v` exactly when those bits are the ones written for `v`; all other bits are refused |
| `Readings.VarintRead` | codec/src/snapshot.rs:584-634 | A varint field is read from the next byte boundary, whatever bits are skipped, exactly when a varint stands there |
| `Readings.DestroysRead` | codec/src/delta.rs:1568-1612 | A body is accepted as destroys exactly when it is within the limits and is a count with as many ascending ids behind it, and nothing else |
| `Readings.AppliedIff` | codec/src/delta.rs:566-619 | A packet applies to a baseline exactly when it is a delta of this schema against that tick, not zero, the baseline is in order, the sections decode, and ids, components, fields and the limit fit |
| `Readings.FullRead` | codec/src/snapshot.rs:107-158 | A packet is a full snapshot exactly when its header says so for this schema and it has no section or one create section that decodes within the limits |
| `Readings.InitRead` | codec/src/session.rs:137-169 | An init body is exactly nine bytes: the id, zero for none, and a one |
| `Readings.InitPacketRead` | codec/src/session.rs:87-135 | A packet starts a session exactly when it is an init of this schema with that one section |
| `Numerals.BitDigit` | bitstream/src/writer.rs:50-66 | Bit `k` of a number written in `n` bits is its binary digit, highest first |
| `Numerals.ByteDigit` | bitstream/src/writer.rs:165-178 | Bits go into bytes from the highest to the lowest |
| `Numerals.WordDigit` | bitstream/src/writer.rs:93-106 | Byte `i` of a word is its digit to base 256, lowest first |
| `Numerals.VarintLength` | bitstream/src/writer.rs:108-123 | A varint takes at most `n` bytes exactly when the number is below 2 to the 7n |
| `Numerals.VarintDigit` | bitstream/src/writer.rs:108-123 | Byte `i` of a varint is the digit to base 128, with the top bit in all but the last |
| `Numerals.VarintRead` | bitstream/src/reader.rs:126-138 | Any bytes: a varint is read exactly when a byte without the top bit comes within five, as the digits before it, cut to 32 bits |
| `Numerals.ZigZagOrder` | bitstream/src/writer.rs:125-130 | Zigzag is twice the number, or one less than twice its size where it is negative |
| `Numerals.PaddingIsZero` | bitstream/src/writer.rs:68-80 | Aligning adds fewer than eight bits, all of them zero |
| `BodyBits.HeadWritten` | codec/src/delta.rs:1055-1105 | A body starts with its count as a varint |
| `BodyBits.IdWritten` | codec/src/delta.rs:1550-1566 | An id is four bytes from the next byte boundary on |
| `BodyBits.DestroysWritten` | codec/src/delta.rs:1055-1105 | A destroy body is the count and the ids, four bytes each |
| `BodyBits.CreateMask` | codec/src/delta.rs:1550-1566 | After its id a created entity has one bit for each component of the schema, set where it has one |
| `BodyBits.FullMask` | codec/src/delta.rs:2359-2391 | A created component starts with one set bit for each field |
| `BodyBits.ComponentBitsWritten` | codec/src/delta.rs:2428-2521 | After its id an updated entity has one bit for each component of the schema, set where the component is sent |
| `BodyBits.FieldBitsWritten` | codec/src/delta.rs:2428-2521 | An updated component starts with one bit for each of its fields, set where the field is sent |
| `BodyBits.EntryHeadWritten` | codec/src/delta.rs:1211-1466 | A sparse entry starts on a byte with entity, component and count: words and a varint, or three varints |
| `WireBytes.HeaderWritten` | wire/src/packet.rs:168-186 | A header is 28 bytes: the magic bytes, version, flags, schema hash, tick, baseline tick and payload length, each at its offset |
| `WireBytes.PacketIff` | wire/src/packet.rs:50-121 | A buffer is a packet exactly when lengths, magic, version 2, one of three kinds, the baseline tick that goes with it and the payload length are right and the payload is sections |
| `WireBytes.TagTable` | wire/src/packet.rs:11-34 | Six tags from one to six, and nothing else is a tag |
| `WireBytes.SectionWritten` | codec/src/snapshot.rs:161-211 | A section is a tag, the length as a varint and the body; six bytes are enough for what comes before the body |
| `WireBytes.SessionHeaderWritten` | wire/src/session.rs:77-102 | A compact header is a byte of flags and three varints, 16 bytes at most |
| `WireBytes.SessionHeaderIff` | wire/src/session.rs:104-164 | Which bytes are a compact header for a receiver, and of which ticks, length and end |
| `WireBytes.InitWritten` | codec/src/session.rs:74-85 | The init body is the id as eight bytes, zero for none, and a one |
| `Golden.GoldenPackets` | codec/src/snapshot.rs:900-966 | Full packets of two schemas, byte for byte but for the hash, and of no entities |
| `Prefixes.DestroysEnd` | codec/src/delta.rs:1568-1612 | Nothing may follow an accepted destroy body |
| `Prefixes.CreatesEnd` | codec/src/delta.rs:1614-1686 | Nothing may follow an accepted create body |
| `Prefixes.MaskedEnd` | codec/src/delta.rs:1688-1757 | Nothing may follow an accepted masked body |
| `Prefixes.SparseEnd` | codec/src/delta.rs:1759-2116 | Nothing may follow an accepted sparse body of either kind |
| `Refusals.DeltaExactly` | codec/src/delta.rs:2118-2196 | Sections are a delta exactly when none is an init, and there is at most one of destroys, one of creates and one of updates of any encoding, in any order, each of which decodes |
| `Refusals.LongBodiesRefused` | codec/src/delta.rs:1568-1586 | A body over the section limit is refused by every decoder |
| `Refusals.PartialCreateRefused` | codec/src/delta.rs:2393-2426 | A created component is accepted only with the bits of all its fields set |
| `Refusals.EmptyMaskedTaken` | codec/src/delta.rs:1688-1757 | A masked update with no component set is accepted, as an update without components |
| `Refusals.SparseCounts` | codec/src/delta.rs:1759-2116 | An accepted sparse section has no more entries and entities than the limits allow |
| `Choices.PackedIff` | codec/src/delta.rs:713-814 | The automatic mode packs the updates exactly when the bits of heads and indices they would take packed are no more than the field masks, and there are masks; the session path always packs them |
| `Choices.SectionTags` | codec/src/delta.rs:374-480 | A delta is sent as destroys, creates and updates in this order, each only when there are some, with the tag of the chosen encoding |
| `Choices.FitsIff` | codec/src/snapshot.rs:161-211 | Sections have room exactly when each has: six reserved bytes and its body behind the ones before it, and a body within the limits |
| `Demands.ScanIff` | codec/src/delta.rs:374-480 | A scan succeeds, but for room, exactly when ids ascend, the tick is that of the baseline, counts are within the limits, new entities are known, complete and in range, and common ones match in components, kinds and, where they moved, ranges |
| `Demands.ListsIff` | codec/src/delta.rs:482-551 | Change lists are accepted, but for room, exactly when ids ascend, counts are within the limits, created entities are complete and in range, and every update names known components and fields with values in range |
| `Demands.FullIff` | codec/src/snapshot.rs:213-266 | A full snapshot is accepted, but for room, exactly when ids ascend, counts are within the limits and every entity is known, complete and in range |
| `Success.SendIff` | codec/src/delta.rs:267-327 | A server sends exactly when it finds a baseline, the tick is above the last one and not below the baseline, the snapshots meet the demands, and the payload fits |
| `Success.SendSucceeds` | codec/src/delta.rs:267-327 | With a baseline, a new tick and the demands met, room for 36 bytes, four for each destroyed entity and a bound computed from the schema for each other one is enough |
| `Tracking.TrackRecords` | repgraph/src/lib.rs:149-165 | Tracking is refused exactly when the entity is new and the graph full; otherwise the entity is at the position given, marked with the old marks and the new ones and no others, old ones first and none twice, with its priority, and nothing else changes |
| `Tracking.PushedMembers` | repgraph/src/lib.rs:277-283 | Marking adds exactly the components given and keeps the old marks in front |
| `Tracking.MarkedIsUpdated` | repgraph/src/lib.rs:197-230 | A known entity that is tracked in view with marks is sent an update exactly when the world has one for its marks, all new ones among them |
| `Tracking.RemoveRecords` | repgraph/src/lib.rs:175-178 | A removed entity is no longer tracked and waits in the removals; nothing else changes |
| `Tracking.RemovedLeaves` | repgraph/src/lib.rs:230-246 | A removed entity leaves every client that knows it |
| `Tracking.UpsertRecords` | repgraph/src/lib.rs:181-189 | The new view is the one in use, what a client knows is kept, and other clients are left alone |
| `Tracking.BuildRecords` | repgraph/src/lib.rs:197-262 | A build changes nothing but what that client knows; marks and removals stay |
| `Tracking.BuildSays` | repgraph/src/lib.rs:197-262 | Creates are the world's snapshots of unknown entities in view, updates its answers for the marks of known ones in view, destroys the known ones that leave; a list below its budget leaves none out |
| `Tracking.ViewReaches` | repgraph/src/lib.rs:205-212 | Along each axis a view reaches as far as its radius, the end included |
| `Numerals.WrapsAround` | codec/src/snapshot.rs:751-789 | Signed 64-bit arithmetic is exact up to multiples of 2 to the 64, and exact within range |
| `FieldBits.NarrowestOnce` | codec/src/snapshot.rs:791-796 | Only one width is the least for a range |
| `Tracking.ClearRecords` | repgraph/src/lib.rs:265-269 | Clearing marks leaves every entity where it is, with its priority and no marks |
| `Tracking.ForgetRecords` | repgraph/src/lib.rs:272-274 | Clearing the removals, or dropping a client, leaves everything else |
| `Tracking.AxesAddUp` | repgraph/src/lib.rs:25-30 | The squared distance is the sum of the squares along the three axes |
| `FieldBits.ValidCodecIff` | schema/src/schema.rs:109-140 | Integer codecs have 1 to 64 bits; fixed-point ranges are not empty and have a scale |
| `BodyOrder.CreatesInOrder` | codec/src/delta.rs:1107-1156 | Created entities are written one behind the other, in the order listed |
| `BodyOrder.FullsInOrder` | codec/src/delta.rs:1550-1566 | Components of a created entity come in the order of the schema, whatever order the entity has them in |
| `BodyOrder.ValuesInOrder` | codec/src/delta.rs:2359-2391 | Values come in the order of the fields |
| `BodyOrder.MaskedInOrder` | codec/src/delta.rs:1158-1209 | Masked entity updates are written one behind the other |
| `BodyOrder.ComponentsInOrder` | codec/src/delta.rs:2428-2521 | Their components come in the order of the schema |
| `BodyOrder.SelectedInOrder` | codec/src/delta.rs:2428-2521 | The values of changed fields come in the order listed |
| `BodyOrder.EntriesInOrder` | codec/src/delta.rs:1211-1466 | Sparse entries are written one behind the other |
| `BodyOrder.IndexedInOrder` | codec/src/delta.rs:1211-1466 | Each field of a sparse entry is an index and its value, in the order listed |
| `BodyOrder.EntriesListed` | codec/src/delta.rs:954-1010 | A list of updates gives one sparse entry for each component of each entity in turn, and none for an entity without components |

## Left out

- `BitVecWriter`: the growing twin of the bit writer, with the same operations.
- `schema/src/hash.rs`: the hash itself; nothing is claimed about collisions.
- Schema building and validation: `Schemas.ValidSchema` states what validation accepts, component ids being non-zero by type.
- `sparse` copies of the field reader and writer in `codec/src/snapshot.rs`: the same bodies as the dense ones, modelled once.
- Debug builds: there the overflows modelled as wrap-around are panics.
- `f32` rounding of distances, and entity priorities, which are stored and never read.
- `WorldView` implementations: an adapter is any pair of functions; `Adapters.CompleteAdapter` and `Adapters.DiffAdapter` are two, and storing the previous world between ticks is left to the caller.
- Bevy integration, command-line tools, simulations, benchmarks and fuzz targets.
- `Sessions.EncodeSessionInitPacket`: a buffer shorter than the packet header is a panic in the source, and a precondition here.
- `Endpoints.SendDelta` and `Endpoints.ReceiveDelta` compose library calls in the order in which a server and a client make them; the library has no function of its own for that.
- `RoundTrip.DeltaRoundTripExact`: speaks of entities that list components the schema knows, once each; for all others `RoundTrip.DeltaRoundTrip` with `Rebuilding.PatchMerges` says what arrives, by lookup.
- `ListRoundTrip.ListsRoundTrip`: asks that each component update has fewer than 2^32 field updates, because a longer list would have its count truncated.
- `Lockstep.StepInSync` and `Lockstep.RunInSync`: ask for buffers below 4 GiB, because the payload length is written as 32 bits.
- `Ticking.TicksConverge`: asks that created entities list their components in schema order, as decoders do, and that a new client starts from an empty snapshot at an agreed tick; `Delivery.BuildCarried` has the first as part of its condition.
- `Mirroring.MirrorRun`: speaks of entity ids; that components and fields of an update are there is part of `Convergence.BuildResult`.
- `BitOps.ZigZagIsShifts`: compares words, for which sums and differences are modulo 2^32; `Bitstream.ZigZag` is the same arithmetic on integers.
- `Choices.PackedIff`: the costs compared are those of heads, indices and field masks; that the layout chosen is the smaller one is not claimed, because the source only estimates (component masks, ids of masked entities and padding are not counted).
- `Success.SendSucceeds`: the room asked for is enough, not the least; the exact condition is in `Success.SendIff`.
- `Prefixes.MaskedEnd` and the other lemmas there: padding bits inside an accepted body may hold anything, and a varint may be padded with zero groups, so one list has several bodies.
