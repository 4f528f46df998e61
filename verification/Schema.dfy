/** Schemas, field values and snapshots. */
module Schemas {
  import opened Core

  datatype FieldCodec =
    | Bool
    | UInt(bits: nat)
    | SInt(sbits: nat)
    | VarUInt
    | VarSInt
    | FixedPoint(minQ: i64, maxQ: i64, scale: u32)

  datatype ChangePolicy = Always | Threshold(thresholdQ: u32)

  datatype FieldDef = FieldDef(id: u16, codec: FieldCodec, change: ChangePolicy)

  datatype ComponentDef = ComponentDef(id: u16, fields: seq<FieldDef>)

  datatype Schema = Schema(components: seq<ComponentDef>)

  predicate ValidCodec(c: FieldCodec) {
    match c
    case UInt(bits) => 1 <= bits <= 64
    case SInt(bits) => 1 <= bits <= 64
    case FixedPoint(lo, hi, scale) => scale != 0 && lo <= hi
    case _ => true
  }

  predicate ValidCodecs(fields: seq<FieldDef>) {
    forall i :: 0 <= i < |fields| ==> ValidCodec(fields[i].codec)
  }

  predicate UniqueFields(fields: seq<FieldDef>) {
    forall i, j :: 0 <= i < j < |fields| ==> fields[i].id != fields[j].id
  }

  predicate UniqueIds(defs: seq<ComponentDef>) {
    forall i, j :: 0 <= i < j < |defs| ==> defs[i].id != defs[j].id
  }

  /** Components listed in ascending id order: not required by `validate`, but needed by the sparse decoders. */
  predicate Ascending(defs: seq<ComponentDef>) {
    forall i, j :: 0 <= i < j < |defs| ==> defs[i].id < defs[j].id
  }

  predicate ValidComponent(c: ComponentDef) {
    c.id != 0 && UniqueFields(c.fields) && ValidCodecs(c.fields)
  }

  predicate ValidComponents(defs: seq<ComponentDef>) {
    forall i :: 0 <= i < |defs| ==> ValidComponent(defs[i])
  }

  /** What `Schema::validate` accepts, for component ids that are non-zero by type. */
  predicate ValidSchema(s: Schema) {
    UniqueIds(s.components) && ValidComponents(s.components)
  }

  datatype FieldValue =
    | VBool(b: bool)
    | VUInt(u: u64)
    | VSInt(i: i64)
    | VVarUInt(vu: u64)
    | VVarSInt(vi: i64)
    | VFixedPoint(q: i64)

  datatype ComponentSnapshot = ComponentSnapshot(id: u16, fields: seq<FieldValue>)

  datatype EntitySnapshot = EntitySnapshot(id: u32, components: seq<ComponentSnapshot>)

  datatype Snapshot = Snapshot(tick: u32, entities: seq<EntitySnapshot>)

  datatype CodecLimits = CodecLimits(
    maxEntitiesCreate: nat,
    maxEntitiesUpdate: nat,
    maxEntitiesDestroy: nat,
    maxComponentsPerEntity: nat,
    maxFieldsPerComponent: nat,
    maxSectionBytes: nat,
    maxTotalEntitiesAfterApply: nat)
}
