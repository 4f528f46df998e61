/**
 Between a game and the graph: adapters that describe entities component by component, and when
 what they say about a change serves the copies that clients have.
 */
module Adapters {
  import opened Core
  import opened Schemas
  import opened Diffs
  import opened Apply
  import opened ApplyAlgebra
  import opened Rebuilding
  import opened Exactness
  import opened Graphs
  import opened Mirroring
  import opened Convergence
  import opened Delivery

  /** The components an adapter knows, and the field updates, if any, it sends for a component of an entity. */
  datatype Adapter = Adapter(registered: u16 -> bool,
                             describe: u32 -> ComponentSnapshot -> Option<seq<(nat, FieldValue)>>)

  /** Updates for the dirty components that the entity has, in the order they were marked. */
  function Outgoing(describe: ComponentSnapshot -> Option<seq<(nat, FieldValue)>>, cs: seq<ComponentSnapshot>,
                    dirty: seq<u16>): seq<UpdateComponent>
  {
    if dirty == [] then []
    else Told(describe, FindComponent(cs, dirty[0])) + Outgoing(describe, cs, dirty[1..])
  }

  function Told(describe: ComponentSnapshot -> Option<seq<(nat, FieldValue)>>,
                     c: Option<ComponentSnapshot>): seq<UpdateComponent>
  {
    if c.Some? && describe(c.value).Some? then [UpdateComponent(c.value.id, describe(c.value).value)] else []
  }

  predicate Registered(a: Adapter, dirty: seq<u16>) {
    forall d :: d in dirty ==> a.registered(d)
  }

  /** One dirty component without an adapter, or nothing to say, and no update is sent at all. */
  function AdapterUpdate(a: Adapter, snapshot: u32 -> EntitySnapshot, id: u32, dirty: seq<u16>): Option<UpdateEntity> {
    var us := Outgoing(a.describe(id), snapshot(id).components, dirty);
    if !Registered(a, dirty) || us == [] then None else Some(UpdateEntity(id, us))
  }

  function AdapterWorld(a: Adapter, snapshot: u32 -> EntitySnapshot): WorldView {
    WorldView(snapshot, (id: u32, dirty: seq<u16>) => AdapterUpdate(a, snapshot, id, dirty))
  }

  /** Entities carry their own id and list no component twice. */
  ghost predicate ProperSnapshots(snapshot: u32 -> EntitySnapshot) {
    forall id :: snapshot(id).id == id && DistinctComponents(snapshot(id).components)
  }

  lemma AdapterRightIds(a: Adapter, snapshot: u32 -> EntitySnapshot)
    requires ProperSnapshots(snapshot)
    ensures RightIds(AdapterWorld(a, snapshot))
  {
    hide Outgoing, Registered;
  }

  // ---- When an adapter serves a copy ----

  /** The same components with the same number of fields, equal but for the components in `dirty`. */
  predicate SameExcept(e: EntitySnapshot, s: EntitySnapshot, dirty: seq<u16>) {
    && SameComponentIds(e.components, s.components)
    && forall k :: 0 <= k < |s.components| ==>
         |e.components[k].fields| == |s.components[k].fields|
         && (s.components[k].id !in dirty ==> e.components[k] == s.components[k])
  }

  /** What is said about a component turns `x` into `y`, and nothing is said only if they are equal. */
  predicate Repaired(describe: ComponentSnapshot -> Option<seq<(nat, FieldValue)>>, x: ComponentSnapshot,
                     y: ComponentSnapshot)
  {
    match describe(y)
    case None => x == y
    case Some(fs) => x.id == y.id && SetFields(x.fields, fs) == Some(y.fields)
  }

  predicate AllRepaired(describe: ComponentSnapshot -> Option<seq<(nat, FieldValue)>>, cs: seq<ComponentSnapshot>,
                        goal: seq<ComponentSnapshot>, dirty: seq<u16>)
  {
    && SameComponentIds(cs, goal)
    && forall k :: 0 <= k < |goal| ==>
         if goal[k].id in dirty then Repaired(describe, cs[k], goal[k]) else cs[k] == goal[k]
  }

  lemma {:induction false} FoundIndex(cs: seq<ComponentSnapshot>, id: u16) returns (k: nat)
    requires FindComponent(cs, id).Some?
    ensures k < |cs| && FindComponent(cs, id) == Some(cs[k]) && cs[k].id == id
  {
    if cs[0].id == id {
      k := 0;
    } else {
      k := FoundIndex(cs[1..], id);
      k := k + 1;
    }
  }

  lemma {:induction false} MissingComponent(cs: seq<ComponentSnapshot>, id: u16, k: nat)
    requires FindComponent(cs, id).None? && k < |cs|
    ensures cs[k].id != id
  {
    if k > 0 {
      MissingComponent(cs[1..], id, k - 1);
    }
  }

  /** A component that is repaired is repaired again by the same updates. */
  lemma RepairedAgain(describe: ComponentSnapshot -> Option<seq<(nat, FieldValue)>>, x: ComponentSnapshot,
                      y: ComponentSnapshot)
    requires Repaired(describe, x, y)
    ensures Repaired(describe, y, y)
  {
    hide SetFields;
    if describe(y).Some? {
      SetFieldsTwice(x.fields, describe(y).value);
    }
  }

  /** Repairing one dirty component after the other. */
  lemma {:induction false} Repairs(describe: ComponentSnapshot -> Option<seq<(nat, FieldValue)>>,
                                   cs: seq<ComponentSnapshot>, goal: seq<ComponentSnapshot>, dirty: seq<u16>)
    requires DistinctComponents(goal) && AllRepaired(describe, cs, goal, dirty)
    ensures SetComponents(cs, Outgoing(describe, goal, dirty)) == Some(goal)
    decreases |dirty|
  {
    hide FindComponent, SetComponent, Repaired;
    if dirty == [] {
      assert cs == goal;
    } else {
      var head := Told(describe, FindComponent(goal, dirty[0]));
      var rest := Outgoing(describe, goal, dirty[1..]);
      var next := Repair(describe, cs, goal, dirty);
      Repairs(describe, next, goal, dirty[1..]);
      if head != [] {
        assert (head + rest)[1..] == rest;
      } else {
        assert head + rest == rest;
      }
    }
  }

  lemma Repair(describe: ComponentSnapshot -> Option<seq<(nat, FieldValue)>>, cs: seq<ComponentSnapshot>,
               goal: seq<ComponentSnapshot>, dirty: seq<u16>) returns (next: seq<ComponentSnapshot>)
    requires dirty != [] && DistinctComponents(goal) && AllRepaired(describe, cs, goal, dirty)
    ensures AllRepaired(describe, next, goal, dirty[1..])
    ensures var head := Told(describe, FindComponent(goal, dirty[0]));
            if head == [] then next == cs else SetComponent(cs, head[0]) == Some(next)
  {
    hide FindComponent, SetComponent, SetFields;
    if FindComponent(goal, dirty[0]).None? {
      next := cs;
      forall k | 0 <= k < |goal|
        ensures goal[k].id != dirty[0]
      {
        MissingComponent(goal, dirty[0], k);
      }
    } else {
      var k := FoundIndex(goal, dirty[0]);
      RepairedAgain(describe, cs[k], goal[k]);
      next := cs[k := goal[k]];
      if describe(goal[k]).Some? {
        SetComponentAt(cs, UpdateComponent(goal[k].id, describe(goal[k]).value), k);
      } else {
        assert next == cs;
      }
    }
  }

  /** Nothing is written to a component that is not dirty. */
  lemma {:induction false} CleanUntouched(describe: ComponentSnapshot -> Option<seq<(nat, FieldValue)>>,
                                          cs: seq<ComponentSnapshot>, dirty: seq<u16>, id: u16)
    requires id !in dirty
    ensures WritesFor(Outgoing(describe, cs, dirty), id) == []
  {
    hide FindComponent;
    if dirty != [] {
      CleanUntouched(describe, cs, dirty[1..], id);
      var head, rest := Told(describe, FindComponent(cs, dirty[0])), Outgoing(describe, cs, dirty[1..]);
      if head != [] {
        assert (head + rest)[1..] == rest;
      } else {
        assert head + rest == rest;
      }
    }
  }

  /** A copy that updates make current differs from the entity in dirty components only. */
  lemma OnlyDirtyDiffer(describe: ComponentSnapshot -> Option<seq<(nat, FieldValue)>>, e: EntitySnapshot,
                        s: EntitySnapshot, dirty: seq<u16>)
    requires DistinctComponents(s.components)
    requires SetComponents(e.components, Outgoing(describe, s.components, dirty)) == Some(s.components)
    ensures SameExcept(e, s, dirty)
  {
    hide SetComponents, Outgoing, WritesFor, SetFields;
    var us := Outgoing(describe, s.components, dirty);
    SetComponentsLength(e.components, us);
    if s.components != [] {
      SetComponentsPlace(e.components, us, 0);
    }
    forall k | 0 <= k < |s.components|
      ensures |e.components[k].fields| == |s.components[k].fields|
      ensures s.components[k].id !in dirty ==> e.components[k] == s.components[k]
    {
      SetComponentsPlace(e.components, us, k);
      NothingSet(e.components[k].fields);
      if s.components[k].id !in dirty {
        CleanUntouched(describe, s.components, dirty, s.components[k].id);
      }
    }
  }

  /** What an adapter says about each dirty component brings it up to date. */
  predicate Describes(a: Adapter, id: u32, e: EntitySnapshot, s: EntitySnapshot, dirty: seq<u16>) {
    SameExcept(e, s, dirty) ==>
      forall k :: 0 <= k < |s.components| && s.components[k].id in dirty ==>
        Repaired(a.describe(id), e.components[k], s.components[k])
  }

  /**
   When an adapter serves a copy: if and only if the copy has the entity's components, with the
   same number of fields, and differs from it in dirty components only; or, when a dirty component
   has no adapter and the whole update is dropped, if and only if the copy is current.
   */
  lemma AdapterServes(a: Adapter, snapshot: u32 -> EntitySnapshot, id: u32, dirty: seq<u16>, e: EntitySnapshot)
    requires ProperSnapshots(snapshot) && e.id == id && Describes(a, id, e, snapshot(id), dirty)
    ensures Serves(AdapterWorld(a, snapshot), id, dirty, e)
       <==> if Registered(a, dirty) then SameExcept(e, snapshot(id), dirty) else e == snapshot(id)
  {
    hide Outgoing, Registered, SetComponents;
    var s := snapshot(id);
    var us := Outgoing(a.describe(id), s.components, dirty);
    NothingDirty(a.describe(id), s.components);
    assert SetComponents(e.components, []) == Some(e.components) by { NoneSet(e.components); }
    assert SetComponents(e.components, us) == Some(s.components) <==> SameExcept(e, s, dirty) by {
      if SameExcept(e, s, dirty) {
        Repairs(a.describe(id), e.components, s.components, dirty);
      }
      if SetComponents(e.components, us) == Some(s.components) {
        OnlyDirtyDiffer(a.describe(id), e, s, dirty);
      }
    }
  }

  lemma NothingDirty(describe: ComponentSnapshot -> Option<seq<(nat, FieldValue)>>, cs: seq<ComponentSnapshot>)
    ensures Outgoing(describe, cs, []) == []
  {
  }

  // ---- Two adapters ----

  /** The fields that differ from the old ones, by index, from `k` on; a field that was not there differs. */
  function ChangedFields(was: seq<FieldValue>, values: seq<FieldValue>, k: nat): seq<(nat, FieldValue)>
    requires k <= |values|
    decreases |values| - k
  {
    if k == |values| then []
    else (if k < |was| && was[k] == values[k] then [] else [(k, values[k])]) + ChangedFields(was, values, k + 1)
  }

  lemma {:induction false} ChangedFieldsSet(was: seq<FieldValue>, goal: seq<FieldValue>, values: seq<FieldValue>,
                                            k: nat)
    requires |values| == |goal| && k <= |goal| && values[..k] == goal[..k]
    requires forall i :: k <= i < |goal| && i < |was| && was[i] == goal[i] ==> values[i] == goal[i]
    ensures SetFields(values, ChangedFields(was, goal, k)) == Some(goal)
    decreases |goal| - k
  {
    if k < |goal| {
      var next := values[k := goal[k]];
      assert next[..k + 1] == values[..k] + [goal[k]] == goal[..k + 1];
      var rest := ChangedFields(was, goal, k + 1);
      ChangedFieldsSet(was, goal, next, k + 1);
      if k < |was| && was[k] == goal[k] {
        assert next == values;
        assert [] + rest == rest;
      } else {
        assert ([(k, goal[k])] + rest)[1..] == rest;
      }
    } else {
      assert values == values[..k] == goal;
    }
  }

  /** Every dirty component complete. */
  function CompleteAdapter(registered: u16 -> bool): Adapter {
    Adapter(registered, (id: u32) => (c: ComponentSnapshot) => Some(ChangedFields([], c.fields, 0)))
  }

  /** Only the fields of dirty components that differ from the previous world, and nothing where none does. */
  function DiffAdapter(previous: u32 -> Option<EntitySnapshot>): Adapter {
    Adapter((d: u16) => true, (id: u32) => (c: ComponentSnapshot) => Difference(previous(id), c))
  }

  function Difference(previous: Option<EntitySnapshot>, c: ComponentSnapshot): Option<seq<(nat, FieldValue)>> {
    match previous
    case None => None
    case Some(p) =>
      var x :- FindComponent(p.components, c.id);
      var fs := ChangedFields(x.fields, c.fields, 0);
      if fs == [] then None else Some(fs)
  }

  lemma CompleteDescribes(registered: u16 -> bool, id: u32, e: EntitySnapshot, s: EntitySnapshot, dirty: seq<u16>)
    ensures Describes(CompleteAdapter(registered), id, e, s, dirty)
  {
    hide SetFields;
    if SameExcept(e, s, dirty) {
      forall k | 0 <= k < |s.components| && s.components[k].id in dirty
        ensures Repaired(CompleteAdapter(registered).describe(id), e.components[k], s.components[k])
      {
        ChangedFieldsSet([], s.components[k].fields, e.components[k].fields, 0);
      }
    }
  }

  lemma DiffDescribes(previous: u32 -> Option<EntitySnapshot>, id: u32, e: EntitySnapshot, s: EntitySnapshot,
                      dirty: seq<u16>)
    requires DistinctComponents(s.components)
    requires previous(id) == Some(e) || e == s
    ensures Describes(DiffAdapter(previous), id, e, s, dirty)
  {
    hide SetFields, FindComponent;
    if SameExcept(e, s, dirty) && previous(id).Some? {
      forall k | 0 <= k < |s.components| && s.components[k].id in dirty
        ensures Repaired(DiffAdapter(previous).describe(id), e.components[k], s.components[k])
      {
        var x, y := e.components[k], s.components[k];
        var was := FindComponent(previous(id).value.components, y.id);
        if previous(id) == Some(e) {
          ComponentAt(e.components, k);
        }
        if was.Some? {
          ChangedFieldsSet(was.value.fields, y.fields, x.fields, 0);
          NothingSet(x.fields);
        }
      }
    }
  }

  /** An adapter that sends dirty components complete. */
  lemma CompleteServes(registered: u16 -> bool, snapshot: u32 -> EntitySnapshot, id: u32, dirty: seq<u16>,
                       e: EntitySnapshot)
    requires ProperSnapshots(snapshot) && e.id == id
    ensures var a := CompleteAdapter(registered);
            Serves(AdapterWorld(a, snapshot), id, dirty, e)
            <==> if Registered(a, dirty) then SameExcept(e, snapshot(id), dirty) else e == snapshot(id)
  {
    CompleteDescribes(registered, id, e, snapshot(id), dirty);
    AdapterServes(CompleteAdapter(registered), snapshot, id, dirty, e);
  }

  /** An adapter that sends what differs from the previous world serves what the previous world showed. */
  lemma DiffServes(previous: u32 -> Option<EntitySnapshot>, snapshot: u32 -> EntitySnapshot, id: u32, dirty: seq<u16>,
                   e: EntitySnapshot)
    requires ProperSnapshots(snapshot) && e.id == id && previous(id) == Some(e)
    ensures Serves(AdapterWorld(DiffAdapter(previous), snapshot), id, dirty, e)
       <==> SameExcept(e, snapshot(id), dirty)
  {
    DiffDescribes(previous, id, e, snapshot(id), dirty);
    AdapterServes(DiffAdapter(previous), snapshot, id, dirty, e);
  }
}
