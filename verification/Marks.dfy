/** What a game has to mark, and in which order, for its clients to receive what it shows. */
module Marks {
  import opened Core
  import opened Schemas
  import opened Diffs
  import opened UpdateLayouts
  import opened Encodings
  import opened Sections
  import opened RoundTrip
  import opened ListRoundTrip
  import opened Payloads
  import opened Graphs
  import opened Mirroring
  import opened Convergence
  import opened Delivery
  import opened Ticking
  import opened Adapters

  // ---- What a game has to mark ----

  /** All changes of an entity tracked since before the tick are in the components marked during it. */
  predicate ChangesMarked(was: Graph, g: Graph, before: WorldView, snapshot: u32 -> EntitySnapshot) {
    forall id :: id in g.entities && id in was.entities ==>
      SameExcept(before.snapshot(id), snapshot(id), g.entities[id].dirty)
  }

  /** An adapter with all components serves the clients of a tick exactly when the game has marked every change. */
  lemma MarkedServed(a: Adapter, was: Graph, g: Graph, before: WorldView, snapshot: u32 -> EntitySnapshot)
    requires ProperSnapshots(snapshot) && RightIds(before)
    requires forall id :: id in g.entities ==>
      && Registered(a, g.entities[id].dirty)
      && Describes(a, id, OldestCopy(was, before, AdapterWorld(a, snapshot), id), snapshot(id), g.entities[id].dirty)
    ensures (forall id :: id in g.entities ==>
               Served(g, AdapterWorld(a, snapshot), id, OldestCopy(was, before, AdapterWorld(a, snapshot), id)))
       <==> ChangesMarked(was, g, before, snapshot)
  {
    hide Serves, Registered, Describes;
    var world := AdapterWorld(a, snapshot);
    forall id | id in g.entities
      ensures Served(g, world, id, OldestCopy(was, before, world, id))
         <==> (id in was.entities ==> SameExcept(before.snapshot(id), snapshot(id), g.entities[id].dirty))
    {
      AdapterServes(a, snapshot, id, g.entities[id].dirty, OldestCopy(was, before, world, id));
    }
  }

  /**
   Sending what differs from the world before the tick is enough: it serves every client if and
   only if every change is marked.
   */
  lemma DiffServesTick(previous: u32 -> Option<EntitySnapshot>, was: Graph, g: Graph, before: WorldView,
                       snapshot: u32 -> EntitySnapshot)
    requires ProperSnapshots(snapshot) && RightIds(before)
    requires forall id :: id in g.entities && id in was.entities ==> previous(id) == Some(before.snapshot(id))
    ensures var world := AdapterWorld(DiffAdapter(previous), snapshot);
            (forall id :: id in g.entities ==> Served(g, world, id, OldestCopy(was, before, world, id)))
            <==> ChangesMarked(was, g, before, snapshot)
  {
    hide Describes, Served, RightIds, ChangesMarked;
    var a := DiffAdapter(previous);
    forall id | id in g.entities
      ensures Registered(a, g.entities[id].dirty)
      ensures Describes(a, id, OldestCopy(was, before, AdapterWorld(a, snapshot), id), snapshot(id),
                        g.entities[id].dirty)
    {
      DiffDescribes(previous, id, OldestCopy(was, before, AdapterWorld(a, snapshot), id), snapshot(id),
                    g.entities[id].dirty);
    }
    MarkedServed(a, was, g, before, snapshot);
  }

  // ---- Marks and packets ----

  /** The field updates of one component go by ascending index. */
  ghost predicate FieldsInOrder(a: Adapter) {
    forall id, c :: a.describe(id)(c).Some? ==> FieldsAscend(a.describe(id)(c).value, 0)
  }

  predicate IsTold(describe: ComponentSnapshot -> Option<seq<(nat, FieldValue)>>, cs: seq<ComponentSnapshot>, d: u16) {
    Told(describe, FindComponent(cs, d)) != []
  }

  /** The dirty components that something is said about were marked in ascending order. */
  predicate ToldInOrder(describe: ComponentSnapshot -> Option<seq<(nat, FieldValue)>>, cs: seq<ComponentSnapshot>,
                        dirty: seq<u16>)
  {
    forall i, j ::
      0 <= i < j < |dirty| && IsTold(describe, cs, dirty[i]) && IsTold(describe, cs, dirty[j]) ==> dirty[i] < dirty[j]
  }

  predicate ToldFrom(describe: ComponentSnapshot -> Option<seq<(nat, FieldValue)>>, cs: seq<ComponentSnapshot>,
                     dirty: seq<u16>, lo: nat)
  {
    forall i :: 0 <= i < |dirty| && IsTold(describe, cs, dirty[i]) ==> lo <= dirty[i]
  }

  /** Updates go out in the order of the marks, so their ids ascend if and only if the marks do. */
  lemma {:induction false} OutgoingAscend(describe: ComponentSnapshot -> Option<seq<(nat, FieldValue)>>,
                                          cs: seq<ComponentSnapshot>, dirty: seq<u16>, lo: nat)
    ensures ComponentsAscend(Outgoing(describe, cs, dirty), lo)
       <==> ToldInOrder(describe, cs, dirty) && ToldFrom(describe, cs, dirty, lo)
  {
    hide FindComponent;
    if dirty != [] {
      var head: seq<UpdateComponent> := Told(describe, FindComponent(cs, dirty[0]));
      var rest: seq<UpdateComponent> := Outgoing(describe, cs, dirty[1..]);
      if head == [] {
        assert head + rest == rest;
        OutgoingAscend(describe, cs, dirty[1..], lo);
        QuietFirst(describe, cs, dirty, lo);
      } else {
        assert (head + rest)[0].id == dirty[0] && (head + rest)[1..] == rest;
        var first: nat := dirty[0];
        OutgoingAscend(describe, cs, dirty[1..], first + 1);
        ToldFirst(describe, cs, dirty, lo);
      }
    }
  }

  lemma QuietFirst(describe: ComponentSnapshot -> Option<seq<(nat, FieldValue)>>, cs: seq<ComponentSnapshot>,
                   dirty: seq<u16>, lo: nat)
    requires dirty != [] && !IsTold(describe, cs, dirty[0])
    ensures ToldInOrder(describe, cs, dirty) && ToldFrom(describe, cs, dirty, lo)
       <==> ToldInOrder(describe, cs, dirty[1..]) && ToldFrom(describe, cs, dirty[1..], lo)
  {
    hide IsTold;
    assert dirty == [dirty[0]] + dirty[1..];
  }

  lemma ToldFirst(describe: ComponentSnapshot -> Option<seq<(nat, FieldValue)>>, cs: seq<ComponentSnapshot>,
                  dirty: seq<u16>, lo: nat)
    requires dirty != [] && IsTold(describe, cs, dirty[0])
    ensures ToldInOrder(describe, cs, dirty) && ToldFrom(describe, cs, dirty, lo)
       <==> && lo <= dirty[0]
            && ToldInOrder(describe, cs, dirty[1..])
            && var first: nat := dirty[0]; ToldFrom(describe, cs, dirty[1..], first + 1)
  {
    hide IsTold;
    assert dirty == [dirty[0]] + dirty[1..];
  }

  lemma {:induction false} AscendEach(us: seq<UpdateEntity>)
    ensures AllAscend(us) <==> forall u :: u in us ==> ComponentsAscend(u.components, 0)
  {
    hide ComponentsAscend;
    if us != [] {
      AscendEach(us[1..]);
      assert us == [us[0]] + us[1..];
    }
  }

  predicate OrderedFields(us: seq<UpdateComponent>) {
    forall u :: u in us ==> FieldsAscend(u.fields, 0)
  }

  lemma {:induction false} FieldsEach(id: u32, us: seq<UpdateComponent>, rest: seq<Entry>)
    requires OrderedFields(us) && AllFieldsAscend(rest)
    ensures AllFieldsAscend(ComponentEntries(id, us) + rest)
  {
    hide FieldsAscend;
    var es := ComponentEntries(id, us) + rest;
    if us == [] {
      assert es == rest;
    } else {
      FieldsEach(id, us[1..], rest);
      assert es[1..] == ComponentEntries(id, us[1..]) + rest;
      assert us[0] in us;
    }
  }

  lemma {:induction false} FieldsAll(us: seq<UpdateEntity>)
    requires forall u :: u in us ==> OrderedFields(u.components)
    ensures AllFieldsAscend(Entries(us))
  {
    hide OrderedFields;
    if us != [] {
      FieldsAll(us[1..]);
      FieldsEach(us[0].id, us[0].components, Entries(us[1..]));
    }
  }

  lemma {:induction false} OutgoingFields(a: Adapter, id: u32, cs: seq<ComponentSnapshot>, dirty: seq<u16>)
    requires FieldsInOrder(a)
    ensures OrderedFields(Outgoing(a.describe(id), cs, dirty))
  {
    hide FindComponent, FieldsAscend;
    if dirty != [] {
      OutgoingFields(a, id, cs, dirty[1..]);
      var c := FindComponent(cs, dirty[0]);
      if c.Some? && a.describe(id)(c.value).Some? {
        assert FieldsAscend(a.describe(id)(c.value).value, 0);
      }
    }
  }

  lemma SaidOutgoing(a: Adapter, snapshot: u32 -> EntitySnapshot, g: Graph, c: Client, id: u32)
    requires UpdateReaches(g, c, AdapterWorld(a, snapshot), id)
    ensures id in g.entities
    ensures SaidOf(g, c, AdapterWorld(a, snapshot), id)
         == Outgoing(a.describe(id), snapshot(id).components, g.entities[id].dirty)
  {
    hide Outgoing, Registered;
    ReachesDirty(g, c, AdapterWorld(a, snapshot), id);
  }

  /**
   What a graph and an adapter produce can be decoded if and only if, for each entity that is sent
   an update, the dirty components that it has were marked in ascending order.
   */
  lemma AdapterAscends(a: Adapter, snapshot: u32 -> EntitySnapshot, g: Graph, c: Client)
    requires ProperSnapshots(snapshot) && FieldsInOrder(a)
    ensures ListsAscend(DeltaFor(g, c, AdapterWorld(a, snapshot)).updates)
       <==> forall id :: id in g.entities && UpdateReaches(g, c, AdapterWorld(a, snapshot), id) ==>
              ToldInOrder(a.describe(id), snapshot(id).components, g.entities[id].dirty)
  {
    var world := AdapterWorld(a, snapshot);
    var us := DeltaFor(g, c, world).updates;
    AdapterRightIds(a, snapshot);
    SentEach(g, c, world);
    AscendEach(us);
    forall id | UpdateReaches(g, c, world, id)
      ensures id in g.entities && OrderedFields(SaidOf(g, c, world, id))
      ensures ComponentsAscend(SaidOf(g, c, world, id), 0)
         <==> ToldInOrder(a.describe(id), snapshot(id).components, g.entities[id].dirty)
    {
      SaidOutgoing(a, snapshot, g, c, id);
      OutgoingFields(a, id, snapshot(id).components, g.entities[id].dirty);
      OutgoingAscend(a.describe(id), snapshot(id).components, g.entities[id].dirty, 0);
      FromZero(a.describe(id), snapshot(id).components, g.entities[id].dirty);
    }
    FieldsAll(us);
  }

  lemma FromZero(describe: ComponentSnapshot -> Option<seq<(nat, FieldValue)>>, cs: seq<ComponentSnapshot>,
                 dirty: seq<u16>)
    ensures ToldFrom(describe, cs, dirty, 0)
  {
  }

  lemma {:induction false} ChangedAscend(was: seq<FieldValue>, values: seq<FieldValue>, k: nat)
    requires k <= |values|
    ensures FieldsAscend(ChangedFields(was, values, k), k)
    decreases |values| - k
  {
    if k < |values| {
      var rest := ChangedFields(was, values, k + 1);
      ChangedAscend(was, values, k + 1);
      if k < |was| && was[k] == values[k] {
        assert [] + rest == rest;
        AscendFrom(rest, k + 1, k);
      } else {
        assert ([(k, values[k])] + rest)[1..] == rest;
      }
    }
  }

  lemma TwoAdaptersInOrder(registered: u16 -> bool, previous: u32 -> Option<EntitySnapshot>)
    ensures FieldsInOrder(CompleteAdapter(registered)) && FieldsInOrder(DiffAdapter(previous))
  {
    hide FieldsAscend, FindComponent;
    forall c: ComponentSnapshot
      ensures FieldsAscend(ChangedFields([], c.fields, 0), 0)
    {
      ChangedAscend([], c.fields, 0);
    }
    forall x: ComponentSnapshot, c: ComponentSnapshot
      ensures FieldsAscend(ChangedFields(x.fields, c.fields, 0), 0)
    {
      ChangedAscend(x.fields, c.fields, 0);
    }
  }

  /** When the packet of one build arrives, in terms of the marks. */
  lemma AdapterArrives(a: Adapter, snapshot: u32 -> EntitySnapshot, g: Graph, c: Client, copy: Copy, link: Link)
    requires ProperSnapshots(snapshot) && FieldsInOrder(a)
    ensures var world := AdapterWorld(a, snapshot);
            var d := DeltaFor(g, c, world);
            Arrives(g, c, copy, world, link) <==>
            && Encodable(link, d) && copy.tick != 0
            && WireAllows(DeltaSections(link.schema, d, Sparse), link.wire)
            && |KnownAfter(c.known, d)| <= link.limits.maxTotalEntitiesAfterApply
            && forall id :: id in g.entities && UpdateReaches(g, c, world, id) ==>
                 ToldInOrder(a.describe(id), snapshot(id).components, g.entities[id].dirty)
  {
    hide Encodable, WireAllows, ListsAscend, DeltaFor, UpdateReaches, ToldInOrder, KnownAfter, ProperSnapshots,
      FieldsInOrder;
    AdapterAscends(a, snapshot, g, c);
  }

  /**
   A tick in the game's own terms: with entities described by what differs from the world before,
   every change marked, and every client built after it last came or looked elsewhere, all packets
   arrive and all clients end the tick with what the world shows them if and only if the packets fit
   the link and no client's last build cuts off what it needs.
   */
  lemma DiffTickSettles(s: Following, before: WorldView, previous: u32 -> Option<EntitySnapshot>,
                        snapshot: u32 -> EntitySnapshot, t: Tick, link: Link)
    requires Behind(s, before) && ProperSnapshots(snapshot) && ValidSchema(link.schema)
    requires forall id :: id in s.graph.entities ==> previous(id) == Some(before.snapshot(id))
    requires t.world == AdapterWorld(DiffAdapter(previous), snapshot)
    requires ChangesOk(s.graph, t.changes) && CallsOk(Marked(s, t, link), t.calls, t.world, link, t.number)
    requires var g := PerformAll(s.graph, t.changes);
             ChangesMarked(s.graph, g, before, snapshot) && Waiting(g.clients.Keys, t.calls) == {}
    ensures AfterTick(s, t, link).Some? && Ticking.Settled(AfterTick(s, t, link).value, t.world)
            <==> TickFits(s, t, link)
  {
    hide CallsOk, Served, AfterTick, TickFits, Marked, BehindWithin, ValidComponents, UniqueIds;
    AdapterRightIds(DiffAdapter(previous), snapshot);
    DiffServesTick(previous, s.graph, PerformAll(s.graph, t.changes), before, snapshot);
    TickSettles(s, before, t, link);
  }
}
