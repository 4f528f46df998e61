/**
 Runs of the replication graph with any number of clients: each tick the game changes the graph,
 the server builds every client and sends it a packet, and then the shared marks and removals are
 cleared.
 */
module Ticking {
  import opened Core
  import opened Schemas
  import opened Diffs
  import opened Layouts
  import opened Apply
  import opened Rebuilding
  import opened ListRoundTrip
  import opened Graphs
  import opened Mirroring
  import opened Convergence
  import opened Delivery

  /** The graph, and each client's copy of the world. */
  datatype Following = Following(graph: Graph, copies: map<u32, Copy>)

  /**
   One operation, with what it does to the clients: a build is sent as a packet and applied by the
   client it is for; a new client starts from an empty snapshot.
   */
  ghost function Act(s: Following, op: Op, link: Link, tick: u32): Option<Following> {
    var g := Perform(s.graph, op);
    match op
    case Upsert(client, _) =>
      Some(Following(g, if client in s.copies then s.copies else s.copies[client := Copy(link.start, map[])]))
    case Drop(client) => Some(Following(g, s.copies - {client}))
    case Build(client, world) =>
      if client in s.copies then
        var copy :- Carry(link, tick, s.copies[client], BuiltDelta(s.graph, client, world));
        Some(Following(g, s.copies[client := copy]))
      else Some(Following(g, s.copies))
    case _ => Some(Following(g, s.copies))
  }

  ghost function ActAll(s: Following, ops: seq<Op>, link: Link, tick: u32): Option<Following>
    decreases |ops|
  {
    if ops == [] then Some(s)
    else
      var next :- Act(s, ops[0], link, tick);
      ActAll(next, ops[1..], link, tick)
  }

  /**
   What happens during one tick: the game moves, marks and removes entities while clients come,
   go and look elsewhere; then, the world being settled, clients are built in any order, any
   number of times, and may still come, go and look elsewhere.
   */
  datatype Tick = Tick(number: u32, changes: seq<Op>, calls: seq<Op>, world: WorldView)

  /** The marks and the removals are cleared at the end, for all clients at once. */
  ghost function AfterTick(s: Following, t: Tick, link: Link): Option<Following> {
    var marked :- ActAll(s, t.changes, link, t.number);
    var built :- ActAll(marked, t.calls, link, t.number);
    Some(built.(graph := Perform(Perform(built.graph, ClearDirty), ClearRemoved)))
  }

  // ---- What a client has ----

  /** A client that has exactly what the world shows it. */
  ghost predicate ClientSettled(g: Graph, c: Client, copy: Copy, world: WorldView) {
    c.known == Relevant(g, c.view) && copy.entities == Visible(g, c.view, world)
  }

  /** A client whose entities are among `ids` and were current in the last world. */
  ghost predicate ClientBehind(ids: set<u32>, c: Client, copy: Copy, world: WorldView) {
    copy.entities.Keys == c.known <= ids && forall id :: id in copy.entities ==> copy.entities[id] == world.snapshot(id)
  }

  /** A client whose copies the world can still serve. */
  ghost predicate ClientServed(g: Graph, c: Client, copy: Copy, world: WorldView) {
    && copy.entities.Keys == c.known && OwnIds(copy.entities)
    && forall id :: id in copy.entities && id in g.entities ==> Served(g, world, id, copy.entities[id])
  }

  /** Every client has exactly what the world shows it, and nothing waits to be removed. */
  ghost predicate Settled(s: Following, world: WorldView) {
    && s.graph.removed == {}
    && s.copies.Keys == s.graph.clients.Keys
    && forall c :: c in s.copies ==> ClientSettled(s.graph, s.graph.clients[c], s.copies[c], world)
  }

  /** Every client's entities are among `ids` and were current in the last world; a new client has none. */
  ghost predicate BehindWithin(s: Following, ids: set<u32>, world: WorldView) {
    && s.copies.Keys == s.graph.clients.Keys
    && forall c :: c in s.copies ==> ClientBehind(ids, s.graph.clients[c], s.copies[c], world)
  }

  /** Where a run may start: nothing waits to be removed, and clients have tracked entities as they were. */
  ghost predicate Behind(s: Following, world: WorldView) {
    RightIds(world) && s.graph.removed == {} && BehindWithin(s, s.graph.entities.Keys, world)
  }

  lemma SettledBehind(s: Following, world: WorldView)
    requires RightIds(world) && Settled(s, world)
    ensures Behind(s, world)
  {
    hide Relevant, RightIds;
    forall c | c in s.copies
      ensures ClientBehind(s.graph.entities.Keys, s.graph.clients[c], s.copies[c], world)
    {
      assert ClientSettled(s.graph, s.graph.clients[c], s.copies[c], world);
      RelevantTracked(s.graph, s.graph.clients[c].view);
    }
  }

  // ---- The first half of a tick ----

  /** The game may do anything but build, and track again what waits to be removed. */
  ghost predicate ChangesOk(g: Graph, ops: seq<Op>)
    decreases |ops|
  {
    ops == [] ||
    (&& (ops[0].Track? || ops[0].Remove? || ops[0].Upsert? || ops[0].Drop?)
     && (ops[0].Track? ==> ops[0].id !in g.removed)
     && ChangesOk(Perform(g, ops[0]), ops[1..]))
  }

  /** Changes keep what clients have. */
  lemma {:induction false} ChangesHold(s: Following, ids: set<u32>, world: WorldView, ops: seq<Op>, link: Link,
                                       tick: u32)
    requires BehindWithin(s, ids, world) && Separate(s.graph) && ChangesOk(s.graph, ops)
    ensures var r := ActAll(s, ops, link, tick);
            r.Some? && r.value.graph == PerformAll(s.graph, ops)
            && BehindWithin(r.value, ids, world) && Separate(r.value.graph)
    decreases |ops|
  {
    hide Carry;
    if ops != [] {
      var next := Act(s, ops[0], link, tick).value;
      ChangeHolds(s, ids, world, ops[0], link, tick);
      hide Act, BehindWithin, Perform;
      ChangesHold(next, ids, world, ops[1..], link, tick);
    }
  }

  lemma ChangeHolds(s: Following, ids: set<u32>, world: WorldView, op: Op, link: Link, tick: u32)
    requires BehindWithin(s, ids, world) && Separate(s.graph)
    requires op.Track? || op.Remove? || op.Upsert? || op.Drop?
    requires op.Track? ==> op.id !in s.graph.removed
    ensures var r := Act(s, op, link, tick);
            r.Some? && r.value.graph == Perform(s.graph, op)
            && BehindWithin(r.value, ids, world) && Separate(r.value.graph)
  {
    hide PushUnique, Carry;
    var next := Act(s, op, link, tick).value;
    forall c | c in next.copies
      ensures ClientBehind(ids, next.graph.clients[c], next.copies[c], world)
    {
      if c in s.copies {
        assert ClientBehind(ids, s.graph.clients[c], s.copies[c], world);
      }
    }
  }

  // ---- One build in a tick ----

  /** Nothing that comes or leaves is cut off, and an update reaches every stale copy. */
  ghost predicate Fits(g: Graph, c: Client, copy: Copy, world: WorldView)
    requires copy.entities.Keys == c.known
  {
    && ListsFit(g, c)
    && forall id :: id in c.known && id in Relevant(g, c.view) && copy.entities[id] != world.snapshot(id) ==>
         UpdateReaches(g, c, world, id)
  }

  /** A packet that arrives: it can be written, parsed and decoded, and the client's limit admits the result. */
  ghost predicate Arrives(g: Graph, c: Client, copy: Copy, world: WorldView, link: Link) {
    && Carriable(link, copy.tick, DeltaFor(g, c, world))
    && |KnownAfter(c.known, DeltaFor(g, c, world))| <= link.limits.maxTotalEntitiesAfterApply
  }

  /** Tracked entities as they are now can be served too. */
  ghost predicate CurrentServed(g: Graph, world: WorldView) {
    forall id :: id in g.entities ==> Served(g, world, id, world.snapshot(id))
  }

  /** Created entities list their components as decoders do, and field counts are what can be written. */
  ghost predicate Regular(g: Graph, c: Client, world: WorldView, link: Link) {
    AllCountsFit(DeltaFor(g, c, world).updates) && CreatesInOrder(link.schema, DeltaFor(g, c, world))
  }

  lemma ServedFits(g: Graph, c: Client, world: WorldView, copy: Copy)
    requires ClientServed(g, c, copy, world)
    ensures UpdatesFit(g, c, world, copy.entities)
  {
    hide SetComponents, UpdateReaches;
    forall id | id in c.known && UpdateReaches(g, c, world, id)
      ensures SetComponents(copy.entities[id].components, SaidOf(g, c, world, id)).Some?
    {
      ReachesDirty(g, c, world, id);
    }
  }

  /** Created entities in schema order arrive as they are. */
  lemma CreatesArrive(g: Graph, c: Client, world: WorldView, link: Link)
    requires ValidSchema(link.schema) && RightIds(world) && Separate(g) && Regular(g, c, world, link)
    ensures var d := DeltaFor(g, c, world);
            var creates := NormalAll(link.schema, d.creates);
            && SameCreates(creates, d)
            && forall id :: id in EntityMap(creates) ==>
                 id in Relevant(g, c.view) && EntityMap(creates)[id] == world.snapshot(id)
  {
    var d := DeltaFor(g, c, world);
    BuiltIds(g, c, world);
    NormalMap(link.schema, d.creates);
    forall id | id in EntityMap(d.creates)
      ensures NormalEntity(link.schema, EntityMap(d.creates)[id]) == EntityMap(d.creates)[id]
    {
      NormalEntityIff(link.schema, EntityMap(d.creates)[id]);
    }
  }

  /** The client's copy after a packet has arrived can be served as before. */
  lemma StillServed(g: Graph, c: Client, world: WorldView, copy: Copy, after: Copy, creates: map<u32, EntitySnapshot>)
    requires RightIds(world) && ClientServed(g, c, copy, world) && CurrentServed(g, world)
    requires UpdatesFit(g, c, world, copy.entities)
    requires forall id :: id in creates ==> creates[id] == world.snapshot(id)
    requires forall id :: id in after.entities ==>
               && (id in c.known || id in creates)
               && after.entities[id] == CopyAfter(g, c, world, copy.entities, creates, id)
    ensures ClientServed(g, c.(known := after.entities.Keys), after, world)
  {
    hide RightIds, Served, CopyAfter, UpdatesFit, UpdateReaches;
    forall id | id in after.entities
      ensures after.entities[id].id == id && (id in g.entities ==> Served(g, world, id, after.entities[id]))
    {
      SnapshotId(world, id);
      if id !in c.known {
        NewCopy(g, c, world, copy.entities, creates, id);
      } else if UpdateReaches(g, c, world, id) {
        ReachesDirty(g, c, world, id);
        RefreshedCopy(g, c, world, copy.entities, creates, id);
      } else {
        KeptCopy(g, c, world, copy.entities, creates, id);
      }
    }
  }

  lemma KeptCopy(g: Graph, c: Client, world: WorldView, mirror: map<u32, EntitySnapshot>,
                 creates: map<u32, EntitySnapshot>, id: u32)
    requires mirror.Keys == c.known && id in c.known && !UpdateReaches(g, c, world, id)
    ensures CopyAfter(g, c, world, mirror, creates, id) == mirror[id]
  {
    hide UpdateReaches, SaidOf, SetComponents;
  }

  /** For copies that can be served, being refreshed is being reached or current. */
  lemma FitsRefreshed(g: Graph, c: Client, copy: Copy, world: WorldView)
    requires ClientServed(g, c, copy, world)
    ensures Fits(g, c, copy, world) <==>
            && ListsFit(g, c)
            && forall id :: id in c.known && id in Relevant(g, c.view) ==>
                 Refreshed(g, c, world, id, copy.entities[id])
  {
    hide Serves, UpdateReaches, ListsFit, OwnIds;
    RelevantTracked(g, c.view);
    hide Relevant;
  }

  lemma VisibleKeys(g: Graph, v: View, world: WorldView)
    ensures Visible(g, v, world).Keys == Relevant(g, v)
  {
    hide Relevant;
  }

  /**
   One build in a tick, whatever the budget. For a client whose copies can be served, the packet
   takes effect exactly when it arrives, copies can be served as before, and the client is settled
   if and only if the budget cuts nothing off that it needs.
   */
  lemma BuildStep(g: Graph, c: Client, world: WorldView, copy: Copy, link: Link, tick: u32)
    requires ValidSchema(link.schema) && RightIds(world) && Separate(g) && Regular(g, c, world, link)
    requires ClientServed(g, c, copy, world) && CurrentServed(g, world)
    ensures Carry(link, tick, copy, DeltaFor(g, c, world)).Some? <==> Arrives(g, c, copy, world, link)
    ensures var r := Carry(link, tick, copy, DeltaFor(g, c, world));
            var next := c.(known := KnownAfter(c.known, DeltaFor(g, c, world)));
            r.Some? ==> ClientServed(g, next, r.value, world)
                        && (ClientSettled(g, next, r.value, world) <==> Fits(g, c, copy, world))
  {
    hide Carriable, Carry, OwnIds, IdsApply, NormalAll, CreatesInOrder, Separate, Served, CopyAfter, UpdatesFit,
      Fits, ValidComponents, UniqueIds, CurrentServed, Sorted, SortedUpdates;
    var d := DeltaFor(g, c, world);
    var creates := NormalAll(link.schema, d.creates);
    BuildIdsApply(g, c, world);
    CarryIff(link, tick, copy, d);
    CreatesArrive(g, c, world, link);
    ServedFits(g, c, world, copy);
    BuildResult(g, c, world, copy.entities, link.limits, creates);
    var r := Carry(link, tick, copy, d);
    if r.Some? {
      StillServed(g, c, world, copy, r.value, EntityMap(creates));
      BuildCarried(link, tick, g, c, world, copy);
      FitsRefreshed(g, c, copy, world);
      BuiltIds(g, c, world);
      assert r.value == Copy(tick, r.value.entities);
      assert Visible(g, c.view, world).Keys == Relevant(g, c.view) by { VisibleKeys(g, c.view, world); }
    }
  }

  // ---- The second half of a tick ----

  /** Clients come, go, look elsewhere, or are built. */
  ghost predicate CallOk(s: Following, op: Op, world: WorldView, link: Link) {
    match op
    case Upsert(_, _) => true
    case Drop(_) => true
    case Build(client, w) =>
      w == world && (client in s.graph.clients ==> Regular(s.graph, s.graph.clients[client], world, link))
    case _ => false
  }

  ghost predicate CallsOk(s: Following, ops: seq<Op>, world: WorldView, link: Link, tick: u32)
    decreases |ops|
  {
    ops == [] ||
    (&& CallOk(s, ops[0], world, link)
     && (Act(s, ops[0], link, tick).Some? ==> CallsOk(Act(s, ops[0], link, tick).value, ops[1..], world, link, tick)))
  }

  /** The packet of a build arrives. */
  ghost predicate CallArrives(s: Following, op: Op, link: Link) {
    op.Build? && op.target in s.graph.clients && op.target in s.copies ==>
      Arrives(s.graph, s.graph.clients[op.target], s.copies[op.target], op.world, link)
  }

  ghost predicate CallsArrive(s: Following, ops: seq<Op>, link: Link, tick: u32)
    decreases |ops|
  {
    ops == [] ||
    (&& CallArrives(s, ops[0], link)
     && (Act(s, ops[0], link, tick).Some? ==> CallsArrive(Act(s, ops[0], link, tick).value, ops[1..], link, tick)))
  }

  /** Coming or looking elsewhere makes a client wait; being built, or gone, ends it. */
  function WaitingAfter(waiting: set<u32>, op: Op): set<u32> {
    match op
    case Upsert(client, _) => waiting + {client}
    case Drop(client) => waiting - {client}
    case Build(client, _) => waiting - {client}
    case _ => waiting
  }

  /** The clients not built since they last came or looked elsewhere. */
  function Waiting(waiting: set<u32>, ops: seq<Op>): set<u32>
    decreases |ops|
  {
    if ops == [] then waiting else Waiting(WaitingAfter(waiting, ops[0]), ops[1..])
  }

  /** The budget of the client that is built cuts off something that it needs. */
  ghost predicate CallMisses(s: Following, op: Op) {
    && op.Build? && op.target in s.graph.clients && op.target in s.copies
    && s.copies[op.target].entities.Keys == s.graph.clients[op.target].known
    && !Fits(s.graph, s.graph.clients[op.target], s.copies[op.target], op.world)
  }

  ghost function MissedAfter(s: Following, missed: set<u32>, op: Op): set<u32> {
    match op
    case Drop(client) => missed - {client}
    case Build(client, _) => if CallMisses(s, op) then missed + {client} else missed - {client}
    case _ => missed
  }

  /** The clients whose last build was cut off where it mattered. */
  ghost function Missed(s: Following, missed: set<u32>, ops: seq<Op>, link: Link, tick: u32): set<u32>
    decreases |ops|
  {
    if ops == [] || Act(s, ops[0], link, tick).None? then missed
    else Missed(Act(s, ops[0], link, tick).value, MissedAfter(s, missed, ops[0]), ops[1..], link, tick)
  }

  /** All copies can be served, current ones among them. */
  ghost predicate Serving(s: Following, world: WorldView) {
    && s.copies.Keys == s.graph.clients.Keys
    && Separate(s.graph)
    && CurrentServed(s.graph, world)
    && forall c :: c in s.copies ==> ClientServed(s.graph, s.graph.clients[c], s.copies[c], world)
  }

  /** Clients that do not wait are settled, but for those that missed something. */
  ghost predicate Tracking(s: Following, world: WorldView, waiting: set<u32>, missed: set<u32>) {
    && s.copies.Keys == s.graph.clients.Keys
    && missed <= s.copies.Keys
    && forall c :: c in s.copies && c !in waiting ==>
         (ClientSettled(s.graph, s.graph.clients[c], s.copies[c], world) <==> c !in missed)
  }

  /** What a client is shown depends on the tracked entities alone: operations on other clients leave it as it is. */
  lemma SameShown(g: Graph, h: Graph, c: Client, copy: Copy, world: WorldView)
    requires g.entities == h.entities
    ensures Relevant(g, c.view) == Relevant(h, c.view)
    ensures ClientSettled(g, c, copy, world) <==> ClientSettled(h, c, copy, world)
    ensures ClientServed(g, c, copy, world) <==> ClientServed(h, c, copy, world)
  {
    hide Serves, InView;
  }

  lemma SameCurrent(g: Graph, h: Graph, world: WorldView)
    requires g.entities == h.entities
    ensures CurrentServed(g, world) <==> CurrentServed(h, world)
  {
    hide Serves;
  }

  lemma LookElsewhere(g: Graph, c: Client, v: View, copy: Copy, world: WorldView)
    requires ClientServed(g, c, copy, world)
    ensures ClientServed(g, Client(v, c.known), copy, world)
  {
  }

  lemma NewcomerServed(g: Graph, v: View, start: u32, world: WorldView)
    ensures ClientServed(g, Client(v, {}), Copy(start, map[]), world)
  {
  }

  /** After a build nothing has changed for the other clients, and the one built can be served as before. */
  ghost predicate BuiltFor(s: Following, next: Following, client: u32, world: WorldView) {
    && client in s.graph.clients && client in s.copies
    && next.graph == Built(s.graph, client, world)
    && next.copies.Keys == s.copies.Keys
    && (forall c :: c in s.copies && c != client ==> next.copies[c] == s.copies[c])
    && ClientServed(next.graph, next.graph.clients[client], next.copies[client], world)
    && (ClientSettled(next.graph, next.graph.clients[client], next.copies[client], world)
        <==> !CallMisses(s, Build(client, world)))
  }

  lemma BuildCall(s: Following, client: u32, world: WorldView, link: Link, tick: u32)
    requires ValidSchema(link.schema) && RightIds(world) && Serving(s, world) && client in s.graph.clients
    requires Regular(s.graph, s.graph.clients[client], world, link)
    ensures var r := Act(s, Build(client, world), link, tick);
            && (r.Some? <==> CallArrives(s, Build(client, world), link))
            && (r.Some? ==> BuiltFor(s, r.value, client, world))
  {
    hide RightIds, DeltaFor, Carry, Arrives, Fits, Regular, ClientSettled, CurrentServed, Separate, ValidComponents,
      UniqueIds, Served, OwnIds;
    var g, c, copy := s.graph, s.graph.clients[client], s.copies[client];
    assert ClientServed(g, c, copy, world);
    BuildStep(g, c, world, copy, link, tick);
    var r := Act(s, Build(client, world), link, tick);
    if r.Some? {
      hide ClientServed;
      SameShown(g, r.value.graph, r.value.graph.clients[client], r.value.copies[client], world);
    }
  }

  lemma CallStep(s: Following, op: Op, world: WorldView, link: Link, tick: u32, waiting: set<u32>, missed: set<u32>)
    requires ValidSchema(link.schema) && RightIds(world) && CallOk(s, op, world, link)
    requires Serving(s, world) && Tracking(s, world, waiting, missed)
    ensures var r := Act(s, op, link, tick);
            && (r.Some? <==> CallArrives(s, op, link))
            && (r.Some? ==>
                  && r.value.graph == Perform(s.graph, op) && r.value.graph.entities == s.graph.entities
                  && Serving(r.value, world)
                  && Tracking(r.value, world, WaitingAfter(waiting, op), MissedAfter(s, missed, op)))
  {
    hide DeltaFor, Carry, Arrives, Regular, ClientServed, ClientSettled, CurrentServed, Fits, ValidComponents,
      UniqueIds;
    if op.Build? && op.target in s.graph.clients {
      BuildCall(s, op.target, world, link, tick);
    }
    var r := Act(s, op, link, tick);
    if r.Some? {
      var next := r.value;
      var g, h := s.graph, next.graph;
      SameCurrent(g, h, world);
      forall c | c in next.copies
        ensures ClientServed(h, h.clients[c], next.copies[c], world)
        ensures c !in WaitingAfter(waiting, op) ==>
                  (ClientSettled(h, h.clients[c], next.copies[c], world) <==> c !in MissedAfter(s, missed, op))
      {
        if c in s.copies {
          assert ClientServed(g, g.clients[c], s.copies[c], world);
          SameShown(g, h, g.clients[c], s.copies[c], world);
          if op.Upsert? && op.client == c {
            LookElsewhere(h, g.clients[c], op.view, s.copies[c], world);
          }
        } else {
          NewcomerServed(h, op.view, link.start, world);
        }
      }
    }
  }

  /**
   Calls, exactly: they take effect if and only if every packet arrives; clients built last are
   settled unless they missed something.
   */
  lemma {:induction false} CallsSettle(s: Following, ops: seq<Op>, world: WorldView, link: Link, tick: u32,
                                       waiting: set<u32>, missed: set<u32>)
    requires ValidSchema(link.schema) && RightIds(world) && CallsOk(s, ops, world, link, tick)
    requires Serving(s, world) && Tracking(s, world, waiting, missed)
    ensures var r := ActAll(s, ops, link, tick);
            && (r.Some? <==> CallsArrive(s, ops, link, tick))
            && (r.Some? ==>
                  && r.value.graph == PerformAll(s.graph, ops) && r.value.graph.entities == s.graph.entities
                  && Serving(r.value, world)
                  && Tracking(r.value, world, Waiting(waiting, ops), Missed(s, missed, ops, link, tick)))
    decreases |ops|
  {
    hide Act, CallArrives, Perform, WaitingAfter, MissedAfter, ValidComponents, UniqueIds;
    if ops != [] {
      CallStep(s, ops[0], world, link, tick, waiting, missed);
      var next := Act(s, ops[0], link, tick);
      if next.Some? {
        CallsSettle(next.value, ops[1..], world, link, tick, WaitingAfter(waiting, ops[0]),
                    MissedAfter(s, missed, ops[0]));
      }
    }
  }

  // ---- Whole ticks ----

  /** The oldest copy of an entity that a client may have: as it was, if it was tracked, else as it is. */
  function OldestCopy(g: Graph, before: WorldView, world: WorldView, id: u32): EntitySnapshot {
    if id in g.entities then before.snapshot(id) else world.snapshot(id)
  }

  /** The state after the changes of a tick, which cannot fail. */
  ghost function Marked(s: Following, t: Tick, link: Link): Following {
    var r := ActAll(s, t.changes, link, t.number);
    if r.Some? then r.value else s
  }

  /**
   What a tick must respect: removed ids stay away until its end; every client is built after it
   last came or looked elsewhere; created entities list their components in schema order; and the
   world serves, with the marks of the tick, the oldest copy a client may have of each tracked entity.
   */
  ghost predicate TickOk(s: Following, before: WorldView, t: Tick, link: Link) {
    && ValidSchema(link.schema) && RightIds(t.world)
    && ChangesOk(s.graph, t.changes)
    && CallsOk(Marked(s, t, link), t.calls, t.world, link, t.number)
    && var g := PerformAll(s.graph, t.changes);
       && Waiting(g.clients.Keys, t.calls) == {}
       && forall id :: id in g.entities ==> Served(g, t.world, id, OldestCopy(s.graph, before, t.world, id))
  }

  /** Every packet of a tick arrives, and the last build of each client cuts nothing off that it needs. */
  ghost predicate TickFits(s: Following, t: Tick, link: Link) {
    && CallsArrive(Marked(s, t, link), t.calls, link, t.number)
    && Missed(Marked(s, t, link), {}, t.calls, link, t.number) == {}
  }

  /** Between the halves every copy a client has can be served, and so can a current one. */
  lemma CopiesServed(s: Following, marked: Following, before: WorldView, world: WorldView)
    requires BehindWithin(marked, s.graph.entities.Keys, before) && Separate(marked.graph) && RightIds(before)
    requires forall id :: id in marked.graph.entities ==>
               Served(marked.graph, world, id, OldestCopy(s.graph, before, world, id))
    ensures Serving(marked, world) && Tracking(marked, world, marked.graph.clients.Keys, {})
  {
    hide Serves, Separate, ClientSettled;
    var g := marked.graph;
    forall id | id in g.entities
      ensures Served(g, world, id, world.snapshot(id))
    {
      ServedAgain(world, id, g.entities[id].dirty, OldestCopy(s.graph, before, world, id));
    }
    forall c | c in marked.copies
      ensures ClientServed(g, g.clients[c], marked.copies[c], world)
    {
      assert ClientBehind(s.graph.entities.Keys, g.clients[c], marked.copies[c], before);
    }
  }

  /** Clearing marks moves nothing in or out of view. */
  lemma ClearedSettled(g: Graph, h: Graph, c: Client, copy: Copy, world: WorldView)
    requires h.entities == DirtyCleared(g).entities
    ensures ClientSettled(g, c, copy, world) <==> ClientSettled(h, c, copy, world)
  {
    assert Relevant(h, c.view) == Relevant(g, c.view);
  }

  lemma AllCleared(s: Following, world: WorldView, missed: set<u32>)
    requires Tracking(s, world, {}, missed)
    ensures Settled(s.(graph := Perform(Perform(s.graph, ClearDirty), ClearRemoved)), world) <==> missed == {}
  {
    hide ClientSettled;
    var h := Perform(Perform(s.graph, ClearDirty), ClearRemoved);
    forall c | c in s.copies
      ensures ClientSettled(h, h.clients[c], s.copies[c], world) <==> c !in missed
    {
      ClearedSettled(s.graph, h, s.graph.clients[c], s.copies[c], world);
    }
  }

  /**
   One tick, exactly, for any budgets: every packet arrives and every client is settled at the end
   if and only if the packets fit the link and no client's last build cuts off what it needs.
   */
  lemma TickSettles(s: Following, before: WorldView, t: Tick, link: Link)
    requires Behind(s, before) && TickOk(s, before, t, link)
    ensures AfterTick(s, t, link).Some? && Settled(AfterTick(s, t, link).value, t.world) <==> TickFits(s, t, link)
  {
    hide ActAll, CallsOk, CallsArrive, Waiting, Missed, Serving, Tracking, Settled, Perform, Separate,
      ValidComponents, UniqueIds;
    NothingRemoved(s);
    ChangesHold(s, s.graph.entities.Keys, before, t.changes, link, t.number);
    var marked := Marked(s, t, link);
    CopiesServed(s, marked, before, t.world);
    CallsSettle(marked, t.calls, t.world, link, t.number, marked.graph.clients.Keys, {});
    var built := ActAll(marked, t.calls, link, t.number);
    if built.Some? {
      AllCleared(built.value, t.world, Missed(marked, {}, t.calls, link, t.number));
    }
  }

  lemma NothingRemoved(s: Following)
    requires s.graph.removed == {}
    ensures Separate(s.graph)
  {
  }

  ghost predicate TicksOk(s: Following, before: WorldView, ts: seq<Tick>, link: Link)
    decreases |ts|
  {
    ts == [] ||
    (&& TickOk(s, before, ts[0], link)
     && (TickFits(s, ts[0], link) && AfterTick(s, ts[0], link).Some? ==>
           TicksOk(AfterTick(s, ts[0], link).value, ts[0].world, ts[1..], link)))
  }

  ghost predicate TicksFit(s: Following, ts: seq<Tick>, link: Link)
    decreases |ts|
  {
    ts == [] ||
    (&& TickFits(s, ts[0], link)
     && (AfterTick(s, ts[0], link).Some? ==> TicksFit(AfterTick(s, ts[0], link).value, ts[1..], link)))
  }

  /** After every tick of a run, every client is settled. */
  ghost predicate TicksSettled(s: Following, ts: seq<Tick>, link: Link)
    decreases |ts|
  {
    ts == [] ||
    (&& AfterTick(s, ts[0], link).Some?
     && Settled(AfterTick(s, ts[0], link).value, ts[0].world)
     && TicksSettled(AfterTick(s, ts[0], link).value, ts[1..], link))
  }

  /**
   Convergence, exactly. Take any run of ticks in which removed ids stay away until the end of their
   tick, the world serves the copies clients may have, and every client is built before the shared
   marks and removals are cleared. Then all packets arrive and every client's copy is, at the end of
   every tick, the world restricted to the tracked entities in its view, if and only if in every
   tick the packets fit the link and no client's last build cuts off what it needs.
   */
  lemma {:induction false} TicksConverge(s: Following, before: WorldView, ts: seq<Tick>, link: Link)
    requires Behind(s, before) && TicksOk(s, before, ts, link)
    ensures TicksSettled(s, ts, link) <==> TicksFit(s, ts, link)
    decreases |ts|
  {
    hide Settled, Behind, TickFits, CallsOk, PerformAll, Served, Waiting, RightIds, ValidComponents, UniqueIds;
    if ts != [] {
      TickSettles(s, before, ts[0], link);
      if TickFits(s, ts[0], link) {
        var next := AfterTick(s, ts[0], link).value;
        SettledBehind(next, ts[0].world);
        TicksConverge(next, ts[0].world, ts[1..], link);
      }
    }
  }
}
