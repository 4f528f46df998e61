/** What the operations of the game record in the graph, and how it reaches the clients. */
module Tracking {
  import opened Core
  import opened Schemas
  import opened Diffs
  import opened Graphs
  import opened Mirroring

  // ---- Marks ----

  predicate NoRepeats(ids: seq<u16>) {
    forall i, j :: 0 <= i < j < |ids| ==> ids[i] != ids[j]
  }

  /** Marking adds the components that were not marked, and takes none away. */
  lemma {:induction false} PushedMembers(target: seq<u16>, more: seq<u16>, c: u16)
    ensures c in PushUnique(target, more) <==> c in target || c in more
    ensures target <= PushUnique(target, more)
    ensures NoRepeats(target) ==> NoRepeats(PushUnique(target, more))
    decreases |more|
  {
    if more != [] {
      PushedMembers(if more[0] in target then target else target + [more[0]], more[1..], c);
    }
  }

  /** Marks are made one after the other, each at the end unless it is there already. */
  lemma {:induction false} PushedOneByOne(target: seq<u16>, more: seq<u16>, c: u16)
    ensures var before := PushUnique(target, more);
            PushUnique(target, more + [c]) == if c in before then before else before + [c]
    decreases |more|
  {
    var next := more + [c];
    if more == [] {
      assert next[1..] == [];
    } else {
      assert next[1..] == more[1..] + [c];
      PushedOneByOne(if more[0] in target then target else target + [more[0]], more[1..], c);
    }
  }

  // ---- Operations of the game ----

  /** An entity is refused exactly when it is new and the graph is full. */
  predicate Refused(g: Graph, id: u32) {
    id !in g.entities && |g.entities| >= g.maxEntities
  }

  /** Everything but entity `id` is as it was. */
  ghost predicate OthersKept(g: Graph, h: Graph, id: u32) {
    && h.maxEntities == g.maxEntities && h.clients == g.clients
    && (forall x :: x != id ==> (x in h.entities <==> x in g.entities))
    && (forall x :: x != id && x in g.entities ==> h.entities[x] == g.entities[x])
  }

  /**
   Tracking an entity. A refused one leaves the graph as it was. Otherwise the entity is at the
   position given, marked with what it was marked with before and what is given now, the old marks
   first and none twice; its priority is kept, and nothing else changes.
   */
  lemma TrackRecords(g: Graph, id: u32, position: Vec3, dirty: seq<u16>)
    ensures var h := Perform(g, Track(id, position, dirty));
            && (Refused(g, id) ==> h == g)
            && (!Refused(g, id) ==>
                  && OthersKept(g, h, id) && h.removed == g.removed
                  && id in h.entities && h.entities[id].position == position
                  && var was := if id in g.entities then g.entities[id].dirty else [];
                     && (forall c :: c in h.entities[id].dirty <==> c in was || c in dirty)
                     && was <= h.entities[id].dirty
                     && (NoRepeats(was) ==> NoRepeats(h.entities[id].dirty))
                     && h.entities[id].priority == if id in g.entities then g.entities[id].priority else 0)
  {
    hide PushUnique;
    if !Refused(g, id) {
      var before := if id in g.entities then g.entities[id].dirty else [];
      forall c
        ensures c in PushUnique(before, dirty) <==> c in before || c in dirty
      {
        PushedMembers(before, dirty, c);
      }
      PushedMembers(before, dirty, 0);
    }
  }

  /** Removing an entity: it is no longer tracked and waits in the removals; nothing else changes. */
  lemma RemoveRecords(g: Graph, id: u32)
    ensures var h := Perform(g, Remove(id));
            && OthersKept(g, h, id) && id !in h.entities
            && id in h.removed && forall x :: x != id ==> (x in h.removed <==> x in g.removed)
  {
  }

  /** A client that comes or looks elsewhere has the new view, keeps what it knows, and leaves the others alone. */
  lemma UpsertRecords(g: Graph, client: u32, view: View)
    ensures var h := Perform(g, Upsert(client, view));
            && h.maxEntities == g.maxEntities && h.entities == g.entities && h.removed == g.removed
            && h.clients.Keys == g.clients.Keys + {client}
            && h.clients[client].view == view
            && (forall x :: x in h.clients[client].known <==> client in g.clients && x in g.clients[client].known)
            && forall c :: c in g.clients && c != client ==> h.clients[c] == g.clients[c]
  {
  }

  /** Clearing marks leaves every entity where it is, without marks. */
  lemma ClearRecords(g: Graph)
    ensures var h := Perform(g, ClearDirty);
            && h.entities.Keys == g.entities.Keys && h.removed == g.removed && h.clients == g.clients
            && forall id :: id in g.entities ==>
                 h.entities[id].dirty == [] && h.entities[id].position == g.entities[id].position
                 && h.entities[id].priority == g.entities[id].priority
  {
  }

  /** Forgetting the removals, or a client, leaves everything else. */
  lemma ForgetRecords(g: Graph, client: u32)
    ensures var h := Perform(g, ClearRemoved);
            h.removed == {} && h.entities == g.entities && h.clients == g.clients && h.maxEntities == g.maxEntities
    ensures var h := Perform(g, Drop(client));
            && client !in h.clients && h.entities == g.entities && h.removed == g.removed
              && h.maxEntities == g.maxEntities
            && forall c :: c != client ==> (c in h.clients <==> c in g.clients)
                                           && (c in g.clients ==> h.clients[c] == g.clients[c])
  {
  }

  /** Building a delta changes nothing but what that client knows: the marks and removals stay for the other clients. */
  lemma BuildRecords(g: Graph, client: u32, world: WorldView)
    ensures var h := Perform(g, Build(client, world));
            && h.entities == g.entities && h.removed == g.removed && h.maxEntities == g.maxEntities
            && h.clients.Keys == g.clients.Keys
            && (forall c :: c in g.clients && c != client ==> h.clients[c] == g.clients[c])
            && (client in g.clients ==> h.clients[client].view == g.clients[client].view)
  {
    hide DeltaFor, KnownAfter;
  }

  // ---- Views ----

  function Square(x: real): real {
    x * x
  }

  /** Distances add up over the three axes. */
  lemma AxesAddUp(p: Vec3, o: Vec3)
    ensures DistanceSq(p, o) == Square(p.x - o.x) + Square(p.y - o.y) + Square(p.z - o.z)
    ensures DistanceSq(Vec3(p.x, o.y, o.z), o) == Square(p.x - o.x)
    ensures DistanceSq(p, p) == 0.0
  {
  }

  /** Along an axis, a view reaches as far as its radius and no further, the end included. */
  lemma ViewReaches(v: View, t: Tracked, d: real)
    requires v.radius >= 0.0
    requires t.position in [Vec3(v.position.x + d, v.position.y, v.position.z),
                            Vec3(v.position.x, v.position.y + d, v.position.z),
                            Vec3(v.position.x, v.position.y, v.position.z + d)]
    ensures InView(v, t) <==> -v.radius <= d <= v.radius
  {
    var r := v.radius;
    assert DistanceSq(t.position, v.position) == d * d;
    SquaresCompare(d, r);
  }

  lemma SquaresCompare(d: real, r: real)
    requires r >= 0.0
    ensures d * d <= r * r <==> -r <= d <= r
  {
    if d > r {
      PositiveProduct(d - r, d + r);
      assert d * d == r * r + (d - r) * (d + r);
    } else if d < -r {
      PositiveProduct(-d - r, -d + r);
      assert d * d == r * r + (-d - r) * (-d + r);
    } else if d == -r {
      assert d * d == r * r;
    } else if d != r {
      PositiveProduct(r - d, r + d);
      assert r * r == d * d + (r - d) * (r + d);
    }
  }

  lemma PositiveProduct(a: real, b: real)
    requires a > 0.0 && b > 0.0
    ensures a * b > 0.0
  {
  }

  // ---- From the game to a client ----

  /** Which entities a client is sent updates for: known, in view, marked, and with something to say. */
  lemma UpdatingIff(g: Graph, c: Client, world: WorldView, id: u32)
    ensures id in Updating(g, c, world) <==>
            && id in c.known && id in g.entities && InView(c.view, g.entities[id])
            && g.entities[id].dirty != [] && world.update(id, g.entities[id].dirty).Some?
  {
    hide InView;
  }

  /** Which entities leave a client: known ones that are gone, out of view, or waiting to be removed. */
  lemma LeavingIff(g: Graph, c: Client, id: u32)
    ensures id in Leaving(g, c) <==>
            id in c.known && (id !in g.entities || !InView(c.view, g.entities[id]) || id in g.removed)
  {
    hide InView;
  }

  /** A known entity that is moved within view and marked is sent an update whenever the world has one for its marks. */
  lemma MarkedIsUpdated(g: Graph, c: Client, world: WorldView, id: u32, position: Vec3, dirty: seq<u16>)
    requires id in c.known && !Refused(g, id) && dirty != []
             && DistanceSq(position, c.view.position) <= c.view.radius * c.view.radius
    ensures var h := Perform(g, Track(id, position, dirty));
            && id in h.entities && (forall d :: d in dirty ==> d in h.entities[id].dirty)
            && (id in Updating(h, c, world) <==> world.update(id, h.entities[id].dirty).Some?)
  {
    hide PushUnique, DistanceSq, Updating;
    var h := Perform(g, Track(id, position, dirty));
    TrackRecords(g, id, position, dirty);
    assert dirty[0] in h.entities[id].dirty;
    UpdatingIff(h, c, world, id);
  }

  /** An entity that is removed leaves every client that knows it. */
  lemma RemovedLeaves(g: Graph, c: Client, id: u32)
    requires id in c.known
    ensures id in Leaving(Perform(g, Remove(id)), c)
  {
    LeavingIff(Perform(g, Remove(id)), c, id);
  }

  // ---- What a delta says ----

  /** The entity in view that the client does not know, as the world has it. */
  ghost predicate ToCreate(g: Graph, c: Client, world: WorldView, id: u32, e: EntitySnapshot) {
    id in g.entities && InView(c.view, g.entities[id]) && id !in c.known && e == world.snapshot(id)
  }

  /** The entity in view that the client knows, as the world updates it for its marks. */
  ghost predicate ToUpdate(g: Graph, c: Client, world: WorldView, id: u32, u: UpdateEntity) {
    && id in g.entities && InView(c.view, g.entities[id]) && id in c.known
    && g.entities[id].dirty != [] && world.update(id, g.entities[id].dirty) == Some(u)
  }

  lemma {:induction false} CreatesSay(g: Graph, c: Client, world: WorldView, ids: seq<u32>, e: EntitySnapshot)
    requires forall id :: id in ids ==> id in Relevant(g, c.view)
    ensures e in CreatesOf(world, ids, c.known) <==> exists id :: id in ids && ToCreate(g, c, world, id, e)
    decreases |ids|
  {
    hide InView;
    if ids != [] {
      assert ids == [ids[0]] + ids[1..];
      CreatesSay(g, c, world, ids[1..], e);
      var first := if ids[0] in c.known then [] else [world.snapshot(ids[0])];
      assert CreatesOf(world, ids, c.known) == first + CreatesOf(world, ids[1..], c.known);
      assert ids[0] in Relevant(g, c.view);
      assert e in first <==> ToCreate(g, c, world, ids[0], e);
      hide ToCreate, CreatesOf;
    }
  }

  lemma {:induction false} UpdatesSay(g: Graph, c: Client, world: WorldView, ids: seq<u32>, u: UpdateEntity)
    requires forall id :: id in ids ==> id in Relevant(g, c.view)
    ensures u in UpdatesOf(g, world, ids, c.known) <==> exists id :: id in ids && ToUpdate(g, c, world, id, u)
    decreases |ids|
  {
    hide InView;
    if ids != [] {
      assert ids == [ids[0]] + ids[1..];
      UpdatesSay(g, c, world, ids[1..], u);
      var first := UpdateOf(g, world, ids[0], c.known);
      assert UpdatesOf(g, world, ids, c.known) == first + UpdatesOf(g, world, ids[1..], c.known);
      assert ids[0] in Relevant(g, c.view);
      assert u in first <==> ToUpdate(g, c, world, ids[0], u);
      hide ToUpdate, UpdateOf, UpdatesOf;
    }
  }

  lemma {:induction false} FilteredMember(ids: seq<u32>, s: set<u32>, id: u32)
    ensures id in FilterIds(ids, s) <==> id in ids && id in s
  {
    if ids != [] {
      assert ids == [ids[0]] + ids[1..];
      FilteredMember(ids[1..], s, id);
    }
  }

  /** A list that was cut at `n` is all there is when it is shorter than that. */
  lemma Cut<T>(all: seq<T>, n: nat, x: T)
    ensures x in Truncate(all, n) ==> x in all
    ensures |Truncate(all, n)| < n ==> Truncate(all, n) == all
  {
  }

  /**
   What a built delta says. Its creates are the world's own snapshots of entities in view that the
   client does not know, its updates the world's answers for the marks of those in view that it
   does, its destroys the known ones that leave; and a list below its budget leaves none out.
   */
  lemma BuildSays(g: Graph, c: Client, world: WorldView, id: u32, e: EntitySnapshot, u: UpdateEntity)
    ensures var d := DeltaFor(g, c, world);
            && (e in d.creates ==> exists x :: ToCreate(g, c, world, x, e))
            && (|d.creates| < c.view.budget.maxCreates && ToCreate(g, c, world, id, e) ==> e in d.creates)
            && (u in d.updates ==> exists x :: ToUpdate(g, c, world, x, u))
            && (|d.updates| < c.view.budget.maxUpdates && ToUpdate(g, c, world, id, u) ==> u in d.updates)
            && (id in d.destroys ==> id in Leaving(g, c))
            && (|d.destroys| < c.view.budget.maxDestroys && id in Leaving(g, c) ==> id in d.destroys)
            && |d.creates| <= c.view.budget.maxCreates && |d.updates| <= c.view.budget.maxUpdates
            && |d.destroys| <= c.view.budget.maxDestroys
  {
    hide CreatesOf, UpdatesOf, Leaving, InView, OrderedIds, FilterIds;
    var ordered, near := OrderedIds(g.entities.Keys), Relevant(g, c.view);
    var ids := FilterIds(ordered, near);
    OrderedIdsProperties(g.entities.Keys);
    OrderedIdsProperties(Leaving(g, c));
    forall x
      ensures x in ids <==> x in near
    {
      FilteredMember(ordered, near, x);
    }
    CreatesSay(g, c, world, ids, e);
    UpdatesSay(g, c, world, ids, u);
    Cut(CreatesOf(world, ids, c.known), c.view.budget.maxCreates, e);
    Cut(UpdatesOf(g, world, ids, c.known), c.view.budget.maxUpdates, u);
    Cut(OrderedIds(Leaving(g, c)), c.view.budget.maxDestroys, id);
  }
}
