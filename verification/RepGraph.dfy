/** The replication graph: which entities each client is told about, and what it is told. */
module Graphs {
  import opened Core
  import opened Schemas
  import opened Diffs
  import opened Apply

  // ---- Ordered sets ----

  predicate IsLeast(least: u32, s: set<u32>) {
    least in s && forall x :: x in s ==> least <= x
  }

  lemma {:induction false} LeastBelow(s: set<u32>, a: u32)
    requires a in s
    ensures exists least :: IsLeast(least, s)
    decreases a
  {
    if b :| b in s && b < a {
      LeastBelow(s, b);
    } else {
      assert IsLeast(a, s);
    }
  }

  lemma LeastExists(s: set<u32>)
    requires s != {}
    ensures exists least :: IsLeast(least, s)
  {
    var a :| a in s;
    LeastBelow(s, a);
  }

  /** The members of a finite set from the least to the greatest: how the repository's ordered sets are walked. */
  ghost function OrderedIds(s: set<u32>): (ids: seq<u32>) {
    if s == {} then []
    else
      LeastExists(s);
      var least :| IsLeast(least, s);
      [least] + OrderedIds(s - {least})
  }

  lemma OrderedStep(s: set<u32>, least: u32)
    requires IsLeast(least, s)
    ensures OrderedIds(s) == [least] + OrderedIds(s - {least})
  {
    LeastInside(s, least);
    hide IsLeast;
    LeastExists(s);
    LeastUnique(s, least, OrderedIds(s)[0]);
  }

  lemma LeastInside(s: set<u32>, least: u32)
    requires IsLeast(least, s)
    ensures s != {}
  {
  }

  lemma LeastUnique(s: set<u32>, a: u32, b: u32)
    requires IsLeast(a, s) && IsLeast(b, s)
    ensures a == b
  {
  }

  /** Walking an ordered set meets each member once, in ascending order. */
  lemma {:induction false} OrderedIdsProperties(s: set<u32>)
    ensures SortedIds(OrderedIds(s)) && IdSet(OrderedIds(s)) == s
  {
    hide OrderedIds, IdSet;
    EmptyOrdered();
    if s != {} {
      LeastExists(s);
      var least :| IsLeast(least, s);
      var rest := OrderedIds(s - {least});
      OrderedStep(s, least);
      OrderedIdsProperties(s - {least});
      IdSetStep([least] + rest);
      assert ([least] + rest)[1..] == rest;
      forall i | 0 <= i < |rest|
        ensures least < rest[i]
      {
        InIdSet(rest, i);
      }
    }
  }

  lemma InIdSet(ids: seq<u32>, i: nat)
    requires i < |ids|
    ensures ids[i] in IdSet(ids)
  {
  }

  lemma EmptyOrdered()
    ensures OrderedIds({}) == [] && IdSet([]) == {}
  {
  }

  /** Walks an ordered set. */
  method Ordered(s: set<u32>) returns (ids: seq<u32>)
    ensures ids == OrderedIds(s)
  {
    hide OrderedIds, IsLeast;
    ids := [];
    var rest := s;
    assert [] + OrderedIds(rest) == OrderedIds(s);
    while rest != {}
      invariant ids + OrderedIds(rest) == OrderedIds(s)
      decreases |rest|
    {
      var least := TakeLeast(rest);
      OrderedStep(rest, least);
      assert ids + ([least] + OrderedIds(rest - {least})) == ids + [least] + OrderedIds(rest - {least});
      ids := ids + [least];
      rest := rest - {least};
    }
    EmptyOrdered();
    assert ids + [] == ids;
  }

  method TakeLeast(s: set<u32>) returns (least: u32)
    requires s != {}
    ensures least in s && IsLeast(least, s)
  {
    LeastExists(s);
    least :| least in s && IsLeast(least, s);
  }

  // ---- Entities, views, clients ----

  datatype Vec3 = Vec3(x: real, y: real, z: real)

  function DistanceSq(a: Vec3, b: Vec3): real {
    (a.x - b.x) * (a.x - b.x) + (a.y - b.y) * (a.y - b.y) + (a.z - b.z) * (a.z - b.z)
  }

  datatype Budget = Budget(maxCreates: nat, maxUpdates: nat, maxDestroys: nat)

  datatype View = View(position: Vec3, radius: real, budget: Budget)

  datatype Tracked = Tracked(position: Vec3, priority: byte, dirty: seq<u16>)

  datatype Client = Client(view: View, known: set<u32>)

  /** What the graph asks of the world: a full entity, or an update of its dirty components. */
  datatype WorldView = WorldView(snapshot: u32 -> EntitySnapshot, update: (u32, seq<u16>) -> Option<UpdateEntity>)

  predicate InView(v: View, t: Tracked) {
    DistanceSq(t.position, v.position) <= v.radius * v.radius
  }

  /** The state of the graph as a value. */
  datatype Graph = Graph(maxEntities: nat, entities: map<u32, Tracked>, removed: set<u32>, clients: map<u32, Client>)

  // ---- Operations on the state ----

  /** Appends the components not yet there. */
  function PushUnique(target: seq<u16>, more: seq<u16>): seq<u16>
    decreases |more|
  {
    if more == [] then target
    else PushUnique(if more[0] in target then target else target + [more[0]], more[1..])
  }

  /** A new entity is refused once the graph is full; a tracked one is moved and marked. */
  function Updated(g: Graph, id: u32, position: Vec3, dirty: seq<u16>): Graph {
    if |g.entities| >= g.maxEntities && id !in g.entities then g
    else
      var t := if id in g.entities then g.entities[id] else Tracked(position, 0, []);
      g.(entities := g.entities[id := Tracked(position, t.priority, PushUnique(t.dirty, dirty))])
  }

  function Removed(g: Graph, id: u32): Graph {
    g.(entities := g.entities - {id}, removed := g.removed + {id})
  }

  function Upserted(g: Graph, client: u32, view: View): Graph {
    g.(clients := g.clients[client := Client(view, if client in g.clients then g.clients[client].known else {})])
  }

  function DirtyCleared(g: Graph): Graph {
    g.(entities := map id | id in g.entities :: g.entities[id].(dirty := []))
  }

  /** The tracked entities inside a view. */
  function Relevant(g: Graph, v: View): set<u32> {
    set id | id in g.entities && InView(v, g.entities[id])
  }

  /** The members of `ids` that are in `s`, in order. */
  function FilterIds(ids: seq<u32>, s: set<u32>): seq<u32> {
    if ids == [] then [] else (if ids[0] in s then [ids[0]] else []) + FilterIds(ids[1..], s)
  }

  /** Full entities for the ids the client does not know. */
  function CreatesOf(world: WorldView, ids: seq<u32>, known: set<u32>): seq<EntitySnapshot> {
    if ids == [] then []
    else (if ids[0] in known then [] else [world.snapshot(ids[0])]) + CreatesOf(world, ids[1..], known)
  }

  /** The update, if any, for one id that the client knows. */
  function UpdateOf(g: Graph, world: WorldView, id: u32, known: set<u32>): seq<UpdateEntity> {
    if id in known && id in g.entities && g.entities[id].dirty != [] then
      match world.update(id, g.entities[id].dirty)
      case Some(u) => [u]
      case None => []
    else []
  }

  function UpdatesOf(g: Graph, world: WorldView, ids: seq<u32>, known: set<u32>): seq<UpdateEntity> {
    if ids == [] then [] else UpdateOf(g, world, ids[0], known) + UpdatesOf(g, world, ids[1..], known)
  }

  function Truncate<T>(s: seq<T>, n: nat): (r: seq<T>)
    ensures r <= s && |r| == if |s| > n then n else |s|
  {
    if |s| > n then s[..n] else s
  }

  /** Known entities out of view or gone, and known entities waiting to be removed. */
  function Leaving(g: Graph, c: Client): set<u32> {
    (c.known - Relevant(g, c.view)) + (g.removed * c.known)
  }

  /** What a client is told, within its budget. */
  ghost function DeltaFor(g: Graph, c: Client, world: WorldView): Delta {
    var relevant := FilterIds(OrderedIds(g.entities.Keys), Relevant(g, c.view));
    Delta(Truncate(OrderedIds(Leaving(g, c)), c.view.budget.maxDestroys),
          Truncate(CreatesOf(world, relevant, c.known), c.view.budget.maxCreates),
          Truncate(UpdatesOf(g, world, relevant, c.known), c.view.budget.maxUpdates))
  }

  function CreatedIds(es: seq<EntitySnapshot>): set<u32> {
    set i | 0 <= i < |es| :: es[i].id
  }

  /** What the graph believes the client has after a delta. */
  function KnownAfter(known: set<u32>, d: Delta): set<u32> {
    known - IdSet(d.destroys) + CreatedIds(d.creates)
  }

  ghost function Built(g: Graph, client: u32, world: WorldView): Graph {
    if client in g.clients then
      var c := g.clients[client];
      g.(clients := g.clients[client := c.(known := KnownAfter(c.known, DeltaFor(g, c, world)))])
    else g
  }

  ghost function BuiltDelta(g: Graph, client: u32, world: WorldView): Delta {
    if client in g.clients then DeltaFor(g, g.clients[client], world) else Delta([], [], [])
  }

  // ---- The graph ----

  class ReplicationGraph {
    const maxEntities: nat
    var entities: map<u32, Tracked>
    var removed: set<u32>
    var clients: map<u32, Client>

    ghost function State(): Graph
      reads this
    {
      Graph(maxEntities, entities, removed, clients)
    }

    constructor (maxEntities: nat)
      ensures State() == Graph(maxEntities, map[], {}, map[])
    {
      this.maxEntities := maxEntities;
      entities, removed, clients := map[], {}, map[];
    }

    method UpdateEntity(id: u32, position: Vec3, dirty: seq<u16>)
      modifies this`entities
      ensures State() == Updated(old(State()), id, position, dirty)
    {
      if |entities| >= maxEntities && id !in entities {
        return;
      }
      var entry := if id in entities then entities[id] else Tracked(position, 0, []);
      var marks := PushUniqueComponents(entry.dirty, dirty);
      entities := entities[id := Tracked(position, entry.priority, marks)];
    }

    method SetEntityPriority(id: u32, priority: byte)
      modifies this`entities
      ensures State() == if id in old(entities)
                         then old(State()).(entities := old(entities)[id := old(entities)[id].(priority := priority)])
                           else old(State())
    {
      if id in entities {
        entities := entities[id := entities[id].(priority := priority)];
      }
    }

    method RemoveEntity(id: u32)
      modifies this`entities, this`removed
      ensures State() == Removed(old(State()), id)
    {
      entities := entities - {id};
      removed := removed + {id};
    }

    method UpsertClient(client: u32, view: View)
      modifies this`clients
      ensures State() == Upserted(old(State()), client, view)
    {
      if client in clients {
        clients := clients[client := clients[client].(view := view)];
      } else {
        clients := clients[client := Client(view, {})];
      }
    }

    method RemoveClient(client: u32)
      modifies this`clients
      ensures State() == old(State()).(clients := old(clients) - {client})
    {
      clients := clients - {client};
    }

    method ClearDirty()
      modifies this`entities
      ensures State() == DirtyCleared(old(State()))
    {
      var ids := entities.Keys;
      ghost var before := entities;
      while ids != {}
        invariant ids <= entities.Keys == before.Keys
        invariant forall id :: id in before ==> entities[id] == if id in ids then before[id]
                  else before[id].(dirty := [])
        decreases |ids|
      {
        var id :| id in ids;
        entities := entities[id := entities[id].(dirty := [])];
        ids := ids - {id};
      }
    }

    method ClearRemoved()
      modifies this`removed
      ensures State() == old(State()).(removed := {})
    {
      removed := {};
    }

    /** Tells a client what entered its view, what changed, and what left, and records what it now knows. */
    method BuildClientDelta(client: u32, world: WorldView) returns (d: Delta)
      modifies this`clients
      ensures State() == Built(old(State()), client, world)
      ensures d == BuiltDelta(old(State()), client, world)
    {
      hide DeltaFor, KnownAfter;
      if client !in clients {
        return Delta([], [], []);
      }
      var state := clients[client];
      d := ComputeDelta(state, world);
      var known := LearnDelta(state.known, d);
      clients := clients[client := state.(known := known)];
    }

    method ComputeDelta(state: Client, world: WorldView) returns (d: Delta)
      ensures d == DeltaFor(State(), state, world)
    {
      hide OrderedIds, Relevant, FilterIds, CreatesOf, UpdatesOf, Truncate;
      var relevant, relevantSet := FindRelevant(state.view);
      var creates, updates := FindCreatesAndUpdates(relevant, state.known, world);
      var destroys := FindDestroys(state.known, relevantSet);
      creates, updates, destroys := ApplyBudget(creates, updates, destroys, state.view.budget);
      d := Delta(destroys, creates, updates);
    }

    /** The tracked entities in view, as an ordered list and as a set. */
    method FindRelevant(view: View) returns (relevant: seq<u32>, relevantSet: set<u32>)
      ensures relevantSet == Relevant(State(), view)
      ensures relevant == FilterIds(OrderedIds(entities.Keys), relevantSet)
    {
      hide OrderedIds, InView, IdSet, Relevant;
      var ids := Ordered(entities.Keys);
      OrderedIdsProperties(entities.Keys);
      relevant, relevantSet := [], {};
      ghost var goal := Relevant(State(), view);
      FilterNothing(ids, goal);
      for k := 0 to |ids|
        invariant relevant + FilterIds(ids[k..], goal) == FilterIds(ids, goal)
        invariant relevantSet == goal * IdSet(ids[..k])
      {
        FilterStep(relevant, ids, k, goal);
        IdSetPush(ids, k);
        InIdSet(ids, k);
        RelevantIff(State(), view, ids[k]);
        if InView(view, entities[ids[k]]) {
          relevant := relevant + [ids[k]];
          relevantSet := relevantSet + {ids[k]};
        }
      }
      assert ids[..|ids|] == ids;
      FilterDone(relevant, ids, goal);
      RelevantInside(State(), view);
    }

    method FindCreatesAndUpdates(relevant: seq<u32>, known: set<u32>, world: WorldView)
      returns (creates: seq<EntitySnapshot>, updates: seq<UpdateEntity>)
      ensures creates == CreatesOf(world, relevant, known)
      ensures updates == UpdatesOf(State(), world, relevant, known)
    {
      creates, updates := [], [];
      ghost var g := State();
      assert relevant[0..] == relevant;
      assert [] + CreatesOf(world, relevant, known) == CreatesOf(world, relevant, known);
      assert [] + UpdatesOf(g, world, relevant, known) == UpdatesOf(g, world, relevant, known);
      for k := 0 to |relevant|
        invariant creates + CreatesOf(world, relevant[k..], known) == CreatesOf(world, relevant, known)
        invariant updates + UpdatesOf(g, world, relevant[k..], known) == UpdatesOf(g, world, relevant, known)
      {
        var id := relevant[k];
        assert relevant[k..][1..] == relevant[k + 1..];
        ghost var created := if id in known then [] else [world.snapshot(id)];
        ghost var updated := UpdateOf(g, world, id, known);
        assert creates + (created + CreatesOf(world, relevant[k + 1..], known))
          == creates + created + CreatesOf(world, relevant[k + 1..], known);
        assert updates + (updated + UpdatesOf(g, world, relevant[k + 1..], known))
          == updates + updated + UpdatesOf(g, world, relevant[k + 1..], known);
        if id !in known {
          creates := creates + [world.snapshot(id)];
          assert updates + [] == updates;
        } else {
          assert creates + [] == creates;
          if id in entities && entities[id].dirty != [] {
            var update := world.update(id, entities[id].dirty);
            if update.Some? {
              updates := updates + [update.value];
            } else {
              assert updates + [] == updates;
            }
          } else {
            assert updates + [] == updates;
          }
        }
      }
      assert creates + [] == creates && updates + [] == updates;
    }

    /** First what left the view, then pending removals not yet listed, then sorted. */
    method FindDestroys(known: set<u32>, relevantSet: set<u32>) returns (destroys: seq<u32>)
      ensures destroys == OrderedIds((known - relevantSet) + (removed * known))
    {
      hide OrderedIds;
      destroys := [];
      var destroysSet: set<u32> := {};
      var ids := Ordered(known);
      OrderedIdsProperties(known);
      for k := 0 to |ids|
        invariant destroysSet == IdSet(destroys) == IdSet(ids[..k]) - relevantSet
      {
        IdSetPush(ids, k);
        if ids[k] !in relevantSet {
          IdSetAppend(destroys, ids[k]);
          destroys := destroys + [ids[k]];
          destroysSet := destroysSet + {ids[k]};
        }
      }
      assert ids[..|ids|] == ids;
      var gone := Ordered(removed);
      OrderedIdsProperties(removed);
      for k := 0 to |gone|
        invariant destroysSet == IdSet(destroys) == (known - relevantSet) + (IdSet(gone[..k]) * known)
      {
        IdSetPush(gone, k);
        if gone[k] in known && gone[k] !in destroysSet {
          IdSetAppend(destroys, gone[k]);
          destroys := destroys + [gone[k]];
          destroysSet := destroysSet + {gone[k]};
        }
      }
      assert gone[..|gone|] == gone;
      destroys := Ordered(destroysSet);
    }
  }

  /** Forgets what was destroyed and learns what was created. */
  method LearnDelta(before: set<u32>, d: Delta) returns (known: set<u32>)
    ensures known == KnownAfter(before, d)
  {
    hide IdSet, CreatedIds;
    known := before;
    NoIds(d.destroys, d.creates);
    for k := 0 to |d.destroys|
      invariant known == before - IdSet(d.destroys[..k])
    {
      IdSetPush(d.destroys, k);
      known := known - {d.destroys[k]};
    }
    assert d.destroys[..|d.destroys|] == d.destroys;
    ghost var kept := known;
    for k := 0 to |d.creates|
      invariant known == kept + CreatedIds(d.creates[..k])
    {
      CreatedIdsPush(d.creates, k);
      known := known + {d.creates[k].id};
    }
    assert d.creates[..|d.creates|] == d.creates;
  }

  lemma NoIds(ids: seq<u32>, es: seq<EntitySnapshot>)
    ensures IdSet(ids[..0]) == {} && CreatedIds(es[..0]) == {}
  {
  }

  method PushUniqueComponents(target: seq<u16>, more: seq<u16>) returns (r: seq<u16>)
    ensures r == PushUnique(target, more)
  {
    r := target;
    for k := 0 to |more|
      invariant PushUnique(r, more[k..]) == PushUnique(target, more)
    {
      assert more[k..][1..] == more[k + 1..];
      if more[k] !in r {
        r := r + [more[k]];
      }
    }
  }

  method ApplyBudget(creates: seq<EntitySnapshot>, updates: seq<UpdateEntity>, destroys: seq<u32>, budget: Budget)
    returns (cs: seq<EntitySnapshot>, us: seq<UpdateEntity>, ds: seq<u32>)
    ensures cs == Truncate(creates, budget.maxCreates)
    ensures us == Truncate(updates, budget.maxUpdates)
    ensures ds == Truncate(destroys, budget.maxDestroys)
  {
    cs, us, ds := creates, updates, destroys;
    if |cs| > budget.maxCreates {
      cs := cs[..budget.maxCreates];
    }
    if |us| > budget.maxUpdates {
      us := us[..budget.maxUpdates];
    }
    if |ds| > budget.maxDestroys {
      ds := ds[..budget.maxDestroys];
    }
  }

  // ---- Steps of the loops ----

  lemma FilterNothing(ids: seq<u32>, s: set<u32>)
    ensures [] + FilterIds(ids[0..], s) == FilterIds(ids, s) && IdSet(ids[..0]) == {}
  {
    assert ids[0..] == ids;
  }

  lemma FilterStep(done: seq<u32>, ids: seq<u32>, k: nat, s: set<u32>)
    requires k < |ids|
    ensures done + FilterIds(ids[k..], s)
         == (if ids[k] in s then done + [ids[k]] else done) + FilterIds(ids[k + 1..], s)
  {
    assert ids[k..][1..] == ids[k + 1..];
    if ids[k] in s {
      assert done + ([ids[k]] + FilterIds(ids[k + 1..], s)) == done + [ids[k]] + FilterIds(ids[k + 1..], s);
    } else {
      assert [] + FilterIds(ids[k + 1..], s) == FilterIds(ids[k + 1..], s);
    }
  }

  lemma FilterDone(done: seq<u32>, ids: seq<u32>, s: set<u32>)
    ensures done + FilterIds(ids[|ids|..], s) == done
  {
  }

  lemma RelevantIff(g: Graph, v: View, id: u32)
    ensures id in Relevant(g, v) <==> id in g.entities && InView(v, g.entities[id])
  {
  }

  lemma RelevantInside(g: Graph, v: View)
    ensures Relevant(g, v) * g.entities.Keys == Relevant(g, v)
  {
  }

  // ---- Sets of list elements ----

  lemma IdSetAppend(ids: seq<u32>, id: u32)
    ensures IdSet(ids + [id]) == IdSet(ids) + {id}
  {
    assert (ids + [id])[|ids|] == id;
    forall i | 0 <= i < |ids|
      ensures ids[i] in IdSet(ids + [id])
    {
      assert (ids + [id])[i] == ids[i];
    }
  }

  lemma IdSetPush(ids: seq<u32>, k: nat)
    requires k < |ids|
    ensures IdSet(ids[..k + 1]) == IdSet(ids[..k]) + {ids[k]}
  {
    assert ids[..k + 1] == ids[..k] + [ids[k]];
    IdSetAppend(ids[..k], ids[k]);
  }

  lemma CreatedIdsPush(es: seq<EntitySnapshot>, k: nat)
    requires k < |es|
    ensures CreatedIds(es[..k + 1]) == CreatedIds(es[..k]) + {es[k].id}
  {
    assert es[..k + 1][k] == es[k];
    forall i | 0 <= i < k
      ensures es[..k][i].id in CreatedIds(es[..k + 1])
    {
      assert es[..k + 1][i] == es[..k][i];
    }
  }
}
