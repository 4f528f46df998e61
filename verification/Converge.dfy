/** One build: exactly when it brings a client to what the world shows it. */
module Convergence {
  import opened Core
  import opened Schemas
  import opened Diffs
  import opened Walks
  import opened Apply
  import opened ApplyAlgebra
  import opened Rebuilding
  import opened Exactness
  import opened Graphs
  import opened Mirroring

  // ---- What a build needs of the world ----

  /**
   What the world has to say about entity `id` with these dirty components makes the copy `e`
   current: the update, if one is sent, turns it into the current entity, and it is current
   already when none is.
   */
  predicate Serves(world: WorldView, id: u32, dirty: seq<u16>, e: EntitySnapshot) {
    if dirty == [] || world.update(id, dirty).None? then e == world.snapshot(id)
    else SetComponents(e.components, world.update(id, dirty).value.components) == Some(world.snapshot(id).components)
  }

  predicate Served(g: Graph, world: WorldView, id: u32, e: EntitySnapshot) {
    id in g.entities && Serves(world, id, g.entities[id].dirty, e)
  }

  /** What the world shows through a view. */
  function Visible(g: Graph, v: View, world: WorldView): map<u32, EntitySnapshot> {
    map id | id in Relevant(g, v) :: world.snapshot(id)
  }

  // ---- What a budget lets through ----

  /** Nothing that leaves and nothing that comes into view is cut off. */
  predicate ListsFit(g: Graph, c: Client) {
    && |c.known - Relevant(g, c.view)| <= c.view.budget.maxDestroys
    && |Relevant(g, c.view) - c.known| <= c.view.budget.maxCreates
  }

  /** The entity has an update, and few enough entities before it have one. */
  ghost predicate UpdateReaches(g: Graph, c: Client, world: WorldView, id: u32) {
    id in Updating(g, c, world) && Rank(Updating(g, c, world), id) < c.view.budget.maxUpdates
  }

  lemma ReachesKnown(g: Graph, c: Client, world: WorldView, id: u32)
    requires UpdateReaches(g, c, world, id)
    ensures id in c.known && id in Relevant(g, c.view) && UpdateOf(g, world, id, c.known) != []
  {
    hide Rank;
  }

  lemma {:induction false} UpdateFound(us: seq<UpdateEntity>, id: u32)
    ensures EntityUpdateFor(us, id).Some? <==> HasUpdate(us, id)
    ensures EntityUpdateFor(us, id).Some? ==>
              EntityUpdateFor(us, id).value in us && EntityUpdateFor(us, id).value.id == id
  {
    if us != [] {
      UpdateFound(us[1..], id);
      assert us == [us[0]] + us[1..];
    }
  }

  lemma {:induction false} PrefixUpdateFor(us: seq<UpdateEntity>, n: nat, id: u32)
    requires n <= |us| && EntityUpdateFor(us[..n], id).Some?
    ensures EntityUpdateFor(us[..n], id) == EntityUpdateFor(us, id)
  {
    if us[0].id != id {
      assert us[..n][1..] == us[1..][..n - 1];
      PrefixUpdateFor(us[1..], n - 1, id);
    }
  }

  /** The update for one id is the one the list has for it. */
  lemma {:induction false} ListedUpdate(g: Graph, world: WorldView, ids: seq<u32>, known: set<u32>, id: u32)
    requires RightIds(world) && SortedIds(ids)
    ensures EntityUpdateFor(UpdatesOf(g, world, ids, known), id)
         == if id in IdSet(ids) && UpdateOf(g, world, id, known) != [] then Some(UpdateOf(g, world, id, known)[0])
           else None
  {
    hide RightIds, UpdateOf, IdSet;
    EmptyOrdered();
    if ids != [] {
      ListedUpdate(g, world, ids[1..], known, id);
      IdSetStep(ids);
      FirstNotInRest(ids);
      UpdateId(g, world, ids[0], known);
      var rest := UpdatesOf(g, world, ids[1..], known);
      if UpdateOf(g, world, ids[0], known) == [] {
        assert UpdatesOf(g, world, ids, known) == rest;
      } else {
        assert UpdatesOf(g, world, ids, known)[1..] == rest;
      }
    }
  }

  /** The update a client receives for one entity, if any. */
  lemma SentUpdate(g: Graph, c: Client, world: WorldView, id: u32)
    requires RightIds(world)
    ensures EntityUpdateFor(DeltaFor(g, c, world).updates, id)
         == if UpdateReaches(g, c, world, id) then Some(UpdateOf(g, world, id, c.known)[0]) else None
  {
    var ids := InViewIds(g, c.view);
    var us := UpdatesOf(g, world, ids, c.known);
    var sent := DeltaFor(g, c, world).updates;
    assert sent == us[..|sent|];
    UpdateSent(g, c, world, id);
    UpdateFound(sent, id);
    if UpdateReaches(g, c, world, id) {
      PrefixUpdateFor(us, |sent|, id);
      ListedUpdate(g, world, ids, c.known, id);
    }
  }

  lemma CutIdsSize(ids: seq<u32>, n: nat)
    requires SortedIds(ids)
    ensures |IdSet(Truncate(ids, n))| == if |IdSet(ids)| > n then n else |IdSet(ids)|
  {
    hide IdSet;
    SortedSize(ids);
    SortedSize(Truncate(ids, n));
  }

  lemma CutIds(ids: seq<u32>, n: nat)
    requires SortedIds(ids)
    ensures IdSet(Truncate(ids, n)) == IdSet(ids) <==> |IdSet(ids)| <= n
  {
    hide IdSet;
    CutIdsSize(ids, n);
    SortedSize(ids);
  }

  lemma CutEntitiesSize(es: seq<EntitySnapshot>, n: nat)
    requires Sorted(es)
    ensures |EntityMap(Truncate(es, n)).Keys| == if |EntityMap(es).Keys| > n then n else |EntityMap(es).Keys|
  {
    hide EntityMap;
    var t := Truncate(es, n);
    MapSize(es);
    MapSize(t);
    KeysCount(EntityMap(es), EntityMap(es).Keys);
    KeysCount(EntityMap(t), EntityMap(t).Keys);
  }

  lemma CutEntities(es: seq<EntitySnapshot>, n: nat)
    requires Sorted(es)
    ensures EntityMap(Truncate(es, n)).Keys == EntityMap(es).Keys <==> |EntityMap(es).Keys| <= n
  {
    hide EntityMap;
    CutEntitiesSize(es, n);
    MapSize(es);
    KeysCount(EntityMap(es), EntityMap(es).Keys);
  }

  lemma NoneLeavesInView(g: Graph, c: Client)
    requires Separate(g)
    ensures Leaving(g, c) == c.known - Relevant(g, c.view)
  {
  }

  lemma BuiltDestroys(g: Graph, c: Client, world: WorldView)
    requires Separate(g)
    ensures var ids, leaving := IdSet(DeltaFor(g, c, world).destroys), c.known - Relevant(g, c.view);
            ids <= leaving && (ids == leaving <==> |leaving| <= c.view.budget.maxDestroys)
  {
    hide Relevant, OrderedIds, CreatesOf, UpdatesOf, FilterIds, IdSet, Truncate, Leaving;
    var ids := OrderedIds(Leaving(g, c));
    NoneLeavesInView(g, c);
    OrderedIdsProperties(Leaving(g, c));
    CutIds(ids, c.view.budget.maxDestroys);
    PrefixIds(ids, c.view.budget.maxDestroys);
  }

  lemma BuiltCreates(g: Graph, c: Client, world: WorldView)
    requires RightIds(world)
    ensures var creates, coming := DeltaFor(g, c, world).creates, Relevant(g, c.view) - c.known;
            && Sorted(creates)
            && EntityMap(creates).Keys <= coming
            && (EntityMap(creates).Keys == coming <==> |coming| <= c.view.budget.maxCreates)
            && (forall id :: id in EntityMap(creates) ==> EntityMap(creates)[id] == world.snapshot(id))
  {
    var es := CreatesOf(world, InViewIds(g, c.view), c.known);
    CreatesProperties(world, InViewIds(g, c.view), c.known);
    PrefixCreates(es, c.view.budget.maxCreates);
    CutEntities(es, c.view.budget.maxCreates);
    CutValues(es, c.view.budget.maxCreates);
  }

  lemma BroughtTo(known: set<u32>, rel: set<u32>, destroyed: set<u32>, created: set<u32>)
    requires destroyed <= known - rel && created <= rel - known
    ensures known - destroyed + created == rel <==> destroyed == known - rel && created == rel - known
  {
    var after := known - destroyed + created;
    assert created == after - known && destroyed == known - after;
  }

  /** What the client is told to destroy and to create, and when that brings it to the ids in view. */
  lemma BuiltIds(g: Graph, c: Client, world: WorldView)
    requires RightIds(world) && Separate(g)
    ensures var d := DeltaFor(g, c, world);
            var created := EntityMap(d.creates);
            && Sorted(d.creates) && SortedUpdates(d.updates)
            && IdSet(d.destroys) <= c.known - Relevant(g, c.view)
            && created.Keys <= Relevant(g, c.view) - c.known
            && KnownAfter(c.known, d) == c.known - IdSet(d.destroys) + created.Keys
            && (KnownAfter(c.known, d) == Relevant(g, c.view) <==> ListsFit(g, c))
            && (forall id :: id in created ==> created[id] == world.snapshot(id))
  {
    hide RightIds, Relevant, DeltaFor, IdSet, EntityMap, CreatedIds, Sorted, SortedUpdates;
    var d := DeltaFor(g, c, world);
    DeltaLists(g, c, world);
    BuiltDestroys(g, c, world);
    BuiltCreates(g, c, world);
    CreatedIdsMap(d.creates);
    BroughtTo(c.known, Relevant(g, c.view), IdSet(d.destroys), EntityMap(d.creates).Keys);
  }

  /** Cutting a list off changes none of the entities that are left. */
  lemma CutValues(es: seq<EntitySnapshot>, n: nat)
    requires Sorted(es)
    ensures forall id :: id in EntityMap(Truncate(es, n)) ==>
              id in EntityMap(es) && EntityMap(Truncate(es, n))[id] == EntityMap(es)[id]
  {
    hide EntityMap;
    var t := Truncate(es, n);
    forall id | id in EntityMap(t)
      ensures id in EntityMap(es) && EntityMap(t)[id] == EntityMap(es)[id]
    {
      var i := EntityIndex(t, id);
      assert es[i] == t[i];
      EntityAt(es, i);
      EntityAt(t, i);
    }
  }

  // ---- One build ----

  /** The components of the update for an entity that is sent one. */
  function SaidOf(g: Graph, c: Client, world: WorldView, id: u32): seq<UpdateComponent> {
    if UpdateOf(g, world, id, c.known) == [] then [] else UpdateOf(g, world, id, c.known)[0].components
  }

  /** A client's copy of an entity after it has applied a build, created entities being `creates`. */
  ghost function CopyAfter(g: Graph, c: Client, world: WorldView, mirror: map<u32, EntitySnapshot>,
                           creates: map<u32, EntitySnapshot>, id: u32): EntitySnapshot
    requires mirror.Keys == c.known && (id in c.known || id in creates)
    requires UpdateReaches(g, c, world, id) && id in c.known ==>
               SetComponents(mirror[id].components, SaidOf(g, c, world, id)).Some?
  {
    if id !in c.known then creates[id]
    else if UpdateReaches(g, c, world, id) then
      EntitySnapshot(id, SetComponents(mirror[id].components, SaidOf(g, c, world, id)).value)
    else mirror[id]
  }

  /** Every update that is sent can be applied to the client's copy. */
  ghost predicate UpdatesFit(g: Graph, c: Client, world: WorldView, mirror: map<u32, EntitySnapshot>)
    requires mirror.Keys == c.known
  {
    forall id :: id in c.known && UpdateReaches(g, c, world, id) ==>
      SetComponents(mirror[id].components, SaidOf(g, c, world, id)).Some?
  }

  /** A delta as the client receives it: created entities may come in another form, with the same ids. */
  predicate SameCreates(creates: seq<EntitySnapshot>, d: Delta) {
    EntityMap(creates).Keys == EntityMap(d.creates).Keys
  }

  lemma {:induction false} FitEach(m: map<u32, EntitySnapshot>, us: seq<UpdateEntity>)
    ensures EntitiesFit(m, us) <==> forall u :: u in us ==> EntityFits(m, u)
  {
    hide EntityFits;
    if us != [] {
      FitEach(m, us[1..]);
      assert us == [us[0]] + us[1..];
    }
  }

  lemma {:induction false} OwnUpdate(us: seq<UpdateEntity>, u: UpdateEntity)
    requires SortedUpdates(us) && u in us
    ensures EntityUpdateFor(us, u.id) == Some(u)
  {
    assert us == [us[0]] + us[1..];
    if us[0] != u {
      OwnUpdate(us[1..], u);
    }
  }

  /** The updates sent, one for each entity that is reached. */
  lemma SentEach(g: Graph, c: Client, world: WorldView)
    requires RightIds(world)
    ensures var us := DeltaFor(g, c, world).updates;
            && (forall u :: u in us ==> UpdateReaches(g, c, world, u.id) && SaidOf(g, c, world, u.id) == u.components)
            && (forall id :: UpdateReaches(g, c, world, id) ==> exists u :: u in us && u.id == id)
  {
    hide RightIds, DeltaFor, UpdateReaches, EntityUpdateFor, SortedUpdates;
    var us := DeltaFor(g, c, world).updates;
    DeltaLists(g, c, world);
    forall u | u in us
      ensures UpdateReaches(g, c, world, u.id) && SaidOf(g, c, world, u.id) == u.components
    {
      OwnUpdate(us, u);
      SentUpdate(g, c, world, u.id);
      ReachesSaid(g, c, world, u.id);
    }
    forall id | UpdateReaches(g, c, world, id)
      ensures exists u :: u in us && u.id == id
    {
      SentUpdate(g, c, world, id);
      UpdateFound(us, id);
    }
  }

  /**
   The updates sent fit the entities that are there when they are applied, exactly when each fits
   the client's copy.
   */
  lemma UpdatesFitAll(g: Graph, c: Client, world: WorldView, mirror: map<u32, EntitySnapshot>,
                      all: map<u32, EntitySnapshot>)
    requires RightIds(world) && mirror.Keys == c.known
    requires forall id :: UpdateReaches(g, c, world, id) ==> id in c.known && id in all && all[id] == mirror[id]
    ensures EntitiesFit(all, DeltaFor(g, c, world).updates) <==> UpdatesFit(g, c, world, mirror)
  {
    hide RightIds, DeltaFor, UpdateReaches, EntityUpdateFor, EntitiesFit, AllFit, SetComponents, SortedUpdates;
    FitEach(all, DeltaFor(g, c, world).updates);
    SentEach(g, c, world);
    forall id | id in c.known
      ensures SetComponents(mirror[id].components, SaidOf(g, c, world, id)).Some?
         <==> AllFit(mirror[id].components, SaidOf(g, c, world, id))
    {
      SetComponentsIff(mirror[id].components, SaidOf(g, c, world, id));
    }
  }

  lemma ReachesSaid(g: Graph, c: Client, world: WorldView, id: u32)
    requires UpdateReaches(g, c, world, id)
    ensures UpdateOf(g, world, id, c.known) != []
    ensures SaidOf(g, c, world, id) == UpdateOf(g, world, id, c.known)[0].components
  {
    ReachesKnown(g, c, world, id);
  }

  /**
   What one build does, whatever the budget: it applies exactly when the result is within the limit
   and every update that is sent fits the copy it is for, and each copy is then the one described.
   */
  lemma BuildResult(g: Graph, c: Client, world: WorldView, mirror: map<u32, EntitySnapshot>, limits: CodecLimits,
                    creates: seq<EntitySnapshot>)
    requires RightIds(world) && Separate(g) && mirror.Keys == c.known && SameCreates(creates, DeltaFor(g, c, world))
    ensures var d := DeltaFor(g, c, world);
            ApplyDelta(mirror, d.(creates := creates), limits).Some?
            <==> |KnownAfter(c.known, d)| <= limits.maxTotalEntitiesAfterApply && UpdatesFit(g, c, world, mirror)
    ensures var d := DeltaFor(g, c, world);
            var r := ApplyDelta(mirror, d.(creates := creates), limits);
            r.Some? ==>
              && r.value.Keys == KnownAfter(c.known, d)
              && forall id :: id in r.value ==>
                   && (id in c.known || id in EntityMap(creates))
                   && r.value[id] == CopyAfter(g, c, world, mirror, EntityMap(creates), id)
  {
    var d := DeltaFor(g, c, world);
    var d' := d.(creates := creates);
    var all := mirror - IdSet(d.destroys) + EntityMap(creates);
    BuiltIds(g, c, world);
    assert all.Keys == KnownAfter(c.known, d);
    KeysCount(all, KnownAfter(c.known, d));
    forall id | UpdateReaches(g, c, world, id)
      ensures id in c.known && id in all && all[id] == mirror[id]
    {
      ReachesKnown(g, c, world, id);
    }
    UpdatesFitAll(g, c, world, mirror, all);
    ApplyIff(mirror, d', limits);
    if ApplyDelta(mirror, d', limits).Some? {
      ApplyParts(mirror, d', limits);
      forall id | id in all
        ensures SetEntities(all, d.updates).value[id] == CopyAfter(g, c, world, mirror, EntityMap(creates), id)
      {
        SetEntitiesAt(all, d.updates, id);
        SentUpdate(g, c, world, id);
        if UpdateReaches(g, c, world, id) {
          ReachesSaid(g, c, world, id);
        }
      }
    }
  }

  /** The copy of a known entity will be current: by the update if one is sent, and without one if it is already. */
  ghost predicate Refreshed(g: Graph, c: Client, world: WorldView, id: u32, e: EntitySnapshot) {
    if UpdateReaches(g, c, world, id) then Served(g, world, id, e) else e == world.snapshot(id)
  }

  lemma RefreshedCopy(g: Graph, c: Client, world: WorldView, mirror: map<u32, EntitySnapshot>,
                      creates: map<u32, EntitySnapshot>, id: u32)
    requires RightIds(world) && mirror.Keys == c.known && id in c.known && UpdatesFit(g, c, world, mirror)
    ensures CopyAfter(g, c, world, mirror, creates, id) == world.snapshot(id)
            <==> Refreshed(g, c, world, id, mirror[id])
  {
    hide SetComponents, Rank, Updating;
    SnapshotId(world, id);
    hide RightIds;
    if UpdateReaches(g, c, world, id) {
      ReachesDirty(g, c, world, id);
    }
  }

  lemma ReachesDirty(g: Graph, c: Client, world: WorldView, id: u32)
    requires UpdateReaches(g, c, world, id)
    ensures id in g.entities && g.entities[id].dirty != [] && world.update(id, g.entities[id].dirty).Some?
    ensures SaidOf(g, c, world, id) == world.update(id, g.entities[id].dirty).value.components
  {
    ReachesKnown(g, c, world, id);
  }

  /**
   One build, exactly, whatever the budget and however created entities come. A client that has
   what the graph believes ends up with exactly what the world shows it if and only if that is
   within the limit, nothing that comes or leaves is cut off, created entities come as they are, and
   each copy still in view is brought up to date by the update that reaches it or is so already.
   */
  lemma BuildConvergesAs(g: Graph, c: Client, world: WorldView, mirror: map<u32, EntitySnapshot>, limits: CodecLimits,
                         creates: seq<EntitySnapshot>)
    requires RightIds(world) && Separate(g) && mirror.Keys == c.known && SameCreates(creates, DeltaFor(g, c, world))
    ensures ApplyDelta(mirror, DeltaFor(g, c, world).(creates := creates), limits) == Some(Visible(g, c.view, world))
       <==> && |Relevant(g, c.view)| <= limits.maxTotalEntitiesAfterApply
            && ListsFit(g, c)
            && (forall id :: id in EntityMap(creates) ==> EntityMap(creates)[id] == world.snapshot(id))
            && (forall id :: id in c.known && id in Relevant(g, c.view) ==> Refreshed(g, c, world, id, mirror[id]))
  {
    hide RightIds, DeltaFor, Relevant, EntityMap, ListsFit, ApplyDelta, Refreshed, Separate;
    if ApplyDelta(mirror, DeltaFor(g, c, world).(creates := creates), limits) == Some(Visible(g, c.view, world)) {
      ConvergedOnlyIf(g, c, world, mirror, limits, creates);
    }
    if ListsFit(g, c) && |Relevant(g, c.view)| <= limits.maxTotalEntitiesAfterApply
       && (forall id :: id in EntityMap(creates) ==> EntityMap(creates)[id] == world.snapshot(id))
       && (forall id :: id in c.known && id in Relevant(g, c.view) ==> Refreshed(g, c, world, id, mirror[id])) {
      ConvergedIf(g, c, world, mirror, limits, creates);
    }
  }

  lemma ConvergedOnlyIf(g: Graph, c: Client, world: WorldView, mirror: map<u32, EntitySnapshot>, limits: CodecLimits,
                        creates: seq<EntitySnapshot>)
    requires RightIds(world) && Separate(g) && mirror.Keys == c.known && SameCreates(creates, DeltaFor(g, c, world))
    requires ApplyDelta(mirror, DeltaFor(g, c, world).(creates := creates), limits) == Some(Visible(g, c.view, world))
    ensures |Relevant(g, c.view)| <= limits.maxTotalEntitiesAfterApply && ListsFit(g, c)
    ensures forall id :: id in EntityMap(creates) ==> EntityMap(creates)[id] == world.snapshot(id)
    ensures forall id :: id in c.known && id in Relevant(g, c.view) ==> Refreshed(g, c, world, id, mirror[id])
  {
    hide DeltaFor, IdSet, EntityMap, KnownAfter, ListsFit, SaidOf, Sorted, SortedUpdates, ApplyDelta, CopyAfter,
      Refreshed, UpdatesFit, Separate;
    var created, rel := EntityMap(creates), Relevant(g, c.view);
    BuiltIds(g, c, world);
    BuildResult(g, c, world, mirror, limits, creates);
    forall id | id in c.known && id in rel
      ensures Refreshed(g, c, world, id, mirror[id])
    {
      RefreshedCopy(g, c, world, mirror, created, id);
    }
    forall id | id in created
      ensures created[id] == world.snapshot(id)
    {
      NewCopy(g, c, world, mirror, created, id);
    }
  }

  lemma ConvergedIf(g: Graph, c: Client, world: WorldView, mirror: map<u32, EntitySnapshot>, limits: CodecLimits,
                    creates: seq<EntitySnapshot>)
    requires RightIds(world) && Separate(g) && mirror.Keys == c.known && SameCreates(creates, DeltaFor(g, c, world))
    requires |Relevant(g, c.view)| <= limits.maxTotalEntitiesAfterApply && ListsFit(g, c)
    requires forall id :: id in EntityMap(creates) ==> EntityMap(creates)[id] == world.snapshot(id)
    requires forall id :: id in c.known && id in Relevant(g, c.view) ==> Refreshed(g, c, world, id, mirror[id])
    ensures ApplyDelta(mirror, DeltaFor(g, c, world).(creates := creates), limits) == Some(Visible(g, c.view, world))
  {
    hide RightIds, DeltaFor, Relevant, IdSet, EntityMap, KnownAfter, ListsFit, SaidOf, Sorted, SortedUpdates,
      ApplyDelta, CopyAfter, Refreshed, UpdatesFit, Separate;
    var created, rel := EntityMap(creates), Relevant(g, c.view);
    BuiltIds(g, c, world);
    AllRefreshedFit(g, c, world, mirror);
    BuildResult(g, c, world, mirror, limits, creates);
    var r := ApplyDelta(mirror, DeltaFor(g, c, world).(creates := creates), limits).value;
    forall id | id in rel
      ensures r[id] == world.snapshot(id)
    {
      if id in c.known {
        RefreshedCopy(g, c, world, mirror, created, id);
      } else {
        NewCopy(g, c, world, mirror, created, id);
      }
    }
    assert r == Visible(g, c.view, world);
  }

  lemma NewCopy(g: Graph, c: Client, world: WorldView, mirror: map<u32, EntitySnapshot>,
                creates: map<u32, EntitySnapshot>, id: u32)
    requires mirror.Keys == c.known && id !in c.known && id in creates
    ensures CopyAfter(g, c, world, mirror, creates, id) == creates[id]
  {
    hide UpdateReaches, SaidOf, SetComponents;
  }

  lemma AllRefreshedFit(g: Graph, c: Client, world: WorldView, mirror: map<u32, EntitySnapshot>)
    requires mirror.Keys == c.known
    requires forall id :: id in c.known && id in Relevant(g, c.view) ==> Refreshed(g, c, world, id, mirror[id])
    ensures UpdatesFit(g, c, world, mirror)
  {
    hide SetComponents, Relevant, UpdateReaches;
    forall id | id in c.known && UpdateReaches(g, c, world, id)
      ensures SetComponents(mirror[id].components, SaidOf(g, c, world, id)).Some?
    {
      ReachesKnown(g, c, world, id);
      ReachesDirty(g, c, world, id);
    }
  }

  /** One build of the lists as they are. */
  lemma BuildConverges(g: Graph, c: Client, world: WorldView, mirror: map<u32, EntitySnapshot>, limits: CodecLimits)
    requires RightIds(world) && Separate(g) && mirror.Keys == c.known
    ensures ApplyDelta(mirror, DeltaFor(g, c, world), limits) == Some(Visible(g, c.view, world))
       <==> && |Relevant(g, c.view)| <= limits.maxTotalEntitiesAfterApply
            && ListsFit(g, c)
            && (forall id :: id in c.known && id in Relevant(g, c.view) ==> Refreshed(g, c, world, id, mirror[id]))
    ensures KnownAfter(c.known, DeltaFor(g, c, world)) == Relevant(g, c.view) <==> ListsFit(g, c)
  {
    var d := DeltaFor(g, c, world);
    BuiltIds(g, c, world);
    assert d.(creates := d.creates) == d;
    BuildConvergesAs(g, c, world, mirror, limits, d.creates);
  }

  lemma RelevantTracked(g: Graph, v: View)
    ensures Relevant(g, v) <= g.entities.Keys
  {
  }

  // ---- Updates carry values, so a second one does no harm ----

  /** The last value a list of field updates has for index `i`. */
  function LastValue(fs: seq<(nat, FieldValue)>, i: nat): Option<FieldValue> {
    if fs == [] then None
    else if LastValue(fs[1..], i).Some? then LastValue(fs[1..], i)
    else if fs[0].0 == i then Some(fs[0].1) else None
  }

  lemma {:induction false} SetFieldsLast(values: seq<FieldValue>, fs: seq<(nat, FieldValue)>, i: nat)
    requires SetFields(values, fs).Some? && i < |values|
    ensures SetFields(values, fs).value[i] == match LastValue(fs, i) case Some(v) => v case None => values[i]
    decreases |fs|
  {
    if fs != [] {
      SetFieldsLast(values[fs[0].0 := fs[0].1], fs[1..], i);
    }
  }

  lemma SetFieldsTwice(values: seq<FieldValue>, fs: seq<(nat, FieldValue)>)
    requires SetFields(values, fs).Some?
    ensures SetFields(SetFields(values, fs).value, fs) == SetFields(values, fs)
  {
    hide SetFields, LastValue;
    var once := SetFields(values, fs).value;
    SetFieldsIff(values, fs);
    SetFieldsIff(once, fs);
    var twice := SetFields(once, fs).value;
    forall i | 0 <= i < |values|
      ensures twice[i] == once[i]
    {
      SetFieldsLast(values, fs, i);
      SetFieldsLast(once, fs, i);
    }
    assert twice == once;
  }

  /** All field updates that a list of component updates has for one id, in order. */
  function WritesFor(us: seq<UpdateComponent>, id: u16): seq<(nat, FieldValue)> {
    if us == [] then [] else (if us[0].id == id then us[0].fields else []) + WritesFor(us[1..], id)
  }

  lemma {:induction false} SetFieldsConcat(values: seq<FieldValue>, a: seq<(nat, FieldValue)>,
                                           b: seq<(nat, FieldValue)>)
    requires SetFields(values, a).Some?
    ensures SetFields(values, a + b) == SetFields(SetFields(values, a).value, b)
    decreases |a|
  {
    if a == [] {
      assert a + b == b;
    } else {
      assert (a + b)[0] == a[0] && (a + b)[1..] == a[1..] + b;
      SetFieldsConcat(values[a[0].0 := a[0].1], a[1..], b);
    }
  }

  /** No component before position `k` has the same id. */
  predicate FirstAt(cs: seq<ComponentSnapshot>, k: nat)
    requires k < |cs|
  {
    forall i :: 0 <= i < k ==> cs[i].id != cs[k].id
  }

  /** Setting a component changes the first one with its id, and no other. */
  lemma {:induction false} SetComponentPlace(cs: seq<ComponentSnapshot>, u: UpdateComponent, k: nat)
    requires SetComponent(cs, u).Some? && k < |cs|
    ensures FirstAt(cs, k) && cs[k].id == u.id ==> SetFields(cs[k].fields, u.fields).Some?
    ensures SetComponent(cs, u).value[k]
         == if FirstAt(cs, k) && cs[k].id == u.id then ComponentSnapshot(u.id, SetFields(cs[k].fields, u.fields).value)
            else cs[k]
  {
    hide SetFields;
    if cs[0].id != u.id && k > 0 {
      SetComponentPlace(cs[1..], u, k - 1);
      assert cs[k].id == u.id ==> (FirstAt(cs, k) <==> FirstAt(cs[1..], k - 1));
    }
  }

  /** Each first component receives all the field updates for its id; every other one stays as it is. */
  lemma {:induction false} SetComponentsPlace(cs: seq<ComponentSnapshot>, us: seq<UpdateComponent>, k: nat)
    requires SetComponents(cs, us).Some? && k < |cs|
    ensures SameComponentIds(cs, SetComponents(cs, us).value)
    ensures FirstAt(cs, k) ==> SetFields(cs[k].fields, WritesFor(us, cs[k].id)).Some?
    ensures SetComponents(cs, us).value[k]
         == if FirstAt(cs, k) then ComponentSnapshot(cs[k].id, SetFields(cs[k].fields, WritesFor(us, cs[k].id)).value)
            else cs[k]
    decreases |us|
  {
    hide SetComponent, SetFields;
    if us == [] {
      NothingSet(cs[k].fields);
    } else {
      var next := SetComponent(cs, us[0]).value;
      SetComponentLookup(cs, us[0], 0);
      SetComponentPlace(cs, us[0], k);
      SetComponentsPlace(next, us[1..], k);
      assert FirstAt(next, k) <==> FirstAt(cs, k);
      var rest := WritesFor(us[1..], cs[k].id);
      assert [] + rest == rest;
      if FirstAt(cs, k) && cs[k].id == us[0].id {
        SetFieldsConcat(cs[k].fields, us[0].fields, rest);
      }
    }
  }

  lemma {:induction false} FitKept(cs: seq<ComponentSnapshot>, done: seq<UpdateComponent>, us: seq<UpdateComponent>)
    requires SetComponents(cs, done).Some?
    ensures AllFit(SetComponents(cs, done).value, us) <==> AllFit(cs, us)
    decreases |done|
  {
    hide SetComponent, AllFit;
    if done != [] {
      ShapeKept(cs, done[0], us);
      FitKept(SetComponent(cs, done[0]).value, done[1..], us);
    }
  }

  /** Component updates say what the values are, not how they change: applying them again changes nothing. */
  lemma SetComponentsTwice(cs: seq<ComponentSnapshot>, us: seq<UpdateComponent>)
    requires SetComponents(cs, us).Some?
    ensures SetComponents(SetComponents(cs, us).value, us) == SetComponents(cs, us)
  {
    hide SetComponents, SetFields, WritesFor, AllFit;
    var once := SetComponents(cs, us).value;
    SetComponentsIff(cs, us);
    FitKept(cs, us, us);
    SetComponentsIff(once, us);
    var twice := SetComponents(once, us).value;
    SetComponentsLength(cs, us);
    forall k | 0 <= k < |once|
      ensures k < |twice| && twice[k] == once[k]
    {
      SetComponentsPlace(cs, us, k);
      SetComponentsPlace(once, us, k);
      assert FirstAt(once, k) <==> FirstAt(cs, k);
      if FirstAt(cs, k) {
        SetFieldsTwice(cs[k].fields, WritesFor(us, cs[k].id));
      }
    }
    SetComponentsLength(once, us);
    assert twice == once;
  }

  lemma {:induction false} SetComponentsLength(cs: seq<ComponentSnapshot>, us: seq<UpdateComponent>)
    requires SetComponents(cs, us).Some?
    ensures |SetComponents(cs, us).value| == |cs|
    decreases |us|
  {
    hide SetComponent;
    if us != [] {
      SetComponentsLength(SetComponent(cs, us[0]).value, us[1..]);
    }
  }

  /** A copy that has been served stays served. */
  lemma ServedAgain(world: WorldView, id: u32, dirty: seq<u16>, e: EntitySnapshot)
    requires Serves(world, id, dirty, e)
    ensures Serves(world, id, dirty, world.snapshot(id))
  {
    hide SetComponents;
    if dirty != [] && world.update(id, dirty).Some? {
      SetComponentsTwice(e.components, world.update(id, dirty).value.components);
    }
  }

  // ---- Updates change components and never add or remove one ----

  lemma ServedShape(g: Graph, world: WorldView, id: u32, e: EntitySnapshot)
    requires Served(g, world, id, e)
    ensures SameComponentIds(e.components, world.snapshot(id).components)
  {
    hide SetComponents;
    if g.entities[id].dirty != [] && world.update(id, g.entities[id].dirty).Some? {
      var us := world.update(id, g.entities[id].dirty).value.components;
      SetComponentsLength(e.components, us);
      if e.components != [] {
        SetComponentsPlace(e.components, us, 0);
      }
    }
  }

  /**
   Whatever the world says, a client that knows an entity with other components than it has now is
   not brought up to date.
   */
  lemma ComponentsNeverAdded(g: Graph, c: Client, world: WorldView, mirror: map<u32, EntitySnapshot>,
                             limits: CodecLimits, id: u32)
    requires RightIds(world) && Separate(g) && mirror.Keys == c.known && id in c.known && id in Relevant(g, c.view)
    requires !SameComponentIds(mirror[id].components, world.snapshot(id).components)
    ensures ApplyDelta(mirror, DeltaFor(g, c, world), limits) != Some(Visible(g, c.view, world))
  {
    BuildConverges(g, c, world, mirror, limits);
    if Served(g, world, id, mirror[id]) {
      ServedShape(g, world, id, mirror[id]);
    }
  }
}
