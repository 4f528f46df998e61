/** Runs of the replication graph: the client's set of entities is always what the graph believes it is. */
module Mirroring {
  import opened Core
  import opened Schemas
  import opened Diffs
  import opened Encodings
  import opened Walks
  import opened Apply
  import opened ApplyAlgebra
  import opened Graphs

  // ---- What the world must get right ----

  /** Snapshots and updates carry the id they were asked for. */
  ghost predicate RightIds(world: WorldView) {
    && (forall id :: world.snapshot(id).id == id)
    && (forall id, dirty :: world.update(id, dirty).Some? ==> world.update(id, dirty).value.id == id)
  }

  // ---- The three lists ----

  lemma {:induction false} FilterProperties(ids: seq<u32>, s: set<u32>)
    requires SortedIds(ids)
    ensures SortedIds(FilterIds(ids, s)) && IdSet(FilterIds(ids, s)) == IdSet(ids) * s
    ensures FilterIds(ids, s) != [] ==> ids != [] && ids[0] <= FilterIds(ids, s)[0]
  {
    hide IdSet;
    EmptyOrdered();
    if ids != [] {
      FilterProperties(ids[1..], s);
      IdSetStep(ids);
      var rest := FilterIds(ids[1..], s);
      if ids[0] in s {
        assert FilterIds(ids, s) == [ids[0]] + rest;
        assert ([ids[0]] + rest)[1..] == rest;
        IdSetStep([ids[0]] + rest);
      } else {
        assert FilterIds(ids, s) == rest;
      }
    }
  }

  lemma {:induction false} CreatesProperties(world: WorldView, ids: seq<u32>, known: set<u32>)
    requires SortedIds(ids) && RightIds(world)
    ensures var es := CreatesOf(world, ids, known);
            && Sorted(es)
            && EntityMap(es).Keys == IdSet(ids) - known
            && (forall id :: id in EntityMap(es) ==> EntityMap(es)[id] == world.snapshot(id))
            && (es != [] ==> ids != [] && ids[0] <= es[0].id)
  {
    hide RightIds, IdSet;
    EmptyOrdered();
    if ids != [] {
      CreatesProperties(world, ids[1..], known);
      IdSetStep(ids);
      SnapshotId(world, ids[0]);
      FirstNotInRest(ids);
      var rest := CreatesOf(world, ids[1..], known);
      if ids[0] in known {
        assert CreatesOf(world, ids, known) == rest;
      } else {
        assert CreatesOf(world, ids, known)[1..] == rest;
      }
    }
  }

  lemma FirstNotInRest(ids: seq<u32>)
    requires SortedIds(ids) && ids != []
    ensures ids[0] !in IdSet(ids[1..])
  {
  }

  lemma SnapshotId(world: WorldView, id: u32)
    requires RightIds(world)
    ensures world.snapshot(id).id == id
  {
  }

  lemma UpdateId(g: Graph, world: WorldView, id: u32, known: set<u32>)
    requires RightIds(world)
    ensures var us := UpdateOf(g, world, id, known);
            us == [] || (us == [us[0]] && us[0].id == id && id in known)
  {
  }

  predicate UpdatesWithin(us: seq<UpdateEntity>, ids: set<u32>) {
    forall u :: u in us ==> u.id in ids
  }

  lemma {:induction false} UpdatesProperties(g: Graph, world: WorldView, ids: seq<u32>, known: set<u32>)
    requires SortedIds(ids) && RightIds(world)
    ensures var us := UpdatesOf(g, world, ids, known);
            && SortedUpdates(us)
            && UpdatesWithin(us, IdSet(ids) * known)
            && (us != [] ==> ids != [] && ids[0] <= us[0].id)
  {
    hide RightIds, UpdateOf;
    if ids != [] {
      UpdatesProperties(g, world, ids[1..], known);
      IdSetStep(ids);
      UpdateId(g, world, ids[0], known);
      var rest := UpdatesOf(g, world, ids[1..], known);
      if UpdateOf(g, world, ids[0], known) == [] {
        assert UpdatesOf(g, world, ids, known) == rest;
      } else {
        assert UpdatesOf(g, world, ids, known)[1..] == rest;
      }
    }
  }

  /** The ids a client is told about, in order. */
  ghost function InViewIds(g: Graph, v: View): (ids: seq<u32>)
    ensures SortedIds(ids) && IdSet(ids) == Relevant(g, v)
  {
    OrderedIdsProperties(g.entities.Keys);
    FilterProperties(OrderedIds(g.entities.Keys), Relevant(g, v));
    RelevantInside(g, v);
    FilterIds(OrderedIds(g.entities.Keys), Relevant(g, v))
  }

  lemma {:induction false} CreatedIdsMap(es: seq<EntitySnapshot>)
    ensures CreatedIds(es) == EntityMap(es).Keys
  {
    if es != [] {
      CreatedIdsMap(es[1..]);
      forall id | id in CreatedIds(es)
        ensures id in EntityMap(es)
      {
        var i :| 0 <= i < |es| && es[i].id == id;
        if i > 0 {
          assert es[1..][i - 1].id in CreatedIds(es[1..]);
        }
      }
      forall id | id in EntityMap(es)
        ensures id in CreatedIds(es)
      {
        var i := EntityIndex(es, id);
      }
    }
  }

  /** A prefix of a sorted list, by ids. */
  lemma PrefixIds(ids: seq<u32>, n: nat)
    requires SortedIds(ids)
    ensures SortedIds(Truncate(ids, n)) && IdSet(Truncate(ids, n)) <= IdSet(ids)
  {
    var t := Truncate(ids, n);
    forall i | 0 <= i < |t|
      ensures t[i] in IdSet(ids)
    {
      assert ids[i] == t[i];
    }
  }

  lemma PrefixCreates(es: seq<EntitySnapshot>, n: nat)
    requires Sorted(es)
    ensures Sorted(Truncate(es, n)) && EntityMap(Truncate(es, n)).Keys <= EntityMap(es).Keys
  {
    var t := Truncate(es, n);
    forall id | id in EntityMap(t)
      ensures id in EntityMap(es)
    {
      var i := EntityIndex(t, id);
      assert es[i] == t[i];
      EntityAt(es, i);
    }
  }

  lemma PrefixUpdates(us: seq<UpdateEntity>, n: nat, ids: set<u32>)
    requires SortedUpdates(us) && UpdatesWithin(us, ids)
    ensures SortedUpdates(Truncate(us, n)) && UpdatesWithin(Truncate(us, n), ids)
  {
    var t := Truncate(us, n);
    forall u | u in t
      ensures u in us
    {
      var i :| 0 <= i < |t| && t[i] == u;
      assert us[i] == u;
    }
  }

  /** The three lists are sorted as the encoder requires, and about the right entities. */
  lemma DeltaLists(g: Graph, c: Client, world: WorldView)
    requires RightIds(world)
    ensures var d := DeltaFor(g, c, world);
            && SortedIds(d.destroys) && Sorted(d.creates) && SortedUpdates(d.updates)
            && IdSet(d.destroys) <= Leaving(g, c)
            && CreatedIds(d.creates) <= Relevant(g, c.view) - c.known
            && UpdatesWithin(d.updates, Relevant(g, c.view) * c.known)
  {
    var ids := InViewIds(g, c.view);
    OrderedIdsProperties(Leaving(g, c));
    PrefixIds(OrderedIds(Leaving(g, c)), c.view.budget.maxDestroys);
    CreatesProperties(world, ids, c.known);
    PrefixCreates(CreatesOf(world, ids, c.known), c.view.budget.maxCreates);
    CreatedIdsMap(DeltaFor(g, c, world).creates);
    UpdatesProperties(g, world, ids, c.known);
    PrefixUpdates(UpdatesOf(g, world, ids, c.known), c.view.budget.maxUpdates, Relevant(g, c.view) * c.known);
  }

  // ---- Applying ids ----

  /** Applying a delta, as far as entity ids go. */
  function ApplyIds(ids: set<u32>, d: Delta): Option<set<u32>> {
    if IdSet(d.destroys) <= ids
       && (ids - IdSet(d.destroys)) !! CreatedIds(d.creates)
       && UpdatesWithin(d.updates, KnownAfter(ids, d))
    then Some(KnownAfter(ids, d)) else None
  }

  /** A delta that applies also applies to the ids, and to the set of ids that results. */
  lemma ApplyKeepsIds(m: map<u32, EntitySnapshot>, d: Delta, limits: CodecLimits)
    requires SortedUpdates(d.updates) && ApplyDelta(m, d, limits).Some?
    ensures ApplyIds(m.Keys, d) == Some(ApplyDelta(m, d, limits).value.Keys)
  {
    hide SetEntities, IdSet, EntityMap, CreatedIds, SortedUpdates, EntitiesFit, UpdatesWithin;
    CreatedIdsMap(d.creates);
    ApplyIff(m, d, limits);
    var all := m - IdSet(d.destroys) + EntityMap(d.creates);
    FitInside(all, d.updates);
    assert (m - IdSet(d.destroys)).Keys == m.Keys - IdSet(d.destroys);
    assert all.Keys == KnownAfter(m.Keys, d);
  }

  lemma {:induction false} FitInside(m: map<u32, EntitySnapshot>, us: seq<UpdateEntity>)
    requires EntitiesFit(m, us)
    ensures UpdatesWithin(us, m.Keys)
  {
    hide AllFit;
    if us != [] {
      FitInside(m, us[1..]);
      assert us == [us[0]] + us[1..];
    }
  }

  predicate NoneDestroyed(d: Delta) {
    forall u :: u in d.updates ==> u.id !in IdSet(d.destroys)
  }

  /**
   A client that has what the graph believes can apply the ids of its delta exactly when no updated
   entity is destroyed with it.
   */
  lemma AppliesIff(g: Graph, c: Client, world: WorldView)
    requires RightIds(world)
    ensures var d := DeltaFor(g, c, world);
            ApplyIds(c.known, d) == if NoneDestroyed(d) then Some(KnownAfter(c.known, d)) else None
  {
    hide RightIds, DeltaFor, Relevant, IdSet, CreatedIds;
    DeltaLists(g, c, world);
    var d := DeltaFor(g, c, world);
    forall u | u in d.updates
      ensures u.id in KnownAfter(c.known, d) <==> u.id !in IdSet(d.destroys)
    {
      assert u.id in Relevant(g, c.view) * c.known;
    }
  }

  /** Tracked entities are not waiting to be removed. */
  predicate Separate(g: Graph) {
    g.entities.Keys !! g.removed
  }

  lemma SeparateApplies(g: Graph, c: Client, world: WorldView)
    requires RightIds(world) && Separate(g)
    ensures ApplyIds(c.known, DeltaFor(g, c, world)) == Some(KnownAfter(c.known, DeltaFor(g, c, world)))
  {
    hide RightIds, DeltaFor, IdSet, CreatedIds;
    DeltaLists(g, c, world);
    AppliesIff(g, c, world);
  }

  // ---- Runs ----

  /** One operation on the graph; `Build` also sends the delta to the client. */
  datatype Op =
    | Track(id: u32, position: Vec3, dirty: seq<u16>)
    | Remove(gone: u32)
    | Upsert(client: u32, view: View)
    | Drop(dropped: u32)
    | Build(target: u32, world: WorldView)
    | ClearDirty
    | ClearRemoved

  ghost function Perform(g: Graph, op: Op): Graph {
    match op
    case Track(id, position, dirty) => Updated(g, id, position, dirty)
    case Remove(id) => Removed(g, id)
    case Upsert(client, view) => Upserted(g, client, view)
    case Drop(client) => g.(clients := g.clients - {client})
    case Build(client, world) => Built(g, client, world)
    case ClearDirty => DirtyCleared(g)
    case ClearRemoved => g.(removed := {})
  }

  /** The ids each client has; a new client starts with none. */
  ghost function Follow(g: Graph, mirrors: map<u32, set<u32>>, op: Op): Option<map<u32, set<u32>>> {
    match op
    case Upsert(client, _) => Some(if client in mirrors then mirrors else mirrors[client := {}])
    case Drop(client) => Some(mirrors - {client})
    case Build(client, world) =>
      if client in mirrors then
        var ids :- ApplyIds(mirrors[client], BuiltDelta(g, client, world));
        Some(mirrors[client := ids])
      else Some(mirrors)
    case _ => Some(mirrors)
  }

  /** No id waiting to be removed is tracked again before the removals are cleared, and worlds get ids right. */
  ghost predicate OpOk(g: Graph, op: Op) {
    (op.Track? ==> op.id !in g.removed) && (op.Build? ==> RightIds(op.world))
  }

  ghost predicate OpsOk(g: Graph, ops: seq<Op>)
    decreases |ops|
  {
    ops == [] || (OpOk(g, ops[0]) && OpsOk(Perform(g, ops[0]), ops[1..]))
  }

  ghost function FollowAll(g: Graph, mirrors: map<u32, set<u32>>, ops: seq<Op>): Option<map<u32, set<u32>>>
    decreases |ops|
  {
    if ops == [] then Some(mirrors)
    else
      var next :- Follow(g, mirrors, ops[0]);
      FollowAll(Perform(g, ops[0]), next, ops[1..])
  }

  ghost function PerformAll(g: Graph, ops: seq<Op>): Graph
    decreases |ops|
  {
    if ops == [] then g else PerformAll(Perform(g, ops[0]), ops[1..])
  }

  /** Every client has exactly the entities the graph believes it has. */
  predicate Mirrored(g: Graph, mirrors: map<u32, set<u32>>) {
    mirrors.Keys == g.clients.Keys && forall c :: c in g.clients ==> mirrors[c] == g.clients[c].known
  }

  lemma MirrorStep(g: Graph, mirrors: map<u32, set<u32>>, op: Op)
    requires Separate(g) && Mirrored(g, mirrors) && OpOk(g, op)
    ensures Follow(g, mirrors, op).Some?
    ensures Separate(Perform(g, op)) && Mirrored(Perform(g, op), Follow(g, mirrors, op).value)
  {
    hide RightIds, DeltaFor, ApplyIds, KnownAfter;
    match op
    case Build(client, world) =>
      if client in g.clients {
        SeparateApplies(g, g.clients[client], world);
      }
    case _ =>
  }

  /**
   The mirror theorem. In every run in which no removed id is tracked again before the removals
   are cleared, whatever the budgets, applying a client's deltas never fails on ids, and the
   client's entities are always those the graph believes it knows.
   */
  lemma {:induction false} MirrorRun(g: Graph, mirrors: map<u32, set<u32>>, ops: seq<Op>)
    requires Separate(g) && Mirrored(g, mirrors) && OpsOk(g, ops)
    ensures FollowAll(g, mirrors, ops).Some?
    ensures Separate(PerformAll(g, ops)) && Mirrored(PerformAll(g, ops), FollowAll(g, mirrors, ops).value)
    decreases |ops|
  {
    hide OpOk, Perform, Follow, Mirrored, Separate;
    if ops != [] {
      MirrorStep(g, mirrors, ops[0]);
      MirrorRun(Perform(g, ops[0]), Follow(g, mirrors, ops[0]).value, ops[1..]);
    }
  }

  // ---- Budgets that never bite ----

  /** There are no more ids than this. */
  predicate Roomy(b: Budget) {
    b.maxCreates >= 0x1_0000_0000 && b.maxUpdates >= 0x1_0000_0000 && b.maxDestroys >= 0x1_0000_0000
  }

  lemma {:induction false} SortedLow(ids: seq<u32>, i: nat)
    requires SortedIds(ids) && i < |ids|
    ensures ids[i] >= i
  {
    if i > 0 {
      SortedLow(ids, i - 1);
    }
  }

  lemma SortedCount(ids: seq<u32>)
    requires SortedIds(ids)
    ensures |ids| <= 0x1_0000_0000
  {
    if ids != [] {
      SortedLow(ids, |ids| - 1);
    }
  }

  lemma {:induction false} UpdateListed(g: Graph, world: WorldView, ids: seq<u32>, known: set<u32>, id: u32)
    requires RightIds(world)
    ensures (exists u :: u in UpdatesOf(g, world, ids, known) && u.id == id)
       <==> id in IdSet(ids) && UpdateOf(g, world, id, known) != []
  {
    hide RightIds, UpdateOf, IdSet;
    EmptyOrdered();
    if ids != [] {
      UpdateListed(g, world, ids[1..], known, id);
      IdSetStep(ids);
      UpdateId(g, world, ids[0], known);
      var head, rest := UpdateOf(g, world, ids[0], known), UpdatesOf(g, world, ids[1..], known);
      assert forall u :: u in head + rest <==> u in head || u in rest;
      if head != [] && ids[0] == id {
        assert head[0] in head + rest;
      }
    }
  }

  /** An entity that was removed, tracked again, and has an update to send to a client that knows it. */
  ghost predicate Clashing(g: Graph, c: Client, world: WorldView, id: u32) {
    id in g.removed && id in c.known && id in Relevant(g, c.view) && UpdateOf(g, world, id, c.known) != []
  }

  // ---- What a budget lets through ----

  /** How many of `ids` come before `id`. */
  function Rank(ids: set<u32>, id: u32): nat {
    |set x | x in ids && x < id|
  }

  lemma {:induction false} SortedSize(ids: seq<u32>)
    requires SortedIds(ids)
    ensures |IdSet(ids)| == |ids|
  {
    hide IdSet;
    EmptyOrdered();
    if ids != [] {
      SortedSize(ids[1..]);
      IdSetStep(ids);
      FirstNotInRest(ids);
    }
  }

  lemma RankIs(ids: set<u32>, id: u32, below: set<u32>)
    requires forall x :: x in below <==> x in ids && x < id
    ensures Rank(ids, id) == |below|
  {
    assert (set x | x in ids && x < id) == below;
  }

  /** In a sorted list, the rank of an id is its position. */
  lemma SortedRank(ids: seq<u32>, i: nat)
    requires SortedIds(ids) && i < |ids|
    ensures Rank(IdSet(ids), ids[i]) == i
  {
    hide Rank;
    forall x
      ensures x in IdSet(ids[..i]) <==> x in IdSet(ids) && x < ids[i]
    {
      if x in IdSet(ids) && x < ids[i] {
        var j :| 0 <= j < |ids| && ids[j] == x;
        assert ids[..i][j] == x;
      }
    }
    RankIs(IdSet(ids), ids[i], IdSet(ids[..i]));
    SortedSize(ids[..i]);
  }

  /** Cutting a sorted list off keeps the ids whose rank is within the limit. */
  lemma TruncatedIds(ids: seq<u32>, n: nat, id: u32)
    requires SortedIds(ids)
    ensures id in IdSet(Truncate(ids, n)) <==> id in IdSet(ids) && Rank(IdSet(ids), id) < n
  {
    hide Rank;
    var t := Truncate(ids, n);
    if id in IdSet(t) {
      var i :| 0 <= i < |t| && t[i] == id;
      assert ids[i] == id;
      SortedRank(ids, i);
    }
    if id in IdSet(ids) && Rank(IdSet(ids), id) < n {
      var i :| 0 <= i < |ids| && ids[i] == id;
      SortedRank(ids, i);
      assert t[i] == id;
    }
  }

  function UpdateIds(us: seq<UpdateEntity>): seq<u32> {
    seq(|us|, i requires 0 <= i < |us| => us[i].id)
  }

  predicate HasUpdate(us: seq<UpdateEntity>, id: u32) {
    exists u :: u in us && u.id == id
  }

  lemma UpdateIdsHave(us: seq<UpdateEntity>, id: u32)
    ensures id in IdSet(UpdateIds(us)) <==> HasUpdate(us, id)
  {
    if id in IdSet(UpdateIds(us)) {
      var i :| 0 <= i < |us| && UpdateIds(us)[i] == id;
      assert us[i] in us;
    }
    if u :| u in us && u.id == id {
      var i :| 0 <= i < |us| && us[i] == u;
      assert UpdateIds(us)[i] == id;
    }
  }

  /** Cutting sorted updates off keeps those whose rank among the updated ids is within the limit. */
  lemma TruncatedUpdates(us: seq<UpdateEntity>, n: nat, ids: set<u32>, id: u32)
    requires SortedUpdates(us) && forall x :: x in ids <==> HasUpdate(us, x)
    ensures HasUpdate(Truncate(us, n), id) <==> id in ids && Rank(ids, id) < n
  {
    hide Rank, HasUpdate, IdSet;
    forall x
      ensures x in IdSet(UpdateIds(us)) <==> x in ids
    {
      UpdateIdsHave(us, x);
    }
    assert IdSet(UpdateIds(us)) == ids;
    assert UpdateIds(Truncate(us, n)) == Truncate(UpdateIds(us), n);
    TruncatedIds(UpdateIds(us), n, id);
    UpdateIdsHave(Truncate(us, n), id);
  }

  // ---- When the mirror breaks ----

  /** The entities in view that have an update to send. */
  ghost function Updating(g: Graph, c: Client, world: WorldView): set<u32> {
    set id | id in Relevant(g, c.view) && UpdateOf(g, world, id, c.known) != []
  }

  /** An entity whose destruction and whose update are both within the budget. */
  ghost predicate ClashSent(g: Graph, c: Client, world: WorldView, id: u32) {
    && Clashing(g, c, world, id)
    && Rank(Leaving(g, c), id) < c.view.budget.maxDestroys
    && Rank(Updating(g, c, world), id) < c.view.budget.maxUpdates
  }

  lemma UpdateSent(g: Graph, c: Client, world: WorldView, id: u32)
    requires RightIds(world)
    ensures HasUpdate(DeltaFor(g, c, world).updates, id)
       <==> id in Updating(g, c, world) && Rank(Updating(g, c, world), id) < c.view.budget.maxUpdates
  {
    var ids := InViewIds(g, c.view);
    var us := UpdatesOf(g, world, ids, c.known);
    UpdatesProperties(g, world, ids, c.known);
    forall x
      ensures x in Updating(g, c, world) <==> HasUpdate(us, x)
    {
      UpdateListed(g, world, ids, c.known, x);
    }
    TruncatedUpdates(us, c.view.budget.maxUpdates, Updating(g, c, world), id);
  }

  lemma DestroySent(g: Graph, c: Client, world: WorldView, id: u32)
    ensures id in IdSet(DeltaFor(g, c, world).destroys)
       <==> id in Leaving(g, c) && Rank(Leaving(g, c), id) < c.view.budget.maxDestroys
  {
    OrderedIdsProperties(Leaving(g, c));
    TruncatedIds(OrderedIds(Leaving(g, c)), c.view.budget.maxDestroys, id);
  }

  /**
   Exactly when the mirror breaks, whatever the budget. A delta cannot be applied if and only if
   some removed entity has been tracked again and marked dirty before the removals were cleared,
   and both its destruction and its update come early enough in their lists to be sent.
   */
  lemma ReAddedIff(g: Graph, c: Client, world: WorldView)
    requires RightIds(world)
    ensures ApplyIds(c.known, DeltaFor(g, c, world)).None? <==> exists id :: ClashSent(g, c, world, id)
  {
    var d := DeltaFor(g, c, world);
    AppliesIff(g, c, world);
    if !NoneDestroyed(d) {
      var u :| u in d.updates && u.id in IdSet(d.destroys);
      UpdateSent(g, c, world, u.id);
      DestroySent(g, c, world, u.id);
      UpdateKnown(g, c, world, u.id);
      assert ClashSent(g, c, world, u.id);
    }
    if id :| ClashSent(g, c, world, id) {
      UpdateSent(g, c, world, id);
      DestroySent(g, c, world, id);
      var u :| u in d.updates && u.id == id;
      assert u.id in IdSet(d.destroys);
    }
  }

  lemma UpdateKnown(g: Graph, c: Client, world: WorldView, id: u32)
    requires id in Updating(g, c, world)
    ensures id in c.known
  {
  }

  const ORIGIN := Vec3(0.0, 0.0, 0.0)

  /** One entity, removed and tracked again in the same tick, and a client that knows it. */
  lemma ReAddedExample()
    ensures var g := Graph(10, map[1 := Tracked(ORIGIN, 0, [5])], {1}, map[]);
            var c := Client(View(ORIGIN, 1.0, Budget(1, 1, 1)), {1});
            var world := WorldView((id: u32) => EntitySnapshot(id, []),
                                   (id: u32, dirty: seq<u16>) => Some(UpdateEntity(id, [])));
            ApplyIds(c.known, DeltaFor(g, c, world)).None?
  {
    hide DeltaFor, ApplyIds;
    var g := Graph(10, map[1 := Tracked(ORIGIN, 0, [5])], {1}, map[]);
    var c := Client(View(ORIGIN, 1.0, Budget(1, 1, 1)), {1});
    var world := WorldView((id: u32) => EntitySnapshot(id, []),
                           (id: u32, dirty: seq<u16>) => Some(UpdateEntity(id, [])));
    ReAddedIff(g, c, world);
    assert Clashing(g, c, world, 1);
    RankIs({1}, 1, {});
    RankIs(Updating(g, c, world), 1, {});
    assert Leaving(g, c) == {1};
    assert ClashSent(g, c, world, 1);
  }
}
