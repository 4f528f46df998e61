/** What a client's budget does to it: when it cuts nothing off, what a cut loses, and what later builds make good. */
module Budgets {
  import opened Core
  import opened Schemas
  import opened Diffs
  import opened Apply
  import opened ApplyAlgebra
  import opened Graphs
  import opened Mirroring
  import opened Convergence

  // ---- Budgets that cut nothing off ----

  lemma FewIds(ids: set<u32>)
    ensures |ids| <= 0x1_0000_0000
  {
    OrderedIdsProperties(ids);
    SortedSize(OrderedIds(ids));
    SortedCount(OrderedIds(ids));
  }

  lemma {:induction false} SubsetSize(a: set<u32>, b: set<u32>)
    requires a <= b
    ensures |a| <= |b|
  {
    assert b == a + (b - a);
  }

  lemma RankBelowSize(ids: set<u32>, id: u32)
    requires id in ids
    ensures Rank(ids, id) < |ids|
  {
    var below := set x | x in ids && x < id;
    RankIs(ids, id, below);
    SubsetSize(below, ids - {id});
  }

  /** No update is cut off. */
  ghost predicate UpdatesAllSent(g: Graph, c: Client, world: WorldView) {
    |Updating(g, c, world)| <= c.view.budget.maxUpdates
  }

  /**
   With a budget that cuts nothing off, a build converges if and only if the world serves every
   copy still in view.
   */
  lemma UncutConverges(g: Graph, c: Client, world: WorldView, mirror: map<u32, EntitySnapshot>, limits: CodecLimits)
    requires RightIds(world) && Separate(g) && mirror.Keys == c.known
    requires ListsFit(g, c) && UpdatesAllSent(g, c, world) && |Relevant(g, c.view)| <= limits.maxTotalEntitiesAfterApply
    ensures ApplyDelta(mirror, DeltaFor(g, c, world), limits) == Some(Visible(g, c.view, world))
       <==> forall id :: id in c.known && id in Relevant(g, c.view) ==> Served(g, world, id, mirror[id])
  {
    BuildConverges(g, c, world, mirror, limits);
    forall id | id in c.known && id in Relevant(g, c.view)
      ensures Refreshed(g, c, world, id, mirror[id]) <==> Served(g, world, id, mirror[id])
    {
      if id in Updating(g, c, world) {
        RankBelowSize(Updating(g, c, world), id);
      } else {
        QuietServed(g, c, world, id, mirror[id]);
      }
    }
  }

  lemma QuietServed(g: Graph, c: Client, world: WorldView, id: u32, e: EntitySnapshot)
    requires id in c.known && id in Relevant(g, c.view) && id !in Updating(g, c, world)
    ensures Served(g, world, id, e) <==> e == world.snapshot(id)
  {
    hide SetComponents;
  }

  /** A budget with room for every id cuts nothing off. */
  lemma RoomyUncut(g: Graph, c: Client, world: WorldView)
    requires Roomy(c.view.budget)
    ensures ListsFit(g, c) && UpdatesAllSent(g, c, world)
  {
    hide Relevant, Updating;
    FewIds(c.known - Relevant(g, c.view));
    FewIds(Relevant(g, c.view) - c.known);
    FewIds(Updating(g, c, world));
  }

  // ---- What a cut loses ----

  /** Once the marks are cleared there is nothing to update. */
  lemma NothingMarked(g: Graph, c: Client, world: WorldView)
    ensures Updating(DirtyCleared(g), c, world) == {}
    ensures DeltaFor(DirtyCleared(g), c, world).updates == []
  {
    hide OrderedIds, Relevant, CreatesOf;
    var h := DirtyCleared(g);
    forall id
      ensures UpdateOf(h, world, id, c.known) == []
    {
    }
    NoUpdates(h, world, FilterIds(OrderedIds(h.entities.Keys), Relevant(h, c.view)), c.known);
  }

  lemma {:induction false} NoUpdates(g: Graph, world: WorldView, ids: seq<u32>, known: set<u32>)
    requires forall id :: UpdateOf(g, world, id, known) == []
    ensures UpdatesOf(g, world, ids, known) == []
  {
    hide UpdateOf;
    if ids != [] {
      NoUpdates(g, world, ids[1..], known);
    }
  }

  /**
   An update that is cut off is lost. The build leaves the copy as it was; once the marks are
   cleared, no build has an update for it, whatever the world has come to by then, and the copy
   stays as it was.
   */
  lemma CutUpdateLost(g: Graph, c: Client, world: WorldView, later: WorldView, mirror: map<u32, EntitySnapshot>,
                      limits: CodecLimits, id: u32)
    requires RightIds(world) && RightIds(later) && Separate(g) && mirror.Keys == c.known
    requires id in c.known && id in Relevant(g, c.view) && !UpdateReaches(g, c, world, id)
    requires ApplyDelta(mirror, DeltaFor(g, c, world), limits).Some?
    ensures var first := ApplyDelta(mirror, DeltaFor(g, c, world), limits).value;
            var h, next := DirtyCleared(g), Client(c.view, first.Keys);
            var second := ApplyDelta(first, DeltaFor(h, next, later), limits);
            && first.Keys == KnownAfter(c.known, DeltaFor(g, c, world))
            && id in first && first[id] == mirror[id]
            && DeltaFor(h, next, later).updates == []
            && (second.Some? ==> id in second.value && second.value[id] == mirror[id])
  {
    var first := ApplyDelta(mirror, DeltaFor(g, c, world), limits).value;
    var h, next := DirtyCleared(g), Client(c.view, first.Keys);
    BuiltIds(g, c, world);
    Untouched(g, c, world, mirror, limits, id);
    NothingMarked(g, next, later);
    NotReached(h, next, later, id);
    SameRelevant(g, h, c.view);
    if ApplyDelta(first, DeltaFor(h, next, later), limits).Some? {
      BuiltIds(h, next, later);
      Untouched(h, next, later, first, limits, id);
    }
  }

  lemma NotReached(g: Graph, c: Client, world: WorldView, id: u32)
    requires Updating(g, c, world) == {}
    ensures !UpdateReaches(g, c, world, id)
  {
    hide Updating, Rank;
  }

  lemma SameRelevant(g: Graph, h: Graph, v: View)
    requires h == DirtyCleared(g)
    ensures Relevant(h, v) == Relevant(g, v) && (Separate(h) <==> Separate(g))
  {
  }

  /** A copy in view that no update reaches stays as it is. */
  lemma Untouched(g: Graph, c: Client, world: WorldView, mirror: map<u32, EntitySnapshot>, limits: CodecLimits, id: u32)
    requires RightIds(world) && Separate(g) && mirror.Keys == c.known
    requires id in c.known && id in Relevant(g, c.view) && !UpdateReaches(g, c, world, id)
    requires ApplyDelta(mirror, DeltaFor(g, c, world), limits).Some?
    ensures var r := ApplyDelta(mirror, DeltaFor(g, c, world), limits).value;
            r.Keys == KnownAfter(c.known, DeltaFor(g, c, world)) && id in r && r[id] == mirror[id]
  {
    var d := DeltaFor(g, c, world);
    BuiltIds(g, c, world);
    assert d.(creates := d.creates) == d;
    BuildResult(g, c, world, mirror, limits, d.creates);
  }

  const CHANGED := WorldView((id: u32) => EntitySnapshot(id, [ComponentSnapshot(5, [VBool(true)])]),
                             (id: u32, dirty: seq<u16>) =>
                               Some(UpdateEntity(id, [UpdateComponent(5, [(0, VBool(true))])])))

  function Old(id: u32): EntitySnapshot {
    EntitySnapshot(id, [ComponentSnapshot(5, [VBool(false)])])
  }

  /** Two changed entities, and a client with room for one update. */
  const TWO_CHANGED := Graph(10, map[1 := Tracked(ORIGIN, 0, [5]), 2 := Tracked(ORIGIN, 0, [5])], {}, map[])
  const ONE_UPDATE := Client(View(ORIGIN, 1.0, Budget(9, 1, 9)), {1, 2})
  const OLD_COPIES := map[1 := Old(1), 2 := Old(2)]

  lemma CutFacts()
    ensures RightIds(CHANGED) && Separate(TWO_CHANGED) && Relevant(TWO_CHANGED, ONE_UPDATE.view) == {1, 2}
    ensures !UpdateReaches(TWO_CHANGED, ONE_UPDATE, CHANGED, 2)
    ensures UpdatesFit(TWO_CHANGED, ONE_UPDATE, CHANGED, OLD_COPIES)
  {
    hide Rank, SetComponents;
    assert Relevant(TWO_CHANGED, ONE_UPDATE.view) == {1, 2};
    assert Updating(TWO_CHANGED, ONE_UPDATE, CHANGED) == {1, 2};
    RankIs({1, 2}, 2, {1});
    OldFits();
  }

  /** Its copy of the second entity stays as it was, and once the marks are cleared nothing is sent for it. */
  lemma CutExample(limits: CodecLimits)
    requires limits.maxTotalEntitiesAfterApply >= 2
    ensures var r := ApplyDelta(OLD_COPIES, DeltaFor(TWO_CHANGED, ONE_UPDATE, CHANGED), limits);
            && r.Some? && r.value.Keys == {1, 2}
            && r.value[2] == Old(2) != CHANGED.snapshot(2)
            && DeltaFor(DirtyCleared(TWO_CHANGED), ONE_UPDATE, CHANGED).updates == []
  {
    hide DeltaFor, ApplyDelta, UpdatesFit, EntityMap, DirtyCleared, Sorted, SortedUpdates, CopyAfter, ListsFit;
    var d := DeltaFor(TWO_CHANGED, ONE_UPDATE, CHANGED);
    CutFacts();
    BuiltIds(TWO_CHANGED, ONE_UPDATE, CHANGED);
    assert KnownAfter({1, 2}, d) == {1, 2};
    assert d.(creates := d.creates) == d;
    BuildResult(TWO_CHANGED, ONE_UPDATE, CHANGED, OLD_COPIES, limits, d.creates);
    Untouched(TWO_CHANGED, ONE_UPDATE, CHANGED, OLD_COPIES, limits, 2);
    NothingMarked(TWO_CHANGED, ONE_UPDATE, CHANGED);
  }

  lemma OldFits()
    ensures SetComponents([ComponentSnapshot(5, [VBool(false)])], [UpdateComponent(5, [(0, VBool(true))])]).Some?
  {
    var us := [UpdateComponent(5, [(0, VBool(true))])];
    var fs := us[0].fields;
    assert us[1..] == [] && fs[1..] == [];
  }

  // ---- What later builds make good ----

  function Less(a: nat, b: nat): nat {
    if a <= b then 0 else a - b
  }

  function Least(a: nat, b: nat): nat {
    if a <= b then a else b
  }

  /** How many entities one build creates and destroys. */
  lemma BuiltCounts(g: Graph, c: Client, world: WorldView)
    requires RightIds(world) && Separate(g)
    ensures var d := DeltaFor(g, c, world);
            && |EntityMap(d.creates).Keys| == Least(|Relevant(g, c.view) - c.known|, c.view.budget.maxCreates)
            && |IdSet(d.destroys)| == Least(|c.known - Relevant(g, c.view)|, c.view.budget.maxDestroys)
  {
    var ids := InViewIds(g, c.view);
    NoneLeavesInView(g, c);
    OrderedIdsProperties(Leaving(g, c));
    CutIdsSize(OrderedIds(Leaving(g, c)), c.view.budget.maxDestroys);
    CreatesProperties(world, ids, c.known);
    CutEntitiesSize(CreatesOf(world, ids, c.known), c.view.budget.maxCreates);
  }

  lemma Nearer(known: set<u32>, rel: set<u32>, destroyed: set<u32>, created: set<u32>)
    requires destroyed <= known - rel && created <= rel - known
    ensures var after := known - destroyed + created;
            |rel - after| == |rel - known| - |created| && |after - rel| == |known - rel| - |destroyed|
  {
    var after := known - destroyed + created;
    assert rel - known == (rel - after) + created;
    assert known - rel == (after - rel) + destroyed;
  }

  /** A build brings the client nearer to the ids in view by as much as its budget allows. */
  lemma BuildDrains(g: Graph, c: Client, world: WorldView)
    requires RightIds(world) && Separate(g)
    ensures var known, rel := KnownAfter(c.known, DeltaFor(g, c, world)), Relevant(g, c.view);
            && |rel - known| == Less(|rel - c.known|, c.view.budget.maxCreates)
            && |known - rel| == Less(|c.known - rel|, c.view.budget.maxDestroys)
  {
    hide RightIds, Relevant, DeltaFor, IdSet, EntityMap, KnownAfter, Sorted, SortedUpdates, ListsFit;
    var d := DeltaFor(g, c, world);
    BuiltIds(g, c, world);
    BuiltCounts(g, c, world);
    Nearer(c.known, Relevant(g, c.view), IdSet(d.destroys), EntityMap(d.creates).Keys);
  }

  /** What a client knows after `n` builds, while nothing moves. */
  ghost function KnownTimes(g: Graph, c: Client, world: WorldView, n: nat): set<u32> {
    if n == 0 then c.known
    else
      var before := c.(known := KnownTimes(g, c, world, n - 1));
      KnownAfter(before.known, DeltaFor(g, before, world))
  }

  function Times(n: nat, b: nat): nat {
    n * b
  }

  lemma LessTwice(x: nat, n: nat, b: nat)
    ensures Less(Less(x, Times(n, b)), b) == Less(x, Times(n + 1, b))
  {
    assert (n + 1) * b == n * b + b;
  }

  lemma SameSets(a: set<u32>, b: set<u32>)
    ensures a == b <==> |a - b| == 0 && |b - a| == 0
  {
    if a - b == {} && b - a == {} {
      assert a == b;
    }
  }

  /** Creates and destroys that are cut off are not lost: `n` builds are enough exactly when `n` budgets are. */
  lemma {:induction false} BuildsDrain(g: Graph, c: Client, world: WorldView, n: nat)
    requires RightIds(world) && Separate(g)
    ensures var known, rel := KnownTimes(g, c, world, n), Relevant(g, c.view);
            && |rel - known| == Less(|rel - c.known|, Times(n, c.view.budget.maxCreates))
            && |known - rel| == Less(|c.known - rel|, Times(n, c.view.budget.maxDestroys))
            && (known == rel <==> && |rel - c.known| <= Times(n, c.view.budget.maxCreates)
                                  && |c.known - rel| <= Times(n, c.view.budget.maxDestroys))
  {
    hide RightIds, DeltaFor, Relevant, KnownAfter, Separate;
    var known, rel := KnownTimes(g, c, world, n), Relevant(g, c.view);
    SameSets(known, rel);
    if n > 0 {
      hide Times;
      BuildsDrain(g, c, world, n - 1);
      BuildDrains(g, c.(known := KnownTimes(g, c, world, n - 1)), world);
      LessTwice(|rel - c.known|, n - 1, c.view.budget.maxCreates);
      LessTwice(|c.known - rel|, n - 1, c.view.budget.maxDestroys);
    }
  }
}
