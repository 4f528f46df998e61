/** Concrete graphs on which a plausible guarantee about clients fails. */
module GraphWitnesses {
  import opened Core
  import opened Schemas
  import opened Diffs
  import opened Layouts
  import opened UpdateLayouts
  import opened Encodings
  import opened Sections
  import opened Payloads
  import opened ChangeLists
  import opened Apply
  import opened ApplyAlgebra
  import opened ListRoundTrip
  import opened Wire
  import opened Rebuilding
  import opened Exactness
  import opened Graphs
  import opened Mirroring
  import opened Convergence
  import opened Budgets
  import opened Delivery
  import opened Adapters
  import opened Witnesses

  // ---- One entity and one client that knows it ----

  /** Entity 7 at the origin, with these marks. */
  function Marking(dirty: seq<u16>): Graph {
    Graph(10, map[7 := Tracked(ORIGIN, 0, dirty)], {}, map[])
  }

  const KNOWING := Client(View(ORIGIN, 1.0, Budget(9, 9, 9)), {7})

  lemma MarkingView(dirty: seq<u16>)
    ensures Separate(Marking(dirty)) && Relevant(Marking(dirty), KNOWING.view) == {7}
  {
  }

  lemma EmptyLists(ids: seq<u32>, es: seq<EntitySnapshot>)
    ensures IdSet(ids) == {} <==> ids == []
    ensures EntityMap(es).Keys == {} <==> es == []
  {
    if ids != [] {
      assert ids[0] in IdSet(ids);
    }
    if es != [] {
      assert es[0].id in EntityMap(es);
    }
  }

  /** The client is told the update for that entity and nothing else. */
  lemma OneEntityDelta(dirty: seq<u16>, world: WorldView)
    requires RightIds(world)
    ensures DeltaFor(Marking(dirty), KNOWING, world) == Delta([], [], UpdateOf(Marking(dirty), world, 7, {7}))
    ensures ListsFit(Marking(dirty), KNOWING) && UpdatesAllSent(Marking(dirty), KNOWING, world)
  {
    var g, c := Marking(dirty), KNOWING;
    var d := DeltaFor(g, c, world);
    MarkingView(dirty);
    BuiltIds(g, c, world);
    EmptyLists(d.destroys, d.creates);
    OneOrNone(g, world, dirty);
    OneUpdateList(g, c, world, d.updates);
    SubsetSize(Updating(g, c, world), {7});
  }

  lemma OneOrNone(g: Graph, world: WorldView, dirty: seq<u16>)
    requires RightIds(world) && g == Marking(dirty)
    ensures |UpdateOf(g, world, 7, {7})| <= 1
    ensures Updating(g, KNOWING, world) == if UpdateOf(g, world, 7, {7}) == [] then {} else {7}
  {
    hide RightIds;
    MarkingView(dirty);
  }

  lemma TwoIds(us: seq<UpdateEntity>)
    requires SortedUpdates(us) && |us| > 1
    ensures us[0] in us && us[1] in us && us[0].id != us[1].id
  {
  }

  lemma OneUpdateList(g: Graph, c: Client, world: WorldView, us: seq<UpdateEntity>)
    requires RightIds(world) && c == KNOWING && us == DeltaFor(g, c, world).updates && SortedUpdates(us)
    requires |UpdateOf(g, world, 7, {7})| <= 1
    requires Updating(g, c, world) == if UpdateOf(g, world, 7, {7}) == [] then {} else {7}
    ensures us == UpdateOf(g, world, 7, {7})
  {
    hide RightIds, DeltaFor, UpdateOf, Updating, EntityUpdateFor;
    SentEach(g, c, world);
    SentUpdate(g, c, world, 7);
    UpdateFound(us, 7);
    if |us| > 1 {
      TwoIds(us);
    }
    RankIs({7}, 7, {});
  }

  // ---- Marks in descending order ----

  const T := VBool(true)
  const F := VBool(false)

  function Filled(id: u32, v: FieldValue): EntitySnapshot {
    EntitySnapshot(id, [ComponentSnapshot(1, [v, v]), ComponentSnapshot(2, [v])])
  }

  const SHOWN: u32 -> EntitySnapshot := (id: u32) => Filled(id, T)
  const WORLD := AdapterWorld(CompleteAdapter((d: u16) => true), SHOWN)
  const OLD_COPY := map[7 := Filled(7, F)]
  const LINK := Link(ASCENDING, 0, AMPLE, WireLimits(1000, 10, 1000), HEADER_SIZE + 100, 1)
  const BACKWARDS := UpdateEntity(7, [FlagUpdate(2), UpdateComponent(1, [(0, T), (1, T)])])

  lemma ShownProper()
    ensures ProperSnapshots(SHOWN) && RightIds(WORLD)
  {
    AdapterRightIds(CompleteAdapter((d: u16) => true), SHOWN);
  }

  /** The adapter sends the components in the order in which they were marked. */
  lemma BackwardsUpdate()
    ensures UpdateOf(Marking([2, 1]), WORLD, 7, {7}) == [BACKWARDS]
    ensures Served(Marking([2, 1]), WORLD, 7, Filled(7, F))
  {
    hide Serves, ChangedFields;
    ShownProper();
    var describe := CompleteAdapter((d: u16) => true).describe(7);
    var cs := SHOWN(7).components;
    assert ChangedFields([], [T], 0) == [(0, T)] && ChangedFields([], [T, T], 0) == [(0, T), (1, T)] by { AllOf(T); }
    assert FindComponent(cs, 1) == Some(cs[0]) && FindComponent(cs[1..], 2) == Some(cs[1]);
    var dirty: seq<u16> := [2, 1];
    assert Outgoing(describe, cs, dirty[1..][1..]) == [];
    assert Outgoing(describe, cs, dirty[1..]) == [BACKWARDS.components[1]];
    assert Outgoing(describe, cs, dirty) == BACKWARDS.components;
    CompleteServes((d: u16) => true, SHOWN, 7, dirty, Filled(7, F));
  }

  lemma AllOf(v: FieldValue)
    ensures ChangedFields([], [v], 0) == [(0, v)] && ChangedFields([], [v, v], 0) == [(0, v), (1, v)]
  {
    assert ChangedFields([], [v], 1) == [];
    assert ChangedFields([], [v, v], 2) == [] && ChangedFields([], [v, v], 1) == [(1, v)];
  }

  const TWO_FLAGS: seq<(nat, FieldValue)> := [(0, T), (1, T)]

  lemma TwoFlagsOk()
    ensures IndicesIn(2, TWO_FLAGS) && SelectedOk(ASCENDING.components[0].fields, TWO_FLAGS)
  {
    var rest := TWO_FLAGS[1..];
    assert rest[0] == (1, T) && rest[1..] == [];
    assert IndicesIn(2, rest) && SelectedOk(ASCENDING.components[0].fields, rest);
  }

  lemma BackwardsAccepted()
    ensures forall c :: c in BACKWARDS.components ==> Accepted(c)
    ensures !ListsAscend([BACKWARDS])
  {
    hide FindDef, IndicesIn, SelectedOk;
    AscendingDefs();
    TwoFlagsOk();
    FlagOk();
    var us := BACKWARDS.components;
    assert us == [FlagUpdate(2), UpdateComponent(1, TWO_FLAGS)];
    assert Accepted(us[0]) && Accepted(us[1]);
    assert us[1..][0].id < us[0].id;
    OneUpdate(7, us);
  }

  lemma FlagOk()
    ensures IndicesIn(1, FlagUpdate(2).fields) && SelectedOk([FLAG], FlagUpdate(2).fields)
  {
    var fs := FlagUpdate(2).fields;
    assert fs[1..] == [];
  }

  lemma BackwardsSent()
    ensures DeltaFor(Marking([2, 1]), KNOWING, WORLD) == Delta([], [], [BACKWARDS])
    ensures Encodable(LINK, Delta([], [], [BACKWARDS]))
  {
    hide RightIds, DeltaFor, ListsOk, SectionFits, UpdateSection, Relevant, Accepted, UpdateOf, Served;
    assert LINK.schema == ASCENDING && LINK.limits == AMPLE && LINK.buffer - HEADER_SIZE == 100;
    ShownProper();
    OneEntityDelta([2, 1], WORLD);
    BackwardsUpdate();
    BackwardsAccepted();
    OneListed(BACKWARDS);
    var ss := DeltaSections(ASCENDING, Delta([], [], [BACKWARDS]), Sparse);
    assert ss == [UpdateSection(Sparse, ASCENDING, [BACKWARDS])] && ss[1..] == [];
    assert PayloadFits(ss, 100, AMPLE);
  }

  lemma BackwardsApplies()
    ensures var g := Marking([2, 1]);
            ApplyDelta(OLD_COPY, DeltaFor(g, KNOWING, WORLD), AMPLE) == Some(Visible(g, KNOWING.view, WORLD))
  {
    hide ApplyDelta, Relevant, UpdateOf, Served, ListsFit, UpdatesAllSent, Separate, Visible;
    ShownProper();
    MarkingView([2, 1]);
    OneEntityDelta([2, 1], WORLD);
    BackwardsUpdate();
    UncutConverges(Marking([2, 1]), KNOWING, WORLD, OLD_COPY, AMPLE);
  }

  /**
   An entity whose components were marked in descending order. As lists, its update brings the client
   up to date; the encoder writes the lists; and the client cannot decode the packet.
   */
  lemma MarkedBackwards()
    ensures var d := DeltaFor(Marking([2, 1]), KNOWING, WORLD);
            && ApplyDelta(OLD_COPY, d, AMPLE) == Some(Visible(Marking([2, 1]), KNOWING.view, WORLD))
            && Encodable(LINK, d)
            && Carry(LINK, 2, Copy(1, OLD_COPY), d) == None
  {
    hide RightIds, DeltaFor, ApplyDelta, Carry, Encodable, ListsAscend, ValidComponents, UniqueIds, Accepted,
      IdsApply, Visible, AllCountsFit;
    var d := DeltaFor(Marking([2, 1]), KNOWING, WORLD);
    ShownProper();
    MarkingView([2, 1]);
    BackwardsSent();
    BackwardsApplies();
    BackwardsAccepted();
    BackwardsCounts();
    BuildIdsApply(Marking([2, 1]), KNOWING, WORLD);
    assert LINK.schema == ASCENDING && ValidSchema(LINK.schema);
    assert OLD_COPY.Keys == {7} && OwnIds(OLD_COPY);
    CarryIff(LINK, 2, Copy(1, OLD_COPY), d);
  }

  lemma BackwardsCounts()
    ensures AllCountsFit([BACKWARDS]) && ValidSchema(ASCENDING)
  {
    hide Accepted, FindDef;
    BackwardsAccepted();
    AllAccepted(BACKWARDS.components);
    var us: seq<UpdateEntity> := [BACKWARDS];
    assert us[1..] == [];
    assert ValidComponent(ASCENDING.components[0]) && ValidComponent(ASCENDING.components[1]);
  }

  // ---- A component added ----

  const LACKING := map[7 := EntitySnapshot(7, [ComponentSnapshot(1, [T, T])])]

  lemma AddedUpdate()
    ensures UpdateOf(Marking([2]), WORLD, 7, {7}) == [UpdateEntity(7, [FlagUpdate(2)])]
  {
    hide ChangedFields;
    var describe := CompleteAdapter((d: u16) => true).describe(7);
    var cs := SHOWN(7).components;
    var dirty: seq<u16> := [2];
    AllOf(T);
    assert FindComponent(cs[1..], 2) == Some(cs[1]);
    assert Outgoing(describe, cs, dirty[1..]) == [];
    assert Outgoing(describe, cs, dirty) == [FlagUpdate(2)];
  }

  lemma LackingMisfit()
    ensures !UpdatesFit(Marking([2]), KNOWING, WORLD, LACKING)
  {
    hide DeltaFor, UpdateOf, Rank;
    var us := [FlagUpdate(2)];
    var cs := LACKING[7].components;
    ShownProper();
    MarkingView([2]);
    AddedUpdate();
    OneOrNone(Marking([2]), WORLD, [2]);
    RankIs({7}, 7, {});
    assert cs[1..] == [];
    assert SetComponent(cs[1..], us[0]) == None;
  }

  /** A component is added to an entity that a client knows, and marked: the client cannot apply its delta at all. */
  lemma AddedComponentRefused(limits: CodecLimits)
    ensures ApplyDelta(LACKING, DeltaFor(Marking([2]), KNOWING, WORLD), limits) == None
  {
    hide DeltaFor, UpdatesFit, RightIds, ApplyDelta, Separate, CopyAfter, KnownAfter;
    var d := DeltaFor(Marking([2]), KNOWING, WORLD);
    ShownProper();
    MarkingView([2]);
    LackingMisfit();
    assert LACKING.Keys == {7} && d.(creates := d.creates) == d;
    BuildResult(Marking([2]), KNOWING, WORLD, LACKING, limits, d.creates);
  }

  // ---- A component without an adapter ----

  const ONE_ADAPTER := AdapterWorld(CompleteAdapter((d: u16) => d == 1),
                                    (id: u32) => EntitySnapshot(id, [ComponentSnapshot(1, [T, T])]))
  const BEFORE := map[7 := EntitySnapshot(7, [ComponentSnapshot(1, [F, F])])]

  /** One dirty component has no adapter: the update for the other is dropped with it, and the copy stays as it was. */
  lemma UnregisteredDropsUpdate(limits: CodecLimits)
    requires limits.maxTotalEntitiesAfterApply >= 1
    ensures ONE_ADAPTER.update(7, [1, 2]) == None && ONE_ADAPTER.update(7, [1]).Some?
    ensures var g := Marking([1, 2]);
            && ApplyDelta(BEFORE, DeltaFor(g, KNOWING, ONE_ADAPTER), limits) == Some(BEFORE)
            && BEFORE[7] != ONE_ADAPTER.snapshot(7)
  {
    hide DeltaFor, Relevant, ListsFit, UpdatesAllSent, ApplyDelta, RightIds, Outgoing;
    var both: seq<u16> := [1, 2];
    var one: seq<u16> := [1];
    assert both[1] == 2 && 2 in both;
    assert !Registered(CompleteAdapter((d: u16) => d == 1), both);
    assert ONE_ADAPTER.update(7, both) == None;
    OneRegistered(one);
    assert UpdateOf(Marking(both), ONE_ADAPTER, 7, {7}) == [];
    OneEntityDelta(both, ONE_ADAPTER);
    assert |BEFORE| == 1;
    Nothing(BEFORE, limits);
  }

  lemma OneRegistered(one: seq<u16>)
    requires one == [1]
    ensures RightIds(ONE_ADAPTER) && ONE_ADAPTER.update(7, one).Some?
  {
    var cs := ONE_ADAPTER.snapshot(7).components;
    assert FindComponent(cs, 1) == Some(cs[0]);
    assert Outgoing(CompleteAdapter((d: u16) => d == 1).describe(7), cs, one) != [];
  }

  lemma Nothing(m: map<u32, EntitySnapshot>, limits: CodecLimits)
    requires |m| <= limits.maxTotalEntitiesAfterApply
    ensures ApplyDelta(m, Delta([], [], []), limits) == Some(m)
  {
    EmptyLists([], []);
    ApplyParts(m, Delta([], [], []), limits);
    hide IdSet, EntityMap, ApplyDelta;
    assert m - IdSet([]) + EntityMap([]) == m;
  }
}
