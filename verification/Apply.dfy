/** Applying a delta: walks and in-place updates on sorted vectors, as algebra on maps by entity id. */
module Apply {
  import opened Core
  import opened Schemas
  import opened Diffs
  import opened Walks

  // ---- Destroys: key removal ----

  /** A list of ids as a list of entities without components, so that the walk lemmas apply to it. */
  function Stubs(ids: seq<u32>): (es: seq<EntitySnapshot>)
    ensures |es| == |ids| && forall i :: 0 <= i < |ids| ==> es[i].id == ids[i]
  {
    seq(|ids|, i requires 0 <= i < |ids| => EntitySnapshot(ids[i], []))
  }

  function IdSet(ids: seq<u32>): set<u32> {
    set i | 0 <= i < |ids| :: ids[i]
  }

  lemma {:induction false} StubKeys(ids: seq<u32>)
    ensures EntityMap(Stubs(ids)).Keys == IdSet(ids)
  {
    if ids != [] {
      StubKeys(ids[1..]);
      assert Stubs(ids)[1..] == Stubs(ids[1..]);
      IdSetStep(ids);
    }
  }

  lemma IdSetStep(ids: seq<u32>)
    requires ids != []
    ensures IdSet(ids) == {ids[0]} + IdSet(ids[1..])
  {
    forall id | id in IdSet(ids)
      ensures id in {ids[0]} + IdSet(ids[1..])
    {
      var i :| 0 <= i < |ids| && ids[i] == id;
      if i > 0 {
        assert ids[1..][i - 1] == id;
      }
    }
  }

  /** The difference of two sorted lists is the map without the other's keys. */
  lemma {:induction false} MissingMap(xs: seq<EntitySnapshot>, ys: seq<EntitySnapshot>)
    ensures EntityMap(Missing(xs, ys)) == EntityMap(xs) - EntityMap(ys).Keys
  {
    if xs != [] {
      MissingMap(xs[1..], ys);
      var rest := Missing(xs[1..], ys);
      if xs[0].id in EntityMap(ys) {
        assert [] + rest == rest;
      } else {
        assert ([xs[0]] + rest)[1..] == rest;
      }
    }
  }

  lemma {:induction false} MissingNone(xs: seq<EntitySnapshot>, ys: seq<EntitySnapshot>)
    ensures Missing(xs, ys) == [] <==> EntityMap(xs).Keys <= EntityMap(ys).Keys
  {
    MissingMap(xs, ys);
    if EntityMap(xs).Keys <= EntityMap(ys).Keys {
      assert EntityMap(Missing(xs, ys)) == map[];
    } else {
      var id :| id in EntityMap(xs) && id !in EntityMap(ys);
      assert id in EntityMap(Missing(xs, ys));
    }
  }

  /** Destroying ids is the difference with their stubs. */
  lemma DestroyedMap(baseline: seq<EntitySnapshot>, destroys: seq<u32>)
    requires Sorted(baseline) && SortedIds(destroys)
    ensures Sorted(Stubs(destroys))
    ensures Missing(Stubs(destroys), baseline) == [] <==> IdSet(destroys) <= EntityMap(baseline).Keys
    ensures EntityMap(Missing(baseline, Stubs(destroys))) == EntityMap(baseline) - IdSet(destroys)
    ensures Sorted(Missing(baseline, Stubs(destroys)))
  {
    hide EntityMap, IdSet, Missing;
    var stubs := Stubs(destroys);
    StubKeys(destroys);
    MissingNone(stubs, baseline);
    MissingMap(baseline, stubs);
    MissingSorted(baseline, stubs);
  }

  lemma NoneMissing(xs: seq<EntitySnapshot>, ys: seq<EntitySnapshot>)
    ensures xs[0..] == xs && Missing(xs[|xs|..], ys) == []
  {
  }

  method ApplyDestroys(baseline: seq<EntitySnapshot>, destroys: seq<u32>) returns (r: Option<seq<EntitySnapshot>>)
    requires Sorted(baseline) && SortedIds(destroys)
    ensures r.Some? <==> IdSet(destroys) <= EntityMap(baseline).Keys
    ensures r.Some? ==> Sorted(r.value) && EntityMap(r.value) == EntityMap(baseline) - IdSet(destroys)
  {
    hide *;
    ghost var stubs := Stubs(destroys);
    DestroyedMap(baseline, destroys);
    NoneMissing(stubs, baseline);
    var result: seq<EntitySnapshot> := [];
    var i, j := 0, 0;
    NoneMissing(baseline, stubs);
    assert [] + Missing(baseline, stubs) == Missing(baseline, stubs);
    WalkStart(baseline, stubs);
    while i < |baseline| || j < |destroys|
      invariant i <= |baseline| && j <= |destroys| && WalkAt(baseline, stubs, i, j)
      invariant result + Missing(baseline[i..], stubs) == Missing(baseline, stubs)
      invariant Missing(stubs[j..], baseline) == Missing(stubs, baseline)
      decreases |baseline| - i + |destroys| - j
    {
      if i < |baseline| && (j < |destroys| ==> baseline[i].id < destroys[j]) {
        WalkLess(baseline, stubs, i, j);
        assert result + ([baseline[i]] + Missing(baseline[i + 1..], stubs))
          == result + [baseline[i]] + Missing(baseline[i + 1..], stubs);
        result := result + [baseline[i]];
        i := i + 1;
      } else if j < |destroys| && (i < |baseline| ==> destroys[j] < baseline[i].id) {
        WalkGreater(baseline, stubs, i, j);
        return None;
      } else {
        WalkEqual(baseline, stubs, i, j);
        i, j := i + 1, j + 1;
      }
    }
    assert result + [] == result;
    return Some(result);
  }

  // ---- Creates: disjoint union ----

  function Merge(b: seq<EntitySnapshot>, c: seq<EntitySnapshot>): seq<EntitySnapshot>
    decreases |b| + |c|
  {
    if b == [] then c
    else if c == [] then b
    else if b[0].id < c[0].id then [b[0]] + Merge(b[1..], c)
    else [c[0]] + Merge(b, c[1..])
  }

  lemma {:induction false} CommonNone(xs: seq<EntitySnapshot>, ys: seq<EntitySnapshot>)
    ensures Common(xs, ys) == [] <==> EntityMap(xs).Keys !! EntityMap(ys).Keys
  {
    if xs != [] {
      CommonNone(xs[1..], ys);
    }
  }

  /** Merging sorted lists without a common id is the union of their maps, in order. */
  lemma {:induction false} MergeUnion(b: seq<EntitySnapshot>, c: seq<EntitySnapshot>)
    requires Sorted(b) && Sorted(c) && EntityMap(b).Keys !! EntityMap(c).Keys
    ensures EntityMap(Merge(b, c)) == EntityMap(b) + EntityMap(c)
    ensures Sorted(Merge(b, c))
    ensures Merge(b, c) != [] ==> (b != [] && Merge(b, c)[0] == b[0]) || (c != [] && Merge(b, c)[0] == c[0])
    decreases |b| + |c|
  {
    hide EntityMap;
    NoMap();
    if b != [] && c != [] {
      ConsMap(b);
      ConsMap(c);
      if b[0].id < c[0].id {
        var rest := Merge(b[1..], c);
        MergeUnion(b[1..], c);
        ConsSorted(b[0], rest);
        ConsMap([b[0]] + rest);
        assert ([b[0]] + rest)[1..] == rest;
      } else {
        var rest := Merge(b, c[1..]);
        MergeUnion(b, c[1..]);
        ConsSorted(c[0], rest);
        ConsMap([c[0]] + rest);
        assert ([c[0]] + rest)[1..] == rest;
      }
    }
  }

  lemma NoMap()
    ensures EntityMap([]) == map[]
  {
  }

  lemma ConsMap(es: seq<EntitySnapshot>)
    requires es != []
    ensures EntityMap(es) == EntityMap(es[1..])[es[0].id := es[0]]
  {
  }

  lemma ConsSorted(e: EntitySnapshot, rest: seq<EntitySnapshot>)
    requires Sorted(rest) && (rest != [] ==> e.id < rest[0].id)
    ensures Sorted([e] + rest)
  {
  }

  method ApplyCreates(baseline: seq<EntitySnapshot>,
                      creates: seq<EntitySnapshot>) returns (r: Option<seq<EntitySnapshot>>)
    requires Sorted(baseline) && Sorted(creates)
    ensures r.Some? <==> EntityMap(baseline).Keys !! EntityMap(creates).Keys
    ensures r.Some? ==> Sorted(r.value) && EntityMap(r.value) == EntityMap(baseline) + EntityMap(creates)
  {
    hide EntityMap, Missing;
    CommonNone(baseline, creates);
    var result: seq<EntitySnapshot> := [];
    var i, j := 0, 0;
    assert baseline[0..] == baseline && creates[0..] == creates;
    assert [] + Merge(baseline, creates) == Merge(baseline, creates);
    while i < |baseline| || j < |creates|
      invariant WalkAt(baseline, creates, i, j)
      invariant result + Merge(baseline[i..], creates[j..]) == Merge(baseline, creates)
      invariant Common(baseline[i..], creates) == Common(baseline, creates)
      decreases |baseline| - i + |creates| - j
    {
      if i < |baseline| && (j < |creates| ==> baseline[i].id < creates[j].id) {
        WalkLess(baseline, creates, i, j);
        MergeLeft(result, baseline, creates, i, j);
        result := result + [baseline[i]];
        i := i + 1;
      } else if j < |creates| && (i < |baseline| ==> creates[j].id < baseline[i].id) {
        WalkGreater(baseline, creates, i, j);
        MergeRight(result, baseline, creates, i, j);
        result := result + [creates[j]];
        j := j + 1;
      } else {
        WalkEqual(baseline, creates, i, j);
        return None;
      }
    }
    WalkEnd(baseline, creates, i, j);
    MergeUnion(baseline, creates);
    assert result + [] == result;
    return Some(result);
  }

  lemma MergeLeft(done: seq<EntitySnapshot>, b: seq<EntitySnapshot>, c: seq<EntitySnapshot>, i: nat, j: nat)
    requires i < |b| && j <= |c| && (j < |c| ==> b[i].id < c[j].id)
    ensures done + Merge(b[i..], c[j..]) == done + [b[i]] + Merge(b[i + 1..], c[j..])
  {
    assert b[i..][1..] == b[i + 1..];
    if j == |c| {
      assert b[i..] == [b[i]] + b[i + 1..];
    }
  }

  lemma MergeRight(done: seq<EntitySnapshot>, b: seq<EntitySnapshot>, c: seq<EntitySnapshot>, i: nat, j: nat)
    requires i <= |b| && j < |c| && (i < |b| ==> c[j].id < b[i].id)
    ensures done + Merge(b[i..], c[j..]) == done + [c[j]] + Merge(b[i..], c[j + 1..])
  {
    assert c[j..][1..] == c[j + 1..];
    if i == |b| {
      assert c[j..] == [c[j]] + c[j + 1..];
    } else if j + 1 == |c| {
      assert c[j + 1..] == [];
    }
  }

  // ---- Updates: pointwise override ----

  /** Field updates are written one after the other; the first index out of range fails. */
  function SetFields(values: seq<FieldValue>, fs: seq<(nat, FieldValue)>): (r: Option<seq<FieldValue>>)
    ensures r.Some? ==> |r.value| == |values|
    decreases |fs|
  {
    if fs == [] then Some(values)
    else if fs[0].0 >= |values| then None
    else SetFields(values[fs[0].0 := fs[0].1], fs[1..])
  }

  /** The first component with the id is updated. */
  function SetComponent(cs: seq<ComponentSnapshot>, u: UpdateComponent): (r: Option<seq<ComponentSnapshot>>)
    ensures r.Some? ==> |r.value| == |cs|
  {
    if cs == [] then None
    else if cs[0].id == u.id then
      var values :- SetFields(cs[0].fields, u.fields);
      Some([ComponentSnapshot(u.id, values)] + cs[1..])
    else
      var rest :- SetComponent(cs[1..], u);
      Some([cs[0]] + rest)
  }

  function SetComponents(cs: seq<ComponentSnapshot>, us: seq<UpdateComponent>): Option<seq<ComponentSnapshot>>
    decreases |us|
  {
    if us == [] then Some(cs)
    else
      var cs' :- SetComponent(cs, us[0]);
      SetComponents(cs', us[1..])
  }

  function SetEntity(m: map<u32, EntitySnapshot>, u: UpdateEntity): (r: Option<map<u32, EntitySnapshot>>)
    ensures r.Some? ==> r.value.Keys == m.Keys
  {
    if u.id !in m then None
    else
      var cs :- SetComponents(m[u.id].components, u.components);
      Some(m[u.id := EntitySnapshot(u.id, cs)])
  }

  function SetEntities(m: map<u32, EntitySnapshot>, us: seq<UpdateEntity>): (r: Option<map<u32, EntitySnapshot>>)
    ensures r.Some? ==> r.value.Keys == m.Keys
    decreases |us|
  {
    if us == [] then Some(m)
    else
      var m' :- SetEntity(m, us[0]);
      SetEntities(m', us[1..])
  }

  /** Looks an id up in a sorted array by halving. */
  method BinarySearch(a: array<EntitySnapshot>, id: u32) returns (r: Option<nat>)
    requires Sorted(a[..])
    ensures r.Some? ==> r.value < a.Length && a[r.value].id == id
    ensures r.None? ==> id !in EntityMap(a[..])
  {
    hide EntityMap;
    var lo, hi := 0, a.Length;
    while lo < hi
      invariant 0 <= lo <= hi <= a.Length
      invariant forall k :: 0 <= k < lo ==> a[k].id < id
      invariant forall k :: hi <= k < a.Length ==> id < a[k].id
    {
      var mid := (lo + hi) / 2;
      assert forall k :: 0 <= k < mid ==> a[..][k].id < a[..][mid].id;
      assert forall k :: mid < k < a.Length ==> a[..][mid].id < a[..][k].id;
      if a[mid].id < id {
        lo := mid + 1;
      } else if id < a[mid].id {
        hi := mid;
      } else {
        return Some(mid);
      }
    }
    NotInMap(a[..], id);
    return None;
  }

  /** Position of the first component with the id. */
  method FindComponentIndex(cs: seq<ComponentSnapshot>, id: u16) returns (r: Option<nat>)
    ensures r.Some? ==> r.value < |cs| && cs[r.value].id == id && forall k :: 0 <= k < r.value ==> cs[k].id != id
    ensures r.None? ==> forall k :: 0 <= k < |cs| ==> cs[k].id != id
  {
    for k := 0 to |cs|
      invariant forall i :: 0 <= i < k ==> cs[i].id != id
    {
      if cs[k].id == id {
        return Some(k);
      }
    }
    return None;
  }

  lemma {:induction false} SetComponentAt(cs: seq<ComponentSnapshot>, u: UpdateComponent, k: nat)
    requires k < |cs| && cs[k].id == u.id && forall i :: 0 <= i < k ==> cs[i].id != u.id
    ensures SetComponent(cs, u) == match SetFields(cs[k].fields, u.fields)
                                   case None => None
                                   case Some(values) => Some(cs[k := ComponentSnapshot(u.id, values)])
  {
    hide SetFields;
    var values := SetFields(cs[k].fields, u.fields);
    if k > 0 {
      SetComponentAt(cs[1..], u, k - 1);
      if values.Some? {
        var c := ComponentSnapshot(u.id, values.value);
        assert cs[k := c] == [cs[0]] + cs[1..][k - 1 := c];
      }
    } else if values.Some? {
      var c := ComponentSnapshot(u.id, values.value);
      assert cs[0 := c] == [c] + cs[1..];
    }
  }

  lemma {:induction false} SetComponentAbsent(cs: seq<ComponentSnapshot>, u: UpdateComponent)
    requires forall i :: 0 <= i < |cs| ==> cs[i].id != u.id
    ensures SetComponent(cs, u) == None
  {
    if cs != [] {
      SetComponentAbsent(cs[1..], u);
    }
  }

  /** Overwrites fields of one component. */
  method ApplyFields(values: seq<FieldValue>, fs: seq<(nat, FieldValue)>) returns (r: Option<seq<FieldValue>>)
    ensures r == SetFields(values, fs)
  {
    var vs := values;
    for k := 0 to |fs|
      invariant SetFields(values, fs) == SetFields(vs, fs[k..])
    {
      assert fs[k..][1..] == fs[k + 1..];
      if fs[k].0 >= |vs| {
        return None;
      }
      vs := vs[fs[k].0 := fs[k].1];
    }
    return Some(vs);
  }

  /** Replacing the entity at one position of a sorted list updates its map at that id. */
  lemma {:induction false} MapUpdateAt(es: seq<EntitySnapshot>, k: nat, e: EntitySnapshot)
    requires Sorted(es) && k < |es| && e.id == es[k].id
    ensures Sorted(es[k := e])
    ensures EntityMap(es[k := e]) == EntityMap(es)[e.id := e]
  {
    if k == 0 {
      assert es[0 := e][1..] == es[1..];
    } else {
      MapUpdateAt(es[1..], k - 1, e);
      assert es[k := e][1..] == es[1..][k - 1 := e];
      assert es[0].id != e.id;
    }
  }

  /** Updates the components of the entity at `idx`, in place, one component at a time. */
  method ApplyEntityUpdate(a: array<EntitySnapshot>, idx: nat, us: seq<UpdateComponent>) returns (r: Outcome)
    requires idx < a.Length && Sorted(a[..])
    modifies a
    ensures forall k :: 0 <= k < a.Length && k != idx ==> a[k] == old(a[k])
    ensures a[idx].id == old(a[idx].id)
    ensures r.Pass? <==> SetComponents(old(a[idx].components), us).Some?
    ensures r.Pass? ==> a[idx].components == SetComponents(old(a[idx].components), us).value
  {
    hide SetComponent, Sorted;
    ghost var target := SetComponents(a[idx].components, us);
    for k := 0 to |us|
      invariant forall i :: 0 <= i < a.Length && i != idx ==> a[i] == old(a[i])
      invariant a[idx].id == old(a[idx].id)
      invariant target == SetComponents(a[idx].components, us[k..])
    {
      assert us[k..][1..] == us[k + 1..];
      var cs := a[idx].components;
      var found := FindComponentIndex(cs, us[k].id);
      if found.None? {
        SetComponentAbsent(cs, us[k]);
        return Fail;
      }
      SetComponentAt(cs, us[k], found.value);
      var values := ApplyFields(cs[found.value].fields, us[k].fields);
      if values.None? {
        return Fail;
      }
      a[idx] := EntitySnapshot(a[idx].id, cs[found.value := ComponentSnapshot(us[k].id, values.value)]);
    }
    return Pass;
  }

  method ApplyUpdates(a: array<EntitySnapshot>, us: seq<UpdateEntity>) returns (r: Outcome)
    requires Sorted(a[..])
    modifies a
    ensures r.Pass? <==> SetEntities(EntityMap(old(a[..])), us).Some?
    ensures r.Pass? ==> Sorted(a[..]) && EntityMap(a[..]) == SetEntities(EntityMap(old(a[..])), us).value
  {
    hide EntityMap, SetComponents, Sorted;
    ghost var target := SetEntities(EntityMap(a[..]), us);
    for k := 0 to |us|
      invariant Sorted(a[..]) && target == SetEntities(EntityMap(a[..]), us[k..])
    {
      assert us[k..][1..] == us[k + 1..];
      ghost var before := a[..];
      var found := BinarySearch(a, us[k].id);
      if found.None? {
        return Fail;
      }
      EntityAt(before, found.value);
      :- ApplyEntityUpdate(a, found.value, us[k].components);
      MapUpdateAt(before, found.value, a[found.value]);
      assert a[..] == before[found.value := a[found.value]];
    }
    return Pass;
  }

  // ---- The whole delta ----

  /** A delta as a partial function on maps. */
  function ApplyDelta(m: map<u32, EntitySnapshot>, d: Delta, limits: CodecLimits): Option<map<u32, EntitySnapshot>> {
    if !(IdSet(d.destroys) <= m.Keys) then None
    else
      var kept := m - IdSet(d.destroys);
      if kept.Keys !! EntityMap(d.creates).Keys then
        var all := kept + EntityMap(d.creates);
        if |all| > limits.maxTotalEntitiesAfterApply then None else SetEntities(all, d.updates)
      else None
  }

  lemma {:induction false} MapSize(es: seq<EntitySnapshot>)
    requires Sorted(es)
    ensures |EntityMap(es)| == |es|
  {
    if es != [] {
      MapSize(es[1..]);
      TailMap(es);
      assert EntityMap(es).Keys == EntityMap(es[1..]).Keys + {es[0].id};
    }
  }

  method ApplyLists(baseline: seq<EntitySnapshot>, d: Delta,
                    limits: CodecLimits) returns (r: Option<seq<EntitySnapshot>>)
    requires Sorted(baseline) && SortedIds(d.destroys) && Sorted(d.creates)
    ensures r.Some? <==> ApplyDelta(EntityMap(baseline), d, limits).Some?
    ensures r.Some? ==> Sorted(r.value) && EntityMap(r.value) == ApplyDelta(EntityMap(baseline), d, limits).value
  {
    hide EntityMap, SetEntities, Sorted, SortedIds, IdSet;
    var kept :- ApplyDestroys(baseline, d.destroys);
    var remaining :- ApplyCreates(kept, d.creates);
    MapSize(remaining);
    if |remaining| > limits.maxTotalEntitiesAfterApply {
      return None;
    }
    var a := new EntitySnapshot[|remaining|](i requires 0 <= i < |remaining| => remaining[i]);
    assert a[..] == remaining;
    var updated := ApplyUpdates(a, d.updates);
    if updated.Fail? {
      return None;
    }
    return Some(a[..]);
  }
}
