/** The two-pointer walk over two sorted entity lists that every encoder pass repeats. */
module Walks {
  import opened Core
  import opened Schemas
  import opened Diffs

  /** All entities before `i` and `j` have been dealt with. */
  predicate WalkAt(b: seq<EntitySnapshot>, c: seq<EntitySnapshot>, i: nat, j: nat) {
    && i <= |b| && j <= |c|
    && (i < |b| && 0 < j ==> c[j - 1].id < b[i].id)
    && (j < |c| && 0 < i ==> b[i - 1].id < c[j].id)
  }

  lemma WalkStart(b: seq<EntitySnapshot>, c: seq<EntitySnapshot>)
    ensures WalkAt(b, c, 0, 0)
  {
  }

  lemma {:induction false} NotInMap(es: seq<EntitySnapshot>, id: u32)
    requires forall k :: 0 <= k < |es| ==> es[k].id != id
    ensures id !in EntityMap(es)
  {
    if id in EntityMap(es) {
      var k := EntityIndex(es, id);
      assert false;
    }
  }

  /** An id that falls between position `k - 1` and position `k` of a sorted list is not in it. */
  lemma {:induction false} Between(es: seq<EntitySnapshot>, k: nat, id: u32)
    requires Sorted(es) && k <= |es|
    requires 0 < k ==> es[k - 1].id < id
    requires k < |es| ==> id < es[k].id
    ensures id !in EntityMap(es)
  {
    NotInMap(es, id);
  }

  /**
   One step of the walk. The smaller id is missing from the other list; equal ids pair up.
   The remaining differences change accordingly.
   */
  lemma {:induction false} WalkLess(b: seq<EntitySnapshot>, c: seq<EntitySnapshot>, i: nat, j: nat)
    requires Sorted(b) && Sorted(c) && WalkAt(b, c, i, j)
    requires i < |b| && (j < |c| ==> b[i].id < c[j].id)
    ensures i + 1 <= |b| && WalkAt(b, c, i + 1, j)
    ensures Missing(b[i..], c) == [b[i]] + Missing(b[i + 1..], c)
    ensures Common(b[i..], c) == Common(b[i + 1..], c)
  {
    Between(c, j, b[i].id);
    assert b[i..][1..] == b[i + 1..];
    assert [] + Common(b[i + 1..], c) == Common(b[i + 1..], c);
  }

  lemma {:induction false} WalkGreater(b: seq<EntitySnapshot>, c: seq<EntitySnapshot>, i: nat, j: nat)
    requires Sorted(b) && Sorted(c) && WalkAt(b, c, i, j)
    requires j < |c| && (i < |b| ==> c[j].id < b[i].id)
    ensures WalkAt(b, c, i, j + 1)
    ensures Missing(c[j..], b) == [c[j]] + Missing(c[j + 1..], b)
  {
    Between(b, i, c[j].id);
    assert c[j..][1..] == c[j + 1..];
  }

  lemma {:induction false} WalkEqual(b: seq<EntitySnapshot>, c: seq<EntitySnapshot>, i: nat, j: nat)
    requires Sorted(b) && Sorted(c) && WalkAt(b, c, i, j)
    requires i < |b| && j < |c| && b[i].id == c[j].id
    ensures WalkAt(b, c, i + 1, j + 1)
    ensures Missing(b[i..], c) == Missing(b[i + 1..], c)
    ensures Missing(c[j..], b) == Missing(c[j + 1..], b)
    ensures Common(b[i..], c) == [(b[i], c[j])] + Common(b[i + 1..], c)
  {
    EntityAt(b, i);
    EntityAt(c, j);
    assert b[i..][1..] == b[i + 1..] && c[j..][1..] == c[j + 1..];
    assert [] + Missing(b[i + 1..], c) == Missing(b[i + 1..], c);
    assert [] + Missing(c[j + 1..], b) == Missing(c[j + 1..], b);
  }

  /** Once one list is used up, no pair is left. */
  lemma {:induction false} WalkEnd(b: seq<EntitySnapshot>, c: seq<EntitySnapshot>, i: nat, j: nat)
    requires Sorted(b) && Sorted(c) && WalkAt(b, c, i, j)
    requires i == |b| || j == |c|
    ensures Common(b[i..], c) == []
    decreases |b| - i
  {
    if i < |b| {
      WalkLess(b, c, i, j);
      WalkEnd(b, c, i + 1, j);
    }
  }

  // ---- The lists the walk finds ----

  lemma {:induction false} MissingMember(xs: seq<EntitySnapshot>, ys: seq<EntitySnapshot>, e: EntitySnapshot)
    ensures e in Missing(xs, ys) <==> e in xs && e.id !in EntityMap(ys)
  {
    if xs != [] {
      MissingMember(xs[1..], ys, e);
      assert xs == [xs[0]] + xs[1..];
    }
  }

  lemma {:induction false} MissingSorted(xs: seq<EntitySnapshot>, ys: seq<EntitySnapshot>)
    requires Sorted(xs)
    ensures Sorted(Missing(xs, ys))
    ensures Missing(xs, ys) != [] ==> xs != [] && xs[0].id <= Missing(xs, ys)[0].id
  {
    if xs != [] {
      MissingSorted(xs[1..], ys);
    }
  }

  lemma {:induction false} WalkCounts(b: seq<EntitySnapshot>, c: seq<EntitySnapshot>, i: nat, j: nat)
    requires Sorted(b) && Sorted(c) && WalkAt(b, c, i, j)
    ensures |c| - j == |b| - i + |Missing(c[j..], b)| - |Missing(b[i..], c)|
    decreases |b| - i + |c| - j
  {
    if i < |b| && (j < |c| ==> b[i].id < c[j].id) {
      WalkLess(b, c, i, j);
      WalkCounts(b, c, i + 1, j);
    } else if j < |c| && (i < |b| ==> c[j].id < b[i].id) {
      WalkGreater(b, c, i, j);
      WalkCounts(b, c, i, j + 1);
    } else if i < |b| {
      WalkEqual(b, c, i, j);
      WalkCounts(b, c, i + 1, j + 1);
    }
  }

  /** |current| = |baseline| + creates - destroys. */
  lemma CountsBalance(b: seq<EntitySnapshot>, c: seq<EntitySnapshot>)
    requires Sorted(b) && Sorted(c)
    ensures |c| == |b| + |Missing(c, b)| - |Missing(b, c)|
  {
    WalkStart(b, c);
    WalkCounts(b, c, 0, 0);
    assert b[0..] == b && c[0..] == c;
  }
}
