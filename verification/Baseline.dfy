/** The ring of baselines kept by tick: a fixed array that behaves as the last few accepted insertions. */
module Baselines {
  import opened Core

  datatype Entry<+T> = Entry(tick: u32, value: T)

  // ---- What the ring stands for ----

  predicate Increasing<T>(es: seq<Entry<T>>) {
    forall i, j :: 0 <= i < j < |es| ==> es[i].tick < es[j].tick
  }

  /** The last `n` elements, or all when there are fewer. */
  function Last<T>(s: seq<T>, n: nat): (r: seq<T>)
    ensures |r| == if |s| <= n then |s| else n
  {
    if |s| <= n then s else s[|s| - n..]
  }

  /** Only a tick above the last one is accepted. */
  predicate Accepted<T>(es: seq<Entry<T>>, tick: u32) {
    es == [] || es[|es| - 1].tick < tick
  }

  /** One insertion into a store of the given capacity. */
  function Inserted<T>(capacity: nat, es: seq<Entry<T>>, e: Entry<T>): seq<Entry<T>> {
    if Accepted(es, e.tick) then Last(es + [e], capacity) else es
  }

  function InsertAll<T>(capacity: nat, es: seq<Entry<T>>, more: seq<Entry<T>>): seq<Entry<T>>
    decreases |more|
  {
    if more == [] then es else InsertAll(capacity, Inserted(capacity, es, more[0]), more[1..])
  }

  /** The accepted members of a history of insertions, with nothing evicted. */
  function AcceptAll<T>(es: seq<Entry<T>>, more: seq<Entry<T>>): seq<Entry<T>>
    decreases |more|
  {
    if more == [] then es else AcceptAll(if Accepted(es, more[0].tick) then es + [more[0]] else es, more[1..])
  }

  /** After any insertions the store holds exactly the last ones accepted, at most `capacity` of them. */
  lemma {:induction false} HoldsLastAccepted<T>(capacity: nat, es: seq<Entry<T>>, more: seq<Entry<T>>)
    requires capacity > 0
    ensures InsertAll(capacity, Last(es, capacity), more) == Last(AcceptAll(es, more), capacity)
    decreases |more|
  {
    if more != [] {
      var e := more[0];
      var next := if Accepted(es, e.tick) then es + [e] else es;
      assert Inserted(capacity, Last(es, capacity), e) == Last(next, capacity);
      HoldsLastAccepted(capacity, next, more[1..]);
    }
  }

  lemma {:induction false} AcceptedIncrease<T>(es: seq<Entry<T>>, more: seq<Entry<T>>)
    requires Increasing(es)
    ensures Increasing(AcceptAll(es, more))
    decreases |more|
  {
    if more != [] {
      AcceptedIncrease(if Accepted(es, more[0].tick) then es + [more[0]] else es, more[1..]);
    }
  }

  /** The value at exactly this tick. */
  function Lookup<T>(es: seq<Entry<T>>, tick: u32): Option<T> {
    if es == [] then None else if es[0].tick == tick then Some(es[0].value) else Lookup(es[1..], tick)
  }

  /** The newest entry not above the tick. */
  function LatestUpTo<T>(es: seq<Entry<T>>, tick: u32): Option<Entry<T>> {
    if es == [] then None
    else if es[|es| - 1].tick <= tick then Some(es[|es| - 1])
    else LatestUpTo(es[..|es| - 1], tick)
  }

  lemma {:induction false} LookupAt<T>(es: seq<Entry<T>>, k: nat)
    requires Increasing(es) && k < |es|
    ensures Lookup(es, es[k].tick) == Some(es[k].value)
  {
    if k > 0 {
      assert es[0].tick < es[k].tick;
      LookupAt(es[1..], k - 1);
    }
  }

  /** It is the greatest retained tick not above the query, and there is one unless all are above. */
  lemma {:induction false} LatestGreatest<T>(es: seq<Entry<T>>, tick: u32)
    requires Increasing(es)
    ensures LatestUpTo(es, tick).None? <==> forall e :: e in es ==> tick < e.tick
    ensures LatestUpTo(es, tick).Some? ==>
              var best := LatestUpTo(es, tick).value;
              best in es && best.tick <= tick && forall e :: e in es && e.tick <= tick ==> e.tick <= best.tick
    decreases |es|
  {
    if es != [] {
      var n := |es| - 1;
      assert es == es[..n] + [es[n]];
      if es[n].tick > tick {
        LatestGreatest(es[..n], tick);
      }
    }
  }

  /** A selected baseline can always be retrieved. */
  lemma SelectedRetrievable<T>(es: seq<Entry<T>>, tick: u32)
    requires Increasing(es) && LatestUpTo(es, tick).Some?
    ensures Lookup(es, LatestUpTo(es, tick).value.tick) == Some(LatestUpTo(es, tick).value.value)
  {
    LatestGreatest(es, tick);
    var best := LatestUpTo(es, tick).value;
    var k :| 0 <= k < |es| && es[k] == best;
    LookupAt(es, k);
  }

  // ---- The ring ----

  function Slot(head: nat, i: nat, n: nat): (k: nat)
    requires n > 0
    ensures k < n
  {
    (head + i) % n
  }

  predicate RingShaped<T>(slots: seq<Option<Entry<T>>>, head: nat, len: nat) {
    && head < |slots| && len <= |slots|
    && forall i :: 0 <= i < len ==> slots[Slot(head, i, |slots|)].Some?
  }

  /** The entries from the oldest to the newest. */
  function RingContents<T>(slots: seq<Option<Entry<T>>>, head: nat, len: nat): (es: seq<Entry<T>>)
    requires RingShaped(slots, head, len)
    ensures |es| == len && forall i :: 0 <= i < len ==> slots[Slot(head, i, |slots|)] == Some(es[i])
  {
    seq(len, i requires 0 <= i < len => slots[Slot(head, i, |slots|)].value)
  }

  lemma SlotValue(head: nat, i: nat, n: nat)
    requires head < n && i < n
    ensures Slot(head, i, n) == if head + i < n then head + i else head + i - n
  {
  }

  /** Two places of a ring less than a turn apart are different. */
  lemma SlotsApart(head: nat, i: nat, j: nat, n: nat)
    requires head < n && i < j < n
    ensures Slot(head, i, n) != Slot(head, j, n)
  {
    hide Slot;
    SlotValue(head, i, n);
    SlotValue(head, j, n);
  }

  /** Moving the head on by one and the index back by one is the same place. */
  lemma SlotShift(head: nat, i: nat, n: nat)
    requires head < n && i < n
    ensures Slot(Slot(head, 1, n), i, n) == if i == n - 1 then head else Slot(head, i + 1, n)
  {
    hide Slot;
    if n == 1 {
      OneSlot(head + 1);
      OneSlot(Slot(head, 1, 1) + i);
    } else {
      SlotValue(head, 1, n);
      SlotValue(Slot(head, 1, n), i, n);
      if i < n - 1 {
        SlotValue(head, i + 1, n);
      }
    }
  }

  lemma OneSlot(k: nat)
    ensures Slot(k, 0, 1) == 0 && forall i: nat :: Slot(k, i, 1) == 0
  {
  }

  /** Filling the first free slot appends. */
  lemma PutFree<T>(slots: seq<Option<Entry<T>>>, head: nat, len: nat, e: Entry<T>)
    requires RingShaped(slots, head, len) && len < |slots|
    ensures var next := slots[Slot(head, len, |slots|) := Some(e)];
            RingShaped(next, head, len + 1) && RingContents(next, head, len + 1) == RingContents(slots, head, len) + [e]
  {
    hide Slot;
    forall i | 0 <= i < len
      ensures Slot(head, i, |slots|) != Slot(head, len, |slots|)
    {
      SlotsApart(head, i, len, |slots|);
    }
  }

  /** Overwriting the oldest entry of a full ring and moving the head on drops it and appends. */
  lemma PutOver<T>(slots: seq<Option<Entry<T>>>, head: nat, e: Entry<T>)
    requires RingShaped(slots, head, |slots|)
    ensures var n := |slots|;
            var next := slots[head := Some(e)];
            RingShaped(next, Slot(head, 1, n), n)
            && RingContents(next, Slot(head, 1, n), n) == RingContents(slots, head, n)[1..] + [e]
  {
    hide Slot;
    var n := |slots|;
    var next, moved := slots[head := Some(e)], Slot(head, 1, n);
    SlotValue(head, 0, n);
    forall i | 0 <= i < n
      ensures next[Slot(moved, i, n)] == Some((RingContents(slots, head, n)[1..] + [e])[i])
    {
      SlotShift(head, i, n);
      if i < n - 1 {
        SlotsApart(head, 0, i + 1, n);
      }
    }
  }

  class BaselineStore<T> {
    const entries: array<Option<Entry<T>>>
    var head: nat
    var len: nat
    var lastTick: Option<u32>

    ghost function Contents(): (es: seq<Entry<T>>)
      requires RingShaped(entries[..], head, len)
      reads this, entries
      ensures |es| == len
    {
      RingContents(entries[..], head, len)
    }

    ghost predicate Valid()
      reads this, entries
    {
      && RingShaped(entries[..], head, len)
      && Increasing(Contents())
      && lastTick == if len == 0 then None else Some(Contents()[len - 1].tick)
    }

    constructor (capacity: nat)
      requires capacity > 0
      ensures Valid() && fresh(entries) && entries.Length == capacity && Contents() == []
    {
      entries := new Option<Entry<T>>[capacity](_ => None);
      head, len, lastTick := 0, 0, None;
    }

    /** Refuses ticks that do not increase; when full, overwrites the oldest entry. */
    method Insert(tick: u32, value: T) returns (r: Outcome)
      requires Valid()
      modifies this, entries
      ensures Valid()
      ensures r.Pass? <==> Accepted(old(Contents()), tick)
      ensures Contents() == Inserted(entries.Length, old(Contents()), Entry(tick, value))
    {
      hide Slot, RingShaped, RingContents;
      if lastTick.Some? && tick <= lastTick.value {
        assert !Accepted(Contents(), tick);
        return Fail;
      }
      ghost var slots := entries[..];
      ghost var before := Contents();
      var capacity := entries.Length;
      RingBounds(slots, head, len);
      if len < capacity {
        PutFree(slots, head, len, Entry(tick, value));
        var idx := Slot(head, len, capacity);
        entries[idx] := Some(Entry(tick, value));
        assert entries[..] == slots[idx := Some(Entry(tick, value))];
        len := len + 1;
      } else {
        PutOver(slots, head, Entry(tick, value));
        entries[head] := Some(Entry(tick, value));
        assert entries[..] == slots[head := Some(Entry(tick, value))];
        head := Slot(head, 1, capacity);
      }
      lastTick := Some(tick);
      assert Contents() == Last(before + [Entry(tick, value)], capacity);
      return Pass;
    }

    /** The `i`th entry from the oldest. */
    method At(i: nat) returns (e: Entry<T>)
      requires Valid() && i < len
      ensures e == Contents()[i]
    {
      e := entries[Slot(head, i, entries.Length)].value;
    }

    method Get(tick: u32) returns (r: Option<T>)
      requires Valid()
      ensures r == Lookup(Contents(), tick)
    {
      hide Slot, RingShaped, RingContents;
      for i := 0 to len
        invariant Lookup(Contents(), tick) == Lookup(Contents()[i..], tick)
      {
        var e := At(i);
        assert Contents()[i..][1..] == Contents()[i + 1..];
        if e.tick == tick {
          return Some(e.value);
        }
      }
      return None;
    }

    method LatestAtOrBefore(tick: u32) returns (r: Option<Entry<T>>)
      requires Valid()
      ensures r == LatestUpTo(Contents(), tick)
    {
      hide Slot, RingShaped, RingContents;
      assert Contents()[..len] == Contents();
      for i := len downto 0
        invariant LatestUpTo(Contents(), tick) == LatestUpTo(Contents()[..i], tick)
      {
        var e := At(i);
        assert Contents()[..i + 1][..i] == Contents()[..i];
        if e.tick <= tick {
          return Some(e);
        }
      }
      return None;
    }

    /** The tick a server encodes against for a client that has acknowledged `ack`. */
    method SelectBaselineTick(ack: u32) returns (r: Option<u32>)
      requires Valid()
      ensures match LatestUpTo(Contents(), ack)
              case None => r.None?
              case Some(best) => r == Some(best.tick) && Lookup(Contents(), best.tick) == Some(best.value)
    {
      var found := LatestAtOrBefore(ack);
      if found.None? {
        return None;
      }
      SelectedRetrievable(Contents(), ack);
      return Some(found.value.tick);
    }
  }

  lemma RingBounds<T>(slots: seq<Option<Entry<T>>>, head: nat, len: nat)
    requires RingShaped(slots, head, len)
    ensures head < |slots| && len <= |slots|
  {
  }
}
