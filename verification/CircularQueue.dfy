/** spdlog's circular_q: a ring of max_items + 1 slots that overruns its oldest item. */
module CircularQueue {

  lemma ModWrap(a: nat, m: nat)
    requires 0 < m && a < 2 * m
    ensures a % m == if a < m then a else a - m
  {
    if a >= m {
      assert (a - m) % m == a - m;
      ModAddsModulus(a - m, m);
    }
  }

  lemma ModAddsModulus(b: nat, m: nat)
    requires 0 < m && b < m
    ensures (b + m) % m == b
  {
    var q, r := (b + m) / m, (b + m) % m;
    assert b + m == q * m + r;
    assert q >= 2 ==> q * m >= 2 * m;
    assert q <= 0 ==> q * m <= 0;
    assert q == 1;
  }

  /** The bounded sequence that the ring implements: append, then drop the oldest beyond the capacity. */
  function Appended<T>(s: seq<T>, capacity: nat, item: T): seq<T> {
    if |s| < capacity then s + [item] else (s + [item])[1..]
  }

  /** What is kept are the newest items: all of them while they fit, else as many as the capacity. */
  lemma AppendedKeepsNewest<T>(s: seq<T>, capacity: nat, item: T)
    requires |s| <= capacity
    ensures |Appended(s, capacity, item)| == if |s| + 1 <= capacity then |s| + 1 else capacity
    ensures Appended(s, capacity, item) == (s + [item])[|s| + 1 - |Appended(s, capacity, item)|..]
  {
  }

  /** The items from slot head up to slot tail, around the end of the ring. */
  ghost function Ring<T>(slots: seq<T>, head: nat, tail: nat): seq<T>
    requires head <= |slots| && tail <= |slots|
  {
    if tail >= head then slots[head..tail] else slots[head..] + slots[..tail]
  }

  ghost function Succ(i: nat, n: nat): nat {
    if i + 1 < n then i + 1 else 0
  }

  lemma RingPush<T>(slots: seq<T>, head: nat, tail: nat, item: T)
    requires head < |slots| && tail < |slots|
    ensures var next := Succ(tail, |slots|);
            if next != head then Ring(slots[tail := item], head, next) == Ring(slots, head, tail) + [item]
            else && |Ring(slots, head, tail)| == |slots| - 1
                 && Ring(slots[tail := item], Succ(head, |slots|), next)
                    == (Ring(slots, head, tail) + [item])[1..]
  {
  }

  class CircularQ<T(0)> {
    var maxItems: nat
    var head: nat
    var tail: nat
    var overrunCounter: nat
    var v: array<T>

    ghost predicate Valid()
      reads this
    {
      && v.Length == maxItems
      && if maxItems == 0 then head == tail == 0 else head < maxItems && tail < maxItems
    }

    /** The stored items, oldest first. */
    ghost function Contents(): (s: seq<T>)
      requires Valid()
      reads this, v
    {
      Ring(v[..], head, tail)
    }

    /** The size asked for; a default-constructed or moved-from queue stores nothing. */
    ghost function Capacity(): nat
      reads this
    {
      if maxItems == 0 then 0 else maxItems - 1
    }

    constructor Disabled()
      ensures Valid() && fresh(v)
      ensures maxItems == 0 && Contents() == [] && overrunCounter == 0
    {
      maxItems, head, tail, overrunCounter := 0, 0, 0, 0;
      v := new T[0];
    }

    constructor (maxItems: nat)
      ensures Valid() && fresh(v)
      ensures this.maxItems > 0 && Capacity() == maxItems && Contents() == [] && overrunCounter == 0
    {
      this.maxItems := maxItems + 1;
      head, tail, overrunCounter := 0, 0, 0;
      v := new T[maxItems + 1];
    }

    constructor Copy(other: CircularQ<T>)
      requires other.Valid()
      ensures Valid() && fresh(v)
      ensures maxItems == other.maxItems && overrunCounter == other.overrunCounter
      ensures Contents() == other.Contents()
    {
      maxItems, head, tail, overrunCounter := other.maxItems, other.head, other.tail, other.overrunCounter;
      v := new T[other.v.Length](i requires 0 <= i < other.v.Length reads other, other.v => other.v[i]);
      new;
      assert v[..] == other.v[..];
    }

    /** copy_moveable: take the other queue's slots and leave it disabled. */
    method MoveFrom(other: CircularQ<T>)
      requires other != this && other.Valid()
      modifies this, other
      ensures Valid() && other.Valid() && fresh(other.v)
      ensures v == old(other.v) && maxItems == old(other.maxItems)
      ensures Contents() == old(other.Contents()) && overrunCounter == old(other.overrunCounter)
      ensures other.maxItems == 0 && other.Contents() == [] && other.overrunCounter == 0
    {
      maxItems := other.maxItems;
      head := other.head;
      tail := other.tail;
      overrunCounter := other.overrunCounter;
      v := other.v;
      other.v := new T[0];
      other.maxItems := 0;
      other.head, other.tail := 0, 0;
      other.overrunCounter := 0;
    }

    method PushBack(item: T)
      requires Valid()
      modifies this, v
      ensures Valid() && v == old(v) && maxItems == old(maxItems)
      ensures old(maxItems) == 0 ==> Contents() == [] && overrunCounter == old(overrunCounter)
      ensures old(maxItems) > 0 ==>
                && Contents() == Appended(old(Contents()), Capacity(), item)
                && overrunCounter == old(overrunCounter) +
                     if |old(Contents())| == Capacity() then 1 else 0
    {
      if maxItems > 0 {
        ModWrap(tail + 1, maxItems);
        ModWrap(head + 1, maxItems);
        RingPush(v[..], head, tail, item);
        ghost var slots := v[..];
        v[tail] := item;
        assert v[..] == slots[tail := item];
        tail := (tail + 1) % maxItems;
        if tail == head {
          head := (head + 1) % maxItems;
          overrunCounter := overrunCounter + 1;
        }
      }
    }

    method Front() returns (item: T)
      requires Valid() && Contents() != []
      ensures item == Contents()[0]
    {
      item := v[head];
    }

    method PopFront()
      requires Valid() && Contents() != []
      modifies this
      ensures Valid() && v == old(v) && maxItems == old(maxItems)
      ensures Contents() == old(Contents())[1..] && overrunCounter == old(overrunCounter)
    {
      ModWrap(head + 1, maxItems);
      head := (head + 1) % maxItems;
    }

    method Size() returns (n: nat)
      requires Valid()
      ensures n == |Contents()|
    {
      if tail >= head {
        n := tail - head;
      } else {
        n := maxItems - (head - tail);
      }
    }

    method At(i: nat) returns (item: T)
      requires Valid() && i < |Contents()|
      ensures item == Contents()[i]
    {
      ModWrap(head + i, maxItems);
      item := v[(head + i) % maxItems];
    }

    method Empty() returns (b: bool)
      requires Valid()
      ensures b <==> Contents() == []
    {
      b := tail == head;
    }

    /** Full exactly when the requested capacity is reached; a disabled queue is never full. */
    method Full() returns (b: bool)
      requires Valid()
      ensures b <==> maxItems > 0 && |Contents()| == Capacity()
    {
      if maxItems > 0 {
        ModWrap(tail + 1, maxItems);
        b := (tail + 1) % maxItems == head;
      } else {
        b := false;
      }
    }

    method ResetOverrunCounter()
      requires Valid()
      modifies this
      ensures Valid() && v == old(v) && maxItems == old(maxItems)
      ensures overrunCounter == 0 && Contents() == old(Contents())
    {
      overrunCounter := 0;
    }
  }
}
