/** The circular queue of include/spdlog/details/circular_q.h: a wrap-around array that refines
    the bounded sequence of module BoundedSeq. */
module Circular {
  import opened Arithmetic
  import opened BoundedSeq

  /** The slots the constructor asks for: one more than the items, in size_t arithmetic. */
  function SlotsFor(maxItems: nat): nat {
    (maxItems + 1) % SIZE_VALUES
  }

  /** Every size_t capacity is honoured, save the greatest: there the extra slot wraps to zero and the
      queue is disabled. */
  lemma SlotsHonourCapacity(maxItems: nat)
    requires maxItems < SIZE_VALUES
    ensures SlotsFor(maxItems) == 0 <==> maxItems == 18446744073709551615
    ensures Capacity(SlotsFor(maxItems)) == maxItems <==> maxItems != 18446744073709551615
  {
    if maxItems < SIZE_VALUES - 1 {
      assert SlotsFor(maxItems) == maxItems + 1;
    }
  }

  /** An index below twice the slots: `a % slots` steps over the end of the array at most once. */
  method Wrapped(a: nat, slots: nat) returns (i: nat)
    requires a < 2 * slots
    ensures i == if a < slots then a else a - slots
    ensures 0 < a <= slots ==> i == Next(a - 1, slots)
  {
    i := a % slots;
    if a < slots {
      DivModUnique(a, slots, 0, a);
    } else {
      DivModUnique(a, slots, 1, a - slots);
    }
  }

  /** The cells from `head` up to `tail`, round the end of the array when `tail` is behind. */
  ghost function Ring<T>(v: seq<T>, head: nat, tail: nat): seq<T>
    requires head <= |v| && tail <= |v|
  {
    if head <= tail then v[head..tail] else v[head..] + v[..tail]
  }

  ghost function Next(i: nat, slots: nat): nat {
    if i + 1 < slots then i + 1 else 0
  }

  lemma RingSize<T>(v: seq<T>, head: nat, tail: nat)
    requires head < |v| && tail < |v|
    ensures |Ring(v, head, tail)| == if head <= tail then tail - head else |v| - (head - tail)
    ensures Next(tail, |v|) == head <==> |Ring(v, head, tail)| == |v| - 1
  {
  }

  lemma RingAt<T>(v: seq<T>, head: nat, tail: nat, i: nat)
    requires head < |v| && tail < |v| && i < |Ring(v, head, tail)|
    ensures Ring(v, head, tail)[i] == v[if head + i < |v| then head + i else head + i - |v|]
  {
  }

  lemma RingDrop<T>(v: seq<T>, head: nat, tail: nat)
    requires head < |v| && tail < |v| && head != tail
    ensures Ring(v, Next(head, |v|), tail) == Ring(v, head, tail)[1..]
  {
  }

  lemma RingStore<T>(v: seq<T>, head: nat, tail: nat, item: T)
    requires head < |v| && tail < |v|
    ensures var next, w := Next(tail, |v|), v[tail := item];
            && (next != head ==> Ring(w, head, next) == Ring(v, head, tail) + [item])
            && (next == head ==> Ring(w, Next(head, |v|), next) == (Ring(v, head, tail) + [item])[1..])
  {
    var next, w := Next(tail, |v|), v[tail := item];
    if next != head {
      assert Ring(w, head, next) == Ring(v, head, tail) + [item];
    } else if |v| > 1 {
      assert Ring(w, head, tail) == Ring(v, head, tail);
      assert Ring(w, Next(head, |v|), next) == (Ring(v, head, tail) + [item])[1..];
    }
  }

  class CircularQ<T(0)> {
    var maxItems: nat
    var head: nat
    var tail: nat
    var overrunCounter: nat
    var v: array<T>

    /** The items held, oldest first. */
    ghost var contents: seq<T>

    ghost predicate Valid()
      reads this, v
    {
      && v.Length == maxItems
      && (if maxItems == 0 then head == tail == 0 else head < maxItems && tail < maxItems)
      && contents == Ring(v[..], head, tail)
    }

    /** The default constructor: a disabled queue. */
    constructor Disabled()
      ensures Valid() && maxItems == 0 && contents == [] && overrunCounter == 0
      ensures fresh(v)
    {
      maxItems, head, tail, overrunCounter := 0, 0, 0, 0;
      v := new T[0];
      contents := [];
    }

    constructor (n: nat)
      requires n < SIZE_VALUES
      ensures Valid() && maxItems == SlotsFor(n) && contents == [] && overrunCounter == 0
      ensures fresh(v)
    {
      maxItems, head, tail, overrunCounter := SlotsFor(n), 0, 0, 0;
      v := new T[SlotsFor(n)];
      contents := [];
    }

    /** The move constructor. */
    constructor Move(other: CircularQ<T>)
      requires other.Valid()
      modifies other
      ensures Valid() && maxItems == old(other.maxItems) && v == old(other.v)
      ensures contents == old(other.contents) && overrunCounter == old(other.overrunCounter)
      ensures other.Valid() && other.maxItems == 0 && other.contents == [] && other.overrunCounter == 0
      ensures fresh(other.v)
    {
      maxItems, head, tail, overrunCounter := 0, 0, 0, 0;
      v := new T[0];
      contents := [];
      new;
      CopyMoveable(other);
    }

    /** Takes over the state of `other` and leaves it disabled. Moving a queue onto itself disables it. */
    method CopyMoveable(other: CircularQ<T>)
      requires Valid() && other.Valid()
      modifies this, other
      ensures Valid() && other.Valid()
      ensures other.maxItems == 0 && other.contents == [] && other.overrunCounter == 0
      ensures this != other ==> maxItems == old(other.maxItems) && overrunCounter == old(other.overrunCounter)
      ensures this != other ==> v == old(other.v) && contents == old(other.contents)
      ensures fresh(other.v)
    {
      maxItems := other.maxItems;
      head := other.head;
      tail := other.tail;
      overrunCounter := other.overrunCounter;
      v := other.v;
      contents := other.contents;
      other.v := new T[0];
      other.maxItems := 0;
      other.head, other.tail := 0, 0;
      other.overrunCounter := 0;
      other.contents := [];
    }

    method PushBack(item: T)
      requires Valid()
      modifies this, v
      ensures Valid()
      ensures contents == Push(maxItems, old(contents), item)
      ensures maxItems == old(maxItems) && v == old(v)
      ensures overrunCounter == old(overrunCounter) + (if old(Full(maxItems, contents)) then 1 else 0)
    {
      if maxItems > 0 {
        RingSize(v[..], head, tail);
        RingStore(v[..], head, tail, item);
        assert |contents| < maxItems;
        ghost var before := v[..];
        v[tail] := item;
        assert v[..] == before[tail := item];
        tail := Wrapped(tail + 1, maxItems);
        contents := contents + [item];
        if tail == head {
          head := Wrapped(head + 1, maxItems);
          overrunCounter := overrunCounter + 1;
          contents := contents[1..];
        }
      }
    }

    method Front() returns (item: T)
      requires Valid() && contents != []
      ensures item == contents[0]
    {
      item := v[head];
    }

    method PopFront()
      requires Valid() && contents != []
      modifies this`head, this`contents
      ensures Valid() && contents == old(contents)[1..]
    {
      RingDrop(v[..], head, tail);
      head := Wrapped(head + 1, maxItems);
      contents := contents[1..];
    }

    method At(i: nat) returns (item: T)
      requires Valid() && i < |contents|
      ensures item == contents[i]
    {
      RingSize(v[..], head, tail);
      RingAt(v[..], head, tail, i);
      var j := Wrapped(head + i, maxItems);
      item := v[j];
    }

    method Size() returns (n: nat)
      requires Valid()
      ensures n == |contents|
    {
      n := if tail >= head then tail - head else maxItems - (head - tail);
    }

    method Empty() returns (b: bool)
      requires Valid()
      ensures b <==> contents == []
    {
      b := tail == head;
    }

    method IsFull() returns (b: bool)
      requires Valid()
      ensures b <==> Full(maxItems, contents)
    {
      b := false;
      if maxItems > 0 {
        RingSize(v[..], head, tail);
        var next := Wrapped(tail + 1, maxItems);
        b := next == head;
      }
    }
  }
}
