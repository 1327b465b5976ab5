/** What a bounded queue means, with no arrays and no indices.
    A queue has `slots` cells; one of them is the marker of a full queue, so `slots - 1` items fit.
    No slots at all is the disabled queue, which forgets every item it is given. */
module BoundedSeq {

  /** The last `n` items of `s`, or all of `s` when it is shorter. */
  function LastN<T>(s: seq<T>, n: nat): seq<T> {
    if |s| <= n then s else s[|s| - n..]
  }

  /** As many items as there are and fit, from the end. */
  lemma LastNIsTheEnd<T>(s: seq<T>, n: nat)
    ensures var r := LastN(s, n);
            s == s[..|s| - |r|] + r && |r| == if |s| < n then |s| else n
  {
  }

  function Capacity(slots: nat): nat {
    if slots == 0 then 0 else slots - 1
  }

  predicate Full<T>(slots: nat, s: seq<T>) {
    slots > 0 && |s| == slots - 1
  }

  /** The contents after one item is pushed: the oldest item makes room. */
  function Push<T>(slots: nat, s: seq<T>, item: T): seq<T> {
    LastN(s + [item], Capacity(slots))
  }

  ghost function PushAll<T>(slots: nat, s: seq<T>, items: seq<T>): seq<T>
    decreases |items|
  {
    if items == [] then s else Push(slots, PushAll(slots, s, items[..|items| - 1]), items[|items| - 1])
  }

  /** How many of the pushes found the queue full. */
  ghost function Overruns<T>(slots: nat, s: seq<T>, items: seq<T>): nat
    decreases |items|
  {
    if items == [] then 0
    else
      var front := items[..|items| - 1];
      Overruns(slots, s, front) + if Full(slots, PushAll(slots, s, front)) then 1 else 0
  }

  /** Any number of pushes keeps a window: the last `Capacity(slots)` items ever held. */
  lemma {:induction false} PushAllIsWindow<T>(slots: nat, s: seq<T>, items: seq<T>)
    requires |s| <= Capacity(slots)
    ensures PushAll(slots, s, items) == LastN(s + items, Capacity(slots))
    decreases |items|
  {
    if items == [] {
      assert s + items == s;
    } else {
      var front, last := items[..|items| - 1], items[|items| - 1];
      PushAllIsWindow(slots, s, front);
      assert s + items == (s + front) + [last];
      LastNAbsorbs(s + front, last, Capacity(slots));
    }
  }

  /** What stays when `retired` has gone and `kept` fills the room, or nothing has gone yet. */
  lemma LastNKeeps<T>(retired: seq<T>, kept: seq<T>, n: nat)
    requires |kept| <= n && (retired == [] || |kept| == n)
    ensures LastN(retired + kept, n) == kept
  {
  }

  /** Forgetting early does not change which items are kept later. */
  lemma LastNAbsorbs<T>(s: seq<T>, item: T, n: nat)
    ensures LastN(LastN(s, n) + [item], n) == LastN(s + [item], n)
  {
    var kept := LastN(s, n);
    assert s + [item] == s[..|s| - |kept|] + (kept + [item]);
  }

  /** An enabled queue accounts for every item: pushed is kept plus overrun. */
  lemma {:induction false} PushAllConserves<T>(slots: nat, s: seq<T>, items: seq<T>)
    requires slots > 0 && |s| <= Capacity(slots)
    ensures |s| + |items| == |PushAll(slots, s, items)| + Overruns(slots, s, items)
    decreases |items|
  {
    if items == [] {
    } else {
      var front := items[..|items| - 1];
      PushAllConserves(slots, s, front);
      PushAllIsWindow(slots, s, front);
    }
  }
}
