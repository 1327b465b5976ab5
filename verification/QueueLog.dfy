/** The blocking queue as a history: what was accepted, handed out, overrun, and what is still held.
    Every operation of the queue runs under one mutex, so an interleaving of threads is a sequence of these
    critical sections. */
module QueueLog {
  import opened BoundedSeq
  import opened SeqFacts

  datatype Log<T> = Log(slots: nat, items: seq<T>, accepted: seq<T>, taken: seq<T>, dropped: seq<T>)

  /** One critical section. A blocked enqueue and a timed-out dequeue leave the queue as it was. */
  datatype Op<T> = Enqueue(item: T) | EnqueueNowait(item: T) | Dequeue

  function Empty<T>(slots: nat): Log<T> {
    Log(slots, [], [], [], [])
  }

  function PushLog<T>(l: Log<T>, item: T): Log<T> {
    l.(items := Push(l.slots, l.items, item),
       accepted := l.accepted + [item],
       dropped := if Full(l.slots, l.items) then l.dropped + [(l.items + [item])[0]] else l.dropped)
  }

  function PopLog<T>(l: Log<T>): Log<T>
    requires l.items != []
  {
    l.(items := l.items[1..], taken := l.taken + [l.items[0]])
  }

  function Step<T>(l: Log<T>, op: Op<T>): Log<T> {
    match op
    case Enqueue(item) => if Full(l.slots, l.items) then l else PushLog(l, item)
    case EnqueueNowait(item) => PushLog(l, item)
    case Dequeue => if l.items == [] then l else PopLog(l)
  }

  ghost function Run<T>(slots: nat, ops: seq<Op<T>>): Log<T>
    decreases |ops|
  {
    if ops == [] then Empty(slots) else Step(Run(slots, ops[..|ops| - 1]), ops[|ops| - 1])
  }

  /** A push is accepted whatever happens; with room it is the last item, without room the oldest item goes, and a
      queue for no items keeps none. */
  lemma PushMeans<T>(l: Log<T>, item: T)
    requires l.slots > 0 ==> |l.items| < l.slots
    requires l.slots == 0 ==> l.items == []
    ensures var m := PushLog(l, item);
            && m.slots == l.slots && m.accepted == l.accepted + [item] && m.taken == l.taken
            && (l.slots > 0 && |l.items| < l.slots - 1 ==> m.items == l.items + [item] && m.dropped == l.dropped)
            && (l.slots >= 2 && |l.items| == l.slots - 1 ==>
                  m.items == l.items[1..] + [item] && m.dropped == l.dropped + [l.items[0]])
            && (l.slots == 1 ==> m.items == [] && m.dropped == l.dropped + [item])
            && (l.slots == 0 ==> m.items == [] && m.dropped == l.dropped)
  {
    var all := l.items + [item];
    if l.items != [] {
      assert all[0] == l.items[0] && all[1..] == l.items[1..] + [item];
    }
  }

  /** `c` is `a` and `b` interleaved: each in its own order, nothing added, nothing lost. */
  ghost predicate Interleaves<T>(a: seq<T>, b: seq<T>, c: seq<T>)
    decreases |c|
  {
    if c == [] then a == [] && b == []
    else
      var front, last := c[..|c| - 1], c[|c| - 1];
      || (a != [] && a[|a| - 1] == last && Interleaves(a[..|a| - 1], b, front))
      || (b != [] && b[|b| - 1] == last && Interleaves(a, b[..|b| - 1], front))
  }

  /** `a` arises from `c` by leaving items out. */
  ghost predicate Subsequence<T(!new)>(a: seq<T>, c: seq<T>) {
    exists left: seq<T> :: Interleaves(a, left, c)
  }

  lemma InterleavesGrows<T>(a: seq<T>, b: seq<T>, c: seq<T>, item: T)
    requires Interleaves(a, b, c)
    ensures Interleaves(a + [item], b, c + [item])
    ensures Interleaves(a, b + [item], c + [item])
  {
    assert (c + [item])[..|c|] == c && (a + [item])[..|a|] == a && (b + [item])[..|b|] == b;
  }

  lemma {:induction false} InterleavesCounts<T>(a: seq<T>, b: seq<T>, c: seq<T>)
    requires Interleaves(a, b, c)
    ensures |a| + |b| == |c| && multiset(a) + multiset(b) == multiset(c)
    ensures b == [] ==> a == c
    decreases |c|
  {
    if c == [] {
    } else {
      var front := c[..|c| - 1];
      assert c == front + [c[|c| - 1]];
      if a != [] && a[|a| - 1] == c[|c| - 1] && Interleaves(a[..|a| - 1], b, front) {
        assert a == a[..|a| - 1] + [a[|a| - 1]];
        InterleavesCounts(a[..|a| - 1], b, front);
      } else {
        assert b == b[..|b| - 1] + [b[|b| - 1]];
        InterleavesCounts(a, b[..|b| - 1], front);
      }
    }
  }

  /** The items held are the last ones accepted; those before them were handed out or overrun. */
  ghost predicate Conserved<T>(l: Log<T>) {
    && l.slots > 0
    && |l.items| < l.slots
    && |l.items| <= |l.accepted|
    && l.accepted[|l.accepted| - |l.items|..] == l.items
    && Interleaves(l.taken, l.dropped, l.accepted[..|l.accepted| - |l.items|])
  }

  lemma PushConserves<T>(l: Log<T>, item: T)
    requires Conserved(l)
    ensures Conserved(PushLog(l, item))
  {
    var l' := PushLog(l, item);
    var gone := l.accepted[..|l.accepted| - |l.items|];
    assert l.accepted == gone + l.items;
    ConcatAssociates(gone, l.items, [item]);
    if Full(l.slots, l.items) {
      var all := l.items + [item];
      InterleavesGrows(l.taken, l.dropped, gone, all[0]);
      assert all == [all[0]] + l'.items;
      ConcatAssociates(gone, [all[0]], l'.items);
      PartsOf(gone + [all[0]], l'.items);
    } else {
      PartsOf(gone, l'.items);
    }
  }

  lemma PartsOf<T>(a: seq<T>, b: seq<T>)
    ensures var c := a + b; c[|c| - |b|..] == b && c[..|c| - |b|] == a
  {
  }

  lemma PopConserves<T>(l: Log<T>)
    requires Conserved(l) && l.items != []
    ensures Conserved(PopLog(l))
  {
    var l' := PopLog(l);
    var gone := l.accepted[..|l.accepted| - |l.items|];
    InterleavesGrows(l.taken, l.dropped, gone, l.items[0]);
    assert l.accepted == gone + l.items;
    assert l'.accepted[..|l'.accepted| - |l'.items|] == gone + [l.items[0]];
  }

  lemma {:induction false} RunConserves<T>(slots: nat, ops: seq<Op<T>>)
    requires slots > 0
    ensures Conserved(Run(slots, ops)) && Run(slots, ops).slots == slots
    decreases |ops|
  {
    if ops == [] {
    } else {
      RunConserves(slots, ops[..|ops| - 1]);
      var l, op := Run(slots, ops[..|ops| - 1]), ops[|ops| - 1];
      if op.Dequeue? {
        if l.items != [] {
          PopConserves(l);
        }
      } else {
        PushConserves(l, op.item);
      }
    }
  }

  lemma ConservedInOrder<T(!new)>(l: Log<T>)
    requires Conserved(l)
    ensures Subsequence(l.taken, l.accepted)
    ensures |l.accepted| == |l.taken| + |l.items| + |l.dropped|
  {
    var gone := l.accepted[..|l.accepted| - |l.items|];
    InterleavesCounts(l.taken, l.dropped, gone);
    InterleavesWithTail(l.taken, l.dropped, gone, l.items);
    assert gone + l.items == l.accepted;
  }

  /** The items come out in the order they went in, and every one is handed out, held or overrun, once. */
  ghost predicate Balanced<T(!new)>(l: Log<T>) {
    && Subsequence(l.taken, l.accepted)
    && multiset(l.accepted) == multiset(l.taken) + multiset(l.items) + multiset(l.dropped)
    && |l.accepted| == |l.taken| + |l.items| + |l.dropped|
  }

  /** Over every interleaving: the items come out in the order they went in, with none invented; and the
      counts balance. */
  lemma QueueConserves<T(!new)>(slots: nat, ops: seq<Op<T>>)
    requires slots > 0
    ensures Balanced(Run(slots, ops))
  {
    var l := Run(slots, ops);
    RunConserves(slots, ops);
    ConservedInOrder(l);
    ConservedAsBags(l);
  }

  lemma ConservedAsBags<T>(l: Log<T>)
    requires Conserved(l)
    ensures multiset(l.accepted) == multiset(l.taken) + multiset(l.items) + multiset(l.dropped)
  {
    var gone := l.accepted[..|l.accepted| - |l.items|];
    assert l.accepted == gone + l.items;
    InterleavesCounts(l.taken, l.dropped, gone);
  }

  lemma {:induction false} InterleavesWithTail<T>(a: seq<T>, b: seq<T>, c: seq<T>, tail: seq<T>)
    requires Interleaves(a, b, c)
    ensures Interleaves(a, b + tail, c + tail)
    decreases |tail|
  {
    if tail == [] {
      assert b + tail == b && c + tail == c;
    } else {
      var front, last := tail[..|tail| - 1], tail[|tail| - 1];
      InterleavesWithTail(a, b, c, front);
      InterleavesGrows(a, b + front, c + front, last);
      assert b + tail == (b + front) + [last] && c + tail == (c + front) + [last];
    }
  }

  /** Without the overrunning enqueue nothing is lost: what was accepted is what came out, in order, and
      then what is held. */
  lemma BlockingNeverDrops<T>(slots: nat, ops: seq<Op<T>>)
    requires slots > 0 && forall k :: 0 <= k < |ops| ==> !ops[k].EnqueueNowait?
    ensures var l := Run(slots, ops); l.dropped == [] && l.accepted == l.taken + l.items
  {
    RunConserves(slots, ops);
    NothingDropped(slots, ops);
    NoneDroppedNoneMissing(Run(slots, ops));
  }

  lemma NoneDroppedNoneMissing<T>(l: Log<T>)
    requires Conserved(l) && l.dropped == []
    ensures l.accepted == l.taken + l.items
  {
    var gone := l.accepted[..|l.accepted| - |l.items|];
    InterleavesCounts(l.taken, l.dropped, gone);
    assert l.accepted == gone + l.items;
  }

  lemma {:induction false} NothingDropped<T>(slots: nat, ops: seq<Op<T>>)
    requires forall k :: 0 <= k < |ops| ==> !ops[k].EnqueueNowait?
    ensures Run(slots, ops).dropped == []
    decreases |ops|
  {
    if ops == [] {
    } else {
      NothingDropped(slots, ops[..|ops| - 1]);
    }
  }

  /** A disabled queue keeps the balance only as long as nothing was ever sent to it. */
  lemma {:induction false} DisabledLosesEverything<T>(ops: seq<Op<T>>)
    ensures var l := Run(0, ops);
            && l.slots == 0 && l.taken == l.items == l.dropped == []
            && (|l.accepted| == |l.taken| + |l.items| + |l.dropped| <==>
                forall k :: 0 <= k < |ops| ==> ops[k].Dequeue?)
    decreases |ops|
  {
    if ops == [] {
    } else {
      var front := ops[..|ops| - 1];
      DisabledLosesEverything(front);
      assert forall k :: 0 <= k < |front| ==> ops[k] == front[k];
      if !ops[|ops| - 1].Dequeue? {
        assert Run(0, ops).accepted == Run(0, front).accepted + [ops[|ops| - 1].item];
      } else {
        assert Run(0, ops) == Run(0, front);
      }
    }
  }
}
