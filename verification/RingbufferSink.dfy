/** The ring-buffer sink of include/spdlog/sinks/ringbuffer_sink.h. */
module Ringbuffer {
  import opened Arithmetic
  import opened BoundedSeq
  import opened Circular

  /** What a reader with limit `lim` sees after `logged` went into a buffer of `capacity`: the last
      min(lim, |logged|, capacity) messages, where a limit of 0 is no limit. */
  ghost function Window<T>(logged: seq<T>, capacity: nat, lim: nat): seq<T> {
    LastN(logged, if lim == 0 || capacity < lim then capacity else lim)
  }

  /** The window is a suffix of what was logged, of exactly the promised length. */
  lemma WindowIsLatest<T>(logged: seq<T>, capacity: nat, lim: nat)
    ensures var w := Window(logged, capacity, lim);
            && |w| <= |logged| && logged == logged[..|logged| - |w|] + w
            && |w| <= capacity && (lim > 0 ==> |w| <= lim)
            && (|w| == |logged| || |w| == capacity || |w| == lim > 0)
  {
  }

  /** The last items of what is held are the window. */
  lemma HeldWindow<T>(logged: seq<T>, held: seq<T>, capacity: nat, lim: nat, n: nat)
    requires held == LastN(logged, capacity) && n == if lim > 0 && lim < |held| then lim else |held|
    ensures held[|held| - n..] == Window(logged, capacity, lim)
  {
  }

  class RingbufferSink<T(0)> {
    const q: CircularQ<T>
    /** Every message sunk so far. */
    ghost var logged: seq<T>

    ghost predicate Valid()
      reads this, q, q.v
    {
      q.Valid() && q.contents == LastN(logged, Capacity(q.maxItems))
    }

    constructor (nItems: nat)
      requires nItems < SIZE_VALUES
      ensures Valid() && logged == [] && q.maxItems == SlotsFor(nItems) && fresh(q) && fresh(q.v)
    {
      q := new CircularQ<T>(nItems);
      logged := [];
    }

    method SinkIt(msg: T)
      requires Valid()
      modifies this, q, q.v
      ensures Valid() && logged == old(logged) + [msg]
      ensures q.maxItems == old(q.maxItems) && q.v == old(q.v)
    {
      LastNAbsorbs(logged, msg, Capacity(q.maxItems));
      q.PushBack(msg);
      logged := logged + [msg];
    }

    method LastRaw(lim: nat) returns (ret: seq<T>)
      requires Valid()
      ensures ret == Window(logged, Capacity(q.maxItems), lim)
    {
      var itemsAvailable := q.Size();
      var nItems := if lim > 0 && lim < itemsAvailable then lim else itemsAvailable;
      HeldWindow(logged, q.contents, Capacity(q.maxItems), lim, nItems);
      hide *;
      ghost var w := q.contents[itemsAvailable - nItems..];
      ret := [];
      var i := itemsAvailable - nItems;
      while i < itemsAvailable
        invariant itemsAvailable - nItems <= i <= itemsAvailable
        invariant |ret| == i - (itemsAvailable - nItems)
        invariant forall k :: 0 <= k < |ret| ==> ret[k] == w[k]
      {
        var item := q.At(i);
        assert item == w[|ret|];
        ret := ret + [item];
        i := i + 1;
      }
      assert ret == w;
    }

    method LastFormatted(format: T -> string, lim: nat) returns (ret: seq<string>)
      requires Valid()
      ensures var w := Window(logged, Capacity(q.maxItems), lim);
              |ret| == |w| && forall k :: 0 <= k < |w| ==> ret[k] == format(w[k])
    {
      var itemsAvailable := q.Size();
      var nItems := if lim > 0 && lim < itemsAvailable then lim else itemsAvailable;
      HeldWindow(logged, q.contents, Capacity(q.maxItems), lim, nItems);
      hide *;
      ghost var w := q.contents[itemsAvailable - nItems..];
      ret := [];
      var i := itemsAvailable - nItems;
      while i < itemsAvailable
        invariant itemsAvailable - nItems <= i <= itemsAvailable
        invariant |ret| == i - (itemsAvailable - nItems)
        invariant forall k :: 0 <= k < |ret| ==> ret[k] == format(w[k])
      {
        var item := q.At(i);
        assert item == w[|ret|];
        ret := ret + [format(item)];
        i := i + 1;
      }
    }
  }
}
