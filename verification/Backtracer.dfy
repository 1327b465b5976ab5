/** The backtracer of include/spdlog/details/backtracer-inl.h. */
module Backtrace {
  import opened Arithmetic
  import opened BoundedSeq
  import opened Circular

  class Backtracer<T(0)> {
    var enabled: bool
    const messages: CircularQ<T>
    /** The messages pushed since the buffer was last replaced or drained. */
    ghost var pushed: seq<T>

    ghost predicate Valid()
      reads this, messages, messages.v
    {
      messages.Valid() && messages.contents == LastN(pushed, Capacity(messages.maxItems))
    }

    /** A backtracer that was never enabled holds a disabled queue. */
    constructor ()
      ensures Valid() && !enabled && pushed == [] && messages.maxItems == 0
      ensures fresh(messages) && fresh(messages.v)
    {
      enabled := false;
      messages := new CircularQ<T>.Disabled();
      pushed := [];
    }

    /** Forgets what was held and starts over with room for `size` messages. */
    method Enable(size: nat)
      requires Valid() && size < SIZE_VALUES
      modifies this, messages
      ensures Valid() && enabled && pushed == [] && messages.maxItems == SlotsFor(size)
      ensures fresh(messages.v)
    {
      enabled := true;
      var q := new CircularQ<T>(size);
      messages.CopyMoveable(q);
      pushed := [];
    }

    /** Stops tracing; what was held stays. */
    method Disable()
      requires Valid()
      modifies this`enabled
      ensures Valid() && !enabled
    {
      enabled := false;
    }

    method PushBack(msg: T)
      requires Valid()
      modifies this`pushed, messages, messages.v
      ensures Valid() && pushed == old(pushed) + [msg]
      ensures messages.maxItems == old(messages.maxItems) && messages.v == old(messages.v)
    {
      LastNAbsorbs(pushed, msg, Capacity(messages.maxItems));
      messages.PushBack(msg);
      pushed := pushed + [msg];
    }

    /** Hands every held message to the callback, oldest first; `visited` is what the callback saw. */
    method ForeachPop() returns (visited: seq<T>)
      requires Valid()
      modifies this`pushed, messages`head, messages`contents
      ensures Valid() && pushed == [] && messages.contents == []
      ensures visited == LastN(old(pushed), Capacity(messages.maxItems))
    {
      ghost var held, k := messages.contents, 0;
      visited := [];
      var empty := messages.Empty();
      while !empty
        invariant messages.Valid() && messages.v == old(messages.v)
        invariant k <= |held| && visited == held[..k] && messages.contents == held[k..]
        invariant empty <==> messages.contents == []
        decreases |held| - k
      {
        var front := messages.Front();
        visited := visited + [front];
        assert held[k..][1..] == held[k + 1..] && held[..k + 1] == held[..k] + [held[k]];
        messages.PopFront();
        k := k + 1;
        empty := messages.Empty();
      }
      pushed := [];
    }
  }
}
