/** The blocking queue of include/spdlog/details/mpmc_blocking_q.h over the circular queue. Each method is
    the critical section of an operation; waiting is the caller's business. */
module BlockingQueue {
  import opened Arithmetic
  import opened BoundedSeq
  import opened Circular
  import opened QueueLog

  class MpmcBlockingQueue<T(0)> {
    const q: CircularQ<T>
    /** What has happened to the queue. */
    ghost var log: Log<T>

    ghost predicate Valid()
      reads this, q, q.v
    {
      && q.Valid()
      && log.slots == q.maxItems
      && log.items == q.contents
      && (log.slots > 0 ==> Conserved(log))
      && |log.dropped| == q.overrunCounter
    }

    constructor (maxItems: nat)
      requires maxItems < SIZE_VALUES
      ensures Valid() && log == Empty(SlotsFor(maxItems)) && fresh(q) && fresh(q.v)
    {
      q := new CircularQ<T>(maxItems);
      log := Empty(SlotsFor(maxItems));
    }

    /** One look of a blocking producer: it is done when there was room, and waits on otherwise. */
    method Enqueue(item: T) returns (done: bool)
      requires Valid()
      modifies this`log, q, q.v
      ensures Valid() && q.v == old(q.v)
      ensures log == Step(old(log), QueueLog.Enqueue(item))
      ensures done <==> !(log.slots > 0 && |old(log.items)| == log.slots - 1)
      ensures log.taken == old(log.taken) && log.dropped == old(log.dropped)
      ensures log.accepted == if done then old(log.accepted) + [item] else old(log.accepted)
      ensures log.items == if done && log.slots > 0 then old(log.items) + [item] else old(log.items)
    {
      var full := q.IsFull();
      done := !full;
      if done {
        if log.slots > 0 {
          PushConserves(log, item);
        }
        q.PushBack(item);
        log := PushLog(log, item);
      }
    }

    method EnqueueNowait(item: T)
      requires Valid()
      modifies this`log, q, q.v
      ensures Valid() && q.v == old(q.v)
      ensures log == Step(old(log), QueueLog.EnqueueNowait(item))
      ensures log.accepted == old(log.accepted) + [item] && log.taken == old(log.taken)
      ensures log.slots >= 2 ==> log.items != [] && log.items[|log.items| - 1] == item
      ensures log.slots > 0 && |old(log.items)| < log.slots - 1 ==>
                log.items == old(log.items) + [item] && log.dropped == old(log.dropped)
      ensures log.slots >= 2 && |old(log.items)| == log.slots - 1 ==>
                log.items == old(log.items)[1..] + [item] && log.dropped == old(log.dropped) + [old(log.items)[0]]
      ensures log.slots <= 1 ==> log.items == []
    {
      if log.slots > 0 {
        PushConserves(log, item);
      }
      SizeFits();
      PushMeans(log, item);
      q.PushBack(item);
      log := PushLog(log, item);
    }

    lemma SizeFits()
      requires Valid()
      ensures log.slots > 0 ==> |log.items| < log.slots
      ensures log.slots == 0 ==> log.items == []
    {
    }

    /** The look a consumer takes when it stops waiting, by a wakeup or by the timeout. */
    method DequeueFor(unset: T) returns (dequeued: bool, poppedItem: T)
      requires Valid()
      modifies this`log, q`head, q`contents
      ensures Valid()
      ensures log == Step(old(log), Dequeue)
      ensures dequeued <==> old(log.items) != []
      ensures poppedItem == if dequeued then old(log.items)[0] else unset
      ensures log.accepted == old(log.accepted) && log.dropped == old(log.dropped)
      ensures dequeued ==> log.items == old(log.items)[1..] && log.taken == old(log.taken) + [poppedItem]
      ensures !dequeued ==> log == old(log)
    {
      poppedItem := unset;
      var empty := q.Empty();
      dequeued := !empty;
      if dequeued {
        if log.slots > 0 {
          PopConserves(log);
        }
        poppedItem := q.Front();
        q.PopFront();
        log := PopLog(log);
      }
    }

    /** The counter is the number of items lost, and the size what is left of the accepted ones. */
    method Counters() returns (overrun: nat, size: nat)
      requires Valid()
      ensures overrun == |log.dropped| && size == |log.items|
      ensures log.slots > 0 ==> |log.accepted| == |log.taken| + size + overrun
    {
      overrun := q.overrunCounter;
      size := q.Size();
      if log.slots > 0 {
        InterleavesCounts(log.taken, log.dropped, log.accepted[..|log.accepted| - |log.items|]);
      }
    }
  }
}
