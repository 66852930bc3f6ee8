/** The bounded slot pool of individual pipeline execution: a linked queue of waiters that
    receives slots first come, first served. */
module SlotPool {
  import opened Wrappers

  /** The pool as a value: slots in use, and the tasks waiting for one, oldest first. */
  datatype Pool = Pool(active: nat, waiting: seq<nat>)
  {
    /** A task asks for a slot: it gets one, or joins the end of the queue. */
    function Enter(limit: nat, task: nat): Pool {
      if active >= limit then this.(waiting := waiting + [task]) else this.(active := active + 1)
    }

    /** A task gives its slot back: to the oldest waiter, or to nobody. */
    function Leave(): Pool
      requires active > 0
    {
      if waiting == [] then this.(active := active - 1) else this.(waiting := waiting[1..])
    }

    predicate Valid(limit: nat) {
      && active <= limit
      && (waiting != [] ==> active == limit)
    }
  }

  class SlotWaiter {
    const task: nat
    var next: SlotWaiter?

    constructor (task: nat)
      ensures this.task == task && next == null
    {
      this.task := task;
      next := null;
    }
  }

  ghost function Tasks(waiters: seq<SlotWaiter>): (tasks: seq<nat>)
    ensures |tasks| == |waiters|
    ensures forall i | 0 <= i < |waiters| :: tasks[i] == waiters[i].task
  {
    seq(|waiters|, i requires 0 <= i < |waiters| => waiters[i].task)
  }

  class AsyncSlotPool {
    const limit: nat
    var active: nat
    var waiterHead: SlotWaiter?
    var waiterTail: SlotWaiter?
    ghost var waiters: seq<SlotWaiter>

    /** The linked list from head to tail is the sequence of waiters. */
    ghost predicate Valid()
      reads this, waiters
    {
      && (forall i, j | 0 <= i < j < |waiters| :: waiters[i] != waiters[j])
      && (forall i | 0 <= i < |waiters| - 1 :: waiters[i].next == waiters[i + 1])
      && (if waiters == [] then waiterHead == null && waiterTail == null
          else waiterHead == waiters[0] && waiterTail == waiters[|waiters| - 1] && waiterTail.next == null)
      && Model().Valid(limit)
    }

    ghost function Model(): Pool
      reads this
    {
      Pool(active, Tasks(waiters))
    }

    constructor (limit: nat)
      ensures Valid() && this.limit == limit && Model() == Pool(0, []) && waiters == []
    {
      this.limit := limit;
      active := 0;
      waiterHead, waiterTail := null, null;
      waiters := [];
    }

    /** The synchronous part of `run` before the operation: take a slot or queue for one. */
    method Enter(task: nat) returns (entered: bool)
      requires Valid()
      modifies this, waiters
      ensures Valid() && fresh(set w | w in waiters && w !in old(waiters))
      ensures Model() == old(Model()).Enter(limit, task)
      ensures entered <==> old(active) < limit
    {
      if active >= limit {
        var waiter := new SlotWaiter(task);
        if waiterTail == null {
          waiterHead := waiter;
        } else {
          waiterTail.next := waiter;
        }
        waiterTail := waiter;
        waiters := waiters + [waiter];
        entered := false;
      } else {
        active := active + 1;
        entered := true;
      }
    }

    /** The `finally` part of `run`: hand the slot to the oldest waiter, or free it. */
    method Leave() returns (resumed: Option<nat>)
      requires Valid() && active > 0
      modifies this
      ensures Valid() && forall w | w in waiters :: w in old(waiters)
      ensures Model() == old(Model()).Leave()
      ensures resumed == if old(Model()).waiting == [] then None else Some(old(Model()).waiting[0])
    {
      var waiter := waiterHead;
      if waiter == null {
        active := active - 1;
        resumed := None;
      } else {
        waiterHead := waiter.next;
        if waiterHead == null { waiterTail := null; }
        waiters := waiters[1..];
        resumed := Some(waiter.task);
      }
    }
  }
}
