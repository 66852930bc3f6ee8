/** The flow-control object as it updates its counters, its lane queues and its ready set; each
    method is proved to do what the operation of the same name does to the model. */
module FlowControl {
  import opened Wrappers
  import M = FlowControlModel

  const WAITER_COMPACTION_THRESHOLD := 1024

  /** A lane queue: consumed slots before `head`, then waiters, settled ones still among them. */
  datatype LaneQueue = LaneQueue(head: nat, waiting: nat, waiters: seq<nat>)

  type Settled = map<nat, M.Outcome>

  /** The waiters that are not settled, in order. */
  function Live(waiters: seq<nat>, settled: Settled): (r: seq<nat>)
    ensures |r| <= |waiters|
  {
    if waiters == [] then []
    else if waiters[0] in settled then Live(waiters[1..], settled)
    else [waiters[0]] + Live(waiters[1..], settled)
  }

  lemma {:induction false} LiveMembers(waiters: seq<nat>, settled: Settled, w: nat)
    ensures w in Live(waiters, settled) <==> w in waiters && w !in settled
  {
    if waiters != [] {
      LiveMembers(waiters[1..], settled, w);
      assert w in waiters <==> w == waiters[0] || w in waiters[1..];
    }
  }

  function LiveOf(q: LaneQueue, settled: Settled): seq<nat>
    requires q.head <= |q.waiters|
  {
    Live(q.waiters[q.head..], settled)
  }

  /** A queue whose counter is right. */
  predicate Counted(q: LaneQueue, settled: Settled) {
    q.head <= |q.waiters| && q.waiting == |LiveOf(q, settled)|
  }

  /** A queue that compaction has no reason to touch. */
  predicate Compact(q: LaneQueue) {
    && q.head <= |q.waiters|
    && (q.head < WAITER_COMPACTION_THRESHOLD || q.head * 2 < |q.waiters|)
    && var remaining := |q.waiters| - q.head;
       var tombstones := remaining - q.waiting;
       tombstones < WAITER_COMPACTION_THRESHOLD || tombstones * 2 < remaining
  }

  /** A compact queue stores less than four slots for each live waiter, or 4096 in all. */
  lemma CompactIsSmall(q: LaneQueue)
    requires Compact(q)
    ensures |q.waiters| < 4 * (if q.waiting > WAITER_COMPACTION_THRESHOLD then q.waiting else WAITER_COMPACTION_THRESHOLD)
  {
  }

  lemma {:induction false} LiveConcat(a: seq<nat>, b: seq<nat>, settled: Settled)
    ensures Live(a + b, settled) == Live(a, settled) + Live(b, settled)
  {
    if a == [] {
      assert a + b == b;
    } else {
      assert (a + b)[1..] == a[1..] + b;
      LiveConcat(a[1..], b, settled);
    }
  }

  lemma {:induction false} LiveAfterSettling(waiters: seq<nat>, settled: Settled, w: nat, o: M.Outcome)
    requires w !in settled
    ensures Live(waiters, settled[w := o]) == M.Without(Live(waiters, settled), w)
  {
    if waiters != [] { LiveAfterSettling(waiters[1..], settled, w, o); }
  }

  lemma {:induction false} WithoutAbsent(q: seq<nat>, w: nat)
    requires w !in q
    ensures M.Without(q, w) == q
  {
    if q != [] { WithoutAbsent(q[1..], w); }
  }

  lemma {:induction false} WithoutOne(q: seq<nat>, w: nat)
    requires w in q && M.InOrder(q)
    ensures |M.Without(q, w)| == |q| - 1
  {
    if q[0] == w {
      WithoutAbsent(q[1..], w);
    } else {
      WithoutOne(q[1..], w);
    }
  }

  /** Advance past settled waiters and take the first that is not. */
  method TakeWaiter(q: LaneQueue, settled: Settled) returns (w: nat, rest: LaneQueue)
    requires q.head <= |q.waiters| && LiveOf(q, settled) != []
    ensures w == LiveOf(q, settled)[0]
    ensures rest == q.(head := rest.head) && rest.head <= |q.waiters|
    ensures LiveOf(rest, settled) == LiveOf(q, settled)[1..]
  {
    rest := q;
    while true
      invariant rest == q.(head := rest.head) && rest.head <= |q.waiters|
      invariant LiveOf(rest, settled) == LiveOf(q, settled)
      decreases |q.waiters| - rest.head
    {
      assert rest.head < |q.waiters|;
      w := rest.waiters[rest.head];
      assert q.waiters[rest.head..][1..] == q.waiters[rest.head + 1..];
      rest := rest.(head := rest.head + 1);
      if w !in settled { return; }
    }
  }

  /** Drop consumed slots and tombstones when there are many; the live waiters keep their order. */
  method CompactWaiters(q: LaneQueue, settled: Settled) returns (r: LaneQueue)
    requires Counted(q, settled)
    ensures Counted(r, settled) && LiveOf(r, settled) == LiveOf(q, settled) && r.waiting == q.waiting
    ensures Compact(r)
  {
    var remainingSlots := |q.waiters| - q.head;
    var tombstones := remainingSlots - q.waiting;
    var compactConsumed := q.head >= WAITER_COMPACTION_THRESHOLD && q.head * 2 >= |q.waiters|;
    var compactTombstones := tombstones >= WAITER_COMPACTION_THRESHOLD && tombstones * 2 >= remainingSlots;
    if !compactConsumed && !compactTombstones { return q; }
    var waiters := MoveLiveToFront(q.waiters, q.head, settled);
    r := LaneQueue(0, q.waiting, waiters);
    LiveIsLive(q.waiters[q.head..], settled);
    assert r.waiters[0..] == waiters;
  }

  method MoveLiveToFront(slots: seq<nat>, head: nat, settled: Settled) returns (waiters: seq<nat>)
    requires head <= |slots|
    ensures waiters == Live(slots[head..], settled)
  {
    waiters := slots;
    var writeIndex := 0;
    ghost var live: seq<nat> := [];
    for index := head to |slots|
      invariant |waiters| == |slots| && writeIndex == |live| <= index
      invariant forall i | index <= i < |slots| :: waiters[i] == slots[i]
      invariant forall i | 0 <= i < writeIndex :: waiters[i] == live[i]
      invariant live == Live(slots[head..index], settled)
    {
      LiveOneMore(slots, head, index, settled);
      if waiters[index] !in settled {
        waiters := waiters[writeIndex := waiters[index]];
        writeIndex, live := writeIndex + 1, live + [slots[index]];
      }
    }
    assert slots[head..|slots|] == slots[head..];
    waiters := waiters[..writeIndex];
  }

  lemma {:induction false} LiveOneMore(waiters: seq<nat>, head: nat, index: nat, settled: Settled)
    requires head <= index < |waiters|
    ensures Live(waiters[head..index + 1], settled)
            == Live(waiters[head..index], settled) + if waiters[index] in settled then [] else [waiters[index]]
  {
    assert waiters[head..index + 1] == waiters[head..index] + [waiters[index]];
    LiveConcat(waiters[head..index], [waiters[index]], settled);
  }

  lemma {:induction false} LiveIsLive(waiters: seq<nat>, settled: Settled)
    ensures Live(Live(waiters, settled), settled) == Live(waiters, settled)
  {
    if waiters != [] {
      LiveIsLive(waiters[1..], settled);
      if waiters[0] !in settled {
        assert Live(waiters, settled)[1..] == Live(waiters[1..], settled);
      }
    }
  }

  predicate HeadsOk(queues: map<int, LaneQueue>) {
    forall lane | lane in queues :: queues[lane].head <= |queues[lane].waiters|
  }

  function QueuesOf(queues: map<int, LaneQueue>, settled: Settled): map<int, seq<nat>>
    requires HeadsOk(queues)
  {
    map lane | lane in queues :: LiveOf(queues[lane], settled)
  }

  ghost predicate AllCounted(queues: map<int, LaneQueue>, settled: Settled) {
    forall lane | lane in queues :: Counted(queues[lane], settled) && Compact(queues[lane])
  }

  /** The counters of credits in use. */
  ghost predicate CreditsCounted(activeTotal: nat, activeByLane: map<int, nat>, active: multiset<int>) {
    && activeTotal == |active|
    && (forall lane :: lane in activeByLane <==> lane in active)
    && (forall lane | lane in activeByLane :: activeByLane[lane] == active[lane])
  }

  /** The number of waiters that are not settled. */
  ghost predicate WaitersCounted(queuedTotal: nat, issued: nat, settled: Settled) {
    queuedTotal == |Unsettled(issued, settled)|
  }

  /** Replacing one lane queue. */
  lemma QueueReplaced(queues: map<int, LaneQueue>, settled: Settled, lane: int, q: LaneQueue)
    requires AllCounted(queues, settled) && Counted(q, settled) && Compact(q)
    ensures AllCounted(queues[lane := q], settled)
    ensures QueuesOf(queues[lane := q], settled) == QueuesOf(queues, settled)[lane := LiveOf(q, settled)]
  {
  }

  /** Settling a waiter of one lane changes no other lane. */
  lemma {:induction false} OthersUnaffected(queues: map<int, LaneQueue>, settled: Settled, lane: int, w: nat, o: M.Outcome)
    requires AllCounted(queues, settled) && M.Queued(QueuesOf(queues, settled), lane, w) && w !in settled
    requires forall m | M.Queued(QueuesOf(queues, settled), m, w) :: m == lane
    ensures AllCounted(queues - {lane}, settled[w := o])
    ensures QueuesOf(queues - {lane}, settled[w := o]) == QueuesOf(queues, settled) - {lane}
  {
    forall m | m in queues && m != lane
      ensures LiveOf(queues[m], settled[w := o]) == LiveOf(queues[m], settled)
    {
      var q := queues[m];
      LiveAfterSettling(q.waiters[q.head..], settled, w, o);
      assert !M.Queued(QueuesOf(queues, settled), m, w);
      WithoutAbsent(LiveOf(q, settled), w);
    }
  }

  /** The lane queue that is left when one of its waiters has been settled. */
  method SettleInLane(queues: map<int, LaneQueue>, settled: Settled, lane: int, w: nat, o: M.Outcome, left: LaneQueue)
    returns (next: map<int, LaneQueue>)
    requires AllCounted(queues, settled) && M.Queued(QueuesOf(queues, settled), lane, w) && w !in settled
    requires forall m | M.Queued(QueuesOf(queues, settled), m, w) :: m == lane
    requires Counted(left, settled[w := o])
    ensures AllCounted(next, settled[w := o])
    ensures QueuesOf(next, settled[w := o])
            == if left.waiting == 0 then QueuesOf(queues, settled) - {lane}
               else QueuesOf(queues, settled)[lane := LiveOf(left, settled[w := o])]
  {
    OthersUnaffected(queues, settled, lane, w, o);
    if left.waiting == 0 {
      next := queues - {lane};
    } else {
      var queue := CompactWaiters(left, settled[w := o]);
      next := queues[lane := queue];
      QueueReplaced(queues - {lane}, settled[w := o], lane, queue);
      assert next == (queues - {lane})[lane := queue];
    }
  }

  class NativeFlowControl {
    const maxQueuedRequests: nat
    var activeTotal: nat
    var activeByLane: map<int, nat>
    var closed: bool
    var connectionLimit: nat
    var laneQueueLimit: nat
    var laneLimit: nat
    var laneWindowLimit: nat
    var queuesByLane: map<int, LaneQueue>
    var readyLanes: seq<int>
    var queuedTotal: nat
    var settled: Settled
    var issued: nat
    ghost var active: multiset<int>

    ghost function Queues(): map<int, seq<nat>>
      reads this
      requires AllCounted(queuesByLane, settled)
    {
      QueuesOf(queuesByLane, settled)
    }

    ghost function Model(): M.Flow
      reads this
      requires AllCounted(queuesByLane, settled)
    {
      M.Flow(closed, connectionLimit, laneQueueLimit, laneWindowLimit, maxQueuedRequests, active, Queues(), readyLanes,
             settled, issued)
    }

    /** Every counter agrees with what it counts. */
    ghost predicate Consistent()
      reads this
    {
      && AllCounted(queuesByLane, settled)
      && CreditsCounted(activeTotal, activeByLane, active)
      && WaitersCounted(queuedTotal, issued, settled)
      && laneLimit == if laneWindowLimit < laneQueueLimit then laneWindowLimit else laneQueueLimit
    }

    ghost predicate Valid()
      reads this
    {
      Consistent() && M.Valid(Model())
    }

    constructor (maxQueuedRequests: nat, maxSafeInteger: nat)
      requires maxSafeInteger >= 1024
      ensures Valid() && M.AtRest(Model())
      ensures Model() == M.Flow(false, 4096, maxSafeInteger, 1024, maxQueuedRequests, multiset{}, map[], [], map[], 0)
    {
      this.maxQueuedRequests := maxQueuedRequests;
      activeTotal, activeByLane, active := 0, map[], multiset{};
      closed := false;
      connectionLimit, laneQueueLimit, laneLimit, laneWindowLimit := 4096, maxSafeInteger, 1024, 1024;
      queuesByLane, readyLanes, queuedTotal := map[], [], 0;
      settled, issued := map[], 0;
    }

    method TryAcquire(laneId: int) returns (acquired: bool)
      requires Valid()
      modifies this`activeTotal, this`activeByLane, this`active
      ensures Valid() && (Model(), acquired) == M.TryAcquire(old(Model()), laneId)
    {
      if closed || activeTotal >= connectionLimit
         || (if laneId in activeByLane then activeByLane[laneId] else 0) >= laneLimit {
        return false;
      }
      Activate(laneId);
      return true;
    }

    method Activate(laneId: int)
      requires CreditsCounted(activeTotal, activeByLane, active)
      modifies this`activeTotal, this`activeByLane, this`active
      ensures CreditsCounted(activeTotal, activeByLane, active) && active == old(active) + multiset{laneId}
    {
      activeTotal := activeTotal + 1;
      activeByLane := activeByLane[laneId := (if laneId in activeByLane then activeByLane[laneId] else 0) + 1];
      active := active + multiset{laneId};
    }

    /** Queue a waiter behind those of its lane, unless the queue refuses it. */
    method Wait(laneId: int) returns (refused: Option<M.WaitRefusal>)
      requires Valid()
      modifies this`queuesByLane, this`readyLanes, this`queuedTotal, this`issued
      ensures Valid() && (Model(), refused) == M.Wait(old(Model()), laneId, old(queuedTotal))
    {
      if closed { return Some(M.ConnectionClosed); }
      if laneQueueLimit == 0 { return Some(M.LaneQueueDisabled); }
      if queuedTotal >= maxQueuedRequests { return Some(M.QueueFull); }
      M.EnqueueKeepsValid(Model(), laneId);
      Enqueue(laneId);
      return None;
    }

    method Enqueue(laneId: int)
      requires Consistent() && issued !in settled
      modifies this`queuesByLane, this`readyLanes, this`queuedTotal, this`issued
      ensures Consistent() && Model() == M.Enqueue(old(Model()), laneId)
    {
      hide CreditsCounted;
      ghost var f := Model();
      var queues := PushWaiter(queuesByLane, settled, laneId, issued);
      var ready := if laneId in queuesByLane then readyLanes else readyLanes + [laneId];
      assert M.Enqueue(f, laneId) == f.(queues := QueuesOf(queues, settled), ready := ready, issued := issued + 1);
      CountOneMore(queuedTotal, issued, settled);
      queuesByLane, readyLanes, issued, queuedTotal := queues, ready, issued + 1, queuedTotal + 1;
    }

    /** The timer of a waiter fires. */
    method ExpireWaiter(laneId: int, waiter: nat)
      requires Valid() && M.AtRest(Model())
      requires Model().Waiting(waiter) ==> M.Queued(Queues(), laneId, waiter)
      modifies this`queuesByLane, this`readyLanes, this`queuedTotal, this`settled
      ensures Valid() && Model() == M.TimeOut(old(Model()), laneId, waiter)
    {
      M.TimeOutKeepsValid(Model(), laneId, waiter);
      if waiter >= issued || waiter in settled { return; }
      Expire(laneId, waiter);
    }

    method Expire(laneId: int, waiter: nat)
      requires Consistent() && waiter < issued && waiter !in settled
      requires M.Queued(Queues(), laneId, waiter) && M.InOrder(Queues()[laneId])
      requires forall m | M.Queued(Queues(), m, waiter) :: m == laneId
      modifies this`queuesByLane, this`readyLanes, this`queuedTotal, this`settled
      ensures Consistent() && Model() == M.TimeOut(old(Model()), laneId, waiter)
    {
      hide AllCounted, LiveOf;
      CountOneLess(queuedTotal, issued, settled, waiter, M.TimedOut);
      queuesByLane := ExpireInLane(queuesByLane, settled, laneId, waiter);
      settled := settled[waiter := M.TimedOut];
      queuedTotal := queuedTotal - 1;
      if laneId !in queuesByLane { readyLanes := M.WithoutLane(readyLanes, laneId); }
    }

    /** Give a credit back and hand it on. */
    method Release(laneId: int)
      requires Valid()
      modifies this
      ensures Valid() && Model() == M.Release(old(Model()), laneId)
    {
      ghost var f := Model();
      if laneId !in activeByLane { return; }
      ReturnCredit(laneId);
      ReturnKeepsValid(f, laneId);
      hide M.Valid, Consistent;
      if !closed { Pump(); }
    }

    method ReturnCredit(laneId: int)
      requires Consistent() && laneId in activeByLane
      modifies this`activeTotal, this`activeByLane, this`active
      ensures Consistent() && Model() == M.ReturnCredit(old(Model()), laneId)
    {
      hide AllCounted, WaitersCounted, QueuesOf;
      var count := activeByLane[laneId];
      activeTotal := activeTotal - 1;
      if count == 1 {
        activeByLane := activeByLane - {laneId};
      } else {
        activeByLane := activeByLane[laneId := count - 1];
      }
      active := active - multiset{laneId};
    }

    method UpdateLimits(connection: Option<nat>, lane: Option<nat>)
      requires Valid()
      modifies this
      ensures Valid() && Model() == M.UpdateLimits(old(Model()), connection, lane)
    {
      ghost var f := Model();
      if connection.Some? { connectionLimit := connection.value; }
      if lane.Some? { laneWindowLimit := lane.value; }
      laneLimit := if laneWindowLimit < laneQueueLimit then laneWindowLimit else laneQueueLimit;
      assert Model() == M.WithLimits(f, connection, lane);
      Pump();
    }

    method UpdateLaneQueueLimit(limit: nat)
      requires Valid()
      modifies this
      ensures Valid() && Model() == M.UpdateLaneQueueLimit(old(Model()), limit)
    {
      ghost var f := Model();
      laneQueueLimit := limit;
      laneLimit := if laneWindowLimit < laneQueueLimit then laneWindowLimit else laneQueueLimit;
      assert Model() == f.(laneQueueLimit := limit);
      Pump();
    }

    /** Settle every queued waiter as cancelled. */
    method CancelQueued()
      requires Valid()
      modifies this`queuesByLane, this`readyLanes, this`queuedTotal, this`settled
      ensures Valid() && Model() == M.CancelQueued(old(Model()))
    {
      M.CancelSettlesAll(Model());
      EmptyQueues();
    }

    method EmptyQueues()
      requires Consistent()
      requires M.QueuesMatch(Queues(), settled, issued) && M.EveryWaiterQueued(Queues(), settled, issued)
      modifies this`queuesByLane, this`readyLanes, this`queuedTotal, this`settled
      ensures Consistent() && Model() == M.CancelQueued(old(Model()))
    {
      hide CreditsCounted, WaitersCounted, M.QueuesMatch, M.EveryWaiterQueued, M.Queued;
      settled := CancelWaiters(queuesByLane, settled, issued);
      queuesByLane := map[];
      readyLanes := [];
      queuedTotal := 0;
      CountNone(issued, settled);
    }

    method Close()
      requires Valid()
      modifies this
      ensures Valid() && Model() == M.Close(old(Model()))
    {
      ghost var f := Model();
      if closed { return; }
      CancelQueued();
      closed := true;
    }

    /** Grant credits, lane after lane, while a waiting lane can be granted one. */
    method Pump()
      requires Valid()
      modifies this
      ensures Valid() && Model() == M.Pump(old(Model()))
    {
      ghost var f := Model();
      while !closed && activeTotal < connectionLimit && |readyLanes| > 0
        invariant Valid() && M.Pump(Model()) == M.Pump(f)
        decreases connectionLimit - activeTotal
      {
        var granted := PumpOnce();
        if !granted { return; }
      }
    }

    /** One round of the pump: grant one credit, or find that no waiting lane has room. */
    method PumpOnce() returns (granted: bool)
      requires Valid() && !closed && |active| < connectionLimit
      modifies this`queuesByLane, this`settled, this`queuedTotal, this`readyLanes
      modifies this`activeTotal, this`activeByLane, this`active
      ensures Valid() && granted == M.CanGrant(old(Model()))
      ensures granted ==> M.ReadyAt(old(Model()), M.FirstGrantable(old(Model()), 0).value)
      ensures Model() == if granted then M.Grant(old(Model()), M.FirstGrantable(old(Model()), 0).value) else old(Model())
      ensures |active| == |old(active)| + if granted then 1 else 0
    {
      ghost var g := Model();
      ghost var p := M.FirstGrantable(g, 0);
      if p.Some? {
        M.GrantKeepsValid(g, p.value);
        GrantIsUnique(g, p.value);
      }
      var laneId := NextGrantableLane();
      if laneId.None? { return false; }
      GrantNext(laneId.value, g, p.value);
      return true;
    }

    /** The grant of the model: the lane at position p of the ready order has been taken out. */
    method GrantNext(laneId: int, ghost g: M.Flow, ghost p: nat)
      requires Consistent() && p < |g.ready| && laneId == g.ready[p] && ReadyToGrant(g, laneId)
      requires g == Model().(ready := g.ready) && readyLanes == g.ready[p + 1..] + g.ready[..p]
      modifies this`queuesByLane, this`settled, this`queuedTotal, this`readyLanes
      modifies this`activeTotal, this`activeByLane, this`active
      ensures Consistent() && Model() == M.Grant(g, p)
    {
      GrantToLane(laneId);
      GrantedAs(g, p, Model());
    }

    /** Rotate the ready lanes until one with room comes up, and take that one out. */
    method NextGrantableLane() returns (lane: Option<int>)
      requires Consistent()
      modifies this`readyLanes
      ensures Consistent() && Model() == old(Model()).(ready := readyLanes)
      ensures var p := M.FirstGrantable(old(Model()), 0);
              if p.None? then lane.None? && readyLanes == old(readyLanes)
              else lane == Some(old(readyLanes)[p.value])
                   && readyLanes == old(readyLanes)[p.value + 1..] + old(readyLanes)[..p.value]
    {
      hide AllCounted, QueuesOf, WaitersCounted, M.Queued, M.InOrder;
      ghost var f := Model();
      for attempt := 0 to |readyLanes|
        invariant |readyLanes| == |f.ready|
        invariant readyLanes == f.ready[attempt..] + f.ready[..attempt]
        invariant M.FirstGrantable(f, attempt) == M.FirstGrantable(f, 0)
      {
        var laneId := readyLanes[0];
        Rotated(f.ready, attempt);
        readyLanes := readyLanes[1..];
        if (if laneId in activeByLane then activeByLane[laneId] else 0) < laneLimit { return Some(laneId); }
        readyLanes := readyLanes + [laneId];
      }
      return None;
    }

    /** Grant a credit to the oldest waiter of a lane taken out of the ready set. */
    method GrantToLane(laneId: int)
      requires Consistent() && laneId in queuesByLane
      requires Queues()[laneId] != [] && M.InOrder(Queues()[laneId]) && Queues()[laneId][0] < issued
      requires forall m | M.Queued(Queues(), m, Queues()[laneId][0]) :: m == laneId
      modifies this`queuesByLane, this`settled, this`queuedTotal, this`readyLanes
      modifies this`activeTotal, this`activeByLane, this`active
      ensures Consistent() && active == old(active) + multiset{laneId}
      ensures var q := old(Queues()[laneId]);
              && Queues() == (if |q| > 1 then old(Queues())[laneId := q[1..]] else old(Queues()) - {laneId})
              && readyLanes == (if |q| > 1 then old(readyLanes) + [laneId] else old(readyLanes))
              && settled == old(settled)[q[0] := M.Granted]
    {
      if queuesByLane[laneId].waiting > 1 { readyLanes := readyLanes + [laneId]; }
      SettleOldest(laneId);
      Activate(laneId);
    }

    /** The oldest waiter of the lane leaves its queue. */
    method SettleOldest(laneId: int)
      requires Consistent() && laneId in queuesByLane
      requires Queues()[laneId] != [] && M.InOrder(Queues()[laneId]) && Queues()[laneId][0] < issued
      requires forall m | M.Queued(Queues(), m, Queues()[laneId][0]) :: m == laneId
      modifies this`queuesByLane, this`settled, this`queuedTotal
      ensures Consistent()
      ensures var q := old(Queues()[laneId]);
              && Queues() == (if |q| > 1 then old(Queues())[laneId := q[1..]] else old(Queues()) - {laneId})
              && settled == old(settled)[q[0] := M.Granted]
    {
      hide CreditsCounted, WaitersCounted, M.Queued, LiveOf;
      var waiter;
      queuesByLane, waiter := GrantInLane(queuesByLane, settled, laneId);
      CountOneLess(queuedTotal, issued, settled, waiter, M.Granted);
      settled := settled[waiter := M.Granted];
      queuedTotal := queuedTotal - 1;
    }
  }

  method GrantInLane(queues: map<int, LaneQueue>, settled: Settled, lane: int)
    returns (next: map<int, LaneQueue>, waiter: nat)
    requires AllCounted(queues, settled) && lane in queues
    requires var live := LiveOf(queues[lane], settled);
             live != [] && M.InOrder(live) && forall m | M.Queued(QueuesOf(queues, settled), m, live[0]) :: m == lane
    ensures var live := LiveOf(queues[lane], settled);
            && waiter == live[0] && waiter !in settled
            && AllCounted(next, settled[waiter := M.Granted])
            && QueuesOf(next, settled[waiter := M.Granted])
               == if |live| > 1 then QueuesOf(queues, settled)[lane := live[1..]] else QueuesOf(queues, settled) - {lane}
  {
    var queue;
    waiter, queue := TakeWaiter(queues[lane], settled);
    GrantedOnce(LiveOf(queues[lane], settled), queues[lane], waiter, queue, settled);
    queue := queue.(waiting := queue.waiting - 1);
    assert M.Queued(QueuesOf(queues, settled), lane, waiter);
    next := SettleInLane(queues, settled, lane, waiter, M.Granted, queue);
  }

  method ExpireInLane(queues: map<int, LaneQueue>, settled: Settled, lane: int, w: nat) returns (next: map<int, LaneQueue>)
    requires AllCounted(queues, settled) && M.Queued(QueuesOf(queues, settled), lane, w) && w !in settled
    requires M.InOrder(LiveOf(queues[lane], settled))
    requires forall m | M.Queued(QueuesOf(queues, settled), m, w) :: m == lane
    ensures AllCounted(next, settled[w := M.TimedOut])
    ensures var live := M.Without(LiveOf(queues[lane], settled), w);
            && (lane in next <==> live != [])
            && QueuesOf(next, settled[w := M.TimedOut])
               == if live == [] then QueuesOf(queues, settled) - {lane} else QueuesOf(queues, settled)[lane := live]
  {
    var queue := queues[lane];
    WithoutOne(LiveOf(queue, settled), w);
    LiveAfterSettling(queue.waiters[queue.head..], settled, w, M.TimedOut);
    queue := queue.(waiting := queue.waiting - 1);
    next := SettleInLane(queues, settled, lane, w, M.TimedOut, queue);
    assert lane in next <==> lane in QueuesOf(next, settled[w := M.TimedOut]);
  }

  method PushWaiter(queues: map<int, LaneQueue>, settled: Settled, lane: int, w: nat) returns (next: map<int, LaneQueue>)
    requires AllCounted(queues, settled) && w !in settled
    ensures AllCounted(next, settled)
    ensures QueuesOf(next, settled)
            == QueuesOf(queues, settled)[lane := if lane in queues then LiveOf(queues[lane], settled) + [w] else [w]]
  {
    var queue := LaneQueue(0, 1, [w]);
    if lane in queues {
      var q := queues[lane];
      LivePush(q, settled, w);
      queue := LaneQueue(q.head, q.waiting + 1, q.waiters + [w]);
    } else {
      assert queue.waiters[0..] == [w] && LiveOf(queue, settled) == [w];
    }
    QueueReplaced(queues, settled, lane, queue);
    next := queues[lane := queue];
  }

  method AnyLane(lanes: set<int>) returns (lane: int)
    requires lanes != {}
    ensures lane in lanes
  {
    assert !(forall l :: l !in lanes) || lanes == {};
    lane :| lane in lanes;
  }

  ghost predicate AllSettled(waiters: seq<nat>, settled: Settled) {
    forall w | w in waiters :: w in settled
  }

  method CancelWaiters(queues: map<int, LaneQueue>, before: Settled, issued: nat) returns (settled: Settled)
    requires AllCounted(queues, before)
    requires M.QueuesMatch(QueuesOf(queues, before), before, issued)
    requires M.EveryWaiterQueued(QueuesOf(queues, before), before, issued)
    ensures settled == map w: nat | w < issued :: if w in before then before[w] else M.Cancelled
  {
    settled := before;
    ghost var live := QueuesOf(queues, before);
    var lanes := queues.Keys;
    while lanes != {}
      invariant lanes <= queues.Keys
      invariant forall w | w in settled :: w < issued
      invariant forall w | w in before :: w in settled && settled[w] == before[w]
      invariant forall w | w in settled && w !in before :: settled[w] == M.Cancelled
      invariant forall lane | lane in live && lane !in lanes :: AllSettled(live[lane], settled)
    {
      var lane := AnyLane(lanes);
      assert forall w | w in live[lane] :: M.Queued(live, lane, w);
      settled := CancelLane(queues[lane], settled, live[lane], before, issued);
      lanes := lanes - {lane};
    }
    forall w: nat | w < issued
      ensures w in settled
    {
      if w !in before {
        var lane :| M.Queued(live, lane, w);
        assert AllSettled(live[lane], settled);
      }
    }
  }

  /** After the oldest waiter has been taken, settling it changes nothing in the rest. */
  lemma {:induction false} GrantedOnce(live: seq<nat>, q: LaneQueue, waiter: nat, rest: LaneQueue, settled: Settled)
    requires q.head <= |q.waiters| && live == LiveOf(q, settled) && M.InOrder(live) && live != [] && waiter == live[0]
    requires rest.head <= |rest.waiters| && LiveOf(rest, settled) == live[1..]
    ensures waiter !in settled
    ensures LiveOf(rest, settled[waiter := M.Granted]) == live[1..]
  {
    LiveMembers(q.waiters[q.head..], settled, waiter);
    LiveAfterSettling(rest.waiters[rest.head..], settled, waiter, M.Granted);
    WithoutAbsent(live[1..], waiter);
  }

  lemma Rotated(ready: seq<int>, i: nat)
    requires i < |ready|
    ensures (ready[i..] + ready[..i])[0] == ready[i]
    ensures (ready[i..] + ready[..i])[1..] == ready[i + 1..] + ready[..i]
    ensures ready[i + 1..] + ready[..i] + [ready[i]] == ready[i + 1..] + ready[..i + 1]
  {
  }

  /** The lane has an oldest waiter, and that waiter is in no other queue. */
  ghost predicate ReadyToGrant(g: M.Flow, lane: int) {
    && lane in g.queues && g.queues[lane] != [] && M.InOrder(g.queues[lane])
    && g.queues[lane][0] < g.issued && forall m | M.Queued(g.queues, m, g.queues[lane][0]) :: m == lane
  }

  lemma {:induction false} GrantIsUnique(g: M.Flow, p: nat)
    requires M.Valid(g) && p < |g.ready|
    ensures ReadyToGrant(g, g.ready[p])
  {
    assert g.ready[p] in g.ready;
    assert M.Queued(g.queues, g.ready[p], g.queues[g.ready[p]][0]);
  }

  lemma ReturnKeepsValid(f: M.Flow, lane: int)
    requires M.Valid(f)
    ensures M.Valid(M.ReturnCredit(f, lane))
  {
  }

  lemma GrantedAs(g: M.Flow, p: nat, h: M.Flow)
    requires p < |g.ready| && g.ready[p] in g.queues && g.queues[g.ready[p]] != []
    requires var lane := g.ready[p];
      var q := g.queues[lane];
      var others := g.ready[p + 1..] + g.ready[..p];
      && h.queues == (if |q| > 1 then g.queues[lane := q[1..]] else g.queues - {lane})
      && h.ready == (if |q| > 1 then others + [lane] else others)
      && h.outcomes == g.outcomes[q[0] := M.Granted] && h.active == g.active + multiset{lane}
      && h == g.(queues := h.queues, ready := h.ready, outcomes := h.outcomes, active := h.active)
    ensures h == M.Grant(g, p)
  {
  }

  method CancelLane(queue: LaneQueue, before: Settled, ghost live: seq<nat>, ghost outcomes: Settled, ghost issued: nat)
    returns (settled: Settled)
    requires queue.head <= |queue.waiters| && live == LiveOf(queue, outcomes)
    requires forall w | w in live :: w < issued
    requires forall w | w in before :: w < issued
    requires forall w | w in outcomes :: w in before && before[w] == outcomes[w]
    requires forall w | w in before && w !in outcomes :: before[w] == M.Cancelled
    ensures forall w | w in settled :: w < issued
    ensures forall w | w in before :: w in settled && settled[w] == before[w]
    ensures forall w | w in settled && w !in outcomes :: settled[w] == M.Cancelled
    ensures forall w | w in live :: w in settled
  {
    settled := before;
    forall w: nat
      ensures w in live <==> w in queue.waiters[queue.head..] && w !in outcomes
    {
      LiveMembers(queue.waiters[queue.head..], outcomes, w);
    }
    for index := queue.head to |queue.waiters|
      invariant forall w | w in settled :: w < issued
      invariant forall w | w in before :: w in settled && settled[w] == before[w]
      invariant forall w | w in settled && w !in outcomes :: settled[w] == M.Cancelled
      invariant forall i | queue.head <= i < index :: queue.waiters[i] in settled
    {
      var waiter := queue.waiters[index];
      assert queue.waiters[queue.head..][index - queue.head] == waiter;
      if waiter in settled { continue; }
      settled := settled[waiter := M.Cancelled];
    }
    forall w | w in live
      ensures w in settled
    {
      var i :| 0 <= i < |queue.waiters| - queue.head && queue.waiters[queue.head..][i] == w;
      assert queue.waiters[queue.head + i] == w;
    }
  }

  lemma {:induction false} LivePush(q: LaneQueue, settled: Settled, w: nat)
    requires Counted(q, settled) && Compact(q) && w !in settled
    ensures var r := LaneQueue(q.head, q.waiting + 1, q.waiters + [w]);
            LiveOf(r, settled) == LiveOf(q, settled) + [w] && Counted(r, settled) && Compact(r)
  {
    assert (q.waiters + [w])[q.head..] == q.waiters[q.head..] + [w];
    LiveConcat(q.waiters[q.head..], [w], settled);
  }

  function Unsettled(issued: nat, settled: Settled): set<nat> {
    set w: nat | w < issued && w !in settled
  }

  lemma {:induction false} CountOneMore(total: nat, issued: nat, settled: Settled)
    requires WaitersCounted(total, issued, settled) && issued !in settled
    ensures WaitersCounted(total + 1, issued + 1, settled)
  {
    assert Unsettled(issued + 1, settled) == Unsettled(issued, settled) + {issued};
  }

  lemma {:induction false} CountOneLess(total: nat, issued: nat, settled: Settled, w: nat, o: M.Outcome)
    requires WaitersCounted(total, issued, settled) && w < issued && w !in settled
    ensures total > 0 && WaitersCounted(total - 1, issued, settled[w := o])
  {
    assert Unsettled(issued, settled) == Unsettled(issued, settled[w := o]) + {w};
  }

  lemma {:induction false} CountNone(issued: nat, settled: Settled)
    requires forall w: nat | w < issued :: w in settled
    ensures WaitersCounted(0, issued, settled)
  {
    assert Unsettled(issued, settled) == {};
  }
}
