/** The slot pool with its doubly linked queue of waiters; each method is proved to do what the
    function of the same name does to the model. */
module Http2SlotPool {
  import opened Wrappers
  import M = Http2SlotModel

  class HTTP2SlotWaiter {
    const request: nat
    var next: HTTP2SlotWaiter?
    var previous: HTTP2SlotWaiter?
    var queued: bool
    var settled: bool

    constructor (request: nat)
      ensures this.request == request && next == null && previous == null && queued && !settled
    {
      this.request, next, previous, queued, settled := request, null, null, true, false;
    }
  }

  ghost function Requests(waiters: seq<HTTP2SlotWaiter>): (requests: seq<nat>)
    ensures |requests| == |waiters|
    ensures forall i | 0 <= i < |waiters| :: requests[i] == waiters[i].request
  {
    seq(|waiters|, i requires 0 <= i < |waiters| => waiters[i].request)
  }

  ghost function At(waiters: seq<HTTP2SlotWaiter>, i: int): HTTP2SlotWaiter? {
    if 0 <= i < |waiters| then waiters[i] else null
  }

  predicate Distinct(waiters: seq<HTTP2SlotWaiter>) {
    forall i, j | 0 <= i < j < |waiters| :: waiters[i] != waiters[j]
  }

  ghost predicate Pending(waiters: seq<HTTP2SlotWaiter>)
    reads waiters
  {
    forall i | 0 <= i < |waiters| :: waiters[i].queued && !waiters[i].settled
  }

  ghost predicate Forwards(waiters: seq<HTTP2SlotWaiter>)
    reads waiters
  {
    forall i {:trigger waiters[i].next} | 0 <= i < |waiters| :: waiters[i].next == At(waiters, i + 1)
  }

  ghost predicate Backwards(waiters: seq<HTTP2SlotWaiter>)
    reads waiters
  {
    forall i {:trigger waiters[i].previous} | 0 <= i < |waiters| :: waiters[i].previous == At(waiters, i - 1)
  }

  /** The waiters are linked in both directions, in this order. */
  ghost predicate Linked(waiters: seq<HTTP2SlotWaiter>)
    reads waiters
  {
    Distinct(waiters) && Pending(waiters) && Forwards(waiters) && Backwards(waiters)
  }

  /** The linked list from head to tail is this sequence. */
  ghost predicate IsQueue(head: HTTP2SlotWaiter?, tail: HTTP2SlotWaiter?, waiters: seq<HTTP2SlotWaiter>)
    reads waiters
  {
    Linked(waiters) && head == At(waiters, 0) && tail == At(waiters, |waiters| - 1)
  }

  predicate IsTail<T(==)>(a: seq<T>, b: seq<T>) {
    |a| <= |b| && a == b[|b| - |a|..]
  }

  /** Facts about the requests that are not held. */
  lemma {:induction false} NotHeld(s: M.Slots)
    requires M.Accounted(s)
    ensures s.issued !in s.held && (s.waiting != [] ==> s.waiting[0] !in s.held)
  {
    assert s.waiting != [] ==> s.waiting[0] in s.waiting;
  }

  /** The oldest waiter has got a slot. */
  ghost function Granted(s: M.Slots): M.Slots
    requires s.waiting != []
  {
    M.Grant(s, s.waiting[0]).(waiting := s.waiting[1..])
  }

  lemma {:induction false} GrantedFacts(s: M.Slots)
    requires M.Accounted(s) && s.waiting != []
    ensures M.Accounted(Granted(s)) && s.waiting[0] !in s.held
    ensures Granted(s) == s.(waiting := s.waiting[1..], held := s.held + {s.waiting[0]}, outcomes := s.outcomes[s.waiting[0] := M.Granted])
  {
    NotHeld(s);
    M.HeadGranted(s);
  }

  lemma ReleasedIsAccounted(s: M.Slots, request: nat)
    requires M.Accounted(s)
    ensures M.Accounted(s.(held := s.held - {request}))
  {
  }

  function Cut<T>(s: seq<T>, at: nat): (r: seq<T>)
    requires at < |s|
    ensures |r| == |s| - 1 && forall i | 0 <= i < |r| :: r[i] == s[if i < at then i else i + 1]
  {
    s[..at] + s[at + 1..]
  }

  lemma {:induction false} CutFacts(waiters: seq<HTTP2SlotWaiter>, at: nat)
    requires Distinct(waiters) && at < |waiters|
    ensures Distinct(Cut(waiters, at)) && waiters[at] !in Cut(waiters, at)
  {
    var r := Cut(waiters, at);
    forall i, j | 0 <= i < j < |r|
      ensures r[i] != r[j]
    {
      assert r[i] == waiters[if i < at then i else i + 1] && r[j] == waiters[if j < at then j else j + 1];
    }
    forall i | 0 <= i < |r|
      ensures r[i] != waiters[at]
    {
      assert r[i] == waiters[if i < at then i else i + 1];
    }
  }

  class HTTP2SlotPool {
    var active: nat
    var idleCallback: Option<nat>
    var limit: Option<nat>
    var retired: bool
    var waiterHead: HTTP2SlotWaiter?
    var waiterTail: HTTP2SlotWaiter?
    var issued: nat
    var fired: seq<nat>
    /** The flags of the release functions handed out: the requests that have not used theirs. */
    var unreleased: set<nat>
    ghost var waiters: seq<HTTP2SlotWaiter>
    ghost var outcomes: map<nat, M.Outcome>

    ghost predicate Queue()
      reads this, waiters
    {
      IsQueue(waiterHead, waiterTail, waiters)
    }

    ghost function Model(): M.Slots
      reads this
    {
      M.Slots(limit, retired, Requests(waiters), unreleased, outcomes, issued, idleCallback, fired)
    }

    ghost predicate Valid()
      reads this, waiters
    {
      Queue() && active == |unreleased| && M.Accounted(Model())
    }

    constructor ()
      ensures Valid() && Model() == M.INITIAL && waiters == []
    {
      active, idleCallback, limit, retired := 0, None, None, false;
      waiterHead, waiterTail, issued, fired, unreleased := null, null, 0, [], {};
      waiters, outcomes := [], map[];
    }

    method EnqueueWaiter(waiter: HTTP2SlotWaiter)
      requires Queue() && waiter !in waiters && waiter.next == null && waiter.queued && !waiter.settled
      modifies this`waiterHead, this`waiterTail, this`waiters, waiter, waiters
      ensures Queue() && waiters == old(waiters) + [waiter]
    {
      waiter.previous := waiterTail;
      if waiterTail == null {
        waiterHead := waiter;
      } else {
        waiterTail.next := waiter;
      }
      waiterTail := waiter;
      waiters := waiters + [waiter];
      assert forall i | 0 <= i < |waiters| - 1 :: waiters[i] == old(waiters)[i] && waiters[i] != waiter;
    }

    /** Take a waiter out of the list, wherever it is. */
    method RemoveWaiter(waiter: HTTP2SlotWaiter, ghost at: nat)
      requires Queue() && at < |waiters| && waiters[at] == waiter
      modifies this`waiterHead, this`waiterTail, this`waiters, waiters
      ensures Queue() && waiters == Cut(old(waiters), at)
      ensures !waiter.queued && !waiter.settled && waiter !in waiters
    {
      CutFacts(waiters, at);
      Unlink(waiter, at);
      Relinked(waiters, at);
      waiters := Cut(waiters, at);
    }

    method Unlink(waiter: HTTP2SlotWaiter, ghost at: nat)
      requires Queue() && at < |waiters| && waiters[at] == waiter
      modifies this`waiterHead, this`waiterTail, waiters
      ensures PointsPast(waiters, at) && !waiter.queued && !waiter.settled
      ensures waiterHead == At(waiters, if at == 0 then 1 else 0)
      ensures waiterTail == At(waiters, if at == |waiters| - 1 then |waiters| - 2 else |waiters| - 1)
    {
      hide At;
      UnlinkPrevious(waiter, at);
      UnlinkNext(waiter, at);
      waiter.next := null;
      waiter.previous := null;
      waiter.queued := false;
    }

    /** The waiter before, or the head, now points past the waiter. */
    method UnlinkPrevious(waiter: HTTP2SlotWaiter, ghost at: nat)
      requires Queue() && at < |waiters| && waiters[at] == waiter
      modifies this`waiterHead, waiters`next
      ensures forall i {:trigger waiters[i].next} | 0 <= i < |waiters| :: waiters[i].next == At(waiters, if i == at - 1 then at + 1 else i + 1)
      ensures waiterHead == At(waiters, if at == 0 then 1 else 0)
    {
      if waiter.previous == null {
        waiterHead := waiter.next;
      } else {
        waiter.previous.next := waiter.next;
      }
    }

    /** The waiter after, or the tail, now points back past the waiter. */
    method UnlinkNext(waiter: HTTP2SlotWaiter, ghost at: nat)
      requires Distinct(waiters) && Backwards(waiters) && at < |waiters| && waiters[at] == waiter
      requires waiter.next == At(waiters, at + 1) && waiterTail == At(waiters, |waiters| - 1)
      modifies this`waiterTail, waiters`previous
      ensures forall i {:trigger waiters[i].previous} | 0 <= i < |waiters| :: waiters[i].previous == At(waiters, if i == at + 1 then at - 1 else i - 1)
      ensures waiterTail == At(waiters, if at == |waiters| - 1 then |waiters| - 2 else |waiters| - 1)
    {
      if waiter.next == null {
        waiterTail := waiter.previous;
      } else {
        waiter.next.previous := waiter.previous;
      }
    }

    // ----- The operations -----

    /** A slot at once, a place in the queue, or an error when the signal is aborted already or
        the session is retired. */
    method Acquire(aborted: bool) returns (waiter: HTTP2SlotWaiter?)
      requires Valid() && M.Settled(Model())
      modifies this`active, this`waiterHead, this`waiterTail, this`waiters, this`issued, this`unreleased, this`outcomes, waiters
      ensures Valid() && Model() == M.Acquire(old(Model()), aborted)
      ensures if waiter == null then waiters == old(waiters)
              else fresh(waiter) && waiters == old(waiters) + [waiter] && waiter.request == old(issued)
    {
      hide IsQueue, M.Accounts, Requests;
      NotHeld(Model());
      M.AcquireKeepsValid(Model(), aborted);
      hide M.Settled;
      waiter := null;
      var request := issued;
      issued := issued + 1;
      if aborted {
        outcomes := outcomes[request := M.Aborted];
      } else if retired {
        outcomes := outcomes[request := M.Retired];
      } else if limit.Some? && active < limit.value {
        active := active + 1;
        unreleased := unreleased + {request};
        outcomes := outcomes[request := M.Granted];
      } else {
        waiter := Wait(request);
      }
    }

    method Wait(request: nat) returns (waiter: HTTP2SlotWaiter)
      requires Queue()
      modifies this`waiterHead, this`waiterTail, this`waiters, waiters
      ensures Queue() && fresh(waiter) && waiters == old(waiters) + [waiter] && waiter.request == request
      ensures Requests(waiters) == Requests(old(waiters)) + [request]
    {
      hide IsQueue;
      waiter := new HTTP2SlotWaiter(request);
      EnqueueWaiter(waiter);
    }

    /** The abort listener of a waiter. */
    method Abort(waiter: HTTP2SlotWaiter)
      requires Valid() && M.Settled(Model())
      requires waiter in waiters || (waiter.settled && waiter.request !in Requests(waiters))
      modifies this`waiterHead, this`waiterTail, this`waiters, this`outcomes, waiters, waiter
      ensures Valid() && Model() == M.Abort(old(Model()), waiter.request)
      ensures waiter.settled && waiter !in waiters
    {
      hide IsQueue, Cut, M.Without;
      Ends();
      if waiter.settled { return; }
      M.AbortKeepsValid(Model(), waiter.request);
      ghost var at :| 0 <= at < |waiters| && waiters[at] == waiter;
      RequestsCut(waiters, at);
      assert Requests(waiters)[at] == waiter.request;
      RemoveWaiter(waiter, at);
      Settle(waiter);
      outcomes := outcomes[waiter.request := M.Aborted];
    }

    /** A waiter outside the queue is marked as settled. */
    method Settle(waiter: HTTP2SlotWaiter)
      requires Queue() && waiter !in waiters
      modifies waiter`settled
      ensures Queue() && waiter.settled
    {
      waiter.settled := true;
    }

    method Drain()
      requires Valid()
      modifies this`active, this`waiterHead, this`waiterTail, this`waiters, this`unreleased, this`outcomes, waiters
      ensures Valid() && Model() == M.Drain(old(Model()))
      ensures IsTail(waiters, old(waiters))
    {
      hide IsQueue, M.Accounts;
      ghost var s := Model();
      while !retired && limit.Some? && active < limit.value
        invariant Valid() && M.Drain(Model()) == M.Drain(s)
        invariant IsTail(waiters, old(waiters))
        decreases |waiters|
      {
        Ends();
        var waiter := waiterHead;
        if waiter == null { return; }
        GrantHead(waiter);
      }
    }

    /** Take the oldest waiter out and mark it as settled. */
    method Dequeue(waiter: HTTP2SlotWaiter)
      requires Queue() && waiters != [] && waiter == waiters[0]
      modifies this`waiterHead, this`waiterTail, this`waiters, waiters
      ensures Queue() && waiters == old(waiters)[1..] && Requests(waiters) == Requests(old(waiters))[1..]
      ensures waiter.settled
    {
      hide IsQueue, M.Without;
      RequestsCut(waiters, 0);
      assert Cut(waiters, 0) == waiters[1..];
      RemoveWaiter(waiter, 0);
      Settle(waiter);
    }

    /** The oldest waiter gets a slot. */
    method GrantHead(waiter: HTTP2SlotWaiter)
      requires Valid() && waiters != [] && waiter == waiters[0]
      modifies this`active, this`waiterHead, this`waiterTail, this`waiters, this`unreleased, this`outcomes, waiters
      ensures Valid() && waiters == old(waiters)[1..]
      ensures Model() == Granted(old(Model()))
    {
      hide IsQueue, M.Accounts;
      ghost var granted := Granted(Model());
      GrantedFacts(Model());
      hide Requests, M.Accounted, Granted;
      Dequeue(waiter);
      active := active + 1;
      unreleased := unreleased + {waiter.request};
      outcomes := outcomes[waiter.request := M.Granted];
      assert Model() == granted;
    }

    method UpdateLimit(newLimit: nat)
      requires Valid() && M.Settled(Model())
      modifies this, waiters
      ensures Valid() && Model() == M.UpdateLimit(old(Model()), newLimit)
      ensures IsTail(waiters, old(waiters))
    {
      if retired { return; }
      limit := Some(newLimit);
      Drain();
    }

    /** Every waiter is rejected, oldest first, and nobody will be granted a slot any more. */
    method Retire()
      requires Valid() && M.Settled(Model())
      modifies this, waiters
      ensures Valid() && Model() == M.Retire(old(Model()))
      ensures retired ==> waiters == []
    {
      hide IsQueue, M.Accounts, Requests;
      if retired { return; }
      M.RetireKeepsValid(Model());
      retired := true;
      ghost var s := Model();
      while waiterHead != null
        invariant Queue() && active == |unreleased| && retired
        invariant IsTail(waiters, old(waiters))
        invariant Model() == s.(waiting := Model().waiting, outcomes := outcomes)
        invariant M.RetireAll(outcomes, Model().waiting) == M.RetireAll(s.outcomes, s.waiting)
        decreases |waiters|
      {
        Ends();
        RetireHead(waiterHead);
      }
      Ends();
    }

    /** The head pointer is the first waiter; waiters in the queue are not settled. */
    lemma Ends()
      requires Queue()
      ensures waiterHead == null <==> waiters == []
      ensures waiters != [] ==> waiterHead == waiters[0]
      ensures forall w | w in waiters :: !w.settled
    {
    }

    method RetireHead(waiter: HTTP2SlotWaiter)
      requires Queue() && waiters != [] && waiter == waiters[0]
      modifies this`waiterHead, this`waiterTail, this`waiters, this`outcomes, waiters
      ensures Queue() && waiters == old(waiters)[1..] && Requests(waiters) == Requests(old(waiters))[1..]
      ensures outcomes == old(outcomes)[waiter.request := M.Retired]
    {
      Dequeue(waiter);
      outcomes := outcomes[waiter.request := M.Retired];
    }

    /** The release function of a granted request; using it twice does nothing. */
    method Release(request: nat)
      requires Valid() && M.Settled(Model())
      modifies this, waiters
      ensures Valid() && Model() == M.Release(old(Model()), request)
      ensures IsTail(waiters, old(waiters))
    {
      hide IsQueue, M.Accounts, M.Drain, M.Settled;
      if request !in unreleased { return; }
      ReleasedIsAccounted(Model(), request);
      unreleased := unreleased - {request};
      active := active - 1;
      Drain();
      if active == 0 {
        var callback := idleCallback;
        idleCallback := None;
        if callback.Some? { fired := fired + [callback.value]; }
      }
    }

    method WhenIdle(callback: nat)
      requires Valid()
      modifies this`idleCallback, this`fired
      ensures Valid() && Model() == M.WhenIdle(old(Model()), callback)
    {
      if active == 0 {
        fired := fired + [callback];
      } else {
        idleCallback := Some(callback);
      }
    }
  }

  /** Cutting a waiter out of the queue takes its request out. */
  lemma {:induction false} RequestsCut(waiters: seq<HTTP2SlotWaiter>, at: nat)
    requires at < |waiters|
    ensures at == 0 ==> Requests(Cut(waiters, at)) == Requests(waiters)[1..]
    ensures M.InOrder(Requests(waiters)) ==> Requests(Cut(waiters, at)) == M.Without(Requests(waiters), waiters[at].request)
  {
    if M.InOrder(Requests(waiters)) {
      assert Requests(Cut(waiters, at)) == Cut(Requests(waiters), at);
      WithoutOne(Requests(waiters), at);
    }
  }

  lemma {:induction false} WithoutOne(q: seq<nat>, at: nat)
    requires M.InOrder(q) && at < |q|
    ensures M.Without(q, q[at]) == Cut(q, at)
  {
    if at > 0 {
      WithoutOne(q[1..], at - 1);
      assert Cut(q, at) == [q[0]] + Cut(q[1..], at - 1);
    } else {
      NoneLess(q[1..], q[0]);
      assert Cut(q, 0) == q[1..];
    }
  }

  lemma {:induction false} NoneLess(q: seq<nat>, r: nat)
    requires r !in q
    ensures M.Without(q, r) == q
  {
    if q != [] { NoneLess(q[1..], r); }
  }

  /** Every waiter but one points past that one. */
  ghost predicate PointsPast(before: seq<HTTP2SlotWaiter>, at: nat)
    reads before
  {
    && (forall i | 0 <= i < |before| && i != at :: before[i].queued && !before[i].settled)
    && (forall i {:trigger before[i].next} | 0 <= i < |before| && i != at ::
          before[i].next == At(before, if i == at - 1 then at + 1 else i + 1))
    && forall i {:trigger before[i].previous} | 0 <= i < |before| && i != at ::
         before[i].previous == At(before, if i == at + 1 then at - 1 else i - 1)
  }

  lemma {:induction false} OneRelinked(before: seq<HTTP2SlotWaiter>, at: nat, i: nat)
    requires at < |before| && i < |before| - 1 && PointsPast(before, at)
    ensures var after := Cut(before, at);
            after[i].queued && !after[i].settled && after[i].next == At(after, i + 1) && after[i].previous == At(after, i - 1)
  {
    AtCut(before, at, i);
    AtCut(before, at, i + 1);
    AtCut(before, at, i - 1);
    assert before[if i < at then i else i + 1].queued;
    hide At, Cut;
  }

  /** Then the others are linked. */
  lemma {:induction false} Relinked(before: seq<HTTP2SlotWaiter>, at: nat)
    requires Distinct(before) && at < |before| && PointsPast(before, at)
    ensures Linked(Cut(before, at))
    ensures At(Cut(before, at), 0) == At(before, if at == 0 then 1 else 0)
    ensures At(Cut(before, at), |before| - 2) == At(before, if at == |before| - 1 then |before| - 2 else |before| - 1)
  {
    CutFacts(before, at);
    AtCut(before, at, 0);
    AtCut(before, at, |before| - 2);
    ghost var after := Cut(before, at);
    hide At, Distinct, PointsPast, Cut;
    assert Pending(after) by {
      forall i | 0 <= i < |after| ensures after[i].queued && !after[i].settled { OneRelinked(before, at, i); }
    }
    assert Forwards(after) by {
      forall i | 0 <= i < |after| ensures after[i].next == At(after, i + 1) { OneRelinked(before, at, i); }
    }
    assert Backwards(after) by {
      forall i | 0 <= i < |after| ensures after[i].previous == At(after, i - 1) { OneRelinked(before, at, i); }
    }
  }

  lemma AtCut(before: seq<HTTP2SlotWaiter>, at: nat, i: int)
    requires at < |before|
    ensures i >= 0 ==> At(Cut(before, at), i) == At(before, if i < at then i else i + 1)
    ensures i == -1 ==> At(Cut(before, at), i) == null && At(before, -1) == null
    ensures 0 <= i < |before| - 1 ==> Cut(before, at)[i] == before[if i < at then i else i + 1]
  {
  }
}
