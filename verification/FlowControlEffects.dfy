/** What each operation of the flow control does to the credits, the waiters and the limits, told of
    the state before it. */
module FlowControlEffects {
  import opened Wrappers
  import opened FlowControlModel

  /** The waiters of a lane, oldest first. */
  function QueueOf(f: Flow, lane: int): seq<nat> {
    if lane in f.queues then f.queues[lane] else []
  }

  datatype Limits = Limits(connection: nat, laneWindow: nat, laneQueue: nat, maxQueued: nat)

  function LimitsOf(f: Flow): Limits {
    Limits(f.connectionLimit, f.laneWindowLimit, f.laneQueueLimit, f.maxQueued)
  }

  /** A credit can be had exactly while the connection, the lane's window and the lane's queue all
      have room; it is then counted for the lane. */
  lemma AcquiresExactly(f: Flow, lane: int)
    ensures TryAcquire(f, lane).1
            <==> !f.closed && |f.active| < f.connectionLimit && f.active[lane] < f.laneWindowLimit && f.active[lane] < f.laneQueueLimit
    ensures var g := TryAcquire(f, lane).0;
            && g == f.(active := g.active)
            && g.active == (if TryAcquire(f, lane).1 then f.active + multiset{lane} else f.active)
  {
  }

  /** A waiter is refused for the first of three reasons that applies; otherwise it becomes the last of
      its lane, and the lane takes its turn behind the others if it had no waiter. */
  lemma {:induction false} WaitsExactly(f: Flow, lane: int, queued: nat)
    requires Valid(f)
    ensures var (g, refused) := Wait(f, lane, queued);
            && (refused == Some(ConnectionClosed) <==> f.closed)
            && (refused == Some(LaneQueueDisabled) <==> !f.closed && f.laneQueueLimit == 0)
            && (refused == Some(QueueFull) <==> !f.closed && f.laneQueueLimit > 0 && queued >= f.maxQueued)
            && (refused.Some? ==> g == f)
            && (refused.None? ==>
                  && g == f.(queues := g.queues, ready := g.ready, issued := f.issued + 1) && g.Waiting(f.issued)
                  && (forall l :: QueueOf(g, l) == QueueOf(f, l) + (if l == lane then [f.issued] else []))
                  && g.ready == f.ready + (if QueueOf(f, lane) == [] then [lane] else []))
  {
    assert f.issued !in f.outcomes;
    assert lane in f.queues ==> f.queues[lane] != [];
    forall l
      ensures QueueOf(Enqueue(f, lane), l) == QueueOf(f, l) + (if l == lane then [f.issued] else [])
    {
    }
  }

  /** The timer of a waiter settles that waiter alone, unless it has been settled before, and takes it
      out of its queue; all others wait on. */
  lemma {:induction false} TimesOutExactly(f: Flow, lane: int, w: nat)
    requires Valid(f) && (f.Waiting(w) ==> Queued(f.queues, lane, w))
    ensures var g := TimeOut(f, lane, w);
            && g == f.(queues := g.queues, ready := g.ready, outcomes := g.outcomes)
            && g.outcomes == (if f.Waiting(w) then f.outcomes[w := TimedOut] else f.outcomes)
            && (forall l, x :: x in QueueOf(g, l) <==> x in QueueOf(f, l) && x != w)
            && (forall l :: InOrder(QueueOf(g, l)))
  {
    var g := TimeOut(f, lane, w);
    forall l, x
      ensures x in QueueOf(g, l) <==> x in QueueOf(f, l) && x != w
    {
      assert Queued(f.queues, l, x) ==> f.Waiting(x);
      assert l in f.queues && x in f.queues[l] ==> Queued(f.queues, l, x);
    }
    forall l
      ensures InOrder(QueueOf(g, l))
    {
    }
  }

  /** Only the two operations that are told new limits change limits, each only its own, and a limit
      it is not told stays. */
  lemma {:induction false} LimitsChangeExactly(f: Flow, connection: Option<nat>, window: Option<nat>, laneQueue: nat)
    requires Valid(f)
    ensures LimitsOf(UpdateLimits(f, connection, window))
         == Limits(if connection.Some? then connection.value else f.connectionLimit,
                   if window.Some? then window.value else f.laneWindowLimit, f.laneQueueLimit, f.maxQueued)
    ensures LimitsOf(UpdateLaneQueueLimit(f, laneQueue)) == LimitsOf(f).(laneQueue := laneQueue)
    ensures UpdateLimits(f, connection, window).closed == f.closed && UpdateLaneQueueLimit(f, laneQueue).closed == f.closed
  {
    PumpSettles(WithLimits(f, connection, window));
    PumpSettles(f.(laneQueueLimit := laneQueue));
  }

  /** `g` has the limits of `f`, and is open if `f` is. */
  predicate SameLimits(f: Flow, g: Flow) {
    LimitsOf(g) == LimitsOf(f) && g.closed == f.closed
  }

  lemma {:induction false} OthersKeepLimits(f: Flow, lane: int, w: nat, queued: nat)
    requires Valid(f)
    ensures SameLimits(f, Release(f, lane)) && SameLimits(f, TimeOut(f, lane, w)) && SameLimits(f, Wait(f, lane, queued).0)
    ensures SameLimits(f, TryAcquire(f, lane).0) && SameLimits(f, CancelQueued(f)) && LimitsOf(Close(f)) == LimitsOf(f)
    ensures Close(f).closed
  {
    hide Valid, SameLimits, Close, CancelQueued, TimeOut, Wait, TryAcquire, Release;
    ReleaseKeepsLimits(f, lane);
    TimeOutKeepsLimits(f, lane, w);
    WaitKeepsLimits(f, lane, queued);
    CancelKeepsLimits(f);
  }

  lemma TimeOutKeepsLimits(f: Flow, lane: int, w: nat)
    ensures SameLimits(f, TimeOut(f, lane, w))
  {
    hide Without, WithoutLane;
  }

  lemma WaitKeepsLimits(f: Flow, lane: int, queued: nat)
    ensures SameLimits(f, Wait(f, lane, queued).0) && SameLimits(f, TryAcquire(f, lane).0)
  {
  }

  lemma CancelKeepsLimits(f: Flow)
    ensures SameLimits(f, CancelQueued(f)) && LimitsOf(Close(f)) == LimitsOf(f) && Close(f).closed
  {
  }

  lemma {:induction false} ReleaseKeepsLimits(f: Flow, lane: int)
    requires Valid(f)
    ensures SameLimits(f, Release(f, lane))
  {
    hide ReadyMatches, QueuesMatch, EveryWaiterQueued, Pump, AtRest, CanGrant;
    PumpSettles(ReturnCredit(f, lane));
  }

  /** The credits that an operation has handed to waiters: those of the waiters of each lane that it
      granted. */
  function GrantedIn(f: Flow, g: Flow, lane: int): set<nat> {
    set w | w in QueueOf(f, lane) && w in g.outcomes && g.outcomes[w] == Granted
  }

  lemma {:induction false} GrantCounts(f: Flow, p: nat, lane: int)
    requires Valid(f) && !f.closed && ReadyAt(f, p)
    ensures var g := Grant(f, p);
            && (forall w | w in QueueOf(g, lane) :: w in QueueOf(f, lane))
            && (if lane == f.ready[p]
                then g.active[lane] == f.active[lane] + 1 && QueueOf(f, lane) == [QueueOf(f, lane)[0]] + QueueOf(g, lane)
                     && QueueOf(f, lane)[0] !in QueueOf(g, lane)
                     && g.outcomes == f.outcomes[QueueOf(f, lane)[0] := Granted]
                else g.active[lane] == f.active[lane] && QueueOf(g, lane) == QueueOf(f, lane)
                     && forall w | w in QueueOf(g, lane) :: w in g.outcomes <==> w in f.outcomes)
  {
    var first := f.ready[p];
    var q := f.queues[first];
    assert Queued(f.queues, first, q[0]);
    assert q == [q[0]] + q[1..];
    forall w | w in QueueOf(f, lane)
      ensures Queued(f.queues, lane, w)
    {
    }
  }

  lemma {:induction false} NothingGranted(f: Flow, lane: int)
    requires Valid(f)
    ensures GrantedIn(f, f, lane) == {}
  {
    forall w | w in QueueOf(f, lane)
      ensures w !in f.outcomes
    {
      assert Queued(f.queues, lane, w);
    }
  }

  lemma {:induction false} GrantedThere(f: Flow, g: Flow, h: Flow, lane: int)
    requires QueueOf(f, lane) != [] && QueueOf(f, lane) == [QueueOf(f, lane)[0]] + QueueOf(g, lane)
    requires QueueOf(f, lane)[0] !in QueueOf(g, lane)
    requires QueueOf(f, lane)[0] in h.outcomes && h.outcomes[QueueOf(f, lane)[0]] == Granted
    ensures |GrantedIn(f, h, lane)| == |GrantedIn(g, h, lane)| + 1
  {
    var w := QueueOf(f, lane)[0];
    assert forall x :: x in QueueOf(f, lane) <==> x == w || x in QueueOf(g, lane);
    assert GrantedIn(f, h, lane) == GrantedIn(g, h, lane) + {w};
    assert w !in GrantedIn(g, h, lane);
  }

  lemma GrantedElsewhere(f: Flow, g: Flow, h: Flow, lane: int)
    requires QueueOf(f, lane) == QueueOf(g, lane)
    ensures GrantedIn(f, h, lane) == GrantedIn(g, h, lane)
  {
  }

  /** Handing on credits uses one for each waiter that is granted, on that waiter's own lane. */
  lemma {:induction false} PumpCounts(f: Flow, lane: int)
    requires Valid(f)
    ensures Pump(f).active[lane] == f.active[lane] + |GrantedIn(f, Pump(f), lane)|
    decreases f.connectionLimit - |f.active|
  {
    hide GrantedIn, QueueOf, Grant, ReadyMatches, QueuesMatch, EveryWaiterQueued, AtRest;
    if !CanGrant(f) {
      NothingGranted(f, lane);
    } else {
      var p := FirstGrantable(f, 0).value;
      GrantFacts(f, p);
      var g := Grant(f, p);
      GrantCounts(f, p, lane);
      PumpCounts(g, lane);
      PumpSettles(g);
      if lane == f.ready[p] {
        GrantedThere(f, g, Pump(g), lane);
      } else {
        GrantedElsewhere(f, g, Pump(g), lane);
      }
    }
  }

  lemma {:induction false} GrantFacts(f: Flow, p: nat)
    requires Valid(f) && p < |f.ready| && !f.closed
    ensures ReadyAt(f, p) && Valid(Grant(f, p)) && |Grant(f, p).active| == |f.active| + 1
    ensures Grant(f, p).connectionLimit == f.connectionLimit && QueueOf(f, f.ready[p]) != []
  {
    assert f.ready[p] in f.ready;
    GrantKeepsValid(f, p);
    hide QueuesMatch, EveryWaiterQueued;
  }

  /** A release gives back one credit of its lane, if that lane has one in use, and hands on what is
      free: on every lane the credits in use change by the one given back and by one for each waiter
      that has been granted. */
  lemma {:induction false} ReleasesExactly(f: Flow, lane: int, other: int)
    requires Valid(f) && AtRest(f)
    ensures var g := Release(f, lane);
            g.active[other] == f.active[other] + |GrantedIn(f, g, other)| - (if other == lane && f.active[lane] > 0 then 1 else 0)
  {
    if lane in f.active {
      PumpCounts(ReturnCredit(f, lane), other);
      GrantedElsewhere(ReturnCredit(f, lane), f, Release(f, lane), other);
    } else {
      NothingGranted(f, other);
    }
    hide GrantedIn, Pump, ReadyMatches, QueuesMatch, EveryWaiterQueued, AtRest;
  }
}
