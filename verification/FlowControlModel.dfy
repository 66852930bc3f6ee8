/** Request credits of one connection, as values: credits in use per lane, a first-come
    first-served queue of waiters per lane, and the round-robin order of the waiting lanes. */
module FlowControlModel {
  import opened Wrappers

  datatype Outcome = Granted | TimedOut | Cancelled

  /** `active` holds one element per credit in use, namely its lane. `outcomes` are the settled
      waiters, `issued` the number of waiters ever queued; `lanes` is the lane of each of them. */
  datatype Flow = Flow(closed: bool, connectionLimit: nat, laneQueueLimit: nat, laneWindowLimit: nat, maxQueued: nat,
                       active: multiset<int>, queues: map<int, seq<nat>>, ready: seq<int>,
                       outcomes: map<nat, Outcome>, issued: nat)
  {
    function LaneLimit(): nat {
      if laneWindowLimit < laneQueueLimit then laneWindowLimit else laneQueueLimit
    }

    /** A credit could be given to this lane right now. */
    predicate HasCredit(lane: int) {
      !closed && |active| < connectionLimit && active[lane] < LaneLimit()
    }

    predicate Waiting(w: nat) {
      w < issued && w !in outcomes
    }
  }

  datatype WaitRefusal = ConnectionClosed | LaneQueueDisabled | QueueFull

  // ----- Well-formed states -----

  predicate Distinct(s: seq<int>) {
    forall i, j | 0 <= i < j < |s| :: s[i] != s[j]
  }

  predicate InOrder(q: seq<nat>) {
    forall i, j | 0 <= i < j < |q| :: q[i] < q[j]
  }

  /** The ready lanes are exactly the lanes with a queue, each once. */
  ghost predicate ReadyMatches(ready: seq<int>, queues: map<int, seq<nat>>) {
    && Distinct(ready)
    && (forall lane :: lane in ready <==> lane in queues)
    && forall lane | lane in queues :: queues[lane] != []
  }

  predicate Queued(queues: map<int, seq<nat>>, lane: int, w: nat) {
    lane in queues && w in queues[lane]
  }

  /** Queues hold unsettled waiters in the order they were issued, each in one queue. */
  ghost predicate QueuesMatch(queues: map<int, seq<nat>>, outcomes: map<nat, Outcome>, issued: nat) {
    && (forall lane | lane in queues :: InOrder(queues[lane]))
    && (forall w | w in outcomes :: w < issued)
    && (forall lane, w: nat | Queued(queues, lane, w) :: w < issued && w !in outcomes)
    && (forall l, m, w: nat | Queued(queues, l, w) && Queued(queues, m, w) :: l == m)
  }

  ghost predicate EveryWaiterQueued(queues: map<int, seq<nat>>, outcomes: map<nat, Outcome>, issued: nat) {
    forall w: nat | w < issued && w !in outcomes :: exists lane :: Queued(queues, lane, w)
  }

  ghost predicate Matches(f: Flow) {
    ReadyMatches(f.ready, f.queues) && QueuesMatch(f.queues, f.outcomes, f.issued)
  }

  ghost predicate Valid(f: Flow) {
    && Matches(f) && EveryWaiterQueued(f.queues, f.outcomes, f.issued)
    && (f.closed ==> f.queues == map[])
  }

  /** No waiting lane could be granted a credit. */
  ghost predicate AtRest(f: Flow) {
    forall lane | lane in f.queues :: !f.HasCredit(lane)
  }

  // ----- Granting -----

  /** The position of the first ready lane from p on that has room, if there is one. */
  function FirstGrantable(f: Flow, p: nat): (r: Option<nat>)
    requires p <= |f.ready|
    ensures r.Some? ==> p <= r.value < |f.ready| && f.active[f.ready[r.value]] < f.LaneLimit()
    ensures forall q | p <= q < (if r.Some? then r.value else |f.ready|) :: f.active[f.ready[q]] >= f.LaneLimit()
    decreases |f.ready| - p
  {
    if p == |f.ready| then None
    else if f.active[f.ready[p]] < f.LaneLimit() then Some(p)
    else FirstGrantable(f, p + 1)
  }

  predicate ReadyAt(f: Flow, p: nat) {
    p < |f.ready| && f.ready[p] in f.queues && f.queues[f.ready[p]] != []
  }

  /** Grant a credit to the oldest waiter of the lane at position p; the lanes passed over, and
      this one if it still has waiters, move to the back. */
  function Grant(f: Flow, p: nat): Flow
    requires ReadyAt(f, p)
  {
    var lane := f.ready[p];
    var q := f.queues[lane];
    var others := f.ready[p + 1..] + f.ready[..p];
    f.(active := f.active + multiset{lane},
       queues := if |q| > 1 then f.queues[lane := q[1..]] else f.queues - {lane},
       ready := if |q| > 1 then others + [lane] else others,
       outcomes := f.outcomes[q[0] := Granted])
  }

  predicate CanGrant(f: Flow) {
    !f.closed && |f.active| < f.connectionLimit && FirstGrantable(f, 0).Some?
  }

  /** Grant credits until no waiting lane can be granted one. */
  function Pump(f: Flow): Flow
    requires Matches(f)
    decreases f.connectionLimit - |f.active|
  {
    if !CanGrant(f) then f
    else
      var p := FirstGrantable(f, 0).value;
      assert f.ready[p] in f.ready;
      GrantKeepsMatches(f, p);
      Pump(Grant(f, p))
  }

  // ----- The operations -----

  function TryAcquire(f: Flow, lane: int): (r: (Flow, bool)) {
    if f.HasCredit(lane) then (f.(active := f.active + multiset{lane}), true) else (f, false)
  }

  /** Queue a waiter, unless that is refused; the waiter is the next number. */
  function Wait(f: Flow, lane: int, queued: nat): (Flow, Option<WaitRefusal>) {
    if f.closed then (f, Some(ConnectionClosed))
    else if f.laneQueueLimit == 0 then (f, Some(LaneQueueDisabled))
    else if queued >= f.maxQueued then (f, Some(QueueFull))
    else (Enqueue(f, lane), None)
  }

  function Enqueue(f: Flow, lane: int): Flow {
    if lane in f.queues
    then f.(queues := f.queues[lane := f.queues[lane] + [f.issued]], issued := f.issued + 1)
    else f.(queues := f.queues[lane := [f.issued]], ready := f.ready + [lane], issued := f.issued + 1)
  }

  function Without(q: seq<nat>, w: nat): (r: seq<nat>)
    ensures forall x :: x in r <==> x in q && x != w
    ensures InOrder(q) ==> InOrder(r)
  {
    if q == [] then []
    else
      var r := Without(q[1..], w);
      assert forall x :: x in q <==> x == q[0] || x in q[1..];
      assert forall i | 0 <= i < |r| :: r[i] in q[1..];
      if q[0] == w then r else [q[0]] + r
  }

  function WithoutLane(ready: seq<int>, lane: int): (r: seq<int>)
    ensures forall x :: x in r <==> x in ready && x != lane
    ensures Distinct(ready) ==> Distinct(r)
  {
    if ready == [] then []
    else
      var r := WithoutLane(ready[1..], lane);
      assert forall x :: x in ready <==> x == ready[0] || x in ready[1..];
      assert forall i | 0 <= i < |r| :: r[i] in ready[1..];
      if ready[0] == lane then r else [ready[0]] + r
  }

  /** The timer of a waiter on this lane fires; nothing happens if the waiter is settled. */
  function TimeOut(f: Flow, lane: int, w: nat): Flow {
    if !f.Waiting(w) || lane !in f.queues then f
    else
      var q := Without(f.queues[lane], w);
      var g := f.(outcomes := f.outcomes[w := TimedOut]);
      if q == [] then g.(queues := f.queues - {lane}, ready := WithoutLane(f.ready, lane))
      else g.(queues := f.queues[lane := q])
  }

  /** A credit comes back; a lane without credits in use ignores it. */
  function ReturnCredit(f: Flow, lane: int): Flow {
    if lane in f.active then f.(active := f.active - multiset{lane}) else f
  }

  function Release(f: Flow, lane: int): Flow
    requires Matches(f)
  {
    if lane !in f.active then f else Pump(ReturnCredit(f, lane))
  }

  function WithLimits(f: Flow, connection: Option<nat>, lane: Option<nat>): Flow {
    f.(connectionLimit := if connection.Some? then connection.value else f.connectionLimit,
       laneWindowLimit := if lane.Some? then lane.value else f.laneWindowLimit)
  }

  function UpdateLimits(f: Flow, connection: Option<nat>, lane: Option<nat>): Flow
    requires Matches(f)
  {
    Pump(WithLimits(f, connection, lane))
  }

  function UpdateLaneQueueLimit(f: Flow, limit: nat): Flow
    requires Matches(f)
  {
    Pump(f.(laneQueueLimit := limit))
  }

  function CancelQueued(f: Flow): Flow {
    f.(queues := map[], ready := [],
       outcomes := map w: nat | w < f.issued :: if w in f.outcomes then f.outcomes[w] else Cancelled)
  }

  function Close(f: Flow): Flow {
    if f.closed then f else CancelQueued(f).(closed := true)
  }

  // ----- Every operation keeps a valid state, at rest -----

  lemma {:induction false} GrantKeepsMatches(f: Flow, p: nat)
    requires Matches(f) && p < |f.ready| && f.ready[p] in f.queues
    ensures f.queues[f.ready[p]] != [] && Matches(Grant(f, p))
  {
    var lane, g := f.ready[p], Grant(f, p);
    RotateReady(f.ready, p);
    GrantKeepsQueues(f, p);
  }

  lemma {:induction false} RotateReady(ready: seq<int>, p: nat)
    requires Distinct(ready) && p < |ready|
    ensures Distinct(ready[p + 1..] + ready[..p])
    ensures forall x :: x in ready[p + 1..] + ready[..p] <==> x in ready && x != ready[p]
  {
    var others := ready[p + 1..] + ready[..p];
    forall i | 0 <= i < |others|
      ensures others[i] == ready[if i < |ready| - p - 1 then p + 1 + i else i - (|ready| - p - 1)]
    {
    }
    forall x
      ensures x in others <==> x in ready && x != ready[p]
    {
      if x in ready && x != ready[p] {
        var i :| 0 <= i < |ready| && ready[i] == x;
        assert others[if i > p then i - p - 1 else |ready| - p - 1 + i] == x;
      }
    }
  }

  /** Of the queues after a grant: what was queued and is not the granted waiter still is. */
  lemma {:induction false} GrantKeepsQueues(f: Flow, p: nat)
    requires Matches(f) && p < |f.ready| && f.ready[p] in f.queues && f.queues[f.ready[p]] != []
    ensures var g := Grant(f, p); QueuesMatch(g.queues, g.outcomes, g.issued)
    ensures forall l, w: nat :: Queued(Grant(f, p).queues, l, w)
                                <==> Queued(f.queues, l, w) && w != f.queues[f.ready[p]][0]
  {
    var lane, g := f.ready[p], Grant(f, p);
    var q := f.queues[lane];
    assert q == [q[0]] + q[1..];
    forall l, w: nat
      ensures Queued(g.queues, l, w) <==> Queued(f.queues, l, w) && w != q[0]
    {
      assert Queued(f.queues, lane, q[0]);
      if l == lane {
        assert w in q <==> w == q[0] || w in q[1..];
        assert q[0] !in q[1..];
      } else if Queued(f.queues, l, q[0]) {
        assert false;
      }
    }
  }

  lemma {:induction false} GrantKeepsValid(f: Flow, p: nat)
    requires Valid(f) && p < |f.ready| && !f.closed
    ensures f.ready[p] in f.queues && f.queues[f.ready[p]] != [] && Valid(Grant(f, p))
  {
    assert f.ready[p] in f.ready;
    GrantKeepsMatches(f, p);
    GrantKeepsQueues(f, p);
    var g := Grant(f, p);
    forall w: nat | w < g.issued && w !in g.outcomes
      ensures exists l :: Queued(g.queues, l, w)
    {
      var l :| Queued(f.queues, l, w);
      assert Queued(g.queues, l, w);
    }
  }

  /** Pumping stops with nothing left to grant, and it only grants: credits are added, and every
      waiter is either still queued or has been granted one. */
  lemma {:induction false} PumpSettles(f: Flow)
    requires Valid(f)
    ensures Valid(Pump(f)) && AtRest(Pump(f)) && !CanGrant(Pump(f))
    ensures f.active <= Pump(f).active
    ensures Pump(f) == f.(active := Pump(f).active, queues := Pump(f).queues, ready := Pump(f).ready,
                          outcomes := Pump(f).outcomes)
    ensures forall w | w in f.outcomes :: w in Pump(f).outcomes && Pump(f).outcomes[w] == f.outcomes[w]
    ensures forall w | w in Pump(f).outcomes && w !in f.outcomes :: Pump(f).outcomes[w] == Granted
    decreases f.connectionLimit - |f.active|
  {
    if !CanGrant(f) {
      forall lane | lane in f.queues
        ensures !f.HasCredit(lane)
      {
        var p :| 0 <= p < |f.ready| && f.ready[p] == lane;
      }
    } else {
      var p := FirstGrantable(f, 0).value;
      assert f.ready[p] in f.ready;
      GrantKeepsValid(f, p);
      assert Queued(f.queues, f.ready[p], f.queues[f.ready[p]][0]);
      PumpSettles(Grant(f, p));
    }
  }

  /** No credit is granted at or above a limit: pumping raises the credits in use at most to the
      connection limit, and those of a lane at most to the lane limit. */
  lemma {:induction false} PumpRespectsLimits(f: Flow, lane: int)
    requires Valid(f)
    ensures |Pump(f).active| <= if |f.active| > f.connectionLimit then |f.active| else f.connectionLimit
    ensures Pump(f).active[lane] <= if f.active[lane] > f.LaneLimit() then f.active[lane] else f.LaneLimit()
    decreases f.connectionLimit - |f.active|
  {
    if CanGrant(f) {
      var p := FirstGrantable(f, 0).value;
      assert f.ready[p] in f.ready;
      GrantKeepsValid(f, p);
      PumpRespectsLimits(Grant(f, p), lane);
    }
  }

  lemma AcquireKeepsValid(f: Flow, lane: int)
    requires Valid(f) && AtRest(f)
    ensures Valid(TryAcquire(f, lane).0) && AtRest(TryAcquire(f, lane).0)
  {
  }

  /** The fast path never overtakes: a credit is acquired directly only if no waiter is queued
      for the lane, and never at or above a limit. */
  lemma AcquireNeverOvertakes(f: Flow, lane: int)
    requires Valid(f) && AtRest(f) && TryAcquire(f, lane).1
    ensures lane !in f.queues
    ensures |f.active| < f.connectionLimit && f.active[lane] < f.LaneLimit() && !f.closed
  {
  }

  lemma {:induction false} EnqueueKeepsValid(f: Flow, lane: int)
    requires Valid(f) && !f.closed
    ensures Valid(Enqueue(f, lane))
  {
    var g := Enqueue(f, lane);
    var q := if lane in f.queues then f.queues[lane] else [];
    assert g.queues[lane] == q + [f.issued];
    forall l, w: nat
      ensures Queued(g.queues, l, w) <==> Queued(f.queues, l, w) || (l == lane && w == f.issued)
    {
    }
    forall i | 0 <= i < |q|
      ensures q[i] < f.issued
    {
      assert Queued(f.queues, lane, q[i]);
    }
    forall w: nat | w < g.issued && w !in g.outcomes
      ensures exists l :: Queued(g.queues, l, w)
    {
      if w == f.issued {
        assert Queued(g.queues, lane, w);
      } else {
        var l :| Queued(f.queues, l, w);
        assert Queued(g.queues, l, w);
      }
    }
    forall x
      ensures x in g.ready <==> x in g.queues
    {
      assert x in g.ready <==> x in f.ready || x == lane;
    }
  }

  /** Waiting is for callers whose acquisition has just failed; then nothing becomes grantable. */
  lemma {:induction false} WaitKeepsValid(f: Flow, lane: int, queued: nat)
    requires Valid(f) && AtRest(f) && !TryAcquire(f, lane).1
    ensures Valid(Wait(f, lane, queued).0) && AtRest(Wait(f, lane, queued).0)
  {
    if !f.closed { EnqueueKeepsValid(f, lane); }
  }

  lemma {:induction false} TimeOutKeepsValid(f: Flow, lane: int, w: nat)
    requires Valid(f) && AtRest(f)
    requires f.Waiting(w) ==> Queued(f.queues, lane, w)
    ensures Valid(TimeOut(f, lane, w)) && AtRest(TimeOut(f, lane, w))
  {
    if f.Waiting(w) {
      var g := TimeOut(f, lane, w);
      forall l, v: nat
        ensures Queued(g.queues, l, v) <==> Queued(f.queues, l, v) && v != w
      {
        assert Queued(f.queues, lane, w);
      }
      forall v: nat | v < g.issued && v !in g.outcomes
        ensures exists l :: Queued(g.queues, l, v)
      {
        var l :| Queued(f.queues, l, v);
        assert Queued(g.queues, l, v);
      }
    }
  }

  lemma {:induction false} ReleaseKeepsValid(f: Flow, lane: int)
    requires Valid(f) && AtRest(f)
    ensures Valid(Release(f, lane)) && AtRest(Release(f, lane))
  {
    if lane in f.active { PumpSettles(ReturnCredit(f, lane)); }
  }

  lemma {:induction false} LimitsKeepValid(f: Flow, connection: Option<nat>, lane: Option<nat>, laneQueue: nat)
    requires Valid(f)
    ensures Valid(UpdateLimits(f, connection, lane)) && AtRest(UpdateLimits(f, connection, lane))
    ensures Valid(UpdateLaneQueueLimit(f, laneQueue)) && AtRest(UpdateLaneQueueLimit(f, laneQueue))
  {
    PumpSettles(WithLimits(f, connection, lane));
    PumpSettles(f.(laneQueueLimit := laneQueue));
  }

  /** Cancelling settles every waiter that was still queued, as cancelled, and no other. */
  lemma CancelSettlesAll(f: Flow)
    requires Valid(f)
    ensures Valid(CancelQueued(f)) && AtRest(CancelQueued(f)) && Valid(Close(f)) && AtRest(Close(f))
    ensures forall w: nat | w < f.issued ::
              w in CancelQueued(f).outcomes
              && CancelQueued(f).outcomes[w] == if f.Waiting(w) then Cancelled else f.outcomes[w]
  {
  }

  // ----- First come, first served, and bounded bypass -----

  /** The waiter granted a credit is older than every other waiter of its lane. */
  lemma {:induction false} GrantsOldest(f: Flow, p: nat, w: nat)
    requires Valid(f) && p < |f.ready| && Queued(f.queues, f.ready[p], w)
    ensures f.queues[f.ready[p]][0] <= w
    ensures Grant(f, p).Waiting(w) <==> w != f.queues[f.ready[p]][0]
  {
    var q := f.queues[f.ready[p]];
    var i :| 0 <= i < |q| && q[i] == w;
  }

  predicate AtPosition(f: Flow, lane: int, p: nat) {
    p < |f.ready| && f.ready[p] == lane
  }

  /** One grant of the pump. */
  predicate GrantStep(f: Flow, g: Flow) {
    CanGrant(f) && f.ready[FirstGrantable(f, 0).value] in f.queues
    && f.queues[f.ready[FirstGrantable(f, 0).value]] != [] && g == Grant(f, FirstGrantable(f, 0).value)
  }

  /** The lane that a grant step serves. */
  function Served(f: Flow): int
    requires CanGrant(f)
  {
    f.ready[FirstGrantable(f, 0).value]
  }

  /** A grant either serves a grantable lane at position p or moves it closer to the front. */
  lemma {:induction false} GrantMovesLaneUp(f: Flow, g: Flow, lane: int, p: nat)
    requires Valid(f) && GrantStep(f, g) && AtPosition(f, lane, p) && f.HasCredit(lane)
    ensures Served(f) == lane || exists q: nat :: q < p && AtPosition(g, lane, q)
  {
    var q := FirstGrantable(f, 0).value;
    if q != p {
      assert q < p;
      assert g.ready[p - q - 1] == lane;
      assert AtPosition(g, lane, p - q - 1);
    }
  }

  /** Everything else that can happen between two grants. */
  datatype Other = Acquire(lane: int) | Queue(lane: int, queued: nat) | Expire(lane: int, waiter: nat)
                 | Return(lane: int) | NewLimits(connection: Option<nat>, window: Option<nat>) | NewLaneQueue(limit: nat)

  function Apply(f: Flow, o: Other): Flow {
    match o
    case Acquire(lane) => TryAcquire(f, lane).0
    case Queue(lane, queued) => Wait(f, lane, queued).0
    case Expire(lane, w) => TimeOut(f, lane, w)
    case Return(lane) => ReturnCredit(f, lane)
    case NewLimits(connection, window) => WithLimits(f, connection, window)
    case NewLaneQueue(limit) => f.(laneQueueLimit := limit)
  }

  ghost predicate OtherStep(f: Flow, g: Flow) {
    exists o :: g == Apply(f, o)
  }

  lemma {:induction false} WithoutLanePosition(ready: seq<int>, gone: int, lane: int, p: nat)
    requires p < |ready| && ready[p] == lane && lane != gone
    ensures exists q: nat :: q <= p && q < |WithoutLane(ready, gone)| && WithoutLane(ready, gone)[q] == lane
  {
    if p == 0 {
      assert WithoutLane(ready, gone)[0] == lane;
    } else {
      WithoutLanePosition(ready[1..], gone, lane, p - 1);
      var q: nat :| q <= p - 1 && q < |WithoutLane(ready[1..], gone)| && WithoutLane(ready[1..], gone)[q] == lane;
      if ready[0] == gone {
        assert WithoutLane(ready, gone)[q] == lane;
      } else {
        assert WithoutLane(ready, gone)[q + 1] == lane;
      }
    }
  }

  /** No other step moves a waiting lane back. */
  lemma {:induction false} OtherStepsKeepPlace(f: Flow, g: Flow, lane: int, p: nat)
    requires Valid(f) && OtherStep(f, g) && AtPosition(f, lane, p) && lane in g.queues
    ensures exists q: nat :: q <= p && AtPosition(g, lane, q)
  {
    var o :| g == Apply(f, o);
    if o.Expire? {
      TimeOutKeepsPlace(f, o.lane, o.waiter, lane, p);
    } else {
      assert AtPosition(g, lane, p);
    }
  }

  lemma {:induction false} TimeOutKeepsPlace(f: Flow, l: int, w: nat, lane: int, p: nat)
    requires Valid(f) && AtPosition(f, lane, p) && lane in TimeOut(f, l, w).queues
    ensures exists q: nat :: q <= p && AtPosition(TimeOut(f, l, w), lane, q)
  {
    var g := TimeOut(f, l, w);
    if f.Waiting(w) && l in f.queues && Without(f.queues[l], w) == [] {
      WithoutLanePosition(f.ready, l, lane, p);
      var q: nat :| q <= p && q < |g.ready| && g.ready[q] == lane;
      assert AtPosition(g, lane, q);
    } else {
      assert AtPosition(g, lane, p);
    }
  }

  ghost predicate IsTrace(trace: seq<Flow>) {
    && |trace| > 0
    && (forall t | 0 <= t < |trace| :: Valid(trace[t]))
    && forall t | 0 <= t < |trace| - 1 :: GrantStep(trace[t], trace[t + 1]) || OtherStep(trace[t], trace[t + 1])
  }

  /** The lane keeps waiting throughout, could be granted a credit whenever one is granted, and
      is never the one that gets it. */
  ghost predicate PassedOver(trace: seq<Flow>, lane: int) {
    && (forall t | 0 <= t < |trace| :: lane in trace[t].queues)
    && forall t | 0 <= t < |trace| - 1 && GrantStep(trace[t], trace[t + 1]) ::
         trace[t].HasCredit(lane) && Served(trace[t]) != lane
  }

  function GrantsIn(trace: seq<Flow>): nat {
    if |trace| < 2 then 0
    else GrantsIn(trace[1..]) + (if GrantStep(trace[0], trace[1]) then 1 else 0)
  }

  /** A lane that waits at ready position p and stays grantable is passed over at most p times:
      it gets a credit within p + 1 grants, whatever else happens in between. */
  lemma {:induction false} BoundedBypass(trace: seq<Flow>, lane: int, p: nat)
    requires IsTrace(trace) && PassedOver(trace, lane) && AtPosition(trace[0], lane, p)
    ensures GrantsIn(trace) <= p
    decreases |trace|
  {
    if |trace| > 1 {
      var f, g, rest := trace[0], trace[1], trace[1..];
      assert IsTrace(rest) && PassedOver(rest, lane);
      if GrantStep(f, g) {
        GrantMovesLaneUp(f, g, lane, p);
        var q: nat :| q < p && AtPosition(g, lane, q);
        BoundedBypass(rest, lane, q);
      } else {
        OtherStepsKeepPlace(f, g, lane, p);
        var q: nat :| q <= p && AtPosition(g, lane, q);
        BoundedBypass(rest, lane, q);
      }
    }
  }
}
