/** What holds over every run of a connection. */
module ConnectionRuns {
  import opened Wrappers
  import F = FlowControlModel
  import W = WriteQueueModel
  import opened NativeConnectionModel
  import opened ConnectionInvariant
  import opened ConnectionSteps

  function Run(c: Connection, cfg: Config, socket: W.Socket, steps: seq<Step>): (r: Connection)
    requires Inv(c, cfg)
    ensures Inv(r, cfg)
    decreases |steps|
  {
    if steps == [] then c
    else
      StepKeepsInv(c, cfg, socket, steps[0]);
      Run(Apply(c, cfg, socket, steps[0]), cfg, socket, steps[1..])
  }

  /** A new connection. */
  ghost predicate Fresh(c: Connection) {
    exists flow: F.Flow :: c == Initial(flow) && F.Valid(flow) && !flow.closed && flow.active == multiset{} && flow.queues == map[]
                           && flow.outcomes == map[] && flow.issued == 0
  }

  lemma {:induction false} FreshIsValid(c: Connection, cfg: Config)
    requires Fresh(c)
    ensures Inv(c, cfg)
  {
    assert Ids(c.writes.queue) == {} && Ids(c.writes.handed) == {};
    assert forall lane :: Holders(c.pending, lane) == {} && GrantedOn(c.parked, c.flow.outcomes, lane) == {};
    assert Controls(c.pending) == {};
    assert W.INITIAL.handed + W.INITIAL.queue == [];
  }

  /** Conservation: after any run the credits in use on a lane are exactly those of the correlated
      requests that hold one there and of the granted waiters that have not been resumed, the
      control counter is the number of correlated requests without a credit, and it is within
      its limit. */
  lemma {:induction false} CreditsAreConserved(c: Connection, cfg: Config, socket: W.Socket, steps: seq<Step>, lane: int)
    requires Fresh(c)
    ensures Inv(c, cfg)
    ensures var r := Run(c, cfg, socket, steps);
            && r.flow.active[lane] == |Holders(r.pending, lane)| + |GrantedOn(r.parked, r.flow.outcomes, lane)|
            && r.controls == |Controls(r.pending)| <= cfg.maxControls
  {
    FreshIsValid(c, cfg);
    var r := Run(c, cfg, socket, steps);
    assert CreditsOk(r.flow.active, multiset{}, r.pending, r.parked, r.flow.outcomes);
  }

  /** After any run a correlated request is in exactly one of two places: the write queue, or
      with the socket. */
  lemma {:induction false} EveryRequestIsInOnePlace(c: Connection, cfg: Config, socket: W.Socket, steps: seq<Step>, id: nat)
    requires Fresh(c)
    ensures Inv(c, cfg)
    ensures var r := Run(c, cfg, socket, steps);
            id in r.pending ==> (W.Holds(r.writes.queue, id) <==> !W.Holds(r.writes.handed, id))
  {
    FreshIsValid(c, cfg);
    var r := Run(c, cfg, socket, steps);
    HoldsIsMembership(r.writes.queue, id);
    HoldsIsMembership(r.writes.handed, id);
  }

  // ----- Settlement -----

  /** What a run can only add to. */
  predicate Grows(c: Connection, d: Connection) {
    && c.calls <= d.calls && c.nextId <= d.nextId
    && (forall call | call in c.outcomes :: call in d.outcomes && d.outcomes[call] == c.outcomes[call])
    && (forall call | call in c.idOf :: call in d.idOf && d.idOf[call] == c.idOf[call])
  }

  lemma GrowsOnwards(c: Connection, d: Connection, e: Connection)
    requires Grows(c, d) && Grows(d, e)
    ensures Grows(c, e)
  {
  }

  lemma FinishGrows(c: Connection)
    requires Steady(c)
    ensures Grows(c, FinishDrainIfIdle(c)) && FinishDrainIfIdle(c).nextId == c.nextId
  {
  }

  lemma TakePendingGrows(c: Connection, id: nat)
    requires Steady(c) && id in c.pending
    ensures Grows(c, TakePending(c, id)) && TakePending(c, id).nextId == c.nextId
  {
  }

  lemma {:induction false} TakeGrows(c: Connection, id: nat, o: Outcome)
    requires Steady(c)
    ensures Grows(c, Take(c, id, o)) && Take(c, id, o).nextId == c.nextId
  {
    hide Steady;
    if id in c.pending {
      TakePendingGrows(c, id);
    }
  }

  lemma {:induction false} TakeEachGrows(c: Connection, rejections: seq<W.Rejection>)
    requires Steady(c)
    ensures Grows(c, TakeEach(c, rejections))
    decreases |rejections|
  {
    hide Steady, Take;
    if rejections != [] {
      var d := Take(c, rejections[0].requestId, OutcomeOf(rejections[0].reason));
      TakeGrows(c, rejections[0].requestId, OutcomeOf(rejections[0].reason));
      TakeEachGrows(d, rejections[1..]);
    }
  }

  lemma {:induction false} SubmitGrows(c: Connection, cfg: Config, socket: W.Socket, job: W.Job)
    requires Steady(c)
    ensures Grows(c, Submit(c, cfg, socket, job))
  {
    hide F.Valid, F.AtRest, W.Write, TakeEach;
    var (writes, rejected) := W.Write(c.writes, socket, job, cfg.maxQueuedWriteBytes);
    TakeEachGrows(c.(writes := writes), rejected);
  }

  lemma SettleGrows(c: Connection, call: nat, o: Outcome)
    ensures Grows(c, Settle(c, call, o))
  {
  }

  lemma {:induction false} UnencodedGrows(c: Connection, lane: int, hasCredit: bool)
    requires Steady(c)
    ensures Grows(c, Unencoded(c, lane, hasCredit))
  {
    hide F.Pump, F.Valid, F.AtRest;
  }

  lemma AssignGrows(c: Connection, call: nat)
    requires call !in c.idOf
    ensures Grows(c, c.(nextId := c.nextId + 1, idOf := c.idOf[call := c.nextId]))
  {
  }

  lemma {:induction false} NotEncodedGrows(c: Connection, call: nat, lane: int, hasCredit: bool)
    requires Steady(c) && call !in c.idOf
    ensures var d := c.(nextId := c.nextId + 1, idOf := c.idOf[call := c.nextId]);
            Grows(c, Settle(Unencoded(d, lane, hasCredit), call, NotEncoded))
  {
    hide F.Valid, F.AtRest, Unencoded, Grows, Settle;
    var d := c.(nextId := c.nextId + 1, idOf := c.idOf[call := c.nextId]);
    AssignGrows(c, call);
    UnencodedGrows(d, lane, hasCredit);
    SettleGrows(Unencoded(d, lane, hasCredit), call, NotEncoded);
    GrowsOnwards(c, d, Unencoded(d, lane, hasCredit));
    GrowsOnwards(c, Unencoded(d, lane, hasCredit), Settle(Unencoded(d, lane, hasCredit), call, NotEncoded));
  }

  lemma {:induction false} SendAcquiredGrows(c: Connection, cfg: Config, socket: W.Socket, call: nat, cmd: Command, hasCredit: bool)
    requires Steady(c) && call !in c.idOf
    ensures Grows(c, SendAcquired(c, cfg, socket, call, cmd, hasCredit))
  {
    hide SendNew, F.Valid, F.AtRest;
    if !hasCredit && c.controls >= cfg.maxControls {
      assert Grows(c, Settle(c, call, ControlsFull));
    } else {
      SendNewGrows(c, cfg, socket, call, cmd, hasCredit);
    }
  }

  lemma {:induction false} SendNewGrows(c: Connection, cfg: Config, socket: W.Socket, call: nat, cmd: Command, hasCredit: bool)
    requires Steady(c) && call !in c.idOf
    ensures Grows(c, SendNew(c, cfg, socket, call, cmd, hasCredit))
  {
    hide Submit, Unencoded, F.Valid, F.AtRest;
    if cmd.frame.Some? {
      var p := Pending(call, cmd.lane, cmd.opcode, hasCredit, cmd.indefinite, false, 0, 0);
      var d := Registered(c.(nextId := c.nextId + 1, idOf := c.idOf[call := c.nextId]), c.nextId, p);
      assert Grows(c, d);
      hide Grows;
      SubmitGrows(d, cfg, socket, W.Job(c.nextId, cmd.frame.value));
      GrowsOnwards(c, d, Submit(d, cfg, socket, W.Job(c.nextId, cmd.frame.value)));
    } else {
      NotEncodedGrows(c, call, cmd.lane, hasCredit);
    }
  }

  function Rejected(c: Connection, id: nat): (r: Connection)
    requires Steady(c) && id in c.pending
    ensures Steady(r) && r.nextId == c.nextId
  {
    var p := c.pending[id];
    F.ReleaseKeepsValid(c.flow, p.lane);
    var d := if p.hasCredit then c.(flow := F.Release(c.flow, p.lane)) else c;
    Settle(d.(pending := d.pending - {id}), p.call, FailureOutcome(c, id))
  }

  lemma {:induction false} RejectOneGrows(c: Connection, id: nat)
    requires Steady(c) && id in c.pending
    ensures Grows(c, Rejected(c, id))
  {
    hide F.Valid, F.AtRest, F.Pump, FailureOutcome;
  }

  lemma {:induction false} RejectFromGrows(c: Connection, id: nat)
    requires Steady(c)
    ensures Grows(c, RejectFrom(c, id))
    decreases c.nextId - id
  {
    if id < c.nextId {
      if id !in c.pending {
        RejectFromGrows(c, id + 1);
      } else {
        var p := c.pending[id];
        F.ReleaseKeepsValid(c.flow, p.lane);
        hide F.Release, F.Valid, F.AtRest, F.Pump, FailureOutcome;
        RejectFromGrows(Rejected(c, id), id + 1);
        RejectOneGrows(c, id);
        GrowsOnwards(c, Rejected(c, id), RejectFrom(Rejected(c, id), id + 1));
      }
    }
  }

  lemma {:induction false} FailAllGrows(c: Connection)
    requires Steady(c)
    ensures Grows(c, FailAll(c))
  {
    F.CancelSettlesAll(c.flow);
    hide RejectFrom, Steady, F.Valid, F.AtRest, F.Close;
    if !c.closed { RejectFromGrows(c.(closed := true, flow := F.Close(c.flow)), 0); }
  }

  lemma {:induction false} TakeIndefiniteGrows(c: Connection, n: nat)
    requires Steady(c)
    ensures Grows(c, TakeIndefinite(c, n))
  {
    hide Steady, Take, FailureOutcome;
    if n > 0 {
      TakeIndefiniteGrows(c, n - 1);
      var d := TakeIndefinite(c, n - 1);
      TakeGrows(d, n - 1, FailureOutcome(d, n - 1));
    }
  }

  lemma {:induction false} BeginDrainingGrows(c: Connection)
    requires Steady(c)
    ensures Grows(c, BeginDraining(c))
  {
    F.CancelSettlesAll(c.flow);
    hide F.Valid, F.AtRest, F.CancelQueued, TakeEach, TakeIndefinite, FinishDrainIfIdle, W.RejectQueued;
    var (writes, rejected) := W.RejectQueued(c.writes);
    var d := c.(draining := true, flow := F.CancelQueued(c.flow), writes := writes);
    TakeEachGrows(d, rejected);
    var e := TakeEach(d, rejected);
    TakeIndefiniteGrows(e, e.nextId);
    FinishGrows(TakeIndefinite(e, e.nextId));
  }

  lemma OneMoreCall(c: Connection, e: Connection)
    requires e == c.(calls := c.calls + 1, flow := e.flow)
    ensures Grows(c, c.(calls := c.calls + 1)) && Grows(c, e)
  {
  }

  lemma {:induction false} WaitGrows(c: Connection, d: Connection, call: nat, cmd: Command)
    requires Steady(c) && d == c.(calls := c.calls + 1) && call !in c.outcomes && !F.TryAcquire(c.flow, cmd.lane).1
    ensures Grows(c, WaitForCredit(d, call, cmd))
  {
    hide F.Wait, F.Valid, F.AtRest;
  }

  lemma {:induction false} NextCallIsNew(c: Connection, cfg: Config)
    requires Inv(c, cfg)
    ensures Steady(c) && c.calls !in c.outcomes && c.calls !in c.idOf
  {
    NewCall(c, cfg);
    InvFacts(c, cfg);
  }

  lemma {:induction false} RequestGrows(c: Connection, cfg: Config, socket: W.Socket, cmd: Command, privileged: bool)
    requires Inv(c, cfg)
    ensures Grows(c, Request(c, cfg, socket, cmd, privileged))
  {
    hide Inv, F.Valid, F.AtRest, Grows, SendAcquired, WaitForCredit, Settle, F.TryAcquire;
    NextCallIsNew(c, cfg);
    var d := c.(calls := c.calls + 1);
    if c.closed || (c.draining && !privileged) {
      OneMoreCall(c, d);
      SettleGrows(d, c.calls, Unsent);
      GrowsOnwards(c, d, Settle(d, c.calls, Unsent));
    } else if IsControl(cmd.opcode) {
      SentGrows(c, d, cfg, socket, cmd, false);
    } else if F.TryAcquire(c.flow, cmd.lane).1 {
      F.AcquireKeepsValid(c.flow, cmd.lane);
      SentGrows(c, d.(flow := F.TryAcquire(c.flow, cmd.lane).0), cfg, socket, cmd, true);
    } else {
      WaitGrows(c, d, c.calls, cmd);
    }
  }

  lemma {:induction false} SentGrows(c: Connection, e: Connection, cfg: Config, socket: W.Socket, cmd: Command, hasCredit: bool)
    requires Steady(e) && e == c.(calls := c.calls + 1, flow := e.flow) && c.calls !in c.idOf
    ensures Grows(c, SendAcquired(e, cfg, socket, c.calls, cmd, hasCredit))
  {
    hide F.Valid, F.AtRest, Steady, SendAcquired;
    OneMoreCall(c, e);
    SendAcquiredGrows(e, cfg, socket, c.calls, cmd, hasCredit);
    GrowsOnwards(c, e, SendAcquired(e, cfg, socket, c.calls, cmd, hasCredit));
  }

  lemma Unparked(c: Connection, w: nat, flow: F.Flow)
    ensures Grows(c, c.(parked := c.parked - {w})) && Grows(c, c.(parked := c.parked - {w}, flow := flow))
  {
  }

  lemma {:induction false} ResumeGrows(c: Connection, cfg: Config, socket: W.Socket, w: nat, expired: bool, frame: Option<W.Frame>)
    requires Inv(c, cfg)
    ensures Grows(c, Resume(c, cfg, socket, w, expired, frame))
  {
    InvFacts(c, cfg);
    if w in c.parked && w in c.flow.outcomes {
      var p := c.parked[w];
      UnparkKeeps(c, cfg, w);
      F.ReleaseKeepsValid(c.flow, p.lane);
      var d := c.(parked := c.parked - {w});
      var e := d.(flow := F.Release(c.flow, p.lane));
      var cmd := Command(p.lane, p.opcode, p.indefinite, frame);
      hide Inv, Between, SendAcquired, F.Release, F.Valid, F.AtRest, Grows, Settle;
      Unparked(c, w, e.flow);
      SettleGrows(d, p.call, if c.flow.outcomes[w].TimedOut? then UnsentTimeout else Unsent);
      SettleGrows(e, p.call, if c.closed || c.draining then Unsent else UnsentTimeout);
      SendAcquiredGrows(d, cfg, socket, p.call, cmd, true);
      if c.flow.outcomes[w] != F.Granted || !(c.closed || c.draining || (!p.indefinite && expired)) {
        GrowsOnwards(c, d, Resume(c, cfg, socket, w, expired, frame));
      } else {
        GrowsOnwards(c, e, Resume(c, cfg, socket, w, expired, frame));
      }
    } else {
      Unchanged(c);
    }
  }

  lemma {:induction false} HandleFrameGrows(c: Connection, cfg: Config, r: Response)
    requires Steady(c)
    ensures Grows(c, HandleFrame(c, cfg, r))
  {
    hide Steady, FailAll, DiscardLate, Take, ApplyLimits;
    FailAllGrows(c);
    if r.id in c.pending {
      DiscardLateGrows(c, cfg, r);
      if r.assembled.Complete? {
        var ok := r.assembled.ok;
        var d := ApplyLimits(c, r.assembled.connectionLimit, r.assembled.laneLimit);
        LimitsGrow(c, r.assembled.connectionLimit, r.assembled.laneLimit, 0);
        TakeGrows(c, r.id, if ok then Resolved else ServerError);
        TakeGrows(d, r.id, if ok then Resolved else ServerError);
      }
    }
  }

  lemma {:induction false} DiscardLateGrows(c: Connection, cfg: Config, r: Response)
    requires Steady(c) && r.id in c.pending
    ensures Grows(c, DiscardLate(c, cfg, r))
  {
    hide FailAll, TakePending;
    var p := c.pending[r.id];
    var d := c.(pending := c.pending[r.id := p.(discardedBytes := p.discardedBytes + r.bytes, discardedFrames := p.discardedFrames + 1)]);
    FailAllGrows(d);
    TakePendingGrows(d, r.id);
  }

  lemma LimitsGrow(c: Connection, connection: Option<nat>, lane: Option<nat>, laneQueue: nat)
    requires Steady(c)
    ensures Grows(c, ApplyLimits(c, connection, lane)) && Grows(c, ApplyLaneQueueLimit(c, laneQueue))
  {
  }

  lemma {:induction false} RequestExpiresGrows(c: Connection, id: nat, chunkBytes: nat, chunkFrames: nat)
    requires Steady(c)
    ensures Grows(c, RequestExpires(c, id, chunkBytes, chunkFrames))
  {
    hide Steady, Take;
    TakeGrows(c, id, UnsentTimeout);
    TakeGrows(c, id, PossiblySentTimeout);
  }

  lemma {:induction false} SocketDrainsGrows(c: Connection, socket: W.Socket)
    requires Steady(c)
    ensures Grows(c, SocketDrains(c, socket))
  {
    hide TakeEach, W.Flush;
    var (writes, rejected) := W.Flush(c.writes, socket, c.closed, c.pending.Keys);
    TakeEachGrows(c.(writes := writes), rejected);
  }

  lemma WaiterExpiresGrows(c: Connection, w: nat)
    requires Steady(c) && WaitersParked(c.flow, c.parked)
    ensures Grows(c, WaiterExpires(c, w))
  {
  }

  /** A settled request stays settled the way it was: no step settles it again. */
  lemma {:induction false} StepGrows(c: Connection, cfg: Config, socket: W.Socket, step: Step)
    requires Inv(c, cfg)
    ensures Grows(c, Apply(c, cfg, socket, step))
  {
    hide Inv, Steady, WaitersParked, Grows, Request, Resume, WaiterExpires, RequestExpires, HandleFrame, ApplyLimits;
    hide ApplyLaneQueueLimit, SocketDrains, BeginDraining, FailAll, Take;
    InvFacts(c, cfg);
    Unchanged(c);
    match step
    case RequestStep(cmd, privileged) => RequestGrows(c, cfg, socket, cmd, privileged);
    case ResumeStep(w, expired, frame) => ResumeGrows(c, cfg, socket, w, expired, frame);
    case WaiterExpiresStep(w) => WaiterExpiresGrows(c, w);
    case RequestExpiresStep(id, bytes, frames) => RequestExpiresGrows(c, id, bytes, frames);
    case GraceExpiresStep(id) => FailAllGrows(c);
    case FrameStep(response) => HandleFrameGrows(c, cfg, response);
    case LimitsStep(connection, lane) => LimitsGrow(c, connection, lane, 0);
    case LaneQueueStep(limit) => LimitsGrow(c, None, None, limit);
    case WriteFailsStep(id) => TakeGrows(c, id, PossiblySent);
    case SocketDrainsStep => SocketDrainsGrows(c, socket);
    case GoAwayStep => BeginDrainingGrows(c);
    case CloseStep => FailAllGrows(c);
  }

  lemma Unchanged(c: Connection)
    ensures Grows(c, c)
  {
  }

  lemma {:induction false} RunGrows(c: Connection, cfg: Config, socket: W.Socket, steps: seq<Step>)
    requires Inv(c, cfg)
    ensures Grows(c, Run(c, cfg, socket, steps))
    decreases |steps|
  {
    if steps == [] {
      Unchanged(c);
    } else {
      StepKeepsInv(c, cfg, socket, steps[0]);
      StepGrows(c, cfg, socket, steps[0]);
      var d := Apply(c, cfg, socket, steps[0]);
      hide Inv, Apply;
      RunGrows(d, cfg, socket, steps[1..]);
    }
  }

  /** Once a caller has been told that its request was not sent, it never will have been: however
      the run goes on, the socket has not taken and will not take its frame. */
  lemma {:induction false} UnsentIsNeverSent(c: Connection, cfg: Config, socket: W.Socket, before: seq<Step>, after: seq<Step>, call: nat)
    requires Fresh(c)
    ensures Inv(c, cfg)
    ensures var r := Run(c, cfg, socket, before);
            var s := Run(r, cfg, socket, after);
            call in r.outcomes && NeverSent(r.outcomes[call]) ==>
              && call in s.outcomes && s.outcomes[call] == r.outcomes[call]
              && (call in s.idOf ==> !W.Holds(s.writes.handed, s.idOf[call]))
  {
    FreshIsValid(c, cfg);
    var r := Run(c, cfg, socket, before);
    var s := Run(r, cfg, socket, after);
    RunGrows(r, cfg, socket, after);
    if call in s.idOf { HoldsIsMembership(s.writes.handed, s.idOf[call]); }
    assert LabelsOk(s.outcomes, s.idOf, Ids(s.writes.queue), Ids(s.writes.handed));
  }

  /** "Possibly sent" is only said when the socket has taken the frame. */
  lemma {:induction false} PossiblySentWasHanded(c: Connection, cfg: Config, socket: W.Socket, steps: seq<Step>, call: nat)
    requires Fresh(c)
    ensures Inv(c, cfg)
    ensures var r := Run(c, cfg, socket, steps);
            call in r.outcomes && MaybeSent(r.outcomes[call]) ==> call in r.idOf && W.Holds(r.writes.handed, r.idOf[call])
  {
    FreshIsValid(c, cfg);
    var r := Run(c, cfg, socket, steps);
    assert LabelsOk(r.outcomes, r.idOf, Ids(r.writes.queue), Ids(r.writes.handed));
    if call in r.idOf { HoldsIsMembership(r.writes.handed, r.idOf[call]); }
  }

  /** The request is still on its way: correlated and not timed out, or waiting for a credit. */
  ghost predicate OnItsWay(c: Connection, call: nat) {
    || (exists id :: id in c.pending && c.pending[id].call == call && !c.pending[id].timedOut)
    || (exists w :: w in c.parked && c.parked[w].call == call)
  }

  lemma {:induction false} SettledOrNot(c: Connection, cfg: Config, call: nat)
    requires Inv(c, cfg)
    ensures call < c.calls ==> (call in c.outcomes <==> !OnItsWay(c, call))
  {
    hide F.Valid, F.AtRest, CreditsOk, PlacesOk, LabelsOk, QueueOk, WaitersParked;
    if call < c.calls && call !in c.outcomes {
      assert HasOwner(call, c.idOf, c.pending, c.parked);
      if call in c.idOf && c.idOf[call] in c.pending {
        assert c.idOf[c.pending[c.idOf[call]].call] == c.idOf[call];
      }
    }
  }

  /** After any run every request that was made is either settled, once and for all, or still on
      its way, and not both. */
  lemma {:induction false} SettledOrOnItsWay(c: Connection, cfg: Config, socket: W.Socket, steps: seq<Step>, call: nat)
    requires Fresh(c)
    ensures Inv(c, cfg)
    ensures var r := Run(c, cfg, socket, steps);
            call < r.calls ==> (call in r.outcomes <==> !OnItsWay(r, call))
  {
    FreshIsValid(c, cfg);
    var r := Run(c, cfg, socket, steps);
    hide Between, Run, Fresh;
    SettledOrNot(r, cfg, call);
  }

  // ----- After the end -----

  lemma {:induction false} EmptyIds(queue: seq<W.Job>)
    ensures Ids(queue) == {} ==> queue == []
  {
    assert queue != [] ==> queue[0].requestId in Ids(queue);
  }

  /** When the connection is closed nothing is correlated or queued any more, and every waiter that
      is left has been settled, so that it can be resumed. */
  lemma {:induction false} ClosedLeavesOnlySettledWaiters(c: Connection, cfg: Config)
    requires Inv(c, cfg) && c.closed
    ensures c.pending == map[] && c.writes.queue == []
    ensures forall w | w in c.parked :: w in c.flow.outcomes
  {
    EmptyIds(c.writes.queue);
    assert forall lane, w: nat :: !F.Queued(c.flow.queues, lane, w);
    hide CreditsOk, CallsOk, LabelsOk, QueueOk, F.Matches, F.AtRest;
  }

  lemma {:induction false} GrantedHasCredit(c: Connection, cfg: Config, w: nat)
    requires Inv(c, cfg) && w in c.parked && w in c.flow.outcomes && c.flow.outcomes[w] == F.Granted
    ensures c.parked[w].lane in c.flow.active
  {
    hide F.Valid, F.AtRest, PlacesOk, LabelsOk, QueueOk, CallsOk;
    assert w in GrantedOn(c.parked, c.flow.outcomes, c.parked[w].lane);
    assert c.flow.active[c.parked[w].lane] > 0;
  }

  lemma ParkedIsUnsettled(c: Connection, cfg: Config, w: nat)
    requires Inv(c, cfg) && w in c.parked
    ensures Steady(c) && F.Valid(c.flow) && F.AtRest(c.flow)
    ensures c.parked[w].call !in c.outcomes && (c.closed <==> c.flow.closed)
  {
  }

  /** Its next step rejects it as unsent and gives its credit back, if it had been granted one. */
  lemma {:induction false} ResumeAfterClose(c: Connection, cfg: Config, socket: W.Socket, w: nat, expired: bool, frame: Option<W.Frame>)
    requires Inv(c, cfg) && c.closed && w in c.parked
    ensures var d := Resume(c, cfg, socket, w, expired, frame);
            && d.closed && d.parked == c.parked - {w} && w in c.flow.outcomes
            && c.parked[w].call in d.outcomes && NeverSent(d.outcomes[c.parked[w].call])
            && (c.flow.outcomes[w] == F.Granted ==>
                  c.parked[w].lane in c.flow.active && d.flow.active == c.flow.active - multiset{c.parked[w].lane})
  {
    hide Inv, Between, Steady, SendAcquired, F.Release;
    ClosedLeavesOnlySettledWaiters(c, cfg);
    ParkedIsUnsettled(c, cfg, w);
    if c.flow.outcomes[w] == F.Granted {
      GrantedHasCredit(c, cfg, w);
      ReleaseWhenClosed(c.flow, c.parked[w].lane);
    }
  }

  /** Nobody is granted the credit that a closed connection gets back. */
  lemma ReleaseWhenClosed(f: F.Flow, lane: int)
    requires F.Valid(f) && f.closed && lane in f.active
    ensures F.Release(f, lane).active == f.active - multiset{lane}
  {
    hide F.Valid;
  }

  /** A closed connection whose waiters have all been resumed holds no credit and has settled
      every request. */
  lemma {:induction false} ClosedAndResumedIsEmpty(c: Connection, cfg: Config)
    requires Inv(c, cfg) && c.closed && c.parked == map[]
    ensures c.flow.active == multiset{}
    ensures forall call: nat | call < c.calls :: call in c.outcomes
  {
    forall lane
      ensures c.flow.active[lane] == 0
    {
      assert Holders(c.pending, lane) == {} && GrantedOn(c.parked, c.flow.outcomes, lane) == {};
    }
    assert forall call: nat :: !HasOwner(call, c.idOf, c.pending, c.parked);
  }

  /** A draining connection that is still open waits for some correlated request. */
  lemma {:induction false} DrainingWaitsForSomething(c: Connection, cfg: Config, socket: W.Socket, steps: seq<Step>)
    requires Fresh(c)
    ensures Inv(c, cfg)
    ensures var r := Run(c, cfg, socket, steps); r.draining && !r.closed ==> r.pending != map[]
  {
    FreshIsValid(c, cfg);
  }
}
