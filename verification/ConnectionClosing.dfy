/** When a connection closes, and which limits are in force on it, step by step. */
module ConnectionClosing {
  import opened Wrappers
  import F = FlowControlModel
  import G = FlowControlEffects
  import W = WriteQueueModel
  import opened NativeConnectionModel
  import opened ConnectionInvariant
  import opened ConnectionSteps
  import opened ConnectionRuns

  /** The steps that make a connection fail: a response for a request that cannot be its own, or is too
      large; a late response that is too large, or that never comes; and an error of the socket. */
  predicate Fails(c: Connection, cfg: Config, step: Step) {
    match step
    case FrameStep(r) => r.id in c.pending && FrameFails(c.pending[r.id], cfg, r)
    case GraceExpiresStep(id) => id in c.pending && c.pending[id].timedOut
    case CloseStep => true
    case _ => false
  }

  predicate FrameFails(p: Pending, cfg: Config, r: Response) {
    || r.opcode != p.opcode || r.lane != p.lane
    || (!p.timedOut && (r.assembled.Overflow? || (r.assembled.Complete? && r.assembled.size > cfg.maxResponseBytes)))
    || (p.timedOut && (|| p.discardedBytes + r.bytes > cfg.maxResponseBytes
                       || (p.discardedBytes + r.bytes > cfg.maxChunkBytes && (r.more || p.discardedFrames > 0))
                       || p.discardedFrames + 1 > cfg.maxChunkFrames))
  }

  /** A window update that the server confirms. */
  predicate Updates(c: Connection, cfg: Config, r: Response) {
    && !c.closed && r.id in c.pending && !c.pending[r.id].timedOut && !FrameFails(c.pending[r.id], cfg, r)
    && r.assembled.Complete? && r.assembled.ok && c.pending[r.id].opcode == 0x000d
  }

  function Or(new_: Option<nat>, old_: nat): nat {
    if new_.Some? then new_.value else old_
  }

  /** The limits in force after a step. */
  function LimitsAfter(c: Connection, cfg: Config, step: Step): G.Limits {
    var l := G.LimitsOf(c.flow);
    match step
    case LimitsStep(connection, lane) => l.(connection := Or(connection, l.connection), laneWindow := Or(lane, l.laneWindow))
    case LaneQueueStep(limit) => l.(laneQueue := limit)
    case FrameStep(r) =>
      if !Updates(c, cfg, r) then l
      else l.(connection := Or(r.assembled.connectionLimit, l.connection), laneWindow := Or(r.assembled.laneLimit, l.laneWindow))
    case _ => l
  }

  // ----- What settling keeps -----

  /** `d` comes after `c` by taking requests out of the table: it closes when it is draining and the
      last one has gone. */
  predicate Follows(c: Connection, d: Connection) {
    && G.LimitsOf(d.flow) == G.LimitsOf(c.flow) && d.draining == c.draining && d.pending.Keys <= c.pending.Keys
    && (d.closed <==> c.closed || (d.draining && d.pending == map[] && c.pending != map[]))
  }

  lemma FollowsOnwards(c: Connection, d: Connection, e: Connection)
    requires Follows(c, d) && Follows(d, e)
    ensures Follows(c, e)
  {
  }

  lemma {:induction false} ReleaseForFollows(c: Connection, p: Pending)
    requires Steady(c)
    ensures ReleaseFor(c, p) == c.(flow := ReleaseFor(c, p).flow, controls := ReleaseFor(c, p).controls)
    ensures G.LimitsOf(ReleaseFor(c, p).flow) == G.LimitsOf(c.flow)
  {
    G.ReleaseKeepsLimits(c.flow, p.lane);
    hide F.Valid, F.AtRest, F.Release;
  }

  lemma {:induction false} FinishFollows(c: Connection)
    requires Steady(c)
    ensures var d := FinishDrainIfIdle(c);
            && G.LimitsOf(d.flow) == G.LimitsOf(c.flow) && d.draining == c.draining && d.pending == c.pending
            && (d.closed <==> c.closed || (c.draining && c.pending == map[]))
  {
    G.CancelKeepsLimits(c.flow);
    hide F.Valid, F.AtRest, F.Close;
  }

  lemma {:induction false} TakePendingFollows(c: Connection, id: nat)
    requires Steady(c) && id in c.pending
    ensures Follows(c, TakePending(c, id))
  {
    var d := c.(pending := c.pending - {id}, writes := W.Cancel(c.writes, id));
    ReleaseForFollows(d, c.pending[id]);
    FinishFollows(ReleaseFor(d, c.pending[id]));
    hide F.Valid, F.AtRest, FinishDrainIfIdle, ReleaseFor, W.Cancel;
  }

  lemma {:induction false} TakeFollows(c: Connection, id: nat, o: Outcome)
    requires Steady(c)
    ensures Follows(c, Take(c, id, o))
  {
    hide Steady, TakePending;
    if id in c.pending { TakePendingFollows(c, id); }
  }

  lemma {:induction false} TakeEachFollows(c: Connection, rejections: seq<W.Rejection>)
    requires Steady(c)
    ensures Follows(c, TakeEach(c, rejections))
    decreases |rejections|
  {
    if rejections == [] {
    } else {
      hide Steady, Take, Follows, OutcomeOf;
      var d := Take(c, rejections[0].requestId, OutcomeOf(rejections[0].reason));
      TakeFollows(c, rejections[0].requestId, OutcomeOf(rejections[0].reason));
      TakeEachFollows(d, rejections[1..]);
      FollowsOnwards(c, d, TakeEach(d, rejections[1..]));
    }
  }

  lemma {:induction false} TakeIndefiniteFollows(c: Connection, n: nat)
    requires Steady(c)
    ensures Follows(c, TakeIndefinite(c, n))
  {
    hide Steady, Take, Follows, FailureOutcome;
    if n == 0 {
      FollowsItself(c);
    } else {
      TakeIndefiniteFollows(c, n - 1);
      OneIndefiniteFollows(c, TakeIndefinite(c, n - 1), n - 1);
    }
  }

  lemma FollowsItself(c: Connection)
    ensures Follows(c, c)
  {
  }

  lemma {:induction false} OneIndefiniteFollows(c: Connection, d: Connection, id: nat)
    requires Steady(d) && Follows(c, d)
    ensures Follows(c, Take(d, id, FailureOutcome(d, id)))
  {
    hide Steady, Take, Follows, FailureOutcome;
    TakeFollows(d, id, FailureOutcome(d, id));
    FollowsOnwards(c, d, Take(d, id, FailureOutcome(d, id)));
  }

  lemma {:induction false} RejectedKeepsLimits(c: Connection, id: nat)
    requires Steady(c) && id in c.pending
    ensures var d := Rejected(c, id); G.LimitsOf(d.flow) == G.LimitsOf(c.flow) && d.draining == c.draining && d.closed == c.closed
  {
    G.ReleaseKeepsLimits(c.flow, c.pending[id].lane);
    hide F.Valid, F.AtRest, F.Release, FailureOutcome;
  }

  lemma {:induction false} RejectFromKeepsLimits(c: Connection, id: nat)
    requires Steady(c)
    ensures var d := RejectFrom(c, id); G.LimitsOf(d.flow) == G.LimitsOf(c.flow) && d.draining == c.draining && d.closed == c.closed
    decreases c.nextId - id
  {
    if id >= c.nextId {
    } else if id !in c.pending {
      RejectFromKeepsLimits(c, id + 1);
    } else {
      RejectStep(c, id);
      hide Steady, Rejected, RejectFrom;
      RejectedKeepsLimits(c, id);
      RejectFromKeepsLimits(Rejected(c, id), id + 1);
    }
  }

  lemma RejectStep(c: Connection, id: nat)
    requires Steady(c) && id in c.pending && id < c.nextId
    ensures RejectFrom(c, id) == RejectFrom(Rejected(c, id), id + 1)
  {
    hide F.Valid, F.AtRest, F.Release, FailureOutcome;
  }

  lemma {:induction false} FailAllCloses(c: Connection)
    requires Steady(c)
    ensures var d := FailAll(c);
            && d.closed && G.LimitsOf(d.flow) == G.LimitsOf(c.flow) && d.draining == c.draining
            && (!c.closed ==> d.pending == map[])
  {
    F.CancelSettlesAll(c.flow);
    G.CancelKeepsLimits(c.flow);
    hide RejectFrom, F.Valid, F.AtRest, F.Close;
    if !c.closed { RejectFromKeepsLimits(c.(closed := true, flow := F.Close(c.flow)), 0); }
  }

  // ----- The steps -----

  /** What a step is to do to a connection, as far as closing and limits go. */
  predicate AsTold(c: Connection, d: Connection, limits: G.Limits, fails: bool) {
    && G.LimitsOf(d.flow) == limits
    && (d.closed <==> c.closed || fails || (d.draining && d.pending == map[]))
  }

  lemma {:induction false} SendClosing(c: Connection, cfg: Config, socket: W.Socket, call: nat, cmd: Command, hasCredit: bool)
    requires Steady(c) && !c.closed && DrainOk(c)
    ensures AsTold(c, SendAcquired(c, cfg, socket, call, cmd, hasCredit), G.LimitsOf(c.flow), false)
  {
    hide F.Valid, F.AtRest, SendNew;
    if hasCredit || c.controls < cfg.maxControls { SendNewClosing(c, cfg, socket, call, cmd, hasCredit); }
  }

  lemma {:induction false} SendNewClosing(c: Connection, cfg: Config, socket: W.Socket, call: nat, cmd: Command, hasCredit: bool)
    requires Steady(c) && !c.closed && DrainOk(c)
    ensures AsTold(c, SendNew(c, cfg, socket, call, cmd, hasCredit), G.LimitsOf(c.flow), false)
  {
    hide F.Valid, F.AtRest, F.Release, TakeEach, W.Write;
    if cmd.frame.Some? {
      var p := Pending(call, cmd.lane, cmd.opcode, hasCredit, cmd.indefinite, false, 0, 0);
      var d := Registered(c.(nextId := c.nextId + 1, idOf := c.idOf[call := c.nextId]), c.nextId, p);
      var (writes, rejected) := W.Write(d.writes, socket, W.Job(c.nextId, cmd.frame.value), cfg.maxQueuedWriteBytes);
      assert c.nextId in d.pending;
      TakeEachFollows(d.(writes := writes), rejected);
    } else {
      G.ReleaseKeepsLimits(c.flow, cmd.lane);
    }
  }

  lemma {:induction false} RequestClosing(c: Connection, cfg: Config, socket: W.Socket, cmd: Command, privileged: bool)
    requires Steady(c) && DrainOk(c)
    ensures AsTold(c, Request(c, cfg, socket, cmd, privileged), G.LimitsOf(c.flow), false)
  {
    hide F.Valid, F.AtRest, SendAcquired, F.Wait, F.TryAcquire, WaitingSet;
    F.AcquireKeepsValid(c.flow, cmd.lane);
    G.WaitKeepsLimits(c.flow, cmd.lane, |WaitingSet(c.flow)|);
    var d := c.(calls := c.calls + 1);
    if c.closed || (c.draining && !privileged) {
    } else if IsControl(cmd.opcode) {
      SendClosing(d, cfg, socket, c.calls, cmd, false);
    } else if F.TryAcquire(d.flow, cmd.lane).1 {
      SendClosing(d.(flow := F.TryAcquire(d.flow, cmd.lane).0), cfg, socket, c.calls, cmd, true);
    }
  }

  lemma {:induction false} ResumeClosing(c: Connection, cfg: Config, socket: W.Socket, w: nat, expired: bool, frame: Option<W.Frame>)
    requires Steady(c) && DrainOk(c)
    ensures AsTold(c, Resume(c, cfg, socket, w, expired, frame), G.LimitsOf(c.flow), false)
  {
    hide F.Valid, F.AtRest, SendAcquired, F.Release;
    if w in c.parked && w in c.flow.outcomes {
      var p := c.parked[w];
      F.ReleaseKeepsValid(c.flow, p.lane);
      G.ReleaseKeepsLimits(c.flow, p.lane);
      if !c.closed {
        SendClosing(c.(parked := c.parked - {w}), cfg, socket, p.call, Command(p.lane, p.opcode, p.indefinite, frame), true);
      }
    }
  }

  lemma {:induction false} RequestExpiresClosing(c: Connection, id: nat, chunkBytes: nat, chunkFrames: nat)
    requires Steady(c) && DrainOk(c)
    ensures AsTold(c, RequestExpires(c, id, chunkBytes, chunkFrames), G.LimitsOf(c.flow), false)
  {
    hide Steady, Take, IsQueued;
    TakeFollows(c, id, UnsentTimeout);
    TakeFollows(c, id, PossiblySentTimeout);
  }

  lemma {:induction false} ApplyLimitsClosing(c: Connection, connection: Option<nat>, lane: Option<nat>, laneQueue: nat)
    requires Steady(c)
    ensures var d, l := ApplyLimits(c, connection, lane), G.LimitsOf(c.flow);
            d == c.(flow := d.flow)
            && G.LimitsOf(d.flow) == l.(connection := Or(connection, l.connection), laneWindow := Or(lane, l.laneWindow))
    ensures var d := ApplyLaneQueueLimit(c, laneQueue);
            d == c.(flow := d.flow) && G.LimitsOf(d.flow) == G.LimitsOf(c.flow).(laneQueue := laneQueue)
  {
    G.LimitsChangeExactly(c.flow, connection, lane, laneQueue);
    hide F.Valid, F.AtRest, F.UpdateLimits, F.UpdateLaneQueueLimit;
  }

  lemma {:induction false} HandleFrameClosing(c: Connection, cfg: Config, r: Response)
    requires Steady(c) && DrainOk(c)
    ensures AsTold(c, HandleFrame(c, cfg, r), LimitsAfter(c, cfg, FrameStep(r)), Fails(c, cfg, FrameStep(r)))
  {
    hide Steady, FailAll, DiscardLate, ApplyLimits, Take;
    FailAllCloses(c);
    if r.id in c.pending && !c.closed {
      if c.pending[r.id].timedOut {
        if r.opcode == c.pending[r.id].opcode && r.lane == c.pending[r.id].lane { DiscardLateClosing(c, cfg, r); }
      } else if r.assembled.Complete? {
        var d := ApplyLimits(c, r.assembled.connectionLimit, r.assembled.laneLimit);
        ApplyLimitsClosing(c, r.assembled.connectionLimit, r.assembled.laneLimit, 0);
        var o := if r.assembled.ok then Resolved else ServerError;
        TakeFollows(c, r.id, o);
        TakeFollows(d, r.id, o);
      }
    }
  }

  lemma {:induction false} DiscardLateClosing(c: Connection, cfg: Config, r: Response)
    requires Steady(c) && DrainOk(c) && r.id in c.pending && c.pending[r.id].timedOut && !c.closed
    requires r.opcode == c.pending[r.id].opcode && r.lane == c.pending[r.id].lane
    ensures AsTold(c, DiscardLate(c, cfg, r), G.LimitsOf(c.flow), FrameFails(c.pending[r.id], cfg, r))
  {
    hide FailAll, TakePending, F.Valid, F.AtRest;
    var p := c.pending[r.id];
    var d := c.(pending := c.pending[r.id := p.(discardedBytes := p.discardedBytes + r.bytes, discardedFrames := p.discardedFrames + 1)]);
    assert d.pending.Keys == c.pending.Keys;
    FailAllCloses(d);
    TakePendingFollows(d, r.id);
  }

  lemma {:induction false} SocketDrainsClosing(c: Connection, socket: W.Socket)
    requires Steady(c) && DrainOk(c)
    ensures AsTold(c, SocketDrains(c, socket), G.LimitsOf(c.flow), false)
  {
    hide TakeEach, W.Flush, F.Valid, F.AtRest;
    var (writes, rejected) := W.Flush(c.writes, socket, c.closed, c.pending.Keys);
    TakeEachFollows(c.(writes := writes), rejected);
  }

  lemma {:induction false} BeginDrainingClosing(c: Connection)
    requires Steady(c) && !c.closed
    ensures AsTold(c, BeginDraining(c), G.LimitsOf(c.flow), false)
  {
    F.CancelSettlesAll(c.flow);
    G.CancelKeepsLimits(c.flow);
    hide F.Valid, F.AtRest, F.CancelQueued, TakeEach, TakeIndefinite, FinishDrainIfIdle, W.RejectQueued;
    var (writes, rejected) := W.RejectQueued(c.writes);
    var d := c.(draining := true, flow := F.CancelQueued(c.flow), writes := writes);
    TakeEachFollows(d, rejected);
    var e := TakeEach(d, rejected);
    TakeIndefiniteFollows(e, e.nextId);
    FinishFollows(TakeIndefinite(e, e.nextId));
  }

  /** After every step a connection is closed exactly if it was before, or the step made it fail, or it
      is draining and has nothing left to wait for; and its limits are those that it was last told. */
  lemma {:induction false} ClosesExactly(c: Connection, cfg: Config, socket: W.Socket, step: Step)
    requires Inv(c, cfg)
    ensures Steady(c) && WaitersParked(c.flow, c.parked)
    ensures var d := Apply(c, cfg, socket, step);
            && (d.closed <==> c.closed || Fails(c, cfg, step) || (d.draining && d.pending == map[]))
            && G.LimitsOf(d.flow) == LimitsAfter(c, cfg, step)
  {
    InvFacts(c, cfg);
    hide Steady, WaitersParked, Apply, Fails, LimitsAfter, DrainOk;
    StepClosing(c, cfg, socket, step);
  }

  lemma {:induction false} StepClosing(c: Connection, cfg: Config, socket: W.Socket, step: Step)
    requires Steady(c) && WaitersParked(c.flow, c.parked) && DrainOk(c)
    ensures AsTold(c, Apply(c, cfg, socket, step), LimitsAfter(c, cfg, step), Fails(c, cfg, step))
  {
    hide Steady, WaitersParked, Request, Resume, WaiterExpires, RequestExpires, HandleFrame, FrameFails, ApplyLimits, AsTold;
    hide ApplyLaneQueueLimit, SocketDrains, BeginDraining, FailAll, Take, WriteFails, GraceExpires, DrainOk, Updates;
    match step
    case RequestStep(cmd, privileged) => RequestClosing(c, cfg, socket, cmd, privileged);
    case ResumeStep(w, expired, frame) => ResumeClosing(c, cfg, socket, w, expired, frame);
    case WaiterExpiresStep(w) => OtherClosing(c, cfg, w);
    case RequestExpiresStep(id, bytes, frames) => RequestExpiresClosing(c, id, bytes, frames);
    case GraceExpiresStep(id) => OtherClosing(c, cfg, id);
    case FrameStep(response) => HandleFrameClosing(c, cfg, response);
    case LimitsStep(connection, lane) => LimitsStepClosing(c, connection, lane, 0);
    case LaneQueueStep(limit) => LimitsStepClosing(c, None, None, limit);
    case WriteFailsStep(id) => OtherClosing(c, cfg, id);
    case SocketDrainsStep => SocketDrainsClosing(c, socket);
    case GoAwayStep => GoAwayClosing(c);
    case CloseStep => GoAwayClosing(c);
  }

  lemma {:induction false} LimitsStepClosing(c: Connection, connection: Option<nat>, lane: Option<nat>, laneQueue: nat)
    requires Steady(c) && DrainOk(c)
    ensures var l := G.LimitsOf(c.flow);
            && AsTold(c, ApplyLimits(c, connection, lane), l.(connection := Or(connection, l.connection), laneWindow := Or(lane, l.laneWindow)), false)
            && AsTold(c, ApplyLaneQueueLimit(c, laneQueue), l.(laneQueue := laneQueue), false)
  {
    ApplyLimitsClosing(c, connection, lane, laneQueue);
    hide Steady, ApplyLimits, ApplyLaneQueueLimit;
  }

  lemma {:induction false} GoAwayClosing(c: Connection)
    requires Steady(c) && DrainOk(c)
    ensures AsTold(c, if c.closed then c else BeginDraining(c), G.LimitsOf(c.flow), false)
    ensures AsTold(c, FailAll(c), G.LimitsOf(c.flow), true)
  {
    hide Steady, FailAll, BeginDraining;
    FailAllCloses(c);
    if !c.closed { BeginDrainingClosing(c); }
  }

  lemma {:induction false} OtherClosing(c: Connection, cfg: Config, id: nat)
    requires Steady(c) && WaitersParked(c.flow, c.parked) && DrainOk(c)
    ensures AsTold(c, WaiterExpires(c, id), G.LimitsOf(c.flow), false)
    ensures AsTold(c, GraceExpires(c, id), G.LimitsOf(c.flow), id in c.pending && c.pending[id].timedOut)
    ensures AsTold(c, WriteFails(c, id), G.LimitsOf(c.flow), false)
  {
    hide Steady, WaitersParked, F.TimeOut, FailAll, Take, W.Holds;
    if id in c.parked { G.TimeOutKeepsLimits(c.flow, c.parked[id].lane, id); }
    FailAllCloses(c);
    TakeFollows(c, id, PossiblySent);
  }
}
