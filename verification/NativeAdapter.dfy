/** The connection as an object that owns its flow control and its write queue; each method is
    proved to do what the step of the same name does to the model. */
module NativeAdapter {
  import opened Wrappers
  import F = FlowControlModel
  import W = WriteQueueModel
  import M = NativeConnectionModel
  import I = ConnectionInvariant
  import opened FlowControl
  import opened WriteQueue

  class NativeAdapter {
    const cfg: M.Config
    const flowControl: NativeFlowControl
    const writeQueue: NativeWriteQueue
    var pending: map<nat, M.Pending>
    var pendingControlRequests: nat
    var closed: bool
    var draining: bool
    var nextRequestId: nat
    var calls: nat
    var parked: map<nat, M.Parked>
    var outcomes: map<nat, M.Outcome>
    ghost var idOf: map<nat, nat>

    ghost function Model(): M.Connection
      reads this, flowControl, writeQueue
      requires flowControl.Valid() && writeQueue.Valid()
    {
      M.Connection(flowControl.Model(), writeQueue.Model(), pending, pendingControlRequests, closed, draining,
                   nextRequestId, calls, parked, outcomes, idOf)
    }

    ghost predicate Valid()
      reads this, flowControl, writeQueue
    {
      && flowControl.Valid() && writeQueue.Valid() && M.Steady(Model())
      && writeQueue.maxQueuedWriteBytes == cfg.maxQueuedWriteBytes
    }

    constructor (cfg: M.Config, socket: W.Socket, maxQueuedRequests: nat, maxSafeInteger: nat)
      requires maxSafeInteger >= 1024
      ensures Valid() && fresh(flowControl) && fresh(writeQueue) && this.cfg == cfg && writeQueue.socket == socket
      ensures Model() == M.Initial(F.Flow(false, 4096, maxSafeInteger, 1024, maxQueuedRequests, multiset{}, map[], [], map[], 0))
    {
      this.cfg := cfg;
      flowControl := new NativeFlowControl(maxQueuedRequests, maxSafeInteger);
      writeQueue := new NativeWriteQueue(socket, cfg.maxQueuedWriteBytes);
      pending, pendingControlRequests, closed, draining := map[], 0, false, false;
      nextRequestId, calls, parked, outcomes, idOf := 1, 0, map[], map[], map[];
    }

    /** A promise settles once. */
    method Settle(call: nat, outcome: M.Outcome)
      requires Valid()
      modifies this`outcomes
      ensures Valid() && Model() == M.Settle(old(Model()), call, outcome)
    {
      if call !in outcomes { outcomes := outcomes[call := outcome]; }
    }

    method FinishDrainIfIdle()
      requires Valid()
      modifies this`closed, flowControl
      ensures Valid() && Model() == M.FinishDrainIfIdle(old(Model()))
    {
      if !draining || pending != map[] || closed { return; }
      F.CancelSettlesAll(flowControl.Model());
      closed := true;
      flowControl.Close();
    }

    method ReleaseFor(p: M.Pending)
      requires Valid()
      modifies this`pendingControlRequests, flowControl
      ensures Valid() && Model() == M.ReleaseFor(old(Model()), p)
    {
      F.ReleaseKeepsValid(flowControl.Model(), p.lane);
      if p.hasCredit {
        flowControl.Release(p.lane);
      } else {
        pendingControlRequests := if pendingControlRequests > 0 then pendingControlRequests - 1 else 0;
      }
    }

    method TakePending(requestId: nat) returns (taken: Option<M.Pending>)
      requires Valid()
      modifies this`pending, this`pendingControlRequests, this`closed, flowControl, writeQueue
      ensures Valid()
      ensures taken == (if requestId in old(pending) then Some(old(pending)[requestId]) else None)
      ensures Model() == if requestId in old(pending) then M.TakePending(old(Model()), requestId) else old(Model())
    {
      if requestId !in pending { return None; }
      var p := pending[requestId];
      pending := pending - {requestId};
      writeQueue.Cancel(requestId);
      ReleaseFor(p);
      FinishDrainIfIdle();
      return Some(p);
    }

    method RejectPending(requestId: nat, outcome: M.Outcome)
      requires Valid()
      modifies this`pending, this`pendingControlRequests, this`closed, this`outcomes, flowControl, writeQueue
      ensures Valid() && Model() == M.Take(old(Model()), requestId, outcome)
    {
      var taken := TakePending(requestId);
      if taken.Some? { Settle(taken.value.call, outcome); }
    }

    method RejectEach(rejections: seq<W.Rejection>)
      requires Valid()
      modifies this`pending, this`pendingControlRequests, this`closed, this`outcomes, flowControl, writeQueue
      ensures Valid() && Model() == M.TakeEach(old(Model()), rejections)
    {
      ghost var c := Model();
      for index := 0 to |rejections|
        invariant Valid() && M.TakeEach(Model(), rejections[index..]) == M.TakeEach(c, rejections)
      {
        assert rejections[index..][1..] == rejections[index + 1..];
        RejectPending(rejections[index].requestId, M.OutcomeOf(rejections[index].reason));
      }
    }

    method SendAcquiredRequest(call: nat, cmd: M.Command, hasCredit: bool)
      requires Valid() && !W.Holds(Model().writes.queue, nextRequestId)
      modifies this, flowControl, writeQueue
      ensures Valid() && Model() == M.SendAcquired(old(Model()), cfg, writeQueue.socket, call, cmd, hasCredit)
    {
      hide F.Valid, F.AtRest, NativeFlowControl.Valid, NativeFlowControl.Model, NativeWriteQueue.Valid, NativeWriteQueue.Model;
      hide M.SendNew, M.Settle;
      if !hasCredit && pendingControlRequests >= cfg.maxControls {
        Settle(call, M.ControlsFull);
      } else {
        SendNew(call, cmd, hasCredit);
      }
    }

    method SendNew(call: nat, cmd: M.Command, hasCredit: bool)
      requires Valid() && !W.Holds(Model().writes.queue, nextRequestId)
      modifies this, flowControl, writeQueue
      ensures Valid() && Model() == M.SendNew(old(Model()), cfg, writeQueue.socket, call, cmd, hasCredit)
    {
      hide F.Valid, F.AtRest, NativeFlowControl.Valid, NativeFlowControl.Model, NativeWriteQueue.Valid, NativeWriteQueue.Model;
      hide M.Submit, M.Unencoded, M.Settle, M.Registered, W.Holds;
      var requestId := nextRequestId;
      nextRequestId := nextRequestId + 1;
      idOf := idOf[call := requestId];
      if cmd.frame.None? {
        ReturnUnencoded(cmd.lane, hasCredit);
        Settle(call, M.NotEncoded);
      } else {
        Register(requestId, M.Pending(call, cmd.lane, cmd.opcode, hasCredit, cmd.indefinite, false, 0, 0), cmd.frame.value);
      }
    }

    /** Enter an encoded request in the table and write its frame. */
    method Register(requestId: nat, p: M.Pending, frame: W.Frame)
      requires Valid() && !W.Holds(Model().writes.queue, requestId)
      modifies this`pending, this`pendingControlRequests, this`closed, this`outcomes, flowControl, writeQueue
      ensures Valid()
      ensures Model() == M.Submit(M.Registered(old(Model()), requestId, p), cfg, writeQueue.socket, W.Job(requestId, frame))
    {
      hide F.Valid, F.AtRest, NativeFlowControl.Valid, NativeFlowControl.Model, NativeWriteQueue.Valid, NativeWriteQueue.Model;
      hide M.Submit;
      if !p.hasCredit { pendingControlRequests := pendingControlRequests + 1; }
      pending := pending[requestId := p];
      Submit(requestId, frame);
    }

    method ReturnUnencoded(lane: int, hasCredit: bool)
      requires Valid()
      modifies flowControl
      ensures Valid() && Model() == M.Unencoded(old(Model()), lane, hasCredit)
    {
      F.ReleaseKeepsValid(flowControl.Model(), lane);
      if hasCredit { flowControl.Release(lane); }
    }

    method Submit(requestId: nat, frame: W.Frame)
      requires Valid() && !W.Holds(Model().writes.queue, requestId)
      modifies this`pending, this`pendingControlRequests, this`closed, this`outcomes, flowControl, writeQueue
      ensures Valid() && Model() == M.Submit(old(Model()), cfg, writeQueue.socket, W.Job(requestId, frame))
    {
      I.HoldsIsMembership(Model().writes.queue, requestId);
      var rejected := writeQueue.Write(requestId, frame);
      RejectEach(rejected);
    }

    method Request(cmd: M.Command, privileged: bool)
      requires Valid() && I.Inv(Model(), cfg)
      modifies this, flowControl, writeQueue
      ensures Valid() && Model() == M.Request(old(Model()), cfg, writeQueue.socket, cmd, privileged)
    {
      hide I.Inv;
      hide F.Valid, F.AtRest, NativeFlowControl.Valid, NativeFlowControl.Model, NativeWriteQueue.Valid, NativeWriteQueue.Model;
      hide M.SendAcquired, M.WaitForCredit;
      NewIdIsNotQueued(Model(), cfg);
      var call := calls;
      calls := calls + 1;
      if closed || (draining && !privileged) {
        Settle(call, M.Unsent);
        return;
      }
      if M.IsControl(cmd.opcode) {
        SendAcquiredRequest(call, cmd, false);
        return;
      }
      RequestData(call, cmd);
    }

    /** A data request takes a credit, or waits for one. */
    method RequestData(call: nat, cmd: M.Command)
      requires Valid() && !W.Holds(Model().writes.queue, nextRequestId)
      modifies this, flowControl, writeQueue
      ensures Valid()
      ensures F.Valid(F.TryAcquire(old(Model()).flow, cmd.lane).0) && F.AtRest(F.TryAcquire(old(Model()).flow, cmd.lane).0)
      ensures var (flow, acquired) := F.TryAcquire(old(Model()).flow, cmd.lane);
              Model() == if acquired then M.SendAcquired(old(Model()).(flow := flow), cfg, writeQueue.socket, call, cmd, true)
                         else M.WaitForCredit(old(Model()), call, cmd)
    {
      hide F.Valid, F.AtRest, NativeFlowControl.Valid, NativeFlowControl.Model, NativeWriteQueue.Valid, NativeWriteQueue.Model;
      hide M.SendAcquired, M.WaitForCredit;
      F.AcquireKeepsValid(Model().flow, cmd.lane);
      var acquired := flowControl.TryAcquire(cmd.lane);
      if acquired {
        SendAcquiredRequest(call, cmd, true);
      } else {
        WaitForCredit(call, cmd);
      }
    }

    method WaitForCredit(call: nat, cmd: M.Command)
      requires Valid() && !F.TryAcquire(Model().flow, cmd.lane).1
      modifies this`outcomes, this`parked, flowControl
      ensures Valid() && Model() == M.WaitForCredit(old(Model()), call, cmd)
    {
      F.WaitKeepsValid(flowControl.Model(), cmd.lane, |M.WaitingSet(flowControl.Model())|);
      assert M.WaitingSet(flowControl.Model()) == Unsettled(flowControl.issued, flowControl.settled);
      var waiter := flowControl.issued;
      var refused := flowControl.Wait(cmd.lane);
      if refused.Some? {
        Settle(call, M.Refused(refused.value));
      } else {
        parked := parked[waiter := M.Parked(call, cmd.lane, cmd.opcode, cmd.indefinite)];
      }
    }

    /** A granted credit is used, or given back. */
    method ContinueGranted(p: M.Parked, expired: bool, frame: Option<W.Frame>)
      requires Valid() && !W.Holds(Model().writes.queue, nextRequestId)
      modifies this, flowControl, writeQueue
      ensures Valid() && Model() == Continued(old(Model()), cfg, writeQueue.socket, p, expired, frame)
    {
      hide F.Valid, F.AtRest, NativeFlowControl.Valid, NativeFlowControl.Model, NativeWriteQueue.Valid, NativeWriteQueue.Model;
      hide M.SendAcquired;
      F.ReleaseKeepsValid(Model().flow, p.lane);
      if closed || draining {
        flowControl.Release(p.lane);
        Settle(p.call, M.Unsent);
      } else if !p.indefinite && expired {
        flowControl.Release(p.lane);
        Settle(p.call, M.UnsentTimeout);
      } else {
        SendAcquiredRequest(p.call, M.Command(p.lane, p.opcode, p.indefinite, frame), true);
      }
    }

    /** The rest of `waitForCreditAndSend`, after the waiter has been settled. */
    method Resume(waiter: nat, expired: bool, frame: Option<W.Frame>)
      requires Valid() && I.Inv(Model(), cfg) && waiter in parked && waiter in flowControl.settled
      modifies this, flowControl, writeQueue
      ensures Valid() && Model() == M.Resume(old(Model()), cfg, writeQueue.socket, waiter, expired, frame)
    {
      hide I.Inv;
      assert Model().flow.outcomes == flowControl.settled;
      hide F.Valid, F.AtRest, NativeFlowControl.Valid, NativeFlowControl.Model, NativeWriteQueue.Valid, NativeWriteQueue.Model;
      hide M.SendAcquired;
      NewIdIsNotQueued(Model(), cfg);
      var p := parked[waiter];
      parked := parked - {waiter};
      match flowControl.settled[waiter] {
        case TimedOut => Settle(p.call, M.UnsentTimeout);
        case Cancelled => Settle(p.call, M.Unsent);
        case Granted =>
          ContinueGranted(p, expired, frame);
      }
    }

    method TimeoutPending(requestId: nat, chunkBytes: nat, chunkFrames: nat)
      requires Valid() && (requestId in pending ==> !pending[requestId].timedOut && !pending[requestId].indefinite)
      modifies this, flowControl, writeQueue
      ensures Valid() && Model() == M.RequestExpires(old(Model()), requestId, chunkBytes, chunkFrames)
    {
      hide F.Valid, F.AtRest, NativeFlowControl.Valid, NativeFlowControl.Model, NativeWriteQueue.Valid, NativeWriteQueue.Model;
      hide M.Take, M.Settle, W.Holds;
      if requestId !in pending { return; }
      var p := pending[requestId];
      var queued := writeQueue.Has(requestId);
      if !p.hasCredit || queued {
        RejectPending(requestId, if queued then M.UnsentTimeout else M.PossiblySentTimeout);
        return;
      }
      var late := p.(timedOut := true);
      if chunkFrames > 0 { late := late.(discardedBytes := chunkBytes, discardedFrames := chunkFrames); }
      else { late := late.(discardedBytes := 0, discardedFrames := 0); }
      pending := pending[requestId := late];
      Settle(p.call, M.PossiblySentTimeout);
    }

    method HandleFrame(r: M.Response)
      requires Valid() && (closed ==> pending == map[])
      modifies this, flowControl, writeQueue
      ensures Valid() && Model() == M.HandleFrame(old(Model()), cfg, r)
    {
      if r.id !in pending { return; }
      var p := pending[r.id];
      if r.opcode != p.opcode || r.lane != p.lane {
        FailAll();
        return;
      }
      if p.timedOut {
        DiscardTimedOutFrame(r);
        return;
      }
      match r.assembled {
        case Overflow => FailAll();
        case Partial => return;
        case Complete(size, ok, connectionLimit, laneLimit) =>
          if size > cfg.maxResponseBytes {
            FailAll();
            return;
          }
          if ok && p.opcode == M.WINDOW_UPDATE { ApplyFlowControlLimits(connectionLimit, laneLimit); }
          RejectPending(r.id, if ok then M.Resolved else M.ServerError);
      }
    }

    method DiscardTimedOutFrame(r: M.Response)
      requires Valid() && r.id in pending && !closed
      modifies this, flowControl, writeQueue
      ensures Valid() && Model() == M.DiscardLate(old(Model()), cfg, r)
    {
      hide F.Valid, F.AtRest, NativeFlowControl.Valid, NativeFlowControl.Model, NativeWriteQueue.Valid, NativeWriteQueue.Model;
      hide M.FailAll, M.TakePending;
      var p := pending[r.id];
      var bytes, frames := p.discardedBytes + r.bytes, p.discardedFrames + 1;
      pending := pending[r.id := p.(discardedBytes := bytes, discardedFrames := frames)];
      var chunked := frames > 1 || r.more;
      if bytes > cfg.maxResponseBytes || (chunked && bytes > cfg.maxChunkBytes) || frames > cfg.maxChunkFrames {
        FailAll();
        return;
      }
      if !r.more { var taken := TakePending(r.id); }
    }

    method ApplyFlowControlLimits(connection: Option<nat>, lane: Option<nat>)
      requires Valid()
      modifies flowControl
      ensures Valid() && Model() == M.ApplyLimits(old(Model()), connection, lane)
    {
      F.LimitsKeepValid(flowControl.Model(), connection, lane, 0);
      if connection.None? && lane.None? { return; }
      flowControl.UpdateLimits(connection, lane);
    }

    method SocketDrains()
      requires Valid()
      modifies this`pending, this`pendingControlRequests, this`closed, this`outcomes, flowControl, writeQueue
      ensures Valid() && Model() == M.SocketDrains(old(Model()), writeQueue.socket)
    {
      var rejected := writeQueue.Flush(closed, pending.Keys);
      RejectEach(rejected);
    }

    /** Reject everything: the requests still queued as unsent, the others as possibly sent. */
    method FailAll()
      requires Valid()
      modifies this, flowControl, writeQueue
      ensures Valid() && Model() == M.FailAll(old(Model()))
    {
      hide F.Valid, F.AtRest, NativeFlowControl.Valid, NativeFlowControl.Model, NativeWriteQueue.Valid, NativeWriteQueue.Model;
      hide M.RejectFrom;
      if closed { return; }
      F.CancelSettlesAll(Model().flow);
      closed := true;
      flowControl.Close();
      RejectAll();
      pending, pendingControlRequests := map[], 0;
      writeQueue.Clear();
    }

    /** The table is walked in the order in which the requests were made; its entries stay until
        the end of the walk. */
    method RejectAll()
      requires Valid()
      modifies this`outcomes, flowControl
      ensures Valid() && From(Model(), nextRequestId) == M.RejectFrom(old(Model()), 0)
    {
      hide F.Valid, F.AtRest, NativeFlowControl.Valid, NativeFlowControl.Model, NativeWriteQueue.Valid, NativeWriteQueue.Model;
      hide M.RejectFrom;
      ghost var c := Model();
      FromStart(c);
      for requestId := 0 to nextRequestId
        invariant Valid() && M.RejectFrom(From(Model(), requestId), requestId) == M.RejectFrom(c, 0)
      {
        RejectNext(requestId);
      }
      NoneLeft(From(Model(), nextRequestId));
    }

    method RejectNext(requestId: nat)
      requires Valid() && requestId < nextRequestId
      modifies this`outcomes, flowControl
      ensures Valid()
      ensures M.RejectFrom(From(Model(), requestId + 1), requestId + 1) == old(M.RejectFrom(From(Model(), requestId), requestId))
    {
      hide F.Valid, F.AtRest, NativeFlowControl.Valid, NativeFlowControl.Model, NativeWriteQueue.Valid, NativeWriteQueue.Model;
      hide M.RejectFrom, From;
      Skip(Model(), requestId);
      if requestId in pending {
        RejectedFrom(Model(), requestId);
        RejectOne(requestId);
      }
    }

    method RejectOne(requestId: nat)
      requires Valid() && requestId in pending
      modifies this`outcomes, flowControl
      ensures Valid() && Model() == RejectedInPlace(old(Model()), requestId)
    {
      hide F.Valid, F.AtRest, NativeFlowControl.Valid, NativeFlowControl.Model, NativeWriteQueue.Valid, NativeWriteQueue.Model;
      var p := pending[requestId];
      F.ReleaseKeepsValid(Model().flow, p.lane);
      if p.hasCredit { flowControl.Release(p.lane); }
      var queued := writeQueue.Has(requestId);
      Settle(p.call, if queued then M.Unsent else M.PossiblySent);
    }

    method BeginDraining()
      requires Valid()
      modifies this`draining, this`pending, this`pendingControlRequests, this`closed, this`outcomes, flowControl, writeQueue
      ensures Valid() && Model() == M.BeginDraining(old(Model()))
    {
      hide F.Valid, F.AtRest, NativeFlowControl.Valid, NativeFlowControl.Model, NativeWriteQueue.Valid, NativeWriteQueue.Model;
      hide M.TakeEach, M.Take, M.FinishDrainIfIdle;
      draining := true;
      F.CancelSettlesAll(Model().flow);
      flowControl.CancelQueued();
      var rejected := writeQueue.RejectQueued();
      RejectEach(rejected);
      ghost var d := Model();
      for requestId := 0 to nextRequestId
        invariant Valid() && nextRequestId == d.nextId && Model() == M.TakeIndefinite(d, requestId)
      {
        if requestId in pending && pending[requestId].indefinite {
          var queued := writeQueue.Has(requestId);
          RejectPending(requestId, if queued then M.Unsent else M.PossiblySent);
        }
      }
      FinishDrainIfIdle();
    }
  }

  ghost function Continued(c: M.Connection, cfg: M.Config, socket: W.Socket, p: M.Parked, expired: bool, frame: Option<W.Frame>): M.Connection
    requires M.Steady(c)
  {
    F.ReleaseKeepsValid(c.flow, p.lane);
    if c.closed || c.draining then M.Settle(c.(flow := F.Release(c.flow, p.lane)), p.call, M.Unsent)
    else if !p.indefinite && expired then M.Settle(c.(flow := F.Release(c.flow, p.lane)), p.call, M.UnsentTimeout)
    else M.SendAcquired(c, cfg, socket, p.call, M.Command(p.lane, p.opcode, p.indefinite, frame), true)
  }

  /** The connection without the requests that have been rejected already. */
  ghost function From(c: M.Connection, id: nat): M.Connection {
    c.(pending := map i | i in c.pending && i >= id :: c.pending[i])
  }

  ghost function Rejected(c: M.Connection, id: nat): (r: M.Connection)
    requires M.Steady(c) && id in c.pending
    ensures M.Steady(r)
  {
    var p := c.pending[id];
    F.ReleaseKeepsValid(c.flow, p.lane);
    var d := if p.hasCredit then c.(flow := F.Release(c.flow, p.lane)) else c;
    M.Settle(d.(pending := d.pending - {id}), p.call, M.FailureOutcome(c, id))
  }

  /** Rejecting one request while the table is being walked. */
  ghost function RejectedInPlace(c: M.Connection, id: nat): (r: M.Connection)
    requires M.Steady(c) && id in c.pending
    ensures M.Steady(r)
  {
    var p := c.pending[id];
    F.ReleaseKeepsValid(c.flow, p.lane);
    M.Settle(if p.hasCredit then c.(flow := F.Release(c.flow, p.lane)) else c, p.call, M.FailureOutcome(c, id))
  }

  lemma {:induction false} RejectedFrom(c: M.Connection, id: nat)
    requires M.Steady(c) && id in c.pending
    ensures From(RejectedInPlace(c, id), id + 1) == Rejected(From(c, id), id)
  {
    var p, o := c.pending[id], M.FailureOutcome(c, id);
    F.ReleaseKeepsValid(c.flow, p.lane);
    var d := if p.hasCredit then c.(flow := F.Release(c.flow, p.lane)) else c;
    hide F.Valid, F.AtRest, F.Release, W.Holds;
    FromNext(d, id);
    SettleFrom(d, id + 1, p.call, o);
    assert M.FailureOutcome(From(c, id), id) == o;
    hide M.Settle, M.FailureOutcome;
  }

  lemma {:induction false} FromNext(c: M.Connection, id: nat)
    requires id in c.pending
    ensures From(c, id + 1) == From(c, id).(pending := From(c, id).pending - {id})
  {
    assert From(c, id + 1).pending == From(c, id).pending - {id};
  }

  lemma SettleFrom(c: M.Connection, k: nat, call: nat, o: M.Outcome)
    ensures From(M.Settle(c, call, o), k) == M.Settle(From(c, k), call, o)
  {
  }

  lemma {:induction false} FromStart(c: M.Connection)
    ensures From(c, 0) == c
  {
    assert From(c, 0).pending == c.pending;
  }

  lemma NoneLeft(c: M.Connection)
    requires M.Steady(c)
    ensures M.RejectFrom(c, c.nextId) == c
  {
  }

  lemma Skip(c: M.Connection, id: nat)
    requires M.Steady(c) && id < c.nextId
    ensures if id in c.pending then M.RejectFrom(From(c, id), id) == M.RejectFrom(Rejected(From(c, id), id), id + 1)
            else From(c, id) == From(c, id + 1) && M.RejectFrom(From(c, id), id) == M.RejectFrom(From(c, id), id + 1)
  {
  }

  lemma {:induction false} NewIdIsNotQueued(c: M.Connection, cfg: M.Config)
    requires I.Inv(c, cfg)
    ensures !W.Holds(c.writes.queue, c.nextId)
  {
    hide F.Valid, F.AtRest, I.CreditsOk, I.CallsOk, I.LabelsOk, I.QueueOk;
    I.HoldsIsMembership(c.writes.queue, c.nextId);
  }
}
