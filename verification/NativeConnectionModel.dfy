/** One native connection, as a state machine: requests, the credits and the write queue they go
    through, their settlement, draining and closing. Each step is one synchronous stretch of the
    program; timers, the socket and the server are the environment that chooses the steps. */
module NativeConnectionModel {
  import opened Wrappers
  import F = FlowControlModel
  import W = WriteQueueModel

  const PIPELINE := 0x000e
  const WINDOW_UPDATE := 0x000d
  const COMMAND_EXEC := 0x0100

  datatype Config = Config(maxControls: nat, maxQueuedWriteBytes: nat, maxResponseBytes: nat, maxChunkBytes: nat,
                           maxChunkFrames: nat)

  /** How the promise of a request was settled. */
  datatype Outcome = Resolved | ServerError | Unsent | UnsentTimeout | PossiblySent | PossiblySentTimeout
                   | WriteQueueFull | Refused(reason: F.WaitRefusal) | ControlsFull | NotEncoded

  /** The outcomes that promise the caller that the request was not sent. */
  predicate NeverSent(o: Outcome) {
    o.Unsent? || o.UnsentTimeout? || o.WriteQueueFull? || o.Refused? || o.ControlsFull? || o.NotEncoded?
  }

  predicate MaybeSent(o: Outcome) {
    o.PossiblySent? || o.PossiblySentTimeout?
  }

  /** A correlated request; `call` is the promise it settles. */
  datatype Pending = Pending(call: nat, lane: int, opcode: nat, hasCredit: bool, indefinite: bool, timedOut: bool,
                             discardedBytes: nat, discardedFrames: nat)

  /** A request whose waiter for a credit has not been resumed yet. */
  datatype Parked = Parked(call: nat, lane: int, opcode: nat, indefinite: bool)

  /** `calls` counts the requests made, `outcomes` records the settled ones, and `idOf` the
      request identifier given to a call. */
  datatype Connection = Connection(flow: F.Flow, writes: W.Writes, pending: map<nat, Pending>, controls: nat,
                                   closed: bool, draining: bool, nextId: nat, calls: nat, parked: map<nat, Parked>,
                                   outcomes: map<nat, Outcome>, idOf: map<nat, nat>)

  /** What a request is made of; `frame` is missing when encoding throws. */
  datatype Command = Command(lane: int, opcode: nat, indefinite: bool, frame: Option<W.Frame>)

  /** Control opcodes bypass the credits. */
  predicate IsControl(opcode: nat) {
    opcode < COMMAND_EXEC && opcode != PIPELINE
  }

  /** Every queued waiter belongs to a parked request of that lane. */
  ghost predicate WaitersParked(flow: F.Flow, parked: map<nat, Parked>) {
    && (forall w | w in parked :: w < flow.issued)
    && forall lane, w: nat | F.Queued(flow.queues, lane, w) :: w in parked && parked[w].lane == lane
  }

  ghost predicate Steady(c: Connection) {
    F.Valid(c.flow) && F.AtRest(c.flow)
  }

  predicate IsQueued(c: Connection, id: nat) {
    W.Holds(c.writes.queue, id)
  }

  // ----- Settling -----

  /** A promise settles once; later settlements are ignored. */
  function Settle(c: Connection, call: nat, o: Outcome): Connection {
    if call in c.outcomes then c else c.(outcomes := c.outcomes[call := o])
  }

  function FinishDrainIfIdle(c: Connection): (r: Connection)
    requires Steady(c)
    ensures Steady(r)
  {
    F.CancelSettlesAll(c.flow);
    if !c.draining || c.pending != map[] || c.closed then c else c.(closed := true, flow := F.Close(c.flow))
  }

  function ReleaseFor(c: Connection, p: Pending): (r: Connection)
    requires Steady(c)
    ensures Steady(r)
  {
    F.ReleaseKeepsValid(c.flow, p.lane);
    if p.hasCredit then c.(flow := F.Release(c.flow, p.lane))
    else c.(controls := if c.controls > 0 then c.controls - 1 else 0)
  }

  function TakePending(c: Connection, id: nat): (r: Connection)
    requires Steady(c) && id in c.pending
    ensures Steady(r)
  {
    var p := c.pending[id];
    FinishDrainIfIdle(ReleaseFor(c.(pending := c.pending - {id}, writes := W.Cancel(c.writes, id)), p))
  }

  /** Take a request out of the correlation table, if it is there, and settle it. */
  function Take(c: Connection, id: nat, o: Outcome): (r: Connection)
    requires Steady(c)
    ensures Steady(r)
  {
    if id !in c.pending then c else Settle(TakePending(c, id), c.pending[id].call, o)
  }

  function OutcomeOf(reason: W.Reason): Outcome {
    match reason
    case Unsent => Unsent
    case QueueFull => WriteQueueFull
  }

  /** What the write queue asks to reject is taken and rejected. */
  function TakeEach(c: Connection, rejections: seq<W.Rejection>): (r: Connection)
    requires Steady(c)
    ensures Steady(r)
    decreases |rejections|
  {
    if rejections == [] then c
    else TakeEach(Take(c, rejections[0].requestId, OutcomeOf(rejections[0].reason)), rejections[1..])
  }

  // ----- Requests -----

  /** Give the request an identifier, encode it, register it and write its frame. */
  function SendAcquired(c: Connection, cfg: Config, socket: W.Socket, call: nat, cmd: Command, hasCredit: bool): (r: Connection)
    requires Steady(c)
    ensures Steady(r)
  {
    if !hasCredit && c.controls >= cfg.maxControls then Settle(c, call, ControlsFull)
    else SendNew(c, cfg, socket, call, cmd, hasCredit)
  }

  function SendNew(c: Connection, cfg: Config, socket: W.Socket, call: nat, cmd: Command, hasCredit: bool): (r: Connection)
    requires Steady(c)
    ensures Steady(r)
  {
    var id := c.nextId;
    var d := c.(nextId := id + 1, idOf := c.idOf[call := id]);
    if cmd.frame.None? then Settle(Unencoded(d, cmd.lane, hasCredit), call, NotEncoded)
    else
      var p := Pending(call, cmd.lane, cmd.opcode, hasCredit, cmd.indefinite, false, 0, 0);
      Submit(Registered(d, id, p), cfg, socket, W.Job(id, cmd.frame.value))
  }

  function Registered(c: Connection, id: nat, p: Pending): Connection {
    c.(controls := if p.hasCredit then c.controls else c.controls + 1, pending := c.pending[id := p])
  }

  /** A request that cannot be encoded gives its credit back. */
  function Unencoded(c: Connection, lane: int, hasCredit: bool): (r: Connection)
    requires Steady(c)
    ensures Steady(r)
  {
    F.ReleaseKeepsValid(c.flow, lane);
    if hasCredit then c.(flow := F.Release(c.flow, lane)) else c
  }

  function Submit(c: Connection, cfg: Config, socket: W.Socket, job: W.Job): (r: Connection)
    requires Steady(c)
    ensures Steady(r)
  {
    var (writes, rejected) := W.Write(c.writes, socket, job, cfg.maxQueuedWriteBytes);
    TakeEach(c.(writes := writes), rejected)
  }

  /** The waiters that no one has settled. */
  function WaitingSet(flow: F.Flow): set<nat> {
    set w: nat | w < flow.issued && w !in flow.outcomes
  }

  function WaitForCredit(c: Connection, call: nat, cmd: Command): (r: Connection)
    requires Steady(c) && !F.TryAcquire(c.flow, cmd.lane).1
    ensures Steady(r)
  {
    F.WaitKeepsValid(c.flow, cmd.lane, |WaitingSet(c.flow)|);
    var (flow, refused) := F.Wait(c.flow, cmd.lane, |WaitingSet(c.flow)|);
    if refused.Some? then Settle(c.(flow := flow), call, Refused(refused.value))
    else c.(flow := flow, parked := c.parked[c.flow.issued := Parked(call, cmd.lane, cmd.opcode, cmd.indefinite)])
  }

  /** `privileged` requests, the heartbeat's, are accepted while draining. */
  function Request(c: Connection, cfg: Config, socket: W.Socket, cmd: Command, privileged: bool): (r: Connection)
    requires Steady(c)
    ensures Steady(r)
  {
    var call := c.calls;
    var d := c.(calls := call + 1);
    F.AcquireKeepsValid(c.flow, cmd.lane);
    if c.closed || (c.draining && !privileged) then Settle(d, call, Unsent)
    else if IsControl(cmd.opcode) then SendAcquired(d, cfg, socket, call, cmd, false)
    else
      var (flow, acquired) := F.TryAcquire(d.flow, cmd.lane);
      if acquired then SendAcquired(d.(flow := flow), cfg, socket, call, cmd, true) else WaitForCredit(d, call, cmd)
  }

  /** The waiter `w` has been settled and its request continues. */
  function Resume(c: Connection, cfg: Config, socket: W.Socket, w: nat, expired: bool, frame: Option<W.Frame>): (r: Connection)
    requires Steady(c)
    ensures Steady(r)
  {
    if w !in c.parked || w !in c.flow.outcomes then c
    else
      var p := c.parked[w];
      var d := c.(parked := c.parked - {w});
      F.ReleaseKeepsValid(d.flow, p.lane);
      match c.flow.outcomes[w]
      case TimedOut => Settle(d, p.call, UnsentTimeout)
      case Cancelled => Settle(d, p.call, Unsent)
      case Granted =>
        if c.closed || c.draining then Settle(d.(flow := F.Release(d.flow, p.lane)), p.call, Unsent)
        else if !p.indefinite && expired then Settle(d.(flow := F.Release(d.flow, p.lane)), p.call, UnsentTimeout)
        else SendAcquired(d, cfg, socket, p.call, Command(p.lane, p.opcode, p.indefinite, frame), true)
  }

  /** The timer of a parked waiter fires. */
  function WaiterExpires(c: Connection, w: nat): (r: Connection)
    requires Steady(c) && WaitersParked(c.flow, c.parked)
    ensures Steady(r)
  {
    if w !in c.parked then c
    else
      WaiterIsOnItsLane(c, w);
      F.TimeOutKeepsValid(c.flow, c.parked[w].lane, w);
      c.(flow := F.TimeOut(c.flow, c.parked[w].lane, w))
  }

  lemma {:induction false} WaiterIsOnItsLane(c: Connection, w: nat)
    requires Steady(c) && WaitersParked(c.flow, c.parked) && w in c.parked
    ensures c.flow.Waiting(w) ==> F.Queued(c.flow.queues, c.parked[w].lane, w)
  {
    if c.flow.Waiting(w) { var lane :| F.Queued(c.flow.queues, lane, w); }
  }

  // ----- Time-outs and responses -----

  /** The timer of a correlated request fires. Once the frame is with the socket, its credit stays
      with the server: the request is rejected but stays correlated. `chunkBytes` and
      `chunkFrames` are what had been received of its response. */
  function RequestExpires(c: Connection, id: nat, chunkBytes: nat, chunkFrames: nat): (r: Connection)
    requires Steady(c)
    ensures Steady(r)
  {
    if id !in c.pending || c.pending[id].timedOut || c.pending[id].indefinite then c
    else
      var p := c.pending[id];
      if !p.hasCredit || IsQueued(c, id) then Take(c, id, if IsQueued(c, id) then UnsentTimeout else PossiblySentTimeout)
      else
        var late := p.(timedOut := true, discardedBytes := if chunkFrames > 0 then chunkBytes else 0,
                       discardedFrames := chunkFrames);
        Settle(c.(pending := c.pending[id := late]), p.call, PossiblySentTimeout)
  }

  /** The grace period of a timed-out request ends. */
  function GraceExpires(c: Connection, id: nat): (r: Connection)
    requires Steady(c)
    ensures Steady(r)
  {
    if id in c.pending && c.pending[id].timedOut then FailAll(c) else c
  }

  /** What the assembler and the decoder make of a response frame. */
  datatype Assembled = Overflow | Partial | Complete(size: nat, ok: bool, connectionLimit: Option<nat>, laneLimit: Option<nat>)

  datatype Response = Response(id: nat, lane: int, opcode: nat, bytes: nat, more: bool, assembled: Assembled)

  function HandleFrame(c: Connection, cfg: Config, r: Response): (d: Connection)
    requires Steady(c)
    ensures Steady(d)
  {
    if c.closed || r.id !in c.pending then c
    else
      var p := c.pending[r.id];
      if r.opcode != p.opcode || r.lane != p.lane then FailAll(c)
      else if p.timedOut then DiscardLate(c, cfg, r)
      else
        match r.assembled
        case Overflow => FailAll(c)
        case Partial => c
        case Complete(size, ok, connectionLimit, laneLimit) =>
          if size > cfg.maxResponseBytes then FailAll(c)
          else
            var d := if ok && p.opcode == WINDOW_UPDATE then ApplyLimits(c, connectionLimit, laneLimit) else c;
            Take(d, r.id, if ok then Resolved else ServerError)
  }

  /** A frame of a response that comes too late is counted and dropped; the last one frees the
      credit. */
  function DiscardLate(c: Connection, cfg: Config, r: Response): (d: Connection)
    requires Steady(c) && r.id in c.pending
    ensures Steady(d)
  {
    var p := c.pending[r.id];
    var bytes, frames := p.discardedBytes + r.bytes, p.discardedFrames + 1;
    var chunked := frames > 1 || r.more;
    var d := c.(pending := c.pending[r.id := p.(discardedBytes := bytes, discardedFrames := frames)]);
    if bytes > cfg.maxResponseBytes || (chunked && bytes > cfg.maxChunkBytes) || frames > cfg.maxChunkFrames then FailAll(d)
    else if r.more then d
    else TakePending(d, r.id)
  }

  function ApplyLimits(c: Connection, connection: Option<nat>, lane: Option<nat>): (r: Connection)
    requires Steady(c)
    ensures Steady(r)
  {
    F.LimitsKeepValid(c.flow, connection, lane, 0);
    if connection.None? && lane.None? then c else c.(flow := F.UpdateLimits(c.flow, connection, lane))
  }

  function ApplyLaneQueueLimit(c: Connection, limit: nat): (r: Connection)
    requires Steady(c)
    ensures Steady(r)
  {
    F.LimitsKeepValid(c.flow, None, None, limit);
    c.(flow := F.UpdateLaneQueueLimit(c.flow, limit))
  }

  // ----- The socket -----

  /** The socket reports that a frame it had taken could not be written. */
  function WriteFails(c: Connection, id: nat): (r: Connection)
    requires Steady(c)
    ensures Steady(r)
  {
    if W.Holds(c.writes.handed, id) then Take(c, id, PossiblySent) else c
  }

  function SocketDrains(c: Connection, socket: W.Socket): (r: Connection)
    requires Steady(c)
    ensures Steady(r)
  {
    var (writes, rejected) := W.Flush(c.writes, socket, c.closed, c.pending.Keys);
    TakeEach(c.(writes := writes), rejected)
  }

  // ----- Closing -----

  function FailureOutcome(c: Connection, id: nat): Outcome {
    if IsQueued(c, id) then Unsent else PossiblySent
  }

  /** Give back the credits of the requests from `id` on, and reject them, in the order in which
      they were made. */
  function RejectFrom(c: Connection, id: nat): (r: Connection)
    requires Steady(c)
    ensures Steady(r)
    decreases c.nextId - id
  {
    if id >= c.nextId then c
    else if id !in c.pending then RejectFrom(c, id + 1)
    else
      var p := c.pending[id];
      F.ReleaseKeepsValid(c.flow, p.lane);
      var d := if p.hasCredit then c.(flow := F.Release(c.flow, p.lane)) else c;
      RejectFrom(Settle(d.(pending := d.pending - {id}), p.call, FailureOutcome(c, id)), id + 1)
  }

  function FailAll(c: Connection): (r: Connection)
    requires Steady(c)
    ensures Steady(r)
  {
    F.CancelSettlesAll(c.flow);
    if c.closed then c
    else
      var d := RejectFrom(c.(closed := true, flow := F.Close(c.flow)), 0);
      d.(pending := map[], controls := 0, writes := W.Clear(d.writes))
  }

  /** Take the requests below `n` that wait without a time limit, in order. */
  function TakeIndefinite(c: Connection, n: nat): (r: Connection)
    requires Steady(c)
    ensures Steady(r)
  {
    if n == 0 then c
    else
      var d := TakeIndefinite(c, n - 1);
      if n - 1 in d.pending && d.pending[n - 1].indefinite then Take(d, n - 1, FailureOutcome(d, n - 1)) else d
  }

  /** No new requests; what has not been sent is rejected, what has been sent may finish. */
  function BeginDraining(c: Connection): (r: Connection)
    requires Steady(c)
    ensures Steady(r)
  {
    F.CancelSettlesAll(c.flow);
    var (writes, rejected) := W.RejectQueued(c.writes);
    var d := TakeEach(c.(draining := true, flow := F.CancelQueued(c.flow), writes := writes), rejected);
    FinishDrainIfIdle(TakeIndefinite(d, d.nextId))
  }

  // ----- Runs -----

  datatype Step = RequestStep(cmd: Command, privileged: bool)
                | ResumeStep(waiter: nat, expired: bool, frame: Option<W.Frame>)
                | WaiterExpiresStep(waiter: nat)
                | RequestExpiresStep(id: nat, chunkBytes: nat, chunkFrames: nat)
                | GraceExpiresStep(id: nat)
                | FrameStep(response: Response)
                | LimitsStep(connection: Option<nat>, lane: Option<nat>)
                | LaneQueueStep(limit: nat)
                | WriteFailsStep(id: nat)
                | SocketDrainsStep
                | GoAwayStep
                | CloseStep

  function Apply(c: Connection, cfg: Config, socket: W.Socket, step: Step): (r: Connection)
    requires Steady(c) && WaitersParked(c.flow, c.parked)
    ensures Steady(r)
  {
    match step
    case RequestStep(cmd, privileged) => Request(c, cfg, socket, cmd, privileged)
    case ResumeStep(w, expired, frame) => Resume(c, cfg, socket, w, expired, frame)
    case WaiterExpiresStep(w) => WaiterExpires(c, w)
    case RequestExpiresStep(id, bytes, frames) => RequestExpires(c, id, bytes, frames)
    case GraceExpiresStep(id) => GraceExpires(c, id)
    case FrameStep(response) => HandleFrame(c, cfg, response)
    case LimitsStep(connection, lane) => ApplyLimits(c, connection, lane)
    case LaneQueueStep(limit) => ApplyLaneQueueLimit(c, limit)
    case WriteFailsStep(id) => WriteFails(c, id)
    case SocketDrainsStep => SocketDrains(c, socket)
    case GoAwayStep => if c.closed then c else BeginDraining(c)
    case CloseStep => FailAll(c)
  }

  function Initial(flow: F.Flow): Connection {
    Connection(flow, W.INITIAL, map[], 0, false, false, 1, 0, map[], map[], map[])
  }
}
