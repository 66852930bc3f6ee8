/** Responses that come too late: the connection counts all that has come of them. */
module LateResponses {
  import opened Wrappers
  import opened Bytes
  import R = ReceiveStream
  import A = ChunkAssembly
  import W = WriteQueueModel
  import opened NativeConnectionModel
  import opened ConnectionInvariant
  import C = ConnectionRuns
  import opened ConnectionOutcomes
  import opened ResponseDelivery

  /** Of a request that has timed out, everything that has come is counted. */
  ghost predicate CountsLate(pending: map<nat, Pending>, came: nat -> seq<seq<byte>>) {
    forall id | id in pending && pending[id].timedOut ::
      pending[id].discardedBytes == |A.Concat(came(id))| && pending[id].discardedFrames == |came(id)|
  }

  /** A step leaves late requests as they are; a new one is that of the timer. */
  ghost predicate LateStays(v: View, w: View, step: Step) {
    forall id | id in w.pending && w.pending[id].timedOut ::
      && id in v.pending
      && (if v.pending[id].timedOut then w.pending[id] == v.pending[id]
          else && step.RequestExpiresStep? && step.id == id && w.pending[id].discardedFrames == step.chunkFrames
               && w.pending[id].discardedBytes == if step.chunkFrames > 0 then step.chunkBytes else 0)
  }

  lemma ClearedStaysLate(v: View, gone: set<nat>, queued: set<nat>, first: Outcome, second: Outcome, step: Step)
    ensures LateStays(v, Cleared(v, gone, queued, first, second), step)
  {
    hide Awaits;
  }

  lemma DispatchedStaysLate(w: W.Writes, controls: nat, cfg: Config, socket: W.Socket, v: View, call: nat, cmd: Command,
                            hasCredit: bool, step: Step)
    ensures LateStays(v, Dispatched(w, controls, cfg, socket, v, call, cmd, hasCredit), step)
  {
    hide Refusal;
  }

  lemma {:induction false} RequestedStaysLate(c: Connection, cfg: Config, socket: W.Socket, cmd: Command, privileged: bool, step: Step)
    ensures LateStays(ViewOf(c), Requested(c, cfg, socket, cmd, privileged), step)
  {
    hide Dispatched, CreditIsFree, Waited;
    var v := ViewOf(c).(calls := c.calls + 1);
    DispatchedStaysLate(c.writes, c.controls, cfg, socket, v, c.calls, cmd, false, step);
    DispatchedStaysLate(c.writes, c.controls, cfg, socket, v, c.calls, cmd, true, step);
    WaitedKeepsTable(c, v, c.calls, cmd);
  }

  lemma {:induction false} ResumedStaysLate(c: Connection, cfg: Config, socket: W.Socket, w: nat, expired: bool, frame: Option<W.Frame>, step: Step)
    ensures LateStays(ViewOf(c), Resumed(c, cfg, socket, w, expired, frame), step)
  {
    hide Dispatched;
    if w in c.parked {
      var p := c.parked[w];
      DispatchedStaysLate(c.writes, c.controls, cfg, socket, ViewOf(c).(parked := c.parked - {w}), p.call,
                          Command(p.lane, p.opcode, p.indefinite, frame), true, step);
    }
  }

  lemma {:induction false} ExpiredStaysLate(c: Connection, id: nat, chunkBytes: nat, chunkFrames: nat)
    ensures LateStays(ViewOf(c), Expired(c, id, chunkBytes, chunkFrames), RequestExpiresStep(id, chunkBytes, chunkFrames))
  {
    ClearedStaysLate(ViewOf(c), {id}, {}, UnsentTimeout, UnsentTimeout, RequestExpiresStep(id, chunkBytes, chunkFrames));
    ClearedStaysLate(ViewOf(c), {id}, {}, PossiblySentTimeout, PossiblySentTimeout, RequestExpiresStep(id, chunkBytes, chunkFrames));
    hide Cleared, Ids;
  }

  lemma {:induction false} GoAwayStaysLate(c: Connection, step: Step)
    ensures LateStays(ViewOf(c), AfterGoAway(c), step)
  {
    hide Ids, Indefinite, Awaits;
  }

  lemma {:induction false} TableStaysLate(c: Connection, cfg: Config, socket: W.Socket, step: Step)
    requires !step.FrameStep?
    ensures LateStays(ViewOf(c), Tabled(c, cfg, socket, step), step)
  {
    var v := ViewOf(c);
    hide Requested, Resumed, Expired, Cleared, AfterGoAway, Ids, RejectedIds, W.Flush;
    match step
    case RequestStep(cmd, privileged) => RequestedStaysLate(c, cfg, socket, cmd, privileged, step);
    case ResumeStep(w, expired, frame) => ResumedStaysLate(c, cfg, socket, w, expired, frame, step);
    case RequestExpiresStep(id, bytes, frames) => ExpiredStaysLate(c, id, bytes, frames);
    case WriteFailsStep(id) => ClearedStaysLate(v, {id}, {}, PossiblySent, PossiblySent, step);
    case SocketDrainsStep =>
      ClearedStaysLate(v, RejectedIds(W.Flush(c.writes, socket, c.closed, c.pending.Keys).1), {}, Unsent, Unsent, step);
    case GoAwayStep => GoAwayStaysLate(c, step);
    case _ => ClearedStaysLate(v, v.pending.Keys, Ids(c.writes.queue), Unsent, PossiblySent, step);
  }

  lemma {:induction false} StepCountsLate(s: Client, cfg: Config, socket: W.Socket, decode: Decoder, step: Step, came: nat -> seq<seq<byte>>)
    requires Inv(s.connection, cfg) && Delivers(s, came) && CountsLate(s.connection.pending, came) && !step.FrameStep?
    ensures CountsLate(After(s, cfg, socket, decode, Happens(step)).connection.pending, came)
  {
    hide Inv, Apply, Tabled, Steady, WaitersParked, KeptOpen, PartsBelong, AnswersAreWhatCame, NothingAhead, HeldFor;
    var exact := WithParts(s, step);
    StepView(s.connection, cfg, socket, exact);
    TableStaysLate(s.connection, cfg, socket, exact);
    A.NothingHeld();
  }

  /** A late frame is counted with all that came before it. */
  lemma {:induction false} LateCounted(c: Connection, cfg: Config, frame: R.Frame, came: nat -> seq<seq<byte>>, next: nat -> seq<seq<byte>>)
    requires CountsLate(c.pending, came) && CameFor(came, next, frame.requestId, frame.body)
    requires !c.closed && frame.requestId in c.pending && c.pending[frame.requestId].timedOut
    ensures CountsLate(Late(c, cfg, ResponseOf(frame, Partial)).pending, next)
  {
    A.ConcatOneMore(came(frame.requestId), frame.body);
    hide LateTooLarge, Ids, Awaits, A.Concat;
  }

  lemma {:induction false} ReceivedCountsLate(c: Connection, cfg: Config, frame: R.Frame, r: Response, came: nat -> seq<seq<byte>>,
                                              next: nat -> seq<seq<byte>>)
    requires CountsLate(c.pending, came) && forall x :: next(x) == came(x) + NowFor(c, Arrives(frame), x)
    requires r == ResponseOf(frame, r.assembled) && (Expected(c, frame) || r.assembled.Partial?)
    ensures CountsLate(Received(c, cfg, r).pending, next)
  {
    hide Ids, Awaits, A.Concat, Late, LateTooLarge;
    assert forall x :: came(x) + [] == came(x);
    if !c.closed && frame.requestId in c.pending {
      CameNow(c, frame, came, next);
      if c.pending[frame.requestId].timedOut { LateCounted(c, cfg, frame, came, next); }
    }
  }

  lemma {:induction false} ReceiveCountsLate(s: Client, cfg: Config, decode: Decoder, frame: R.Frame, came: nat -> seq<seq<byte>>,
                                             next: nat -> seq<seq<byte>>)
    requires Viewable(s.connection) && Steady(s.connection) && CountsLate(s.connection.pending, came)
    requires forall x :: next(x) == came(x) + NowFor(s.connection, Arrives(frame), x)
    ensures CountsLate(Receive(s, cfg, decode, frame).connection.pending, next)
  {
    var c := s.connection;
    var r := if Expected(c, frame) then ResponseOf(frame, AssembledAs(A.Assemble(s.open, frame, LimitsOf(cfg)).1, decode))
             else ResponseOf(frame, Partial);
    hide Viewable, Steady, HandleFrame, Received, CountsLate, NowFor, A.Assemble, KeptOpen, Expected;
    HandleFrameView(c, cfg, r);
    ReceivedCountsLate(c, cfg, frame, r, came, next);
  }

  /** In every state of every run: of a response whose request has timed out and that is still awaited, the
      bytes and the frames counted are those that came, before the time-out and after it. */
  lemma {:induction false} LateResponsesAreCounted(c: Connection, cfg: Config, socket: W.Socket, decode: Decoder, events: seq<Event>)
    requires C.Fresh(c)
    ensures Inv(c, cfg)
    ensures CountsLate(Run(c, cfg, socket, decode, events).connection.pending, CameBy(c, cfg, socket, decode, events))
    decreases |events|
  {
    hide Inv, CountsLate, After, Came, CameBy, Delivers;
    C.FreshIsValid(c, cfg);
    if events == [] {
      NoneLate(c, cfg, socket, decode);
    } else {
      var front, last := events[..|events| - 1], events[|events| - 1];
      LateResponsesAreCounted(c, cfg, socket, decode, front);
      RunDelivers(c, cfg, socket, decode, front);
      hide C.Fresh;
      forall id
        ensures CameBy(c, cfg, socket, decode, events)(id)
             == CameBy(c, cfg, socket, decode, front)(id) + NowFor(Run(c, cfg, socket, decode, front).connection, last, id)
      {
        CameNext(c, cfg, socket, decode, events, id);
      }
      EventCountsLate(Run(c, cfg, socket, decode, front), cfg, socket, decode, last, CameBy(c, cfg, socket, decode, front),
                      CameBy(c, cfg, socket, decode, events));
    }
  }

  lemma {:induction false} NoneLate(c: Connection, cfg: Config, socket: W.Socket, decode: Decoder)
    requires C.Fresh(c) && Inv(c, cfg)
    ensures CountsLate(Run(c, cfg, socket, decode, []).connection.pending, CameBy(c, cfg, socket, decode, []))
  {
    hide Inv;
    assert c.pending == map[];
  }

  lemma {:induction false} EventCountsLate(s: Client, cfg: Config, socket: W.Socket, decode: Decoder, e: Event, came: nat -> seq<seq<byte>>,
                                           next: nat -> seq<seq<byte>>)
    requires Inv(s.connection, cfg) && Delivers(s, came) && CountsLate(s.connection.pending, came)
    requires forall id :: next(id) == came(id) + NowFor(s.connection, e, id)
    ensures CountsLate(After(s, cfg, socket, decode, e).connection.pending, next)
  {
    hide Inv, Delivers, Receive, Steady, WaitersParked, Viewable, KeptOpen, Apply, HeldFor;
    ViewFacts(s.connection, cfg);
    match e
    case Arrives(frame) => ReceiveCountsLate(s, cfg, decode, frame, came, next);
    case Happens(step) =>
      assert forall id :: came(id) + [] == came(id);
      NothingCame(s, s.connection, came, next);
      if !step.FrameStep? { StepCountsLate(s, cfg, socket, decode, step, next); }
  }
}
