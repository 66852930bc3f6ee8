/** From the frames that arrive to the answers that callers get: the connection, with the reassembly of
    responses and the decoder put in their places. */
module ResponseDelivery {
  import opened Wrappers
  import opened Bytes
  import R = ReceiveStream
  import A = ChunkAssembly
  import W = WriteQueueModel
  import opened NativeConnectionModel
  import opened ConnectionInvariant
  import opened ConnectionSteps
  import opened ConnectionRuns
  import opened ConnectionOutcomes
  import opened ConnectionEvents

  /** What decoding makes of a whole response: a value or an error, and the limits that a window update
      announces. */
  datatype Decoded = Decoded(ok: bool, connectionLimit: Option<nat>, laneLimit: Option<nat>)

  type Decoder = R.Frame -> Decoded

  /** The connection, the parts of responses that have begun, and the responses that calls were settled
      with. */
  datatype Client = Client(connection: Connection, open: A.Open, answers: map<nat, R.Frame>)

  datatype Event = Arrives(frame: R.Frame) | Happens(step: Step)

  function LimitsOf(cfg: Config): A.Limits {
    A.Limits(cfg.maxChunkBytes, cfg.maxChunkFrames, cfg.maxResponseBytes)
  }

  /** Parts are dropped with their request, and when it times out. */
  function KeptOpen(open: A.Open, c: Connection): A.Open {
    map k | k in open && k.requestId in c.pending && !c.pending[k.requestId].timedOut :: open[k]
  }

  function AssembledAs(result: Result<Option<R.Frame>, ()>, decode: Decoder): Assembled {
    match result
    case Failure(_) => Overflow
    case Success(None) => Partial
    case Success(Some(whole)) =>
      var decoded := decode(whole);
      Complete(|whole.body|, decoded.ok, decoded.connectionLimit, decoded.laneLimit)
  }

  function ResponseOf(frame: R.Frame, assembled: Assembled): Response {
    Response(frame.requestId, frame.laneId, frame.opcode, |frame.body|, A.More(frame), assembled)
  }

  /** The frame is for a request that is still waited for, and has its opcode and lane. */
  predicate Expected(c: Connection, frame: R.Frame) {
    && !c.closed && frame.requestId in c.pending && !c.pending[frame.requestId].timedOut
    && frame.opcode == c.pending[frame.requestId].opcode && frame.laneId == c.pending[frame.requestId].lane
  }

  function Receive(s: Client, cfg: Config, decode: Decoder, frame: R.Frame): Client
    requires Steady(s.connection)
  {
    var c := s.connection;
    if !Expected(c, frame) then
      var d := HandleFrame(c, cfg, ResponseOf(frame, Partial));
      s.(connection := d, open := KeptOpen(s.open, d))
    else
      var (open, result) := A.Assemble(s.open, frame, LimitsOf(cfg));
      var d := HandleFrame(c, cfg, ResponseOf(frame, AssembledAs(result, decode)));
      var answers := if result.Success? && result.value.Some? && |result.value.value.body| <= cfg.maxResponseBytes
                     then s.answers[c.pending[frame.requestId].call := result.value.value] else s.answers;
      Client(d, KeptOpen(open, d), answers)
  }

  /** Everything but frames is a step of the connection. */
  function After(s: Client, cfg: Config, socket: W.Socket, decode: Decoder, e: Event): Client
    requires Inv(s.connection, cfg)
  {
    InvFacts(s.connection, cfg);
    match e
    case Arrives(frame) => Receive(s, cfg, decode, frame)
    case Happens(step) =>
      if step.FrameStep? then s
      else
        var d := Apply(s.connection, cfg, socket, WithParts(s, step));
        s.(connection := d, open := KeptOpen(s.open, d))
  }

  /** The timer of a request is told what has come of its response; there are parts under one key only. */
  function WithParts(s: Client, step: Step): Step {
    if step.RequestExpiresStep? && step.id in s.connection.pending then
      var parts := HeldFor(s.open, step.id, s.connection.pending[step.id]);
      RequestExpiresStep(step.id, |A.Concat(parts)|, |parts|)
    else step
  }

  function KeyFor(id: nat, p: Pending): A.Key {
    A.Key(id, p.opcode, if p.lane >= 0 then p.lane else 0)
  }

  /** The parts that are held for a request. */
  function HeldFor(open: A.Open, id: nat, p: Pending): seq<seq<byte>> {
    A.BodiesOf(open, KeyFor(id, p))
  }

  lemma {:induction false} AfterKeepsInv(s: Client, cfg: Config, socket: W.Socket, decode: Decoder, e: Event)
    requires Inv(s.connection, cfg)
    ensures Inv(After(s, cfg, socket, decode, e).connection, cfg)
  {
    InvFacts(s.connection, cfg);
    match e
    case Arrives(frame) =>
      HandleFrameKeeps(s.connection, cfg, socket, ResponseOf(frame, Partial));
      HandleFrameKeeps(s.connection, cfg, socket, ResponseOf(frame, AssembledAs(A.Assemble(s.open, frame, LimitsOf(cfg)).1, decode)));
      hide Inv, HandleFrame, A.Assemble, Steady;
    case Happens(step) =>
      StepKeepsInv(s.connection, cfg, socket, WithParts(s, step));
      hide Inv, Apply, Steady, WithParts;
  }

  function Run(c: Connection, cfg: Config, socket: W.Socket, decode: Decoder, events: seq<Event>): (s: Client)
    requires Inv(c, cfg)
    ensures Inv(s.connection, cfg)
    decreases |events|
  {
    if events == [] then Client(c, map[], map[])
    else
      var before := Run(c, cfg, socket, decode, events[..|events| - 1]);
      AfterKeepsInv(before, cfg, socket, decode, events[|events| - 1]);
      After(before, cfg, socket, decode, events[|events| - 1])
  }

  /** The bodies of the frames that came for a request while it was correlated, in order. */
  function Came(c: Connection, cfg: Config, socket: W.Socket, decode: Decoder, events: seq<Event>, id: nat): seq<seq<byte>>
    requires Inv(c, cfg)
    decreases |events|
  {
    if events == [] then []
    else
      var front, last := events[..|events| - 1], events[|events| - 1];
      Came(c, cfg, socket, decode, front, id) + NowFor(Run(c, cfg, socket, decode, front).connection, last, id)
  }

  function NowFor(c: Connection, e: Event, id: nat): seq<seq<byte>> {
    if e.Arrives? && e.frame.requestId == id && !c.closed && id in c.pending then [e.frame.body] else []
  }

  // ----- How the table of requests evolves -----

  /** The same request, perhaps timed out meanwhile. */
  predicate SameRequest(p: Pending, q: Pending) {
    q.call == p.call && q.opcode == p.opcode && q.lane == p.lane && (p.timedOut ==> q.timedOut)
  }

  ghost predicate Evolves(v: View, w: View) {
    && v.nextId <= w.nextId
    && forall id | id in w.pending :: (id in v.pending && SameRequest(v.pending[id], w.pending[id])) || id == v.nextId
  }

  lemma ClearedEvolves(v: View, gone: set<nat>, queued: set<nat>, first: Outcome, second: Outcome)
    ensures Evolves(v, Cleared(v, gone, queued, first, second))
  {
    hide Awaits;
  }

  lemma DispatchedEvolves(w: W.Writes, controls: nat, cfg: Config, socket: W.Socket, v: View, call: nat, cmd: Command, hasCredit: bool)
    ensures Evolves(v, Dispatched(w, controls, cfg, socket, v, call, cmd, hasCredit))
  {
    hide Refusal;
  }

  lemma {:induction false} RequestedEvolves(c: Connection, cfg: Config, socket: W.Socket, cmd: Command, privileged: bool)
    ensures Evolves(ViewOf(c), Requested(c, cfg, socket, cmd, privileged))
  {
    hide Dispatched, CreditIsFree, Waited, SameRequest;
    var v := ViewOf(c).(calls := c.calls + 1);
    SameTable(ViewOf(c));
    DispatchedEvolves(c.writes, c.controls, cfg, socket, v, c.calls, cmd, false);
    DispatchedEvolves(c.writes, c.controls, cfg, socket, v, c.calls, cmd, true);
    WaitedKeepsTable(c, v, c.calls, cmd);
  }

  lemma SameTable(v: View)
    ensures forall id | id in v.pending :: SameRequest(v.pending[id], v.pending[id])
  {
  }

  lemma WaitedKeepsTable(c: Connection, v: View, call: nat, cmd: Command)
    ensures Waited(c.flow, v, call, cmd).pending == v.pending && Waited(c.flow, v, call, cmd).nextId == v.nextId
  {
    hide WaitingSet;
  }

  lemma {:induction false} ResumedEvolves(c: Connection, cfg: Config, socket: W.Socket, w: nat, expired: bool, frame: Option<W.Frame>)
    ensures Evolves(ViewOf(c), Resumed(c, cfg, socket, w, expired, frame))
  {
    hide Dispatched, SameRequest;
    SameTable(ViewOf(c));
    if w in c.parked {
      var p := c.parked[w];
      DispatchedEvolves(c.writes, c.controls, cfg, socket, ViewOf(c).(parked := c.parked - {w}), p.call,
                        Command(p.lane, p.opcode, p.indefinite, frame), true);
    }
  }

  lemma {:induction false} ExpiredEvolves(c: Connection, id: nat, chunkBytes: nat, chunkFrames: nat)
    ensures Evolves(ViewOf(c), Expired(c, id, chunkBytes, chunkFrames))
  {
    ClearedEvolves(ViewOf(c), {id}, {}, UnsentTimeout, UnsentTimeout);
    ClearedEvolves(ViewOf(c), {id}, {}, PossiblySentTimeout, PossiblySentTimeout);
    hide Cleared, Ids;
  }

  lemma {:induction false} GoAwayEvolves(c: Connection)
    ensures Evolves(ViewOf(c), AfterGoAway(c))
  {
    var v := ViewOf(c).(draining := true);
    var sent := Cleared(v, Ids(c.writes.queue), {}, Unsent, Unsent);
    ClearedEvolves(v, Ids(c.writes.queue), {}, Unsent, Unsent);
    ClearedEvolves(sent, Indefinite(sent.pending), {}, PossiblySent, PossiblySent);
    assert sent.nextId == v.nextId;
    assert sent.pending.Keys <= v.pending.Keys;
    assert AfterGoAway(c).pending.Keys <= sent.pending.Keys;
    hide Ids, Indefinite, Awaits;
  }

  /** A step changes no request into another: what is in the table afterwards was there before, or is the
      one request with the next identifier. */
  lemma {:induction false} TableEvolves(c: Connection, cfg: Config, socket: W.Socket, step: Step)
    requires !step.FrameStep?
    ensures Evolves(ViewOf(c), Tabled(c, cfg, socket, step))
  {
    var v := ViewOf(c);
    hide Requested, Resumed, Expired, Cleared, AfterGoAway, Ids, RejectedIds, W.Flush;
    match step
    case RequestStep(cmd, privileged) => RequestedEvolves(c, cfg, socket, cmd, privileged);
    case ResumeStep(w, expired, frame) => ResumedEvolves(c, cfg, socket, w, expired, frame);
    case RequestExpiresStep(id, bytes, frames) => ExpiredEvolves(c, id, bytes, frames);
    case WriteFailsStep(id) => ClearedEvolves(v, {id}, {}, PossiblySent, PossiblySent);
    case SocketDrainsStep =>
      ClearedEvolves(v, RejectedIds(W.Flush(c.writes, socket, c.closed, c.pending.Keys).1), {}, Unsent, Unsent);
    case GoAwayStep => GoAwayEvolves(c);
    case _ => ClearedEvolves(v, v.pending.Keys, Ids(c.writes.queue), Unsent, PossiblySent);
  }

  // ----- The parts that are held, and what came -----

  /** Parts are held only for requests that are still waited for, under their opcode and lane. */
  ghost predicate PartsBelong(open: A.Open, pending: map<nat, Pending>) {
    forall k | k in open ::
      && k.requestId in pending && !pending[k.requestId].timedOut
      && k.opcode == pending[k.requestId].opcode && k.laneId == pending[k.requestId].lane
  }

  /** Of every request that is waited for, all that has come is held. */
  ghost predicate HoldsWhatCame(open: A.Open, pending: map<nat, Pending>, came: nat -> seq<seq<byte>>) {
    forall id | id in pending && !pending[id].timedOut :: HeldFor(open, id, pending[id]) == came(id)
  }

  /** Every answer is what came for the request of its call, which is no longer correlated. */
  ghost predicate AnswersAreWhatCame(answers: map<nat, R.Frame>, v: View, came: nat -> seq<seq<byte>>) {
    forall call | call in answers ::
      && call in v.idOf && v.idOf[call] !in v.pending && v.idOf[call] < v.nextId
      && answers[call].requestId == v.idOf[call] && answers[call].body == A.Concat(came(v.idOf[call]))
  }

  /** Nothing has come for identifiers that have not been given out. */
  ghost predicate NothingAhead(nextId: nat, came: nat -> seq<seq<byte>>) {
    forall id | id >= nextId :: came(id) == []
  }

  ghost predicate Delivers(s: Client, came: nat -> seq<seq<byte>>) {
    && PartsBelong(s.open, s.connection.pending) && HoldsWhatCame(s.open, s.connection.pending, came)
    && AnswersAreWhatCame(s.answers, ViewOf(s.connection), came) && NothingAhead(s.connection.nextId, came)
  }

  // ----- Steps other than frames -----

  lemma {:induction false} KeptParts(open: A.Open, c: Connection, d: Connection, came: nat -> seq<seq<byte>>)
    requires PartsBelong(open, c.pending) && HoldsWhatCame(open, c.pending, came) && NothingAhead(c.nextId, came)
    requires Evolves(ViewOf(c), ViewOf(d)) && Below(c.pending, c.nextId)
    ensures PartsBelong(KeptOpen(open, d), d.pending) && HoldsWhatCame(KeptOpen(open, d), d.pending, came)
  {
    forall id | id in d.pending && !d.pending[id].timedOut
      ensures HeldFor(KeptOpen(open, d), id, d.pending[id]) == came(id)
    {
      if id in c.pending {
        assert SameRequest(c.pending[id], d.pending[id]);
        assert A.BodiesOf(KeptOpen(open, d), KeyFor(id, d.pending[id])) == A.BodiesOf(open, KeyFor(id, c.pending[id]));
      } else {
        assert A.BodiesOf(KeptOpen(open, d), KeyFor(id, d.pending[id])) == [];
      }
    }
  }

  lemma {:induction false} KeptAnswers(answers: map<nat, R.Frame>, c: Connection, d: Connection, came: nat -> seq<seq<byte>>)
    requires AnswersAreWhatCame(answers, ViewOf(c), came) && NothingAhead(c.nextId, came)
    requires Evolves(ViewOf(c), ViewOf(d)) && Grows(c, d)
    ensures AnswersAreWhatCame(answers, ViewOf(d), came) && NothingAhead(d.nextId, came)
  {
    hide SameRequest;
  }

  lemma {:induction false} StepDelivers(s: Client, cfg: Config, socket: W.Socket, step: Step, came: nat -> seq<seq<byte>>)
    requires Inv(s.connection, cfg) && Delivers(s, came) && !step.FrameStep?
    ensures Steady(s.connection) && WaitersParked(s.connection.flow, s.connection.parked)
    ensures var d := Apply(s.connection, cfg, socket, step); Delivers(s.(connection := d, open := KeptOpen(s.open, d)), came)
  {
    hide Inv, Apply, Tabled, Steady, WaitersParked, Viewable, Evolves, Grows, PartsBelong, HoldsWhatCame, AnswersAreWhatCame, NothingAhead;
    ViewFacts(s.connection, cfg);
    ViewableBelow(s.connection);
    StepView(s.connection, cfg, socket, step);
    StepGrows(s.connection, cfg, socket, step);
    TableEvolves(s.connection, cfg, socket, step);
    KeptParts(s.open, s.connection, Apply(s.connection, cfg, socket, step), came);
    KeptAnswers(s.answers, s.connection, Apply(s.connection, cfg, socket, step), came);
  }

  lemma ViewableBelow(c: Connection)
    requires Viewable(c)
    ensures Below(c.pending, c.nextId) && Correlated(ViewOf(c))
  {
    hide Steady, Correlated, Below;
  }

  // ----- Frames -----

  /** One more frame has come, for the request with this identifier. */
  ghost predicate CameFor(came: nat -> seq<seq<byte>>, next: nat -> seq<seq<byte>>, id: nat, body: seq<byte>) {
    (forall x | x != id :: next(x) == came(x)) && next(id) == came(id) + [body]
  }

  /** The parts of all other requests are the same. */
  predicate SameElsewhere(open: A.Open, after: A.Open, id: nat) {
    && (forall k | k in after && k.requestId != id :: k in open && open[k] == after[k])
    && (forall k | k in open && k.requestId != id :: k in after)
  }

  /** The call of this request gets this response, and its request leaves the table. */
  ghost predicate Answering(d: Connection, call: nat, id: nat, whole: R.Frame, body: seq<byte>) {
    call in d.idOf && d.idOf[call] == id && id !in d.pending && whole.requestId == id && whole.body == body
  }

  /** A frame after which its request is no longer waited for; it may have been answered. */
  lemma {:induction false} FrameEnds(s: Client, d: Connection, after: A.Open, answers: map<nat, R.Frame>, id: nat, body: seq<byte>,
                                     came: nat -> seq<seq<byte>>, next: nat -> seq<seq<byte>>)
    requires Delivers(s, came) && CameFor(came, next, id, body) && SameElsewhere(s.open, after, id)
    requires Evolves(ViewOf(s.connection), ViewOf(d)) && Grows(s.connection, d) && Below(s.connection.pending, s.connection.nextId)
    requires id in s.connection.pending && (id in d.pending ==> d.pending[id].timedOut)
    requires answers == s.answers
             || exists call, whole :: Answering(d, call, id, whole, A.Concat(next(id))) && answers == s.answers[call := whole]
    ensures Delivers(Client(d, KeptOpen(after, d), answers), next)
  {
    EndedParts(s.open, s.connection, d, after, id, body, came, next);
    EndedAnswers(s, d, answers, id, body, came, next);
    hide Evolves, Grows, PartsBelong, HoldsWhatCame, AnswersAreWhatCame, CameFor, Below, SameElsewhere;
  }

  lemma {:induction false} EndedParts(open: A.Open, c: Connection, d: Connection, after: A.Open, id: nat, body: seq<byte>,
                                      came: nat -> seq<seq<byte>>, next: nat -> seq<seq<byte>>)
    requires PartsBelong(open, c.pending) && HoldsWhatCame(open, c.pending, came) && NothingAhead(c.nextId, came)
    requires CameFor(came, next, id, body) && SameElsewhere(open, after, id)
    requires Evolves(ViewOf(c), ViewOf(d)) && Below(c.pending, c.nextId)
    requires id in c.pending && (id in d.pending ==> d.pending[id].timedOut)
    ensures PartsBelong(KeptOpen(after, d), d.pending) && HoldsWhatCame(KeptOpen(after, d), d.pending, next)
  {
    forall x | x in d.pending && !d.pending[x].timedOut
      ensures HeldFor(KeptOpen(after, d), x, d.pending[x]) == next(x)
    {
      if x in c.pending {
        assert SameRequest(c.pending[x], d.pending[x]);
        assert A.BodiesOf(KeptOpen(after, d), KeyFor(x, d.pending[x])) == A.BodiesOf(open, KeyFor(x, c.pending[x]));
      } else {
        assert A.BodiesOf(KeptOpen(after, d), KeyFor(x, d.pending[x])) == [];
      }
    }
    forall k | k in KeptOpen(after, d)
      ensures k.opcode == d.pending[k.requestId].opcode && k.laneId == d.pending[k.requestId].lane
    {
      assert k in open && SameRequest(c.pending[k.requestId], d.pending[k.requestId]);
    }
  }

  lemma {:induction false} EndedAnswers(s: Client, d: Connection, answers: map<nat, R.Frame>, id: nat, body: seq<byte>,
                                        came: nat -> seq<seq<byte>>, next: nat -> seq<seq<byte>>)
    requires AnswersAreWhatCame(s.answers, ViewOf(s.connection), came) && NothingAhead(s.connection.nextId, came)
    requires CameFor(came, next, id, body) && Below(s.connection.pending, s.connection.nextId)
    requires Evolves(ViewOf(s.connection), ViewOf(d)) && Grows(s.connection, d)
    requires id in s.connection.pending
    requires answers == s.answers
             || exists call, whole :: Answering(d, call, id, whole, A.Concat(next(id))) && answers == s.answers[call := whole]
    ensures AnswersAreWhatCame(answers, ViewOf(d), next) && NothingAhead(d.nextId, next)
  {
    hide SameRequest;
  }

  lemma {:induction false} NothingToDrop(open: A.Open, d: Connection)
    requires PartsBelong(open, d.pending)
    ensures KeptOpen(open, d) == open
  {
  }

  lemma {:induction false} PartsStillBelong(open: A.Open, frame: R.Frame, limits: A.Limits, c: Connection)
    requires PartsBelong(open, c.pending) && Expected(c, frame)
    ensures PartsBelong(A.Assemble(open, frame, limits).0, c.pending)
  {
    AssembledParts(open, frame, limits);
    hide A.Assemble;
  }

  lemma {:induction false} HeldOneMore(open: A.Open, frame: R.Frame, limits: A.Limits, c: Connection, x: nat)
    requires Expected(c, frame) && x in c.pending && A.Assemble(open, frame, limits).1 == Success(None)
    ensures HeldFor(A.Assemble(open, frame, limits).0, x, c.pending[x])
         == if x == frame.requestId then HeldFor(open, x, c.pending[x]) + [frame.body] else HeldFor(open, x, c.pending[x])
  {
    hide A.WithinLimits, A.Concat, A.More;
  }

  /** A frame with more to come: its body joins what is held for its request. */
  lemma {:induction false} PartJoins(s: Client, cfg: Config, d: Connection, frame: R.Frame, came: nat -> seq<seq<byte>>, next: nat -> seq<seq<byte>>)
    requires Delivers(s, came) && Expected(s.connection, frame) && CameFor(came, next, frame.requestId, frame.body)
    requires Below(s.connection.pending, s.connection.nextId)
    requires A.Assemble(s.open, frame, LimitsOf(cfg)).1 == Success(None)
    requires ViewOf(d) == ViewOf(s.connection) && Evolves(ViewOf(s.connection), ViewOf(d)) && Grows(s.connection, d)
    ensures var after := A.Assemble(s.open, frame, LimitsOf(cfg)).0; Delivers(Client(d, KeptOpen(after, d), s.answers), next)
  {
    var c, after, id := s.connection, A.Assemble(s.open, frame, LimitsOf(cfg)).0, frame.requestId;
    hide A.Assemble, HeldFor, Evolves, Grows, KeyFor, PartsBelong, AnswersAreWhatCame, Below, NothingAhead, KeptOpen;
    PartsStillBelong(s.open, frame, LimitsOf(cfg), c);
    NothingToDrop(after, d);
    forall x | x in d.pending && !d.pending[x].timedOut
      ensures HeldFor(after, x, d.pending[x]) == next(x)
    {
      HeldOneMore(s.open, frame, LimitsOf(cfg), c, x);
    }
    EndedAnswers(s, d, s.answers, id, frame.body, came, next);
  }

  /** Assembling touches only the frame's own key. */
  lemma AssembledParts(open: A.Open, frame: R.Frame, limits: A.Limits)
    ensures var after := A.Assemble(open, frame, limits).0;
            && (forall k | k in after && k != A.KeyOf(frame) :: k in open && open[k] == after[k])
            && (forall k | k in open && k != A.KeyOf(frame) :: k in after)
  {
    hide A.WithinLimits, A.More, A.Concat;
  }

  /** A whole response is all that has come for its request. */
  lemma {:induction false} WholeIsWhatCame(open: A.Open, frame: R.Frame, limits: A.Limits)
    requires A.Assemble(open, frame, limits).1.Success? && A.Assemble(open, frame, limits).1.value.Some?
    ensures A.Assemble(open, frame, limits).1.value.value.body == A.Concat(A.BodiesOf(open, A.KeyOf(frame))) + frame.body
    ensures A.Assemble(open, frame, limits).1.value.value.requestId == frame.requestId
  {
    var whole := A.Assemble(open, frame, limits).1.value.value;
    A.ArrivalStep(open, [], frame, limits, A.KeyOf(frame));
    hide A.Assemble, A.Concat;
    A.BodiesForOneMore([], whole, A.KeyOf(frame));
    assert [] + [whole] == [whole];
    assert A.BodiesFor([], A.KeyOf(frame)) == [];
    assert ([] + [whole.body])[0] == whole.body;
  }

  lemma {:induction false} LateEvolves(c: Connection, cfg: Config, r: Response)
    requires r.id in c.pending && c.pending[r.id].timedOut
    ensures Evolves(ViewOf(c), Late(c, cfg, r))
    ensures r.id in Late(c, cfg, r).pending ==> Late(c, cfg, r).pending[r.id].timedOut
  {
    ClearedEvolves(ViewOf(c), c.pending.Keys, Ids(c.writes.queue), Unsent, PossiblySent);
    hide Ids, Awaits, LateTooLarge;
  }

  lemma {:induction false} ReceivedEvolves(c: Connection, cfg: Config, r: Response)
    ensures Evolves(ViewOf(c), Received(c, cfg, r))
  {
    hide Cleared, Ids, Late, SameRequest, LateTooLarge;
    SameTable(ViewOf(c));
    ClearedEvolves(ViewOf(c), c.pending.Keys, Ids(c.writes.queue), Unsent, PossiblySent);
    ClearedEvolves(ViewOf(c), {r.id}, {}, Resolved, Resolved);
    ClearedEvolves(ViewOf(c), {r.id}, {}, ServerError, ServerError);
    if r.id in c.pending && c.pending[r.id].timedOut { LateEvolves(c, cfg, r); }
  }

  /** A frame that is expected and has more to come leaves the table as it is; after any other frame its
      request is no longer waited for. */
  lemma {:induction false} OwnRequestAfter(c: Connection, cfg: Config, r: Response)
    requires !c.closed && r.id in c.pending
    ensures var w, p := Received(c, cfg, r), c.pending[r.id];
            if p.timedOut || r.opcode != p.opcode || r.lane != p.lane || !r.assembled.Partial?
            then r.id in w.pending ==> w.pending[r.id].timedOut
            else w == ViewOf(c)
    ensures r.opcode == c.pending[r.id].opcode && r.lane == c.pending[r.id].lane && !c.pending[r.id].timedOut && r.assembled.Complete? ==>
              r.id !in Received(c, cfg, r).pending
  {
    hide Awaits, Ids, Late;
    if c.pending[r.id].timedOut { LateEvolves(c, cfg, r); }
  }

  lemma {:induction false} NothingCame(s: Client, d: Connection, came: nat -> seq<seq<byte>>, next: nat -> seq<seq<byte>>)
    requires Delivers(s, came) && forall x :: next(x) == came(x)
    ensures Delivers(s, next)
  {
    hide HeldFor;
  }

  /** A frame that nobody waits for changes nothing. */
  lemma {:induction false} FrameIgnored(s: Client, cfg: Config, decode: Decoder, frame: R.Frame, came: nat -> seq<seq<byte>>, next: nat -> seq<seq<byte>>)
    requires Steady(s.connection) && Delivers(s, came) && forall x :: next(x) == came(x)
    requires s.connection.closed || frame.requestId !in s.connection.pending
    ensures Delivers(Receive(s, cfg, decode, frame), next)
  {
    NothingCame(s, s.connection, came, next);
    NothingToDrop(s.open, s.connection);
    hide Delivers, KeptOpen, PartsBelong, Steady;
  }

  /** Every frame, whatever it is, keeps the answers those that came. */
  lemma {:induction false} ReceiveDelivers(s: Client, cfg: Config, decode: Decoder, frame: R.Frame, came: nat -> seq<seq<byte>>, next: nat -> seq<seq<byte>>)
    requires Viewable(s.connection) && Steady(s.connection) && Delivers(s, came)
    requires forall x :: next(x) == came(x) + NowFor(s.connection, Arrives(frame), x)
    ensures Delivers(Receive(s, cfg, decode, frame), next)
  {
    var c, id := s.connection, frame.requestId;
    hide Viewable, Steady, Delivers, HandleFrame, KeptOpen, A.Assemble, CameFor;
    if c.closed || id !in c.pending {
      assert forall x :: came(x) + [] == came(x);
      FrameIgnored(s, cfg, decode, frame, came, next);
    } else {
      assert forall x :: came(x) + [] == came(x);
      CameNow(c, frame, came, next);
      ViewableBelow(c);
      if !Expected(c, frame) {
        UnexpectedDelivers(s, cfg, decode, frame, came, next);
      } else if A.Assemble(s.open, frame, LimitsOf(cfg)).1 == Success(None) {
        PartDelivers(s, cfg, decode, frame, came, next);
      } else {
        WholeDelivers(s, cfg, decode, frame, came, next);
      }
    }
  }

  lemma CameNow(c: Connection, frame: R.Frame, came: nat -> seq<seq<byte>>, next: nat -> seq<seq<byte>>)
    requires !c.closed && frame.requestId in c.pending
    requires forall x :: next(x) == came(x) + NowFor(c, Arrives(frame), x)
    ensures CameFor(came, next, frame.requestId, frame.body)
  {
    assert forall x :: came(x) + [] == came(x);
  }

  lemma {:induction false} UnexpectedDelivers(s: Client, cfg: Config, decode: Decoder, frame: R.Frame, came: nat -> seq<seq<byte>>, next: nat -> seq<seq<byte>>)
    requires Viewable(s.connection) && Steady(s.connection) && Delivers(s, came) && CameFor(came, next, frame.requestId, frame.body)
    requires !s.connection.closed && frame.requestId in s.connection.pending && !Expected(s.connection, frame)
    ensures Delivers(Receive(s, cfg, decode, frame), next)
  {
    var c, r := s.connection, ResponseOf(frame, Partial);
    hide Viewable, Steady, Delivers, HandleFrame, KeptOpen, CameFor, Received, Evolves, Grows, Below;
    ViewableBelow(c);
    HandleFrameView(c, cfg, r);
    HandleFrameGrows(c, cfg, r);
    ReceivedEvolves(c, cfg, r);
    OwnRequestAfter(c, cfg, r);
    FrameEnds(s, HandleFrame(c, cfg, r), s.open, s.answers, frame.requestId, frame.body, came, next);
  }

  lemma {:induction false} PartDelivers(s: Client, cfg: Config, decode: Decoder, frame: R.Frame, came: nat -> seq<seq<byte>>, next: nat -> seq<seq<byte>>)
    requires Viewable(s.connection) && Steady(s.connection) && Delivers(s, came) && CameFor(came, next, frame.requestId, frame.body)
    requires Expected(s.connection, frame) && A.Assemble(s.open, frame, LimitsOf(cfg)).1 == Success(None)
    ensures Delivers(Receive(s, cfg, decode, frame), next)
  {
    var c, r := s.connection, ResponseOf(frame, Partial);
    hide Viewable, Steady, Delivers, HandleFrame, KeptOpen, CameFor, Received, Evolves, Grows, Below, A.Assemble;
    ViewableBelow(c);
    HandleFrameView(c, cfg, r);
    HandleFrameGrows(c, cfg, r);
    ReceivedEvolves(c, cfg, r);
    OwnRequestAfter(c, cfg, r);
    PartJoins(s, cfg, HandleFrame(c, cfg, r), frame, came, next);
  }

  lemma {:induction false} WholeDelivers(s: Client, cfg: Config, decode: Decoder, frame: R.Frame, came: nat -> seq<seq<byte>>, next: nat -> seq<seq<byte>>)
    requires Viewable(s.connection) && Steady(s.connection) && Delivers(s, came) && CameFor(came, next, frame.requestId, frame.body)
    requires Expected(s.connection, frame) && A.Assemble(s.open, frame, LimitsOf(cfg)).1 != Success(None)
    ensures Delivers(Receive(s, cfg, decode, frame), next)
  {
    var c, id := s.connection, frame.requestId;
    var (after, result) := A.Assemble(s.open, frame, LimitsOf(cfg));
    var r := ResponseOf(frame, AssembledAs(result, decode));
    var d := HandleFrame(c, cfg, r);
    hide Viewable, Steady, Delivers, HandleFrame, KeptOpen, CameFor, Received, Evolves, Grows, Below, A.Assemble, SameElsewhere;
    ViewableBelow(c);
    HandleFrameView(c, cfg, r);
    HandleFrameGrows(c, cfg, r);
    ReceivedEvolves(c, cfg, r);
    OwnRequestAfter(c, cfg, r);
    OnlyOwnParts(s.open, frame, LimitsOf(cfg));
    if result.Success? && |result.value.value.body| <= cfg.maxResponseBytes {
      AnswersNow(s, cfg, d, frame, came, next);
    }
    FrameEnds(s, d, after, Receive(s, cfg, decode, frame).answers, id, frame.body, came, next);
  }

  lemma {:induction false} OnlyOwnParts(open: A.Open, frame: R.Frame, limits: A.Limits)
    ensures SameElsewhere(open, A.Assemble(open, frame, limits).0, frame.requestId)
  {
    AssembledParts(open, frame, limits);
    hide A.Assemble;
  }

  lemma {:induction false} AnswersNow(s: Client, cfg: Config, d: Connection, frame: R.Frame, came: nat -> seq<seq<byte>>, next: nat -> seq<seq<byte>>)
    requires Viewable(s.connection) && Delivers(s, came) && CameFor(came, next, frame.requestId, frame.body) && Expected(s.connection, frame)
    requires A.Assemble(s.open, frame, LimitsOf(cfg)).1.Success? && A.Assemble(s.open, frame, LimitsOf(cfg)).1.value.Some?
    requires Grows(s.connection, d) && frame.requestId !in d.pending
    ensures var whole := A.Assemble(s.open, frame, LimitsOf(cfg)).1.value.value;
            Answering(d, s.connection.pending[frame.requestId].call, frame.requestId, whole, A.Concat(next(frame.requestId)))
  {
    var c, id := s.connection, frame.requestId;
    WholeIsWhatCame(s.open, frame, LimitsOf(cfg));
    A.ConcatOneMore(came(id), frame.body);
    ViewableBelow(c);
    assert HeldFor(s.open, id, c.pending[id]) == came(id);
    assert A.KeyOf(frame) == KeyFor(id, c.pending[id]);
    assert c.pending[id].call in c.idOf && c.idOf[c.pending[id].call] == id;
    hide A.Assemble, PartsBelong, AnswersAreWhatCame, NothingAhead;
  }

  // ----- Outcomes -----

  function AnswerOutcome(decode: Decoder, whole: R.Frame): Outcome {
    if decode(whole).ok then Resolved else ServerError
  }

  /** A call has an answer exactly when it was settled by the server, and in the way the answer decodes. */
  ghost predicate MatchesFor(s: Client, decode: Decoder, call: nat) {
    var told := OutcomeIn(ViewOf(s.connection), call);
    && (call in s.answers <==> told == Some(Resolved) || told == Some(ServerError))
    && (call in s.answers ==> told == Some(AnswerOutcome(decode, s.answers[call])))
  }

  lemma {:induction false} StepMatches(s: Client, cfg: Config, socket: W.Socket, decode: Decoder, step: Step, call: nat)
    requires Inv(s.connection, cfg) && MatchesFor(s, decode, call) && !step.FrameStep?
    ensures MatchesFor(After(s, cfg, socket, decode, Happens(step)), decode, call)
  {
    hide Inv, Apply, KeptOpen, OutcomeIn, Steady, WaitersParked, HeldFor;
    StepTells(s.connection, cfg, socket, WithParts(s, step), call, Resolved);
    StepTells(s.connection, cfg, socket, WithParts(s, step), call, ServerError);
  }

  lemma {:induction false} FrameTells(c: Connection, cfg: Config, socket: W.Socket, r: Response, call: nat)
    requires Inv(c, cfg)
    ensures Steady(c)
    ensures var before, after := OutcomeIn(ViewOf(c), call), OutcomeIn(ViewOf(HandleFrame(c, cfg, r)), call);
            && (after == Some(Resolved) <==> before == Some(Resolved) || Answers(c, cfg, r, call, true))
            && (after == Some(ServerError) <==> before == Some(ServerError) || Answers(c, cfg, r, call, false))
  {
    hide Inv, HandleFrame, OutcomeIn, Steady, WaitersParked, Answers;
    StepTells(c, cfg, socket, FrameStep(r), call, Resolved);
    StepTells(c, cfg, socket, FrameStep(r), call, ServerError);
  }

  lemma {:induction false} ReceiveMatches(s: Client, cfg: Config, socket: W.Socket, decode: Decoder, frame: R.Frame, call: nat)
    requires Inv(s.connection, cfg) && MatchesFor(s, decode, call)
    ensures Steady(s.connection) && MatchesFor(Receive(s, cfg, decode, frame), decode, call)
  {
    var c := s.connection;
    hide Inv, HandleFrame, KeptOpen, Steady, A.Assemble;
    InvFacts(c, cfg);
    if !Expected(c, frame) {
      FrameTells(c, cfg, socket, ResponseOf(frame, Partial), call);
      hide OutcomeIn;
    } else {
      WholeMatches(s, cfg, socket, decode, frame, call);
    }
  }

  lemma {:induction false} WholeMatches(s: Client, cfg: Config, socket: W.Socket, decode: Decoder, frame: R.Frame, call: nat)
    requires Inv(s.connection, cfg) && MatchesFor(s, decode, call) && Expected(s.connection, frame)
    ensures Steady(s.connection) && MatchesFor(Receive(s, cfg, decode, frame), decode, call)
  {
    var c, result := s.connection, A.Assemble(s.open, frame, LimitsOf(cfg)).1;
    hide Inv, HandleFrame, KeptOpen, Steady, A.Assemble;
    InvFacts(c, cfg);
    FrameTells(c, cfg, socket, ResponseOf(frame, AssembledAs(result, decode)), call);
    ExpectedIsOpen(c, cfg, frame);
  }

  lemma {:induction false} ExpectedIsOpen(c: Connection, cfg: Config, frame: R.Frame)
    requires Inv(c, cfg) && Expected(c, frame)
    ensures c.pending[frame.requestId].call !in c.outcomes
  {
    ViewFacts(c, cfg);
    hide Inv;
    ViewableBelow(c);
    PendingIsOpen(ViewOf(c), frame.requestId);
    hide Viewable, Correlated;
  }

  // ----- Runs -----

  function CameBy(c: Connection, cfg: Config, socket: W.Socket, decode: Decoder, events: seq<Event>): nat -> seq<seq<byte>>
    requires Inv(c, cfg)
  {
    (id: nat) => Came(c, cfg, socket, decode, events, id)
  }

  lemma CameNext(c: Connection, cfg: Config, socket: W.Socket, decode: Decoder, events: seq<Event>, id: nat)
    requires Inv(c, cfg) && events != []
    ensures var front, last := events[..|events| - 1], events[|events| - 1];
            CameBy(c, cfg, socket, decode, events)(id)
            == CameBy(c, cfg, socket, decode, front)(id) + NowFor(Run(c, cfg, socket, decode, front).connection, last, id)
  {
    hide Inv, Run, NowFor;
  }

  lemma {:induction false} EventDelivers(s: Client, cfg: Config, socket: W.Socket, decode: Decoder, e: Event, came: nat -> seq<seq<byte>>, next: nat -> seq<seq<byte>>)
    requires Inv(s.connection, cfg) && Delivers(s, came) && forall id :: next(id) == came(id) + NowFor(s.connection, e, id)
    ensures Delivers(After(s, cfg, socket, decode, e), next)
  {
    hide Inv, Delivers, Receive, Steady, WaitersParked, Viewable, KeptOpen, Apply, HeldFor;
    ViewFacts(s.connection, cfg);
    match e
    case Arrives(frame) => ReceiveDelivers(s, cfg, decode, frame, came, next);
    case Happens(step) =>
      assert forall id :: came(id) + [] == came(id);
      NothingCame(s, s.connection, came, next);
      if !step.FrameStep? { StepDelivers(s, cfg, socket, WithParts(s, step), next); }
  }

  lemma {:induction false} RunDelivers(c: Connection, cfg: Config, socket: W.Socket, decode: Decoder, events: seq<Event>)
    requires Fresh(c)
    ensures Inv(c, cfg) && Delivers(Run(c, cfg, socket, decode, events), CameBy(c, cfg, socket, decode, events))
    decreases |events|
  {
    hide Fresh, Inv, Delivers, After, Came, CameBy;
    FreshIsValid(c, cfg);
    if events == [] {
      NewDelivers(c, cfg, socket, decode);
    } else {
      var front, last := events[..|events| - 1], events[|events| - 1];
      RunDelivers(c, cfg, socket, decode, front);
      forall id
        ensures CameBy(c, cfg, socket, decode, events)(id)
             == CameBy(c, cfg, socket, decode, front)(id) + NowFor(Run(c, cfg, socket, decode, front).connection, last, id)
      {
        CameNext(c, cfg, socket, decode, events, id);
      }
      EventDelivers(Run(c, cfg, socket, decode, front), cfg, socket, decode, last, CameBy(c, cfg, socket, decode, front),
                    CameBy(c, cfg, socket, decode, events));
    }
  }

  lemma {:induction false} NewDelivers(c: Connection, cfg: Config, socket: W.Socket, decode: Decoder)
    requires Fresh(c) && Inv(c, cfg)
    ensures Delivers(Run(c, cfg, socket, decode, []), CameBy(c, cfg, socket, decode, []))
  {
    hide Inv;
    assert c.pending == map[];
  }

  lemma {:induction false} RunMatches(c: Connection, cfg: Config, socket: W.Socket, decode: Decoder, events: seq<Event>, call: nat)
    requires Fresh(c)
    ensures Inv(c, cfg) && MatchesFor(Run(c, cfg, socket, decode, events), decode, call)
    decreases |events|
  {
    hide Inv, MatchesFor, Receive, Apply;
    FreshIsValid(c, cfg);
    if events == [] {
      NewMatches(c, cfg, socket, decode, call);
    } else {
      var front, last := events[..|events| - 1], events[|events| - 1];
      RunMatches(c, cfg, socket, decode, front, call);
      EventMatches(Run(c, cfg, socket, decode, front), cfg, socket, decode, last, call);
      hide After, Fresh;
    }
  }

  lemma {:induction false} EventMatches(s: Client, cfg: Config, socket: W.Socket, decode: Decoder, e: Event, call: nat)
    requires Inv(s.connection, cfg) && MatchesFor(s, decode, call)
    ensures MatchesFor(After(s, cfg, socket, decode, e), decode, call)
  {
    hide Inv, MatchesFor, Receive, Apply, KeptOpen;
    match e
    case Arrives(frame) => ReceiveMatches(s, cfg, socket, decode, frame, call);
    case Happens(step) => if !step.FrameStep? { StepMatches(s, cfg, socket, decode, step, call); }
  }

  lemma {:induction false} NewMatches(c: Connection, cfg: Config, socket: W.Socket, decode: Decoder, call: nat)
    requires Fresh(c) && Inv(c, cfg)
    ensures MatchesFor(Run(c, cfg, socket, decode, []), decode, call)
  {
    hide Inv;
    assert c.outcomes == map[];
  }

  /** Over every run of a new connection, with responses in parts, interleaved, late or wrong, and requests
      timing out, draining and failing in between: a call is settled by the server exactly when it has
      an answer; the answer's body is everything that came for its own request while that was
      correlated, in order, and nothing else; and the call is resolved or rejected as that answer
      decodes. */
  lemma {:induction false} AnswersAreTheirOwn(c: Connection, cfg: Config, socket: W.Socket, decode: Decoder, events: seq<Event>, call: nat)
    requires Fresh(c)
    ensures Inv(c, cfg)
    ensures var s := Run(c, cfg, socket, decode, events);
            var outcomes, idOf := s.connection.outcomes, s.connection.idOf;
            && (call in s.answers <==> call in outcomes && (outcomes[call] == Resolved || outcomes[call] == ServerError))
            && (call in s.answers ==>
                  && call in idOf && s.answers[call].requestId == idOf[call]
                  && s.answers[call].body == A.Concat(Came(c, cfg, socket, decode, events, idOf[call]))
                  && outcomes[call] == if decode(s.answers[call]).ok then Resolved else ServerError)
  {
    hide Fresh, Inv, Run, Came;
    RunDelivers(c, cfg, socket, decode, events);
    RunMatches(c, cfg, socket, decode, events, call);
    hide PartsBelong, HoldsWhatCame, NothingAhead;
  }
}
