/** What callers see of a connection: how each step settles requests, and which requests it adds to
    and takes out of the correlation table, told as one table over the state before the step. */
module ConnectionOutcomes {
  import opened Wrappers
  import F = FlowControlModel
  import W = WriteQueueModel
  import opened NativeConnectionModel
  import opened ConnectionInvariant
  import opened ConnectionSteps
  import opened ConnectionRuns

  /** A connection without its credits and its write queue. */
  datatype View = View(pending: map<nat, Pending>, outcomes: map<nat, Outcome>, idOf: map<nat, nat>, parked: map<nat, Parked>,
                       calls: nat, nextId: nat, draining: bool)

  function ViewOf(c: Connection): View {
    View(c.pending, c.outcomes, c.idOf, c.parked, c.calls, c.nextId, c.draining)
  }

  function SettledWith(v: View, call: nat, o: Outcome): View {
    v.(outcomes := v.outcomes[call := o])
  }

  /** The call has a correlated request and has not been settled. */
  predicate Awaits(v: View, call: nat) {
    && call in v.idOf && v.idOf[call] in v.pending
    && v.pending[v.idOf[call]].call == call && !v.pending[v.idOf[call]].timedOut
  }

  /** The requests in `gone` leave the table; callers that are still waiting get the first outcome if
      their request is in `queued`, and the second one otherwise. */
  function Cleared(v: View, gone: set<nat>, queued: set<nat>, first: Outcome, second: Outcome): View {
    v.(pending := v.pending - gone,
       outcomes := v.outcomes + map call | call in v.idOf && Awaits(v, call) && v.idOf[call] in gone
                                         :: if v.idOf[call] in queued then first else second)
  }

  // ----- The table -----

  /** A frame is refused by the socket, or by the queue. */
  function Refusal(w: W.Writes, socket: W.Socket, size: nat, maxBytes: nat): Option<Outcome> {
    if !w.blocked && socket(w.calls).Threw? then Some(Unsent)
    else if w.blocked && W.BytesOf(w.queue) + size > maxBytes then Some(WriteQueueFull)
    else None
  }

  /** A request that may be sent is counted, encoded, entered and written. */
  function Dispatched(writes: W.Writes, controls: nat, cfg: Config, socket: W.Socket, v: View, call: nat, cmd: Command,
                      hasCredit: bool): View {
    if !hasCredit && controls >= cfg.maxControls then SettledWith(v, call, ControlsFull)
    else
      var u := v.(nextId := v.nextId + 1, idOf := v.idOf[call := v.nextId]);
      if cmd.frame.None? then SettledWith(u, call, NotEncoded)
      else
        var refusal := Refusal(writes, socket, |cmd.frame.value|, cfg.maxQueuedWriteBytes);
        if refusal.Some? then SettledWith(u, call, refusal.value)
        else u.(pending := u.pending[v.nextId := Pending(call, cmd.lane, cmd.opcode, hasCredit, cmd.indefinite, false, 0, 0)])
  }

  /** A credit is free for the lane: neither limit has been reached. */
  predicate CreditIsFree(flow: F.Flow, lane: int) {
    |flow.active| < flow.connectionLimit && flow.active[lane] < flow.laneWindowLimit && flow.active[lane] < flow.laneQueueLimit
  }

  function Requested(c: Connection, cfg: Config, socket: W.Socket, cmd: Command, privileged: bool): View {
    var call, v := c.calls, ViewOf(c).(calls := c.calls + 1);
    if c.closed || (c.draining && !privileged) then SettledWith(v, call, Unsent)
    else if cmd.opcode < 0x0100 && cmd.opcode != 0x000e then Dispatched(c.writes, c.controls, cfg, socket, v, call, cmd, false)
    else if CreditIsFree(c.flow, cmd.lane) then Dispatched(c.writes, c.controls, cfg, socket, v, call, cmd, true)
    else Waited(c.flow, v, call, cmd)
  }

  /** A request without a credit waits for one, if waiting is allowed and there is room. */
  function Waited(flow: F.Flow, v: View, call: nat, cmd: Command): View {
    if flow.laneQueueLimit == 0 then SettledWith(v, call, Refused(F.LaneQueueDisabled))
    else if |WaitingSet(flow)| >= flow.maxQueued then SettledWith(v, call, Refused(F.QueueFull))
    else v.(parked := v.parked[flow.issued := Parked(call, cmd.lane, cmd.opcode, cmd.indefinite)])
  }

  function Resumed(c: Connection, cfg: Config, socket: W.Socket, w: nat, expired: bool, frame: Option<W.Frame>): View {
    var v := ViewOf(c);
    if w !in c.parked || w !in c.flow.outcomes then v
    else
      var p, u := c.parked[w], v.(parked := v.parked - {w});
      if c.flow.outcomes[w] == F.TimedOut then SettledWith(u, p.call, UnsentTimeout)
      else if c.flow.outcomes[w] == F.Cancelled || c.closed || c.draining then SettledWith(u, p.call, Unsent)
      else if !p.indefinite && expired then SettledWith(u, p.call, UnsentTimeout)
      else Dispatched(c.writes, c.controls, cfg, socket, u, p.call, Command(p.lane, p.opcode, p.indefinite, frame), true)
  }

  /** The timer of a request: it is told whether its frame had left the queue. A sent request with a
      credit stays in the table as a late one, until the server answers it. */
  function Expired(c: Connection, id: nat, chunkBytes: nat, chunkFrames: nat): View {
    var v := ViewOf(c);
    if id !in v.pending || v.pending[id].timedOut || v.pending[id].indefinite then v
    else if id in Ids(c.writes.queue) then Cleared(v, {id}, {}, UnsentTimeout, UnsentTimeout)
    else if !v.pending[id].hasCredit then Cleared(v, {id}, {}, PossiblySentTimeout, PossiblySentTimeout)
    else
      var late := v.pending[id].(timedOut := true, discardedBytes := if chunkFrames > 0 then chunkBytes else 0,
                                 discardedFrames := chunkFrames);
      SettledWith(v, late.call, PossiblySentTimeout).(pending := v.pending[id := late])
  }

  /** The connection fails: requests whose frame is still queued have not been sent, all others may
      have been. */
  function AllFailed(c: Connection): View {
    var v := ViewOf(c);
    if c.closed then v else Cleared(v, v.pending.Keys, Ids(c.writes.queue), Unsent, PossiblySent)
  }

  /** Of a late response, too much or in too many frames. */
  predicate LateTooLarge(cfg: Config, p: Pending, r: Response) {
    var bytes, frames := p.discardedBytes + r.bytes, p.discardedFrames + 1;
    bytes > cfg.maxResponseBytes || ((r.more || frames > 1) && bytes > cfg.maxChunkBytes) || frames > cfg.maxChunkFrames
  }

  /** A response that comes too late is counted and dropped; its last frame clears the table. */
  function Late(c: Connection, cfg: Config, r: Response): View
    requires r.id in c.pending
  {
    var v, p := ViewOf(c), c.pending[r.id];
    if LateTooLarge(cfg, p, r) then AllFailed(c)
    else if r.more then
      v.(pending := v.pending[r.id := p.(discardedBytes := p.discardedBytes + r.bytes, discardedFrames := p.discardedFrames + 1)])
    else v.(pending := v.pending - {r.id})
  }

  /** A frame is for the request with its identifier, and must have its opcode and lane. */
  function Received(c: Connection, cfg: Config, r: Response): View {
    var v := ViewOf(c);
    if c.closed || r.id !in v.pending then v
    else
      var p := v.pending[r.id];
      if r.opcode != p.opcode || r.lane != p.lane then AllFailed(c)
      else if p.timedOut then Late(c, cfg, r)
      else if r.assembled.Partial? then v
      else if r.assembled.Overflow? || r.assembled.size > cfg.maxResponseBytes then AllFailed(c)
      else if r.assembled.ok then Cleared(v, {r.id}, {}, Resolved, Resolved)
      else Cleared(v, {r.id}, {}, ServerError, ServerError)
  }

  /** Draining: what has not been sent never will be, and nobody waits without a time limit. */
  function AfterGoAway(c: Connection): View {
    var v := ViewOf(c).(draining := true);
    var sent := Cleared(v, Ids(c.writes.queue), {}, Unsent, Unsent);
    Cleared(sent, Indefinite(sent.pending), {}, PossiblySent, PossiblySent)
  }

  function Indefinite(pending: map<nat, Pending>): set<nat> {
    set id | id in pending && pending[id].indefinite
  }

  function Tabled(c: Connection, cfg: Config, socket: W.Socket, step: Step): View {
    var v := ViewOf(c);
    match step
    case RequestStep(cmd, privileged) => Requested(c, cfg, socket, cmd, privileged)
    case ResumeStep(w, expired, frame) => Resumed(c, cfg, socket, w, expired, frame)
    case WaiterExpiresStep(_) => v
    case RequestExpiresStep(id, bytes, frames) => Expired(c, id, bytes, frames)
    case GraceExpiresStep(id) => if id in c.pending && c.pending[id].timedOut then AllFailed(c) else v
    case FrameStep(response) => Received(c, cfg, response)
    case LimitsStep(_, _) => v
    case LaneQueueStep(_) => v
    case WriteFailsStep(id) => if id in Ids(c.writes.handed) then Cleared(v, {id}, {}, PossiblySent, PossiblySent) else v
    case SocketDrainsStep =>
      Cleared(v, RejectedIds(W.Flush(c.writes, socket, c.closed, c.pending.Keys).1), {}, Unsent, Unsent)
    case GoAwayStep => if c.closed then v else AfterGoAway(c)
    case CloseStep => AllFailed(c)
  }

  // ----- Clearing step by step -----

  /** Every correlated request stands for its own call. */
  ghost predicate Correlated(v: View) {
    PendingOk(v.pending, v.idOf, v.outcomes, {})
  }

  lemma {:induction false} OneCleared(v: View, id: nat, o: Outcome)
    requires Correlated(v)
    ensures Cleared(v, {id}, {}, o, o)
         == if id !in v.pending then v
            else
              var w := v.(pending := v.pending - {id});
              if v.pending[id].call in v.outcomes then w else SettledWith(w, v.pending[id].call, o)
  {
    if id !in v.pending {
      NothingCleared(v, {id}, {}, o, o);
    } else {
      OneClearedOutcomes(v, id, o);
    }
    hide Correlated, Awaits;
  }

  lemma {:induction false} OneClearedOutcomes(v: View, id: nat, o: Outcome)
    requires Correlated(v) && id in v.pending
    ensures var call := v.pending[id].call;
            Cleared(v, {id}, {}, o, o).outcomes == (if call in v.outcomes then v.outcomes else v.outcomes[call := o])
  {
    var call := v.pending[id].call;
    assert forall x | x in v.idOf && Awaits(v, x) && v.idOf[x] in {id} :: x == call;
    assert Awaits(v, call) <==> call !in v.outcomes;
    assert call in v.idOf && v.idOf[call] == id;
    hide Correlated, Awaits;
  }

  lemma {:induction false} ClearedStays(v: View, gone: set<nat>, queued: set<nat>, first: Outcome, second: Outcome)
    requires Correlated(v)
    ensures Correlated(Cleared(v, gone, queued, first, second))
  {
    var w := Cleared(v, gone, queued, first, second);
    forall id | id in w.pending
      ensures w.pending[id].call in w.outcomes <==> w.pending[id].timedOut
    {
      assert v.idOf[v.pending[id].call] == id;
    }
  }

  /** Clearing in two parts is clearing both at once. */
  lemma {:induction false} ClearedTwice(v: View, a: set<nat>, b: set<nat>, queued: set<nat>, first: Outcome, second: Outcome)
    ensures Cleared(Cleared(v, a, queued, first, second), b, queued, first, second) == Cleared(v, a + b, queued, first, second)
  {
    var u, w := Cleared(v, a, queued, first, second), Cleared(v, a + b, queued, first, second);
    var x := Cleared(u, b, queued, first, second);
    assert x.pending == w.pending;
    forall call
      ensures OutcomeIn(x, call) == OutcomeIn(w, call)
    {
      ClearedAt(v, a, queued, first, second, call);
      ClearedAt(u, b, queued, first, second, call);
      ClearedAt(v, a + b, queued, first, second, call);
      hide Awaits, OutcomeIn, Cleared;
    }
    SameOutcomes(x, w);
    hide Awaits;
  }

  function OutcomeIn(v: View, call: nat): Option<Outcome> {
    if call in v.outcomes then Some(v.outcomes[call]) else None
  }

  lemma {:induction false} SameOutcomes(v: View, w: View)
    requires forall call: nat :: OutcomeIn(v, call) == OutcomeIn(w, call)
    ensures v.outcomes == w.outcomes
  {
    forall call: nat
      ensures call in v.outcomes <==> call in w.outcomes
      ensures call in v.outcomes ==> v.outcomes[call] == w.outcomes[call]
    {
      assert OutcomeIn(v, call) == OutcomeIn(w, call);
    }
  }

  lemma ClearedAt(v: View, gone: set<nat>, queued: set<nat>, first: Outcome, second: Outcome, call: nat)
    ensures var w := Cleared(v, gone, queued, first, second);
            && w.idOf == v.idOf
            && OutcomeIn(w, call)
               == (if Awaits(v, call) && v.idOf[call] in gone then Some(if v.idOf[call] in queued then first else second)
                   else OutcomeIn(v, call))
            && (Awaits(w, call) <==> Awaits(v, call) && v.idOf[call] !in gone)
  {
  }

  lemma {:induction false} NothingCleared(v: View, gone: set<nat>, queued: set<nat>, first: Outcome, second: Outcome)
    requires gone !! v.pending.Keys
    ensures Cleared(v, gone, queued, first, second) == v
  {
    assert v.pending - gone == v.pending;
    assert forall call | Awaits(v, call) :: v.idOf[call] !in gone;
  }

  // ----- The functions of the connection, in terms of the table -----

  lemma {:induction false} TakeView(c: Connection, id: nat, o: Outcome)
    requires Steady(c) && Correlated(ViewOf(c))
    ensures ViewOf(Take(c, id, o)) == Cleared(ViewOf(c), {id}, {}, o, o)
    ensures Take(c, id, o).writes == if id in c.pending then W.Cancel(c.writes, id) else c.writes
  {
    OneCleared(ViewOf(c), id, o);
    hide Cleared, PendingOk, Steady;
    if id in c.pending { TakePendingView(c, id); }
  }

  lemma TakePendingView(c: Connection, id: nat)
    requires Steady(c) && id in c.pending
    ensures ViewOf(TakePending(c, id)) == ViewOf(c).(pending := c.pending - {id})
    ensures TakePending(c, id).writes == W.Cancel(c.writes, id)
  {
    hide F.Valid, F.AtRest, F.Release, F.Close, W.Cancel;
  }

  ghost predicate AllFor(rejections: seq<W.Rejection>, reason: W.Reason) {
    forall i | 0 <= i < |rejections| :: rejections[i].reason == reason
  }

  lemma {:induction false} TakeEachView(c: Connection, rejections: seq<W.Rejection>, reason: W.Reason)
    requires Steady(c) && Correlated(ViewOf(c)) && AllFor(rejections, reason)
    ensures ViewOf(TakeEach(c, rejections)) == Cleared(ViewOf(c), RejectedIds(rejections), {}, OutcomeOf(reason), OutcomeOf(reason))
    ensures c.writes.queue == [] ==> TakeEach(c, rejections).writes.queue == []
    decreases |rejections|
  {
    var v, o := ViewOf(c), OutcomeOf(reason);
    if rejections == [] {
      NothingCleared(v, {}, {}, o, o);
      assert RejectedIds(rejections) == {};
    } else {
      var id := rejections[0].requestId;
      TakeView(c, id, o);
      ClearedStays(v, {id}, {}, o, o);
      FirstRejected(rejections);
      ClearedTwice(v, {id}, RejectedIds(rejections[1..]), {}, o, o);
      hide Take, Cleared, PendingOk, ViewOf, RejectedIds, Steady;
      TakeEachView(Take(c, id, o), rejections[1..], reason);
    }
  }

  lemma {:induction false} FirstRejected(rejections: seq<W.Rejection>)
    requires rejections != []
    ensures RejectedIds(rejections) == {rejections[0].requestId} + RejectedIds(rejections[1..])
  {
    forall id
      ensures id in RejectedIds(rejections) <==> id == rejections[0].requestId || id in RejectedIds(rejections[1..])
    {
      if id in RejectedIds(rejections) && id != rejections[0].requestId {
        var i :| 0 <= i < |rejections| && rejections[i].requestId == id;
        assert rejections[1..][i - 1].requestId == id;
      }
      if id in RejectedIds(rejections[1..]) {
        var i :| 0 <= i < |rejections| - 1 && rejections[1..][i].requestId == id;
        assert rejections[i + 1].requestId == id;
      }
    }
  }

  function From(pending: map<nat, Pending>, id: nat): set<nat> {
    set i | i in pending && i >= id
  }

  lemma {:induction false} RejectFromView(c: Connection, id: nat)
    requires Steady(c) && Correlated(ViewOf(c)) && Below(c.pending, c.nextId)
    ensures ViewOf(RejectFrom(c, id)) == Cleared(ViewOf(c), From(c.pending, id), Ids(c.writes.queue), Unsent, PossiblySent)
    decreases c.nextId - id
  {
    hide Steady, Correlated, Cleared, From, Ids, Below, RejectFrom, Rejected;
    if id >= c.nextId || id !in c.pending {
      RejectFromSkips(c, id);
      if id < c.nextId { RejectFromView(c, id + 1); }
    } else {
      RejectFromStep(c, id);
      FromOn(ViewOf(c), id, Ids(c.writes.queue), Unsent, PossiblySent);
      BelowWithout(c.pending, id, c.nextId);
      RejectedView(c, id);
      RejectFromView(Rejected(c, id), id + 1);
    }
  }

  ghost predicate Below(pending: map<nat, Pending>, n: nat) {
    forall i | i in pending :: i < n
  }

  lemma BelowWithout(pending: map<nat, Pending>, id: nat, n: nat)
    requires Below(pending, n)
    ensures Below(pending - {id}, n)
  {
  }

  lemma {:induction false} RejectFromSkips(c: Connection, id: nat)
    requires Steady(c) && Below(c.pending, c.nextId) && (id >= c.nextId || id !in c.pending)
    ensures id < c.nextId ==> RejectFrom(c, id) == RejectFrom(c, id + 1) && From(c.pending, id) == From(c.pending, id + 1)
    ensures id >= c.nextId ==>
      ViewOf(RejectFrom(c, id)) == Cleared(ViewOf(c), From(c.pending, id), Ids(c.writes.queue), Unsent, PossiblySent)
  {
    if id >= c.nextId {
      NothingCleared(ViewOf(c), From(c.pending, id), Ids(c.writes.queue), Unsent, PossiblySent);
    }
    hide Cleared, Steady, Ids, Awaits;
  }

  /** Clearing the requests from `id` on is clearing this one and then those after it. */
  lemma {:induction false} FromOn(v: View, id: nat, queued: set<nat>, first: Outcome, second: Outcome)
    requires Correlated(v) && id in v.pending
    ensures var u := Cleared(v, {id}, queued, first, second);
            && Correlated(u) && u.pending == v.pending - {id}
            && Cleared(u, From(u.pending, id + 1), queued, first, second) == Cleared(v, From(v.pending, id), queued, first, second)
  {
    hide Awaits, PendingOk, OutcomeIn;
    ClearedStays(v, {id}, queued, first, second);
    ClearedTwice(v, {id}, From(v.pending - {id}, id + 1), queued, first, second);
    assert From(v.pending, id) == {id} + From(v.pending - {id}, id + 1);
  }

  lemma RejectFromStep(c: Connection, id: nat)
    requires Steady(c) && id in c.pending && id < c.nextId
    ensures RejectFrom(c, id) == RejectFrom(Rejected(c, id), id + 1)
  {
    hide F.Valid, F.AtRest, F.Release, FailureOutcome;
  }

  lemma {:induction false} RejectedView(c: Connection, id: nat)
    requires Steady(c) && Correlated(ViewOf(c)) && id in c.pending
    ensures ViewOf(Rejected(c, id)) == Cleared(ViewOf(c), {id}, Ids(c.writes.queue), Unsent, PossiblySent)
    ensures Rejected(c, id).writes == c.writes
  {
    OneFailed(ViewOf(c), id, Ids(c.writes.queue));
    HoldsIsMembership(c.writes.queue, id);
    hide Correlated, Cleared, W.Holds, Ids, F.Valid, F.AtRest, F.Release;
  }

  lemma {:induction false} OneFailed(v: View, id: nat, queued: set<nat>)
    requires Correlated(v) && id in v.pending
    ensures var w, o := v.(pending := v.pending - {id}), if id in queued then Unsent else PossiblySent;
            Cleared(v, {id}, queued, Unsent, PossiblySent)
            == (if v.pending[id].call in v.outcomes then w else SettledWith(w, v.pending[id].call, o))
  {
    var o := if id in queued then Unsent else PossiblySent;
    OneCleared(v, id, o);
    var x, y := Cleared(v, {id}, queued, Unsent, PossiblySent), Cleared(v, {id}, {}, o, o);
    assert x == y;
    hide Correlated, SettledWith;
  }

  lemma {:induction false} FailAllView(c: Connection)
    requires Steady(c) && Correlated(ViewOf(c)) && Below(c.pending, c.nextId)
    ensures ViewOf(FailAll(c)) == AllFailed(c)
  {
    F.CancelSettlesAll(c.flow);
    if !c.closed {
      var d := c.(closed := true, flow := F.Close(c.flow));
      RejectFromView(d, 0);
      assert From(c.pending, 0) == c.pending.Keys;
      hide RejectFrom, Correlated, Steady, From, F.Close, Below, Ids, Awaits;
    }
  }

  function IndefiniteBelow(pending: map<nat, Pending>, n: nat): set<nat> {
    set id | id in pending && id < n && pending[id].indefinite
  }

  lemma {:induction false} IndefiniteGrows(v: View, n: nat)
    ensures var u := Cleared(v, IndefiniteBelow(v.pending, n), {}, PossiblySent, PossiblySent);
            Cleared(v, IndefiniteBelow(v.pending, n + 1), {}, PossiblySent, PossiblySent)
            == (if n in u.pending && u.pending[n].indefinite then Cleared(u, {n}, {}, PossiblySent, PossiblySent) else u)
  {
    var before := IndefiniteBelow(v.pending, n);
    ClearedTwice(v, before, {n}, {}, PossiblySent, PossiblySent);
    assert n !in before;
    if n in v.pending && v.pending[n].indefinite {
      assert IndefiniteBelow(v.pending, n + 1) == before + {n};
    } else {
      assert IndefiniteBelow(v.pending, n + 1) == before;
    }
    hide Awaits;
  }

  ghost predicate OnlySent(c: Connection) {
    Steady(c) && Correlated(ViewOf(c)) && c.writes.queue == []
  }

  lemma {:induction false} TakeIndefiniteOne(c: Connection, id: nat)
    requires OnlySent(c)
    ensures OnlySent(Take(c, id, FailureOutcome(c, id)))
    ensures ViewOf(Take(c, id, FailureOutcome(c, id))) == Cleared(ViewOf(c), {id}, {}, PossiblySent, PossiblySent)
  {
    hide Take, Cleared, Correlated, Steady;
    TakeView(c, id, PossiblySent);
    ClearedStays(ViewOf(c), {id}, {}, PossiblySent, PossiblySent);
  }

  lemma {:induction false} NoneBelow(v: View)
    ensures Cleared(v, IndefiniteBelow(v.pending, 0), {}, PossiblySent, PossiblySent) == v
  {
    NothingCleared(v, IndefiniteBelow(v.pending, 0), {}, PossiblySent, PossiblySent);
    hide Cleared;
  }

  lemma {:induction false} TakeIndefiniteView(c: Connection, n: nat)
    requires OnlySent(c)
    ensures OnlySent(TakeIndefinite(c, n))
    ensures ViewOf(TakeIndefinite(c, n)) == Cleared(ViewOf(c), IndefiniteBelow(c.pending, n), {}, PossiblySent, PossiblySent)
  {
    hide Steady, Correlated, Cleared, Take, FailureOutcome, IndefiniteBelow, Awaits;
    if n == 0 {
      NoneBelow(ViewOf(c));
    } else {
      TakeIndefiniteView(c, n - 1);
      IndefiniteGrows(ViewOf(c), n - 1);
      TakeIndefiniteOne(TakeIndefinite(c, n - 1), n - 1);
    }
  }

  // ----- The steps, in terms of the table -----

  /** What the table needs to know of a connection. */
  ghost predicate Viewable(c: Connection) {
    && Steady(c) && Correlated(ViewOf(c)) && Below(c.pending, c.nextId)
    && (c.closed <==> c.flow.closed) && (c.closed ==> c.pending == map[])
    && c.calls !in c.outcomes && c.calls !in c.idOf
    && forall w | w in c.parked :: c.parked[w].call !in c.outcomes && c.parked[w].call !in c.idOf
  }

  lemma {:induction false} ViewFacts(c: Connection, cfg: Config)
    requires Inv(c, cfg)
    ensures Viewable(c) && Steady(c) && WaitersParked(c.flow, c.parked)
  {
    NewCall(c, cfg);
    hide Steady, WaitersParked, CreditsOk, QueueOk, LabelsOk, OwnersOk, IdsOk;
  }

  /** The view in which a call has its request in the table. */
  function EnteredIn(v: View, call: nat, p: Pending): View {
    v.(nextId := v.nextId + 1, idOf := v.idOf[call := v.nextId], pending := v.pending[v.nextId := p])
  }

  lemma {:induction false} EnteredStays(v: View, call: nat, p: Pending)
    requires Correlated(v) && call !in v.idOf && call !in v.outcomes && p.call == call && !p.timedOut
    requires Below(v.pending, v.nextId)
    ensures Correlated(EnteredIn(v, call, p))
  {
  }

  lemma {:induction false} EnteredAndCleared(v: View, call: nat, p: Pending, o: Outcome)
    requires Correlated(v) && call !in v.idOf && call !in v.outcomes && p.call == call && !p.timedOut
    requires Below(v.pending, v.nextId)
    ensures Cleared(EnteredIn(v, call, p), {v.nextId}, {}, o, o)
         == SettledWith(v.(nextId := v.nextId + 1, idOf := v.idOf[call := v.nextId]), call, o)
  {
    var w := EnteredIn(v, call, p);
    EnteredStays(v, call, p);
    OneCleared(w, v.nextId, o);
    assert w.pending - {v.nextId} == v.pending;
    hide Correlated, Cleared;
  }

  lemma TakeOnly(c: Connection, rejection: W.Rejection)
    requires Steady(c)
    ensures TakeEach(c, [rejection]) == Take(c, rejection.requestId, OutcomeOf(rejection.reason))
    ensures TakeEach(c, []) == c
  {
    hide Take, Steady;
  }

  lemma {:induction false} SubmitView(c: Connection, cfg: Config, socket: W.Socket, job: W.Job)
    requires Steady(c) && Correlated(ViewOf(c))
    ensures var refusal := Refusal(c.writes, socket, |job.frame|, cfg.maxQueuedWriteBytes);
            ViewOf(Submit(c, cfg, socket, job))
            == (if refusal.Some? then Cleared(ViewOf(c), {job.requestId}, {}, refusal.value, refusal.value) else ViewOf(c))
  {
    var (writes, rejected) := W.Write(c.writes, socket, job, cfg.maxQueuedWriteBytes);
    var d := c.(writes := writes);
    WriteRefusal(c.writes, socket, job, cfg.maxQueuedWriteBytes);
    hide Take, F.Valid, F.AtRest, PendingOk, Cleared, TakeEach, Refusal, W.Write, OutcomeOf;
    if rejected == [] {
      TakeOnly(d, W.Rejection(job.requestId, W.Unsent));
    } else {
      TakeOnly(d, rejected[0]);
      TakeView(d, job.requestId, OutcomeOf(rejected[0].reason));
    }
  }

  lemma WriteRefusal(w: W.Writes, socket: W.Socket, job: W.Job, maxBytes: nat)
    ensures var rejected, refusal := W.Write(w, socket, job, maxBytes).1, Refusal(w, socket, |job.frame|, maxBytes);
            if refusal.None? then rejected == []
            else exists reason :: rejected == [W.Rejection(job.requestId, reason)] && OutcomeOf(reason) == refusal.value
  {
    hide W.BytesOf;
    var rejected := W.Write(w, socket, job, maxBytes).1;
    if rejected != [] {
      assert rejected == [W.Rejection(job.requestId, rejected[0].reason)];
    }
  }

  lemma UnencodedView(c: Connection, lane: int, hasCredit: bool)
    requires Steady(c)
    ensures ViewOf(Unencoded(c, lane, hasCredit)) == ViewOf(c)
  {
    hide F.Valid, F.AtRest, F.Release;
  }

  lemma {:induction false} SendNewView(c: Connection, cfg: Config, socket: W.Socket, call: nat, cmd: Command, hasCredit: bool)
    requires Steady(c) && Correlated(ViewOf(c)) && Below(c.pending, c.nextId) && call !in c.idOf && call !in c.outcomes
    ensures hasCredit || c.controls < cfg.maxControls ==>
      ViewOf(SendNew(c, cfg, socket, call, cmd, hasCredit)) == Dispatched(c.writes, c.controls, cfg, socket, ViewOf(c), call, cmd, hasCredit)
  {
    hide Submit, Unencoded, F.Valid, F.AtRest, Correlated, Cleared, Below, Registered, Refusal;
    if cmd.frame.Some? {
      EnterView(c, cfg, socket, call, cmd, hasCredit);
    } else {
      UnencodedView(c.(nextId := c.nextId + 1, idOf := c.idOf[call := c.nextId]), cmd.lane, hasCredit);
    }
  }

  /** A new request is entered in the table before its frame is written. */
  lemma RegisteredView(c: Connection, cfg: Config, socket: W.Socket, call: nat, cmd: Command, hasCredit: bool)
    requires Steady(c) && cmd.frame.Some?
    ensures var p := Pending(call, cmd.lane, cmd.opcode, hasCredit, cmd.indefinite, false, 0, 0);
            var d := Registered(c.(nextId := c.nextId + 1, idOf := c.idOf[call := c.nextId]), c.nextId, p);
            && Steady(d) && ViewOf(d) == EnteredIn(ViewOf(c), call, p) && d.writes == c.writes
            && SendNew(c, cfg, socket, call, cmd, hasCredit) == Submit(d, cfg, socket, W.Job(c.nextId, cmd.frame.value))
  {
    hide Submit, F.Valid, F.AtRest;
  }

  lemma {:induction false} EnterView(c: Connection, cfg: Config, socket: W.Socket, call: nat, cmd: Command, hasCredit: bool)
    requires Steady(c) && Correlated(ViewOf(c)) && Below(c.pending, c.nextId) && call !in c.idOf && call !in c.outcomes
    requires cmd.frame.Some?
    ensures var v, p := ViewOf(c), Pending(call, cmd.lane, cmd.opcode, hasCredit, cmd.indefinite, false, 0, 0);
            var u := v.(nextId := v.nextId + 1, idOf := v.idOf[call := v.nextId]);
            var refusal := Refusal(c.writes, socket, |cmd.frame.value|, cfg.maxQueuedWriteBytes);
            ViewOf(SendNew(c, cfg, socket, call, cmd, hasCredit))
            == (if refusal.Some? then SettledWith(u, call, refusal.value) else EnteredIn(v, call, p))
  {
    hide Submit, Steady, Correlated, Cleared, Below, Refusal, SettledWith, Registered, SendNew, EnteredIn;
    var p := Pending(call, cmd.lane, cmd.opcode, hasCredit, cmd.indefinite, false, 0, 0);
    var d := Registered(c.(nextId := c.nextId + 1, idOf := c.idOf[call := c.nextId]), c.nextId, p);
    var refusal := Refusal(c.writes, socket, |cmd.frame.value|, cfg.maxQueuedWriteBytes);
    RegisteredView(c, cfg, socket, call, cmd, hasCredit);
    EnteredStays(ViewOf(c), call, p);
    if refusal.Some? { EnteredAndCleared(ViewOf(c), call, p, refusal.value); }
    SubmitView(d, cfg, socket, W.Job(c.nextId, cmd.frame.value));
  }

  lemma {:induction false} DispatchView(c: Connection, cfg: Config, socket: W.Socket, call: nat, cmd: Command, hasCredit: bool)
    requires Steady(c) && Correlated(ViewOf(c)) && Below(c.pending, c.nextId) && call !in c.idOf && call !in c.outcomes
    ensures ViewOf(SendAcquired(c, cfg, socket, call, cmd, hasCredit)) == Dispatched(c.writes, c.controls, cfg, socket, ViewOf(c), call, cmd, hasCredit)
  {
    SendNewView(c, cfg, socket, call, cmd, hasCredit);
    hide SendNew, Steady, Correlated, Below, W.BytesOf;
  }

  lemma FreeCredit(flow: F.Flow, lane: int)
    requires !flow.closed
    ensures F.TryAcquire(flow, lane).1 <==> CreditIsFree(flow, lane)
  {
  }

  lemma WaitView(c: Connection, call: nat, cmd: Command)
    requires Steady(c) && !F.TryAcquire(c.flow, cmd.lane).1 && !c.flow.closed && call !in c.outcomes
    ensures ViewOf(WaitForCredit(c, call, cmd)) == Waited(c.flow, ViewOf(c), call, cmd)
  {
    hide F.Valid, F.AtRest, WaitingSet, F.TryAcquire, F.Enqueue;
  }

  lemma {:induction false} RequestView(c: Connection, cfg: Config, socket: W.Socket, cmd: Command, privileged: bool)
    requires Viewable(c)
    ensures ViewOf(Request(c, cfg, socket, cmd, privileged)) == Requested(c, cfg, socket, cmd, privileged)
  {
    hide F.Valid, F.AtRest, PendingOk, Below, SendAcquired, WaitForCredit, F.TryAcquire, CreditIsFree, WaitingSet, Dispatched, Waited;
    F.AcquireKeepsValid(c.flow, cmd.lane);
    var d := c.(calls := c.calls + 1);
    if c.closed || (c.draining && !privileged) {
    } else if IsControl(cmd.opcode) {
      DispatchView(d, cfg, socket, c.calls, cmd, false);
    } else {
      FreeCredit(c.flow, cmd.lane);
      if F.TryAcquire(d.flow, cmd.lane).1 {
        DispatchView(d.(flow := F.TryAcquire(d.flow, cmd.lane).0), cfg, socket, c.calls, cmd, true);
      } else {
        WaitView(d, c.calls, cmd);
      }
    }
  }

  lemma {:induction false} ResumeView(c: Connection, cfg: Config, socket: W.Socket, w: nat, expired: bool, frame: Option<W.Frame>)
    requires Viewable(c)
    ensures ViewOf(Resume(c, cfg, socket, w, expired, frame)) == Resumed(c, cfg, socket, w, expired, frame)
  {
    hide F.Valid, F.AtRest, PendingOk, Below, SendAcquired, F.Release, Dispatched;
    if w in c.parked && w in c.flow.outcomes {
      var p := c.parked[w];
      F.ReleaseKeepsValid(c.flow, p.lane);
      DispatchView(c.(parked := c.parked - {w}), cfg, socket, p.call, Command(p.lane, p.opcode, p.indefinite, frame), true);
    }
  }

  lemma PendingIsOpen(v: View, id: nat)
    requires Correlated(v) && id in v.pending
    ensures v.pending[id].call in v.outcomes <==> v.pending[id].timedOut
  {
  }

  lemma {:induction false} RequestExpiresView(c: Connection, id: nat, chunkBytes: nat, chunkFrames: nat)
    requires Viewable(c)
    ensures ViewOf(RequestExpires(c, id, chunkBytes, chunkFrames)) == Expired(c, id, chunkBytes, chunkFrames)
  {
    hide Steady, Correlated, Below, Take, Ids, W.Holds, Cleared;
    HoldsIsMembership(c.writes.queue, id);
    TakeView(c, id, UnsentTimeout);
    TakeView(c, id, PossiblySentTimeout);
    if id in c.pending { PendingIsOpen(ViewOf(c), id); }
  }

  lemma LimitsView(c: Connection, connection: Option<nat>, lane: Option<nat>, laneQueue: nat)
    requires Steady(c)
    ensures ViewOf(ApplyLimits(c, connection, lane)) == ViewOf(c) && ViewOf(ApplyLaneQueueLimit(c, laneQueue)) == ViewOf(c)
  {
    hide F.Valid, F.AtRest, F.UpdateLimits, F.UpdateLaneQueueLimit;
  }

  lemma {:induction false} CompleteView(c: Connection, r: Response)
    requires Steady(c) && Correlated(ViewOf(c)) && r.assembled.Complete?
    ensures var d, o := ApplyLimits(c, r.assembled.connectionLimit, r.assembled.laneLimit), if r.assembled.ok then Resolved else ServerError;
            && ViewOf(Take(d, r.id, o)) == Cleared(ViewOf(c), {r.id}, {}, o, o)
            && ViewOf(Take(c, r.id, o)) == Cleared(ViewOf(c), {r.id}, {}, o, o)
  {
    hide Steady, Correlated, Take, ApplyLimits, Cleared;
    var o := if r.assembled.ok then Resolved else ServerError;
    LimitsView(c, r.assembled.connectionLimit, r.assembled.laneLimit, 0);
    TakeView(c, r.id, o);
    TakeView(ApplyLimits(c, r.assembled.connectionLimit, r.assembled.laneLimit), r.id, o);
  }

  lemma {:induction false} HandleFrameView(c: Connection, cfg: Config, r: Response)
    requires Viewable(c)
    ensures ViewOf(HandleFrame(c, cfg, r)) == Received(c, cfg, r)
  {
    hide Correlated, Below, Take, FailAll, DiscardLate, ApplyLimits, Cleared, AllFailed, Steady, Late;
    FailAllView(c);
    if r.id in c.pending && !c.closed {
      if c.pending[r.id].timedOut { LateView(c, cfg, r); }
      if r.assembled.Complete? { CompleteView(c, r); }
    }
  }

  lemma {:induction false} FailsAlike(v: View, id: nat, p: Pending, queued: set<nat>)
    requires id in v.pending && v.pending[id].timedOut && p.call == v.pending[id].call && p.timedOut
    ensures var w := v.(pending := v.pending[id := p]);
            Cleared(w, w.pending.Keys, queued, Unsent, PossiblySent) == Cleared(v, v.pending.Keys, queued, Unsent, PossiblySent)
  {
    var w := v.(pending := v.pending[id := p]);
    var gone := v.pending.Keys;
    var x, y := Cleared(w, gone, queued, Unsent, PossiblySent), Cleared(v, gone, queued, Unsent, PossiblySent);
    assert w.pending.Keys == gone;
    assert w.pending - gone == map[] && v.pending - gone == map[];
    forall call
      ensures OutcomeIn(x, call) == OutcomeIn(y, call)
    {
      assert Awaits(w, call) <==> Awaits(v, call);
      ClearedAt(v, gone, queued, Unsent, PossiblySent, call);
      ClearedAt(w, gone, queued, Unsent, PossiblySent, call);
      hide Awaits, Cleared;
    }
    SameOutcomes(x, y);
    hide Awaits, OutcomeIn;
  }

  lemma {:induction false} CountedStays(v: View, id: nat, p: Pending)
    requires Correlated(v) && id in v.pending && v.pending[id].timedOut && p.call == v.pending[id].call && p.timedOut
    ensures Correlated(v.(pending := v.pending[id := p]))
  {
  }

  lemma {:induction false} LateView(c: Connection, cfg: Config, r: Response)
    requires Viewable(c) && !c.closed && r.id in c.pending && c.pending[r.id].timedOut
    ensures ViewOf(DiscardLate(c, cfg, r)) == Late(c, cfg, r)
  {
    hide Correlated, Below, Steady, TakePending, FailAll, Cleared, Ids, AllFailed;
    var p := c.pending[r.id];
    var d := c.(pending := c.pending[r.id := p.(discardedBytes := p.discardedBytes + r.bytes, discardedFrames := p.discardedFrames + 1)]);
    CountedFacts(c, d, r.id);
    FailAllView(d);
    TakePendingView(d, r.id);
  }

  lemma {:induction false} CountedFacts(c: Connection, d: Connection, id: nat)
    requires Viewable(c) && id in c.pending && c.pending[id].timedOut
    requires id in d.pending && d == c.(pending := c.pending[id := d.pending[id]])
    requires d.pending[id].call == c.pending[id].call && d.pending[id].timedOut
    ensures Steady(d) && Correlated(ViewOf(d)) && Below(d.pending, d.nextId) && AllFailed(d) == AllFailed(c)
    ensures d.pending - {id} == c.pending - {id}
  {
    CountedStays(ViewOf(c), id, d.pending[id]);
    FailsAlike(ViewOf(c), id, d.pending[id], Ids(c.writes.queue));
    hide Correlated, F.Valid, F.AtRest, Cleared, Ids;
  }

  lemma {:induction false} SocketDrainsView(c: Connection, socket: W.Socket)
    requires Viewable(c)
    ensures var rejected := RejectedIds(W.Flush(c.writes, socket, c.closed, c.pending.Keys).1);
            ViewOf(SocketDrains(c, socket)) == Cleared(ViewOf(c), rejected, {}, Unsent, Unsent)
  {
    hide Correlated, Below, F.Valid, F.AtRest, W.Flush, Cleared, TakeEach, RejectedIds, AllFor;
    FlushRejects(c.writes, socket, c.closed, c.pending.Keys);
    var (writes, rejected) := W.Flush(c.writes, socket, c.closed, c.pending.Keys);
    TakeEachView(c.(writes := writes), rejected, W.Unsent);
  }

  lemma {:induction false} FlushRejects(w: W.Writes, socket: W.Socket, closed: bool, pending: set<nat>)
    ensures AllFor(W.Flush(w, socket, closed, pending).1, W.Unsent)
  {
    if !closed { FlushFromRejects(w.(blocked := false), socket, pending); }
  }

  lemma {:induction false} FlushFromRejects(w: W.Writes, socket: W.Socket, pending: set<nat>)
    ensures AllFor(W.FlushFrom(w, socket, pending).1, W.Unsent)
    decreases |w.queue|
  {
    if !w.blocked && w.queue != [] {
      var job, rest := w.queue[0], w.(queue := w.queue[1..]);
      FlushFromRejects(if job.requestId in pending then W.Send(rest, socket, job).0 else rest, socket, pending);
    }
  }

  lemma {:induction false} DrainedView(c: Connection)
    requires Viewable(c)
    ensures ViewOf(BeginDraining(c)) == AfterGoAway(c)
  {
    F.CancelSettlesAll(c.flow);
    hide PendingOk, Below, F.Valid, F.AtRest, Cleared, RejectedIds, AllFor, F.CancelQueued, TakeIndefinite, TakeEach, FinishDrainIfIdle;
    hide OnlySent, Ids, W.UnsentRejections, IndefiniteBelow, Indefinite;
    var (writes, rejected) := W.RejectQueued(c.writes);
    var d := c.(draining := true, flow := F.CancelQueued(c.flow), writes := writes);
    QueueRejected(c.writes.queue);
    TakeEachView(d, rejected, W.Unsent);
    var e := TakeEach(d, rejected);
    AfterQueue(c, d, e);
    TakeIndefiniteView(e, e.nextId);
    FinishView(TakeIndefinite(e, e.nextId));
  }

  /** When the queue has been rejected, all requests that are left have been sent. */
  lemma {:induction false} AfterQueue(c: Connection, d: Connection, e: Connection)
    requires Viewable(c) && Steady(e) && e.writes.queue == [] && ViewOf(d) == ViewOf(c).(draining := true)
    requires ViewOf(e) == Cleared(ViewOf(d), Ids(c.writes.queue), {}, Unsent, Unsent)
    ensures OnlySent(e) && IndefiniteBelow(e.pending, e.nextId) == Indefinite(e.pending)
  {
    ClearedStays(ViewOf(d), Ids(c.writes.queue), {}, Unsent, Unsent);
    assert e.pending == c.pending - Ids(c.writes.queue) && e.nextId == c.nextId;
    hide Steady, Correlated, Awaits, Ids;
  }

  lemma FinishView(c: Connection)
    requires Steady(c)
    ensures ViewOf(FinishDrainIfIdle(c)) == ViewOf(c)
  {
    hide F.Valid, F.AtRest, F.Close;
  }

  lemma {:induction false} QueueRejected(queue: seq<W.Job>)
    ensures AllFor(W.UnsentRejections(queue), W.Unsent) && RejectedIds(W.UnsentRejections(queue)) == Ids(queue)
  {
  }

  lemma {:induction false} WriteFailsView(c: Connection, id: nat)
    requires Viewable(c)
    ensures ViewOf(WriteFails(c, id))
         == if id in Ids(c.writes.handed) then Cleared(ViewOf(c), {id}, {}, PossiblySent, PossiblySent) else ViewOf(c)
  {
    hide Correlated, Below, Steady, Take, Ids, W.Holds, Cleared;
    HoldsIsMembership(c.writes.handed, id);
    TakeView(c, id, PossiblySent);
  }

  lemma {:induction false} GraceExpiresView(c: Connection, id: nat)
    requires Viewable(c)
    ensures ViewOf(GraceExpires(c, id)) == if id in c.pending && c.pending[id].timedOut then AllFailed(c) else ViewOf(c)
  {
    hide Correlated, Below, Steady, FailAll, AllFailed;
    FailAllView(c);
  }

  lemma {:induction false} StepView(c: Connection, cfg: Config, socket: W.Socket, step: Step)
    requires Inv(c, cfg)
    ensures Steady(c) && WaitersParked(c.flow, c.parked) && ViewOf(Apply(c, cfg, socket, step)) == Tabled(c, cfg, socket, step)
  {
    ViewFacts(c, cfg);
    hide Inv, Correlated, Below, Steady, WaitersParked, Apply, Tabled, ViewOf, Viewable;
    if step.RequestStep? || step.ResumeStep? || step.WaiterExpiresStep? || step.RequestExpiresStep? || step.GraceExpiresStep?
       || step.FrameStep? {
      OwnStepView(c, cfg, socket, step);
    } else {
      OtherStepView(c, cfg, socket, step);
    }
  }

  lemma {:induction false} OwnStepView(c: Connection, cfg: Config, socket: W.Socket, step: Step)
    requires Viewable(c) && Steady(c) && WaitersParked(c.flow, c.parked)
    requires step.RequestStep? || step.ResumeStep? || step.WaiterExpiresStep? || step.RequestExpiresStep? || step.GraceExpiresStep?
             || step.FrameStep?
    ensures ViewOf(Apply(c, cfg, socket, step)) == Tabled(c, cfg, socket, step)
  {
    hide Correlated, Below, Steady, WaitersParked, Request, Resume, WaiterExpires, RequestExpires, FailAll, HandleFrame;
    hide Requested, Resumed, Expired, AllFailed, Received, Ids, ViewOf, GraceExpires, Viewable;
    match step
    case RequestStep(cmd, privileged) => RequestView(c, cfg, socket, cmd, privileged);
    case ResumeStep(w, expired, frame) => ResumeView(c, cfg, socket, w, expired, frame);
    case WaiterExpiresStep(w) => WaiterExpiresView(c, w);
    case RequestExpiresStep(id, bytes, frames) => RequestExpiresView(c, id, bytes, frames);
    case GraceExpiresStep(id) => GraceExpiresView(c, id);
    case FrameStep(response) => HandleFrameView(c, cfg, response);
  }

  lemma {:induction false} OtherStepView(c: Connection, cfg: Config, socket: W.Socket, step: Step)
    requires Viewable(c) && Steady(c) && WaitersParked(c.flow, c.parked)
    requires step.LimitsStep? || step.LaneQueueStep? || step.WriteFailsStep? || step.SocketDrainsStep? || step.GoAwayStep? || step.CloseStep?
    ensures ViewOf(Apply(c, cfg, socket, step)) == Tabled(c, cfg, socket, step)
  {
    hide Correlated, Below, Steady, WaitersParked, FailAll, ApplyLimits, ApplyLaneQueueLimit, WriteFails, SocketDrains;
    hide BeginDraining, AllFailed, Cleared, AfterGoAway, Ids, RejectedIds, W.Flush, ViewOf, Viewable;
    match step
    case LimitsStep(connection, lane) => LimitsView(c, connection, lane, 0);
    case LaneQueueStep(limit) => LimitsView(c, None, None, limit);
    case WriteFailsStep(id) => WriteFailsView(c, id);
    case SocketDrainsStep => SocketDrainsView(c, socket);
    case GoAwayStep => DrainedView(c);
    case CloseStep => CloseView(c);
  }

  lemma CloseView(c: Connection)
    requires Viewable(c)
    ensures ViewOf(FailAll(c)) == AllFailed(c)
  {
    hide Correlated, Below, Steady, FailAll, AllFailed;
    FailAllView(c);
  }

  lemma WaiterExpiresView(c: Connection, w: nat)
    requires Steady(c) && WaitersParked(c.flow, c.parked)
    ensures ViewOf(WaiterExpires(c, w)) == ViewOf(c)
  {
    hide F.Valid, F.AtRest, WaitersParked, F.TimeOut;
  }
}
